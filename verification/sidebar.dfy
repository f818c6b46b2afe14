/**
 * The side bar (`SideBar`): where each menu entry leads, and which entries
 * a user sees for the `role_code` stored with the session.
 */
module SideBar {
  import opened Common
  import opened Roles
  import Login

  // ------------------------------------------------------------ navigation

  /** The dashboard of a role code: the member's, the admin's and the
      approver's have one; any other code, the finance code among them,
      gets the dead link "/#". */
  function DashboardOf(roleCode: Option<string>): (r: string)
    ensures r != "/#" <==> roleCode in {Some(MemberCode), Some(AdminCode), Some(ApproverCode)}
  {
    if roleCode == Some("A004") then "/user/dashboard"
    else if roleCode == Some("A001") then "/admin/dashboard"
    else if roleCode == Some("A003") then "/approval/dashboard"
    else "/#"
  }

  /** Each dashboard lies under the home page the role lands on at login;
      the finance role, which lands on "/finance", has none. */
  lemma DashboardUnderHome(role: Role)
    ensures role != Finance ==> DashboardOf(Some(role.Code())) == Login.RoleHome(role) + "/dashboard"
    ensures role == Finance ==> DashboardOf(Some(role.Code())) == "/#"
  {
  }

  /** Where a click leads, and the side bar's state after it. */
  datatype Navigation = Navigation(target: string, open: bool)

  /** `handleNavigation`: "/my-requests" leads to the member's request page,
      "/dashboard" to the dashboard of the role, and any other path to
      itself; the side bar is toggled after every click. */
  function Navigate(path: string, roleCode: Option<string>, open: bool): (r: Navigation)
    ensures r.open == !open
    ensures path == "/my-requests" ==> r.target == "/user/my-requests"
    ensures path == "/dashboard" ==> r.target == DashboardOf(roleCode)
    ensures path != "/my-requests" && path != "/dashboard" ==> r.target == path
  {
    var target := if path == "/my-requests" then "/user/my-requests"
                  else if path == "/dashboard" then DashboardOf(roleCode)
                  else path;
    Navigation(target, !open)
  }

  /** The "Dashboard" entry of a signed-in role leads under the home page
      that role lands on at login, and "My Claims" under the member's home (role `User`);
      the finance role's dashboard link is dead. */
  lemma DashboardLinkLeadsHome(role: Role, open: bool)
    ensures role != Finance ==> Navigate("/dashboard", Some(role.Code()), open).target == Login.RoleHome(role) + "/dashboard"
    ensures role == Finance ==> Navigate("/dashboard", Some(role.Code()), open).target == "/#"
    ensures Navigate("/my-requests", Some(role.Code()), open).target == Login.RoleHome(User) + "/my-requests"
  {
    DashboardUnderHome(role);
  }

  // ------------------------------------------------------------------ menu

  /** A menu entry: its text and the path it leads to, if it is a link. */
  datatype Entry = Entry(text: string, path: Option<string>)

  const BaseMenu: seq<Entry> := [Entry("Home", Some("/")), Entry("Dashboard", Some("/dashboard")),
                                 Entry("View Project", Some("/viewprojects")), Entry("My Claims", Some("/my-requests"))]
  const ManagementHeader := Entry("Management", None)
  const ManagementLinks: seq<Entry> := [Entry("Manage Staff", Some("/admin/managestaff")),
                                        Entry("Manage Project", Some("/admin/manageproject"))]
  const ApproveClaims := Entry("Approve Claims", Some("/approval/claims"))
  const PaidClaims := Entry("Paid Claims", Some("/finance/claims"))

  /** The entries a role sees after the base menu: the management group for
      the admin (its links only while expanded), "Approve Claims" for the
      approver and "Paid Claims" for finance. The codes are distinct, so at
      most one group shows. */
  function RoleSection(roleCode: Option<string>, expanded: bool): seq<Entry> {
    (if roleCode == Some(AdminCode) then [ManagementHeader] + (if expanded then ManagementLinks else []) else [])
    + (if roleCode == Some(ApproverCode) then [ApproveClaims] else [])
    + (if roleCode == Some(FinanceCode) then [PaidClaims] else [])
  }

  /** None of the role entries is in the base menu: the header has no path,
      and every role link's path is longer than any base path. */
  lemma RoleEntriesNotInBase()
    ensures ManagementHeader !in BaseMenu && ManagementLinks[0] !in BaseMenu && ManagementLinks[1] !in BaseMenu
    ensures ApproveClaims !in BaseMenu && PaidClaims !in BaseMenu
  {
    forall k | 0 <= k < |BaseMenu|
      ensures BaseMenu[k].path.Some? && |BaseMenu[k].path.value| <= 13
    {
    }
  }

  /** The role section holds each role entry exactly for its role. */
  lemma RoleSectionEntries(roleCode: Option<string>, expanded: bool)
    ensures ManagementHeader in RoleSection(roleCode, expanded) <==> roleCode == Some(AdminCode)
    ensures ManagementLinks[0] in RoleSection(roleCode, expanded) <==> roleCode == Some(AdminCode) && expanded
    ensures ManagementLinks[1] in RoleSection(roleCode, expanded) <==> roleCode == Some(AdminCode) && expanded
    ensures ApproveClaims in RoleSection(roleCode, expanded) <==> roleCode == Some(ApproverCode)
    ensures PaidClaims in RoleSection(roleCode, expanded) <==> roleCode == Some(FinanceCode)
  {
    var r := RoleSection(roleCode, expanded);
    if roleCode == Some(AdminCode) {
      assert r == [ManagementHeader] + (if expanded then ManagementLinks else []);
      assert |ApproveClaims.path.value| == 16 && |PaidClaims.path.value| == 15;
      assert |ManagementLinks[0].path.value| == 18 && |ManagementLinks[1].path.value| == 20;
    } else if roleCode == Some(ApproverCode) {
      assert r == [ApproveClaims];
    } else if roleCode == Some(FinanceCode) {
      assert r == [PaidClaims];
    } else {
      assert r == [];
    }
  }

  /** The menu a user sees: the base menu for everyone, then the management
      group for the admin (its links only while expanded), "Approve Claims"
      for the approver and "Paid Claims" for finance. */
  function Menu(roleCode: Option<string>, expanded: bool): (r: seq<Entry>)
    ensures |BaseMenu| <= |r| && r[..|BaseMenu|] == BaseMenu
    ensures ManagementHeader in r <==> roleCode == Some(AdminCode)
    ensures forall e :: e in ManagementLinks ==> (e in r <==> roleCode == Some(AdminCode) && expanded)
    ensures ApproveClaims in r <==> roleCode == Some(ApproverCode)
    ensures PaidClaims in r <==> roleCode == Some(FinanceCode)
  {
    RoleEntriesNotInBase();
    RoleSectionEntries(roleCode, expanded);
    var r := BaseMenu + RoleSection(roleCode, expanded);
    assert r[..|BaseMenu|] == BaseMenu;
    r
  }

  /** A user of each role sees exactly one section of their own beyond the
      base menu, a member none; without a role code only the base menu. */
  lemma OneSectionPerRole(roleCode: Option<string>, expanded: bool)
    ensures |Menu(roleCode, false)| == |BaseMenu| + (if roleCode in {Some(AdminCode), Some(ApproverCode), Some(FinanceCode)} then 1 else 0)
    ensures roleCode.None? ==> Menu(roleCode, expanded) == BaseMenu
  {
  }
}
