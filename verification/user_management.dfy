/**
 * The admin's user table (`UserManagement`): the create/edit form check, the
 * client-side filter, the role change, the block toggle, the role labels and
 * the paging of the table.
 */
module UserManagement {
  import opened Common
  import opened Text
  import opened Users
  import Roles
  import Seqs

  // --------------------------------------------------------------- the form

  /** `email`, `user_name`, `role_code` and the optional `password` and
      `confirmPassword` of the form. */
  datatype UserForm = UserForm(email: string, userName: string, roleCode: string,
                               password: Option<string>, confirmPassword: Option<string>)

  datatype Field = EmailField | UserNameField | PasswordField | ConfirmField

  const EmailRequired: string := "Email is required"
  const UserNameRequired: string := "Username is required"
  const PasswordRequired: string := "Password is required"
  const PasswordTooShort: string := "Password must be at least 6 characters"
  const PasswordsDiffer: string := "Passwords do not match"

  /** The minimum length of a new user's password. */
  const MinPasswordLength: nat := 6

  /** The password as `form.password?.trim()` sees it: missing or blank. */
  predicate PasswordBlank(p: Option<string>) {
    p.None? || Trim(p.value) == ""
  }

  /** `form.password?.length ?? 0`. */
  function PasswordLength(p: Option<string>): nat {
    if p.None? then 0 else |p.value|
  }

  /** The message of a required text field: given when the text is blank
      after trimming. */
  function RequiredMessage(text: string, message: string): (r: Option<string>)
    ensures r.Some? <==> Trim(text) == ""
    ensures r.Some? ==> r.value == message
  {
    if Trim(text) == "" then Some(message) else None
  }

  /** The password's message: for a new user only, "required" when blank and
      "too short" when shorter than the minimum. */
  function PasswordMessage(p: Option<string>, editing: bool): (r: Option<string>)
    ensures r.Some? <==> !editing && (PasswordBlank(p) || PasswordLength(p) < MinPasswordLength)
    ensures r.Some? ==> r.value == (if PasswordBlank(p) then PasswordRequired else PasswordTooShort)
  {
    if !editing && PasswordBlank(p) then Some(PasswordRequired)
    else if !editing && PasswordLength(p) < MinPasswordLength then Some(PasswordTooShort)
    else None
  }

  /** The message `validateForm` records for one field, if any. */
  function Message(f: UserForm, editing: bool, field: Field): Option<string> {
    match field
    case EmailField => RequiredMessage(f.email, EmailRequired)
    case UserNameField => RequiredMessage(f.userName, UserNameRequired)
    case PasswordField => PasswordMessage(f.password, editing)
    case ConfirmField => if !editing && f.password != f.confirmPassword then Some(PasswordsDiffer) else None
  }

  /** The error map `validateForm` builds. Email and user name must not be
      blank. A new user (not `editing`) also needs a password that is not
      blank, whose untrimmed length is at least 6, and that equals the
      confirmation; an edit checks no password at all. */
  function ValidateForm(f: UserForm, editing: bool): (errors: map<Field, string>)
    ensures EmailField in errors <==> Trim(f.email) == ""
    ensures UserNameField in errors <==> Trim(f.userName) == ""
    ensures PasswordField in errors <==> !editing && (PasswordBlank(f.password) || PasswordLength(f.password) < MinPasswordLength)
    ensures ConfirmField in errors <==> !editing && f.password != f.confirmPassword
    ensures PasswordField in errors ==>
              errors[PasswordField] == (if PasswordBlank(f.password) then PasswordRequired else PasswordTooShort)
  {
    MessagesOfFields(f, editing);
    map g | g in {EmailField, UserNameField, PasswordField, ConfirmField} && Message(f, editing, g).Some?
          :: Message(f, editing, g).value
  }

  /** The rule behind each field's message. */
  lemma MessagesOfFields(f: UserForm, editing: bool)
    ensures Message(f, editing, EmailField).Some? <==> Trim(f.email) == ""
    ensures Message(f, editing, UserNameField).Some? <==> Trim(f.userName) == ""
    ensures Message(f, editing, PasswordField).Some? <==>
              !editing && (PasswordBlank(f.password) || PasswordLength(f.password) < MinPasswordLength)
    ensures Message(f, editing, ConfirmField).Some? <==> !editing && f.password != f.confirmPassword
    ensures Message(f, editing, PasswordField).Some? ==>
              Message(f, editing, PasswordField).value == (if PasswordBlank(f.password) then PasswordRequired else PasswordTooShort)
  {
  }

  /** `validateForm()` returns true exactly when no error was recorded. */
  function FormValid(f: UserForm, editing: bool): (ok: bool)
    ensures ok <==> ValidateForm(f, editing) == map[]
  {
    |ValidateForm(f, editing).Keys| == 0
  }

  /** The form is accepted exactly when email and user name hold a non-space
      character and, for a new user, the password holds one, has at least 6
      characters and is confirmed. */
  lemma FormValidIff(f: UserForm, editing: bool)
    ensures FormValid(f, editing) <==>
              !AllSpace(f.email) && !AllSpace(f.userName)
              && (!editing ==> f.password.Some? && !AllSpace(f.password.value)
                               && |f.password.value| >= MinPasswordLength && f.password == f.confirmPassword)
  {
    TrimEmptyIffAllSpace(f.email);
    TrimEmptyIffAllSpace(f.userName);
    PasswordPasses(f.password, editing);
    NoErrorsIff(ValidateForm(f, editing));
  }

  /** The password rule passes exactly for an edit, or for a present,
      non-blank password of the minimum length. */
  lemma PasswordPasses(p: Option<string>, editing: bool)
    ensures !(!editing && (PasswordBlank(p) || PasswordLength(p) < MinPasswordLength)) <==>
              (!editing ==> p.Some? && !AllSpace(p.value) && |p.value| >= MinPasswordLength)
  {
    if p.Some? {
      TrimEmptyIffAllSpace(p.value);
    }
  }

  /** An error map is empty exactly when none of the four fields is in it. */
  lemma NoErrorsIff(errors: map<Field, string>)
    ensures errors == map[] <==>
              EmailField !in errors && UserNameField !in errors && PasswordField !in errors && ConfirmField !in errors
  {
    if errors != map[] {
      var g :| g in errors;
      assert g == EmailField || g == UserNameField || g == PasswordField || g == ConfirmField;
    }
  }

  /** The length rule counts the untrimmed password: three characters padded
      with spaces pass it. */
  lemma PaddedShortPasswordAccepted()
    ensures FormValid(UserForm("a@b.c", "ann", Roles.AdminCode, Some("  abc  "), Some("  abc  ")), false)
  {
    var f := UserForm("a@b.c", "ann", Roles.AdminCode, Some("  abc  "), Some("  abc  "));
    assert !IsSpace('a');
    assert f.email[0] == 'a' && f.userName[0] == 'a' && f.password.value[2] == 'a';
    FormValidIff(f, false);
  }

  // ------------------------------------------------------------- the filter

  /** `filteredUsers`: the search term, lowered, occurs in the lowered email,
      user name or role code. */
  predicate UserMatches(u: User, term: string) {
    ContainsIgnoringCase(u.email, term) || ContainsIgnoringCase(u.userName, term) || ContainsIgnoringCase(u.roleCode, term)
  }

  function FilterFor(term: string): User -> bool {
    (u: User) => UserMatches(u, term)
  }

  function FilteredUsers(users: seq<User>, term: string): (r: seq<User>)
    ensures forall k :: 0 <= k < |r| ==> r[k] in users && UserMatches(r[k], term)
    ensures forall k :: 0 <= k < |users| && UserMatches(users[k], term) ==> users[k] in r
  {
    Seqs.Filter(users, FilterFor(term))
  }

  /** An empty search box shows every loaded user. */
  lemma EmptyTermKeepsAll(users: seq<User>)
    ensures FilteredUsers(users, "") == users
  {
    forall k | 0 <= k < |users|
      ensures UserMatches(users[k], "")
    {
      ContainsEmpty(Lower(users[k].email));
    }
    Seqs.FilterKeepsAll(users, FilterFor(""));
  }

  /** Case does not matter: lowering the term first filters the same users. */
  lemma FilterIgnoresTermCase(users: seq<User>, term: string)
    ensures FilteredUsers(users, Lower(term)) == FilteredUsers(users, term)
  {
    LowerIdempotent(term);
    Seqs.FilterSameTest(users, FilterFor(Lower(term)), FilterFor(term));
  }

  // -------------------------------------------------------------- role map

  /** `roleMap`: the label shown for a role code. */
  function RoleLabel(code: string): (r: Option<string>)
    ensures r.Some? <==> Roles.FromCode(code).Some?
  {
    if code == Roles.AdminCode then Some("Admin")
    else if code == Roles.FinanceCode then Some("Finance")
    else if code == Roles.ApproverCode then Some("Approval")
    else if code == Roles.MemberCode then Some("Member")
    else None
  }

  /** Different roles get different labels. */
  lemma RoleLabelsDistinct(a: Roles.Role, b: Roles.Role)
    ensures RoleLabel(a.Code()) == RoleLabel(b.Code()) <==> a == b
  {
  }

  // ----------------------------------------------------------- role change

  /** `users.map(u => u._id === id ? { ...u, role_code: role } : u)`. */
  function SetRole(users: seq<User>, id: string, role: string): (r: seq<User>)
    ensures |r| == |users|
    ensures forall k :: 0 <= k < |users| ==> r[k] == (if users[k].id == id then users[k].(roleCode := role) else users[k])
  {
    seq(|users|, k requires 0 <= k < |users| => if users[k].id == id then users[k].(roleCode := role) else users[k])
  }

  /** The `change-role` request: user id and new role code. */
  datatype RoleRequest = RoleRequest(userId: string, roleCode: string)

  datatype RoleStep = RoleStep(users: seq<User>, sent: Option<RoleRequest>)

  /** Whether `handleRoleChange` sends anything: a non-empty id of a loaded
      user whose role differs from the chosen one. */
  predicate RoleChangeSent(users: seq<User>, id: string, role: string) {
    id != "" && FindUser(users, id).Some? && FindUser(users, id).value.roleCode != role
  }

  /** `handleRoleChange` as written. `changeUserRole` in the user service
      catches every error and returns `false`, so the awaited call never
      throws and the list is updated whatever the server answered. */
  function RoleChangeAsWritten(users: seq<User>, id: string, role: string, outcome: Outcome): (r: RoleStep)
    ensures r.sent.None? <==> !RoleChangeSent(users, id, role)
    ensures r.sent.None? ==> r.users == users
    ensures r.sent.Some? ==> r.sent.value == RoleRequest(id, role) && r.users == SetRole(users, id, role)
  {
    if !RoleChangeSent(users, id, role) then RoleStep(users, None)
    else RoleStep(SetRole(users, id, role), Some(RoleRequest(id, role)))
  }

  /** As written, a role change the server refused still shows as made. */
  lemma RefusedRoleChangeShownAsMade()
    ensures var users := [User("u1", "ann", "ann@x.io", Roles.MemberCode, false)];
            var r := RoleChangeAsWritten(users, "u1", Roles.AdminCode, Threw);
            r.sent.Some? && r.users[0].roleCode == Roles.AdminCode
  {
    var users := [User("u1", "ann", "ann@x.io", Roles.MemberCode, false)];
    assert FindUser(users, "u1") == Some(users[0]);
  }

  /** `handleRoleChange` as its error branch intends it: the same request, but
      only a call that succeeded changes the list; a failed one leaves every
      user as it was. */
  function RoleChange(users: seq<User>, id: string, role: string, outcome: Outcome): (r: RoleStep)
    ensures r.sent.None? <==> !RoleChangeSent(users, id, role)
    ensures r.sent.Some? ==> r.sent.value == RoleRequest(id, role)
    ensures outcome != Succeeded || r.sent.None? ==> r.users == users
    ensures r.sent.Some? && outcome == Succeeded ==>
              |r.users| == |users| &&
              forall k :: 0 <= k < |users| ==>
                r.users[k] == (if users[k].id == id then users[k].(roleCode := role) else users[k])
  {
    if !RoleChangeSent(users, id, role) then RoleStep(users, None)
    else RoleStep(if outcome == Succeeded then SetRole(users, id, role) else users, Some(RoleRequest(id, role)))
  }

  /** After a successful change the shown role of that user is the chosen one,
      so choosing it again sends nothing. */
  lemma RoleChangeSettles(users: seq<User>, id: string, role: string, o: Outcome)
    requires RoleChangeSent(users, id, role)
    ensures var r := RoleChange(users, id, role, Succeeded);
            RoleChange(r.users, id, role, o) == RoleStep(r.users, None)
  {
    var r := RoleChange(users, id, role, Succeeded).users;
    var u := FindUser(r, id);
    assert u.Some? by {
      var j :| 0 <= j < |users| && users[j] == FindUser(users, id).value;
      assert r[j].id == id;
    }
    var j :| 0 <= j < |r| && r[j] == u.value;
    assert r[j].roleCode == role;
  }

  // ----------------------------------------------------- block and delete

  datatype ConfirmKind = BlockAction | DeleteAction

  /** `confirmDialog`: open flag, the user and the action it was opened for. */
  datatype ConfirmDialog = ConfirmDialog(open: bool, user: Option<User>, action: Option<ConfirmKind>)

  datatype AdminState = AdminState(users: seq<User>, dialog: ConfirmDialog, loading: bool)

  const ClosedDialog: ConfirmDialog := ConfirmDialog(false, None, None)

  /** `users.map(u => u._id === id ? { ...u, is_blocked: blocked } : u)`. */
  function SetBlocked(users: seq<User>, id: string, blocked: bool): (r: seq<User>)
    ensures |r| == |users|
    ensures forall k :: 0 <= k < |users| ==> r[k] == (if users[k].id == id then users[k].(isBlocked := blocked) else users[k])
  {
    seq(|users|, k requires 0 <= k < |users| => if users[k].id == id then users[k].(isBlocked := blocked) else users[k])
  }

  /** What a confirm leaves behind: the page state, and whether the handler
      goes on to `fetchUsers()` to reload the table. */
  datatype ConfirmStep = ConfirmStep(state: AdminState, refetch: bool)

  /** `handleConfirmAction`. Loading is switched on first; without a user or
      an action the handler returns there. A block sends the negation of the
      dialog's snapshot of `is_blocked` and, unless the call throws, every row
      with that id takes that value. A delete changes no row itself: once
      `deleteUser` answers, the table is reloaded through `fetchUsers` (see
      `DeletedUserLeavesAfterRefetch`); a thrown delete reloads nothing.
      Either way the dialog is reset and loading ends. */
  function ConfirmAction(st: AdminState, threw: bool): (r: ConfirmStep)
    ensures st.dialog.user.None? || st.dialog.action.None? ==> r.state == st.(loading := true)
    ensures st.dialog.user.Some? && st.dialog.action.Some? ==> r.state.dialog == ClosedDialog && !r.state.loading
    ensures threw || st.dialog.action != Some(BlockAction) ==> r.state.users == st.users
    ensures !threw && st.dialog.user.Some? && st.dialog.action == Some(BlockAction) ==>
              var u := st.dialog.user.value;
              |r.state.users| == |st.users| &&
              forall k :: 0 <= k < |st.users| ==>
                r.state.users[k] == (if st.users[k].id == u.id then st.users[k].(isBlocked := !u.isBlocked) else st.users[k])
    ensures r.refetch <==> st.dialog.user.Some? && st.dialog.action == Some(DeleteAction) && !threw
  {
    if st.dialog.user.None? || st.dialog.action.None? then ConfirmStep(st.(loading := true), false)
    else
      var u := st.dialog.user.value;
      var users := if st.dialog.action.value == BlockAction && !threw then SetBlocked(st.users, u.id, !u.isBlocked) else st.users;
      ConfirmStep(AdminState(users, ClosedDialog, false), st.dialog.action.value == DeleteAction && !threw)
  }

  /** The block button: opens the dialog on a snapshot of the row. */
  function OpenBlock(st: AdminState, u: User): (r: AdminState)
    ensures r.users == st.users && r.dialog == ConfirmDialog(true, Some(u), Some(BlockAction))
  {
    st.(dialog := ConfirmDialog(true, Some(u), Some(BlockAction)))
  }

  predicate UniqueIds(users: seq<User>) {
    forall i, j :: 0 <= i < j < |users| ==> users[i].id != users[j].id
  }

  /** Blocking a user and then unblocking the updated row restores the list. */
  lemma BlockTwiceRestores(st: AdminState, k: nat)
    requires k < |st.users| && UniqueIds(st.users)
    ensures var r1 := ConfirmAction(OpenBlock(st, st.users[k]), false).state;
            var r2 := ConfirmAction(OpenBlock(r1, r1.users[k]), false).state;
            r2.users == st.users
  {
  }

  // ---------------------------------------------------------------- paging

  /** `response.pageInfo.totalPages || 1`: a missing or zero page count
      becomes 1, any other count is kept. */
  function TotalPagesOr1(totalPages: Option<int>): (r: int)
    ensures r != 0
    ensures totalPages.Some? && totalPages.value != 0 ==> r == totalPages.value
  {
    if totalPages.None? || totalPages.value == 0 then 1 else totalPages.value
  }

  /** The 1-based `pageNum`, `pageSize` and `totalPages` the table keeps. */
  datatype Pager = Pager(pageNum: int, pageSize: int, totalPages: int)

  /** What the table component is given: the item count it shows and its
      0-based page. */
  function ShownCount(p: Pager): int { p.totalPages * p.pageSize }
  function ShownPage(p: Pager): int { p.pageNum - 1 }

  /** `onPageChange`: the component's 0-based page becomes `pageNum - 1`... */
  function OnPageChange(p: Pager, newPage: int): (r: Pager)
    ensures ShownPage(r) == newPage && r.pageSize == p.pageSize && r.totalPages == p.totalPages
  {
    p.(pageNum := newPage + 1)
  }

  /** ... and `onRowsPerPageChange` goes back to the first page. */
  function OnRowsPerPageChange(p: Pager, rows: int): (r: Pager)
    ensures ShownPage(r) == 0 && r.pageSize == rows && r.totalPages == p.totalPages
  {
    p.(pageNum := 1, pageSize := rows)
  }

  /** Moving to the page the component shows changes nothing. */
  lemma PageRoundTrip(p: Pager)
    ensures OnPageChange(p, ShownPage(p)) == p
  {
  }

  /** The users table and its pager. */
  datatype UserTable = UserTable(users: seq<User>, pager: Pager)

  /** `fetchUsers`: `searchUsers` never throws, so a failed request arrives
      as its fallback page and the `catch` is never reached. An answer with
      both rows and page info replaces the users and the page count (a zero
      or missing count read as 1); an answer lacking either empties the list
      and keeps the page count. */
  function FetchUsers(t: UserTable, server: Option<UsersReply>): (r: UserTable)
    ensures r.pager.pageNum == t.pager.pageNum && r.pager.pageSize == t.pager.pageSize
    ensures var reply := SearchUsersResult(server);
            reply.pageData.Some? && reply.pageInfo.Some? ==>
              r.users == reply.pageData.value && r.pager.totalPages == TotalPagesOr1(reply.pageInfo.value.totalPages)
    ensures var reply := SearchUsersResult(server);
            reply.pageData.None? || reply.pageInfo.None? ==> r.users == [] && r.pager == t.pager
    ensures ShownCount(r.pager) != 0 || r.pager.pageSize == 0 || r.pager == t.pager
  {
    var reply := SearchUsersResult(server);
    if reply.pageData.Some? && reply.pageInfo.Some? then
      UserTable(reply.pageData.value, t.pager.(totalPages := TotalPagesOr1(reply.pageInfo.value.totalPages)))
    else UserTable([], t.pager)
  }

  /** A failed request empties the table and leaves a single page, whatever
      was shown before. */
  lemma FailedFetchShowsOnePage(t: UserTable)
    ensures FetchUsers(t, None) == UserTable([], t.pager.(totalPages := 1))
  {
  }

  /** A completed delete reloads the table, and once the server has dropped
      the user, the reloaded table no longer lists them, whatever it showed
      before. */
  lemma DeletedUserLeavesAfterRefetch(st: AdminState, t: UserTable, reply: UsersReply)
    requires st.dialog.user.Some? && st.dialog.action == Some(DeleteAction)
    requires reply.pageData.Some? ==>
               forall k :: 0 <= k < |reply.pageData.value| ==> reply.pageData.value[k].id != st.dialog.user.value.id
    ensures ConfirmAction(st, false).refetch
    ensures var shown := FetchUsers(t, Some(reply)).users;
            forall k :: 0 <= k < |shown| ==> shown[k].id != st.dialog.user.value.id
  {
  }

  /** The keyword sent is the trimmed search box. */
  function SearchKeyword(term: string): (k: string)
    ensures k == [] <==> AllSpace(term)
  {
    TrimEmptyIffAllSpace(term);
    Trim(term)
  }
}
