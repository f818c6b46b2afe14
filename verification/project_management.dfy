/**
 * The admin's project list (`ProjectManagementPage`): the create form's
 * schema, the member records a new project is submitted with, deleting a
 * project, and the page resets of the table.
 */
module ProjectManagement {
  import opened Common
  import opened Users
  import opened Paging
  import opened ProjectMembers
  import Seqs

  // ----------------------------------------------------------------- schema

  /** The form's values; a date field that is empty or does not parse is
      missing. */
  datatype ProjectForm = ProjectForm(name: string, code: string, department: string, description: string,
                                     startDay: Option<int>, endDay: Option<int>, members: seq<Member>)

  datatype FormError =
    | NameRequired | CodeRequired | DepartmentRequired | DescriptionRequired
    | StartMissing | EndMissing | EndBeforeStart
    | MembersRequired | MemberUserRequired(index: nat) | MemberRoleRequired(index: nat)

  /** The rules the create and the edit schema share: the four text fields
      are required (an empty string fails, white space passes), both dates
      must be given, and a given end day must not precede the start day.
      The end day's minimum refers to the start field, so without a start
      day the comparison fails and the end day is reported as well. */
  function FieldErrors(f: ProjectForm): (r: set<FormError>)
    ensures NameRequired in r <==> f.name == ""
    ensures CodeRequired in r <==> f.code == ""
    ensures DepartmentRequired in r <==> f.department == ""
    ensures DescriptionRequired in r <==> f.description == ""
    ensures StartMissing in r <==> f.startDay.None?
    ensures EndMissing in r <==> f.endDay.None?
    ensures EndBeforeStart in r <==> f.endDay.Some? && (f.startDay.None? || f.endDay.value < f.startDay.value)
    ensures forall e :: e in r ==> !e.MembersRequired? && !e.MemberUserRequired? && !e.MemberRoleRequired?
  {
    (if f.name == "" then {NameRequired} else {})
    + (if f.code == "" then {CodeRequired} else {})
    + (if f.department == "" then {DepartmentRequired} else {})
    + (if f.description == "" then {DescriptionRequired} else {})
    + (if f.startDay.None? then {StartMissing} else {})
    + (if f.endDay.None? then {EndMissing}
       else if f.startDay.None? || f.endDay.value < f.startDay.value then {EndBeforeStart}
       else {})
  }

  /** Without a start day, a given end day is reported next to the missing
      start: the end day's minimum has nothing to compare against. */
  lemma MissingStartFlagsEnd(f: ProjectForm)
    requires f.startDay.None? && f.endDay.Some?
    ensures StartMissing in FieldErrors(f) && EndBeforeStart in FieldErrors(f) && EndMissing !in FieldErrors(f)
  {
  }

  /** The member rules of the create schema: at least one member, and each
      needs a `user_id` and a `project_role`. */
  function MemberErrors(ms: seq<Member>): (r: set<FormError>)
    ensures MembersRequired in r <==> |ms| == 0
    ensures forall i: nat :: MemberUserRequired(i) in r <==> i < |ms| && ms[i].userId == ""
    ensures forall i: nat :: MemberRoleRequired(i) in r <==> i < |ms| && ms[i].projectRole == ""
    ensures forall e :: e in r ==> e.MembersRequired? || e.MemberUserRequired? || e.MemberRoleRequired?
  {
    (if |ms| == 0 then {MembersRequired} else {})
    + (set i: nat | i < |ms| && ms[i].userId == "" :: MemberUserRequired(i))
    + (set i: nat | i < |ms| && ms[i].projectRole == "" :: MemberRoleRequired(i))
  }

  /** Every error of the create form: the union of the field rules and the
      member rules (its partner is `CreateAcceptedIff`). */
  function CreateErrors(f: ProjectForm): (r: set<FormError>)
    ensures r == FieldErrors(f) + MemberErrors(f.members)
  {
    FieldErrors(f) + MemberErrors(f.members)
  }

  /** A complete member row: a user was chosen and a role given. */
  predicate MemberComplete(m: Member) {
    m.userId != "" && m.projectRole != ""
  }

  /** The create form is accepted exactly when the four text fields are
      filled, both dates are given in order, and there is at least one
      member, each complete. */
  lemma CreateAcceptedIff(f: ProjectForm)
    ensures CreateErrors(f) == {} <==>
              f.name != "" && f.code != "" && f.department != "" && f.description != ""
              && f.startDay.Some? && f.endDay.Some? && f.startDay.value <= f.endDay.value
              && |f.members| >= 1 && forall k :: 0 <= k < |f.members| ==> MemberComplete(f.members[k])
  {
    var r := CreateErrors(f);
    if r == {} {
      forall k | 0 <= k < |f.members|
        ensures MemberComplete(f.members[k])
      {
        assert MemberUserRequired(k) !in r && MemberRoleRequired(k) !in r;
      }
    } else {
      var e :| e in r;
      if e.MemberUserRequired? {
        assert f.members[e.index].userId == "";
      } else if e.MemberRoleRequired? {
        assert f.members[e.index].projectRole == "";
      }
    }
  }

  /** A fresh create form (one blank member) is never accepted as it is. */
  lemma BlankMemberRejected(f: ProjectForm)
    requires f.members == PrependBlank([])
    ensures MemberUserRequired(0) in CreateErrors(f) && MemberRoleRequired(0) in CreateErrors(f)
  {
  }

  // ----------------------------------------------------- submitted members

  /** A member as `onSubmit` sends it. */
  datatype ProjectUser = ProjectUser(id: string, userId: string, projectRole: string, userName: string, email: string)

  /** The name and e-mail of the first loaded user with that id, or "". */
  function LookupName(users: seq<User>, id: string): (r: (string, string))
    ensures FindUser(users, id).None? ==> r == ("", "")
    ensures FindUser(users, id).Some? ==> r == (FindUser(users, id).value.userName, FindUser(users, id).value.email)
  {
    var u := FindUser(users, id);
    if u.None? then ("", "") else (u.value.userName, u.value.email)
  }

  /** One submitted member: `_id` is the user id, the name and e-mail come
      from the loaded users (empty when the user is not loaded), the role is
      the form's. */
  function Submitted(users: seq<User>, m: Member): (r: ProjectUser)
    ensures r.id == m.userId && r.userId == m.userId && r.projectRole == m.projectRole
    ensures (r.userName, r.email) == LookupName(users, m.userId)
  {
    var (name, email) := LookupName(users, m.userId);
    ProjectUser(m.userId, m.userId, m.projectRole, name, email)
  }

  function SubmittedMembers(users: seq<User>, ms: seq<Member>): (r: seq<ProjectUser>)
    ensures |r| == |ms|
    ensures forall k :: 0 <= k < |ms| ==> r[k] == Submitted(users, ms[k])
  {
    seq(|ms|, k requires 0 <= k < |ms| => Submitted(users, ms[k]))
  }

  /** A submitted member that names a loaded user carries the name and
      e-mail of the first loaded user with that id. */
  lemma SubmittedMembersFaithful(users: seq<User>, ms: seq<Member>, k: nat, j: nat)
    requires k < |ms| && j < |users| && users[j].id == ms[k].userId
    requires forall i :: 0 <= i < j ==> users[i].id != users[j].id
    ensures var p := SubmittedMembers(users, ms)[k];
            p.userName == users[j].userName && p.email == users[j].email
  {
    var u := FindUser(users, ms[k].userId);
    var i :| 0 <= i < |users| && users[i] == u.value && forall i' :: 0 <= i' < i ==> users[i'].id != ms[k].userId;
    assert i == j;
  }

  // ---------------------------------------------------------------- delete

  /** A row of the project table. */
  datatype ProjectRow = ProjectRow(id: string, name: string, code: string)

  datatype DeleteState = DeleteState(projects: seq<ProjectRow>, selected: Option<string>, confirmOpen: bool)

  function NotId(id: string): ProjectRow -> bool {
    (p: ProjectRow) => p.id != id
  }

  /** `handleConfirmDelete`: without a selected id nothing happens at all.
      Otherwise, unless the delete throws, the rows with that id are dropped
      and the others keep their order; either way the dialog closes and the
      selection is cleared. */
  function ConfirmDelete(st: DeleteState, threw: bool): (r: DeleteState)
    ensures !Truthy(st.selected) ==> r == st
    ensures Truthy(st.selected) ==> !r.confirmOpen && r.selected.None?
    ensures Truthy(st.selected) && !threw ==>
              (forall k :: 0 <= k < |r.projects| ==> r.projects[k].id != st.selected.value && r.projects[k] in st.projects)
              && (forall k :: 0 <= k < |st.projects| && st.projects[k].id != st.selected.value ==> st.projects[k] in r.projects)
    ensures threw ==> r.projects == st.projects
    ensures Truthy(st.selected) && !threw ==> r.projects == Seqs.Filter(st.projects, NotId(st.selected.value))
  {
    if !Truthy(st.selected) then st
    else
      var projects := if threw then st.projects else Seqs.Filter(st.projects, NotId(st.selected.value));
      DeleteState(projects, None, false)
  }

  /** The rows left after a delete keep the table's order: deleting from a
      table split in two leaves each half's survivors, one after the other. */
  lemma DeleteKeepsOrder(a: seq<ProjectRow>, b: seq<ProjectRow>, id: string)
    ensures Seqs.Filter(a + b, NotId(id)) == Seqs.Filter(a, NotId(id)) + Seqs.Filter(b, NotId(id))
  {
    Seqs.FilterAppend(a, b, NotId(id));
  }

  /** Deleting an id that is no longer listed leaves the table as it is, so
      a repeated delete of the same project changes nothing more. */
  lemma DeleteTwiceIsDeleteOnce(projects: seq<ProjectRow>, id: string)
    ensures var once := Seqs.Filter(projects, NotId(id));
            Seqs.Filter(once, NotId(id)) == once
  {
    var once := Seqs.Filter(projects, NotId(id));
    Seqs.FilterKeepsAll(once, NotId(id));
  }

  // ---------------------------------------------------------- page resets

  /** `handleSearch`: a new search term always starts at the first page. */
  function SearchTermChange(t: TablePage, term: string): (r: (string, TablePage))
    ensures r.0 == term && r.1.page == 0 && r.1.rowsPerPage == t.rowsPerPage
  {
    (term, t.(page := 0))
  }

  /** Both resets of the table (a search term or a page size) land on the
      first page, from which a request asks for page 1. */
  lemma ResetsRequestFirstPage(t: TablePage, term: string, rows: nat)
    ensures RequestPageNum(SearchTermChange(t, term).1) == 1
    ensures RequestPageNum(ChangeRowsPerPage(t, rows)) == 1
  {
  }
}
