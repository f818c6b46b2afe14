/**
 * The admin's project detail page (`ProjectDetail`): the edit form's schema,
 * the dates it is filled with, and the member edits specific to it.
 */
module ProjectDetail {
  import opened Common
  import opened Users
  import opened ProjectMembers
  import ProjectManagement

  // ----------------------------------------------------------------- schema

  /** The edit schema: the shared field rules and no rule on the members. */
  function EditErrors(f: ProjectManagement.ProjectForm): (r: set<ProjectManagement.FormError>)
    ensures r == ProjectManagement.FieldErrors(f)
    ensures r <= ProjectManagement.CreateErrors(f)
  {
    ProjectManagement.FieldErrors(f)
  }

  /** The edit form accepts a project without members, which the create form
      refuses; everything the create form accepts the edit form accepts too. */
  lemma EditLaxerThanCreate(f: ProjectManagement.ProjectForm)
    ensures ProjectManagement.CreateErrors(f) == {} ==> EditErrors(f) == {}
    ensures EditErrors(f) == {} && f.members == [] ==> ProjectManagement.CreateErrors(f) == {ProjectManagement.MembersRequired}
  {
  }

  // ----------------------------------------------------------- date prefill

  /** `s.split("T")[0]`: the part of `s` before its first "T". */
  function BeforeT(s: string): (r: string)
    ensures |r| <= |s| && r == s[..|r|]
    ensures 'T' !in r
    ensures |r| < |s| ==> s[|r|] == 'T'
  {
    if s == [] || s[0] == 'T' then []
    else [s[0]] + BeforeT(s[1..])
  }

  /** The initial value: `d ? d.split("T")[0] : ""`. */
  function PrefillInitial(d: Option<string>): (r: string)
    ensures !Truthy(d) ==> r == ""
    ensures Truthy(d) ==> r == BeforeT(d.value)
  {
    if !Truthy(d) then "" else BeforeT(d.value)
  }

  /** The value on opening the dialog: `d?.split("T")[0] || ""`. */
  function PrefillOnOpen(d: Option<string>): (r: string)
    ensures 'T' !in r
  {
    var part := if d.None? then None else Some(BeforeT(d.value));
    if !Truthy(part) then "" else part.value
  }

  /** Both ways of filling the date field give the same text. */
  lemma PrefillsAgree(d: Option<string>)
    ensures PrefillInitial(d) == PrefillOnOpen(d)
  {
  }

  /** The day part of a stored ISO date-time comes back out unchanged. */
  lemma {:induction false} PrefillRoundTrip(day: string, time: string)
    requires 'T' !in day
    ensures BeforeT(day + "T" + time) == day
  {
    if day != [] {
      assert (day + "T" + time)[1..] == day[1..] + "T" + time;
      PrefillRoundTrip(day[1..], time);
    }
  }

  // --------------------------------------------------------- member edits

  /** Choosing a user for row `index`: `_id` and `user_id` become the chosen
      id, name and e-mail are copied from the loaded users (empty when the id
      is not among them), and the row keeps its role. */
  function ChooseUser(users: seq<User>, ms: seq<Member>, index: nat, id: string): (r: seq<Member>)
    requires index < |ms|
    ensures |r| == |ms|
    ensures forall k :: 0 <= k < |ms| && k != index ==> r[k] == ms[k]
    ensures r[index].id == id && r[index].userId == id && r[index].projectRole == ms[index].projectRole
    ensures (r[index].userName, r[index].email) == ProjectManagement.LookupName(users, id)
  {
    var (name, email) := ProjectManagement.LookupName(users, id);
    ms[index := Member(id, id, name, email, ms[index].projectRole)]
  }

  /** `handleMemberChange` of the edit dialog: a change of `user_id` chooses
      that user; any other field is set on its own. */
  function MemberChange(users: seq<User>, ms: seq<Member>, index: nat, f: MemberField, value: string): (r: seq<Member>)
    requires index < |ms|
    ensures |r| == |ms|
    ensures forall k :: 0 <= k < |ms| && k != index ==> r[k] == ms[k]
    ensures Get(r[index], f) == value
    ensures f != UserIdField ==> forall g: MemberField :: g != f ==> Get(r[index], g) == Get(ms[index], g)
    ensures f == UserIdField ==> r[index].projectRole == ms[index].projectRole
  {
    if f == UserIdField then ChooseUser(users, ms, index, value) else SetField(ms, index, f, value)
  }

  /** Choosing the same user again changes nothing. */
  lemma ChooseUserIdempotent(users: seq<User>, ms: seq<Member>, index: nat, id: string)
    requires index < |ms|
    ensures ChooseUser(users, ChooseUser(users, ms, index, id), index, id) == ChooseUser(users, ms, index, id)
  {
  }

  /** A row chosen on this page already holds what the create page would
      submit for it: the same `_id`, user id, role, name and e-mail. */
  lemma ChosenRowMatchesSubmission(users: seq<User>, ms: seq<Member>, index: nat, id: string)
    requires index < |ms|
    ensures var m := ChooseUser(users, ms, index, id)[index];
            ProjectManagement.Submitted(users, m)
            == ProjectManagement.ProjectUser(m.id, m.userId, m.projectRole, m.userName, m.email)
  {
  }
}
