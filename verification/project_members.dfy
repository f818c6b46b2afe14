/**
 * Editing the member list of a project form, shared by the create dialog
 * (`ProjectManagementPage`) and the edit dialog (`ProjectDetail`): prepend a
 * blank member, remove one, change a field of one, and filter the users a
 * member can be chosen from.
 */
module ProjectMembers {
  import opened Common
  import opened Text
  import opened Users
  import Seqs

  /** A project member: `_id`, `user_id`, `user_name`, `email` and
      `project_role`; a field the form never set is the empty string. */
  datatype Member = Member(id: string, userId: string, userName: string, email: string, projectRole: string)

  datatype MemberField = IdField | UserIdField | UserNameField | EmailField | ProjectRoleField

  const Blank: Member := Member("", "", "", "", "")

  /** `handleAddMember`: a blank member goes first, the others follow in order. */
  function PrependBlank(ms: seq<Member>): (r: seq<Member>)
    ensures |r| == |ms| + 1 && r[0] == Blank && r[1..] == ms
  {
    [Blank] + ms
  }

  /** `splice(index, 1)` on a copy: exactly the member at `index` goes, the
      rest keep their order; an index past the end removes nothing. */
  function RemoveAt(ms: seq<Member>, index: nat): (r: seq<Member>)
    ensures index < |ms| ==> |r| == |ms| - 1
    ensures index >= |ms| ==> r == ms
    ensures forall k :: 0 <= k < |r| ==> r[k] == (if k < index then ms[k] else ms[k + 1])
  {
    if index < |ms| then ms[..index] + ms[index + 1..] else ms
  }

  /** The remove button is enabled only while more than one member is listed. */
  predicate RemoveEnabled(ms: seq<Member>) {
    |ms| > 1
  }

  /** A member's field, by name. */
  function Get(m: Member, f: MemberField): string {
    match f
    case IdField => m.id
    case UserIdField => m.userId
    case UserNameField => m.userName
    case EmailField => m.email
    case ProjectRoleField => m.projectRole
  }

  /** `{ ...member, [field]: value }`. */
  function With(m: Member, f: MemberField, value: string): (r: Member)
    ensures Get(r, f) == value
    ensures forall g: MemberField :: g != f ==> Get(r, g) == Get(m, g)
  {
    match f
    case IdField => m.(id := value)
    case UserIdField => m.(userId := value)
    case UserNameField => m.(userName := value)
    case EmailField => m.(email := value)
    case ProjectRoleField => m.(projectRole := value)
  }

  /** Setting a field to what it holds changes nothing, so `With` changes
      exactly the one field. */
  lemma WithOwnValue(m: Member, f: MemberField)
    ensures With(m, f, Get(m, f)) == m
  {
  }

  /** `handleMemberChange` of the create dialog: one field of member `index`
      changes, nothing else. The index always comes from the rendered list. */
  function SetField(ms: seq<Member>, index: nat, f: MemberField, value: string): (r: seq<Member>)
    requires index < |ms|
    ensures |r| == |ms|
    ensures Get(r[index], f) == value
    ensures forall g: MemberField :: g != f ==> Get(r[index], g) == Get(ms[index], g)
    ensures forall k :: 0 <= k < |ms| && k != index ==> r[k] == ms[k]
  {
    ms[index := With(ms[index], f, value)]
  }

  /** A blank member added and then removed again leaves the list as it was;
      so does removing the first member after an add. */
  lemma AddThenRemoveFirst(ms: seq<Member>)
    ensures RemoveAt(PrependBlank(ms), 0) == ms
  {
  }

  /** Adding never disables removal, and removal is offered only when it
      leaves at least one member. */
  lemma RemoveKeepsOneMember(ms: seq<Member>, index: nat)
    requires RemoveEnabled(ms)
    ensures |RemoveAt(ms, index)| >= 1
    ensures RemoveEnabled(PrependBlank(ms))
  {
  }

  /** Changes at two different members do not interfere. */
  lemma SetFieldCommutes(ms: seq<Member>, i: nat, f: MemberField, v: string, j: nat, g: MemberField, w: string)
    requires i < |ms| && j < |ms| && i != j
    ensures SetField(SetField(ms, i, f, v), j, g, w) == SetField(SetField(ms, j, g, w), i, f, v)
  {
  }

  // ------------------------------------------------------------ user search

  /** The search box of a member row: the lowered term occurs in the lowered
      email or user name. */
  predicate UserHit(u: User, term: string) {
    ContainsIgnoringCase(u.email, term) || ContainsIgnoringCase(u.userName, term)
  }

  function HitFor(term: string): User -> bool {
    (u: User) => UserHit(u, term)
  }

  /** `handleUserSearch`: a blank term lists every loaded user; otherwise the
      users the untrimmed term matches, in order. */
  function UserSearch(users: seq<User>, term: string): (r: seq<User>)
    ensures AllSpace(term) ==> r == users
    ensures forall k :: 0 <= k < |r| ==> r[k] in users
    ensures !AllSpace(term) ==> forall k :: 0 <= k < |r| ==> UserHit(r[k], term)
    ensures forall k :: 0 <= k < |users| && UserHit(users[k], term) ==> users[k] in r
  {
    TrimEmptyIffAllSpace(term);
    if Trim(term) == "" then users else Seqs.Filter(users, HitFor(term))
  }

  /** A term that is not blank filters. */
  lemma UserSearchFilters(users: seq<User>, term: string)
    requires !AllSpace(term)
    ensures UserSearch(users, term) == Seqs.Filter(users, HitFor(term))
  {
    TrimEmptyIffAllSpace(term);
  }

  /** Whether a user is hit does not depend on the case of the term. */
  lemma HitIgnoresCase(u: User, term: string)
    ensures UserHit(u, Lower(term)) <==> UserHit(u, term)
  {
    LowerIdempotent(term);
  }

  /** Results do not depend on the case of the term. */
  lemma UserSearchIgnoresCase(users: seq<User>, term: string)
    ensures UserSearch(users, Lower(term)) == UserSearch(users, term)
  {
    LowerKeepsBlank(term);
    if !AllSpace(term) {
      UserSearchFilters(users, term);
      UserSearchFilters(users, Lower(term));
      forall k | 0 <= k < |users|
        ensures HitFor(Lower(term))(users[k]) == HitFor(term)(users[k])
      {
        HitIgnoresCase(users[k], term);
      }
      Seqs.FilterSameTest(users, HitFor(Lower(term)), HitFor(term));
    }
  }
}
