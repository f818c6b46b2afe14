/**
 * The session store (`useUserStore`): the signed-in user and the
 * `isAuthenticated` flag, changed by `login`, `logout` and `updateUser`.
 */
module UserStore {
  import opened Common

  /** The user record the store keeps. */
  datatype StoredUser = StoredUser(id: int, name: string, email: string, role: string)

  /** A partial user: the fields present in the update, the others None. */
  datatype Patch = Patch(id: Option<int>, name: Option<string>, email: Option<string>, role: Option<string>)

  datatype Session = Session(user: Option<StoredUser>, isAuthenticated: bool)

  /** The store as created: nobody signed in. */
  const Initial := Session(None, false)

  /** The store's invariant: it is authenticated exactly when it holds a user. */
  predicate Consistent(s: Session) {
    s.isAuthenticated <==> s.user.Some?
  }

  function LogIn(s: Session, u: StoredUser): (r: Session)
    ensures r.user == Some(u) && r.isAuthenticated
  {
    Session(Some(u), true)
  }

  function LogOut(s: Session): (r: Session)
    ensures r.user.None? && !r.isAuthenticated
  {
    Initial
  }

  /** A field value of a JavaScript object holding a user. */
  datatype Value = Num(n: int) | Str(s: string)

  /** The user as a JavaScript object: its four keys and their values. */
  function Object(u: StoredUser): map<string, Value> {
    map["id" := Num(u.id), "name" := Str(u.name), "email" := Str(u.email), "role" := Str(u.role)]
  }

  /** Two users with the same object are the same user, so the object
      pins down every field. */
  lemma ObjectDeterminesUser(a: StoredUser, b: StoredUser)
    requires Object(a) == Object(b)
    ensures a == b
  {
    assert Object(a)["id"] == Object(b)["id"];
    assert Object(a)["name"] == Object(b)["name"];
    assert Object(a)["email"] == Object(b)["email"];
    assert Object(a)["role"] == Object(b)["role"];
  }

  /** The partial user as a JavaScript object: only the keys it carries. */
  function PatchObject(p: Patch): map<string, Value> {
    IdPart(p) + NamePart(p) + EmailPart(p) + RolePart(p)
  }

  /** The spread `{ ...user, ...patch }`: the object of the result is the
      user's object with the patch's keys written over it, later keys
      winning as in the spread. */
  function Overlay(u: StoredUser, p: Patch): (r: StoredUser)
    ensures Object(r) == Object(u) + PatchObject(p)
  {
    SpreadObject(u, p);
    StoredUser(if p.id.Some? then p.id.value else u.id,
               if p.name.Some? then p.name.value else u.name,
               if p.email.Some? then p.email.value else u.email,
               if p.role.Some? then p.role.value else u.role)
  }

  /** The patch's key for each field, as a one-key or empty object. */
  function IdPart(p: Patch): map<string, Value> {
    if p.id.Some? then map["id" := Num(p.id.value)] else map[]
  }

  function NamePart(p: Patch): map<string, Value> {
    if p.name.Some? then map["name" := Str(p.name.value)] else map[]
  }

  function EmailPart(p: Patch): map<string, Value> {
    if p.email.Some? then map["email" := Str(p.email.value)] else map[]
  }

  function RolePart(p: Patch): map<string, Value> {
    if p.role.Some? then map["role" := Str(p.role.value)] else map[]
  }

  /** Map union is associative, so the patch's keys may be written one at a time. */
  lemma UnionAssoc(a: map<string, Value>, b: map<string, Value>, c: map<string, Value>)
    ensures a + (b + c) == (a + b) + c
  {
  }

  /** Writing one carried key over a user's object is the object of the
      user with that field replaced. */
  lemma PutId(u: StoredUser, p: Patch)
    ensures Object(u) + IdPart(p) == Object(if p.id.Some? then u.(id := p.id.value) else u)
  {
  }

  lemma PutName(u: StoredUser, p: Patch)
    ensures Object(u) + NamePart(p) == Object(if p.name.Some? then u.(name := p.name.value) else u)
  {
  }

  lemma PutEmail(u: StoredUser, p: Patch)
    ensures Object(u) + EmailPart(p) == Object(if p.email.Some? then u.(email := p.email.value) else u)
  {
  }

  lemma PutRole(u: StoredUser, p: Patch)
    ensures Object(u) + RolePart(p) == Object(if p.role.Some? then u.(role := p.role.value) else u)
  {
  }

  lemma SpreadObject(u: StoredUser, p: Patch)
    ensures Object(StoredUser(if p.id.Some? then p.id.value else u.id,
                              if p.name.Some? then p.name.value else u.name,
                              if p.email.Some? then p.email.value else u.email,
                              if p.role.Some? then p.role.value else u.role))
            == Object(u) + PatchObject(p)
  {
    var u1 := if p.id.Some? then u.(id := p.id.value) else u;
    var u2 := if p.name.Some? then u1.(name := p.name.value) else u1;
    var u3 := if p.email.Some? then u2.(email := p.email.value) else u2;
    var u4 := if p.role.Some? then u3.(role := p.role.value) else u3;
    PutId(u, p);
    PutName(u1, p);
    PutEmail(u2, p);
    PutRole(u3, p);
    assert PatchObject(p) == IdPart(p) + NamePart(p) + EmailPart(p) + RolePart(p);
    UnionAssoc(Object(u), IdPart(p), NamePart(p));
    UnionAssoc(Object(u), IdPart(p) + NamePart(p), EmailPart(p));
    UnionAssoc(Object(u), IdPart(p) + NamePart(p) + EmailPart(p), RolePart(p));
  }

  /** `updateUser`: overlays the patch on the signed-in user, keeps the
      store empty when nobody is signed in, and leaves the flag alone. */
  function UpdateUser(s: Session, p: Patch): (r: Session)
    ensures r.isAuthenticated == s.isAuthenticated
    ensures r.user.Some? <==> s.user.Some?
    ensures s.user.Some? ==> r.user == Some(Overlay(s.user.value, p))
  {
    Session(if s.user.Some? then Some(Overlay(s.user.value, p)) else None, s.isAuthenticated)
  }

  /** Applying the same patch twice is applying it once, and an empty patch
      changes nothing. */
  lemma OverlayIdempotent(u: StoredUser, p: Patch)
    ensures Overlay(Overlay(u, p), p) == Overlay(u, p)
    ensures Overlay(u, Patch(None, None, None, None)) == u
  {
  }

  datatype Action = SignIn(u: StoredUser) | SignOut | Update(p: Patch)

  function Apply(s: Session, a: Action): Session {
    match a
    case SignIn(u) => LogIn(s, u)
    case SignOut => LogOut(s)
    case Update(p) => UpdateUser(s, p)
  }

  /** The store after a run of actions, first to last. */
  function Run(s: Session, actions: seq<Action>): Session
    decreases |actions|
  {
    if actions == [] then s else Run(Apply(s, actions[0]), actions[1..])
  }

  /** Every action keeps the invariant, so every run from the initial store
      does: the flag is set exactly when a user is held. */
  lemma {:induction false} RunKeepsConsistent(s: Session, actions: seq<Action>)
    requires Consistent(s)
    ensures Consistent(Run(s, actions))
    decreases |actions|
  {
    if actions != [] {
      RunKeepsConsistent(Apply(s, actions[0]), actions[1..]);
    }
  }

  /** A sign-out ends every session, whatever was done before it. */
  lemma {:induction false} SignOutEndsSession(s: Session, before: seq<Action>)
    ensures Run(s, before + [SignOut]) == Initial
    decreases |before|
  {
    if before != [] {
      assert (before + [SignOut])[1..] == before[1..] + [SignOut];
      SignOutEndsSession(Apply(s, before[0]), before[1..]);
    }
  }
}
