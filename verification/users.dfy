/**
 * The user record the admin, project and search pages work with.
 */
module Users {
  import opened Common

  /** `_id`, `user_name`, `email`, `role_code` and `is_blocked` of a user. */
  datatype User = User(id: string, userName: string, email: string, roleCode: string, isBlocked: bool)

  /** `pageInfo` of a page answer: `totalItems`, and `totalPages` (None when
      the field is missing). */
  datatype PageInfo = PageInfo(totalItems: int, totalPages: Option<int>)

  /** What `searchUsers` resolves to: its `pageData` and `pageInfo`, each
      None when the object lacks it. */
  datatype UsersReply = UsersReply(pageData: Option<seq<User>>, pageInfo: Option<PageInfo>)

  /** The page `searchUsers` resolves to when the request fails or the
      answer has no body: no users, no items, one page. */
  const FallbackReply := UsersReply(Some([]), Some(PageInfo(0, Some(1))))

  /** `searchUsers`: the service catches every failure, so its callers never
      see an exception. `server` is the answer's body, None when the request
      failed or the body is missing. */
  function SearchUsersResult(server: Option<UsersReply>): UsersReply {
    if server.None? then FallbackReply else server.value
  }

  /** `users.find(u => u._id === id)`: the first user with that id. */
  function FindUser(users: seq<User>, id: string): (r: Option<User>)
    ensures r.Some? ==> r.value in users && r.value.id == id
    ensures r.None? ==> forall k :: 0 <= k < |users| ==> users[k].id != id
    ensures r.Some? ==> exists k :: 0 <= k < |users| && users[k] == r.value && forall j :: 0 <= j < k ==> users[j].id != id
  {
    if users == [] then None
    else if users[0].id == id then Some(users[0])
    else
      var r := FindUser(users[1..], id);
      if r.Some? then
        var k :| 0 <= k < |users[1..]| && users[1..][k] == r.value && forall j :: 0 <= j < k ==> users[1..][j].id != id;
        assert users[k + 1] == r.value;
        r
      else r
  }
}
