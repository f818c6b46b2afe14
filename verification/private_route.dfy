/**
 * The route guard (`PrivateRoute`): whether a protected page is shown, the
 * visitor sent to "/unauthorized", or the guard still loading.
 */
module PrivateRoute {
  import opened Common
  import opened Roles

  datatype Decision = Loading | Grant | Deny(redirect: string)

  /** Whether some allowed role has the code. */
  predicate Allows(allowed: seq<Role>, code: string) {
    exists k :: 0 <= k < |allowed| && allowed[k].Code() == code
  }

  /** The guard once its effect has run. `token` is the stored token and
      `roleCode` the `role_code` of the stored user data (None when the data
      or the field is missing, since missing data parses as an empty
      object). Without a token the guard never leaves its loading state; with
      one it grants exactly the users whose code is one of the allowed roles'
      and sends everyone else to "/unauthorized". */
  function Guard(token: Option<string>, roleCode: Option<string>, allowed: seq<Role>): (r: Decision)
    ensures r.Loading? <==> !Truthy(token)
    ensures r == Grant <==> Truthy(token) && roleCode.Some? && FromCode(roleCode.value).Some?
                            && FromCode(roleCode.value).value in allowed
    ensures r.Deny? ==> r.redirect == "/unauthorized"
  {
    if !Truthy(token) then Loading
    else if roleCode.Some? && Allows(allowed, roleCode.value) then Grant
    else Deny("/unauthorized")
  }

  /** Stored user data without a role code never gets in, whatever the
      allowed roles. */
  lemma MissingUserDenied(token: Option<string>, allowed: seq<Role>)
    requires Truthy(token)
    ensures Guard(token, None, allowed) == Deny("/unauthorized")
  {
  }

  /** Allowing more roles never turns a granted visitor away. */
  lemma MoreRolesGrantMore(token: Option<string>, roleCode: Option<string>, allowed: seq<Role>, more: seq<Role>)
    requires forall role :: role in allowed ==> role in more
    ensures Guard(token, roleCode, allowed) == Grant ==> Guard(token, roleCode, more) == Grant
  {
  }
}
