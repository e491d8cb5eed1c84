/**
 * client/src/components/common/ProtectedRoute.tsx: the client-side route guard. Unlike
 * the server gate in server/src/middleware/auth.ts, it treats an empty role list as
 * "nobody", not "everybody".
 */
module ProtectedRoute {
  import opened Wrappers
  import opened AuthSlice
  import AuthMiddleware

  datatype Outcome = Redirect(path: string) | RenderChildren

  /** The guard: no user goes to /login; a user outside the listed roles goes to /dashboard. */
  function Guard(user: Option<ClientUser>, allowedRoles: Option<seq<string>>): (o: Outcome)
    ensures user.None? ==> o == Redirect("/login")
    ensures user.Some? ==> (o == RenderChildren <==> allowedRoles.None? || user.value.role in allowedRoles.value)
    ensures user.Some? && o != RenderChildren ==> o == Redirect("/dashboard")
  {
    if user.None? then Redirect("/login")
    else if allowedRoles.Some? && user.value.role !in allowedRoles.value then Redirect("/dashboard")
    else RenderChildren
  }

  /** The empty role list: the client turns every user away; the server lets every verified token in. */
  lemma EmptyRoleListDisagrees(u: ClientUser, header: Option<string>,
                               verify: string -> Option<AuthMiddleware.Payload>)
    ensures Guard(Some(u), Some([])) == Redirect("/dashboard")
    ensures AuthMiddleware.Authenticate(header, verify, Some([])) == AuthMiddleware.Authenticate(header, verify, None)
  {
    AuthMiddleware.EmptyRolesAllowAll(header, verify);
  }

  /** For a non-empty list and a signed-in user whose token carries the same role, the two gates agree. */
  lemma NonEmptyRoleListAgrees(u: ClientUser, roles: seq<string>, header: Option<string>,
                               verify: string -> Option<AuthMiddleware.Payload>)
    requires |roles| > 0
    requires AuthMiddleware.Present(AuthMiddleware.BearerToken(header))
    requires verify(AuthMiddleware.BearerToken(header).value).Some?
    requires verify(AuthMiddleware.BearerToken(header).value).value.role == u.role
    ensures Guard(Some(u), Some(roles)) == RenderChildren <==>
      AuthMiddleware.Authenticate(header, verify, Some(roles)).Next?
  {
  }
}
