/**
 * server/src/middleware/auth.ts: the gate in front of every protected route. It takes
 * the bearer token from the `Authorization` header, verifies it and, when the route
 * names roles, requires the caller's role to be one of them. Signature checking is the
 * `verify` parameter: it returns the token's claims, or `None` where `jwt.verify`
 * throws.
 */
module AuthMiddleware {
  import opened Wrappers
  import opened Strings

  /** The claims the server signs into a session token. */
  datatype Payload = Payload(id: nat, email: string, role: string, firstName: string, lastName: string)

  /** `next()` with `req.user` set, or an error response. */
  datatype Decision = Next(user: Payload) | Reject(status: int, message: string)

  const NoTokenMessage: string := "No authentication token, access denied"
  const InvalidTokenMessage: string := "Token is invalid"
  const ForbiddenMessage: string := "You do not have permission to perform this action"

  /** `req.header('Authorization')?.replace('Bearer ', '')`: only the first occurrence goes, wherever it is. */
  function BearerToken(header: Option<string>): (t: Option<string>)
    ensures header.None? <==> t.None?
  {
    match header
    case None => None
    case Some(h) => Some(ReplaceFirst(h, "Bearer ", ""))
  }

  /** A header of the form `Bearer <t>` yields `t`. */
  lemma BearerTokenOfBearerHeader(t: string)
    ensures BearerToken(Some("Bearer " + t)) == Some(t)
  {
    ReplaceLeadingPattern("Bearer ", t);
  }

  /** A token is present when it is neither missing nor empty (`!token` in JavaScript). */
  predicate Present(t: Option<string>) {
    t.Some? && t.value != ""
  }

  /** `allowedRoles && allowedRoles.length > 0`: only a non-empty list restricts. */
  predicate Restricts(allowedRoles: Option<seq<string>>) {
    allowedRoles.Some? && |allowedRoles.value| > 0
  }

  /** `auth(allowedRoles)` applied to one request. */
  function Authenticate(header: Option<string>, verify: string -> Option<Payload>,
                        allowedRoles: Option<seq<string>>): (d: Decision)
    ensures !Present(BearerToken(header)) ==> d == Reject(401, NoTokenMessage)
    ensures Present(BearerToken(header)) && verify(BearerToken(header).value).None? ==>
      d == Reject(401, InvalidTokenMessage)
    ensures d.Reject? ==> d.status in {401, 403}
    ensures d.Next? <==>
      && Present(BearerToken(header))
      && verify(BearerToken(header).value).Some?
      && (Restricts(allowedRoles) ==> verify(BearerToken(header).value).value.role in allowedRoles.value)
    ensures d.Next? ==> d.user == verify(BearerToken(header).value).value
    ensures d.Reject? && d.status == 403 <==>
      && Present(BearerToken(header))
      && verify(BearerToken(header).value).Some?
      && Restricts(allowedRoles)
      && verify(BearerToken(header).value).value.role !in allowedRoles.value
  {
    var token := BearerToken(header);
    if !Present(token) then Reject(401, NoTokenMessage)
    else match verify(token.value)
      case None => Reject(401, InvalidTokenMessage)
      case Some(p) =>
        if Restricts(allowedRoles) && p.role !in allowedRoles.value then Reject(403, ForbiddenMessage)
        else Next(p)
  }

  /** The role check is never reached without a token: the role list does not matter then. */
  lemma MissingTokenBeforeRoles(header: Option<string>, verify: string -> Option<Payload>,
                                a: Option<seq<string>>, b: Option<seq<string>>)
    requires !Present(BearerToken(header))
    ensures Authenticate(header, verify, a) == Authenticate(header, verify, b) == Reject(401, NoTokenMessage)
  {
  }

  /** An empty role list is the same gate as no role list: any verified token passes. */
  lemma EmptyRolesAllowAll(header: Option<string>, verify: string -> Option<Payload>)
    ensures Authenticate(header, verify, Some([])) == Authenticate(header, verify, None)
  {
  }
}
