/**
 A protected route: `authenticateToken` first, then the role gate
 `requireRole(allowedRoles)`.
 */
module Pipeline {
  import opened Optional
  import opened AuthMiddleware

  /** The user the lookup resolves for the token in `header`, when there is one. */
  function ResolvedUser(
    header: Option<string>,
    verify: string -> VerifyResult,
    lookup: Option<UserId> -> LookupResult
  ): (u: Option<User>)
    ensures u.Some? <==> Authenticate(Context(None), header, verify, lookup).Next?
    ensures u.Some? ==> Authenticate(Context(None), header, verify, lookup).ctx.user == u
  {
    var t := RawToken(header);
    if Present(t) && verify(t.value).Verified? && lookup(verify(t.value).claims.id).Found?
    then Some(lookup(verify(t.value).claims.id).user)
    else None
  }

  /**
   Running both middlewares. The handler runs exactly when the token resolves to
   a user whose role is allowed, and then sees that freshly looked-up user. An
   authentication failure is answered with authentication's own response, and a
   denial with the role gate's 403. The role gate's own 401 never reaches the
   client: authentication runs first and, in this model, a lookup that does not
   throw always yields a user.
   */
  function Protect(
    allowedRoles: seq<string>,
    ctx: Context,
    header: Option<string>,
    verify: string -> VerifyResult,
    lookup: Option<UserId> -> LookupResult
  ): (r: Outcome)
    ensures r.Next? <==>
      ResolvedUser(header, verify, lookup).Some? && ResolvedUser(header, verify, lookup).value.role in allowedRoles
    ensures r.Next? ==> r.ctx.user == ResolvedUser(header, verify, lookup)
    ensures r != Halt(NotAuthenticated)
    ensures ResolvedUser(header, verify, lookup).Some? && r.Halt? ==> r.response.error == AccessDenied
    ensures Authenticate(ctx, header, verify, lookup).Halt? ==> r == Authenticate(ctx, header, verify, lookup)
    ensures ResolvedUser(header, verify, lookup).Some? && r.Halt? ==>
      r.response == Response(403, AccessDenied, DenialMessage(allowedRoles))
  {
    match Authenticate(ctx, header, verify, lookup)
    case Halt(res) => Halt(res)
    case Next(authed) => RequireRole(allowedRoles, authed)
  }
}
