/**
 The decision logic of the two Express middlewares in
 src/middleware/auth.middleware.js, with the Express objects taken away.

 `authenticateToken` takes the bearer token out of the `Authorization` header,
 hands it to the JWT verifier, looks the token's user up, and either lets the
 request continue with that user attached or answers with a fixed JSON error.
 `requireRole(allowedRoles)` lets an authenticated request continue only when
 the user's role is on the allow-list.

 The verifier (`jwt.verify`) and the user lookup (`getUserById`) are parameters:
 total functions from their argument to what they return or throw.
 */
module AuthMiddleware {
  import opened Optional
  import opened Text

  type UserId = int

  /** The user record the lookup returns; only `role` is decided on. */
  datatype User = User(id: UserId, email: string, role: string)

  /** The part of the Express request the middlewares read and write: `req.user`. */
  datatype Context = Context(user: Option<User>)

  /** A response written with `res.status(status).json({ error, message })`. */
  datatype Response = Response(status: int, error: string, message: string)

  /** A middleware either calls `next()` with the request as it leaves it, or answers. */
  datatype Outcome = Next(ctx: Context) | Halt(response: Response)

  /** A thrown JavaScript error, seen only through its `name` and `message`. */
  datatype JsError = JsError(name: string, message: string)

  /** The decoded token payload; `id` is absent when the payload carries none. */
  datatype Claims = Claims(id: Option<UserId>)

  /** What `jwt.verify(token, secret)` does: return the payload, or throw. */
  datatype VerifyResult = Verified(claims: Claims) | VerifyThrew(error: JsError)

  /** What `await getUserById(id)` does: resolve to a user, or throw. */
  datatype LookupResult = Found(user: User) | LookupThrew(error: JsError)

  const JsonWebTokenErrorName := "JsonWebTokenError"
  const TokenExpiredErrorName := "TokenExpiredError"
  const UserNotFoundMessage := "User not found"

  const MissingToken := Response(401, "Authentication required", "Access token is missing")
  const InvalidToken := Response(403, "Invalid token", "The provided token is invalid")
  const TokenExpired := Response(403, "Token expired", "The provided token has expired")
  const UserGone := Response(403, "Invalid token", "User associated with token no longer exists")
  const AuthError := Response(500, "Authentication error", "Something went wrong during authentication")
  const NotAuthenticated := Response(401, "Authentication required", "User must be authenticated")
  const AccessDenied := "Access denied"
  const AccessRestrictedTo := "Access restricted to: "

  /**
   The value of `authHeader && authHeader.split(' ')[1]`: None stands for
   `undefined`. An empty header is falsy and passes through as itself; otherwise
   the second space-separated field, which exists exactly when the header holds
   a space. The first field (the scheme) is never looked at.
   */
  function RawToken(header: Option<string>): (t: Option<string>)
    ensures header.None? ==> t.None?
    ensures header == Some("") ==> t == Some("")
    ensures header.Some? && header.value != "" ==> (t.Some? <==> ' ' in header.value)
    ensures t.Some? ==> ' ' !in t.value
  {
    match header
    case None => None
    case Some(h) =>
      if h == "" then Some(h)
      else
        var fields := Split(h, ' ');
        if |fields| > 1 then Some(fields[1]) else None
  }

  /** JavaScript truthiness of the token: the only falsy values it can take are `undefined` and "". */
  predicate Present(t: Option<string>): (b: bool)
    ensures !b <==> t == None || t == Some("")
  {
    t.Some? && t.value != ""
  }

  /**
   The catch block: the error's name is tested before its message, and any
   error that matches none of the three tests gets the generic 500 body.
   */
  function ClassifyError(e: JsError): (r: Response)
    ensures r.status == 403 || r == AuthError
    ensures e.name == JsonWebTokenErrorName ==> r == InvalidToken
    ensures e.name == TokenExpiredErrorName ==> r == TokenExpired
    ensures r == UserGone <==>
      e.name != JsonWebTokenErrorName && e.name != TokenExpiredErrorName && e.message == UserNotFoundMessage
    ensures r == AuthError <==>
      e.name != JsonWebTokenErrorName && e.name != TokenExpiredErrorName && e.message != UserNotFoundMessage
  {
    if e.name == JsonWebTokenErrorName then InvalidToken
    else if e.name == TokenExpiredErrorName then TokenExpired
    else if e.message == UserNotFoundMessage then UserGone
    else AuthError
  }

  /**
   `authenticateToken`: a missing token answers 401 before the verifier or the
   lookup is consulted; a verified token whose user is found continues with
   exactly that user on the request; every thrown error is classified.
   */
  function Authenticate(
    ctx: Context,
    header: Option<string>,
    verify: string -> VerifyResult,
    lookup: Option<UserId> -> LookupResult
  ): (r: Outcome)
    ensures !Present(RawToken(header)) ==> r == Halt(MissingToken)
    ensures r.Halt? && r.response.status == 401 <==> !Present(RawToken(header))
    ensures r.Next? <==>
      var t := RawToken(header);
      Present(t) && verify(t.value).Verified? && lookup(verify(t.value).claims.id).Found?
    ensures r.Next? ==>
      r.ctx == ctx.(user := Some(lookup(verify(RawToken(header).value).claims.id).user))
    ensures r.Halt? ==> r.response.status in {401, 403, 500}
    ensures r.Halt? && r.response.status == 500 ==> r.response == AuthError
    ensures Present(RawToken(header)) && verify(RawToken(header).value).VerifyThrew? ==>
      r == Halt(ClassifyError(verify(RawToken(header).value).error))
    ensures
      var t := RawToken(header);
      Present(t) && verify(t.value).Verified? && lookup(verify(t.value).claims.id).LookupThrew? ==>
      r == Halt(ClassifyError(lookup(verify(t.value).claims.id).error))
  {
    var t := RawToken(header);
    if !Present(t) then Halt(MissingToken)
    else
      match verify(t.value)
      case VerifyThrew(e) => Halt(ClassifyError(e))
      case Verified(claims) =>
        match lookup(claims.id)
        case LookupThrew(e) => Halt(ClassifyError(e))
        case Found(u) => Next(ctx.(user := Some(u)))
  }

  /** The denial message: the allowed roles joined with ", " after a fixed prefix. */
  function DenialMessage(allowedRoles: seq<string>): (m: string)
    ensures AccessRestrictedTo <= m
    ensures allowedRoles == [] ==> m == AccessRestrictedTo
    ensures |allowedRoles| == 1 ==> m == AccessRestrictedTo + allowedRoles[0]
    ensures |allowedRoles| >= 2 ==> AccessRestrictedTo + allowedRoles[0] + ", " <= m
  {
    AccessRestrictedTo + Join(allowedRoles, ", ")
  }

  /**
   `requireRole(allowedRoles)` applied to a request: no user answers 401 whatever
   the list is; a user continues exactly when the list holds their role; the
   request is passed on unchanged.
   */
  function RequireRole(allowedRoles: seq<string>, ctx: Context): (r: Outcome)
    ensures ctx.user.None? ==> r == Halt(NotAuthenticated)
    ensures ctx.user.Some? ==> (r.Next? <==> ctx.user.value.role in allowedRoles)
    ensures r.Next? ==> r.ctx == ctx
    ensures r.Halt? && ctx.user.Some? ==>
      r.response.status == 403 && r.response.error == AccessDenied &&
      AccessRestrictedTo <= r.response.message
    ensures ctx.user.Some? && allowedRoles == [] ==> r == Halt(Response(403, AccessDenied, AccessRestrictedTo))
    ensures ctx.user.Some? && ctx.user.value.role !in allowedRoles ==>
      r == Halt(Response(403, AccessDenied, DenialMessage(allowedRoles)))
  {
    match ctx.user
    case None => Halt(NotAuthenticated)
    case Some(u) =>
      if u.role in allowedRoles then Next(ctx)
      else Halt(Response(403, AccessDenied, DenialMessage(allowedRoles)))
  }
}
