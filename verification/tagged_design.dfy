/**
 A reference design for `authenticateToken` that switches on tagged failures
 instead of comparing error names and messages: the verifier fails with a bad
 signature, an expiry or some other fault, and the lookup fails with "no such
 user" or some other fault. Each failure kind has its own response.

 The middleware's string matching is proved to agree with this design under a
 sufficient condition: the collaborators' errors do not borrow each other's
 tags. A concrete lookup error is given on which the two part ways.
 */
module TaggedDesign {
  import opened Optional
  import opened AuthMiddleware

  /** The authentication failures the middleware can answer with. */
  datatype Failure = MissingCredential | InvalidSignature | Expired | StaleCredential | Internal

  /** The verifier's outcome with its failure already tagged. */
  datatype VerifyTag = Claimed(claims: Claims) | BadSignature | PastExpiry | VerifyFault

  /** The lookup's outcome with its failure already tagged. */
  datatype LookupTag = Resolved(user: User) | NotFound | LookupFault

  /** Reads a response back as the failure it reports, if it reports one. */
  function Recognise(r: Response): (f: Option<Failure>)
    ensures f.None? <==> r !in {MissingToken, InvalidToken, TokenExpired, UserGone, AuthError}
  {
    if r == MissingToken then Some(MissingCredential)
    else if r == InvalidToken then Some(InvalidSignature)
    else if r == TokenExpired then Some(Expired)
    else if r == UserGone then Some(StaleCredential)
    else if r == AuthError then Some(Internal)
    else None
  }

  /** The response each failure is answered with; no two failures share one. */
  function Render(f: Failure): (r: Response)
    ensures Recognise(r) == Some(f)
    ensures r.status == 401 <==> f == MissingCredential
    ensures r.status == 500 <==> f == Internal
  {
    match f
    case MissingCredential => MissingToken
    case InvalidSignature => InvalidToken
    case Expired => TokenExpired
    case StaleCredential => UserGone
    case Internal => AuthError
  }

  /** Authentication written against tagged outcomes. */
  function Decide(
    ctx: Context,
    header: Option<string>,
    verify: string -> VerifyTag,
    lookup: Option<UserId> -> LookupTag
  ): (r: Outcome)
    ensures r.Halt? ==> Recognise(r.response).Some?
    ensures r.Next? ==> r.ctx.user.Some? && r.ctx.(user := ctx.user) == ctx
  {
    var t := RawToken(header);
    if !Present(t) then Halt(Render(MissingCredential))
    else
      match verify(t.value)
      case BadSignature => Halt(Render(InvalidSignature))
      case PastExpiry => Halt(Render(Expired))
      case VerifyFault => Halt(Render(Internal))
      case Claimed(claims) =>
        match lookup(claims.id)
        case NotFound => Halt(Render(StaleCredential))
        case LookupFault => Halt(Render(Internal))
        case Resolved(u) => Next(ctx.(user := Some(u)))
  }

  /** Tags a verifier error by its name, the way the JWT library names them. */
  function TagVerify(v: VerifyResult): (t: VerifyTag)
    ensures v.Verified? <==> t.Claimed?
    ensures t.Claimed? ==> t.claims == v.claims
    ensures v.VerifyThrew? ==>
      (t == VerifyFault <==> v.error.name != JsonWebTokenErrorName && v.error.name != TokenExpiredErrorName)
    ensures v.VerifyThrew? && t == BadSignature ==> ClassifyError(v.error) == Render(InvalidSignature)
    ensures v.VerifyThrew? && t == PastExpiry ==> ClassifyError(v.error) == Render(Expired)
    ensures v.VerifyThrew? && t == VerifyFault && v.error.message != UserNotFoundMessage ==>
      ClassifyError(v.error) == Render(Internal)
  {
    match v
    case Verified(claims) => Claimed(claims)
    case VerifyThrew(e) =>
      if e.name == JsonWebTokenErrorName then BadSignature
      else if e.name == TokenExpiredErrorName then PastExpiry
      else VerifyFault
  }

  /** Tags a lookup error by its message, the only way the middleware recognises a missing user. */
  function TagLookup(l: LookupResult): (t: LookupTag)
    ensures l.Found? <==> t.Resolved?
    ensures t.Resolved? ==> t.user == l.user
    ensures l.LookupThrew? ==> (t == NotFound <==> l.error.message == UserNotFoundMessage)
    ensures l.LookupThrew? && l.error.name != JsonWebTokenErrorName && l.error.name != TokenExpiredErrorName ==>
      ClassifyError(l.error) == Render(if t == NotFound then StaleCredential else Internal)
  {
    match l
    case Found(u) => Resolved(u)
    case LookupThrew(e) => if e.message == UserNotFoundMessage then NotFound else LookupFault
  }

  /** No verifier error outside the two JWT names carries the lookup's "not found" message. */
  ghost predicate VerifierKeepsToItsTags(verify: string -> VerifyResult)
  {
    forall t :: verify(t).VerifyThrew? &&
      verify(t).error.name != JsonWebTokenErrorName && verify(t).error.name != TokenExpiredErrorName
      ==> verify(t).error.message != UserNotFoundMessage
  }

  /** No lookup error carries one of the two JWT error names. */
  ghost predicate LookupKeepsToItsTags(lookup: Option<UserId> -> LookupResult)
  {
    forall id :: lookup(id).LookupThrew? ==>
      lookup(id).error.name != JsonWebTokenErrorName && lookup(id).error.name != TokenExpiredErrorName
  }

  /**
   A sufficient condition for agreement: when neither collaborator borrows the
   other's tags, matching on error names and messages gives the tagged design's
   answer.
   */
  lemma StringMatchingMeetsDesign(
    ctx: Context,
    header: Option<string>,
    verify: string -> VerifyResult,
    lookup: Option<UserId> -> LookupResult)
    requires VerifierKeepsToItsTags(verify)
    requires LookupKeepsToItsTags(lookup)
    ensures Authenticate(ctx, header, verify, lookup)
         == Decide(ctx, header, t => TagVerify(verify(t)), id => TagLookup(lookup(id)))
  {
  }

  /**
   Without that condition the two part ways: a lookup error named like an
   expired token but saying 'User not found' is answered "Token expired" by the
   middleware, while the tagged design answers that the user no longer exists.
   */
  lemma LookupErrorNamedLikeJwt(ctx: Context, header: Option<string>, claims: Claims)
    requires Present(RawToken(header))
    ensures var verify := (t: string) => Verified(claims);
      var lookup := (id: Option<UserId>) => LookupThrew(JsError(TokenExpiredErrorName, UserNotFoundMessage));
      && Authenticate(ctx, header, verify, lookup) == Halt(TokenExpired)
      && Decide(ctx, header, t => TagVerify(verify(t)), id => TagLookup(lookup(id))) == Halt(UserGone)
  {
  }
}
