/**
 Properties of the two middlewares that relate several calls or pin down the
 token and the denial message exactly.
 */
module AuthProperties {
  import opened Optional
  import opened Text
  import opened AuthMiddleware

  /**
   The token is the text between the first and the second space, or from the
   first space to the end: whatever the scheme word is, and whatever follows the
   second space.
   */
  lemma TokenIsSecondField(scheme: string, token: string, rest: string)
    requires ' ' !in scheme && ' ' !in token
    requires rest == "" || rest[0] == ' '
    ensures RawToken(Some(scheme + " " + token + rest)) == Some(token)
  {
    var h := scheme + " " + token + rest;
    var tail := token + rest;
    assert h == scheme + [' '] + tail;
    SplitFirstField(scheme, ' ', tail);
    FirstField(token, ' ', rest);
    assert Split(h, ' ')[1] == Split(tail, ' ')[0];
  }

  /** Two headers that differ only in their first field give the same token. */
  lemma SchemeIgnored(scheme1: string, scheme2: string, rest: string)
    requires ' ' !in scheme1 && ' ' !in scheme2
    ensures RawToken(Some(scheme1 + " " + rest)) == RawToken(Some(scheme2 + " " + rest))
  {
    SplitFirstField(scheme1, ' ', rest);
    SplitFirstField(scheme2, ' ', rest);
  }

  /** "Basic xyz" yields "xyz": the scheme word is not checked. */
  lemma OtherSchemeAccepted()
    ensures RawToken(Some("Basic xyz")) == Some("xyz")
  {
    TokenIsSecondField("Basic", "xyz", "");
    assert "Basic" + " " + "xyz" + "" == "Basic xyz";
  }

  /** "Bearer a b" yields "a": whatever follows a second space is dropped. */
  lemma ExtraFieldsDropped()
    ensures RawToken(Some("Bearer a b")) == Some("a")
  {
    TokenIsSecondField("Bearer", "a", " b");
    assert "Bearer" + " " + "a" + " b" == "Bearer a b";
  }

  /** "Bearer " and "Bearer  tok" yield the empty token, which counts as missing. */
  lemma EmptyTokens()
    ensures RawToken(Some("Bearer ")) == Some("")
    ensures RawToken(Some("Bearer  tok")) == Some("")
  {
    TokenIsSecondField("Bearer", "", "");
    assert "Bearer" + " " + "" + "" == "Bearer ";
    TokenIsSecondField("Bearer", "", " tok");
    assert "Bearer" + " " + "" + " tok" == "Bearer  tok";
  }

  /**
   A header whose second field is empty (nothing after the first space, or a
   second space right after it) is a missing token, and the answer is the 401
   whatever the verifier and the lookup would have done.
   */
  lemma EmptySecondFieldIsMissing(
    ctx: Context, scheme: string, rest: string,
    verify: string -> VerifyResult, lookup: Option<UserId> -> LookupResult)
    requires ' ' !in scheme
    requires rest == "" || rest[0] == ' '
    ensures Authenticate(ctx, Some(scheme + " " + rest), verify, lookup) == Halt(MissingToken)
  {
    TokenIsSecondField(scheme, "", rest);
    assert scheme + " " + "" + rest == scheme + " " + rest;
  }

  /**
   Without a present token the result does not depend on the verifier or the
   lookup. The second ensures is a corollary of `Authenticate`'s contract, kept
   beside the first for the reader.
   */
  lemma MissingTokenConsultsNothing(
    ctx: Context, header: Option<string>,
    verify1: string -> VerifyResult, lookup1: Option<UserId> -> LookupResult,
    verify2: string -> VerifyResult, lookup2: Option<UserId> -> LookupResult)
    requires !Present(RawToken(header))
    ensures Authenticate(ctx, header, verify1, lookup1) == Authenticate(ctx, header, verify2, lookup2)
    ensures Authenticate(ctx, header, verify1, lookup1) == Halt(MissingToken)
  {
  }

  /**
   A token the verifier rejects is answered without consulting the lookup. The
   second ensures is a corollary of `Authenticate`'s contract.
   */
  lemma RejectedTokenSkipsLookup(
    ctx: Context, header: Option<string>, verify: string -> VerifyResult,
    lookup1: Option<UserId> -> LookupResult, lookup2: Option<UserId> -> LookupResult)
    requires Present(RawToken(header)) && verify(RawToken(header).value).VerifyThrew?
    ensures Authenticate(ctx, header, verify, lookup1) == Authenticate(ctx, header, verify, lookup2)
    ensures Authenticate(ctx, header, verify, lookup1) == Halt(ClassifyError(verify(RawToken(header).value).error))
  {
  }

  /**
   The verifier and the lookup throw into one catch block: an error thrown by
   the lookup after a successful verification is answered exactly as if the
   verifier had thrown it, whatever lookup would then have been used.
   */
  lemma LookupErrorClassified(
    ctx: Context, header: Option<string>,
    verify: string -> VerifyResult, lookup: Option<UserId> -> LookupResult,
    other: Option<UserId> -> LookupResult)
    requires Present(RawToken(header)) && verify(RawToken(header).value).Verified?
    requires lookup(verify(RawToken(header).value).claims.id).LookupThrew?
    ensures var e := lookup(verify(RawToken(header).value).claims.id).error;
      Authenticate(ctx, header, verify, lookup) == Authenticate(ctx, header, (t: string) => VerifyThrew(e), other)
  {
  }

  /**
   The client never sees the error's message: two errors with the same name
   whose messages are both something other than 'User not found' get the same
   response.
   */
  lemma ErrorMessageNotLeaked(name: string, message1: string, message2: string)
    requires message1 != UserNotFoundMessage && message2 != UserNotFoundMessage
    ensures ClassifyError(JsError(name, message1)) == ClassifyError(JsError(name, message2))
  {
  }

  /** Every role on the allow-list is spelled out in the denial message. */
  lemma DenialNamesEveryRole(allowedRoles: seq<string>, ctx: Context, k: nat)
    requires ctx.user.Some? && ctx.user.value.role !in allowedRoles
    requires k < |allowedRoles|
    ensures Occurs(allowedRoles[k], RequireRole(allowedRoles, ctx).response.message)
  {
    JoinContainsEach(allowedRoles, ", ", k);
    OccursAfter(allowedRoles[k], AccessRestrictedTo, Join(allowedRoles, ", "));
  }

  /**
   The allow-list can be read back from a denial message: after the fixed
   prefix, splitting on ',' gives the roles, every one after the first carrying
   the space of the ", " separator, provided no role holds a comma.
   */
  lemma DenialMessageParses(allowedRoles: seq<string>, ctx: Context)
    requires ctx.user.Some? && ctx.user.value.role !in allowedRoles
    requires |allowedRoles| >= 1
    requires forall k :: 0 <= k < |allowedRoles| ==> ',' !in allowedRoles[k]
    ensures var m := RequireRole(allowedRoles, ctx).response.message;
      |AccessRestrictedTo| <= |m| &&
      Split(m[|AccessRestrictedTo|..], ',') == [allowedRoles[0]] + PrefixEach(allowedRoles[1..], " ")
  {
    var parts := [allowedRoles[0]] + PrefixEach(allowedRoles[1..], " ");
    JoinLongSeparator(allowedRoles, ',', " ");
    assert [','] + " " == ", ";
    forall k | 0 <= k < |parts|
      ensures ',' !in parts[k]
    {
      if k > 0 {
        assert parts[k] == " " + allowedRoles[k];
      }
    }
    SplitJoin(parts, ',');
    var m := RequireRole(allowedRoles, ctx).response.message;
    assert m[|AccessRestrictedTo|..] == Join(allowedRoles, ", ");
  }

  /** A user with role "user" against ["admin"] and against ["admin", "user"]. */
  lemma RoleGateExamples(u: User)
    requires u.role == "user"
    ensures var r := RequireRole(["admin"], Context(Some(u)));
      r.Halt? && r.response.status == 403 && Occurs("admin", r.response.message)
    ensures RequireRole(["admin", "user"], Context(Some(u))) == Next(Context(Some(u)))
  {
    DenialNamesEveryRole(["admin"], Context(Some(u)), 0);
  }
}
