/** Bearer-credential extraction and token verification (src/lib/auth.ts). */
module AuthToken {
  import opened Wrappers
  import opened Text
  import opened Domain

  /** The prefix the routes require, compared case-sensitively. */
  const BearerPrefix := "Bearer "

  /** A header starting with the prefix splits into "Bearer" and the segments of the rest. */
  lemma SplitBearer(h: string)
    requires StartsWith(h, BearerPrefix)
    ensures Split(h, ' ') == ["Bearer"] + Split(h[|BearerPrefix|..], ' ')
  {
    assert h == "Bearer" + [' '] + h[|BearerPrefix|..];
    SplitAtFirst("Bearer", h[|BearerPrefix|..], ' ');
  }

  /** `getTokenFromRequest`: null unless the `Authorization` header starts with exactly
      `"Bearer "`; otherwise the second space-separated segment, which is the text after
      the prefix up to the next space or the end. */
  function TokenFromHeader(header: Option<string>): (token: Option<string>)
    ensures header.None? ==> token.None?
    ensures header.Some? ==> (token.Some? <==> StartsWith(header.value, BearerPrefix))
    ensures token.Some? ==> ' ' !in token.value
    ensures token.Some? ==> StartsWith(header.value[|BearerPrefix|..], token.value)
    ensures token.Some? ==> var n := |BearerPrefix| + |token.value|;
                            n == |header.value| || header.value[n] == ' '
  {
    match header
    case None => None
    case Some(h) =>
      if !StartsWith(h, BearerPrefix) then None
      else
        SplitBearer(h);
        Some(Split(h, ' ')[1])
  }

  /** The header a client builds from a token, `Bearer ${token}`, yields that token back
      exactly when the token has no space. */
  lemma {:induction false} BearerRoundTrip(t: string)
    ensures TokenFromHeader(Some(BearerPrefix + t)) == Some(t) <==> ' ' !in t
  {
    var h := BearerPrefix + t;
    assert h[|BearerPrefix|..] == t;
    if ' ' !in t {
      SplitBearer(h);
      SplitWithoutSep(t, ' ');
    }
  }

  /** Whatever follows a second space is dropped: `"Bearer a b"` yields `"a"`. */
  lemma {:induction false} TokenStopsAtSecondSpace(a: string, b: string)
    requires ' ' !in a
    ensures TokenFromHeader(Some(BearerPrefix + a + " " + b)) == Some(a)
  {
    var h := BearerPrefix + a + " " + b;
    assert h[|BearerPrefix|..] == a + [' '] + b;
    SplitBearer(h);
    SplitAtFirst(a, b, ' ');
  }

  /** The scheme is matched case-sensitively: a lower-case `bearer` is refused. */
  lemma LowerCaseSchemeRefused(t: string)
    ensures TokenFromHeader(Some("bearer " + t)) == None
  {
    assert ("bearer " + t)[0] == 'b';
  }

  /** `verifyToken`: the decoded claims when the verifier accepts the token, null when it
      throws (bad signature, malformed token, expired); the failure never propagates. */
  function VerifyToken(token: string, verify: string -> Outcome<Claims>): (r: Option<Claims>)
    ensures r.Some? <==> verify(token).Returned?
    ensures r.Some? ==> r.value == verify(token).value
  {
    match verify(token)
    case Returned(claims) => Some(claims)
    case Threw => None
  }
}
