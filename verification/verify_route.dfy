/** `GET /api/auth/verify` (src/app/api/auth/verify/route.ts): turns a bearer token
    into the user it names, or 401. */
module VerifyRoute {
  import opened Wrappers
  import opened Text
  import opened Domain
  import opened Http
  import opened AuthToken
  import ViewersRoute
  import LoginRoute

  const UnauthorizedMessage := "Unauthorized"
  const InvalidTokenMessage := "Invalid token"

  /** `GET`: header and empty-token checks answer `Unauthorized` without consulting the
      verifier; a verifier failure answers `Invalid token`; otherwise the decoded claims. */
  function Get(header: Option<string>, verify: string -> Outcome<Claims>): (r: Response)
    ensures r.status in {200, 401}
    ensures r.status == 200 <==> ViewersRoute.VerifyAuth(header, verify)
    ensures TokenFromHeader(header).None? || TokenFromHeader(header).value == "" ==>
              r == Response(401, Error(UnauthorizedMessage))
    ensures TokenFromHeader(header).Some? && TokenFromHeader(header).value != ""
            && verify(TokenFromHeader(header).value).Threw? ==>
              r == Response(401, Error(InvalidTokenMessage))
    ensures r.status == 200 ==>
              var claims := verify(TokenFromHeader(header).value).value;
              r.body == UserInfo(claims.userId, claims.email)
  {
    match header
    case None => Response(401, Error(UnauthorizedMessage))
    case Some(h) =>
      if !StartsWith(h, BearerPrefix) then Response(401, Error(UnauthorizedMessage))
      else
        var token := TokenFromHeader(header).value;
        if token == "" then Response(401, Error(UnauthorizedMessage))
        else
          match verify(token)
          case Threw => Response(401, Error(InvalidTokenMessage))
          case Returned(decoded) => Response(200, UserInfo(decoded.userId, decoded.email))
  }

  /** The route answers 200 exactly when `verifyToken` would return claims for the
      extracted token, and then with those claims; the one difference from
      `verifyToken` is that the route refuses an empty token outright. */
  lemma GetAgreesWithVerifyToken(header: Option<string>, verify: string -> Outcome<Claims>)
    requires TokenFromHeader(header).Some? && TokenFromHeader(header).value != ""
    ensures var claims := VerifyToken(TokenFromHeader(header).value, verify);
            && (Get(header, verify).status == 200 <==> claims.Some?)
            && (claims.Some? ==> Get(header, verify).body == UserInfo(claims.value.userId, claims.value.email))
  {
  }

  /** Logging in and then presenting the issued token: when the verifier accepts every
      token the signer issues with the login lifetime and gives back the claims it was
      signed over, the verify route answers 200 with the id and email the login returned.
      Every JWT is non-empty and free of spaces. */
  lemma {:induction false} LoginThenVerify(body: LoginRoute.LoginBody, services: LoginRoute.Services,
                                           verify: string -> Outcome<Claims>, login: Response)
    requires forall c :: services.sign(c, LoginRoute.TokenLifetime).Returned? ==>
                           verify(services.sign(c, LoginRoute.TokenLifetime).value) == Returned(c)
    requires login == LoginRoute.Post(Returned(body), services) && login.status == 200
    requires login.body.LoginOk? && login.body.token != "" && ' ' !in login.body.token
    ensures Get(Some(BearerPrefix + login.body.token), verify) == Response(200, UserInfo(login.body.id, login.body.email))
  {
    BearerRoundTrip(login.body.token);
  }
}
