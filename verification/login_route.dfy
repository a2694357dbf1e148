/** `POST /api/auth/login` (src/app/api/auth/login/route.ts): checks credentials and
    issues a token valid for 24 hours. */
module LoginRoute {
  import opened Wrappers
  import opened Text
  import opened Domain
  import opened Http

  const MissingFieldsMessage := "Email and password are required"
  const InvalidCredentialsMessage := "Invalid credentials"
  /** The `expiresIn` option the token is signed with. */
  const TokenLifetime := "24h"

  /** The JSON body; a field is `None` when absent or null. */
  datatype LoginBody = LoginBody(email: Option<string>, password: Option<string>)

  /** The foreign calls the handler makes. `findUser` is the unique-email lookup,
      `compare` is `bcrypt.compare(password, hash)`, `sign` is `jwt.sign(claims, secret,
      {expiresIn})`; each may throw. */
  datatype Services = Services(
    findUser: string -> Outcome<Option<User>>,
    compare: (string, string) -> Outcome<bool>,
    sign: (Claims, string) -> Outcome<string>)

  /** `POST`: missing fields give 400 before the store is read, an unknown email and a
      wrong password give the same 401, success gives 200 with a token signed over the
      stored id and email, and anything thrown gives 500. */
  function Post(body: Outcome<LoginBody>, services: Services): (r: Response)
    ensures r.status in {200, 400, 401, 500}
    ensures r.status == 400 <==> body.Returned? && !(Truthy(body.value.email) && Truthy(body.value.password))
    ensures r.status == 400 ==> r.body == Error(MissingFieldsMessage)
    ensures r.status == 401 ==> r.body == Error(InvalidCredentialsMessage)
    ensures r.status == 500 ==> r.body == Error(SomethingWentWrong)
    ensures r.status == 401 <==>
              && body.Returned? && Truthy(body.value.email) && Truthy(body.value.password)
              && var found := services.findUser(body.value.email.value);
                 && found.Returned?
                 && (found.value.None?
                     || services.compare(body.value.password.value, found.value.value.passwordHash) == Returned(false))
    ensures (&& body.Returned? && Truthy(body.value.email) && Truthy(body.value.password)
             && var found := services.findUser(body.value.email.value);
                && found.Returned? && found.value.Some?
                && services.compare(body.value.password.value, found.value.value.passwordHash) == Returned(true)
                && services.sign(Claims(found.value.value.id, found.value.value.email), TokenLifetime).Returned?)
            ==> r.status == 200
    ensures r.status == 200 ==>
              && body.Returned? && Truthy(body.value.email) && Truthy(body.value.password)
              && var found := services.findUser(body.value.email.value);
                 && found.Returned? && found.value.Some?
                 && var user := found.value.value;
                    && services.compare(body.value.password.value, user.passwordHash) == Returned(true)
                    && var token := services.sign(Claims(user.id, user.email), TokenLifetime);
                       && token.Returned?
                       && r.body == LoginOk(token.value, user.id, user.email)
  {
    match body
    case Threw => Response(500, Error(SomethingWentWrong))
    case Returned(b) =>
      if !Truthy(b.email) || !Truthy(b.password) then Response(400, Error(MissingFieldsMessage))
      else
        match services.findUser(b.email.value)
        case Threw => Response(500, Error(SomethingWentWrong))
        case Returned(None) => Response(401, Error(InvalidCredentialsMessage))
        case Returned(Some(user)) =>
          match services.compare(b.password.value, user.passwordHash)
          case Threw => Response(500, Error(SomethingWentWrong))
          case Returned(false) => Response(401, Error(InvalidCredentialsMessage))
          case Returned(true) =>
            match services.sign(Claims(user.id, user.email), TokenLifetime)
            case Threw => Response(500, Error(SomethingWentWrong))
            case Returned(token) => Response(200, LoginOk(token, user.id, user.email))
  }

  /** Missing fields are answered before any service is consulted. */
  lemma MissingFieldsSkipServices(body: LoginBody, s1: Services, s2: Services)
    requires !(Truthy(body.email) && Truthy(body.password))
    ensures Post(Returned(body), s1) == Post(Returned(body), s2)
  {
  }

  /** The password is compared only once a user is found: for an unknown email the
      response does not depend on the hash comparison or the signer. */
  lemma UnknownEmailSkipsCompare(body: LoginBody, s1: Services, s2: Services)
    requires Truthy(body.email) && Truthy(body.password)
    requires s1.findUser(body.email.value) == Returned(None)
    requires s2.findUser(body.email.value) == Returned(None)
    ensures Post(Returned(body), s1) == Post(Returned(body), s2)
  {
  }

  /** An unknown email and a wrong password produce identical responses, so the
      response does not reveal which accounts exist. */
  lemma NoAccountEnumeration(body: LoginBody, unknown: Services, known: Services, user: User)
    requires Truthy(body.email) && Truthy(body.password)
    requires unknown.findUser(body.email.value) == Returned(None)
    requires known.findUser(body.email.value) == Returned(Some(user))
    requires known.compare(body.password.value, user.passwordHash) == Returned(false)
    ensures Post(Returned(body), unknown) == Post(Returned(body), known)
    ensures Post(Returned(body), known) == Response(401, Error(InvalidCredentialsMessage))
  {
  }
}
