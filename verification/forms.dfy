/** The submit handler of the register page (src/app/register/page.tsx). */
module RegisterPage {
  import opened Wrappers
  import opened Text

  const RequiredError := "Todos os campos são obrigatórios"
  const MismatchError := "As senhas não coincidem"
  const TooShortError := "A senha deve ter pelo menos 6 caracteres"
  const EmailInUseError := "Não foi possível criar a conta. Este email já pode estar em uso."
  const GenericError := "Ocorreu um erro. Tente novamente."
  /** Minimum password length, in UTF-16 code units. */
  const MinPasswordLength := 6

  /** What the page shows after a submit: the error line, whether the success panel is
      shown, the page it goes to next (after a delay), whether the spinner is on, and the
      `register` call it made. */
  datatype RegisterView = RegisterView(error: string, success: bool, next: Option<string>,
                                       isLoading: bool, called: Option<(string, string)>)

  /** `handleSubmit`: empty fields, then mismatch, then length are checked in that order
      and only the first failure is reported; then `register` is called. True shows
      success and leads to `/login` (no automatic sign-in), false suggests the email is
      in use, a throw gives the generic error. */
  function Submit(email: string, password: string, confirmation: string, register: Outcome<bool>): (v: RegisterView)
    ensures !v.isLoading
    ensures v.success <==> v.error == ""
    ensures v.next.Some? <==> v.success
    ensures v.next.Some? ==> v.next.value == "/login"
    ensures v.called.Some? <==>
              email != "" && password != "" && confirmation != ""
              && password == confirmation && Utf16Length(password) >= MinPasswordLength
    ensures v.called.Some? ==> v.called.value == (email, password)
    ensures email == "" || password == "" || confirmation == "" ==> v.error == RequiredError
    ensures email != "" && password != "" && confirmation != "" && password != confirmation ==>
              v.error == MismatchError
    ensures email != "" && password != "" && confirmation != "" && password == confirmation
            && Utf16Length(password) < MinPasswordLength ==>
              v.error == TooShortError
    ensures v.called.Some? ==>
              v.error == (match register
                          case Returned(true) => ""
                          case Returned(false) => EmailInUseError
                          case Threw => GenericError)
  {
    if email == "" || password == "" || confirmation == "" then
      RegisterView(RequiredError, false, None, false, None)
    else if password != confirmation then
      RegisterView(MismatchError, false, None, false, None)
    else if Utf16Length(password) < MinPasswordLength then
      RegisterView(TooShortError, false, None, false, None)
    else
      var call := Some((email, password));
      match register
      case Returned(true) => RegisterView("", true, Some("/login"), false, call)
      case Returned(false) => RegisterView(EmailInUseError, false, None, false, call)
      case Threw => RegisterView(GenericError, false, None, false, call)
  }

  /** A refused form does not depend on what `register` would have done, and its error
      names the first failing check. */
  lemma RefusedFormSkipsRegister(email: string, password: string, confirmation: string,
                                 r1: Outcome<bool>, r2: Outcome<bool>)
    requires Submit(email, password, confirmation, r1).called.None?
    ensures Submit(email, password, confirmation, r1) == Submit(email, password, confirmation, r2)
    ensures Submit(email, password, confirmation, r1).error in {RequiredError, MismatchError, TooShortError}
  {
  }

  /** A six-character password that matches passes the length check; five does not. */
  lemma LengthBoundary(email: string)
    requires email != ""
    ensures Submit(email, "abcdef", "abcdef", Returned(true)).success
    ensures Submit(email, "abcde", "abcde", Returned(true)).error == TooShortError
  {
    assert Utf16Length("abcdef") == 6;
    assert Utf16Length("abcde") == 5;
  }
}

/** The submit handler of the login page (src/app/login/page.tsx). */
module LoginPage {
  import opened Wrappers

  const RequiredError := "Todos os campos são obrigatórios"
  const WrongCredentialsError := "Email ou senha incorretos"
  const GenericError := "Ocorreu um erro. Tente novamente."

  datatype LoginView = LoginView(error: string, next: Option<string>, isLoading: bool,
                                 called: Option<(string, string)>)

  /** `handleSubmit`: empty fields are refused without calling `login`; true goes to
      `/mapa`, false shows the wrong-credentials message, a throw the generic one. */
  function Submit(email: string, password: string, login: Outcome<bool>): (v: LoginView)
    ensures !v.isLoading
    ensures v.called.Some? <==> email != "" && password != ""
    ensures v.called.Some? ==> v.called.value == (email, password)
    ensures v.called.None? ==> v.error == RequiredError && v.next.None?
    ensures v.next.Some? <==> v.called.Some? && login == Returned(true)
    ensures v.next.Some? ==> v.next.value == "/mapa" && v.error == ""
    ensures v.called.Some? && login == Returned(false) ==> v.error == WrongCredentialsError
    ensures v.called.Some? && login.Threw? ==> v.error == GenericError
  {
    if email == "" || password == "" then LoginView(RequiredError, None, false, None)
    else
      var call := Some((email, password));
      match login
      case Returned(true) => LoginView("", Some("/mapa"), false, call)
      case Returned(false) => LoginView(WrongCredentialsError, None, false, call)
      case Threw => LoginView(GenericError, None, false, call)
  }

  /** The page navigates only when the login call succeeded, and an error is shown exactly
      when it does not navigate. */
  lemma NavigatesOnlyOnSuccess(email: string, password: string, login: Outcome<bool>)
    ensures Submit(email, password, login).next.Some? <==> Submit(email, password, login).error == ""
  {
  }
}
