/** The registration page: on submit the error line is cleared, the two
    password fields must agree and the password must be long enough, and
    only then is a request sent, carrying the username, email and password
    but not the confirmation. */
module RegisterForm {
  import opened Base
  import opened Models
  import Text
  import RegisterRoute

  datatype Form = Form(username: string, email: string, password: string, confirmPassword: string)

  datatype Screen = RegisterScreen | LoginScreen

  datatype Page = Page(form: Form, error: string, loading: bool, screen: Screen)

  const PasswordsDiffer := "Passwords do not match"
  const PasswordTooShort := "Password must be at least 6 characters"
  const RegistrationFailed := "Registration failed. Please try again."

  /** The request body the page sends. */
  datatype Payload = Payload(username: string, email: string, password: string)

  datatype Submitted = Submitted(page: Page, request: Option<Payload>)

  /** `handleSubmit` up to the request: the error is cleared, then the
      mismatch check, then the length check. */
  function Submit(page: Page): (r: Submitted)
    ensures r.page.form == page.form && r.page.screen == page.screen
    ensures page.form.password != page.form.confirmPassword ==>
      r.request.None? && r.page.error == PasswordsDiffer
    ensures r.request.Some? <==>
      page.form.password == page.form.confirmPassword && |page.form.password| >= PasswordMinLength
    ensures r.request.Some? ==>
      && r.request.value == Payload(page.form.username, page.form.email, page.form.password)
      && r.page.error == "" && r.page.loading
    ensures r.request.None? ==> r.page.loading == page.loading
  {
    var cleared := page.(error := "");
    if page.form.password != page.form.confirmPassword then
      Submitted(cleared.(error := PasswordsDiffer), None)
    else if |page.form.password| < PasswordMinLength then
      Submitted(cleared.(error := PasswordTooShort), None)
    else
      Submitted(cleared.(loading := true), Some(Payload(page.form.username, page.form.email, page.form.password)))
  }

  /** No earlier error survives a submit: afterwards the line shows only
      what this submit found, and it is empty when the request went out. */
  lemma StaleErrorNeverSurvives(page: Page, earlier: string)
    ensures Submit(page.(error := earlier)) == Submit(page)
    ensures Submit(page).page.error in {"", PasswordsDiffer, PasswordTooShort}
  {
  }

  /** The response: a thrown request, or a status with an optional `error`
      field in its body. */
  datatype ServerResponse = NetworkError | Responded(status: nat, error: Option<string>)

  /** The rest of `handleSubmit`: success moves to the sign-in screen; a
      refusal shows the server's message; a thrown request shows the generic
      message. Loading ends in every case. An absent `error` field blanks the
      line. */
  function AfterResponse(page: Page, resp: ServerResponse): (r: Page)
    ensures !r.loading && r.form == page.form
    ensures resp.Responded? && 200 <= resp.status <= 299 ==> r.screen == LoginScreen && r.error == page.error
    ensures resp.Responded? && !(200 <= resp.status <= 299) ==>
      r.screen == page.screen && r.error == resp.error.GetOr("")
    ensures resp.NetworkError? ==> r.screen == page.screen && r.error == RegistrationFailed
  {
    match resp
    case NetworkError => page.(error := RegistrationFailed, loading := false)
    case Responded(status, error) =>
      if 200 <= status <= 299 then page.(screen := LoginScreen, loading := false)
      else page.(error := error.GetOr(""), loading := false)
  }

  /** The body as the endpoint reads it. */
  function AsRequest(p: Payload): (req: RegisterRoute.RegisterRequest)
    ensures req.username == Some(p.username) && req.email == Some(p.email) && req.password == Some(p.password)
  {
    RegisterRoute.RegisterRequest(Some(p.username), Some(p.email), Some(p.password))
  }

  /** The page and the endpoint agree on the length rule with the same
      wording: for filled-in fields and matching passwords, the page holds
      the request back exactly when the endpoint would refuse it for its
      length, and a request the page sends is never refused for the length
      or for a missing field. */
  lemma PageAndEndpointAgreeOnLength(page: Page, users: seq<User>, newId: Id, hash: string -> string)
    requires page.form.username != "" && page.form.email != ""
    requires page.form.password == page.form.confirmPassword
    ensures var sub := Submit(page);
      var req := AsRequest(Payload(page.form.username, page.form.email, page.form.password));
      var reply := RegisterRoute.HandleRegister(users, req, newId, hash).reply;
      && (sub.request.None? <==>
           page.form.password == "" || reply == RegisterRoute.Refused(400, RegisterRoute.PasswordTooShort))
      && (sub.request.None? ==> sub.page.error == RegisterRoute.PasswordTooShort)
      && (sub.request.Some? ==>
           reply != RegisterRoute.Refused(400, RegisterRoute.PasswordTooShort)
           && reply != RegisterRoute.Refused(400, RegisterRoute.FieldsRequired))
  {
  }

  /** A successful registration lands on the sign-in screen with the server
      holding the new account under the trimmed username. */
  lemma SuccessfulSignUp(page: Page, users: seq<User>, newId: Id, hash: string -> string)
    requires Submit(page).request.Some?
    requires RegisterRoute.HandleRegister(users, AsRequest(Submit(page).request.value), newId, hash).reply.Registered?
    ensures var sub := Submit(page);
      var res := RegisterRoute.HandleRegister(users, AsRequest(sub.request.value), newId, hash);
      && AfterResponse(sub.page, Responded(RegisterRoute.Status(res.reply), None)).screen == LoginScreen
      && res.users[|users|].username == Text.Trim(page.form.username)
      && res.users[|users|].password == hash(page.form.password)
  {
  }
}
