/** The registration screen's submit handler: a password check, the request, the
    session update and redirect on success, and the message for each kind of
    failure (src/Screens/auth/Register.tsx). */
module Register {
  import opened Wrappers
  import opened Records
  import AuthSlice
  import RootGuard

  /** The submitted form fields. */
  datatype RegisterForm = RegisterForm(
    firstname: string,
    lastname: string,
    email: string,
    password: string,
    confirmPassword: string)

  /** The POST body sent to `/api/register`. */
  datatype RegisterRequest = RegisterRequest(
    path: string,
    firstname: string,
    lastname: string,
    email: string,
    password: string)

  /** The server's reply on success: an optional message, the user and the token. */
  datatype RegisterResponse = RegisterResponse(message: Option<string>, user: Option<Profile>, token: string)

  /** How the request ends, as `axios` reports it. */
  datatype RegisterOutcome =
    | Registered(response: RegisterResponse)
    | ServerError(error: Option<string>)
    | NoResponse
    | RequestError(message: string)
    | NonAxiosError

  /** The request for a form: every field but the confirmation. */
  function RequestFor(f: RegisterForm): (r: RegisterRequest)
    ensures r.path == "/api/register"
    ensures r.firstname == f.firstname && r.lastname == f.lastname && r.email == f.email
      && r.password == f.password
  {
    RegisterRequest("/api/register", f.firstname, f.lastname, f.email, f.password)
  }

  /** The notice for differing passwords. */
  const MismatchNotice: Notice := Notice(Error, "Passwords do not match")

  /** The fallback when the server's error body has no usable `error` text. */
  const RegistrationFailed: string := "Registration failed"

  /** The message when the request got no response. */
  const NoResponseMessage: string := "No response from server. Please try again."

  /** The message for an error that did not come from `axios`. */
  const UnexpectedMessage: string := "An unexpected error occurred"

  /** The notice for a failed request: the server's `error` text unless it is missing or
      empty (`||` treats "" as false), a fixed text when nothing answered, the error's own
      message for other `axios` errors, and a fixed text otherwise. */
  function FailureNotice(outcome: RegisterOutcome): (n: Notice)
    requires !outcome.Registered?
    ensures n.icon == Error
    ensures outcome.ServerError? ==>
      n.title == (if outcome.error.Some? && outcome.error.value != "" then outcome.error.value
                  else RegistrationFailed)
    ensures outcome.NoResponse? ==> n.title == NoResponseMessage
    ensures outcome.RequestError? ==> n.title == outcome.message
    ensures outcome.NonAxiosError? ==> n.title == UnexpectedMessage
  {
    match outcome
    case ServerError(error) =>
      Notice(Error, if error.Some? && error.value != "" then error.value else RegistrationFailed)
    case NoResponse => Notice(Error, NoResponseMessage)
    case RequestError(message) => Notice(Error, message)
    case NonAxiosError => Notice(Error, UnexpectedMessage)
  }

  /** Every failure raises an error notice, and its title is empty only when an `axios`
      error carries an empty message of its own. */
  lemma FailureNoticeNonEmpty(outcome: RegisterOutcome)
    requires !outcome.Registered?
    ensures FailureNotice(outcome).icon == Error
    ensures FailureNotice(outcome).title == "" <==> outcome.RequestError? && outcome.message == ""
  {
  }

  /** `handleRegister`, given the form and how the request ends. Differing passwords send
      nothing; a registration stores the response's user and token in the session and
      navigates to "/login"; any failure leaves the session alone and stays on the page. */
  method HandleRegister(store: AuthSlice.AuthStore, form: RegisterForm, outcome: RegisterOutcome)
    returns (request: Option<RegisterRequest>, notice: Notice, navigation: RootGuard.Navigation)
    modifies store
    ensures form.password != form.confirmPassword ==>
      request == None && notice == MismatchNotice && navigation == RootGuard.NoNavigation
      && store.Snapshot() == old(store.Snapshot())
    ensures form.password == form.confirmPassword ==> request == Some(RequestFor(form))
    ensures form.password == form.confirmPassword && outcome.Registered? ==>
      && notice == Notice(Success, outcome.response.message.GetOr(""))
      && store.Snapshot() == AuthSlice.Reduce(old(store.Snapshot()),
           AuthSlice.LoginSuccess(outcome.response.user, outcome.response.token))
      && navigation == RootGuard.Navigate("/login")
    ensures form.password == form.confirmPassword && !outcome.Registered? ==>
      && notice == FailureNotice(outcome)
      && store.Snapshot() == old(store.Snapshot())
      && navigation == RootGuard.NoNavigation
  {
    if form.password != form.confirmPassword {
      return None, MismatchNotice, RootGuard.NoNavigation;
    }
    request := Some(RequestFor(form));
    if outcome.Registered? {
      notice := Notice(Success, outcome.response.message.GetOr(""));
      store.LoginSuccess(outcome.response.user, outcome.response.token);
      navigation := RootGuard.Navigate("/login");
    } else {
      notice := FailureNotice(outcome);
      navigation := RootGuard.NoNavigation;
    }
  }

  /** After a registration the session is authenticated with the response's token, whatever
      it was before. */
  lemma RegisteredSessionIsAuthenticated(s: AuthSlice.AuthState, response: RegisterResponse)
    ensures var t := AuthSlice.Reduce(s, AuthSlice.LoginSuccess(response.user, response.token));
      t.isAuthenticated && t.token == Some(response.token) && t.user == response.user
      && AuthSlice.Consistent(t)
  {
  }
}
