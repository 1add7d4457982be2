/** The login screen and its two server actions: input checks, the hand-off to the
    authentication service, the messages shown, and the password hint. */
module Login {
  import opened Wrappers
  import Text

  // ----- server actions -----

  const MinPasswordLength := 8
  const RequiredMessage := "Email and password are required"
  const ShortPasswordMessage := "Password must be at least 8 characters long"
  const ExistingAccountMessage := "Account already exists. Please login instead."

  /** What the authentication service answers: an error (whose message may be missing),
      or a user, with the length of its `identities` list when there is one. */
  datatype AuthReply = AuthError(message: Option<string>) | AuthOk(identities: Option<nat>)

  /** What an action hands back: `{ error: { message } }`, `{ success: true, message }`,
      or a redirect. */
  datatype ActionResult = Failure(message: Option<string>) | Notice(text: string) | Redirected(path: string)

  /** An action's result, and whether it called the authentication service. */
  datatype ActionRun = ActionRun(calledAuth: bool, result: ActionResult)

  /** The `login` action: empty fields are refused before any call; an error from the
      service is handed back unchanged; success redirects to the private area. */
  function LoginAction(email: string, password: string, reply: AuthReply): (r: ActionRun)
    ensures r.calledAuth <==> email != "" && password != ""
    ensures !r.calledAuth ==> r.result == Failure(Some(RequiredMessage))
    ensures r.calledAuth && reply.AuthError? ==> r.result == Failure(reply.message)
    ensures r.result.Redirected? <==> r.calledAuth && reply.AuthOk?
    ensures r.result.Redirected? ==> r.result.path == "/private"
    ensures !r.result.Notice?
  {
    if email == "" || password == "" then ActionRun(false, Failure(Some(RequiredMessage)))
    else match reply
      case AuthError(message) => ActionRun(true, Failure(message))
      case AuthOk(_) => ActionRun(true, Redirected("/private"))
  }

  /** The `signup` action: empty fields and then a short password are refused before any
      call; an error is handed back; a user with no identities means the address is
      already registered; otherwise it redirects to the login screen. */
  function SignupAction(email: string, password: string, reply: AuthReply): (r: ActionRun)
    ensures r.calledAuth <==> email != "" && password != "" && |password| >= MinPasswordLength
    ensures (email == "" || password == "") ==> r.result == Failure(Some(RequiredMessage))
    ensures email != "" && password != "" && |password| < MinPasswordLength
      ==> r.result == Failure(Some(ShortPasswordMessage))
    ensures r.calledAuth && reply.AuthError? ==> r.result == Failure(reply.message)
    ensures r.result.Notice? <==> r.calledAuth && reply == AuthOk(Some(0))
    ensures r.result.Notice? ==> r.result.text == ExistingAccountMessage
    ensures r.result.Redirected? <==> r.calledAuth && reply.AuthOk? && reply != AuthOk(Some(0))
    ensures r.result.Redirected? ==> r.result.path == "/login"
  {
    if email == "" || password == "" then ActionRun(false, Failure(Some(RequiredMessage)))
    else if |password| < MinPasswordLength then ActionRun(false, Failure(Some(ShortPasswordMessage)))
    else match reply
      case AuthError(message) => ActionRun(true, Failure(message))
      case AuthOk(identities) =>
        if identities == Some(0) then ActionRun(true, Notice(ExistingAccountMessage))
        else ActionRun(true, Redirected("/login"))
  }

  // ----- page -----

  datatype Mode = LogIn | SignUp

  const NotFoundMessage := "Account not found. Please sign up instead."
  const GenericMessage := "An error occurred. Please try again."
  const LoginFailedMessage := "Login failed"
  const SignupFailedMessage := "Signup failed"
  const SwitchMarker := "Please sign up instead"

  /** The page's state; `error == ""` means no banner. */
  datatype Page = Page(mode: Mode, showPassword: bool, email: string, password: string,
                       error: string, passwordValid: bool, passwordTouched: bool)

  const InitialPage := Page(LogIn, false, "", "", "", false, false)

  /** Password validity as the page tracks it. */
  predicate LongEnough(password: string) {
    |password| >= MinPasswordLength
  }

  /** The banner shows the error followed by ", please sign up", whatever the error. */
  function Banner(p: Page): (b: Option<string>)
    ensures b.Some? <==> p.error != ""
    ensures b.Some? ==> |b.value| > |p.error| && b.value[..|p.error|] == p.error
  {
    if p.error == "" then None else Some(p.error + ", please sign up")
  }

  /** The "Switch to sign up" button is offered under a banner that mentions signing up
      instead. */
  predicate SwitchOffered(p: Page) {
    p.error != "" && Text.Contains(p.error, SwitchMarker)
  }

  /** The red hint under the password field. */
  predicate PasswordHintShown(p: Page) {
    p.passwordTouched && !p.passwordValid
  }

  /** `handlePasswordChange`: store the value and revalidate it; the error banner is set
      to the length message when the field was already left once and the value is too
      short, and cleared otherwise. */
  function ChangePassword(p: Page, value: string): (q: Page)
    ensures q.password == value && (q.passwordValid <==> LongEnough(value))
    ensures q.error == (if p.passwordTouched && !LongEnough(value) then ShortPasswordMessage else "")
    ensures q.mode == p.mode && q.email == p.email && q.passwordTouched == p.passwordTouched
  {
    var valid := |value| >= MinPasswordLength;
    p.(password := value, passwordValid := valid,
       error := if p.passwordTouched && !valid then ShortPasswordMessage else "")
  }

  /** What a submission did: the new page, the action that ran (if any), and where the
      browser went (if anywhere). */
  datatype Submission = Submission(page: Page, run: Option<ActionRun>, destination: Option<string>)

  /** The banner the login branch shows for a failure message. A missing message makes
      the `includes` call throw, which the page reports with its generic message. */
  function LoginFailureText(message: Option<string>): (t: string)
    ensures message.None? ==> t == GenericMessage
    ensures message.Some? && Text.Contains(message.value, "user not found") ==> t == NotFoundMessage
    ensures message == Some("") ==> t == LoginFailedMessage
    ensures message.Some? && message.value != "" && !Text.Contains(message.value, "user not found")
      ==> t == message.value
    ensures t != ""
  {
    match message
    case None => GenericMessage
    case Some(m) =>
      if Text.Contains(m, "user not found") then NotFoundMessage
      else if m == "" then LoginFailedMessage
      else m
  }

  /** `handleSubmit`. The banner is cleared; a password shorter than eight characters is
      refused on the page with no action called. Otherwise the action for the current
      mode runs with the service's `reply`; `threw` stands for the call itself failing,
      which the page reports with its generic message. A failure sets the banner; a
      redirect navigates; the signup action's "already exists" notice is ignored. */
  function Submit(p: Page, reply: AuthReply, threw: bool): (s: Submission)
    ensures !LongEnough(p.password) ==>
      s.run.None? && s.destination.None? && s.page == p.(error := ShortPasswordMessage)
    ensures LongEnough(p.password) ==> s.run.Some?
    ensures s.run.Some? ==> s.run.value == (if p.mode == LogIn then LoginAction(p.email, p.password, reply)
                                            else SignupAction(p.email, p.password, reply))
    ensures s.run.Some? && threw ==> s.page == p.(error := GenericMessage) && s.destination.None?
    ensures s.destination.Some? <==> s.run.Some? && !threw && s.run.value.result.Redirected?
    ensures s.destination.Some? ==>
      s.page.error == "" && s.destination.value == (if p.mode == LogIn then "/private" else "/login")
    ensures s.run.Some? && !threw && s.run.value.result.Failure? ==>
      var m := s.run.value.result.message;
      s.destination.None?
      && s.page.error == (if p.mode == LogIn then LoginFailureText(m)
                          else if m.None? || m.value == "" then SignupFailedMessage
                          else m.value)
    ensures s.run.Some? && !threw && s.run.value.result.Notice? ==> s.page.error == "" && s.destination.None?
    ensures s.page.(error := p.error) == p
  {
    if |p.password| < MinPasswordLength then
      Submission(p.(error := ShortPasswordMessage), None, None)
    else
      var run := if p.mode == LogIn then LoginAction(p.email, p.password, reply)
                 else SignupAction(p.email, p.password, reply);
      if threw then Submission(p.(error := GenericMessage), Some(run), None)
      else match run.result
        case Redirected(path) => Submission(p.(error := ""), Some(run), Some(path))
        case Notice(_) => Submission(p.(error := ""), Some(run), None)
        case Failure(message) =>
          var text := if p.mode == LogIn then LoginFailureText(message)
                      else if message.None? || message.value == "" then SignupFailedMessage
                      else message.value;
          Submission(p.(error := text), Some(run), None)
  }

  /** The message for an unknown user mentions signing up instead. */
  lemma NotFoundMessageOffersSwitch()
    ensures Text.Contains(NotFoundMessage, SwitchMarker)
  {
    var prefix := "Account not found. ";
    assert NotFoundMessage == prefix + SwitchMarker + ".";
    Text.ContainsMiddle(prefix, SwitchMarker, ".");
  }

  /** A login refused because the user is unknown offers the switch to sign up. */
  lemma UnknownUserOffersSignup(p: Page, m: string)
    requires p.mode == LogIn && LongEnough(p.password) && p.email != ""
    requires Text.Contains(m, "user not found")
    ensures var s := Submit(p, AuthError(Some(m)), false);
      s.page.error == NotFoundMessage && SwitchOffered(s.page) && s.page.mode == LogIn
  {
    NotFoundMessageOffersSwitch();
  }

  /** Signing up with an address that is already registered leaves the page without any
      banner and where it was: the action's notice is never shown. */
  lemma ExistingAccountNoticeIsNotShown(p: Page)
    requires p.mode == SignUp && LongEnough(p.password) && p.email != ""
    ensures var s := Submit(p, AuthOk(Some(0)), false);
      s.run == Some(ActionRun(true, Notice(ExistingAccountMessage)))
      && s.page.error == "" && s.destination.None? && Banner(s.page).None?
  {
  }

  datatype PageEvent =
    | EmailChanged(email: string)
    | PasswordChanged(password: string)
    | PasswordBlurred
    | ShowPasswordClicked
    | ModeClicked
    | SwitchClicked
    | Submitted(reply: AuthReply, threw: bool)

  /** One event on the page; the switch button does nothing unless it is on screen. */
  function OnEvent(p: Page, e: PageEvent): Page {
    match e
    case EmailChanged(v) => p.(email := v)
    case PasswordChanged(v) => ChangePassword(p, v)
    case PasswordBlurred => p.(passwordTouched := true)
    case ShowPasswordClicked => p.(showPassword := !p.showPassword)
    case ModeClicked => p.(mode := if p.mode == LogIn then SignUp else LogIn, error := "")
    case SwitchClicked => if SwitchOffered(p) then p.(mode := SignUp, error := "") else p
    case Submitted(reply, threw) => Submit(p, reply, threw).page
  }

  function OnEvents(p: Page, es: seq<PageEvent>): Page
    decreases |es|
  {
    if |es| == 0 then p else OnEvents(OnEvent(p, es[0]), es[1..])
  }

  /** The validity flag always agrees with the password's length, so the hint is shown
      exactly when the field was left once and the password is too short. */
  ghost predicate Consistent(p: Page) {
    p.passwordValid <==> LongEnough(p.password)
  }

  lemma {:induction false} EventsKeepConsistent(p: Page, es: seq<PageEvent>)
    requires Consistent(p)
    ensures Consistent(OnEvents(p, es))
    ensures PasswordHintShown(OnEvents(p, es))
      <==> OnEvents(p, es).passwordTouched && !LongEnough(OnEvents(p, es).password)
    decreases |es|
  {
    if |es| > 0 {
      EventsKeepConsistent(OnEvent(p, es[0]), es[1..]);
    }
  }

  /** From the freshly loaded page, the hint never disagrees with the password. */
  lemma HintTracksPassword(es: seq<PageEvent>)
    ensures var p := OnEvents(InitialPage, es);
      PasswordHintShown(p) <==> p.passwordTouched && |p.password| < MinPasswordLength
  {
    EventsKeepConsistent(InitialPage, es);
  }

  /** Switching mode, by the link or by the banner's button, always clears the banner. */
  lemma ModeChangesClearBanner(p: Page, e: PageEvent)
    requires e == ModeClicked || (e == SwitchClicked && SwitchOffered(p))
    ensures OnEvent(p, e).error == "" && Banner(OnEvent(p, e)).None?
    ensures e == SwitchClicked ==> OnEvent(p, e).mode == SignUp
    ensures e == ModeClicked ==> OnEvent(p, e).mode != p.mode
    ensures OnEvent(p, e).password == p.password && OnEvent(p, e).email == p.email
  {
  }
}
