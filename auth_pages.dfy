/** The browser's sign-up and sign-in pages: their form checks, which run before any request,
    and what submitting does with the request's outcome. */
module AuthPages {
  import opened Wrappers
  import opened Models
  import opened Email
  import AuthController

  const AllFieldsMessage := "All fields are required"
  const InvalidEmailMessage := "Please enter a valid email"
  const ShortPasswordMessage := "Password must be at least 4 characters"
  const MismatchMessage := "Passwords do not match"
  const EmailRegisteredMessage := "This email is already registered"
  const LookupErrorMessage := "Error checking email availability"
  const RegisterFailedMessage := "Registration failed. Please try again."
  const LoginFailedMessage := "Login failed. Please try again."

  /** How a request the page sends ends: accepted, or rejected with the server's `message`
      when the reply carried one. */
  datatype RequestResult = Ok | Failed(message: Option<string>)

  // ---------------------------------------------------------------------------
  // Register

  datatype RegisterForm = RegisterForm(firstName: string, lastName: string, email: string,
                                       password: string, confirmPassword: string)

  /** The answer of `GET /auth/check-email/:email`, or the request failing. */
  datatype EmailLookup = Taken | Free | LookupError

  /** Every field of the sign-up form is non-empty. */
  predicate Filled(form: RegisterForm) {
    form.firstName != "" && form.lastName != "" && form.email != "" && form.password != ""
    && form.confirmPassword != ""
  }

  /** The checks that need no request: empty fields, email format, password length, the
      confirmation. */
  function LocalRegisterCheck(form: RegisterForm): (err: Option<string>)
    ensures err.None? <==> && Filled(form) && IsValidEmail(form.email) && |form.password| >= 4
                           && form.password == form.confirmPassword
    ensures !Filled(form) ==> err == Some(AllFieldsMessage)
    ensures Filled(form) && !IsValidEmail(form.email) ==> err == Some(InvalidEmailMessage)
    ensures Filled(form) && IsValidEmail(form.email) && |form.password| < 4
            ==> err == Some(ShortPasswordMessage)
    ensures Filled(form) && IsValidEmail(form.email) && |form.password| >= 4
            && form.password != form.confirmPassword
            ==> err == Some(MismatchMessage)
  {
    if !Filled(form) then Some(AllFieldsMessage)
    else if !IsValidEmail(form.email) then Some(InvalidEmailMessage)
    else if |form.password| < 4 then Some(ShortPasswordMessage)
    else if form.password != form.confirmPassword then Some(MismatchMessage)
    else None
  }

  /** validateForm: the local checks, then the email lookup (`lookup` is its answer, used
      only once the local checks pass). */
  function ValidateRegisterForm(form: RegisterForm, lookup: EmailLookup): (err: Option<string>)
    ensures LocalRegisterCheck(form).Some? ==> err == LocalRegisterCheck(form)
    ensures err.None? <==> LocalRegisterCheck(form).None? && lookup == Free
    ensures LocalRegisterCheck(form).None? && lookup == Taken ==> err == Some(EmailRegisteredMessage)
    ensures LocalRegisterCheck(form).None? && lookup == LookupError ==> err == Some(LookupErrorMessage)
  {
    match LocalRegisterCheck(form)
    case Some(e) => Some(e)
    case None =>
      match lookup
      case Taken => Some(EmailRegisteredMessage)
      case LookupError => Some(LookupErrorMessage)
      case Free => None
  }

  /** The lookup's answer never changes the outcome of a form the local checks reject. */
  lemma LookupOnlyAfterLocalChecks(form: RegisterForm, a: EmailLookup, b: EmailLookup)
    requires LocalRegisterCheck(form).Some?
    ensures ValidateRegisterForm(form, a) == ValidateRegisterForm(form, b)
  {
  }

  function RegisterBody(form: RegisterForm): AuthController.RegisterData {
    AuthController.RegisterData(form.firstName, form.lastName, form.email, form.password)
  }

  /** A form the page accepts passes the server's register checks too, and, when the lookup
      answered truthfully, the email is free on the server. */
  lemma AcceptedFormPassesServerChecks(form: RegisterForm, lookup: EmailLookup, users: seq<User>)
    requires ValidateRegisterForm(form, lookup).None?
    requires lookup == (if AuthController.CheckEmail(users, form.email) then Taken else Free)
    ensures AuthController.ValidateRegistration(RegisterBody(form)).None?
    ensures !AuthController.CheckEmail(users, form.email)
  {
  }

  class RegisterPage {
    var form: RegisterForm
    var error: string
    var loading: bool
    /** The register requests sent, oldest first. */
    var sent: seq<AuthController.RegisterData>
    /** Where the page last navigated to. */
    var location: Option<string>

    constructor (form: RegisterForm)
      ensures this.form == form && error == "" && !loading && sent == [] && location == None
    {
      this.form := form;
      error := "";
      loading := false;
      sent := [];
      location := None;
    }

    /** handleSubmit: validate; send the request only for a valid form; `loading` ends
        false on every path. */
    method HandleSubmit(lookup: EmailLookup, result: RequestResult)
      modifies this`error, this`loading, this`sent, this`location
      ensures !loading
      ensures ValidateRegisterForm(form, lookup).Some? ==>
        error == ValidateRegisterForm(form, lookup).value && sent == old(sent) && location == old(location)
      ensures ValidateRegisterForm(form, lookup).None? ==>
        && sent == old(sent) + [RegisterBody(form)]
        && (result.Ok? ==> error == "" && location == Some("/vacations"))
        && (result.Failed? ==> error == MessageOr(result.message, RegisterFailedMessage) && location == old(location))
    {
      error := "";
      loading := true;
      var err := ValidateRegisterForm(form, lookup);
      if err.Some? {
        error := err.value;
        loading := false;
        return;
      }
      sent := sent + [RegisterBody(form)];
      if result.Ok? {
        location := Some("/vacations");
      } else {
        error := MessageOr(result.message, RegisterFailedMessage);
      }
      loading := false;
    }
  }

  // ---------------------------------------------------------------------------
  // Login

  datatype LoginForm = LoginForm(email: string, password: string)

  /** validateForm of the sign-in page: empty fields, email format, password length. */
  function ValidateLoginForm(form: LoginForm): (err: Option<string>)
    ensures err.None? <==> form.email != "" && form.password != "" && IsValidEmail(form.email)
                           && |form.password| >= 4
    ensures form.email == "" || form.password == "" ==> err == Some(AllFieldsMessage)
    ensures form.email != "" && form.password != "" && !IsValidEmail(form.email)
            ==> err == Some(InvalidEmailMessage)
    ensures form.email != "" && form.password != "" && IsValidEmail(form.email) && |form.password| < 4
            ==> err == Some(ShortPasswordMessage)
  {
    if form.email == "" || form.password == "" then Some(AllFieldsMessage)
    else if !IsValidEmail(form.email) then Some(InvalidEmailMessage)
    else if |form.password| < 4 then Some(ShortPasswordMessage)
    else None
  }

  /** The page accepts exactly the credentials the server's checks accept (their messages
      differ). */
  lemma LoginFormAgreesWithServer(form: LoginForm)
    ensures ValidateLoginForm(form).None?
            <==> AuthController.ValidateCredentials(AuthController.LoginCredentials(form.email, form.password)).None?
  {
  }

  /** Where a signed-in user is sent. */
  function LoginRedirect(role: Role): (path: string)
    ensures path == "/admin" <==> role == AdminRole
    ensures path == "/admin" || path == "/vacations"
  {
    if role == AdminRole then "/admin" else "/vacations"
  }

  /** The outcome of a sign-in attempt as the server answers it. */
  datatype LoginResult = LoggedIn(user: UserDto) | LoginRejected(message: Option<string>)

  /** What submitting the sign-in form does: the request it sends (if any), the error it
      shows and where it navigates. */
  datatype LoginSubmission = LoginSubmission(request: Option<AuthController.LoginCredentials>,
                                             error: string, redirect: Option<string>)

  function SubmitLogin(form: LoginForm, result: LoginResult): (s: LoginSubmission)
    ensures s.request.Some? <==> ValidateLoginForm(form).None?
    ensures s.request.Some? ==> s.request.value == AuthController.LoginCredentials(form.email, form.password)
    ensures s.request.None? ==> s.error == ValidateLoginForm(form).value && s.redirect == None
    ensures s.redirect.Some? <==> s.request.Some? && result.LoggedIn?
    ensures s.redirect.Some? ==> s.redirect.value == LoginRedirect(result.user.role) && s.error == ""
    ensures s.request.Some? && result.LoginRejected? ==> s.error == MessageOr(result.message, LoginFailedMessage)
  {
    match ValidateLoginForm(form)
    case Some(err) => LoginSubmission(None, err, None)
    case None =>
      var request := Some(AuthController.LoginCredentials(form.email, form.password));
      match result
      case LoggedIn(user) => LoginSubmission(request, "", Some(LoginRedirect(user.role)))
      case LoginRejected(m) => LoginSubmission(request, MessageOr(m, LoginFailedMessage), None)
  }
}
