/**
 * The client-side rules of the sign-in page (frontend/src/components/Authentication/Auth.jsx): the
 * form updates, the checks made before a registration is sent, the password-strength hint, and
 * how the page reads the answers of `/register` and `/login` and where a login leads.
 */
module Auth {
  import opened Wrappers
  import Server

  /** The registration form. */
  datatype RegisterForm = RegisterForm(firstName: string, lastName: string, username: string,
                                       password: string, confirmPassword: string)

  /** The `name` attributes of the registration form's inputs. */
  datatype RegisterField = FirstName | LastName | Username | Password | ConfirmPassword

  /** The login form and the `name` attributes of its inputs. */
  datatype LoginForm = LoginForm(username: string, password: string)
  datatype LoginField = LoginUsername | LoginPassword

  /** The message line under the form: a text and its kind ("error", "success" or empty). */
  datatype Message = Message(text: string, kind: string)

  const NoMessage: Message := Message("", "")
  const EmptyRegisterForm: RegisterForm := RegisterForm("", "", "", "", "")

  const MismatchText: string := "Passwords do not match!"
  const TooShortText: string := "Password must be at least 6 characters long!"
  const MinPasswordLength: nat := 6
  const LoginFailedText: string := "Login failed"
  const InvalidRoleText: string := "Invalid role received from backend"

  // ---------------------------------------------------------------------------------------------
  // Form updates

  function FieldOf(form: RegisterForm, field: RegisterField): string {
    match field
    case FirstName => form.firstName
    case LastName => form.lastName
    case Username => form.username
    case Password => form.password
    case ConfirmPassword => form.confirmPassword
  }

  function LoginFieldOf(form: LoginForm, field: LoginField): string {
    match field
    case LoginUsername => form.username
    case LoginPassword => form.password
  }

  /** Typing clears a shown message; without one the message is left as it is. */
  function ClearMessage(msg: Message): (r: Message)
    ensures r.text == ""
    ensures msg.text == "" ==> r == msg
  {
    if msg.text != "" then NoMessage else msg
  }

  /** `handleChange`: the named field takes the typed value, every other field keeps its value. */
  function HandleChange(form: RegisterForm, msg: Message, field: RegisterField, value: string): (r: (RegisterForm, Message))
    ensures FieldOf(r.0, field) == value
    ensures forall f :: f != field ==> FieldOf(r.0, f) == FieldOf(form, f)
    ensures r.1 == ClearMessage(msg)
  {
    var form' := match field
      case FirstName => form.(firstName := value)
      case LastName => form.(lastName := value)
      case Username => form.(username := value)
      case Password => form.(password := value)
      case ConfirmPassword => form.(confirmPassword := value);
    (form', ClearMessage(msg))
  }

  /** `handleLoginChange`, the same for the login form. */
  function HandleLoginChange(form: LoginForm, msg: Message, field: LoginField, value: string): (r: (LoginForm, Message))
    ensures LoginFieldOf(r.0, field) == value
    ensures forall f :: f != field ==> LoginFieldOf(r.0, f) == LoginFieldOf(form, f)
    ensures r.1 == ClearMessage(msg)
  {
    var form' := match field
      case LoginUsername => form.(username := value)
      case LoginPassword => form.(password := value);
    (form', ClearMessage(msg))
  }

  // ---------------------------------------------------------------------------------------------
  // Password strength

  /** The strength hint; `Text` is what the page shows and `ClassName` its style. */
  datatype Strength = Blank | Weak | Medium | Strong {
    function Text(): string {
      match this
      case Blank => ""
      case Weak => "Weak"
      case Medium => "Medium"
      case Strong => "Strong"
    }
    function ClassName(): string {
      match this
      case Blank => ""
      case Weak => "weak"
      case Medium => "medium"
      case Strong => "strong"
    }
    function Rank(): nat {
      match this
      case Blank => 0
      case Weak => 1
      case Medium => 2
      case Strong => 3
    }
  }

  /** `getPasswordStrength`: the band of the password's length. */
  function GetPasswordStrength(password: string): (r: Strength)
    ensures r == Blank <==> |password| == 0
    ensures r == Weak <==> 1 <= |password| < 6
    ensures r == Medium <==> 6 <= |password| < 8
    ensures r == Strong <==> 8 <= |password|
  {
    if |password| == 0 then Blank
    else if |password| < 6 then Weak
    else if |password| < 8 then Medium
    else Strong
  }

  /** A longer password never rates lower. */
  lemma StrengthIsMonotone(p: string, q: string)
    requires |p| <= |q|
    ensures GetPasswordStrength(p).Rank() <= GetPasswordStrength(q).Rank()
  {
  }

  // ---------------------------------------------------------------------------------------------
  // Registration

  /**
   * The checks of `handleRegister` and the body it then posts: a mismatch is reported before the
   * length, and only matching passwords of at least six characters are sent.
   */
  function RegisterRequest(form: RegisterForm, role: string): (r: Result<Server.RegisterBody, string>)
    ensures form.password != form.confirmPassword ==> r == Err(MismatchText)
    ensures form.password == form.confirmPassword && |form.password| < MinPasswordLength ==> r == Err(TooShortText)
    ensures r.Ok? <==> form.password == form.confirmPassword && |form.password| >= MinPasswordLength
    ensures r.Ok? ==> r.value == Server.RegisterBody(Some(form.firstName), Some(form.lastName), Some(form.username),
                                                    Some(form.password), Some(role))
  {
    if form.password != form.confirmPassword then Err(MismatchText)
    else if |form.password| < MinPasswordLength then Err(TooShortText)
    else Ok(Server.RegisterBody(Some(form.firstName), Some(form.lastName), Some(form.username),
                                Some(form.password), Some(role)))
  }

  /** A password the registration checks let through rates Medium or Strong. */
  lemma AcceptedPasswordIsNotWeak(form: RegisterForm, role: string)
    requires RegisterRequest(form, role).Ok?
    ensures GetPasswordStrength(form.password) == Medium || GetPasswordStrength(form.password) == Strong
  {
  }

  /** `res.ok`: a 2xx status. */
  predicate StatusOk(status: int) {
    200 <= status < 300
  }

  /** `data.error`, when the body has one. */
  function ErrorOf(body: Server.Body): Option<string> {
    if body.ErrorBody? then Some(body.error) else None
  }

  /** `data.success` as JavaScript reads it: true only when the body says so. */
  predicate SuccessOf(body: Server.Body) {
    body.SessionBody? || (body.ErrorBody? && body.success == Some(true))
  }

  /** What the page does with the answer to a registration. */
  datatype RegisterOutcome =
    | RegisterFailed(message: Message)
    | Registered(message: Message, tab: string, form: RegisterForm)

  function AfterRegister(reply: Server.Reply): (r: RegisterOutcome)
    ensures r.RegisterFailed? <==> !StatusOk(reply.status)
    ensures r.RegisterFailed? && reply.body.ErrorBody? ==> r.message == Message("Error: " + reply.body.error, "error")
    ensures r.Registered? ==> r.tab == "login" && r.form == EmptyRegisterForm
  {
    if !StatusOk(reply.status) then
      RegisterFailed(Message("Error: " + (if reply.body.ErrorBody? then reply.body.error else "undefined"), "error"))
    else Registered(Message("Registered successfully!", "success"), "login", EmptyRegisterForm)
  }

  // ---------------------------------------------------------------------------------------------
  // Login

  function LoginRequest(form: LoginForm): Server.LoginBody {
    Server.LoginBody(Some(form.username), Some(form.password))
  }

  /** What the page does with the answer to a login. */
  datatype LoginOutcome =
    | LoginFailed(text: string)
    | Navigate(path: string, username: string)
    | InvalidRole(text: string)

  /** Where a role is sent. */
  function HomeOf(role: string): (r: Option<string>)
    ensures r == Some("/teacher-home") <==> role == "teacher"
    ensures r == Some("/student-home") <==> role == "student"
    ensures r.None? <==> role != "teacher" && role != "student"
  {
    if role == "teacher" then Some("/teacher-home")
    else if role == "student" then Some("/student-home")
    else None
  }

  /**
   * `handleLogin` after the answer: a failure unless the status is 2xx and `success` is set, then
   * navigation by role, or an error for a role the page does not know.
   */
  function AfterLogin(reply: Server.Reply): (r: LoginOutcome)
    ensures r.LoginFailed? <==> !StatusOk(reply.status) || !SuccessOf(reply.body)
    ensures r.LoginFailed? ==> r.text == if ErrorOf(reply.body).Some? && ErrorOf(reply.body).value != ""
                                        then ErrorOf(reply.body).value else LoginFailedText
    ensures r.Navigate? ==> reply.body.SessionBody? && HomeOf(reply.body.role) == Some(r.path) &&
                            r.username == reply.body.username
    ensures StatusOk(reply.status) && reply.body.SessionBody? && HomeOf(reply.body.role).Some? ==>
              r == Navigate(HomeOf(reply.body.role).value, reply.body.username)
    ensures StatusOk(reply.status) && reply.body.SessionBody? && HomeOf(reply.body.role).None? ==>
              r == InvalidRole(InvalidRoleText)
    // a success flag without a role: `data.role` is undefined, which is no known role
    ensures StatusOk(reply.status) && SuccessOf(reply.body) && !reply.body.SessionBody? ==>
              r == InvalidRole(InvalidRoleText)
  {
    if !StatusOk(reply.status) || !SuccessOf(reply.body) then
      var e := ErrorOf(reply.body);
      LoginFailed(if e.Some? && e.value != "" then e.value else LoginFailedText)
    else if !reply.body.SessionBody? then InvalidRole(InvalidRoleText)
    else match HomeOf(reply.body.role)
         case Some(path) => Navigate(path, reply.body.username)
         case None => InvalidRole(InvalidRoleText)
  }

  /**
   * End to end: a registration that passes the page's checks, has every field filled in, a role
   * the page offers and a username not yet taken is stored by the server; logging in with the
   * same username and password then leads to that role's home page.
   */
  lemma RegisterThenLoginLeadsHome(users: seq<Server.User>, form: RegisterForm, role: string)
    requires Server.DistinctUsernames(users)
    requires RegisterRequest(form, role).Ok?
    requires form.firstName != "" && form.lastName != "" && form.username != ""
    requires role == "teacher" || role == "student"
    requires forall j :: 0 <= j < |users| ==> users[j].username != form.username
    ensures Server.Complete(RegisterRequest(form, role).value)
    ensures var users' := users + [Server.NewUser(RegisterRequest(form, role).value)];
      AfterLogin(Server.Login(users', LoginRequest(LoginForm(form.username, form.password)))) ==
        Navigate(if role == "teacher" then "/teacher-home" else "/student-home", form.username)
  {
    var body := RegisterRequest(form, role).value;
    Server.RegisterThenLogin(users, body);
  }
}
