/** The signup screen: its form state, the ordered validation chain and the
    handling of the registration request's outcome. */
module Signup {
  import opened Common
  import opened EmailFormat

  const AllFieldsRequired := "All fields are required!"
  const InvalidEmail := "Please enter a valid email address"
  const PasswordTooShort := "Password must be at least 6 characters long"
  const SignupSucceeded := "Signup successful!"
  const SignupFailed := "Something went wrong. Please try again!"
  const MinPasswordLength := 6

  /** The `form` state, which is also the request body `{name, email, password}`. */
  datatype SignupForm = SignupForm(name: string, email: string, password: string)

  /** The `name` attribute of the input that fired a change event. */
  datatype SignupField = NameField | EmailField | PasswordField

  function Get(f: SignupForm, field: SignupField): string {
    match field
    case NameField => f.name
    case EmailField => f.email
    case PasswordField => f.password
  }

  /** `{ ...form, [name]: value }`. */
  function Updated(f: SignupForm, field: SignupField, value: string): (g: SignupForm)
    ensures Get(g, field) == value
    ensures forall other :: other != field ==> Get(g, other) == Get(f, other)
  {
    match field
    case NameField => f.(name := value)
    case EmailField => f.(email := value)
    case PasswordField => f.(password := value)
  }

  /** The validation chain: the message of the first failing check, or `None`
      when the form may be sent. Presence is JavaScript truthiness, so only the
      empty string is missing. */
  function Validate(f: SignupForm): (err: Option<string>)
    ensures err == Some(AllFieldsRequired) <==> f.name == "" || f.email == "" || f.password == ""
    ensures err == Some(InvalidEmail) <==>
      f.name != "" && f.email != "" && f.password != "" && !IsEmail(f.email)
    ensures err == Some(PasswordTooShort) <==>
      f.name != "" && f.email != "" && f.password != "" && IsEmail(f.email) && |f.password| < MinPasswordLength
    ensures err == None <==>
      f.name != "" && f.email != "" && f.password != "" && IsEmail(f.email) && |f.password| >= MinPasswordLength
  {
    MatchesEmailPatternIff(f.email);
    if f.name == "" || f.email == "" || f.password == "" then Some(AllFieldsRequired)
    else if !MatchesEmailPattern(f.email) then Some(InvalidEmail)
    else if |f.password| < MinPasswordLength then Some(PasswordTooShort)
    else None
  }

  /** What one press of "Sign Up" does: the request sent (if any), the toast
      shown and the route navigated to (if any). */
  datatype SignupOutcome = SignupOutcome(request: Option<SignupForm>, toast: Toast, route: Option<Route>)

  /** `handleSubmit` with the server's answer given as `response`. */
  function Submit(f: SignupForm, response: Response<()>): (o: SignupOutcome)
    ensures o.request.Some? <==> Validate(f).None?
    ensures o.request.Some? ==> o.request.value == f
    ensures o.request.None? ==> o.toast == Error(Validate(f).value) && o.route.None?
    ensures o.route.Some? <==> o.request.Some? && response.Ok?
    ensures o.route.Some? ==> o.route.value == RootRoute && o.toast == Success(SignupSucceeded)
    ensures o.request.Some? && response.Failed? ==> o.toast == Error(SignupFailed)
  {
    match Validate(f)
    case Some(msg) => SignupOutcome(None, Error(msg), None)
    case None =>
      match response
      case Ok(_) => SignupOutcome(Some(f), Success(SignupSucceeded), Some(RootRoute))
      case Failed => SignupOutcome(Some(f), Error(SignupFailed), None)
  }

  /** Fields holding only blanks count as filled in: a form whose e-mail is
      only spaces gets past the presence check and is stopped by the e-mail
      check. */
  lemma BlanksArePresent(f: SignupForm)
    requires f.name != "" && f.email != "" && f.password != ""
    requires forall k :: 0 <= k < |f.email| ==> f.email[k] == ' '
    ensures Validate(f) == Some(InvalidEmail)
  {
    forall a, p ensures !SplitsAt(f.email, a, p) {
      if 0 <= a < |f.email| {
        assert f.email[a] == ' ';
      }
    }
  }

  /** The password bound is inclusive: six characters pass. */
  lemma SixCharactersSuffice(f: SignupForm)
    requires f.name != "" && IsEmail(f.email) && |f.password| == 6
    ensures Submit(f, Ok(())).request == Some(f)
  {
  }

  /** The signup component: the `form` and `loading` state fields. */
  class SignupPage {
    var form: SignupForm
    var loading: bool

    constructor ()
      ensures form == SignupForm("", "", "") && !loading
    {
      form := SignupForm("", "", "");
      loading := false;
    }

    /** `handleChange`: only the named field changes. */
    method HandleChange(field: SignupField, value: string)
      modifies this
      ensures form == Updated(old(form), field, value)
      ensures loading == old(loading)
    {
      form := Updated(form, field, value);
    }

    /** `handleSubmit`. No session token is stored on any path: the method
        has no access to `localStorage`. */
    method HandleSubmit(response: Response<()>) returns (request: Option<SignupForm>, toast: Toast, nav: Option<Route>)
      modifies this
      ensures SignupOutcome(request, toast, nav) == Submit(old(form), response)
      ensures form == old(form)
      ensures loading == (if request.Some? then false else old(loading))
    {
      var err := Validate(form);
      if err.Some? {
        return None, Error(err.value), None;
      }
      loading := true;
      request := Some(form);
      match response {
        case Ok(_) =>
          toast, nav := Success(SignupSucceeded), Some(RootRoute);
        case Failed =>
          toast, nav := Error(SignupFailed), None;
      }
      loading := false;
    }
  }
}
