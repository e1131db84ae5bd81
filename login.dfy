/** The login screen: its form state, the presence check and the handling
    of the session token returned by the server. */
module Login {
  import opened Common
  import opened Session
  import EmailFormat

  const AllFieldsRequired := "All fields are required!"
  const LoginSucceeded := "Login successful!"
  const InvalidCredentials := "Invalid credentials!"
  const LoginError := "Error during login. Please try again!"

  /** The `form` state, sent unchanged as the request body. */
  datatype LoginForm = LoginForm(email: string, password: string)

  datatype LoginField = LoginEmail | LoginPassword

  function Get(f: LoginForm, field: LoginField): string {
    match field
    case LoginEmail => f.email
    case LoginPassword => f.password
  }

  /** `{ ...form, [name]: value }`. */
  function Updated(f: LoginForm, field: LoginField, value: string): (g: LoginForm)
    ensures Get(g, field) == value
    ensures forall other :: other != field ==> Get(g, other) == Get(f, other)
  {
    match field
    case LoginEmail => f.(email := value)
    case LoginPassword => f.(password := value)
  }

  /** What one press of "Log In" does: the request sent (if any), the token
      written to `authToken` (if any), the toast and the route (if any). */
  datatype LoginOutcome = LoginOutcome(request: Option<LoginForm>, stored: Option<string>, toast: Toast, route: Option<Route>)

  /** `handleSubmit` with the server's answer given as `response`; its payload
      is `response.data.token`, `None` when the data or the token is missing. */
  function Submit(f: LoginForm, response: Response<Option<string>>): (o: LoginOutcome)
    ensures o.request.Some? <==> f.email != "" && f.password != ""
    ensures o.request.Some? ==> o.request.value == f
    ensures o.request.None? ==> o.toast == Error(AllFieldsRequired) && o.stored.None? && o.route.None?
    ensures o.stored.Some? <==> o.request.Some? && response.Ok? && Truthy(response.payload)
    ensures o.stored.Some? ==> response.payload == o.stored && o.stored.value != ""
    ensures o.route.Some? <==> o.stored.Some?
    ensures o.stored.Some? ==> o.route.value == NotesRoute && o.toast == Success(LoginSucceeded)
    ensures o.request.Some? && response.Ok? && !Truthy(response.payload) ==> o.toast == Error(InvalidCredentials)
    ensures o.request.Some? && response.Failed? ==> o.toast == Error(LoginError)
  {
    if f.email == "" || f.password == "" then
      LoginOutcome(None, None, Error(AllFieldsRequired), None)
    else
      match response
      case Ok(token) =>
        if Truthy(token) then LoginOutcome(Some(f), token, Success(LoginSucceeded), Some(NotesRoute))
        else LoginOutcome(Some(f), None, Error(InvalidCredentials), None)
      case Failed => LoginOutcome(Some(f), None, Error(LoginError), None)
  }

  /** The three ways a sent login can fail are told apart by their toasts. */
  lemma FailureMessagesDistinct()
    ensures InvalidCredentials != LoginError
    ensures AllFieldsRequired != InvalidCredentials && AllFieldsRequired != LoginError
  {
  }

  /** Login applies no e-mail format check: an address the signup form
      rejects is still sent. */
  lemma MalformedEmailIsSent(password: string, response: Response<Option<string>>)
    requires password != ""
    ensures !EmailFormat.IsEmail("nobody")
    ensures Submit(LoginForm("nobody", password), response).request == Some(LoginForm("nobody", password))
  {
    var w := "nobody";
    assert forall k :: 0 <= k < |w| ==> w[k] != '@';
  }

  /** A login that stores a token admits the notes view on its next mount. */
  lemma LoginThenMount(items: map<string, string>, f: LoginForm, response: Response<Option<string>>)
    ensures var o := Submit(f, response);
      o.stored.Some? ==> MountRedirect(TokenIn(items[AuthTokenKey := o.stored.value])).None?
  {
    var o := Submit(f, response);
    if o.stored.Some? {
      StoredTokenAdmits(items, o.stored.value);
    }
  }

  /** The login component: the `form` and `loading` state fields. */
  class LoginPage {
    var form: LoginForm
    var loading: bool

    constructor ()
      ensures form == LoginForm("", "") && !loading
    {
      form := LoginForm("", "");
      loading := false;
    }

    /** `handleChange`: only the named field changes. */
    method HandleChange(field: LoginField, value: string)
      modifies this
      ensures form == Updated(old(form), field, value)
      ensures loading == old(loading)
    {
      form := Updated(form, field, value);
    }

    /** `handleSubmit`: stores the token under `authToken` when, and only
        when, the server returned a truthy one; no other key changes. */
    method HandleSubmit(store: LocalStorage, response: Response<Option<string>>)
      returns (request: Option<LoginForm>, toast: Toast, nav: Option<Route>)
      modifies this, store
      ensures var o := Submit(old(form), response);
        && request == o.request && toast == o.toast && nav == o.route
        && store.items == (if o.stored.Some? then old(store.items)[AuthTokenKey := o.stored.value] else old(store.items))
      ensures form == old(form)
      ensures loading == (if request.Some? then false else old(loading))
    {
      if form.email == "" || form.password == "" {
        return None, Error(AllFieldsRequired), None;
      }
      loading := true;
      request := Some(form);
      match response {
        case Ok(token) =>
          if Truthy(token) {
            store.SetItem(AuthTokenKey, token.value);
            toast, nav := Success(LoginSucceeded), Some(NotesRoute);
          } else {
            toast, nav := Error(InvalidCredentials), None;
          }
        case Failed =>
          toast, nav := Error(LoginError), None;
      }
      loading := false;
    }
  }
}
