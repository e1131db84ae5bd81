/** The session store: the browser's `localStorage`, of which the application
    uses the one key `authToken`, and the gate the notes view applies on mount. */
module Session {
  import opened Common

  const AuthTokenKey: string := "authToken"

  /** JavaScript truthiness of `localStorage.getItem('authToken')`: null and
      the empty string are falsy. */
  predicate Truthy(token: Option<string>) {
    token.Some? && token.value != ""
  }

  /** The session token held by a storage dictionary. */
  function TokenIn(items: map<string, string>): Option<string> {
    if AuthTokenKey in items then Some(items[AuthTokenKey]) else None
  }

  /** The token-gating effect of the notes view: with no truthy token it
      navigates to the login route, otherwise it stays. */
  function MountRedirect(token: Option<string>): (nav: Option<Route>)
    ensures nav.Some? <==> !Truthy(token)
    ensures nav.Some? ==> nav.value == RootRoute
  {
    if Truthy(token) then None else Some(RootRoute)
  }

  /** `localStorage`: a string-to-string dictionary updated in place. */
  class LocalStorage {
    var items: map<string, string>

    constructor ()
      ensures items == map[]
    {
      items := map[];
    }

    /** `getItem(key)`, with `null` as `None`. */
    function GetItem(key: string): Option<string>
      reads this
    {
      if key in items then Some(items[key]) else None
    }

    /** The stored session token. */
    function Token(): Option<string>
      reads this
    {
      TokenIn(items)
    }

    method SetItem(key: string, value: string)
      modifies this
      ensures items == old(items)[key := value]
      ensures GetItem(key) == Some(value)
    {
      items := items[key := value];
    }

    method RemoveItem(key: string)
      modifies this
      ensures items == old(items) - {key}
      ensures GetItem(key) == None
    {
      items := items - {key};
    }
  }

  /** After the token is removed, mounting the notes view redirects to the
      login route, whatever else is stored. */
  lemma RemovedTokenRedirects(items: map<string, string>)
    ensures MountRedirect(TokenIn(items - {AuthTokenKey})) == Some(RootRoute)
  {
  }

  /** After a non-empty token is stored, mounting the notes view stays. */
  lemma StoredTokenAdmits(items: map<string, string>, token: string)
    requires token != ""
    ensures MountRedirect(TokenIn(items[AuthTokenKey := token])) == None
  {
  }
}
