# Note front end: session, signup validation and the notes view

This project models the client-side decision logic of a small React
single-page application for notes. It has three screens. Signup validates a
form and registers a user. Login exchanges credentials for a session token
kept in `localStorage` under `authToken`. The notes view lists, searches,
creates, edits and deletes notes through an authenticated HTTP API.

Each HTTP exchange is an explicit input `Response<T>`: `Ok(payload)` or
`Failed`. `Failed` stands for the exception a handler's `catch` block sees.
Navigation is a returned route, toasts are returned `Toast` values, and
requests are returned values that carry their `Authorization` header.

Modules, one per component:

- `Common` (common.dfy): `Option`, `Response`, `Toast`, the routes `/` and `/notes`.
- `Text` (text.dfy): ASCII `toLowerCase`, `includes` (`Contains`) with its
  positional characterisation, and first/last index of a character.
- `EmailFormat` (email.dfy): the signup e-mail regular expression read as
  `L "@" D "." T`, plus a left-to-right scanner (`MatchesEmailPattern`) proved
  to accept exactly those strings.
- `Session` (session.dfy): `localStorage` as a class over a string map, JavaScript
  truthiness of the token, and the mount gate of the notes view.
- `Signup` (signup.dfy), `Login` (login.dfy): the form datatypes, the decision
  each submit makes as a function, and the component classes whose methods
  are proved against those functions.
- `Search` (search.dfy): the note record and the category filter. The filter
  is proved to keep exactly the matching notes, in order.
- `Notes` (notes.dfy): the view state, one transition function per handler,
  the invariant every run of handlers keeps, and the `NotesPage` class whose
  methods are proved against the transition functions.

Two behaviours of the notes view are worth knowing:

- A successful fetch sets `filteredNotes` to the whole response and ignores
  the current `searchTerm`. The table is then unfiltered while the search box
  still shows a term. `Notes.FetchIgnoresSearchTerm` exhibits this. The
  invariant that does hold in every reachable state is weaker: the table shows
  a subsequence of the notes, and all of them when the term is empty.
- The first fetch on mount runs whatever the token gate decided. With no
  token it sends the header `Bearer null` (`Notes.MountWithoutToken`).

## Model

| member | source | states |
|---|---|---|
| `Text.Lower` | src/components/Note/fetchNote.jsx:48 | lower-casing keeps the length, maps each ASCII upper-case letter to its lower-case form and keeps every other character |
| `Text.ContainsIff` | src/components/Note/fetchNote.jsx:52 | `includes` holds iff the term occurs at some position of the string |
| `EmailFormat.MatchesEmailPatternIff` | src/components/Signup.jsx:23-27 | the scanner accepts a string iff it is `L "@" D "." T` with L in `[A-Za-z0-9._-]+`, D in `[A-Za-z0-9.-]+`, T in `[A-Za-z]{2,6}` |
| `EmailFormat.EmailShape` | src/components/Signup.jsx:23 | an accepted address has exactly one `@` and ends with 2 to 6 ASCII letters after its last `.` |
| `EmailFormat.EmailOfParts` | src/components/Signup.jsx:23 | any valid L, D and T glued as `L@D.T` is accepted |
| `Session.MountRedirect` | src/components/Note/fetchNote.jsx:19-24 | mounting redirects to `/` exactly when the stored token is missing or empty |
| `Session.LocalStorage.SetItem` | src/components/Login.jsx:28 | the key now maps to the value; other keys are unchanged |
| `Session.LocalStorage.RemoveItem` | src/components/Note/fetchNote.jsx:42 | the key is gone; other keys are unchanged |
| `Session.RemovedTokenRedirects` | src/components/Note/fetchNote.jsx:41-45 | after the token is removed, the next mount redirects to `/` whatever else is stored |
| `Session.StoredTokenAdmits` | src/components/Note/fetchNote.jsx:19-24 | after a non-empty token is stored, mounting does not redirect |
| `Signup.Updated` | src/components/Signup.jsx:10-13 | a change sets the named field and leaves the other two unchanged |
| `Signup.Validate` | src/components/Signup.jsx:17-33 | checks run in order (presence, e-mail, password of at least 6) and yield exactly one message, each iff the earlier checks passed and its own failed; `None` iff all pass |
| `Signup.Submit` | src/components/Signup.jsx:15-51 | a request is sent iff validation passes, and its body is the form; success navigates to `/`; failure shows the generic error and stays |
| `Signup.BlanksArePresent` | src/components/Signup.jsx:17-27 | any form whose fields are non-empty and whose e-mail is only spaces passes the presence check and is stopped by the e-mail check |
| `Signup.SixCharactersSuffice` | src/components/Signup.jsx:30-33 | a valid form with a password of exactly 6 characters is sent |
| `Signup.SignupPage.constructor` | src/components/Signup.jsx:7-8 | the form starts empty and not loading |
| `Signup.SignupPage.HandleChange` | src/components/Signup.jsx:10-13 | the form becomes `Updated(old form, field, value)`; `loading` is unchanged |
| `Signup.SignupPage.HandleSubmit` | src/components/Signup.jsx:15-51 | outputs are `Submit(old form, response)`; `loading` is false after a sent request and unchanged otherwise; no token is stored |
| `Login.Updated` | src/components/Login.jsx:12-15 | a change sets the named field and leaves the other unchanged |
| `Login.Submit` | src/components/Login.jsx:17-39 | sent iff both fields are non-empty, with the form as body; a token is stored iff the reply carries a truthy one, and it is exactly that token, with navigation to `/notes`; a falsy token gives "Invalid credentials!"; a transport error gives the login-error message |
| `Login.FailureMessagesDistinct` | src/components/Login.jsx:18-35 | the presence, invalid-credentials and transport-error messages differ |
| `Login.MalformedEmailIsSent` | src/components/Login.jsx:18-21 | login applies no format check: an address the signup check rejects is sent |
| `Login.LoginThenMount` | src/components/Login.jsx:27-30 | a login that stores a token admits the notes view on its next mount |
| `Login.LoginPage.constructor` | src/components/Login.jsx:8-9 | the form starts empty and not loading |
| `Login.LoginPage.HandleChange` | src/components/Login.jsx:12-15 | the form becomes `Updated(old form, field, value)`; `loading` is unchanged |
| `Login.LoginPage.HandleSubmit` | src/components/Login.jsx:17-39 | outputs are `Submit(old form, response)`; storage gains exactly `authToken := token` when one is stored and is otherwise unchanged; `loading` is false after a sent request |
| `Search.FilterByCategory` | src/components/Note/fetchNote.jsx:51-53 | a note is in the result iff it is in the list and its lower-cased category contains the term; the result is no longer than the list |
| `Search.FilterSelectsMatching` | src/components/Note/fetchNote.jsx:51-53 | the result is the list's matching notes at strictly increasing positions, every matching position included |
| `Search.FilterIsSubsequence` | src/components/Note/fetchNote.jsx:51-54 | the filtered list is a subsequence of the notes |
| `Search.FilterByEmptyTerm` | src/components/Note/fetchNote.jsx:50-57 | filtering by the empty term returns the list unchanged |
| `Notes.Fetch` | src/components/Note/fetchNote.jsx:26-39 | sends a list request with the stored token; success sets both `notes` and `filteredNotes` to the response whatever the term; failure keeps both and shows an error; only `loading` (false) changes besides |
| `Notes.SearchFor` | src/components/Note/fetchNote.jsx:47-58 | only `searchTerm` and `filteredNotes` change |
| `Notes.Edit` | src/components/Note/fetchNote.jsx:84-89 | selects the note, enters edit mode, fills the form from it and shows the modal; the lists are unchanged |
| `Notes.OpenAdd` | src/components/Note/fetchNote.jsx:177-182 | leaves edit mode, clears the selection and the form, shows the modal |
| `Notes.Cancel` | src/components/Note/fetchNote.jsx:197 | only hides the modal |
| `Notes.Submit` | src/components/Note/fetchNote.jsx:60-82 | update of the selected note's id in edit mode, create otherwise; no request when edit mode has no selection; success refetches, hides the modal and resets the form; failure shows the save error and changes only `loading`; the lists never change and `loading` ends false |
| `Notes.Delete` | src/components/Note/fetchNote.jsx:91-104 | sends a delete for the id; only `loading` changes (to false), so no row is removed locally; success refetches |
| `Notes.SearchSelectsMatching` | src/components/Note/fetchNote.jsx:47-58 | a search keeps `notes`, stores the lower-cased input, shows exactly the matching notes in order, and all notes for an empty input |
| `Notes.StepKeepsCoherent` | src/components/Note/fetchNote.jsx:26-104 | every handler keeps the view coherent: table a subsequence of the notes, all notes when the term is empty, term lower case, edit mode with a selected note |
| `Notes.RunKeepsCoherent` | src/components/Note/fetchNote.jsx:26-104 | any sequence of handlers keeps coherence |
| `Notes.ReachableIsCoherent` | src/components/Note/fetchNote.jsx:8-14 | every state reachable from the initial state is coherent |
| `Notes.ReachableSubmitSends` | src/components/Note/fetchNote.jsx:63-64 | in a reachable state a submit always sends its request; the `selectedNote._id` failure cannot occur |
| `Notes.MutationThenRefetch` | src/components/Note/fetchNote.jsx:74-98 | after a successful create, update or delete, the refetch alone decides the table; a deleted row the server still returns is shown |
| `Notes.FetchIgnoresSearchTerm` | src/components/Note/fetchNote.jsx:32-33 | with notes Work and Home, searching "wo" shows Work, clearing shows both, and a refetch shows both while the term stays "wo" |
| `Notes.MountWithoutToken` | src/components/Note/fetchNote.jsx:19-31 | with no token, mounting redirects to `/` and the mount fetch still sends `Bearer null` |
| `Notes.NotesPage.constructor` | src/components/Note/fetchNote.jsx:8-15 | the state starts empty: no notes, empty term, not loading, modal hidden, create mode, nothing selected |
| `Notes.NotesPage.FetchNotes` | src/components/Note/fetchNote.jsx:26-39 | the new state and outputs are those of `Fetch` |
| `Notes.NotesPage.Mount` | src/components/Note/fetchNote.jsx:19-24 | navigates as `MountRedirect` of the stored token, then fetches as `Fetch` |
| `Notes.NotesPage.HandleLogout` | src/components/Note/fetchNote.jsx:41-45 | removes `authToken` and no other key, after which mounting redirects; returns to `/` |
| `Notes.NotesPage.HandleSearch` | src/components/Note/fetchNote.jsx:47-58 | the new state is `SearchFor(old state, input)` |
| `Notes.NotesPage.HandleEdit` | src/components/Note/fetchNote.jsx:84-89 | the new state is `Edit(old state, note)` |
| `Notes.NotesPage.HandleAddNote` | src/components/Note/fetchNote.jsx:177-182 | the new state is `OpenAdd(old state)` |
| `Notes.NotesPage.HandleCancel` | src/components/Note/fetchNote.jsx:197 | the new state is `Cancel(old state)` |
| `Notes.NotesPage.HandleSubmit` | src/components/Note/fetchNote.jsx:60-82 | the new state and outputs are those of `Submit` |
| `Notes.NotesPage.HandleDelete` | src/components/Note/fetchNote.jsx:91-104 | the new state and outputs are those of `Delete` |

## Left out

- Rendering: JSX, antd widgets, Tailwind classes, the dark-mode toggle and its `isDarkMode` field (src/components/Note/fetchNote.jsx:134-217, 15). These are presentation only.
- Table pagination (`pageSize: 5`). It is done inside antd's table.
- The axios calls and their URLs. Each call is a `Response` parameter, and the request is returned as a value. The HTTP method and path are named by the `NoteRequest` constructor.
- The `message.*` toasts are modelled only as returned `Toast` values. `console.error` in signup is not modelled.
- Concurrency. Each handler is atomic. The un-awaited `fetchNotes()` started by submit and delete is the `refetch` flag; the caller then runs `FetchNotes`. Interleavings of in-flight requests are not modelled.
- Signup.SignupPage.HandleSubmit: `loading` is true only while the request is pending. An atomic handler cannot observe that, so the contract states only its value afterwards.
- Login.LoginPage.HandleSubmit: `loading` is true only while the request is pending. An atomic handler cannot observe that, so the contract states only its value afterwards.
- Text.Lower: folds only ASCII letters, not Unicode `toLowerCase`. Lengths are counted in Dafny characters rather than UTF-16 code units, so the password-length check agrees with JavaScript only when no character lies outside the Basic Multilingual Plane.
- The JavaScript regular-expression engine. The e-mail check is the structural predicate, with a scanner proved equal to it.
- The antd `Form.Item` required rules on title, content and category. Submit accepts any `Draft`.
- Login replies whose `token` is truthy but not a string (a number, an object). The reply's token is `Option<string>`, and a missing `response.data` counts as a missing token.
- Fetch replies with a 2xx status but no `data.notes`. The source then sets `notes` and `filteredNotes` to `undefined`, and a later non-empty search throws. The reply is `Response<seq<Note>>`, which cannot express a missing list.
- `handleChange` events whose input `name` is not one of the form's fields. Only the rendered inputs are modelled.
