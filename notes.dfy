/** The notes view: its state fields, the handlers that change them, the
    requests they send and the invariant every handler keeps. Each server
    answer is a parameter; `refetch` in a reaction marks the `fetchNotes()`
    call a handler starts without awaiting it. */
module Notes {
  import opened Common
  import opened Text
  import opened Session
  import opened Search

  const FetchFailed := "Failed to fetch notes!"
  const LoggedOut := "Logged out successfully!"
  const NoteUpdated := "Note updated successfully!"
  const NoteAdded := "Note added successfully!"
  const SaveFailed := "Error saving note!"
  const NoteDeleted := "Note deleted successfully!"
  const DeleteFailed := "Error deleting note!"

  /** The `values` of the modal form: a note without its identifier. */
  datatype Draft = Draft(title: string, content: string, category: string)

  /** The field values held by the antd form instance. */
  datatype FormFields = Blank | Filled(values: Draft)

  /** One authenticated request to the notes API, carrying its
      `Authorization` header. */
  datatype NoteRequest =
    | ListNotes(auth: string)
    | CreateNote(auth: string, body: Draft)
    | UpdateNote(auth: string, id: string, body: Draft)
    | DeleteNote(auth: string, id: string)

  /** `Bearer ${localStorage.getItem('authToken')}`: a missing token is
      rendered as the text `null`. */
  function AuthHeader(token: Option<string>): string {
    if token.Some? then "Bearer " + token.value else "Bearer null"
  }

  /** The state fields of the component (the dark-mode flag aside). */
  datatype View = View(
    notes: seq<Note>,
    filteredNotes: seq<Note>,
    searchTerm: string,
    loading: bool,
    modalVisible: bool,
    isEdit: bool,
    selectedNote: Option<Note>,
    form: FormFields)

  const Initial := View([], [], "", false, false, false, None, Blank)

  /** The new state after a handler, with the request it sent, the toast it
      showed and whether it started a refetch. */
  datatype Reaction = Reaction(view: View, request: Option<NoteRequest>, toast: Option<Toast>, refetch: bool)

  /** `fetchNotes`: a successful fetch replaces both lists by the response,
      whatever the search term; a failed one keeps them. */
  function Fetch(v: View, token: Option<string>, response: Response<seq<Note>>): (r: Reaction)
    ensures r.request == Some(ListNotes(AuthHeader(token)))
    ensures response.Ok? ==> r.view.notes == response.payload && r.view.filteredNotes == response.payload
    ensures response.Failed? ==> r.view.notes == v.notes && r.view.filteredNotes == v.filteredNotes
    ensures r.view == v.(notes := r.view.notes, filteredNotes := r.view.filteredNotes, loading := false)
    ensures r.toast.Some? <==> response.Failed?
    ensures response.Failed? ==> r.toast == Some(Error(FetchFailed))
    ensures !r.refetch
  {
    var request := Some(ListNotes(AuthHeader(token)));
    match response
    case Ok(list) => Reaction(v.(notes := list, filteredNotes := list, loading := false), request, None, false)
    case Failed => Reaction(v.(loading := false), request, Some(Error(FetchFailed)), false)
  }

  /** `handleSearch`: stores the lower-cased input and shows the notes whose
      category contains it. */
  function SearchFor(v: View, input: string): (w: View)
    ensures w == v.(searchTerm := w.searchTerm, filteredNotes := w.filteredNotes)
  {
    var term := Lower(input);
    v.(searchTerm := term, filteredNotes := if term != "" then FilterByCategory(v.notes, term) else v.notes)
  }

  /** `handleEdit`: open the modal on `note`, form filled from it. */
  function Edit(v: View, note: Note): (w: View)
    ensures w.isEdit && w.modalVisible && w.selectedNote == Some(note)
    ensures w.form == Filled(Draft(note.title, note.content, note.category))
    ensures w.notes == v.notes && w.filteredNotes == v.filteredNotes && w.searchTerm == v.searchTerm && w.loading == v.loading
  {
    v.(selectedNote := Some(note), isEdit := true, form := Filled(Draft(note.title, note.content, note.category)), modalVisible := true)
  }

  /** The "Add Note" button: open an empty modal in create mode. */
  function OpenAdd(v: View): (w: View)
    ensures !w.isEdit && w.modalVisible && w.selectedNote.None? && w.form.Blank?
    ensures w.notes == v.notes && w.filteredNotes == v.filteredNotes && w.searchTerm == v.searchTerm && w.loading == v.loading
  {
    v.(isEdit := false, selectedNote := None, form := Blank, modalVisible := true)
  }

  /** The modal's `onCancel`: only hides the modal. */
  function Cancel(v: View): (w: View)
    ensures !w.modalVisible && w.(modalVisible := v.modalVisible) == v
  {
    v.(modalVisible := false)
  }

  /** `handleSubmit`: an update of the selected note in edit mode, a create
      otherwise. In edit mode with no selected note, reading `_id` throws
      before any request and the `catch` block runs. */
  function Submit(v: View, token: Option<string>, values: Draft, response: Response<()>): (r: Reaction)
    ensures r.request.None? <==> v.isEdit && v.selectedNote.None?
    ensures r.request.Some? && v.isEdit ==> r.request == Some(UpdateNote(AuthHeader(token), v.selectedNote.value.id, values))
    ensures !v.isEdit ==> r.request == Some(CreateNote(AuthHeader(token), values))
    ensures r.refetch <==> r.request.Some? && response.Ok?
    ensures r.refetch ==> !r.view.modalVisible && r.view.form.Blank?
    ensures !r.refetch ==> r.toast == Some(Error(SaveFailed)) && r.view == v.(loading := false)
    ensures !r.view.loading && r.view.notes == v.notes && r.view.filteredNotes == v.filteredNotes
    ensures r.view.isEdit == v.isEdit && r.view.selectedNote == v.selectedNote && r.view.searchTerm == v.searchTerm
  {
    if v.isEdit && v.selectedNote.None? then
      Reaction(v.(loading := false), None, Some(Error(SaveFailed)), false)
    else
      var auth := AuthHeader(token);
      var request := if v.isEdit then UpdateNote(auth, v.selectedNote.value.id, values) else CreateNote(auth, values);
      match response
      case Ok(_) =>
        var text := if v.isEdit then NoteUpdated else NoteAdded;
        Reaction(v.(modalVisible := false, form := Blank, loading := false), Some(request), Some(Success(text)), true)
      case Failed =>
        Reaction(v.(loading := false), Some(request), Some(Error(SaveFailed)), false)
  }

  /** `handleDelete`: the row is never removed locally; success starts a refetch. */
  function Delete(v: View, token: Option<string>, id: string, response: Response<()>): (r: Reaction)
    ensures r.request == Some(DeleteNote(AuthHeader(token), id))
    ensures r.view == v.(loading := false)
    ensures r.refetch <==> response.Ok?
    ensures r.toast == Some(if response.Ok? then Success(NoteDeleted) else Error(DeleteFailed))
  {
    var request := Some(DeleteNote(AuthHeader(token), id));
    match response
    case Ok(_) => Reaction(v.(loading := false), request, Some(Success(NoteDeleted)), true)
    case Failed => Reaction(v.(loading := false), request, Some(Error(DeleteFailed)), false)
  }

  // ---------------------------------------------------------------------
  // Runs of handlers and the invariant they keep

  datatype Event =
    | FetchEvent(fetched: Response<seq<Note>>)
    | SearchEvent(input: string)
    | EditEvent(note: Note)
    | AddEvent
    | CancelEvent
    | SubmitEvent(values: Draft, saved: Response<()>)
    | DeleteEvent(id: string, deleted: Response<()>)

  function Step(v: View, token: Option<string>, e: Event): Reaction {
    match e
    case FetchEvent(response) => Fetch(v, token, response)
    case SearchEvent(input) => Reaction(SearchFor(v, input), None, None, false)
    case EditEvent(note) => Reaction(Edit(v, note), None, None, false)
    case AddEvent => Reaction(OpenAdd(v), None, None, false)
    case CancelEvent => Reaction(Cancel(v), None, None, false)
    case SubmitEvent(values, response) => Submit(v, token, values, response)
    case DeleteEvent(id, response) => Delete(v, token, id, response)
  }

  function Run(v: View, token: Option<string>, events: seq<Event>): View
    decreases |events|
  {
    if events == [] then v else Run(Step(v, token, events[0]).view, token, events[1..])
  }

  /** What holds in every state the view can reach: the table shows a
      subsequence of the notes, all of them when the search box is empty;
      the stored term is lower case; edit mode always has a selected note. */
  ghost predicate Coherent(v: View) {
    && IsSubsequence(v.filteredNotes, v.notes)
    && (v.searchTerm == "" ==> v.filteredNotes == v.notes)
    && Lower(v.searchTerm) == v.searchTerm
    && (v.isEdit ==> v.selectedNote.Some?)
  }

  /** A search leaves the notes alone, stores the lower-cased input and shows
      exactly the notes whose category contains it, in their order; with an
      empty input it shows all notes. */
  lemma SearchSelectsMatching(v: View, input: string)
    ensures SearchFor(v, input).notes == v.notes
    ensures SearchFor(v, input).searchTerm == Lower(input)
    ensures input == "" ==> SearchFor(v, input).filteredNotes == v.notes
    ensures SelectsMatching(SearchFor(v, input).filteredNotes, v.notes, Lower(input))
    ensures IsSubsequence(SearchFor(v, input).filteredNotes, v.notes)
  {
    var term := Lower(input);
    if term == "" {
      FilterByEmptyTerm(v.notes);
    }
    var idx := FilterSelectsMatching(v.notes, term);
  }

  lemma StepKeepsCoherent(v: View, token: Option<string>, e: Event)
    requires Coherent(v)
    ensures Coherent(Step(v, token, e).view)
  {
    match e
    case FetchEvent(response) =>
      if response.Ok? {
        SubsequenceReflexive(response.payload);
      }
    case SearchEvent(input) =>
      SearchSelectsMatching(v, input);
      LowerIdempotent(input);
    case _ =>
  }

  /** Every state reached from the initial one by any run of handlers is coherent. */
  lemma {:induction false} RunKeepsCoherent(v: View, token: Option<string>, events: seq<Event>)
    requires Coherent(v)
    ensures Coherent(Run(v, token, events))
    decreases |events|
  {
    if events != [] {
      StepKeepsCoherent(v, token, events[0]);
      RunKeepsCoherent(Step(v, token, events[0]).view, token, events[1..]);
    }
  }

  lemma ReachableIsCoherent(token: Option<string>, events: seq<Event>)
    ensures Coherent(Run(Initial, token, events))
  {
    assert IsIndexing([], [], []);
    RunKeepsCoherent(Initial, token, events);
  }

  /** In a reachable state a submit always sends its request: the path where
      reading `selectedNote._id` throws is never taken. */
  lemma ReachableSubmitSends(token: Option<string>, events: seq<Event>, values: Draft, response: Response<()>)
    ensures Submit(Run(Initial, token, events), token, values, response).request.Some?
  {
    ReachableIsCoherent(token, events);
  }

  /** After a successful create, update or delete, the table shows what the
      refetch returns and nothing synthesised locally: a deleted row the
      server still returns is shown again. */
  lemma MutationThenRefetch(v: View, token: Option<string>, e: Event, list: seq<Note>)
    requires e.SubmitEvent? || e.DeleteEvent?
    requires Step(v, token, e).refetch
    ensures var w := Fetch(Step(v, token, e).view, token, Ok(list)).view;
      w.notes == list && w.filteredNotes == list
  {
  }

  /** A refetch ignores the search term: the box can show "wo" while the
      table lists notes whose category does not contain it. */
  lemma FetchIgnoresSearchTerm()
    ensures var work, home := Note("1", "a", "b", "Work"), Note("2", "c", "d", "Home");
      var v0 := Fetch(Initial, None, Ok([work, home])).view;
      var v1 := SearchFor(v0, "wo");
      var v2 := Fetch(v1, None, Ok([work, home])).view;
      && v1.filteredNotes == [work]
      && SearchFor(v1, "").filteredNotes == [work, home]
      && v2.searchTerm == "wo"
      && v2.filteredNotes == [work, home]
      && FilterByCategory(v2.notes, v2.searchTerm) == [work]
  {
    var work, home := Note("1", "a", "b", "Work"), Note("2", "c", "d", "Home");
    assert Lower("Work") == "work";
    assert Lower("Home") == "home";
    assert Lower("wo") == "wo";
    assert Lower("") == "";
    assert Contains("work", "wo");
    assert !Contains("home", "wo") by {
      assert "home"[1..] == "ome" && "ome"[1..] == "me" && "me"[1..] == "e" && "e"[1..] == "";
      assert "wo"[0] != "home"[0] && "wo"[0] != "ome"[0] && "wo"[0] != "me"[0] && "wo"[0] != "e"[0];
    }
    var v0 := Fetch(Initial, None, Ok([work, home])).view;
    var v1 := SearchFor(v0, "wo");
    assert FilterByCategory([work, home], "wo") == [work] by {
      assert [work, home][1..] == [home];
    }
    assert v1.filteredNotes == [work];
    assert SearchFor(v1, "").filteredNotes == [work, home];
  }

  /** With no token stored, mounting still redirects and then fetches with
      the header `Bearer null`. */
  lemma MountWithoutToken(v: View, response: Response<seq<Note>>)
    ensures MountRedirect(None) == Some(RootRoute)
    ensures Fetch(v, None, response).request == Some(ListNotes("Bearer null"))
  {
  }

  // ---------------------------------------------------------------------
  // The component

  class NotesPage {
    var notes: seq<Note>
    var filteredNotes: seq<Note>
    var searchTerm: string
    var loading: bool
    var modalVisible: bool
    var isEdit: bool
    var selectedNote: Option<Note>
    var form: FormFields

    function State(): View
      reads this
    {
      View(notes, filteredNotes, searchTerm, loading, modalVisible, isEdit, selectedNote, form)
    }

    constructor ()
      ensures State() == Initial
    {
      notes, filteredNotes, searchTerm := [], [], "";
      loading, modalVisible, isEdit := false, false, false;
      selectedNote, form := None, Blank;
    }

    /** `fetchNotes`. */
    method FetchNotes(store: LocalStorage, response: Response<seq<Note>>) returns (request: NoteRequest, toast: Option<Toast>)
      modifies this
      ensures var r := Fetch(old(State()), store.Token(), response);
        State() == r.view && Some(request) == r.request && toast == r.toast
    {
      loading := true;
      request := ListNotes(AuthHeader(store.Token()));
      match response {
        case Ok(list) =>
          notes := list;
          filteredNotes := list;
          toast := None;
        case Failed =>
          toast := Some(Error(FetchFailed));
      }
      loading := false;
    }

    /** The two mount effects, in order: the token gate, then the first fetch. */
    method Mount(store: LocalStorage, response: Response<seq<Note>>) returns (nav: Option<Route>, request: NoteRequest, toast: Option<Toast>)
      modifies this
      ensures nav == MountRedirect(store.Token())
      ensures var r := Fetch(old(State()), store.Token(), response);
        State() == r.view && Some(request) == r.request && toast == r.toast
    {
      nav := if Truthy(store.Token()) then None else Some(RootRoute);
      request, toast := FetchNotes(store, response);
    }

    /** `handleLogout`: removes the token and returns to the login route. */
    method HandleLogout(store: LocalStorage) returns (toast: Toast, nav: Route)
      modifies store
      ensures store.items == old(store.items) - {AuthTokenKey}
      ensures store.Token().None? && MountRedirect(store.Token()) == Some(RootRoute)
      ensures toast == Success(LoggedOut) && nav == RootRoute
    {
      store.RemoveItem(AuthTokenKey);
      toast := Success(LoggedOut);
      nav := RootRoute;
    }

    /** `handleSearch`. */
    method HandleSearch(input: string)
      modifies this
      ensures State() == SearchFor(old(State()), input)
    {
      var value := Lower(input);
      searchTerm := value;
      if value != "" {
        filteredNotes := FilterByCategory(notes, value);
      } else {
        filteredNotes := notes;
      }
    }

    /** `handleEdit`. */
    method HandleEdit(note: Note)
      modifies this
      ensures State() == Edit(old(State()), note)
    {
      selectedNote := Some(note);
      isEdit := true;
      form := Filled(Draft(note.title, note.content, note.category));
      modalVisible := true;
    }

    /** The "Add Note" button's `onClick`. */
    method HandleAddNote()
      modifies this
      ensures State() == OpenAdd(old(State()))
    {
      isEdit := false;
      selectedNote := None;
      form := Blank;
      modalVisible := true;
    }

    /** The modal's `onCancel`. */
    method HandleCancel()
      modifies this
      ensures State() == Cancel(old(State()))
    {
      modalVisible := false;
    }

    /** `handleSubmit`, the modal form's `onFinish`. */
    method HandleSubmit(store: LocalStorage, values: Draft, response: Response<()>)
      returns (request: Option<NoteRequest>, toast: Toast, refetch: bool)
      modifies this
      ensures var r := Submit(old(State()), store.Token(), values, response);
        State() == r.view && request == r.request && Some(toast) == r.toast && refetch == r.refetch
    {
      loading := true;
      if isEdit && selectedNote.None? {
        request, toast, refetch := None, Error(SaveFailed), false;
      } else {
        var auth := AuthHeader(store.Token());
        if isEdit {
          request := Some(UpdateNote(auth, selectedNote.value.id, values));
        } else {
          request := Some(CreateNote(auth, values));
        }
        match response {
          case Ok(_) =>
            toast := Success(if isEdit then NoteUpdated else NoteAdded);
            refetch := true;
            modalVisible := false;
            form := Blank;
          case Failed =>
            toast, refetch := Error(SaveFailed), false;
        }
      }
      loading := false;
    }

    /** `handleDelete`. */
    method HandleDelete(store: LocalStorage, id: string, response: Response<()>)
      returns (request: NoteRequest, toast: Toast, refetch: bool)
      modifies this
      ensures var r := Delete(old(State()), store.Token(), id, response);
        State() == r.view && Some(request) == r.request && Some(toast) == r.toast && refetch == r.refetch
    {
      loading := true;
      request := DeleteNote(AuthHeader(store.Token()), id);
      match response {
        case Ok(_) =>
          toast, refetch := Success(NoteDeleted), true;
        case Failed =>
          toast, refetch := Error(DeleteFailed), false;
      }
      loading := false;
    }
  }
}
