/** The content pane of the React interface
    (src/components/StashDetailsView.jsx): the whole stash's diff, or one
    file's content when a file is selected, reloaded whenever the
    selection changes. */
module StashDetailsView {
  import opened Domain
  import opened AppContext

  const Placeholder := "\U{1F448} Select a stash from the sidebar to view its changes"

  /** Which content the pane asks for. */
  datatype ContentRequest =
    | NoRequest
    | FileContent(path: string, index: nat, filename: string)
    | StashContent(path: string, index: nat)

  /** The request the selection calls for: none without a repository and a
      stash; the file's content when a file is selected; else the stash's.
      The pane's `shouldShow` flag is `AppContext.StashSelected`, so the pane
      is displayed exactly when a request is made. */
  function Request(s: State): (r: ContentRequest)
    ensures r.NoRequest? <==> !StashSelected(s)
    ensures r.FileContent? <==> StashSelected(s) && s.selectedFile.Some?
    ensures !r.NoRequest? ==> r.path == s.selectedRepository.value.path && r.index == s.selectedStash.value
    ensures r.FileContent? ==> r.filename == s.selectedFile.value.filename
  {
    if !StashSelected(s) then NoRequest
    else if s.selectedFile.Some? then
      FileContent(s.selectedRepository.value.path, s.selectedStash.value, s.selectedFile.value.filename)
    else StashContent(s.selectedRepository.value.path, s.selectedStash.value)
  }

  /** "file content" or "stash content", as the messages name the request. */
  function Subject(request: ContentRequest): string
    requires !request.NoRequest?
  {
    if request.FileContent? then "file content" else "stash content"
  }

  /** The text the pane shows once the request answered. */
  function ContentText(request: ContentRequest, reply: Reply<string>): string
    requires !request.NoRequest?
  {
    match reply
    case Success(content) => content
    case Failure(e) => "Error loading " + Subject(request) + ": " + e
    case Thrown(_) => "Error loading " + Subject(request)
  }

  /** The notice dispatched once the request answered: none on success. */
  function ContentNotice(request: ContentRequest, reply: Reply<string>): seq<Action>
    requires !request.NoRequest?
  {
    match reply
    case Success(_) => []
    case Failure(e) => [NotificationAction("Failed to load " + Subject(request) + ": " + e, Some("error"))]
    case Thrown(_) => [NotificationAction("Failed to load " + Subject(request), Some("error"))]
  }

  /** A fetched content is shown verbatim and dispatches nothing; a failure
      shows its error in the pane and as an error notice, and changes no
      other part of the state. */
  lemma ContentOutcome(s: State, request: ContentRequest, reply: Reply<string>)
    requires !request.NoRequest?
    ensures reply.Success? ==> ContentText(request, reply) == reply.value && ContentNotice(request, reply) == []
    ensures reply.Failure? ==>
      var r := Replay(s, ContentNotice(request, reply));
      && r == s.(notification := r.notification)
      && r.notification == Some(Notification("Failed to load " + Subject(request) + ": " + reply.error, "error"))
      && ContentText(request, reply) == "Error loading " + Subject(request) + ": " + reply.error
  {
    if reply.Failure? {
      ReplayOne(s, ContentNotice(request, reply)[0]);
    }
  }

  /** The pane's own state: the text it shows and whether it is loading. */
  class DetailsPane {
    var content: string
    var loading: bool

    constructor()
      ensures content == "" && !loading
    {
      content := "";
      loading := false;
    }

    /** The synchronous part of `loadContent()`: without a selection the
        placeholder is shown; otherwise the pane starts loading. */
    method BeginLoad(s: State) returns (request: ContentRequest)
      modifies this
      ensures request == Request(s)
      ensures request.NoRequest? ==> content == Placeholder && loading == old(loading)
      ensures !request.NoRequest? ==> loading && content == old(content)
    {
      request := Request(s);
      if request.NoRequest? {
        content := Placeholder;
      } else {
        loading := true;
      }
    }

    /** The part of `loadContent()` after the request answered. */
    method FinishLoad(store: AppStore, request: ContentRequest, reply: Reply<string>)
      requires !request.NoRequest?
      requires store.Valid()
      modifies this, store
      ensures store.Valid()
      ensures store.dispatched == old(store.dispatched) + ContentNotice(request, reply)
      ensures content == ContentText(request, reply) && !loading
    {
      var subject := Subject(request);
      match reply {
        case Success(text) =>
          content := text;
        case Failure(e) =>
          content := "Error loading " + subject + ": " + e;
          store.ShowNotification("Failed to load " + subject + ": " + e, Some("error"));
        case Thrown(_) =>
          content := "Error loading " + subject;
          store.ShowNotification("Failed to load " + subject, Some("error"));
      }
      loading := false;
    }

    /** `loadContent()`, run by the effect keyed on the selection of the
        store's current state; `reply` is what the request answered. */
    method LoadContent(store: AppStore, reply: Reply<string>)
      requires store.Valid()
      modifies this, store
      ensures store.Valid()
      ensures var request := Request(old(store.state));
        && (request.NoRequest? ==>
              content == Placeholder && loading == old(loading) && store.dispatched == old(store.dispatched))
        && (!request.NoRequest? ==>
              && content == ContentText(request, reply) && !loading
              && store.dispatched == old(store.dispatched) + ContentNotice(request, reply))
    {
      var request := BeginLoad(store.state);
      if !request.NoRequest? {
        FinishLoad(store, request, reply);
      }
    }
  }
}
