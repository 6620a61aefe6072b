/** The top-level React component (src/components/GitStashElectionApp.jsx):
    loading the repository list, reacting to the main process's
    `repository-added` and `refresh-requested` messages, and loading the
    files of the selected stash whenever the selection changes. */
module StashApp {
  import opened Domain
  import opened AppContext

  /** What `loadRepositories` dispatches once `getRepositories` answered
      (`None`: the call was rejected). */
  function LoadRepositoriesActions(loaded: Option<seq<Repository>>): seq<Action> {
    if loaded.Some? then [SetRepositories(loaded.value)]
    else [NotificationAction("Failed to load repositories", Some("error"))]
  }

  /** Loading the list replaces the list and nothing else, or on failure
      shows an error and keeps the list. */
  lemma LoadRepositoriesEffect(s: State, loaded: Option<seq<Repository>>)
    ensures var r := Replay(s, LoadRepositoriesActions(loaded));
      && r.repositories == (if loaded.Some? then loaded.value else s.repositories)
      && r.notification == (if loaded.Some? then s.notification else Some(Notification("Failed to load repositories", "error")))
      && r.repositoryStashes == s.repositoryStashes && r.repositoryExpanded == s.repositoryExpanded
      && r.selectedRepository == s.selectedRepository && r.selectedStash == s.selectedStash
      && r.selectedFile == s.selectedFile && r.files == s.files
  {
    ReplayOne(s, LoadRepositoriesActions(loaded)[0]);
  }

  /** `loadRepositories()`. */
  method LoadRepositories(store: AppStore, loaded: Option<seq<Repository>>)
    requires store.Valid()
    modifies store
    ensures store.Valid() && store.dispatched == old(store.dispatched) + LoadRepositoriesActions(loaded)
  {
    if loaded.Some? {
      store.SetRepositoryList(loaded.value);
    } else {
      store.ShowNotification("Failed to load repositories", Some("error"));
    }
  }

  function AddedNotice(repo: Repository): Action {
    NotificationAction("Repository \"" + repo.name + "\" added successfully!", Some("success"))
  }

  /** The `repository-added` listener: `loadRepositories` is started but not
      awaited, so the success notice is dispatched before the list arrives. */
  method OnRepositoryAdded(store: AppStore, repo: Repository, loaded: Option<seq<Repository>>)
    requires store.Valid()
    modifies store
    ensures store.Valid()
    ensures store.dispatched == old(store.dispatched) + [AddedNotice(repo)] + LoadRepositoriesActions(loaded)
  {
    store.ShowNotification("Repository \"" + repo.name + "\" added successfully!", Some("success"));
    LoadRepositories(store, loaded);
  }

  /** After the listener, the list is the loaded one; when loading failed the
      failure notice replaces the success notice. */
  lemma RepositoryAddedEffect(s: State, repo: Repository, loaded: Option<seq<Repository>>)
    ensures var r := Replay(s, [AddedNotice(repo)] + LoadRepositoriesActions(loaded));
      && r.repositories == (if loaded.Some? then loaded.value else s.repositories)
      && r.notification.Some?
      && r.notification.value.kind == (if loaded.Some? then "success" else "error")
  {
    ReplayConcat(s, [AddedNotice(repo)], LoadRepositoriesActions(loaded));
    ReplayOne(s, AddedNotice(repo));
    LoadRepositoriesEffect(Reduce(s, AddedNotice(repo)), loaded);
  }

  /** What `loadStashFiles` dispatches once `getStashFiles` answered. */
  function FilesActions(reply: Reply<seq<ChangedFile>>): seq<Action> {
    match reply
    case Success(files) => [SetFiles(files), SetSelectedFile(None)]
    case Failure(e) => [SetFiles([]), NotificationAction("Failed to load files: " + e, Some("error"))]
    case Thrown(_) => [SetFiles([]), NotificationAction("Failed to load stash files", Some("error"))]
  }

  /** Loading files replaces the file list (emptied on any failure), clears
      the selected file only on success, and never touches the repository or
      stash selection the loading depends on, so it does not retrigger
      itself. */
  lemma FilesEffect(s: State, reply: Reply<seq<ChangedFile>>)
    ensures var r := Replay(s, FilesActions(reply));
      && r.files == (if reply.Success? then reply.value else [])
      && r.selectedFile == (if reply.Success? then None else s.selectedFile)
      && (reply.Success? ==> r.notification == s.notification)
      && (reply.Failure? ==> r.notification == Some(Notification("Failed to load files: " + reply.error, "error")))
      && (reply.Thrown? ==> r.notification == Some(Notification("Failed to load stash files", "error")))
      && r.selectedRepository == s.selectedRepository && r.selectedStash == s.selectedStash
      && r.repositories == s.repositories && r.repositoryStashes == s.repositoryStashes
      && r.repositoryExpanded == s.repositoryExpanded
  {
    var actions := FilesActions(reply);
    ReplayTwo(s, actions[0], actions[1]);
  }

  /** `loadStashFiles()`: `called` tells whether `getStashFiles` was asked,
      which happens exactly when a repository and a stash are selected in
      `s`, the state the handler's closure was made in. */
  method LoadStashFiles(store: AppStore, s: State, reply: Reply<seq<ChangedFile>>) returns (called: bool)
    requires store.Valid()
    modifies store
    ensures called == StashSelected(s)
    ensures store.Valid()
    ensures store.dispatched == old(store.dispatched) + if called then FilesActions(reply) else []
  {
    if !StashSelected(s) {
      return false;
    }
    called := true;
    match reply {
      case Success(files) =>
        store.SetFileList(files);
        store.SelectFile(None);
      case Failure(e) =>
        store.SetFileList([]);
        store.ShowNotification("Failed to load files: " + e, Some("error"));
      case Thrown(_) =>
        store.SetFileList([]);
        store.ShowNotification("Failed to load stash files", Some("error"));
    }
  }

  /** `refreshCurrentRepository()` with the closure of state `s`. */
  method RefreshCurrentRepository(store: AppStore, s: State, reply: Reply<seq<ChangedFile>>) returns (called: bool)
    requires store.Valid()
    modifies store
    ensures called == StashSelected(s)
    ensures store.Valid()
    ensures store.dispatched == old(store.dispatched) + if called then FilesActions(reply) else []
  {
    called := false;
    if StashSelected(s) {
      called := LoadStashFiles(store, s, reply);
    }
  }

  /** The `refresh-requested` listener as registered: the mount effect runs
      once, so the listener keeps the closure of the first render, whose
      selection is the initial, empty one. Whatever is selected when the
      menu asks for a refresh, it loads nothing and dispatches nothing. */
  method OnRefreshRequestedAsRegistered(store: AppStore, reply: Reply<seq<ChangedFile>>) returns (called: bool)
    requires store.Valid()
    modifies store
    ensures store.Valid()
    ensures !called && store.dispatched == old(store.dispatched)
  {
    InitialStateIsEmpty();
    called := RefreshCurrentRepository(store, Initial(), reply);
  }

  /** The `refresh-requested` listener reading the current selection, as a
      refresh of the current repository means. */
  method OnRefreshRequested(store: AppStore, reply: Reply<seq<ChangedFile>>) returns (called: bool)
    requires store.Valid()
    modifies store
    ensures called == StashSelected(old(store.state))
    ensures store.Valid()
    ensures store.dispatched == old(store.dispatched) + if called then FilesActions(reply) else []
  {
    called := RefreshCurrentRepository(store, store.state, reply);
  }

  /** The effect keyed on the repository and stash selection, run after a
      render whose state is the store's current state. */
  method OnSelectionChange(store: AppStore, reply: Reply<seq<ChangedFile>>) returns (called: bool)
    requires store.Valid()
    modifies store
    ensures called == StashSelected(old(store.state))
    ensures store.Valid()
    ensures store.dispatched == old(store.dispatched) + if called then FilesActions(reply) else []
  {
    called := false;
    if StashSelected(store.state) {
      called := LoadStashFiles(store, store.state, reply);
    }
  }

  /** After the selection effect, the selection it was keyed on is the same
      as before, so the effect does not fire again. */
  lemma SelectionEffectSettles(s: State, reply: Reply<seq<ChangedFile>>)
    requires StashSelected(s)
    ensures StashSelected(Replay(s, FilesActions(reply)))
    ensures Replay(s, FilesActions(reply)).selectedRepository == s.selectedRepository
    ensures Replay(s, FilesActions(reply)).selectedStash == s.selectedStash
  {
    FilesEffect(s, reply);
  }
}
