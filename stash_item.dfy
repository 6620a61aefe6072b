/** One stash row of the React interface (src/components/StashItem.jsx):
    whether it is selected, and its select, apply and drop handlers. Each
    handler is given the answer to its confirmation prompt and what its
    awaited calls gave back, and is specified by the actions it dispatches,
    in order; the lemmas give their net effect on the state. */
module StashItem {
  import opened Domain
  import opened AppContext

  /** `isSelected`: this row's repository is the selected one and its index
      is the selected stash. */
  predicate IsSelected(s: State, repository: Repository, index: nat)
    ensures IsSelected(s, repository, index) ==> s.selectedStash == Some(index) && StashSelected(s)
  {
    s.selectedRepository.Some? && s.selectedRepository.value.id == repository.id && s.selectedStash == Some(index)
  }

  function SelectStashActions(repository: Repository, index: nat): seq<Action> {
    [SetSelectedRepository(Some(repository)), SetSelectedStash(Some(index)), SetSelectedFile(None)]
  }

  /** Selecting the row selects exactly it and clears the file selection;
      the cache, the expanded flags, the file list and the notification are
      untouched. */
  lemma SelectStashEffect(s: State, repository: Repository, index: nat)
    ensures Replay(s, SelectStashActions(repository, index)) ==
      s.(selectedRepository := Some(repository), selectedStash := Some(index), selectedFile := None)
    ensures IsSelected(Replay(s, SelectStashActions(repository, index)), repository, index)
  {
    ReplayThree(s, SetSelectedRepository(Some(repository)), SetSelectedStash(Some(index)), SetSelectedFile(None));
  }

  /** `selectStash()`. */
  method SelectStash(store: AppStore, repository: Repository, index: nat)
    requires store.Valid()
    modifies store
    ensures store.Valid() && store.dispatched == old(store.dispatched) + SelectStashActions(repository, index)
  {
    store.SelectRepository(Some(repository));
    store.SelectStash(Some(index));
    store.SelectFile(None);
  }

  /** The notice `applyStash` dispatches once `applyStash` answered. */
  function ApplyNotice(reply: Reply<string>): Action {
    match reply
    case Success(message) => NotificationAction(message, Some("success"))
    case Failure(e) => NotificationAction(OrElse(e, "Failed to apply stash"), Some("error"))
    case Thrown(_) => NotificationAction("Failed to apply stash", Some("error"))
  }

  /** Applying, whatever its outcome, changes nothing but the notification. */
  lemma ApplyOnlyNotifies(s: State, reply: Reply<string>)
    ensures Replay(s, [ApplyNotice(reply)]) == s.(notification := Replay(s, [ApplyNotice(reply)]).notification)
    ensures Replay(s, [ApplyNotice(reply)]).notification.Some?
    ensures Replay(s, [ApplyNotice(reply)]).notification.value.kind == if reply.Success? then "success" else "error"
  {
    ReplayOne(s, ApplyNotice(reply));
  }

  /** `applyStash()`: `called` tells whether the main process was asked at
      all, which happens exactly when the prompt was confirmed. */
  method ApplyStash(store: AppStore, repository: Repository, index: nat, confirmed: bool, reply: Reply<string>)
    returns (called: bool)
    requires store.Valid()
    modifies store
    ensures called == confirmed
    ensures store.Valid()
    ensures store.dispatched == old(store.dispatched) + if confirmed then [ApplyNotice(reply)] else []
  {
    called := confirmed;
    if !confirmed {
      return;
    }
    match reply {
      case Success(message) => store.ShowNotification(message, Some("success"));
      case Failure(e) => store.ShowNotification(OrElse(e, "Failed to apply stash"), Some("error"));
      case Thrown(_) => store.ShowNotification("Failed to apply stash", Some("error"));
    }
  }

  /** What `dropStash` dispatches from state `s` once `dropStash` answered
      `reply` and the reload's `getStashes` answered `reload`. */
  function DropActions(s: State, repository: Repository, index: nat, reply: Reply<string>, reload: Reply<seq<Stash>>): seq<Action> {
    match reply
    case Success(message) =>
      [NotificationAction(message, Some("success"))]
      + (if IsSelected(s, repository, index) then [SetSelectedStash(None), SetSelectedFile(None)] else [])
      + (match reload
         case Success(stashes) => [SetRepositoryStashes(repository.id, Loaded(stashes))]
         case Failure(_) => []
         case Thrown(_) => [NotificationAction("Failed to drop stash", Some("error"))])
    case Failure(e) => [NotificationAction(OrElse(e, "Failed to drop stash"), Some("error"))]
    case Thrown(_) => [NotificationAction("Failed to drop stash", Some("error"))]
  }

  /** A successful drop clears stash and file only when the dropped stash
      was the selected one, so a selected stash with another index (higher
      ones included) keeps its index; the cache entry is replaced only when
      the reload succeeds. A failed drop changes neither selection nor cache. */
  lemma DropEffect(s: State, repository: Repository, index: nat, reply: Reply<string>, reload: Reply<seq<Stash>>)
    ensures var r := Replay(s, DropActions(s, repository, index, reply, reload));
      && r.selectedRepository == s.selectedRepository
      && r.selectedStash == (if reply.Success? && IsSelected(s, repository, index) then None else s.selectedStash)
      && r.selectedFile == (if reply.Success? && IsSelected(s, repository, index) then None else s.selectedFile)
      && r.repositoryStashes ==
         (if reply.Success? && reload.Success? then s.repositoryStashes[repository.id := Loaded(reload.value)]
          else s.repositoryStashes)
      && r.repositories == s.repositories && r.repositoryExpanded == s.repositoryExpanded && r.files == s.files
  {
    if reply.Success? {
      var notice := [NotificationAction(reply.value, Some("success"))];
      var clear: seq<Action> := if IsSelected(s, repository, index) then [SetSelectedStash(None), SetSelectedFile(None)] else [];
      var rest: seq<Action> := match reload
        case Success(stashes) => [SetRepositoryStashes(repository.id, Loaded(stashes))]
        case Failure(_) => []
        case Thrown(_) => [NotificationAction("Failed to drop stash", Some("error"))];
      assert DropActions(s, repository, index, reply, reload) == notice + clear + rest;
      ReplayConcat(s, notice + clear, rest);
      ReplayConcat(s, notice, clear);
      var s1 := Replay(s, notice);
      ReplayOne(s, notice[0]);
      var s2 := Replay(s1, clear);
      if IsSelected(s, repository, index) {
        ReplayTwo(s1, clear[0], clear[1]);
      }
      if rest != [] {
        ReplayOne(s2, rest[0]);
      }
    }
  }

  /** `dropStash()`: `called` tells whether the main process was asked at
      all. The selection test reads the state the handler started from. */
  method DropStash(store: AppStore, repository: Repository, index: nat, confirmed: bool,
                   reply: Reply<string>, reload: Reply<seq<Stash>>)
    returns (called: bool)
    requires store.Valid()
    modifies store
    ensures called == confirmed
    ensures store.Valid()
    ensures store.dispatched == old(store.dispatched) +
      if confirmed then DropActions(old(store.state), repository, index, reply, reload) else []
  {
    called := confirmed;
    if !confirmed {
      return;
    }
    var wasSelected := IsSelected(store.state, repository, index);
    match reply {
      case Success(message) =>
        store.ShowNotification(message, Some("success"));
        if wasSelected {
          store.SelectStash(None);
          store.SelectFile(None);
        }
        match reload {
          case Success(stashes) => store.SetStashesOf(repository.id, Loaded(stashes));
          case Failure(_) =>
          case Thrown(_) => store.ShowNotification("Failed to drop stash", Some("error"));
        }
      case Failure(e) => store.ShowNotification(OrElse(e, "Failed to drop stash"), Some("error"));
      case Thrown(_) => store.ShowNotification("Failed to drop stash", Some("error"));
    }
  }
}
