/** One repository row of the React sidebar
    (src/components/RepositoryItem.jsx): whether it is expanded and
    selected, and its toggle, load, refresh and remove handlers. Each handler
    is specified by the actions it dispatches given the state its closure was
    made in and what its awaited calls gave back; the lemmas give the net
    effect. */
module RepositoryItem {
  import opened Domain
  import opened RepositoryList
  import opened AppContext
  import StashItem

  /** `isSelected`: the selected repository has this row's id. */
  predicate IsSelected(s: State, repository: Repository)
    ensures forall index: nat :: StashItem.IsSelected(s, repository, index) ==> IsSelected(s, repository)
  {
    s.selectedRepository.Some? && s.selectedRepository.value.id == repository.id
  }

  /** `repositoryStashes[id] || []`: what the row hands to its stash list. */
  function ShownStashes(s: State, repository: Repository): (slot: StashSlot)
    ensures slot != Unset
    ensures IsCached(s.repositoryStashes, repository.id) ==> slot == s.repositoryStashes[repository.id]
    ensures !IsCached(s.repositoryStashes, repository.id) ==> slot == Loaded([])
  {
    OrNoStashes(SlotOf(s.repositoryStashes, repository.id))
  }

  /** What `loadRepositoryStashes` dispatches once `getStashes` answered:
      the loading marker, then the list (empty on failure) and, on failure,
      an error notice. */
  function LoadActions(repository: Repository, reply: Reply<seq<Stash>>): seq<Action> {
    match reply
    case Success(stashes) =>
      [SetRepositoryStashes(repository.id, Loading), SetRepositoryStashes(repository.id, Loaded(stashes))]
    case Failure(e) =>
      [SetRepositoryStashes(repository.id, Loading), SetRepositoryStashes(repository.id, Loaded([])),
       NotificationAction("Failed to load stashes for " + repository.name + ": " + e, Some("error"))]
    case Thrown(_) =>
      [SetRepositoryStashes(repository.id, Loading), SetRepositoryStashes(repository.id, Loaded([])),
       NotificationAction("Failed to load stashes for " + repository.name, Some("error"))]
  }

  /** Loading leaves a list, never the loading marker, in this row's cache
      entry and only there; it notifies only on failure. */
  lemma LoadEffect(s: State, repository: Repository, reply: Reply<seq<Stash>>)
    ensures var r := Replay(s, LoadActions(repository, reply));
      && r.repositoryStashes == s.repositoryStashes[repository.id := Loaded(StashesOrEmpty(reply))]
      && (reply.Success? ==> r.notification == s.notification)
      && (reply.Failure? ==>
            r.notification == Some(Notification("Failed to load stashes for " + repository.name + ": " + reply.error, "error")))
      && (reply.Thrown? ==> r.notification == Some(Notification("Failed to load stashes for " + repository.name, "error")))
      && r.repositories == s.repositories && r.repositoryExpanded == s.repositoryExpanded
      && r.selectedRepository == s.selectedRepository && r.selectedStash == s.selectedStash
      && r.selectedFile == s.selectedFile && r.files == s.files
  {
    var actions := LoadActions(repository, reply);
    if reply.Success? {
      ReplayTwo(s, actions[0], actions[1]);
    } else {
      ReplayThree(s, actions[0], actions[1], actions[2]);
    }
  }

  /** `loadRepositoryStashes()`. */
  method LoadRepositoryStashes(store: AppStore, repository: Repository, reply: Reply<seq<Stash>>)
    requires store.Valid()
    modifies store
    ensures store.Valid() && store.dispatched == old(store.dispatched) + LoadActions(repository, reply)
  {
    store.SetStashesOf(repository.id, Loading);
    match reply {
      case Success(stashes) =>
        store.SetStashesOf(repository.id, Loaded(stashes));
      case Failure(e) =>
        store.SetStashesOf(repository.id, Loaded([]));
        store.ShowNotification("Failed to load stashes for " + repository.name + ": " + e, Some("error"));
      case Thrown(_) =>
        store.SetStashesOf(repository.id, Loaded([]));
        store.ShowNotification("Failed to load stashes for " + repository.name, Some("error"));
    }
  }

  /** Whether toggling from `s` loads: it expands a repository with nothing
      cached. */
  predicate ToggleLoads(s: State, repository: Repository) {
    !IsExpanded(s.repositoryExpanded, repository.id) && !IsCached(s.repositoryStashes, repository.id)
  }

  /** What `toggleRepository` dispatches from `s`. */
  function ToggleActions(s: State, repository: Repository, reply: Reply<seq<Stash>>): seq<Action> {
    [SetRepositoryExpanded(repository.id, !IsExpanded(s.repositoryExpanded, repository.id))]
    + if ToggleLoads(s, repository) then LoadActions(repository, reply) else []
  }

  /** Toggling flips this row's flag and no other, and fills the cache entry
      only when it expands a row with nothing cached; so a row that is
      expanded has something cached if it had before the toggle. */
  lemma ToggleEffect(s: State, repository: Repository, reply: Reply<seq<Stash>>)
    ensures var r := Replay(s, ToggleActions(s, repository, reply));
      && r.repositoryExpanded == s.repositoryExpanded[repository.id := !IsExpanded(s.repositoryExpanded, repository.id)]
      && (IsExpanded(r.repositoryExpanded, repository.id) <==> !IsExpanded(s.repositoryExpanded, repository.id))
      && r.repositoryStashes ==
         (if ToggleLoads(s, repository) then s.repositoryStashes[repository.id := Loaded(StashesOrEmpty(reply))]
          else s.repositoryStashes)
      && (IsExpanded(r.repositoryExpanded, repository.id) ==> IsCached(r.repositoryStashes, repository.id))
      && r.selectedRepository == s.selectedRepository && r.selectedStash == s.selectedStash
  {
    var flip := SetRepositoryExpanded(repository.id, !IsExpanded(s.repositoryExpanded, repository.id));
    var rest := if ToggleLoads(s, repository) then LoadActions(repository, reply) else [];
    ReplayConcat(s, [flip], rest);
    ReplayOne(s, flip);
    if ToggleLoads(s, repository) {
      LoadEffect(Reduce(s, flip), repository, reply);
    }
  }

  /** `toggleRepository()`: reads the flag and the cache entry of the state
      its closure was made in, which is the store's state when it runs. */
  method Toggle(store: AppStore, repository: Repository, reply: Reply<seq<Stash>>)
    requires store.Valid()
    modifies store
    ensures store.Valid()
    ensures store.dispatched == old(store.dispatched) + ToggleActions(old(store.state), repository, reply)
  {
    var isExpanded := IsExpanded(store.state.repositoryExpanded, repository.id);
    var cached := IsCached(store.state.repositoryStashes, repository.id);
    store.SetExpandedOf(repository.id, !isExpanded);
    if !isExpanded && !cached {
      LoadRepositoryStashes(store, repository, reply);
    }
  }

  /** What `refreshRepository` dispatches from `s`. */
  function RefreshActions(s: State, repository: Repository, reply: Reply<seq<Stash>>): seq<Action> {
    [NotificationAction("Refreshing " + repository.name + "...", Some("info")), SetRepositoryStashes(repository.id, Unset)]
    + (if IsExpanded(s.repositoryExpanded, repository.id) then LoadActions(repository, reply) else [])
    + [NotificationAction(repository.name + " refreshed!", Some("success"))]
  }

  /** A refresh empties this row's cache entry and refills it only when the
      row is expanded; the closing success notice is what stays shown, even
      when loading failed. */
  lemma RefreshEffect(s: State, repository: Repository, reply: Reply<seq<Stash>>)
    ensures var r := Replay(s, RefreshActions(s, repository, reply));
      && r.repositoryStashes ==
         s.repositoryStashes[repository.id :=
           if IsExpanded(s.repositoryExpanded, repository.id) then Loaded(StashesOrEmpty(reply)) else Unset]
      && r.notification == Some(Notification(repository.name + " refreshed!", "success"))
      && r.repositoryExpanded == s.repositoryExpanded && r.repositories == s.repositories
      && r.selectedRepository == s.selectedRepository && r.selectedStash == s.selectedStash
  {
    var head := [NotificationAction("Refreshing " + repository.name + "...", Some("info")), SetRepositoryStashes(repository.id, Unset)];
    var middle := if IsExpanded(s.repositoryExpanded, repository.id) then LoadActions(repository, reply) else [];
    var tail := [NotificationAction(repository.name + " refreshed!", Some("success"))];
    ReplayConcat(s, head + middle, tail);
    ReplayConcat(s, head, middle);
    ReplayTwo(s, head[0], head[1]);
    var s1 := Replay(s, head);
    if IsExpanded(s.repositoryExpanded, repository.id) {
      LoadEffect(s1, repository, reply);
    }
    ReplayOne(Replay(s1, middle), tail[0]);
  }

  /** `refreshRepository()`. */
  method Refresh(store: AppStore, repository: Repository, reply: Reply<seq<Stash>>)
    requires store.Valid()
    modifies store
    ensures store.Valid()
    ensures store.dispatched == old(store.dispatched) + RefreshActions(old(store.state), repository, reply)
  {
    var isExpanded := IsExpanded(store.state.repositoryExpanded, repository.id);
    store.ShowNotification("Refreshing " + repository.name + "...", Some("info"));
    store.SetStashesOf(repository.id, Unset);
    if isExpanded {
      LoadRepositoryStashes(store, repository, reply);
    }
    store.ShowNotification(repository.name + " refreshed!", Some("success"));
  }

  /** The notice `removeRepository` shows once `removeRepository` answered
      (`None`: the call was rejected). */
  function RemoveNotice(repository: Repository, updated: Option<seq<Repository>>): Action {
    if updated.Some? then NotificationAction(repository.name + " removed from list", Some("success"))
    else NotificationAction("Failed to remove repository", Some("error"))
  }

  /** `removeRepository()` as written: the main process answers with the
      updated list, but the handler only notifies and the main process sends
      no message that would reload the list. */
  method RemoveRepositoryAsWritten(store: AppStore, repository: Repository, confirmed: bool,
                                   updated: Option<seq<Repository>>)
    returns (called: bool)
    requires store.Valid()
    modifies store
    ensures called == confirmed
    ensures store.Valid()
    ensures store.dispatched == old(store.dispatched) + if confirmed then [RemoveNotice(repository, updated)] else []
  {
    called := confirmed;
    if !confirmed {
      return;
    }
    if updated.Some? {
      store.ShowNotification(repository.name + " removed from list", Some("success"));
    } else {
      store.ShowNotification("Failed to remove repository", Some("error"));
    }
  }

  /** After a confirmed, successful removal as written, the sidebar list
      still holds the removed repository. */
  lemma RemovedRepositoryStaysListed(s: State, repository: Repository, updated: seq<Repository>)
    requires repository in s.repositories
    ensures repository in Replay(s, [RemoveNotice(repository, Some(updated))]).repositories
  {
    ReplayOne(s, RemoveNotice(repository, Some(updated)));
  }

  /** What removing dispatches when the handler puts the returned list into
      the state before notifying. */
  function RemoveActions(repository: Repository, updated: Option<seq<Repository>>): seq<Action> {
    (if updated.Some? then [SetRepositories(updated.value)] else []) + [RemoveNotice(repository, updated)]
  }

  /** `removeRepository()` with the list the main process returns taken
      into the state. */
  method RemoveRepository(store: AppStore, repository: Repository, confirmed: bool,
                          updated: Option<seq<Repository>>)
    returns (called: bool)
    requires store.Valid()
    modifies store
    ensures called == confirmed
    ensures store.Valid()
    ensures store.dispatched == old(store.dispatched) + if confirmed then RemoveActions(repository, updated) else []
  {
    called := confirmed;
    if !confirmed {
      return;
    }
    if updated.Some? {
      store.SetRepositoryList(updated.value);
      store.ShowNotification(repository.name + " removed from list", Some("success"));
    } else {
      store.ShowNotification("Failed to remove repository", Some("error"));
    }
  }

  /** When the main process removed the id from the list the sidebar shows,
      no repository with that id is listed any more, and a failed removal
      keeps the list. */
  lemma RemoveEffect(s: State, repository: Repository, updated: Option<seq<Repository>>)
    requires updated.Some? ==> updated.value == WithoutRepository(s.repositories, repository.id)
    ensures var r := Replay(s, RemoveActions(repository, updated));
      && (updated.Some? ==> forall x :: x in r.repositories ==> x.id != repository.id)
      && (updated.None? ==> r.repositories == s.repositories)
      && r.notification == Some(RemoveNotice(repository, updated).shown)
  {
    var notice := RemoveNotice(repository, updated);
    if updated.Some? {
      ReplayTwo(s, SetRepositories(updated.value), notice);
    } else {
      ReplayOne(s, notice);
    }
  }
}
