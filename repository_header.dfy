/** The header above the selected repository
    (src/components/RepositoryHeader.jsx): it shows only while a repository
    is selected, and its "Refresh All" button resets and reloads the cache
    entry of every expanded repository. `fetch` gives what `getStashes`
    answers for a path. */
module RepositoryHeader {
  import opened Domain
  import opened RepositoryList
  import opened AppContext

  /** The header renders only while a repository is selected. */
  predicate Visible(s: State)
    ensures StashSelected(s) ==> Visible(s)
  {
    s.selectedRepository.Some?
  }

  /** `entries` is `Object.entries(expanded)`: every key once, with its
      flag. */
  predicate EntriesOf(entries: seq<(RepoId, bool)>, expanded: map<RepoId, bool>) {
    && (forall i :: 0 <= i < |entries| ==> entries[i].0 in expanded && expanded[entries[i].0] == entries[i].1)
    && (forall k :: k in expanded ==> exists i :: 0 <= i < |entries| && entries[i].0 == k)
    && (forall i, j :: 0 <= i < j < |entries| ==> entries[i].0 != entries[j].0)
  }

  /** Which path a reload asks `getStashes` about: always the selected
      repository's path, or the path stored for the id being reloaded. */
  datatype PathRule = SelectedPath(path: string) | OwnPath(repositories: seq<Repository>)

  /** The path reloaded for `id`, if there is one to ask about. */
  function PathFor(rule: PathRule, id: RepoId): (p: Option<string>)
    ensures rule.SelectedPath? ==> p == Some(rule.path)
    ensures rule.OwnPath? ==> (p.Some? <==> exists x :: x in rule.repositories && x.id == id)
    ensures rule.OwnPath? && p.Some? ==>
      exists x :: x in rule.repositories && x.id == id && x.path == p.value
  {
    match rule
    case SelectedPath(path) => Some(path)
    case OwnPath(repositories) =>
      var found := FindById(repositories, id);
      if found.Some? then Some(found.value.path) else None
  }

  /** What a reloaded cache entry ends up holding: the stashes when the call
      succeeded, otherwise the reset value. */
  function Refilled(path: Option<string>, fetch: string -> Reply<seq<Stash>>): StashSlot {
    if path.Some? && fetch(path.value).Success? then Loaded(fetch(path.value).value) else Unset
  }

  /** What one entry of the loop dispatches. */
  function EntryActions(entry: (RepoId, bool), rule: PathRule, fetch: string -> Reply<seq<Stash>>): seq<Action> {
    if !entry.1 then []
    else
      var path := PathFor(rule, entry.0);
      [SetRepositoryStashes(entry.0, Unset)]
      + if path.Some? && fetch(path.value).Success? then [SetRepositoryStashes(entry.0, Loaded(fetch(path.value).value))] else []
  }

  /** What the loop dispatches for `entries`, in order. */
  function ReloadActions(entries: seq<(RepoId, bool)>, rule: PathRule, fetch: string -> Reply<seq<Stash>>): seq<Action>
    decreases |entries|
  {
    if |entries| == 0 then []
    else ReloadActions(entries[..|entries| - 1], rule, fetch) + EntryActions(entries[|entries| - 1], rule, fetch)
  }

  /** One entry changes only its own cache entry, and only when expanded. */
  lemma EntryEffect(s: State, entry: (RepoId, bool), rule: PathRule, fetch: string -> Reply<seq<Stash>>)
    ensures Replay(s, EntryActions(entry, rule, fetch)) ==
      if entry.1 then s.(repositoryStashes := s.repositoryStashes[entry.0 := Refilled(PathFor(rule, entry.0), fetch)])
      else s
  {
    if entry.1 {
      var id := entry.0;
      var path := PathFor(rule, id);
      var reset := SetRepositoryStashes(id, Unset);
      if path.Some? && fetch(path.value).Success? {
        var filled := Loaded(fetch(path.value).value);
        ReplayTwo(s, reset, SetRepositoryStashes(id, filled));
        CacheWrite(s, id, Unset);
        CacheWrite(Reduce(s, reset), id, filled);
        assert s.repositoryStashes[id := Unset][id := filled] == s.repositoryStashes[id := filled];
      } else {
        ReplayOne(s, reset);
        CacheWrite(s, id, Unset);
      }
    }
  }

  /** After the loop, the entry of every expanded id holds what its reload
      gave, every other entry is as before, and nothing but the cache
      changed. */
  lemma {:induction false} ReloadEffect(s: State, entries: seq<(RepoId, bool)>, rule: PathRule,
                                        fetch: string -> Reply<seq<Stash>>, id: RepoId)
    ensures var r := Replay(s, ReloadActions(entries, rule, fetch));
      && r == s.(repositoryStashes := r.repositoryStashes)
      && SlotOf(r.repositoryStashes, id) ==
         if (id, true) in entries then Refilled(PathFor(rule, id), fetch) else SlotOf(s.repositoryStashes, id)
    decreases |entries|
  {
    if |entries| > 0 {
      var init := entries[..|entries| - 1];
      var last := entries[|entries| - 1];
      var done := ReloadActions(init, rule, fetch);
      ReloadEffect(s, init, rule, fetch, id);
      var mid := Replay(s, done);
      ReplayConcat(s, done, EntryActions(last, rule, fetch));
      EntryEffect(mid, last, rule, fetch);
      assert Replay(s, ReloadActions(entries, rule, fetch)) == Replay(mid, EntryActions(last, rule, fetch));
      assert entries == init + [last];
      assert (id, true) in entries <==> (id, true) in init || (id, true) == last;
      if last.1 {
        SlotAfterWrite(mid.repositoryStashes, last.0, Refilled(PathFor(rule, last.0), fetch), id);
      }
    }
  }

  /** Reading a cache entry after writing one. */
  lemma SlotAfterWrite(cache: map<RepoId, StashSlot>, written: RepoId, slot: StashSlot, id: RepoId)
    ensures SlotOf(cache[written := slot], id) == if id == written then slot else SlotOf(cache, id)
  {
  }

  function RefreshAllActions(entries: seq<(RepoId, bool)>, rule: PathRule, fetch: string -> Reply<seq<Stash>>): seq<Action> {
    [NotificationAction("Refreshing all repositories...", Some("info"))]
    + ReloadActions(entries, rule, fetch)
    + [NotificationAction("All repositories refreshed!", Some("success"))]
  }

  /** The net effect of "Refresh All": per-id cache contents as above, the
      closing notice shown, everything else unchanged. */
  lemma RefreshAllEffect(s: State, entries: seq<(RepoId, bool)>, rule: PathRule,
                         fetch: string -> Reply<seq<Stash>>, id: RepoId)
    ensures var r := Replay(s, RefreshAllActions(entries, rule, fetch));
      && r == s.(repositoryStashes := r.repositoryStashes,
                 notification := Some(Notification("All repositories refreshed!", "success")))
      && SlotOf(r.repositoryStashes, id) ==
         if (id, true) in entries then Refilled(PathFor(rule, id), fetch) else SlotOf(s.repositoryStashes, id)
  {
    var head := [NotificationAction("Refreshing all repositories...", Some("info"))];
    var tail := [NotificationAction("All repositories refreshed!", Some("success"))];
    var middle := ReloadActions(entries, rule, fetch);
    ReplayConcat(s, head + middle, tail);
    ReplayConcat(s, head, middle);
    ReplayOne(s, head[0]);
    var s1 := Reduce(s, head[0]);
    ReloadEffect(s1, entries, rule, fetch, id);
    ReplayOne(Replay(s1, middle), tail[0]);
  }

  /** One round of the loop: reset an expanded entry, then reload it. */
  method ReloadEntry(store: AppStore, entry: (RepoId, bool), rule: PathRule, fetch: string -> Reply<seq<Stash>>)
    requires store.Valid()
    modifies store
    ensures store.Valid()
    ensures store.dispatched == old(store.dispatched) + EntryActions(entry, rule, fetch)
  {
    var (id, isExpanded) := entry;
    if isExpanded {
      store.SetStashesOf(id, Unset);
      var path := PathFor(rule, id);
      if path.Some? {
        var result := fetch(path.value);
        if result.Success? {
          store.SetStashesOf(id, Loaded(result.value));
        }
      }
    }
  }

  /** The loop shared by both forms of the handler. */
  method Reload(store: AppStore, entries: seq<(RepoId, bool)>, rule: PathRule, fetch: string -> Reply<seq<Stash>>)
    requires store.Valid()
    modifies store
    ensures store.Valid()
    ensures store.dispatched == old(store.dispatched) + ReloadActions(entries, rule, fetch)
  {
    ghost var start := store.dispatched;
    for i := 0 to |entries|
      invariant store.Valid()
      invariant DispatchedSoFar(store.dispatched, start, entries, i, rule, fetch)
    {
      ghost var before := store.dispatched;
      ReloadEntry(store, entries[i], rule, fetch);
      ReloadStep(start, before, store.dispatched, entries, i, rule, fetch);
    }
    ReloadDone(store.dispatched, start, entries, rule, fetch);
  }

  /** The loop invariant: what was dispatched since `start` is the actions of
      the first `i` entries. */
  ghost predicate DispatchedSoFar(dispatched: seq<Action>, start: seq<Action>, entries: seq<(RepoId, bool)>, i: nat,
                                  rule: PathRule, fetch: string -> Reply<seq<Stash>>)
  {
    i <= |entries| && dispatched == start + ReloadActions(entries[..i], rule, fetch)
  }

  lemma ReloadStep(start: seq<Action>, before: seq<Action>, after: seq<Action>, entries: seq<(RepoId, bool)>, i: nat,
                   rule: PathRule, fetch: string -> Reply<seq<Stash>>)
    requires i < |entries|
    requires DispatchedSoFar(before, start, entries, i, rule, fetch)
    requires after == before + EntryActions(entries[i], rule, fetch)
    ensures DispatchedSoFar(after, start, entries, i + 1, rule, fetch)
  {
    assert entries[..i + 1][..i] == entries[..i];
  }

  lemma ReloadDone(dispatched: seq<Action>, start: seq<Action>, entries: seq<(RepoId, bool)>,
                   rule: PathRule, fetch: string -> Reply<seq<Stash>>)
    requires DispatchedSoFar(dispatched, start, entries, |entries|, rule, fetch)
    ensures dispatched == start + ReloadActions(entries, rule, fetch)
  {
    assert entries[..|entries|] == entries;
  }

  /** `refreshAllRepositories()` as written: every expanded repository is
      reloaded from the selected repository's path. */
  method RefreshAllRepositoriesAsWritten(store: AppStore, entries: seq<(RepoId, bool)>, fetch: string -> Reply<seq<Stash>>)
    requires store.Valid() && Visible(store.state)
    requires EntriesOf(entries, store.state.repositoryExpanded)
    modifies store
    ensures store.Valid()
    ensures store.dispatched == old(store.dispatched) +
      RefreshAllActions(entries, SelectedPath(old(store.state).selectedRepository.value.path), fetch)
  {
    var rule := SelectedPath(store.state.selectedRepository.value.path);
    store.ShowNotification("Refreshing all repositories...", Some("info"));
    Reload(store, entries, rule, fetch);
    store.ShowNotification("All repositories refreshed!", Some("success"));
  }

  /** With two expanded repositories at different paths, the one that is
      not selected is given the selected repository's stashes. */
  lemma OtherRepositoryGetsSelectedStashes(fetch: string -> Reply<seq<Stash>>, mine: seq<Stash>)
    requires fetch("/work/app") == Success(mine) && fetch("/work/lib") == Success([])
    requires mine != []
    ensures var a := Repository("1", "app", "/work/app", "");
      var b := Repository("2", "lib", "/work/lib", "");
      var s := Initial().(repositories := [a, b], selectedRepository := Some(a),
                          repositoryExpanded := map["1" := true, "2" := true]);
      var entries := [("1", true), ("2", true)];
      var r := Replay(s, RefreshAllActions(entries, SelectedPath(a.path), fetch));
      && EntriesOf(entries, s.repositoryExpanded)
      && SlotOf(r.repositoryStashes, "2") == Loaded(mine)
      && SlotOf(r.repositoryStashes, "2") != Refilled(Some(b.path), fetch)
  {
    var a := Repository("1", "app", "/work/app", "");
    var b := Repository("2", "lib", "/work/lib", "");
    var s := Initial().(repositories := [a, b], selectedRepository := Some(a),
                        repositoryExpanded := map["1" := true, "2" := true]);
    var entries := [("1", true), ("2", true)];
    assert ("2", true) in entries by { assert entries[1] == ("2", true); }
    RefreshAllEffect(s, entries, SelectedPath(a.path), fetch, "2");
    TwoExpandedEntries();
  }

  /** The entries of the two-repository example are those of its
      dictionary. */
  lemma TwoExpandedEntries()
    ensures EntriesOf([("1", true), ("2", true)], map["1" := true, "2" := true])
  {
    var entries := [("1", true), ("2", true)];
    var expanded := map["1" := true, "2" := true];
    forall k | k in expanded ensures exists i :: 0 <= i < |entries| && entries[i].0 == k {
      if k == "1" { assert entries[0].0 == k; } else { assert entries[1].0 == k; }
    }
  }

  /** `refreshAllRepositories()` reloading each expanded repository from its
      own stored path; an id with no stored repository is reset and not
      reloaded. */
  method RefreshAllRepositories(store: AppStore, entries: seq<(RepoId, bool)>, fetch: string -> Reply<seq<Stash>>)
    requires store.Valid() && Visible(store.state)
    requires EntriesOf(entries, store.state.repositoryExpanded)
    modifies store
    ensures store.Valid()
    ensures store.dispatched == old(store.dispatched) +
      RefreshAllActions(entries, OwnPath(old(store.state).repositories), fetch)
  {
    var rule := OwnPath(store.state.repositories);
    store.ShowNotification("Refreshing all repositories...", Some("info"));
    Reload(store, entries, rule, fetch);
    store.ShowNotification("All repositories refreshed!", Some("success"));
  }

  /** Reloading by own path puts into each expanded repository's entry what
      `getStashes` answers for that repository's path. */
  lemma OwnPathRefillsOwnStashes(s: State, entries: seq<(RepoId, bool)>, fetch: string -> Reply<seq<Stash>>,
                                 repository: Repository)
    requires EntriesOf(entries, s.repositoryExpanded)
    requires repository in s.repositories && IsExpanded(s.repositoryExpanded, repository.id)
    requires forall x :: x in s.repositories && x.id == repository.id ==> x == repository
    ensures var r := Replay(s, RefreshAllActions(entries, OwnPath(s.repositories), fetch));
      SlotOf(r.repositoryStashes, repository.id) == Refilled(Some(repository.path), fetch)
  {
    RefreshAllEffect(s, entries, OwnPath(s.repositories), fetch, repository.id);
    var i :| 0 <= i < |entries| && entries[i].0 == repository.id;
    assert entries[i] == (repository.id, true);
  }
}
