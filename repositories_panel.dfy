/** The repository panel of the React sidebar
    (src/components/RepositoriesPanel.jsx): its memoised operations, which
    load and refresh without notifying, the per-row data it derives from the
    state, and the two-letter badge of a repository. */
module RepositoriesPanel {
  import opened Text
  import opened Seqs
  import opened Domain
  import opened AppContext
  import RepositoryItem

  /** What `operations.loadStashes` dispatches once `getStashes` answered:
      the loading marker, then the list, empty on failure or exception. */
  function LoadActions(repository: Repository, reply: Reply<seq<Stash>>): seq<Action> {
    [SetRepositoryStashes(repository.id, Loading), SetRepositoryStashes(repository.id, Loaded(StashesOrEmpty(reply)))]
  }

  /** Loading changes this repository's cache entry and nothing else: no
      notice, whatever the outcome. */
  lemma LoadEffect(s: State, repository: Repository, reply: Reply<seq<Stash>>)
    ensures Replay(s, LoadActions(repository, reply)) ==
      s.(repositoryStashes := s.repositoryStashes[repository.id := Loaded(StashesOrEmpty(reply))])
  {
    var actions := LoadActions(repository, reply);
    ReplayTwo(s, actions[0], actions[1]);
  }

  /** `operations.loadStashes(repository)`. */
  method LoadStashes(store: AppStore, repository: Repository, reply: Reply<seq<Stash>>)
    requires store.Valid()
    modifies store
    ensures store.Valid() && store.dispatched == old(store.dispatched) + LoadActions(repository, reply)
  {
    store.SetStashesOf(repository.id, Loading);
    store.SetStashesOf(repository.id, Loaded(StashesOrEmpty(reply)));
  }

  /** What `operations.toggle` dispatches from `s`. */
  function ToggleActions(s: State, repository: Repository, reply: Reply<seq<Stash>>): seq<Action> {
    [SetRepositoryExpanded(repository.id, !IsExpanded(s.repositoryExpanded, repository.id))]
    + if RepositoryItem.ToggleLoads(s, repository) then LoadActions(repository, reply) else []
  }

  /** Toggling flips this repository's flag and fills its cache entry only
      when expanding a repository with nothing cached. */
  lemma ToggleEffect(s: State, repository: Repository, reply: Reply<seq<Stash>>)
    ensures Replay(s, ToggleActions(s, repository, reply)) ==
      s.(repositoryExpanded := s.repositoryExpanded[repository.id := !IsExpanded(s.repositoryExpanded, repository.id)],
         repositoryStashes :=
           if RepositoryItem.ToggleLoads(s, repository)
           then s.repositoryStashes[repository.id := Loaded(StashesOrEmpty(reply))]
           else s.repositoryStashes)
  {
    var flip := SetRepositoryExpanded(repository.id, !IsExpanded(s.repositoryExpanded, repository.id));
    var rest := if RepositoryItem.ToggleLoads(s, repository) then LoadActions(repository, reply) else [];
    ReplayConcat(s, [flip], rest);
    ReplayOne(s, flip);
    if RepositoryItem.ToggleLoads(s, repository) {
      LoadEffect(Reduce(s, flip), repository, reply);
    }
  }

  /** `operations.toggle(repository)`, reading the state the memoised
      operations were made in. */
  method Toggle(store: AppStore, repository: Repository, reply: Reply<seq<Stash>>)
    requires store.Valid()
    modifies store
    ensures store.Valid()
    ensures store.dispatched == old(store.dispatched) + ToggleActions(old(store.state), repository, reply)
  {
    var loads := RepositoryItem.ToggleLoads(store.state, repository);
    store.SetExpandedOf(repository.id, !IsExpanded(store.state.repositoryExpanded, repository.id));
    if loads {
      LoadStashes(store, repository, reply);
    }
  }

  /** What `operations.refresh` dispatches from `s`. */
  function RefreshActions(s: State, repository: Repository, reply: Reply<seq<Stash>>): seq<Action> {
    [SetRepositoryStashes(repository.id, Unset)]
    + if IsExpanded(s.repositoryExpanded, repository.id) then LoadActions(repository, reply) else []
  }

  /** A refresh resets this repository's cache entry and reloads it only
      when expanded; nothing else changes. */
  lemma RefreshEffect(s: State, repository: Repository, reply: Reply<seq<Stash>>)
    ensures Replay(s, RefreshActions(s, repository, reply)) ==
      s.(repositoryStashes := s.repositoryStashes[repository.id :=
           if IsExpanded(s.repositoryExpanded, repository.id) then Loaded(StashesOrEmpty(reply)) else Unset])
  {
    var reset := SetRepositoryStashes(repository.id, Unset);
    var rest := if IsExpanded(s.repositoryExpanded, repository.id) then LoadActions(repository, reply) else [];
    ReplayConcat(s, [reset], rest);
    ReplayOne(s, reset);
    if IsExpanded(s.repositoryExpanded, repository.id) {
      LoadEffect(Reduce(s, reset), repository, reply);
    }
  }

  /** `operations.refresh(repository)`. */
  method Refresh(store: AppStore, repository: Repository, reply: Reply<seq<Stash>>)
    requires store.Valid()
    modifies store
    ensures store.Valid()
    ensures store.dispatched == old(store.dispatched) + RefreshActions(old(store.state), repository, reply)
  {
    var isExpanded := IsExpanded(store.state.repositoryExpanded, repository.id);
    store.SetStashesOf(repository.id, Unset);
    if isExpanded {
      LoadStashes(store, repository, reply);
    }
  }

  /** `operations.remove(repository)`: asks the main process only when
      confirmed and dispatches nothing, so the displayed list is unchanged. */
  method Remove(store: AppStore, repository: Repository, confirmed: bool) returns (called: bool)
    requires store.Valid()
    modifies store
    ensures called == confirmed
    ensures store.Valid() && store.dispatched == old(store.dispatched) && store.state == old(store.state)
  {
    called := confirmed;
  }

  /** One element of `processedRepositories`. */
  datatype ProcessedRepository = ProcessedRepository(
    repository: Repository, isExpanded: bool, stashes: StashSlot, isSelected: bool)

  function Process(s: State, repository: Repository): ProcessedRepository {
    ProcessedRepository(repository, IsExpanded(s.repositoryExpanded, repository.id),
                        RepositoryItem.ShownStashes(s, repository), RepositoryItem.IsSelected(s, repository))
  }

  /** `processedRepositories`: one element per repository, in list order,
      each with its flag, its stashes (an empty list when nothing is
      cached) and whether it is the selected one. */
  function ProcessedRepositories(s: State): (r: seq<ProcessedRepository>)
    ensures |r| == |s.repositories|
    ensures forall i :: 0 <= i < |r| ==>
      && r[i].repository == s.repositories[i]
      && (r[i].isExpanded <==> IsExpanded(s.repositoryExpanded, s.repositories[i].id))
      && r[i].stashes != Unset
      && (IsCached(s.repositoryStashes, s.repositories[i].id) ==> r[i].stashes == s.repositoryStashes[s.repositories[i].id])
      && (!IsCached(s.repositoryStashes, s.repositories[i].id) ==> r[i].stashes == Loaded([]))
      && (r[i].isSelected <==> s.selectedRepository.Some? && s.selectedRepository.value.id == s.repositories[i].id)
  {
    Map(s.repositories, (repository: Repository) => Process(s, repository))
  }

  /** At most one row is selected when ids are distinct. */
  lemma AtMostOneSelected(s: State, i: nat, j: nat)
    requires i < j < |s.repositories|
    requires s.repositories[i].id != s.repositories[j].id
    ensures !(ProcessedRepositories(s)[i].isSelected && ProcessedRepositories(s)[j].isSelected)
  {
  }

  /** `piece?.toUpperCase().slice(0, 1)`: the upper-cased first character,
      or nothing for an empty or missing piece. */
  function FirstUpper(piece: string): string {
    if |piece| == 0 then "" else [ToUpper(piece[0])]
  }

  /** The badge: the first character of each of the first two `-`-separated
      pieces of the name, upper-cased. */
  function Initials(name: string): (r: string)
    ensures |r| <= 2
  {
    var pieces := Split(name, '-');
    FirstUpper(pieces[0]) + if |pieces| >= 2 then FirstUpper(pieces[1]) else ""
  }

  /** A name without `-` has one letter, the first, in its badge. */
  lemma InitialsOfOneWord(name: string)
    requires '-' !in name && |name| > 0
    ensures Initials(name) == [ToUpper(name[0])]
  {
    SplitNoSeparator(name, '-');
  }

  /** A name `a-b` with non-empty words shows the first letter of each. */
  lemma InitialsOfTwoWords(a: string, b: string)
    requires '-' !in a && '-' !in b && |a| > 0 && |b| > 0
    ensures Initials(a + "-" + b) == [ToUpper(a[0]), ToUpper(b[0])]
  {
    SplitConcat(a, b, '-');
    SplitNoSeparator(a, '-');
    SplitNoSeparator(b, '-');
  }

  /** A name of three or more pieces shows the first letters of its first
      two pieces and ignores the rest. */
  lemma InitialsOfManyWords(a: string, b: string, rest: string)
    requires '-' !in a && '-' !in b
    ensures Initials(a + "-" + b + "-" + rest) == FirstUpper(a) + FirstUpper(b)
  {
    var tail := b + "-" + rest;
    assert a + "-" + b + "-" + rest == a + ['-'] + tail;
    SplitConcat(a, tail, '-');
    SplitConcat(b, rest, '-');
    SplitNoSeparator(a, '-');
    SplitNoSeparator(b, '-');
  }
}
