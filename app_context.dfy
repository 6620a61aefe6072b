/** The React application's shared state (src/context/AppContext.jsx): the
    record the reducer maintains, its actions, the reducer itself, and the
    provider's helpers, each of which dispatches one action. */
module AppContext {
  import opened Domain

  datatype State = State(
    repositories: seq<Repository>,
    repositoryStashes: map<RepoId, StashSlot>,
    repositoryExpanded: map<RepoId, bool>,
    selectedRepository: Option<Repository>,
    selectedStash: Option<nat>,
    selectedFile: Option<ChangedFile>,
    files: seq<ChangedFile>,
    notification: Option<Notification>)

  /** The nine action types, and any other `type` string. */
  datatype Action =
    | SetRepositories(newRepositories: seq<Repository>)
    | SetRepositoryStashes(repoId: RepoId, stashes: StashSlot)
    | SetRepositoryExpanded(repoId: RepoId, expanded: bool)
    | SetSelectedRepository(repository: Option<Repository>)
    | SetSelectedStash(stashIndex: Option<nat>)
    | SetSelectedFile(file: Option<ChangedFile>)
    | SetFiles(newFiles: seq<ChangedFile>)
    | ShowNotification(shown: Notification)
    | ClearNotification
    | Unknown(actionType: string)

  /** `initialState`. */
  function Initial(): State {
    State([], map[], map[], None, None, None, [], None)
  }

  /** At start nothing is listed, cached, expanded, selected or shown. */
  lemma InitialStateIsEmpty()
    ensures forall id :: !IsCached(Initial().repositoryStashes, id) && !IsExpanded(Initial().repositoryExpanded, id)
    ensures Initial().selectedRepository.None? && Initial().selectedStash.None? && Initial().selectedFile.None?
    ensures Initial().repositories == [] && Initial().files == [] && Initial().notification.None?
  {
  }

  /** `selectedRepository && selectedStash !== null`: the condition under
      which the components load and show a stash. */
  predicate StashSelected(s: State) {
    s.selectedRepository.Some? && s.selectedStash.Some?
  }

  /** The fields of the state record, to say which one an action replaces. */
  datatype Field =
    | Repositories | RepositoryStashes | RepositoryExpanded | SelectedRepository
    | SelectedStash | SelectedFile | Files | NotificationField

  /** The field an action replaces; an unknown action replaces none. */
  function Touches(a: Action): Option<Field> {
    match a
    case SetRepositories(_) => Some(Repositories)
    case SetRepositoryStashes(_, _) => Some(RepositoryStashes)
    case SetRepositoryExpanded(_, _) => Some(RepositoryExpanded)
    case SetSelectedRepository(_) => Some(SelectedRepository)
    case SetSelectedStash(_) => Some(SelectedStash)
    case SetSelectedFile(_) => Some(SelectedFile)
    case SetFiles(_) => Some(Files)
    case ShowNotification(_) => Some(NotificationField)
    case ClearNotification => Some(NotificationField)
    case Unknown(_) => None
  }

  /** Two states hold the same value in field `f`. */
  predicate Agrees(s: State, t: State, f: Field) {
    match f
    case Repositories => s.repositories == t.repositories
    case RepositoryStashes => s.repositoryStashes == t.repositoryStashes
    case RepositoryExpanded => s.repositoryExpanded == t.repositoryExpanded
    case SelectedRepository => s.selectedRepository == t.selectedRepository
    case SelectedStash => s.selectedStash == t.selectedStash
    case SelectedFile => s.selectedFile == t.selectedFile
    case Files => s.files == t.files
    case NotificationField => s.notification == t.notification
  }

  /** `{...m, [k]: v}`: key `k` now maps to `v`, every other key keeps its
      value, and no other key appears or disappears. */
  predicate UpdatedAt<V(==)>(m: map<RepoId, V>, m': map<RepoId, V>, k: RepoId, v: V) {
    && k in m' && m'[k] == v
    && m'.Keys == m.Keys + {k}
    && forall j :: j in m && j != k ==> m'[j] == m[j]
  }

  /** `appReducer`: each action replaces exactly one field, or one key of
      one of the two maps; every other field keeps its value. */
  function Reduce(s: State, a: Action): (r: State)
    ensures forall f :: Touches(a) != Some(f) ==> Agrees(s, r, f)
    ensures a.Unknown? ==> r == s
    ensures a.SetRepositories? ==> r.repositories == a.newRepositories
    ensures a.SetRepositoryStashes? ==> UpdatedAt(s.repositoryStashes, r.repositoryStashes, a.repoId, a.stashes)
    ensures a.SetRepositoryExpanded? ==> UpdatedAt(s.repositoryExpanded, r.repositoryExpanded, a.repoId, a.expanded)
    ensures a.SetSelectedRepository? ==> r.selectedRepository == a.repository
    ensures a.SetSelectedStash? ==> r.selectedStash == a.stashIndex
    ensures a.SetSelectedFile? ==> r.selectedFile == a.file
    ensures a.SetFiles? ==> r.files == a.newFiles
    ensures a.ShowNotification? ==> r.notification == Some(a.shown)
    ensures a.ClearNotification? ==> r.notification == None
  {
    match a
    case SetRepositories(repos) => s.(repositories := repos)
    case SetRepositoryStashes(id, slot) => s.(repositoryStashes := s.repositoryStashes[id := slot])
    case SetRepositoryExpanded(id, e) => s.(repositoryExpanded := s.repositoryExpanded[id := e])
    case SetSelectedRepository(repo) => s.(selectedRepository := repo)
    case SetSelectedStash(i) => s.(selectedStash := i)
    case SetSelectedFile(f) => s.(selectedFile := f)
    case SetFiles(fs) => s.(files := fs)
    case ShowNotification(n) => s.(notification := Some(n))
    case ClearNotification => s.(notification := None)
    case Unknown(_) => s
  }

  /** Selecting a stash leaves the selected file as it was: clearing it is the
      caller's separate dispatch. */
  lemma SelectingStashKeepsFile(s: State, index: Option<nat>)
    ensures Reduce(s, SetSelectedStash(index)).selectedFile == s.selectedFile
    ensures Reduce(s, SetSelectedStash(index)).selectedRepository == s.selectedRepository
  {
    assert Agrees(s, Reduce(s, SetSelectedStash(index)), SelectedFile);
    assert Agrees(s, Reduce(s, SetSelectedStash(index)), SelectedRepository);
  }

  /** Writing one cache entry never disturbs the entry of another repository,
      nor any expanded flag. */
  lemma CacheWritesAreIndependent(s: State, id: RepoId, slot: StashSlot, other: RepoId)
    requires other != id
    ensures SlotOf(Reduce(s, SetRepositoryStashes(id, slot)).repositoryStashes, other) == SlotOf(s.repositoryStashes, other)
    ensures SlotOf(Reduce(s, SetRepositoryStashes(id, slot)).repositoryStashes, id) == slot
    ensures Reduce(s, SetRepositoryStashes(id, slot)).repositoryExpanded == s.repositoryExpanded
  {
    assert Agrees(s, Reduce(s, SetRepositoryStashes(id, slot)), RepositoryExpanded);
  }

  /** A cache write replaces that one entry and nothing else. */
  lemma CacheWrite(s: State, id: RepoId, slot: StashSlot)
    ensures Reduce(s, SetRepositoryStashes(id, slot)) == s.(repositoryStashes := s.repositoryStashes[id := slot])
  {
  }

  /** The action `showNotification(message, type)` dispatches; the type
      defaults to `'info'`. */
  function NotificationAction(message: string, kind: Option<string>): (a: Action)
    ensures a.ShowNotification? && a.shown.message == message
    ensures kind.None? ==> a.shown.kind == "info"
    ensures kind.Some? ==> a.shown.kind == kind.value
  {
    ShowNotification(Notification(message, if kind.Some? then kind.value else "info"))
  }

  /** The state after dispatching `actions` in order. */
  function Replay(s: State, actions: seq<Action>): State
    decreases actions
  {
    if |actions| == 0 then s else Replay(Reduce(s, actions[0]), actions[1..])
  }

  /** Dispatching two runs of actions one after the other is dispatching
      their concatenation. */
  lemma {:induction false} ReplayConcat(s: State, a: seq<Action>, b: seq<Action>)
    ensures Replay(s, a + b) == Replay(Replay(s, a), b)
    decreases a
  {
    if |a| > 0 {
      assert (a + b)[0] == a[0];
      assert (a + b)[1..] == a[1..] + b;
      ReplayConcat(Reduce(s, a[0]), a[1..], b);
    } else {
      assert a + b == b;
    }
  }

  lemma ReplayOne(s: State, a: Action)
    ensures Replay(s, [a]) == Reduce(s, a)
  {
    assert [a][1..] == [];
  }

  lemma ReplayTwo(s: State, a: Action, b: Action)
    ensures Replay(s, [a, b]) == Reduce(Reduce(s, a), b)
  {
    assert [a, b][1..] == [b];
    ReplayOne(Reduce(s, a), b);
  }

  lemma ReplayThree(s: State, a: Action, b: Action, c: Action)
    ensures Replay(s, [a, b, c]) == Reduce(Reduce(Reduce(s, a), b), c)
  {
    assert [a, b, c][1..] == [b, c];
    ReplayTwo(Reduce(s, a), b, c);
  }

  /** A run of actions none of which touches field `f` leaves it as it was. */
  lemma {:induction false} ReplayAgrees(s: State, actions: seq<Action>, f: Field)
    requires forall i :: 0 <= i < |actions| ==> Touches(actions[i]) != Some(f)
    ensures Agrees(s, Replay(s, actions), f)
    decreases actions
  {
    if |actions| > 0 {
      ReplayAgrees(Reduce(s, actions[0]), actions[1..], f);
    }
  }

  /** The provider: the reducer's current state, every action dispatched to
      it so far (oldest first), and the helpers that dispatch. */
  class AppStore {
    var state: State
    var dispatched: seq<Action>

    /** The state is what the reducer makes of the initial state and every
        action dispatched since. */
    ghost predicate Valid()
      reads this
    {
      state == Replay(Initial(), dispatched)
    }

    constructor()
      ensures Valid() && state == Initial() && dispatched == []
    {
      state := Initial();
      dispatched := [];
    }

    method Dispatch(a: Action)
      requires Valid()
      modifies this
      ensures Valid()
      ensures state == Reduce(old(state), a)
      ensures dispatched == old(dispatched) + [a]
    {
      ReplayConcat(Initial(), dispatched, [a]);
      state := Reduce(state, a);
      dispatched := dispatched + [a];
    }

    method ShowNotification(message: string, kind: Option<string>)
      requires Valid()
      modifies this
      ensures Valid() && dispatched == old(dispatched) + [NotificationAction(message, kind)]
    {
      Dispatch(NotificationAction(message, kind));
    }

    method ClearNotice()
      requires Valid()
      modifies this
      ensures Valid() && dispatched == old(dispatched) + [ClearNotification]
    {
      Dispatch(ClearNotification);
    }

    method SetRepositoryList(repositories: seq<Repository>)
      requires Valid()
      modifies this
      ensures Valid() && dispatched == old(dispatched) + [SetRepositories(repositories)]
    {
      Dispatch(SetRepositories(repositories));
    }

    method SetStashesOf(repoId: RepoId, stashes: StashSlot)
      requires Valid()
      modifies this
      ensures Valid() && dispatched == old(dispatched) + [SetRepositoryStashes(repoId, stashes)]
    {
      Dispatch(SetRepositoryStashes(repoId, stashes));
    }

    method SetExpandedOf(repoId: RepoId, expanded: bool)
      requires Valid()
      modifies this
      ensures Valid() && dispatched == old(dispatched) + [SetRepositoryExpanded(repoId, expanded)]
    {
      Dispatch(SetRepositoryExpanded(repoId, expanded));
    }

    method SelectRepository(repository: Option<Repository>)
      requires Valid()
      modifies this
      ensures Valid() && dispatched == old(dispatched) + [SetSelectedRepository(repository)]
    {
      Dispatch(SetSelectedRepository(repository));
    }

    method SelectStash(stashIndex: Option<nat>)
      requires Valid()
      modifies this
      ensures Valid() && dispatched == old(dispatched) + [SetSelectedStash(stashIndex)]
    {
      Dispatch(SetSelectedStash(stashIndex));
    }

    method SelectFile(file: Option<ChangedFile>)
      requires Valid()
      modifies this
      ensures Valid() && dispatched == old(dispatched) + [SetSelectedFile(file)]
    {
      Dispatch(SetSelectedFile(file));
    }

    method SetFileList(files: seq<ChangedFile>)
      requires Valid()
      modifies this
      ensures Valid() && dispatched == old(dispatched) + [SetFiles(files)]
    {
      Dispatch(SetFiles(files));
    }
  }

  /** What a handler that found the store in state `s` with log `log` and
      left it valid with `actions` appended has done to the state. */
  lemma HandlerEffect(s: State, log: seq<Action>, actions: seq<Action>, t: State)
    requires s == Replay(Initial(), log)
    requires t == Replay(Initial(), log + actions)
    ensures t == Replay(s, actions)
  {
    ReplayConcat(Initial(), log, actions);
  }
}
