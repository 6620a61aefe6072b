/** The persisted list of repositories and the main process's two rules
    for changing it (main.js): adding a folder the user picked, at most once
    per path, and removing by id. */
module RepositoryList {
  import opened Text
  import opened Seqs
  import opened Domain

  /** `repos.find(repo => repo.path === path)` finds something. */
  predicate HasPath(repos: seq<Repository>, path: string) {
    exists i :: 0 <= i < |repos| && repos[i].path == path
  }

  /** No two stored repositories share a path. */
  predicate UniquePaths(repos: seq<Repository>) {
    forall i, j :: 0 <= i < j < |repos| ==> repos[i].path != repos[j].path
  }

  /** `repo` is the first entry of `repos` whose id is `id`. */
  predicate FirstWithId(repos: seq<Repository>, id: RepoId, repo: Repository) {
    exists i :: 0 <= i < |repos| && repos[i] == repo && forall j :: 0 <= j < i ==> repos[j].id != id
  }

  /** `repos.find(r => r.id === id)`: the first repository with that id. */
  function FindById(repos: seq<Repository>, id: RepoId): (r: Option<Repository>)
    ensures r.None? <==> forall x :: x in repos ==> x.id != id
    ensures r.Some? ==> r.value.id == id && FirstWithId(repos, id, r.value)
  {
    if |repos| == 0 then None
    else if repos[0].id == id then Some(repos[0])
    else FindById(repos[1..], id)
  }

  /** The add rule: append the repository unless its path is already stored.
      The list is kept exactly when the path is already there; otherwise the
      repository becomes the one new, last entry. */
  function WithRepository(repos: seq<Repository>, repo: Repository): (r: seq<Repository>)
    ensures r == repos <==> HasPath(repos, repo.path)
    ensures !HasPath(repos, repo.path) ==> |r| == |repos| + 1 && r[..|repos|] == repos && r[|repos|] == repo
  {
    if HasPath(repos, repo.path) then repos else repos + [repo]
  }

  /** The remove rule: keep, in order, every repository with another id. */
  function WithoutRepository(repos: seq<Repository>, id: RepoId): (r: seq<Repository>)
    ensures forall x :: x in r ==> x in repos && x.id != id
    ensures forall x :: x in repos && x.id != id ==> x in r
  {
    Filter(repos, (x: Repository) => x.id != id)
  }

  /** Removing from a concatenation removes from each part: the survivors
      keep their order. */
  lemma WithoutRepositoryConcat(a: seq<Repository>, b: seq<Repository>, id: RepoId)
    ensures WithoutRepository(a + b, id) == WithoutRepository(a, id) + WithoutRepository(b, id)
  {
    FilterConcat(a, b, (x: Repository) => x.id != id);
  }

  /** One entry survives exactly when its id differs, once. */
  lemma WithoutRepositoryOne(x: Repository, id: RepoId)
    ensures WithoutRepository([x], id) == if x.id != id then [x] else []
  {
    assert [x][1..] == [];
  }

  /** After adding, the path is stored, and adding never creates a second
      entry for a path. */
  lemma AddKeepsPathsUnique(repos: seq<Repository>, repo: Repository)
    requires UniquePaths(repos)
    ensures UniquePaths(WithRepository(repos, repo))
    ensures HasPath(WithRepository(repos, repo), repo.path)
  {
    if !HasPath(repos, repo.path) {
      assert WithRepository(repos, repo)[|repos|] == repo;
    }
  }

  /** Adding the same folder twice stores it once. */
  lemma AddIdempotent(repos: seq<Repository>, repo: Repository)
    ensures WithRepository(WithRepository(repos, repo), repo) == WithRepository(repos, repo)
  {
    if !HasPath(repos, repo.path) {
      assert WithRepository(repos, repo)[|repos|] == repo;
    }
  }

  /** Removing keeps the survivors in their original order, so it keeps
      paths unique. */
  lemma {:induction false} RemoveKeepsPathsUnique(repos: seq<Repository>, id: RepoId)
    requires UniquePaths(repos)
    ensures UniquePaths(WithoutRepository(repos, id))
  {
    if |repos| > 0 {
      var rest := repos[1..];
      assert UniquePaths(rest) by {
        forall i, j | 0 <= i < j < |rest| ensures rest[i].path != rest[j].path {
          assert rest[i] == repos[i + 1] && rest[j] == repos[j + 1];
        }
      }
      RemoveKeepsPathsUnique(rest, id);
      var tail := WithoutRepository(rest, id);
      if repos[0].id != id {
        assert WithoutRepository(repos, id) == [repos[0]] + tail;
        forall x | x in tail ensures x.path != repos[0].path {
          var k :| 0 <= k < |rest| && rest[k] == x;
          assert repos[k + 1] == x;
        }
      } else {
        assert WithoutRepository(repos, id) == tail;
      }
    }
  }

  /** Removing an id that no stored repository has changes nothing. */
  lemma {:induction false} RemoveAbsentId(repos: seq<Repository>, id: RepoId)
    requires forall x :: x in repos ==> x.id != id
    ensures WithoutRepository(repos, id) == repos
  {
    if |repos| > 0 {
      assert forall x :: x in repos[1..] ==> x in repos;
      RemoveAbsentId(repos[1..], id);
      assert repos == [repos[0]] + repos[1..];
    }
  }

  /** Removing a freshly added repository by its (fresh) id gives the list
      back as it was. */
  lemma RemoveUndoesAdd(repos: seq<Repository>, repo: Repository)
    requires !HasPath(repos, repo.path)
    requires forall x :: x in repos ==> x.id != repo.id
    ensures WithoutRepository(WithRepository(repos, repo), repo.id) == repos
  {
    FilterConcat(repos, [repo], (x: Repository) => x.id != repo.id);
    RemoveAbsentId(repos, repo.id);
  }

  /** Trailing separators are ignored by `path.basename`. */
  function StripTrailingSlashes(p: string): string {
    if |p| > 0 && p[|p| - 1] == '/' then StripTrailingSlashes(p[..|p| - 1]) else p
  }

  /** `path.basename(p)` for POSIX paths: the last component, after any
      trailing separators are dropped. */
  function BaseName(p: string): (name: string)
    ensures '/' !in name
    ensures var q := StripTrailingSlashes(p);
      q == name || (|q| > |name| && q == q[..|q| - |name| - 1] + "/" + name)
  {
    var q := StripTrailingSlashes(p);
    var parts := Split(q, '/');
    LastPiece(q);
    parts[|parts| - 1]
  }

  /** The last piece of a path split on `/` is the whole path or what
      follows its last `/`. */
  lemma LastPiece(q: string)
    ensures var parts := Split(q, '/'); var name := parts[|parts| - 1];
      q == name || (|q| > |name| && q == q[..|q| - |name| - 1] + "/" + name)
  {
    var parts := Split(q, '/');
    JoinSplit(q, '/');
    if |parts| > 1 {
      JoinSnoc(parts, '/');
      var front := Join(parts[..|parts| - 1], '/');
      assert q == front + "/" + parts[|parts| - 1];
      assert q[..|front|] == front;
    }
  }

  /** How adding a picked folder ended. */
  datatype AddOutcome = Cancelled | InvalidRepository | AlreadyAdded | Stored(repo: Repository)

  /** The `repositories` key of the persistent store. */
  class RepositoryStore {
    var repositories: seq<Repository>

    /** `store.get('repositories', [])` on a fresh store. */
    constructor()
      ensures repositories == []
    {
      repositories := [];
    }

    /** `addRepository`: `picked` is the folder chosen in the dialog (None
        when cancelled), `probe` the `git status` that validates it, `id` and
        `addedAt` the clock readings the new record takes. */
    method AddRepository(picked: Option<string>, probe: GitResult<()>, id: RepoId, addedAt: string)
      returns (outcome: AddOutcome)
      modifies this
      ensures picked.None? ==> outcome == Cancelled && repositories == old(repositories)
      ensures picked.Some? && probe.Rejected? ==>
        outcome == InvalidRepository && repositories == old(repositories)
      ensures picked.Some? && probe.Done? ==>
        var repo := Repository(id, BaseName(picked.value), picked.value, addedAt);
        && repositories == WithRepository(old(repositories), repo)
        && outcome == (if HasPath(old(repositories), picked.value) then AlreadyAdded else Stored(repo))
    {
      if picked.None? {
        return Cancelled;
      }
      var repoPath := picked.value;
      if probe.Rejected? {
        return InvalidRepository;
      }
      var repoName := BaseName(repoPath);
      if !HasPath(repositories, repoPath) {
        var repo := Repository(id, repoName, repoPath, addedAt);
        repositories := repositories + [repo];
        outcome := Stored(repo);
      } else {
        outcome := AlreadyAdded;
      }
    }

    /** `remove-repository`: stores and returns the list without that id. */
    method RemoveRepository(id: RepoId) returns (updated: seq<Repository>)
      modifies this
      ensures repositories == WithoutRepository(old(repositories), id)
      ensures updated == repositories
    {
      updated := WithoutRepository(repositories, id);
      repositories := updated;
    }
  }
}
