/** The vanilla Electron renderer (renderer/script.js): an object whose
    methods update its selection fields and its two per-repository
    dictionaries in place. Each awaited call into the main process is a
    parameter holding what it gave back; each method's new state is the
    matching transition of module RendererState, whose properties are
    proved there. */
module Renderer {
  import opened Text
  import opened Domain
  import opened RepositoryList
  import Spec = RendererState

  class GitStashElectionApp {
    var selectedRepository: Option<Repository>
    var selectedStash: Option<nat>
    var selectedFile: Option<nat>
    var repositories: seq<Repository>
    var repositoryStashes: map<RepoId, StashSlot>
    var repositoryExpanded: map<RepoId, bool>
    var files: seq<ChangedFile>
    /** What the stash-details pane shows. */
    var details: Spec.Details
    /** Every notification shown so far, oldest first. */
    var notices: seq<Notification>

    /** The object's fields as one record. */
    function Snapshot(): Spec.View
      reads this
    {
      Spec.View(selectedRepository, selectedStash, selectedFile, repositories,
                repositoryStashes, repositoryExpanded, files, details, notices)
    }

    constructor()
      ensures Snapshot() == Spec.Initial()
    {
      selectedRepository := None;
      selectedStash := None;
      selectedFile := None;
      repositories := [];
      repositoryStashes := map[];
      repositoryExpanded := map[];
      files := [];
      details := Spec.Prompt;
      notices := [];
    }

    method ShowNotification(message: string, kind: string)
      modifies this
      ensures Snapshot() == Spec.Notify(old(Snapshot()), message, kind)
    {
      notices := notices + [Notification(message, kind)];
    }

    /** `renderStashDetails(content)`: one highlighted line per line of the
        content, in order. */
    method RenderStashDetails(content: string) returns (d: Spec.Details)
      ensures d == Spec.RenderedDetails(content)
    {
      if content == "" {
        return Spec.NoContent;
      }
      var lines := Split(content, '\n');
      var highlighted: seq<Spec.DiffLine> := [];
      for i := 0 to |lines|
        invariant |highlighted| == i
        invariant forall j :: 0 <= j < i ==> highlighted[j] == Spec.Highlight(lines[j])
      {
        var line := lines[i];
        var kind: Spec.LineKind;
        if StartsWith(line, "diff --git") || StartsWith(line, "index ") {
          kind := Spec.HeaderLine;
        } else if StartsWith(line, "+++") || StartsWith(line, "---") {
          kind := Spec.FileHeaderLine;
        } else if StartsWith(line, "@@") {
          kind := Spec.HunkLine;
        } else if StartsWith(line, "+") && !StartsWith(line, "+++") {
          kind := Spec.AdditionLine;
        } else if StartsWith(line, "-") && !StartsWith(line, "---") {
          kind := Spec.DeletionLine;
        } else {
          kind := Spec.ContextLine;
        }
        highlighted := highlighted + [Spec.DiffLine(kind, line)];
      }
      d := Spec.Highlighted(highlighted);
    }

    /** `loadRepositoryStashes(repoId)`, given what `getStashes` answered. */
    method LoadRepositoryStashes(repoId: RepoId, reply: Reply<seq<Stash>>)
      modifies this
      ensures Snapshot() == Spec.LoadStashes(old(Snapshot()), repoId, reply)
    {
      var repo := FindById(repositories, repoId);
      if repo.None? {
        return;
      }
      repositoryStashes := repositoryStashes[repoId := Loading];
      match reply {
        case Success(stashes) =>
          repositoryStashes := repositoryStashes[repoId := Loaded(stashes)];
        case Failure(e) =>
          repositoryStashes := repositoryStashes[repoId := Loaded([])];
          ShowNotification("Failed to load stashes for " + repo.value.name + ": " + e, "error");
        case Thrown(_) =>
          repositoryStashes := repositoryStashes[repoId := Loaded([])];
          ShowNotification("Failed to load stashes for " + repo.value.name, "error");
      }
    }

    /** `toggleRepository(repoId)`. */
    method ToggleRepository(repoId: RepoId, reply: Reply<seq<Stash>>)
      modifies this
      ensures Snapshot() == Spec.ToggleRepository(old(Snapshot()), repoId, reply)
    {
      var isCurrentlyExpanded := IsExpanded(repositoryExpanded, repoId);
      repositoryExpanded := repositoryExpanded[repoId := !isCurrentlyExpanded];
      if !isCurrentlyExpanded && !IsCached(repositoryStashes, repoId) {
        LoadRepositoryStashes(repoId, reply);
      }
    }

    /** `selectFile(fileIndex)`, given what `getStashFileContent` answered. */
    method SelectFile(fileIndex: int, reply: Reply<string>)
      modifies this
      ensures Snapshot() == Spec.SelectFile(old(Snapshot()), fileIndex, reply)
    {
      if selectedRepository.None? || selectedStash.None? || !(0 <= fileIndex < |files|) {
        return;
      }
      selectedFile := Some(fileIndex);
      var text;
      match reply {
        case Success(content) => text := content;
        case Failure(e) => text := "Failed to load file content: " + e;
        case Thrown(m) => text := "Failed to load file content: " + m;
      }
      details := RenderStashDetails(text);
    }

    /** `loadStashFiles()`, given what `getStashFiles` and then, for the
        first file, `getStashFileContent` answered. */
    method LoadStashFiles(filesReply: Reply<seq<ChangedFile>>, contentReply: Reply<string>)
      modifies this
      ensures Snapshot() == Spec.LoadStashFiles(old(Snapshot()), filesReply, contentReply)
    {
      if selectedRepository.None? || selectedStash.None? {
        return;
      }
      match filesReply {
        case Success(list) =>
          files := list;
          if |files| > 0 {
            SelectFile(0, contentReply);
          }
        case Failure(e) =>
          ShowNotification("Failed to load files: " + e, "error");
          files := [];
        case Thrown(m) =>
          ShowNotification("Failed to load stash files: " + m, "error");
      }
    }

    /** `selectRepositoryAndStash(repository, stashIndex)`. */
    method SelectRepositoryAndStash(repository: Repository, stashIndex: nat,
                                    filesReply: Reply<seq<ChangedFile>>, contentReply: Reply<string>)
      modifies this
      ensures Snapshot() == Spec.SelectRepositoryAndStash(old(Snapshot()), repository, stashIndex, filesReply, contentReply)
    {
      selectedRepository := Some(repository);
      selectedStash := Some(stashIndex);
      selectedFile := None;
      LoadStashFiles(filesReply, contentReply);
    }

    /** `selectRepository(repository)`. */
    method SelectRepository(repository: Repository, reply: Reply<seq<Stash>>)
      modifies this
      ensures Snapshot() == Spec.SelectRepository(old(Snapshot()), repository, reply)
    {
      selectedRepository := Some(repository);
      selectedStash := None;
      selectedFile := None;
      if !IsExpanded(repositoryExpanded, repository.id) {
        repositoryExpanded := repositoryExpanded[repository.id := true];
        LoadRepositoryStashes(repository.id, reply);
      }
      details := Spec.Prompt;
    }

    /** `applyStashFromTree(repoId, stashIndex)`: `confirmed` is the answer
        to the confirmation prompt. */
    method ApplyStashFromTree(repoId: RepoId, confirmed: bool, reply: Reply<string>)
      modifies this
      ensures Snapshot() == Spec.ApplyStashFromTree(old(Snapshot()), repoId, confirmed, reply)
    {
      var repo := FindById(repositories, repoId);
      if repo.None? || !confirmed {
        return;
      }
      match reply {
        case Success(message) => ShowNotification(message, "success");
        case Failure(e) => ShowNotification(OrElse(e, "Failed to apply stash"), "error");
        case Thrown(_) => ShowNotification("Failed to apply stash", "error");
      }
    }

    /** `dropStashFromTree(repoId, stashIndex)`: `reload` is what the
        `getStashes` of the reload answered. */
    method DropStashFromTree(repoId: RepoId, stashIndex: nat, confirmed: bool,
                             reply: Reply<string>, reload: Reply<seq<Stash>>)
      modifies this
      ensures Snapshot() == Spec.DropStashFromTree(old(Snapshot()), repoId, stashIndex, confirmed, reply, reload)
    {
      var repo := FindById(repositories, repoId);
      if repo.None? || !confirmed {
        return;
      }
      match reply {
        case Success(message) =>
          ShowNotification(message, "success");
          if selectedRepository.Some? && selectedRepository.value.id == repoId && selectedStash == Some(stashIndex) {
            selectedStash := None;
            selectedFile := None;
            details := Spec.Prompt;
          }
          LoadRepositoryStashes(repoId, reload);
        case Failure(e) => ShowNotification(OrElse(e, "Failed to drop stash"), "error");
        case Thrown(_) => ShowNotification("Failed to drop stash", "error");
      }
    }

    /** `refreshRepository(repoId)`. */
    method RefreshRepository(repoId: RepoId, reload: Reply<seq<Stash>>,
                             filesReply: Reply<seq<ChangedFile>>, contentReply: Reply<string>)
      modifies this
      ensures Snapshot() == Spec.RefreshRepository(old(Snapshot()), repoId, reload, filesReply, contentReply)
    {
      var repo := FindById(repositories, repoId);
      if repo.None? {
        return;
      }
      ShowNotification("Refreshing " + repo.value.name + "...", "info");
      ResetAndReload(repoId, reload, filesReply, contentReply);
      ShowNotification(repo.value.name + " refreshed!", "success");
    }

    /** The middle of `refreshRepository` for a listed repository. */
    method ResetAndReload(repoId: RepoId, reload: Reply<seq<Stash>>,
                          filesReply: Reply<seq<ChangedFile>>, contentReply: Reply<string>)
      requires FindById(repositories, repoId).Some?
      modifies this
      ensures Snapshot() == Spec.ResetAndReload(old(Snapshot()), repoId, reload, filesReply, contentReply)
    {
      ghost var v := Snapshot();
      repositoryStashes := repositoryStashes - {repoId};
      ghost var v1 := Snapshot();
      assert v1 == v.(repositoryStashes := v.repositoryStashes - {repoId});
      if IsExpanded(repositoryExpanded, repoId) {
        LoadRepositoryStashes(repoId, reload);
      }
      assert Snapshot() == if IsExpanded(v1.repositoryExpanded, repoId) then Spec.LoadStashes(v1, repoId, reload) else v1;
      ReloadFilesOf(repoId, filesReply, contentReply);
    }

    /** Reloads the files when a stash of `repoId` is shown. */
    method ReloadFilesOf(repoId: RepoId, filesReply: Reply<seq<ChangedFile>>, contentReply: Reply<string>)
      modifies this
      ensures Snapshot() ==
        if Spec.ShowsStashOf(old(Snapshot()), repoId) then Spec.LoadStashFiles(old(Snapshot()), filesReply, contentReply)
        else old(Snapshot())
    {
      if selectedRepository.Some? && selectedRepository.value.id == repoId && selectedStash.Some? {
        LoadStashFiles(filesReply, contentReply);
      }
    }

    /** `refreshAllRepositories()`: `keys` is `Object.keys` of the expanded
        dictionary, in its order, and `fetch` gives what `getStashes`
        answers for each id. */
    method RefreshAllRepositories(keys: seq<RepoId>, fetch: RepoId -> Reply<seq<Stash>>,
                                  filesReply: Reply<seq<ChangedFile>>, contentReply: Reply<string>)
      requires forall k :: k in keys <==> k in repositoryExpanded
      requires forall i, j :: 0 <= i < j < |keys| ==> keys[i] != keys[j]
      modifies this
      ensures Snapshot() == Spec.RefreshAllRepositories(old(Snapshot()), keys, fetch, filesReply, contentReply)
    {
      ShowNotification("Refreshing all repositories...", "info");
      repositoryStashes := map[];
      ghost var start := Snapshot();
      for i := 0 to |keys|
        invariant Snapshot() == Spec.ReloadExpanded(start, keys[..i], fetch)
      {
        assert keys[..i + 1][..i] == keys[..i];
        if IsExpanded(repositoryExpanded, keys[i]) {
          LoadRepositoryStashes(keys[i], fetch(keys[i]));
        }
      }
      assert keys[..|keys|] == keys;
      if selectedRepository.Some? && selectedStash.Some? {
        LoadStashFiles(filesReply, contentReply);
      }
      ShowNotification("All repositories refreshed!", "success");
    }

    /** `clearSelection()`. */
    method ClearSelection()
      modifies this
      ensures Snapshot() == Spec.ClearSelection(old(Snapshot()))
    {
      selectedRepository := None;
      selectedStash := None;
      selectedFile := None;
      details := Spec.Prompt;
    }

    /** `removeRepository(repoId)`: `rejected` when the call to the main
        process failed. */
    method RemoveRepository(repoId: RepoId, rejected: bool)
      modifies this
      ensures Snapshot() == Spec.RemoveRepository(old(Snapshot()), repoId, rejected)
    {
      if rejected {
        ShowNotification("Failed to remove repository", "error");
        return;
      }
      repositories := WithoutRepository(repositories, repoId);
      if selectedRepository.Some? && selectedRepository.value.id == repoId {
        selectedRepository := None;
        ClearSelection();
      }
      ShowNotification("Repository removed successfully", "success");
    }

    /** `loadRepositories()`: `loaded` is the stored list, or None when the
        call failed. */
    method LoadRepositories(loaded: Option<seq<Repository>>)
      modifies this
      ensures Snapshot() == Spec.LoadRepositories(old(Snapshot()), loaded)
    {
      match loaded {
        case Some(list) => repositories := list;
        case None => ShowNotification("Failed to load repositories", "error");
      }
    }

    /** The `repository-added` listener. */
    method OnRepositoryAdded(repo: Repository, loaded: Option<seq<Repository>>)
      modifies this
      ensures Snapshot() == Spec.OnRepositoryAdded(old(Snapshot()), repo, loaded)
    {
      ShowNotification("Repository \"" + repo.name + "\" added successfully!", "success");
      LoadRepositories(loaded);
    }

    /** `addRepository()`. */
    method AddRepository(rejected: bool)
      modifies this
      ensures Snapshot() == Spec.AddRepository(old(Snapshot()), rejected)
    {
      if rejected {
        ShowNotification("Failed to add repository", "error");
      }
    }
  }
}
