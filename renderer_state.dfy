/** The state of the vanilla Electron renderer (renderer/script.js, class
    GitStashElectionApp) as one record, and each of its transitions as a
    function of the record and of what the awaited calls gave back. The
    class in module Renderer is proved against these functions. */
module RendererState {
  import opened Text
  import opened Seqs
  import opened Domain
  import opened RepositoryList

  /** The highlighting class `renderStashDetails` gives a diff line. */
  datatype LineKind = HeaderLine | FileHeaderLine | HunkLine | AdditionLine | DeletionLine | ContextLine

  /** One highlighted line: its class and its text. */
  datatype DiffLine = DiffLine(kind: LineKind, text: string)

  /** What the stash-details pane shows: the "select a stash" prompt, the
      "No content available" text, or highlighted diff lines. */
  datatype Details = Prompt | NoContent | Highlighted(lines: seq<DiffLine>)

  /** The fields of the renderer object, plus the notifications it has shown,
      oldest first. `selectedFile` is an index into `files`. */
  datatype View = View(
    selectedRepository: Option<Repository>,
    selectedStash: Option<nat>,
    selectedFile: Option<nat>,
    repositories: seq<Repository>,
    repositoryStashes: map<RepoId, StashSlot>,
    repositoryExpanded: map<RepoId, bool>,
    files: seq<ChangedFile>,
    details: Details,
    notices: seq<Notification>)

  /** The state the constructor sets up. */
  function Initial(): View {
    View(None, None, None, [], map[], map[], [], Prompt, [])
  }

  /** The first matching rule of the highlighter decides a line's class. */
  function ClassifyLine(line: string): (k: LineKind)
    ensures k == HeaderLine <==> StartsWith(line, "diff --git") || StartsWith(line, "index ")
    ensures k == HunkLine <==> StartsWith(line, "@@")
    ensures k == AdditionLine <==> StartsWith(line, "+") && !StartsWith(line, "+++")
    ensures k == DeletionLine <==> StartsWith(line, "-") && !StartsWith(line, "---")
    ensures k == ContextLine <==>
      !StartsWith(line, "diff --git") && !StartsWith(line, "index ") && !StartsWith(line, "@@")
      && !StartsWith(line, "+") && !StartsWith(line, "-")
  {
    PrefixHeads(line);
    if StartsWith(line, "diff --git") || StartsWith(line, "index ") then HeaderLine
    else if StartsWith(line, "+++") || StartsWith(line, "---") then FileHeaderLine
    else if StartsWith(line, "@@") then HunkLine
    else if StartsWith(line, "+") && !StartsWith(line, "+++") then AdditionLine
    else if StartsWith(line, "-") && !StartsWith(line, "---") then DeletionLine
    else ContextLine
  }

  /** The highlighter's prefixes are told apart by their first character,
      except `+++` and `---`, which extend `+` and `-`. */
  lemma PrefixHeads(line: string)
    ensures StartsWith(line, "diff --git") ==> |line| > 0 && line[0] == 'd'
    ensures StartsWith(line, "index ") ==> |line| > 0 && line[0] == 'i'
    ensures StartsWith(line, "@@") ==> |line| > 0 && line[0] == '@'
    ensures StartsWith(line, "+") <==> |line| > 0 && line[0] == '+'
    ensures StartsWith(line, "-") <==> |line| > 0 && line[0] == '-'
    ensures StartsWith(line, "+++") ==> StartsWith(line, "+")
    ensures StartsWith(line, "---") ==> StartsWith(line, "-")
  {
    if StartsWith(line, "diff --git") { StartsWithHead(line, "diff --git"); }
    if StartsWith(line, "index ") { StartsWithHead(line, "index "); }
    if StartsWith(line, "@@") { StartsWithHead(line, "@@"); }
    if StartsWith(line, "+++") { StartsWithHead(line, "+++"); }
    if StartsWith(line, "---") { StartsWithHead(line, "---"); }
    if |line| > 0 { assert line[..1] == [line[0]]; }
  }

  function Highlight(line: string): DiffLine {
    DiffLine(ClassifyLine(line), line)
  }

  /** What `renderStashDetails(content)` puts in the pane. */
  function RenderedDetails(content: string): (d: Details)
    ensures content == "" <==> d == NoContent
    ensures d.Highlighted? ==> |d.lines| == |Split(content, '\n')|
    ensures d.Highlighted? ==> forall i :: 0 <= i < |d.lines| ==>
      d.lines[i] == DiffLine(ClassifyLine(Split(content, '\n')[i]), Split(content, '\n')[i])
  {
    if content == "" then NoContent else Highlighted(Map(Split(content, '\n'), Highlight))
  }

  /** The texts of the highlighted lines, joined by newlines, are the content:
      highlighting drops, reorders and merges nothing. */
  lemma RenderedTextsRestoreContent(content: string)
    requires content != ""
    ensures Join(Map(RenderedDetails(content).lines, (l: DiffLine) => l.text), '\n') == content
  {
    var lines := Split(content, '\n');
    var texts := Map(RenderedDetails(content).lines, (l: DiffLine) => l.text);
    assert texts == lines;
    JoinSplit(content, '\n');
  }

  /** `showNotification(message, type)` appends to the notices shown. */
  function Notify(v: View, message: string, kind: string): View {
    v.(notices := v.notices + [Notification(message, kind)])
  }

  /** The first half of `loadRepositoryStashes`, before its await. */
  function BeginLoadStashes(v: View, id: RepoId): (r: View)
    ensures SlotOf(r.repositoryStashes, id) == Loading
  {
    v.(repositoryStashes := v.repositoryStashes[id := Loading])
  }

  /** The second half, once `getStashes` for `repo` has answered. */
  function FinishLoadStashes(v: View, repo: Repository, reply: Reply<seq<Stash>>): View {
    var w := v.(repositoryStashes := v.repositoryStashes[repo.id := Loaded(StashesOrEmpty(reply))]);
    match reply
    case Success(_) => w
    case Failure(e) => Notify(w, "Failed to load stashes for " + repo.name + ": " + e, "error")
    case Thrown(_) => Notify(w, "Failed to load stashes for " + repo.name, "error")
  }

  /** `loadRepositoryStashes(id)`: nothing for an unknown id; otherwise the
      entry is `'loading'` while the call runs and then holds its stashes, or
      an empty list. Only the cache and the notices change. */
  function LoadStashes(v: View, id: RepoId, reply: Reply<seq<Stash>>): (r: View)
    ensures FindById(v.repositories, id).None? ==> r == v
    ensures FindById(v.repositories, id).Some? ==>
      r.repositoryStashes == v.repositoryStashes[id := Loaded(StashesOrEmpty(reply))]
    ensures r == v.(repositoryStashes := r.repositoryStashes, notices := r.notices)
    ensures reply.Success? ==> r.notices == v.notices
    ensures v.notices <= r.notices
  {
    match FindById(v.repositories, id)
    case None => v
    case Some(repo) => FinishLoadStashes(BeginLoadStashes(v, id), repo, reply)
  }

  /** `toggleRepository(id)`: flips the expanded flag, and loads the stashes
      only when expanding a repository with no cache entry. */
  function ToggleRepository(v: View, id: RepoId, reply: Reply<seq<Stash>>): (r: View)
    ensures r.repositoryExpanded == v.repositoryExpanded[id := !IsExpanded(v.repositoryExpanded, id)]
    ensures IsExpanded(r.repositoryExpanded, id) == !IsExpanded(v.repositoryExpanded, id)
    ensures IsExpanded(v.repositoryExpanded, id) || IsCached(v.repositoryStashes, id) ==>
      r == v.(repositoryExpanded := r.repositoryExpanded)
    ensures !IsExpanded(v.repositoryExpanded, id) && !IsCached(v.repositoryStashes, id) ==>
      r == LoadStashes(v.(repositoryExpanded := r.repositoryExpanded), id, reply)
  {
    var wasExpanded := IsExpanded(v.repositoryExpanded, id);
    var w := v.(repositoryExpanded := v.repositoryExpanded[id := !wasExpanded]);
    if !wasExpanded && !IsCached(v.repositoryStashes, id) then LoadStashes(w, id, reply) else w
  }

  /** The text `selectFile` renders for a file-content reply. */
  function FileContentText(reply: Reply<string>): string {
    match reply
    case Success(content) => content
    case Failure(e) => "Failed to load file content: " + e
    case Thrown(m) => "Failed to load file content: " + m
  }

  /** Both a repository and a stash are selected. */
  predicate HasStashSelection(v: View) {
    v.selectedRepository.Some? && v.selectedStash.Some?
  }

  /** `selectFile(index)`: nothing without a stash selection or for an index
      with no file; otherwise selects the index and shows its content. */
  function SelectFile(v: View, index: int, reply: Reply<string>): (r: View)
    ensures !(HasStashSelection(v) && 0 <= index < |v.files|) ==> r == v
    ensures HasStashSelection(v) && 0 <= index < |v.files| ==>
      r == v.(selectedFile := Some(index), details := RenderedDetails(FileContentText(reply)))
  {
    if !HasStashSelection(v) || !(0 <= index < |v.files|) then v
    else v.(selectedFile := Some(index), details := RenderedDetails(FileContentText(reply)))
  }

  /** `loadStashFiles()`: nothing without a stash selection. On success the
      list is replaced and its first file, if any, selected; on failure the
      list is emptied; on an exception it is left as it was. Selections of
      repository and stash, the list of repositories and the cache are never
      touched. */
  function LoadStashFiles(v: View, files: Reply<seq<ChangedFile>>, content: Reply<string>): (r: View)
    ensures !HasStashSelection(v) ==> r == v
    ensures r.selectedRepository == v.selectedRepository && r.selectedStash == v.selectedStash
    ensures r.repositories == v.repositories && r.repositoryStashes == v.repositoryStashes
    ensures r.repositoryExpanded == v.repositoryExpanded
    ensures HasStashSelection(v) && files.Success? ==> r.files == files.value
    ensures HasStashSelection(v) && files.Success? ==>
      r.selectedFile == if files.value != [] then Some(0) else v.selectedFile
    ensures HasStashSelection(v) && files.Failure? ==> r.files == [] && r.selectedFile == v.selectedFile
    ensures files.Thrown? ==> r.files == v.files && r.selectedFile == v.selectedFile
    ensures HasStashSelection(v) && files.Success? && files.value != [] ==>
      r.details == RenderedDetails(FileContentText(content))
    ensures !(HasStashSelection(v) && files.Success? && files.value != []) ==> r.details == v.details
    ensures HasStashSelection(v) ==> r.notices == v.notices + match files
      case Success(_) => []
      case Failure(e) => [Notification("Failed to load files: " + e, "error")]
      case Thrown(m) => [Notification("Failed to load stash files: " + m, "error")]
  {
    if !HasStashSelection(v) then v
    else
      match files
      case Success(list) =>
        var w := v.(files := list);
        if |list| > 0 then SelectFile(w, 0, content) else w
      case Failure(e) => Notify(v, "Failed to load files: " + e, "error").(files := [])
      case Thrown(m) => Notify(v, "Failed to load stash files: " + m, "error")
  }

  /** `selectRepositoryAndStash(repo, index)`: selects both, clears the file
      selection, then loads the stash's files (which may select file 0). */
  function SelectRepositoryAndStash(v: View, repo: Repository, index: nat,
                                    files: Reply<seq<ChangedFile>>, content: Reply<string>): (r: View)
    ensures r.selectedRepository == Some(repo) && r.selectedStash == Some(index)
    ensures files.Success? ==>
      r.files == files.value && r.selectedFile == (if files.value != [] then Some(0) else None)
    ensures files.Failure? ==> r.files == [] && r.selectedFile == None
    ensures files.Thrown? ==> r.files == v.files && r.selectedFile == None
    ensures files.Success? && files.value != [] ==> r.details == RenderedDetails(FileContentText(content))
    ensures !(files.Success? && files.value != []) ==> r.details == v.details
    ensures r.repositories == v.repositories
    ensures r.repositoryStashes == v.repositoryStashes && r.repositoryExpanded == v.repositoryExpanded
  {
    LoadStashFiles(v.(selectedRepository := Some(repo), selectedStash := Some(index), selectedFile := None), files, content)
  }

  /** `selectRepository(repo)`: selects it, clears stash and file, marks it
      expanded and loads its stashes only if it was collapsed, and shows the
      prompt. */
  function SelectRepository(v: View, repo: Repository, reply: Reply<seq<Stash>>): (r: View)
    ensures r.selectedRepository == Some(repo) && r.selectedStash == None && r.selectedFile == None
    ensures r.details == Prompt && IsExpanded(r.repositoryExpanded, repo.id)
    ensures r.repositories == v.repositories && r.files == v.files && v.notices <= r.notices
    ensures IsExpanded(v.repositoryExpanded, repo.id) ==>
      r.repositoryStashes == v.repositoryStashes && r.repositoryExpanded == v.repositoryExpanded
    ensures !IsExpanded(v.repositoryExpanded, repo.id) ==>
      r.repositoryExpanded == v.repositoryExpanded[repo.id := true] &&
      r.repositoryStashes == LoadStashes(v, repo.id, reply).repositoryStashes
  {
    var w := v.(selectedRepository := Some(repo), selectedStash := None, selectedFile := None);
    var w' := if !IsExpanded(w.repositoryExpanded, repo.id)
      then LoadStashes(w.(repositoryExpanded := w.repositoryExpanded[repo.id := true]), repo.id, reply)
      else w;
    w'.(details := Prompt)
  }

  /** `applyStashFromTree(id, index)`: only ever shows a notice. */
  function ApplyStashFromTree(v: View, id: RepoId, confirmed: bool, reply: Reply<string>): (r: View)
    ensures r == v.(notices := r.notices)
    ensures FindById(v.repositories, id).None? || !confirmed ==> r == v
    ensures FindById(v.repositories, id).Some? && confirmed ==> r.notices == v.notices + [match reply
      case Success(message) => Notification(message, "success")
      case Failure(e) => Notification(if e != "" then e else "Failed to apply stash", "error")
      case Thrown(_) => Notification("Failed to apply stash", "error")]
  {
    if FindById(v.repositories, id).None? || !confirmed then v
    else
      match reply
      case Success(message) => Notify(v, message, "success")
      case Failure(e) => Notify(v, OrElse(e, "Failed to apply stash"), "error")
      case Thrown(_) => Notify(v, "Failed to apply stash", "error")
  }

  /** The selected stash is stash `index` of repository `id`. */
  predicate IsSelectedStash(v: View, id: RepoId, index: nat) {
    v.selectedRepository.Some? && v.selectedRepository.value.id == id && v.selectedStash == Some(index)
  }

  /** `dropStashFromTree(id, index)`: after a successful drop, clears stash
      and file only when the dropped stash was the selected one (another
      index, higher or lower, is kept as it is), then reloads that
      repository's stashes. A failed drop only shows a notice. */
  function DropStashFromTree(v: View, id: RepoId, index: nat, confirmed: bool,
                             reply: Reply<string>, reload: Reply<seq<Stash>>): (r: View)
    ensures FindById(v.repositories, id).None? || !confirmed ==> r == v
    ensures !reply.Success? ==> r == v.(notices := r.notices)
    ensures r.selectedRepository == v.selectedRepository && r.files == v.files
    ensures r.repositories == v.repositories && r.repositoryExpanded == v.repositoryExpanded
    ensures reply.Success? && confirmed && !IsSelectedStash(v, id, index) ==>
      r.selectedStash == v.selectedStash && r.selectedFile == v.selectedFile && r.details == v.details
    ensures reply.Success? && confirmed && FindById(v.repositories, id).Some? ==>
      r.repositoryStashes == v.repositoryStashes[id := Loaded(StashesOrEmpty(reload))]
    ensures reply.Success? && confirmed && FindById(v.repositories, id).Some? && IsSelectedStash(v, id, index) ==>
      r.selectedStash == None && r.selectedFile == None && r.details == Prompt
  {
    if FindById(v.repositories, id).None? || !confirmed then v
    else
      match reply
      case Success(message) =>
        var w := Notify(v, message, "success");
        var w' := if IsSelectedStash(w, id, index)
          then w.(selectedStash := None, selectedFile := None, details := Prompt)
          else w;
        LoadStashes(w', id, reload)
      case Failure(e) => Notify(v, OrElse(e, "Failed to drop stash"), "error")
      case Thrown(_) => Notify(v, "Failed to drop stash", "error")
  }

  /** The selected repository is `id` and a stash of it is selected. */
  predicate ShowsStashOf(v: View, id: RepoId) {
    v.selectedRepository.Some? && v.selectedRepository.value.id == id && v.selectedStash.Some?
  }

  /** The middle of `refreshRepository` for a known repository: its cache
      entry dropped and reloaded only when expanded, then the files reloaded
      when a stash of it is shown. Notices are only ever appended. */
  function ResetAndReload(w: View, id: RepoId, reload: Reply<seq<Stash>>,
                          files: Reply<seq<ChangedFile>>, content: Reply<string>): (r: View)
    requires FindById(w.repositories, id).Some?
    ensures SlotOf(r.repositoryStashes, id) == if IsExpanded(w.repositoryExpanded, id) then Loaded(StashesOrEmpty(reload)) else Unset
    ensures forall other :: other != id ==> SlotOf(r.repositoryStashes, other) == SlotOf(w.repositoryStashes, other)
    ensures r.repositoryExpanded == w.repositoryExpanded
    ensures r.selectedRepository == w.selectedRepository && r.selectedStash == w.selectedStash
    ensures !ShowsStashOf(w, id) ==> r.files == w.files && r.selectedFile == w.selectedFile && r.details == w.details
    ensures w.notices <= r.notices
  {
    var w1 := w.(repositoryStashes := w.repositoryStashes - {id});
    var w2 := if IsExpanded(w1.repositoryExpanded, id) then LoadStashes(w1, id, reload) else w1;
    if ShowsStashOf(w2, id) then LoadStashFiles(w2, files, content) else w2
  }

  /** `refreshRepository(id)`: drops the cache entry and reloads it only
      when the repository is expanded, and reloads the files when a stash
      of it is shown. */
  function RefreshRepository(v: View, id: RepoId, reload: Reply<seq<Stash>>,
                             files: Reply<seq<ChangedFile>>, content: Reply<string>): (r: View)
    ensures FindById(v.repositories, id).None? ==> r == v
    ensures FindById(v.repositories, id).Some? ==>
      SlotOf(r.repositoryStashes, id) == if IsExpanded(v.repositoryExpanded, id) then Loaded(StashesOrEmpty(reload)) else Unset
    ensures forall other :: other != id ==> SlotOf(r.repositoryStashes, other) == SlotOf(v.repositoryStashes, other)
    ensures r.repositoryExpanded == v.repositoryExpanded
    ensures r.selectedRepository == v.selectedRepository && r.selectedStash == v.selectedStash
    ensures !ShowsStashOf(v, id) ==> r.files == v.files && r.selectedFile == v.selectedFile && r.details == v.details
    ensures FindById(v.repositories, id).Some? && ShowsStashOf(v, id) && files.Success? ==> r.files == files.value
    ensures FindById(v.repositories, id).Some? && ShowsStashOf(v, id) && files.Failure? ==> r.files == []
    ensures FindById(v.repositories, id).Some? ==>
      |r.notices| >= |v.notices| + 2 &&
      r.notices[|v.notices|] == Notification("Refreshing " + FindById(v.repositories, id).value.name + "...", "info") &&
      r.notices[|r.notices| - 1] == Notification(FindById(v.repositories, id).value.name + " refreshed!", "success")
  {
    match FindById(v.repositories, id)
    case None => v
    case Some(repo) =>
      var w := Notify(v, "Refreshing " + repo.name + "...", "info");
      var w3 := ResetAndReload(w, id, reload, files, content);
      assert w.notices[|v.notices|] == w3.notices[|v.notices|];
      Notify(w3, repo.name + " refreshed!", "success")
  }

  /** The reload loop of `refreshAllRepositories`, over the ids `keys` in
      order: every expanded one is reloaded with the stashes `fetch` gives
      for it. */
  function ReloadExpanded(v: View, keys: seq<RepoId>, fetch: RepoId -> Reply<seq<Stash>>): View
  {
    if |keys| == 0 then v
    else
      var u := ReloadExpanded(v, keys[..|keys| - 1], fetch);
      var id := keys[|keys| - 1];
      if IsExpanded(u.repositoryExpanded, id) then LoadStashes(u, id, fetch(id)) else u
  }

  /** The loop changes the cache entry of exactly the expanded, known ids it
      visits, and nothing but the cache and the notices. */
  lemma {:induction false} ReloadExpandedSlots(v: View, keys: seq<RepoId>, fetch: RepoId -> Reply<seq<Stash>>, id: RepoId)
    ensures ReloadExpanded(v, keys, fetch) ==
      v.(repositoryStashes := ReloadExpanded(v, keys, fetch).repositoryStashes,
         notices := ReloadExpanded(v, keys, fetch).notices)
    ensures SlotOf(ReloadExpanded(v, keys, fetch).repositoryStashes, id) ==
      if id in keys && IsExpanded(v.repositoryExpanded, id) && FindById(v.repositories, id).Some?
      then Loaded(StashesOrEmpty(fetch(id)))
      else SlotOf(v.repositoryStashes, id)
    ensures v.notices <= ReloadExpanded(v, keys, fetch).notices
  {
    if |keys| > 0 {
      var init := keys[..|keys| - 1];
      ReloadExpandedSlots(v, init, fetch, id);
      assert id in keys <==> id in init || id == keys[|keys| - 1];
    }
  }

  /** `refreshAllRepositories()`: empties the whole cache, reloads the
      expanded ids, then reloads the files when a stash is shown. */
  function RefreshAllRepositories(v: View, keys: seq<RepoId>, fetch: RepoId -> Reply<seq<Stash>>,
                                  files: Reply<seq<ChangedFile>>, content: Reply<string>): (r: View)
    ensures r.repositories == v.repositories && r.repositoryExpanded == v.repositoryExpanded
    ensures r.selectedRepository == v.selectedRepository && r.selectedStash == v.selectedStash
    ensures !HasStashSelection(v) ==> r.files == v.files && r.selectedFile == v.selectedFile && r.details == v.details
    ensures HasStashSelection(v) && files.Success? ==> r.files == files.value
    ensures HasStashSelection(v) && files.Failure? ==> r.files == []
    ensures |r.notices| >= |v.notices| + 2
    ensures r.notices[..|v.notices| + 1] == v.notices + [Notification("Refreshing all repositories...", "info")]
    ensures r.notices[|r.notices| - 1] == Notification("All repositories refreshed!", "success")
  {
    var w := Notify(v, "Refreshing all repositories...", "info").(repositoryStashes := map[]);
    ReloadExpandedSlots(w, keys, fetch, "");
    var w2 := ReloadExpanded(w, keys, fetch);
    var w3 := if HasStashSelection(w2) then LoadStashFiles(w2, files, content) else w2;
    assert w.notices <= w3.notices;
    Notify(w3, "All repositories refreshed!", "success")
  }

  /** After refreshing everything, an id has a cache entry exactly when it is
      expanded and known, and the entry is what was fetched for it; the
      expanded flags are untouched. */
  lemma RefreshAllCache(v: View, keys: seq<RepoId>, fetch: RepoId -> Reply<seq<Stash>>,
                        files: Reply<seq<ChangedFile>>, content: Reply<string>, id: RepoId)
    requires forall k :: k in keys <==> k in v.repositoryExpanded
    ensures var r := RefreshAllRepositories(v, keys, fetch, files, content);
      && r.repositoryExpanded == v.repositoryExpanded
      && SlotOf(r.repositoryStashes, id) ==
         if IsExpanded(v.repositoryExpanded, id) && FindById(v.repositories, id).Some?
         then Loaded(StashesOrEmpty(fetch(id))) else Unset
  {
    var w := Notify(v, "Refreshing all repositories...", "info").(repositoryStashes := map[]);
    ReloadExpandedSlots(w, keys, fetch, id);
  }

  /** `clearSelection()`. */
  function ClearSelection(v: View): (r: View)
    ensures r.selectedRepository.None? && r.selectedStash.None? && r.selectedFile.None? && r.details == Prompt
    ensures r.repositories == v.repositories && r.repositoryStashes == v.repositoryStashes
    ensures r.repositoryExpanded == v.repositoryExpanded && r.files == v.files && r.notices == v.notices
  {
    v.(selectedRepository := None, selectedStash := None, selectedFile := None, details := Prompt)
  }

  /** `removeRepository(id)`, once the main process answered (`rejected`
      when the call failed): the repository leaves the list, and the
      selections are cleared when it was the selected one. The cache and
      the expanded flags keep its entries. */
  function RemoveRepository(v: View, id: RepoId, rejected: bool): (r: View)
    ensures rejected ==> r == v.(notices := r.notices)
    ensures !rejected ==> r.repositories == WithoutRepository(v.repositories, id)
    ensures r.repositoryStashes == v.repositoryStashes && r.repositoryExpanded == v.repositoryExpanded
    ensures r.files == v.files
    ensures !rejected && v.selectedRepository.Some? && v.selectedRepository.value.id == id ==>
      r.selectedRepository == None && r.selectedStash == None && r.selectedFile == None
    ensures !(v.selectedRepository.Some? && v.selectedRepository.value.id == id) ==>
      r.selectedRepository == v.selectedRepository && r.selectedStash == v.selectedStash && r.selectedFile == v.selectedFile
  {
    if rejected then Notify(v, "Failed to remove repository", "error")
    else
      var w := v.(repositories := WithoutRepository(v.repositories, id));
      var w' := if w.selectedRepository.Some? && w.selectedRepository.value.id == id then ClearSelection(w) else w;
      Notify(w', "Repository removed successfully", "success")
  }

  /** `loadRepositories()`: `loaded` is the list the main process answered
      with, or None when the call failed. */
  function LoadRepositories(v: View, loaded: Option<seq<Repository>>): (r: View)
    ensures loaded.Some? ==> r == v.(repositories := loaded.value)
    ensures loaded.None? ==> r == v.(notices := r.notices) && |r.notices| == |v.notices| + 1
    ensures v.notices <= r.notices
  {
    if loaded.Some? then v.(repositories := loaded.value)
    else Notify(v, "Failed to load repositories", "error")
  }

  /** The `repository-added` listener: it starts reloading the list, shows
      its notice at once, and the list arrives afterwards. */
  function OnRepositoryAdded(v: View, repo: Repository, loaded: Option<seq<Repository>>): (r: View)
    ensures |r.notices| > |v.notices| && r.notices[|v.notices|] == Notification("Repository \"" + repo.name + "\" added successfully!", "success")
    ensures loaded.Some? ==> r.repositories == loaded.value
  {
    LoadRepositories(Notify(v, "Repository \"" + repo.name + "\" added successfully!", "success"), loaded)
  }

  /** `addRepository()`: the dialog runs in the main process; the renderer
      only reports a failed call. */
  function AddRepository(v: View, rejected: bool): (r: View)
    ensures !rejected ==> r == v
    ensures rejected ==> r.notices == v.notices + [Notification("Failed to add repository", "error")]
  {
    if rejected then Notify(v, "Failed to add repository", "error") else v
  }
}
