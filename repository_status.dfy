/** The working-tree status shown under an expanded repository
    (src/components/RepositoryStatus.jsx): the status hook with its load and
    stash operations, the list of changed files derived from the status,
    what the component renders, and the status badge of a file. */
module RepositoryStatus {
  import opened Text
  import opened Seqs
  import opened Domain

  /** The badge `getStatusIcon` picks. */
  datatype StatusIcon = UntrackedIcon | ModifiedIcon | AddedIcon | DeletedIcon | ChangedIcon

  function Label(icon: StatusIcon): string {
    match icon
    case UntrackedIcon => "Untracked"
    case ModifiedIcon => "Modified"
    case AddedIcon => "Added"
    case DeletedIcon => "Deleted"
    case ChangedIcon => "Changed"
  }

  /** `getStatusIcon(code)`: the badge follows the first character of the
      code; anything else, the empty code included, is "Changed". */
  function GetStatusIcon(code: string): (icon: StatusIcon)
    ensures |code| == 0 ==> icon == ChangedIcon
    ensures |code| > 0 ==> icon == match code[0]
      case '?' => UntrackedIcon
      case 'M' => ModifiedIcon
      case 'A' => AddedIcon
      case 'D' => DeletedIcon
      case _ => ChangedIcon
  {
    if StartsWith(code, "?") then UntrackedIcon
    else if StartsWith(code, "M") then ModifiedIcon
    else if StartsWith(code, "A") then AddedIcon
    else if StartsWith(code, "D") then DeletedIcon
    else ChangedIcon
  }

  /** The badge of one listed file: the index letter, or the working-tree
      letter when the index letter is blank. An entry without status letters
      cannot be rendered (`None`). */
  function RowIcon(entry: StatusEntry): (icon: Option<StatusIcon>)
    ensures icon.Some? <==> entry.FileEntry?
    ensures entry.FileEntry? && !IsBlank(entry.index) ==> icon == Some(GetStatusIcon(Trim(entry.index)))
    ensures entry.FileEntry? && IsBlank(entry.index) ==> icon == Some(GetStatusIcon(Trim(entry.workingDir)))
  {
    if entry.FileEntry? then
      TrimEmptyIffBlank(entry.index);
      Some(GetStatusIcon(OrElse(Trim(entry.index), Trim(entry.workingDir))))
    else None
  }

  /** The seven lists `changedFiles` concatenates, in order. */
  function AllLists(status: WorkingTreeStatus): seq<StatusEntry> {
    OrNone(status.modified) + OrNone(status.notAdded) + OrNone(status.deleted) + OrNone(status.staged)
    + OrNone(status.created) + OrNone(status.conflicted) + OrNone(status.renamed)
  }

  /** The present entries of one of the lists, in order. */
  function Present(list: Option<seq<StatusEntry>>): seq<StatusEntry> {
    Filter(OrNone(list), EntryTruthy)
  }

  /** `changedFiles`: nothing without a status; the `files` array when
      there is one (even empty); otherwise the present entries of modified,
      not_added, deleted, staged, created, conflicted and renamed, list after
      list, each list in its own order. */
  function ChangedFiles(status: Option<WorkingTreeStatus>): (r: seq<StatusEntry>)
    ensures status.None? ==> r == []
    ensures status.Some? && status.value.files.Some? ==> r == status.value.files.value
    ensures status.Some? && status.value.files.None? ==>
      var st := status.value;
      r == Present(st.modified) + Present(st.notAdded) + Present(st.deleted) + Present(st.staged)
        + Present(st.created) + Present(st.conflicted) + Present(st.renamed)
  {
    if status.None? then []
    else if status.value.files.Some? then status.value.files.value
    else
      var st := status.value;
      var a1 := OrNone(st.modified);
      var a2 := a1 + OrNone(st.notAdded);
      var a3 := a2 + OrNone(st.deleted);
      var a4 := a3 + OrNone(st.staged);
      var a5 := a4 + OrNone(st.created);
      var a6 := a5 + OrNone(st.conflicted);
      FilterConcat(a1, OrNone(st.notAdded), EntryTruthy);
      FilterConcat(a2, OrNone(st.deleted), EntryTruthy);
      FilterConcat(a3, OrNone(st.staged), EntryTruthy);
      FilterConcat(a4, OrNone(st.created), EntryTruthy);
      FilterConcat(a5, OrNone(st.conflicted), EntryTruthy);
      FilterConcat(a6, OrNone(st.renamed), EntryTruthy);
      Filter(AllLists(st), EntryTruthy)
  }

  /** `Stash N Change(s)`. */
  function StashButtonLabel(count: nat): string {
    "Stash " + Counted(count, "Change")
  }

  /** What the component renders, in the order its conditions are tried. */
  datatype StatusView =
    | NoRepository
    | LoadingChanges
    | ErrorView(message: string)
    | CleanView
    | ChangesView(files: seq<StatusEntry>, buttonText: string, disabled: bool)

  function View(hasRepository: bool, status: Option<WorkingTreeStatus>, isLoading: bool, error: Option<string>)
    : (v: StatusView)
    ensures v.NoRepository? <==> !hasRepository
    ensures v.LoadingChanges? <==> hasRepository && isLoading
    ensures v.ErrorView? <==> hasRepository && !isLoading && error.Some? && error.value != ""
    ensures v.CleanView? <==>
      hasRepository && !isLoading && (error.None? || error.value == "") && (status.None? || status.value.isClean)
    ensures v.ChangesView? ==>
      && v.files == ChangedFiles(status)
      && v.buttonText == StashButtonLabel(|v.files|)
      && (v.disabled <==> |v.files| == 0)
  {
    if !hasRepository then NoRepository
    else if isLoading then LoadingChanges
    else if error.Some? && error.value != "" then ErrorView(error.value)
    else if status.None? || status.value.isClean then CleanView
    else
      var files := ChangedFiles(status);
      ChangesView(files, StashButtonLabel(|files|), isLoading || |files| == 0)
  }

  /** The error `loadStatus` records for an answer: none on success, the
      reported error or a fallback on failure, the exception's message
      otherwise. */
  function LoadError(reply: Reply<WorkingTreeStatus>): (e: Option<string>)
    ensures e.None? <==> reply.Success?
    ensures e.Some? ==> e.value != ""
  {
    match reply
    case Success(_) => None
    case Failure(message) => Some(OrElse(message, "Failed to load status"))
    case Thrown(message) => Some("Error: " + message)
  }

  /** Whether `stashChanges` gets past its guard: a repository path and a
      status that is not known to be clean. */
  predicate StashAllowed(path: string, status: Option<WorkingTreeStatus>) {
    path != "" && !(status.Some? && status.value.isClean)
  }

  /** The state of `useRepositoryStatus`. */
  class StatusHook {
    var status: Option<WorkingTreeStatus>
    var isLoading: bool
    var error: Option<string>

    constructor()
      ensures status.None? && !isLoading && error.None?
    {
      status := None;
      isLoading := false;
      error := None;
    }

    /** `loadStatus()` for the repository path `path` (empty when there is
        no repository or no path). Once it finished, a status is held exactly
        when there is no error. */
    method LoadStatus(path: string, reply: Reply<WorkingTreeStatus>)
      modifies this
      ensures path == "" ==> status.None? && isLoading == old(isLoading) && error == old(error)
      ensures path != "" ==>
        && !isLoading
        && status == (if reply.Success? then Some(reply.value) else None)
        && error == LoadError(reply)
        && (status.Some? <==> error.None?)
    {
      if path == "" {
        status := None;
        return;
      }
      isLoading := true;
      error := None;
      match reply {
        case Success(value) =>
          status := Some(value);
        case Failure(message) =>
          error := Some(OrElse(message, "Failed to load status"));
          status := None;
        case Thrown(message) =>
          error := Some("Error: " + message);
          status := None;
      }
      isLoading := false;
    }

    /** `stashChanges()`. The preload bridge exposes no `stashChanges`, so
        past the guard the call throws (`thrown` is the engine's message for
        calling a missing function): the result is always false, and past
        the guard the error is recorded. */
    method StashChanges(path: string, thrown: string) returns (stashed: bool)
      modifies this
      ensures !stashed
      ensures !StashAllowed(path, old(status)) ==>
        status == old(status) && isLoading == old(isLoading) && error == old(error)
      ensures StashAllowed(path, old(status)) ==>
        status == old(status) && !isLoading && error == Some("Error: " + thrown)
    {
      if path == "" || (status.Some? && status.value.isClean) {
        return false;
      }
      isLoading := true;
      error := None;
      error := Some("Error: " + thrown);
      stashed := false;
      isLoading := false;
    }
  }

  /** After a load for a repository, the component shows the error view
      exactly when loading failed, and the clean view or the changes view
      otherwise. */
  lemma LoadedViewMatchesReply(status: Option<WorkingTreeStatus>, reply: Reply<WorkingTreeStatus>)
    ensures var v := View(true, if reply.Success? then Some(reply.value) else None, false, LoadError(reply));
      && (v.ErrorView? <==> !reply.Success?)
      && (reply.Success? && !reply.value.isClean ==> v.ChangesView? && v.files == ChangedFiles(Some(reply.value)))
  {
  }
}
