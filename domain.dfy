/** Entities shared by the main process and the three user interfaces. */
module Domain {

  datatype Option<+T> = None | Some(value: T)

  /** What one git invocation through simple-git gives back: the value it
      resolves with (for raw commands, their standard output), or the message
      of the error it rejects with. */
  datatype GitResult<+T> = Done(value: T) | Rejected(message: string)

  type GitOutput = GitResult<string>

  /** What an awaited call across the process boundary gives back: the
      `{success: true, ...}` shape, the `{success: false, error}` shape, or a
      rejected promise. */
  datatype Reply<+T> = Success(value: T) | Failure(error: string) | Thrown(message: string)

  /** A JavaScript string is truthy when it is not empty. */
  predicate Truthy(s: string) { s != "" }

  /** `s || fallback` for strings. */
  function OrElse(s: string, fallback: string): string {
    if s != "" then s else fallback
  }

  type RepoId = string

  /** A repository the user added: `{id, name, path, addedAt}`. */
  datatype Repository = Repository(id: RepoId, name: string, path: string, addedAt: string)

  /** One entry of `git stash list` as simple-git reports it. */
  datatype Stash = Stash(hash: string, date: string, message: string, authorName: string)

  /** The change kind the stash file list reports. */
  datatype FileStatus = Added | Deleted | Modified | Renamed

  /** One changed file of a stash: `{filename, status, rawStatus}` (the
      presentation icon follows from `status`). */
  datatype ChangedFile = ChangedFile(filename: string, status: FileStatus, rawStatus: string)

  /** The value stored for one repository in the per-repository stash cache:
      `undefined`, the string `'loading'`, or a list of stashes. */
  datatype StashSlot = Unset | Loading | Loaded(stashes: seq<Stash>)

  /** `repositoryStashes[id]`: a missing key reads as `undefined`. */
  function SlotOf(cache: map<RepoId, StashSlot>, id: RepoId): (s: StashSlot)
    ensures s != Unset ==> id in cache && cache[id] == s
  {
    if id in cache then cache[id] else Unset
  }

  /** `!!repositoryStashes[id]`: `'loading'` and every list, even an empty
      one, are truthy. */
  predicate IsCached(cache: map<RepoId, StashSlot>, id: RepoId) {
    SlotOf(cache, id) != Unset
  }

  /** `repositoryExpanded[id]` read as a boolean: a missing key is falsy. */
  predicate IsExpanded(expanded: map<RepoId, bool>, id: RepoId) {
    id in expanded && expanded[id]
  }

  /** `slot || []`: the stashes a repository row displays. */
  function OrNoStashes(slot: StashSlot): (r: StashSlot)
    ensures r != Unset
    ensures slot != Unset ==> r == slot
  {
    if slot == Unset then Loaded([]) else slot
  }

  /** The stashes a finished `getStashes` call leaves in a cache entry: the
      list on success, and an empty list on failure or exception. */
  function StashesOrEmpty(reply: Reply<seq<Stash>>): seq<Stash> {
    if reply.Success? then reply.value else []
  }

  /** A message shown to the user, `{message, type}`. */
  datatype Notification = Notification(message: string, kind: string)

  /** An element of one of the lists in simple-git's status summary, as far
      as the interface looks at it: a missing entry, a path, a file record
      with its two status letters, or a rename. */
  datatype StatusEntry =
    | Null
    | PathEntry(path: string)
    | FileEntry(path: string, index: string, workingDir: string)
    | RenameEntry(from: string, to: string)

  /** An element is kept by `.filter(Boolean)` unless it is missing or an
      empty string. */
  predicate EntryTruthy(e: StatusEntry) {
    !e.Null? && !(e.PathEntry? && e.path == "")
  }

  /** The working-tree summary `git status` yields. A list field is `None`
      when the property is absent (or, for `files`, not an array). */
  datatype WorkingTreeStatus = WorkingTreeStatus(
    current: string,
    files: Option<seq<StatusEntry>>,
    modified: Option<seq<StatusEntry>>,
    notAdded: Option<seq<StatusEntry>>,
    deleted: Option<seq<StatusEntry>>,
    staged: Option<seq<StatusEntry>>,
    created: Option<seq<StatusEntry>>,
    conflicted: Option<seq<StatusEntry>>,
    renamed: Option<seq<StatusEntry>>,
    isClean: bool)

  /** `list || []`. */
  function OrNone(list: Option<seq<StatusEntry>>): seq<StatusEntry> {
    if list.Some? then list.value else []
  }
}
