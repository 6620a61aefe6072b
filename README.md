# gitstash-manager, modelled in Dafny

gitstash-manager is a desktop tool (Electron) for browsing and managing the
`git stash` entries of several local repositories. This project models its
core and proves properties of that model:

- the main process's IPC handlers that list, show, apply and drop stashes
  and list the files and file contents of a stash, including their fallback
  chains (`StashBackend`);
- the persisted repository list and its add and remove rules
  (`RepositoryList`);
- the React application state: its reducer, the store that dispatches into
  it, and the handlers of each component, each modelled as the sequence of
  actions it dispatches (`AppContext`, `StashApp`, `StashItem`,
  `RepositoryItem`, `RepositoriesPanel`, `RepositoryHeader`, `StashList`,
  `FilesPanel`, `FilesList`, `RepositoryStatus`, `StashDetailsView`,
  `ResizeHandle`);
- the vanilla renderer object `GitStashElectionApp`. It is a class whose
  methods update its fields in place. Each method is proved against a
  function of the old fields (`RendererState`, `Renderer`);
- the older single-repository web client `GitStashElection`, also a class
  (`LegacyClient`).

Everything the program asks of git, of the main process or of the user is a
parameter:

- Each git call is a `GitResult` or `GitOutput`.
- Each IPC answer is a `Reply`:
  - `Success` carries the payload;
  - `Failure` is a `{success: false, error}` answer;
  - `Thrown` is a rejected call.
- Each `confirm` prompt is a boolean.
- Each fetch of the web client is a `Fetched` value.

A React handler reads the state of the render that created it. The model
takes that state as an argument, or as the store's current state where the
handler runs right after a render. The handler's effect is the actions it
dispatches. Lemmas state what replaying those actions through the reducer
does to the state.

Shared pieces:

- `Text` holds the JavaScript string operations the code relies on: `trim`
  with ECMAScript's whitespace set, `split`, `join`, `startsWith`, decimal
  rendering and `path.basename`.
- `Seqs` holds filter and map.
- `Domain` holds the entities: repository, stash, changed file,
  working-tree status, notification and the stash-cache slot.

The stash cache needs care. The React code stores `undefined` under an id
(`StashSlot.Unset`) while the renderer deletes the key. Both read as "no
entry". An empty list is truthy in JavaScript, so `Loaded([])` counts as
cached.

## Model

| member | source | states |
|---|---|---|
| Text.TrimEmptyIffBlank | main.js:242 | `trim()` yields the empty string exactly when the string is all whitespace, which is what `!files.trim()` tests |
| Text.JoinSplit | renderer/script.js:486 | splitting on a separator and joining the pieces back with it gives the original string |
| Text.SplitPath | src/components/FilesPanel.jsx:28-30 | the last component holds no `/`; a name without `/` has an empty directory and is its own last component; otherwise directory, `/` and last component rebuild the name |
| Text.ParseNatToString | src/components/StashList.jsx:26 | the decimal text of a position reads back as that position |
| Text.IndexedKeysDistinct | src/components/FilesPanel.jsx:37 | keys of the form `name-position` differ whenever the positions differ, whatever the names |
| Text.Counted | src/components/FilesPanel.jsx:52 | "N file(s)" starts with the count and ends in `s` exactly when the count is not 1; a count of 1 reads "1 file" |
| StashBackend.StashRef | main.js:223 | `stash@{`, the index's decimal digits, then `}` |
| StashBackend.StashRefRoundTrip | main.js:223 | the `stash@{n}` reference every handler builds names stash n |
| StashBackend.ApplyStash | main.js:385-393 | success exactly when git applies the stash, with `Applied stash@{n}`; otherwise git's error message; the handler never rejects |
| StashBackend.DropStash | main.js:395-403 | success exactly when git drops the stash, with `Dropped stash@{n}`; otherwise git's error message; the handler never rejects |
| StashBackend.GetStashes | main.js:209-217 | success exactly when git lists the stashes, carrying git's list in its order; otherwise a failure carrying the client's error, or else git's message |
| StashBackend.GetStashContent | main.js:219-229 | success exactly when git prints the patch, carrying the patch verbatim; otherwise a failure carrying the client's error, or else git's message |
| StashBackend.ClassifyNameStatus | main.js:254-269 | Added, Deleted or Renamed exactly when the code starts with A, D or R; Modified for M and for any other code |
| StashBackend.NameStatusLineFields | main.js:249-276 | a `code TAB path` line yields that path, the code's change kind and the code itself |
| StashBackend.NameStatusLineWithoutTab | main.js:250-252 | a line without a tab names its file by the whole trimmed line |
| StashBackend.ParseNameStatusLine | main.js:249-276 | the code and the file name are single tab fields of the line, and the change kind is the code's classification |
| StashBackend.ParseNameStatus | main.js:247-277 | at most one entry per line; every entry comes from a non-blank line, and every non-blank line gives its entry |
| StashBackend.ParseNameStatusConcat | main.js:247-249 | method 1 parses line by line: the output of two chunks joined by a newline parses as the two parses concatenated |
| StashBackend.ParseNameStatusLineAlone | main.js:247-249 | a blank line yields no entry and any other line exactly its own entry |
| StashBackend.ParseNameStatusNonEmpty | main.js:242-249 | output that passes the blank check yields at least one file |
| StashBackend.FilterNameOnly | main.js:291-299 | method 2 yields at most one entry per line, each a modification with raw status M |
| StashBackend.FilterNameOnlyConcat | main.js:291-293 | method 2 filters line by line: two chunks joined by a newline give the two results concatenated |
| StashBackend.FilterNameOnlyKeepsLine | main.js:292-298 | a kept line yields exactly one modified file named by the trimmed line |
| StashBackend.FilterNameOnlyDropsLine | main.js:292-293 | commit, Author and Date header lines and names without a dot yield nothing |
| StashBackend.GetStashFiles | main.js:231-327 | a failing git client gives its error; otherwise always success: method 1's parse when its output is not blank (then at least one file), else method 2's filtered list, else the single placeholder file |
| StashBackend.GetStashFilesCanBeEmpty | main.js:286-302 | method 2 can succeed with no files at all |
| StashBackend.BlobContentLines | main.js:368-371 | method 3's text is the `File:` line, an empty line, the marker line, then the file's own lines |
| StashBackend.GetStashFileContent | main.js:329-383 | success only with non-blank content: the range diff when it is not blank, else the show-by-hash output when a hash was found and it is not blank, else the wrapped full file; the fixed error when no method gives content |
| RepositoryList.FindById | renderer/script.js:269 | none exactly when no repository has the id; otherwise the first one with that id |
| RepositoryList.WithRepository | main.js:171-181 | the list is kept exactly when the path is already stored; otherwise the repository is appended as the one new, last entry |
| RepositoryList.WithoutRepository | main.js:204 | the result holds exactly the stored repositories whose id differs |
| RepositoryList.WithoutRepositoryConcat | main.js:204 | removing from a concatenation removes from each part, so the survivors keep their order |
| RepositoryList.WithoutRepositoryOne | main.js:204 | a single entry survives, once, exactly when its id differs |
| RepositoryList.AddKeepsPathsUnique | main.js:170-180 | after adding, the path is stored, and no two stored repositories share a path |
| RepositoryList.AddIdempotent | main.js:171-173 | adding the same folder twice stores it once |
| RepositoryList.RemoveKeepsPathsUnique | main.js:203-205 | removing keeps the stored paths pairwise distinct |
| RepositoryList.RemoveAbsentId | main.js:204 | removing an id that no stored repository has changes nothing |
| RepositoryList.RemoveUndoesAdd | main.js:170-205 | removing a freshly added repository by its new id restores the previous list |
| RepositoryList.BaseName | main.js:167 | the stored name holds no `/` and is the last component of the path once trailing `/` are dropped: the whole path, or what follows its last `/` |
| RepositoryList.LastPiece | main.js:167 | the last piece of a path split on `/` is the whole path or what follows its last `/` |
| RepositoryList.RepositoryStore.constructor | main.js:199 | a fresh store holds no repositories |
| RepositoryList.RepositoryStore.AddRepository | main.js:151-195 | a cancelled dialog or a folder git rejects stores nothing; otherwise the folder is appended under its base name unless its path is already stored, which reports "already added" |
| RepositoryList.RepositoryStore.RemoveRepository | main.js:202-207 | the stored list becomes the list without that id, and that list is returned |
| AppContext.InitialStateIsEmpty | src/context/AppContext.jsx:19-28 | the initial state has no repositories, nothing cached or expanded, no selection, no files and no notification |
| AppContext.Reduce | src/context/AppContext.jsx:31-75 | each action sets exactly its own field, and a cache or expanded-flag write changes only its own id; every other field is unchanged; an unknown action leaves the state as it is |
| AppContext.SelectingStashKeepsFile | src/context/AppContext.jsx:57-58 | selecting a stash leaves the selected file and repository as they were |
| AppContext.CacheWritesAreIndependent | src/context/AppContext.jsx:36-43 | writing one id's cache entry leaves every other id's entry and all expanded flags unchanged |
| AppContext.NotificationAction | src/context/AppContext.jsx:92-97 | the notice carries the message, with the given type or "info" by default |
| AppContext.ReplayConcat | src/context/AppContext.jsx:79 | dispatching two runs of actions one after the other is dispatching their concatenation |
| AppContext.ReplayAgrees | src/context/AppContext.jsx:31-75 | a run of actions none of which sets a field leaves that field unchanged |
| AppContext.HandlerEffect | src/context/AppContext.jsx:79 | a handler's effect on the state is its own actions replayed from the state before it, whatever was dispatched earlier |
| AppContext.AppStore.constructor | src/context/AppContext.jsx:79 | the store starts in the initial state with nothing dispatched |
| AppContext.AppStore.Dispatch | src/context/AppContext.jsx:79 | the state becomes the reducer applied to the old state and the action, which joins the log |
| AppContext.AppStore.ShowNotification | src/context/AppContext.jsx:92-97 | dispatches one notice action |
| AppContext.AppStore.ClearNotice | src/context/AppContext.jsx:99-101 | dispatches one clear action |
| AppContext.AppStore.SetRepositoryList | src/context/AppContext.jsx:103-105 | dispatches one list replacement |
| AppContext.AppStore.SetStashesOf | src/context/AppContext.jsx:107-112 | dispatches one cache write for the id |
| AppContext.AppStore.SetExpandedOf | src/context/AppContext.jsx:114-119 | dispatches one expanded-flag write for the id |
| AppContext.AppStore.SelectRepository | src/context/AppContext.jsx:121-123 | dispatches one repository selection |
| AppContext.AppStore.SelectStash | src/context/AppContext.jsx:125-127 | dispatches one stash selection |
| AppContext.AppStore.SelectFile | src/context/AppContext.jsx:129-131 | dispatches one file selection |
| AppContext.AppStore.SetFileList | src/context/AppContext.jsx:133-135 | dispatches one file-list replacement |
| StashApp.LoadRepositoriesEffect | src/components/GitStashElectionApp.jsx:23-31 | loading replaces the list and nothing else; on failure the list is kept and an error is shown |
| StashApp.LoadRepositories | src/components/GitStashElectionApp.jsx:23-31 | dispatches the list on success, the error notice otherwise |
| StashApp.OnRepositoryAdded | src/components/GitStashElectionApp.jsx:35-38 | the success notice is dispatched before the reloaded list arrives |
| StashApp.RepositoryAddedEffect | src/components/GitStashElectionApp.jsx:35-38 | afterwards the list is the loaded one, and the notice shown is the success notice, or the failure notice when loading failed |
| StashApp.FilesEffect | src/components/GitStashElectionApp.jsx:52-70 | the file list is replaced, and emptied on any failure; the selected file is cleared only on success; the repository and stash selection are never touched |
| StashApp.LoadStashFiles | src/components/GitStashElectionApp.jsx:52-70 | asks for files exactly when a repository and a stash are selected in the handler's state |
| StashApp.RefreshCurrentRepository | src/components/GitStashElectionApp.jsx:46-50 | reloads the files exactly when a stash is selected in the handler's state |
| StashApp.OnRefreshRequestedAsRegistered | src/components/GitStashElectionApp.jsx:41-43 | the listener registered at mount sees the initial state, so it never loads and dispatches nothing |
| StashApp.OnRefreshRequested | src/components/GitStashElectionApp.jsx:46-50 | reading the current state, the refresh reloads the files exactly when a stash is selected |
| StashApp.OnSelectionChange | src/components/GitStashElectionApp.jsx:73-77 | the selection effect loads files exactly when a repository and a stash are selected |
| StashApp.SelectionEffectSettles | src/components/GitStashElectionApp.jsx:73-77 | loading files keeps the repository and stash selection, so the effect does not fire again |
| StashItem.IsSelected | src/components/StashItem.jsx:16 | a row reads as selected only when its index is the selected stash and a repository is selected, so at most one index is selected |
| StashItem.SelectStashEffect | src/components/StashItem.jsx:18-22 | selecting a stash selects its repository and index and clears the file; the row then shows as selected |
| StashItem.SelectStash | src/components/StashItem.jsx:18-22 | dispatches the repository, stash and file selections in that order |
| StashItem.ApplyOnlyNotifies | src/components/StashItem.jsx:30-41 | applying changes only the notification: success on success, error otherwise |
| StashItem.ApplyStash | src/components/StashItem.jsx:24-42 | the main process is asked exactly when the user confirms, and then exactly one notice follows |
| StashItem.DropEffect | src/components/StashItem.jsx:50-73 | a successful drop clears stash and file only when the dropped stash was the selected one; a selected stash with another index keeps that index; the cache entry is replaced only when the reload succeeds; a failed drop changes neither selection nor cache |
| StashItem.DropStash | src/components/StashItem.jsx:44-74 | the main process is asked exactly when the user confirms; the dispatched actions are those of the drop |
| StashList.RowKeysDistinct | src/components/StashList.jsx:26 | two rows of one list never share a key |
| StashList.View | src/components/StashList.jsx:4-34 | the loading line exactly for the loading marker; the empty state exactly for no entry or an empty list; otherwise one row per stash in order, passing its position as the index |
| RepositoryItem.IsSelected | src/components/RepositoryItem.jsx:18 | a repository row is selected whenever one of its stash rows is |
| RepositoryItem.ShownStashes | src/components/RepositoryItem.jsx:17 | the row shows the cached entry, or an empty list when there is none |
| RepositoryItem.LoadEffect | src/components/RepositoryItem.jsx:30-48 | only this row's cache entry changes, and it ends as a list, never the loading marker; a notice is shown only on failure, with the error when there is one |
| RepositoryItem.LoadRepositoryStashes | src/components/RepositoryItem.jsx:30-48 | dispatches the loading marker, then the list, then a notice on failure |
| RepositoryItem.ToggleEffect | src/components/RepositoryItem.jsx:20-28 | flips only this row's flag; fills the cache only when expanding a row with nothing cached; an expanded row has a cache entry afterwards if it had one before |
| RepositoryItem.Toggle | src/components/RepositoryItem.jsx:20-28 | dispatches the flag and, when it loads, the load's actions |
| RepositoryItem.RefreshEffect | src/components/RepositoryItem.jsx:50-61 | the cache entry is reset and refilled only when the row is expanded; the closing success notice stays, even when loading failed |
| RepositoryItem.Refresh | src/components/RepositoryItem.jsx:50-61 | dispatches the opening notice, the reset, the load when expanded, and the closing notice |
| RepositoryItem.RemoveRepositoryAsWritten | src/components/RepositoryItem.jsx:63-75 | once confirmed, the handler only shows a notice and dispatches no new list |
| RepositoryItem.RemovedRepositoryStaysListed | src/components/RepositoryItem.jsx:67-70 | after a removal as written, the removed repository is still in the list |
| RepositoryItem.RemoveRepository | src/components/RepositoryItem.jsx:63-75 | once confirmed, the list the main process returns is taken into the state before the notice |
| RepositoryItem.RemoveEffect | src/components/RepositoryItem.jsx:63-75 | after a successful removal no listed repository has the removed id; a failure keeps the list and shows the error notice |
| RepositoriesPanel.LoadEffect | src/components/RepositoriesPanel.jsx:27-41 | loading changes only this repository's cache entry, never shows a notice, and leaves a list |
| RepositoriesPanel.LoadStashes | src/components/RepositoriesPanel.jsx:27-41 | dispatches the loading marker, then the stashes or an empty list |
| RepositoriesPanel.ToggleEffect | src/components/RepositoriesPanel.jsx:43-53 | flips the flag and fills the cache only when expanding a repository with nothing cached; nothing else changes |
| RepositoriesPanel.Toggle | src/components/RepositoriesPanel.jsx:43-53 | dispatches the flag and, when it loads, the load's actions |
| RepositoriesPanel.RefreshEffect | src/components/RepositoriesPanel.jsx:55-66 | resets this repository's cache entry and refills it only when expanded; nothing else changes |
| RepositoriesPanel.Refresh | src/components/RepositoriesPanel.jsx:55-66 | dispatches the reset and, when expanded, the load |
| RepositoriesPanel.Remove | src/components/RepositoriesPanel.jsx:68-80 | asks the main process exactly when confirmed and dispatches nothing |
| RepositoriesPanel.ProcessedRepositories | src/components/RepositoriesPanel.jsx:84-92 | one element per repository in list order, with its flag, its cached stashes or an empty list, and whether it is the selected one |
| RepositoriesPanel.AtMostOneSelected | src/components/RepositoriesPanel.jsx:89 | two repositories with different ids are never both marked selected |
| RepositoriesPanel.Initials | src/components/RepositoriesPanel.jsx:146-160 | the badge has at most two characters |
| RepositoriesPanel.InitialsOfOneWord | src/components/RepositoriesPanel.jsx:146-160 | a name without `-` gets its upper-cased first character |
| RepositoriesPanel.InitialsOfManyWords | src/components/RepositoriesPanel.jsx:146-160 | `a-b-rest` gets the upper-cased first characters of a and b; later pieces are ignored |
| RepositoriesPanel.InitialsOfTwoWords | src/components/RepositoriesPanel.jsx:146-160 | `a-b` gets the upper-cased first characters of a and b |
| RepositoryHeader.Visible | src/components/RepositoryHeader.jsx:36 | the header is rendered whenever a stash is selected (it needs only a selected repository) |
| RepositoryHeader.PathFor | src/components/RepositoryHeader.jsx:22 | as written, the selected repository's path for every id; corrected, the path stored for that id, when there is one |
| RepositoryHeader.EntryEffect | src/components/RepositoryHeader.jsx:16-30 | a collapsed entry changes nothing; an expanded one ends with the fetched stashes on success and reset otherwise |
| RepositoryHeader.ReloadEffect | src/components/RepositoryHeader.jsx:16-31 | the loop changes only the cache; an expanded id ends refilled from its path, and any other id keeps its entry |
| RepositoryHeader.RefreshAllEffect | src/components/RepositoryHeader.jsx:12-34 | only the cache and the notification change; the closing notice is shown |
| RepositoryHeader.Reload | src/components/RepositoryHeader.jsx:16-31 | dispatches the reset and the refill of each expanded entry, in entry order |
| RepositoryHeader.RefreshAllRepositoriesAsWritten | src/components/RepositoryHeader.jsx:12-34 | every expanded repository is reloaded from the selected repository's path |
| RepositoryHeader.OtherRepositoryGetsSelectedStashes | src/components/RepositoryHeader.jsx:22 | with two expanded repositories, the one not selected ends up holding the selected repository's stashes rather than its own |
| RepositoryHeader.RefreshAllRepositories | src/components/RepositoryHeader.jsx:12-34 | every expanded repository is reloaded from its own stored path |
| RepositoryHeader.OwnPathRefillsOwnStashes | src/components/RepositoryHeader.jsx:16-31 | each expanded repository's entry holds what git answers for that repository's own path |
| FilesPanel.ProcessedFiles | src/components/FilesPanel.jsx:26-43 | one row per file in order; a row is selected exactly when its name is the selected file's; directory and last component rebuild the name; keys and element ids carry the position |
| FilesPanel.ShownNameIsFilename | src/components/FilesPanel.jsx:98-105 | a row shows its whole file name unless that name is one leading `/` followed by a name |
| FilesPanel.RowIdsDistinct | src/components/FilesPanel.jsx:37-38 | no two rows share a key or an element id |
| FilesPanel.Panel | src/components/FilesPanel.jsx:45-64 | hidden exactly without a stash selection; the empty state exactly for no files; otherwise the count and the processed rows |
| FilesPanel.SelectFile | src/components/FilesPanel.jsx:21-23 | dispatches one file selection |
| FilesPanel.SelectingMarksRowsWithName | src/components/FilesPanel.jsx:36 | after selecting a file, the rows marked selected are exactly those with its name, and their keys do not change |
| FilesList.View | src/components/FilesList.jsx:37-86 | the empty state exactly for no files; otherwise the files panel's rows: one per file in order, with its directory and last component, its `file-item-N` id, and selected exactly when its name is the selected file's |
| FilesList.SelectFileEffect | src/components/FilesList.jsx:14-35 | the file is always selected, even when its content cannot be loaded; the content is not kept; only a failure changes the notification |
| FilesList.SelectFile | src/components/FilesList.jsx:14-35 | dispatches the selection, then a notice only when loading failed or no repository is selected |
| RepositoryStatus.GetStatusIcon | src/components/RepositoryStatus.jsx:140-173 | the badge follows the code's first character (`?`, M, A, D); anything else, the empty code included, is "Changed" |
| RepositoryStatus.RowIcon | src/components/RepositoryStatus.jsx:186 | the badge of a row is chosen by the trimmed index letter, or by the working-tree letter when the index letter is blank |
| RepositoryStatus.ChangedFiles | src/components/RepositoryStatus.jsx:70-89 | nothing without a status; the `files` array whenever there is one; otherwise the present entries of modified, not_added, deleted, staged, created, conflicted and renamed, list after list, each in its own order |
| RepositoryStatus.View | src/components/RepositoryStatus.jsx:91-137 | the views are tried in order (no repository, loading, error, clean); the changes view lists the changed files, labels the button with their count, and disables it exactly when there are none |
| RepositoryStatus.LoadError | src/components/RepositoryStatus.jsx:22-30 | no error exactly on success; otherwise a non-empty message |
| RepositoryStatus.StatusHook.constructor | src/components/RepositoryStatus.jsx:6-8 | the hook starts with no status, not loading, and no error |
| RepositoryStatus.StatusHook.LoadStatus | src/components/RepositoryStatus.jsx:10-34 | without a path only the status is cleared; otherwise loading ends with a status exactly when there is no error |
| RepositoryStatus.StatusHook.StashChanges | src/components/RepositoryStatus.jsx:36-58 | always answers false; past its guard (a path and a status not known to be clean) the call throws and the error is recorded |
| RepositoryStatus.LoadedViewMatchesReply | src/components/RepositoryStatus.jsx:103-126 | after a load, the error view shows exactly when loading failed, and a dirty status shows its changed files |
| StashDetailsView.Request | src/components/StashDetailsView.jsx:19-33 | nothing is requested without a stash selection; a selected file's content when a file is selected; the stash's patch otherwise |
| StashDetailsView.ContentOutcome | src/components/StashDetailsView.jsx:35-66 | fetched content is shown verbatim and dispatches nothing; a failure shows its error in the pane and as an error notice, and nothing else changes |
| StashDetailsView.DetailsPane.constructor | src/components/StashDetailsView.jsx:12-13 | the pane starts empty and not loading |
| StashDetailsView.DetailsPane.BeginLoad | src/components/StashDetailsView.jsx:19-27 | without a stash selection the prompt is shown; otherwise the pane is marked loading |
| StashDetailsView.DetailsPane.FinishLoad | src/components/StashDetailsView.jsx:35-67 | the pane shows the answer's text, stops loading, and dispatches the answer's notice |
| StashDetailsView.DetailsPane.LoadContent | src/components/StashDetailsView.jsx:19-69 | shows the prompt without a selection; otherwise shows the requested content or its error and dispatches only a failure notice |
| ResizeHandle.MouseDown | src/components/ui/ResizeHandle.jsx:15-18 | a drag starts exactly when the column has a non-zero width, from that width and mouse position |
| ResizeHandle.Clamp | src/components/ui/ResizeHandle.jsx:28 | the width is never below the minimum and never above the maximum when the bounds are ordered; a width within bounds is kept |
| ResizeHandle.NewWidthMonotone | src/components/ui/ResizeHandle.jsx:28 | dragging further right never gives a narrower column |
| ResizeHandle.DefaultBoundsHold | src/components/ui/ResizeHandle.jsx:7-8 | with the default bounds, the width stays between 200 and 500 |
| ResizeHandle.ClampIdempotent | src/components/ui/ResizeHandle.jsx:28 | clamping a clamped width changes nothing |
| RendererState.ClassifyLine | renderer/script.js:490-502 | a line is a header, file, hunk, addition, deletion or context line by the first matching prefix rule; each class holds exactly when its rule matches first |
| RendererState.PrefixHeads | renderer/script.js:490-499 | the highlighter's prefixes are told apart by their first character |
| RendererState.RenderedDetails | renderer/script.js:477-506 | empty content shows "No content available"; otherwise one highlighted line per line of the content, each with its class |
| RendererState.RenderedTextsRestoreContent | renderer/script.js:486-503 | the texts of the highlighted lines, joined by newlines, are the content: no line is lost or changed |
| RendererState.BeginLoadStashes | renderer/script.js:273-275 | while the call runs the cache entry is the loading marker |
| RendererState.LoadStashes | renderer/script.js:268-293 | nothing for an unknown id; otherwise the entry holds the stashes, or an empty list on failure; only the cache and the notices change, and notices are only appended |
| RendererState.ToggleRepository | renderer/script.js:255-266 | flips the flag; loads only when expanding a repository with no cache entry, and otherwise changes nothing else |
| RendererState.SelectFile | renderer/script.js:628-668 | nothing without a stash selection or for an index with no file; otherwise selects the index and shows its content or the failure text |
| RendererState.LoadStashFiles | renderer/script.js:508-555 | nothing without a stash selection; success replaces the list and selects the first file when there is one; failure empties the list; an exception leaves it; the first file's content is shown exactly when one is selected; the failure and the exception each append their own notice; selections, repositories and cache are never touched |
| RendererState.SelectRepositoryAndStash | renderer/script.js:295-313 | selects the repository and the stash; a successful listing becomes the file list with file 0 selected exactly when it is non-empty; a failure empties the list; an exception keeps it; in both no file is selected; repositories, cache and flags are kept |
| RendererState.SelectRepository | renderer/script.js:441-468 | selects it, clears stash and file, shows the prompt, and expands it; loads its stashes only when it was collapsed; the repository list and the file list are kept and notices are only appended |
| RendererState.ApplyStashFromTree | renderer/script.js:315-334 | only the notices change, and nothing happens for an unknown id or a declined prompt; otherwise one notice: the answer's message as success, the error or "Failed to apply stash" on failure, "Failed to apply stash" when the call throws |
| RendererState.DropStashFromTree | renderer/script.js:336-367 | after a successful drop, stash and file are cleared only when the dropped stash was the selected one, and the repository's stashes are reloaded; a selected stash with another index is kept; the repository list, the expanded flags and the file list are always kept; a failed drop only notifies |
| RendererState.RefreshRepository | renderer/script.js:369-388 | the entry is reset and refilled only when expanded, other entries are kept, files are kept unless a stash of it is shown, and then become the new listing, or empty on failure; opening and closing notices come first and last |
| RendererState.ReloadExpandedSlots | renderer/script.js:396-401 | the loop changes exactly the cache entries of the expanded, known ids it visits, and only the cache and the notices |
| RendererState.RefreshAllRepositories | renderer/script.js:390-409 | the list, flags and repository and stash selections are kept; without a stash selection the files and details are kept too, and with one the files become the new listing, or empty on failure; the opening notice comes first and the closing notice last |
| RendererState.RefreshAllCache | renderer/script.js:390-409 | afterwards an id has a cache entry exactly when it is expanded and known, holding what was fetched for it; the flags are untouched |
| RendererState.ClearSelection | renderer/script.js:678-699 | repository, stash and file selections end empty and the prompt is shown; the list, cache, flags, files and notices are kept |
| RendererState.RemoveRepository | renderer/script.js:421-439 | the repository leaves the list; the selections are cleared exactly when it was the selected one; cache and flags keep its entries |
| RendererState.LoadRepositories | renderer/script.js:58-69 | the list is replaced, or on failure one notice is added and nothing else changes |
| RendererState.OnRepositoryAdded | renderer/script.js:47-50 | the success notice comes first, then the reloaded list |
| RendererState.AddRepository | renderer/script.js:411-419 | only a failed call changes anything: one error notice |
| Renderer.GitStashElectionApp.constructor | renderer/script.js:2-11 | the fields start empty |
| Renderer.GitStashElectionApp.ShowNotification | renderer/script.js:701-710 | appends the notice and changes no field |
| Renderer.GitStashElectionApp.RenderStashDetails | renderer/script.js:477-506 | the loop builds exactly the rendered details of the content |
| Renderer.GitStashElectionApp.LoadRepositoryStashes | renderer/script.js:268-293 | the fields change as RendererState.LoadStashes says |
| Renderer.GitStashElectionApp.ToggleRepository | renderer/script.js:255-266 | the fields change as RendererState.ToggleRepository says |
| Renderer.GitStashElectionApp.SelectFile | renderer/script.js:628-668 | the fields change as RendererState.SelectFile says |
| Renderer.GitStashElectionApp.LoadStashFiles | renderer/script.js:508-555 | the fields change as RendererState.LoadStashFiles says |
| Renderer.GitStashElectionApp.SelectRepositoryAndStash | renderer/script.js:295-313 | the fields change as RendererState.SelectRepositoryAndStash says |
| Renderer.GitStashElectionApp.SelectRepository | renderer/script.js:441-468 | the fields change as RendererState.SelectRepository says |
| Renderer.GitStashElectionApp.ApplyStashFromTree | renderer/script.js:315-334 | the fields change as RendererState.ApplyStashFromTree says |
| Renderer.GitStashElectionApp.DropStashFromTree | renderer/script.js:336-367 | the fields change as RendererState.DropStashFromTree says |
| Renderer.GitStashElectionApp.RefreshRepository | renderer/script.js:369-388 | the fields change as RendererState.RefreshRepository says |
| Renderer.GitStashElectionApp.RefreshAllRepositories | renderer/script.js:390-409 | the loop over the expanded ids leaves the fields as RendererState.RefreshAllRepositories says |
| Renderer.GitStashElectionApp.ClearSelection | renderer/script.js:678-699 | all three selections are cleared and the prompt is shown |
| Renderer.GitStashElectionApp.RemoveRepository | renderer/script.js:421-439 | the fields change as RendererState.RemoveRepository says |
| Renderer.GitStashElectionApp.LoadRepositories | renderer/script.js:58-69 | the fields change as RendererState.LoadRepositories says |
| Renderer.GitStashElectionApp.OnRepositoryAdded | renderer/script.js:47-50 | the fields change as RendererState.OnRepositoryAdded says |
| Renderer.GitStashElectionApp.AddRepository | renderer/script.js:411-419 | the fields change as RendererState.AddRepository says |
| LegacyClient.StatusText | public/script.js:64-72 | the trimmed status text starts with the branch line |
| LegacyClient.StatusTextTellsCleanliness | public/script.js:71 | the text ends with the clean mark exactly when the tree is clean |
| LegacyClient.RenderStatusAsWritten | public/script.js:56-75 | only a non-empty error is shown; anything else reaches `status.isClean()`, which a parsed body lacks, so rendering throws |
| LegacyClient.LoadStatusAsWritten | public/script.js:45-54 | a network failure shows the failure text; an error body shows its error or the failure text; no other text is ever shown |
| LegacyClient.SummaryNeverShown | public/script.js:71 | whatever summary the server sends, the page shows the failure text |
| LegacyClient.LoadStatus | public/script.js:45-75 | a summary is rendered with its cleanliness taken from its data; a network failure or an empty error shows the failure text; any other error is shown as it is |
| LegacyClient.CardOf | public/script.js:89-97 | a card is titled with the position; it shows the hash's first eight characters or "unknown" for no hash, the message or "No message", and the date or "Unknown date" |
| LegacyClient.Cards | public/script.js:89-98 | one card per stash, in order, each the card of its position |
| LegacyClient.GitStashElection.constructor | public/script.js:2-6 | nothing is selected and no stashes are listed; the buttons, details and status start as the page sets them |
| LegacyClient.GitStashElection.ShowNotification | public/script.js:190-199 | shows the notice and changes nothing else |
| LegacyClient.GitStashElection.LoadStashes | public/script.js:33-43 | a parsed body replaces the list, or empties it when it has none; a network failure keeps it and notifies |
| LegacyClient.GitStashElection.LoadStatusText | public/script.js:45-54 | the status text becomes the corrected load's text |
| LegacyClient.GitStashElection.SelectStash | public/script.js:109-131 | selects the stash, enables the buttons, and shows its content or a fallback |
| LegacyClient.GitStashElection.ApplyStash | public/script.js:138-160 | nothing without confirmation; otherwise the answer's notice, and the status reloads only on success, with the text of the corrected `LoadStatus` |
| LegacyClient.GitStashElection.DropStash | public/script.js:162-188 | on a confirmed success the selection is cleared, the buttons disabled and the list reloaded; otherwise only the notice changes |
| LegacyClient.GitStashElection.OnApplyClick | public/script.js:20-24 | applies exactly when a stash is selected |
| LegacyClient.GitStashElection.OnDropClick | public/script.js:26-30 | drops exactly when a stash is selected |

## Left out

- The Electron bootstrap, window, menus and dialogs (main.js:1-149, 429-456) and the preload bridge. The dialog's choice and git's validation are parameters of `RepositoryList.RepositoryStore.AddRepository`.
- The `get-repo-status` handler (main.js:405-427). It only repackages what git reports. The model takes the working-tree status shape it produces as given.
- Rendering to the DOM, HTML escaping, icons and CSS classes. Views are modelled as data (`StashListView`, `PanelView`, `StatusView`, `Details`, `Card`).
- Timers: the notification auto-clear after three seconds and `requestAnimationFrame` in the resize handle.
- Concurrency between awaited calls. Each handler is modelled as running to completion with the answers it received. `RendererState.RefreshAllRepositories` and the header's refresh take one answer per id or path, so two requests for the same path get the same answer.
- Dates, logging, `console` output and `toLocaleDateString`.
- ResizeHandle: it reads `columns` and calls `setColumnWidth`, which the context (src/context/AppContext.jsx:137-148) does not provide. Only the guard and the clamp are modelled, and widths are whole pixels.
- RepositoryStatus.StatusHook.StashChanges: the preload bridge exposes no `stashChanges`, so the call throws past its guard. That throw is modelled; a stash operation that could succeed is not.
- RepositoryList.BaseName: only `/` separates path components, as `path.basename` does on POSIX systems; on Windows `\` also separates them, and that is not modelled.
- RepositoriesPanel.Initials: upper-casing is ASCII-only; other letters are left as they are.
- FilesPanel.SelectFile: the row hands its processed object (file plus display fields) to `setSelectedFile`; the model selects the underlying changed file, which has the same `filename`.
- The panel's add button only opens the dialog and logs a failure; it has no state effect and is not modelled.
- LegacyClient.GitStashElection.constructor: the initial button state, details text and status text come from the HTML page, so they are parameters.
- The renderer's `refresh-requested` listener calls `refreshCurrentRepository`, which `GitStashElectionApp` in renderer/script.js:53-55 does not define, so the listener throws. It is not modelled.
- After a drop, stashes with higher indexes move down in git but the selected index is not adjusted. The model follows the code and keeps the index.
- StashBackend.GetStashFiles: method 2 can return an empty successful list. The model follows the code rather than promising a non-empty list.
- RendererState.LoadStashFiles: an exception leaves the file list unchanged; only an explicit failure empties it. This follows the code.
- RendererState.OnRepositoryAdded and StashApp.OnRepositoryAdded: the success notice is shown before the reloaded list arrives, because the load is not awaited.

## Findings

| source | as written | input that shows it | evidently intended | confidence | as-written member | corrected member |
|---|---|---|---|---|---|---|
| src/components/RepositoryHeader.jsx:22 | every expanded repository is reloaded from `selectedRepository.path` | repositories `app` (selected) and `lib`, both expanded; after "Refresh All", `lib`'s entry holds `app`'s stashes | each repository is reloaded from its own stored path | not executed | RepositoryHeader.OtherRepositoryGetsSelectedStashes | RepositoryHeader.OwnPathRefillsOwnStashes |
| src/components/GitStashElectionApp.jsx:41-43 | the `refresh-requested` listener is registered once at mount and keeps the first render's closure, whose selection is empty | select a repository and a stash, then ask for a refresh from the menu: no files are reloaded | refresh the files of the current selection | not executed | StashApp.OnRefreshRequestedAsRegistered | StashApp.OnRefreshRequested |
| src/components/RepositoryItem.jsx:67-70 | after removing, the handler only notifies, and the main process (main.js:202-207) sends no message that would reload the list | remove a listed repository and confirm: it stays in the list | take the returned list into the state | not executed | RepositoryItem.RemovedRepositoryStaysListed | RepositoryItem.RemoveEffect |
| public/script.js:71 | `status.isClean()` is called on a parsed JSON body, which has no methods | any status summary from `/api/status`: the page shows "Failed to load repository status" | decide cleanliness from the summary's data | not executed | LegacyClient.SummaryNeverShown | LegacyClient.LoadStatus |
