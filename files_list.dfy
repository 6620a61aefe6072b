/** The stand-alone file list (src/components/FilesList.jsx): its rows, and
    its select handler, which selects the file first and then asks for its
    content only to report a failure. */
module FilesList {
  import opened Domain
  import Text
  import opened AppContext
  import FilesPanel

  datatype ListView = EmptyList | Rows(rows: seq<FilesPanel.ProcessedFile>)

  /** The list renders the empty state for no files and otherwise the same
      rows as the files panel: directory, last component, position-based key
      and element id, and the highlight for the file with the selected name. */
  function View(files: seq<ChangedFile>, selectedFile: Option<ChangedFile>): (v: ListView)
    ensures v.EmptyList? <==> |files| == 0
    ensures v.Rows? ==> v.rows == FilesPanel.ProcessedFiles(files, selectedFile)
    ensures v.Rows? ==> |v.rows| == |files|
    ensures v.Rows? ==> forall k :: 0 <= k < |files| ==>
      && v.rows[k].file == files[k]
      && (v.rows[k].isSelected <==> selectedFile.Some? && selectedFile.value.filename == files[k].filename)
      && v.rows[k].dataId == "file-item-" + Text.NatToString(k)
  {
    if |files| == 0 then EmptyList else Rows(FilesPanel.ProcessedFiles(files, selectedFile))
  }

  /** The notice shown after selecting, if any: none when the content was
      fetched, the error when the main process reported one, and the plain
      message when the call threw, as it does when no repository is
      selected. */
  function ContentNotice(s: State, reply: Reply<string>): seq<Action> {
    if s.selectedRepository.None? then [NotificationAction("Failed to load file content", Some("error"))]
    else match reply
      case Success(_) => []
      case Failure(e) => [NotificationAction("Failed to load file content: " + e, Some("error"))]
      case Thrown(_) => [NotificationAction("Failed to load file content", Some("error"))]
  }

  function SelectFileActions(s: State, file: ChangedFile, reply: Reply<string>): seq<Action> {
    [SetSelectedFile(Some(file))] + ContentNotice(s, reply)
  }

  /** Selecting always leaves the file selected, even when its content could
      not be loaded; the content itself is not kept, and only a failure
      changes the notification. */
  lemma SelectFileEffect(s: State, file: ChangedFile, reply: Reply<string>)
    ensures var r := Replay(s, SelectFileActions(s, file, reply));
      && r.selectedFile == Some(file)
      && r.files == s.files && r.selectedRepository == s.selectedRepository && r.selectedStash == s.selectedStash
      && r.repositoryStashes == s.repositoryStashes
      && (if s.selectedRepository.Some? && reply.Success? then r.notification == s.notification
          else r.notification.Some? && r.notification.value.kind == "error")
  {
    var select := SetSelectedFile(Some(file));
    var notice := ContentNotice(s, reply);
    ReplayConcat(s, [select], notice);
    ReplayOne(s, select);
    if notice != [] {
      ReplayOne(Reduce(s, select), notice[0]);
    }
  }

  /** `selectFile(file)`, with the closure of the store's current state. */
  method SelectFile(store: AppStore, file: ChangedFile, reply: Reply<string>)
    requires store.Valid()
    modifies store
    ensures store.Valid()
    ensures store.dispatched == old(store.dispatched) + SelectFileActions(old(store.state), file, reply)
  {
    var hasRepository := store.state.selectedRepository.Some?;
    store.SelectFile(Some(file));
    if !hasRepository {
      store.ShowNotification("Failed to load file content", Some("error"));
      return;
    }
    match reply {
      case Success(_) =>
      case Failure(e) => store.ShowNotification("Failed to load file content: " + e, Some("error"));
      case Thrown(_) => store.ShowNotification("Failed to load file content", Some("error"));
    }
  }
}
