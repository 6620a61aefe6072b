/** The changed-files panel of the React interface
    (src/components/FilesPanel.jsx): hidden until a stash is selected, a
    header counting the files, and one row per file with its directory and
    last component apart. */
module FilesPanel {
  import opened Text
  import opened Domain
  import opened AppContext

  /** One element of `processedFiles`. */
  datatype ProcessedFile = ProcessedFile(
    file: ChangedFile, path: string, displayName: string, isSelected: bool, key: string, dataId: string)

  /** The directory part and the last component shown together: with the
      separator when there is a directory, else the last component alone. */
  function ShownName(row: ProcessedFile): string {
    if row.path != "" then row.path + "/" + row.displayName else row.displayName
  }

  function Process(file: ChangedFile, index: nat, selectedFile: Option<ChangedFile>): ProcessedFile {
    var (path, name) := SplitPath(file.filename);
    ProcessedFile(file, path, name,
                  selectedFile.Some? && selectedFile.value.filename == file.filename,
                  file.filename + "-" + NatToString(index), "file-item-" + NatToString(index))
  }

  function ProcessFrom(files: seq<ChangedFile>, from: nat, selectedFile: Option<ChangedFile>): (r: seq<ProcessedFile>)
    ensures |r| == |files|
    ensures forall k :: 0 <= k < |r| ==> r[k] == Process(files[k], from + k, selectedFile)
    decreases |files|
  {
    if |files| == 0 then [] else [Process(files[0], from, selectedFile)] + ProcessFrom(files[1..], from + 1, selectedFile)
  }

  /** `processedFiles`: one row per file in order. A row is selected exactly
      when its file name is the selected file's; its shown name is the file
      name (a leading separator alone is not shown); the last component holds
      no separator; keys and element ids carry the position. */
  function ProcessedFiles(files: seq<ChangedFile>, selectedFile: Option<ChangedFile>): (r: seq<ProcessedFile>)
    ensures |r| == |files|
    ensures forall k :: 0 <= k < |r| ==>
      && r[k].file == files[k]
      && (r[k].isSelected <==> selectedFile.Some? && selectedFile.value.filename == files[k].filename)
      && '/' !in r[k].displayName
      && ('/' !in files[k].filename ==> r[k].path == "" && r[k].displayName == files[k].filename)
      && ('/' in files[k].filename ==> r[k].path + "/" + r[k].displayName == files[k].filename)
      && r[k].key == files[k].filename + "-" + NatToString(k)
      && r[k].dataId == "file-item-" + NatToString(k)
  {
    ProcessFrom(files, 0, selectedFile)
  }

  /** A row shows its whole file name unless the name has a leading
      separator and no other. */
  lemma ShownNameIsFilename(files: seq<ChangedFile>, selectedFile: Option<ChangedFile>, k: nat)
    requires k < |files|
    requires ProcessedFiles(files, selectedFile)[k].path != "" || '/' !in files[k].filename
    ensures ShownName(ProcessedFiles(files, selectedFile)[k]) == files[k].filename
  {
  }

  /** No two rows share a key or an element id. */
  lemma RowIdsDistinct(files: seq<ChangedFile>, selectedFile: Option<ChangedFile>, i: nat, j: nat)
    requires i < j < |files|
    ensures ProcessedFiles(files, selectedFile)[i].key != ProcessedFiles(files, selectedFile)[j].key
    ensures ProcessedFiles(files, selectedFile)[i].dataId != ProcessedFiles(files, selectedFile)[j].dataId
  {
    IndexedKeysDistinct(files[i].filename, files[j].filename, i, j);
    NumberedKeysDistinct("file-item-", i, j);
  }

  datatype PanelView = Hidden | EmptyState(count: string) | Listed(count: string, rows: seq<ProcessedFile>)

  /** What the panel renders: nothing unless a repository and a stash are
      selected, then the count and either the empty state or the rows. */
  function Panel(s: State): (v: PanelView)
    ensures v.Hidden? <==> !StashSelected(s)
    ensures v.EmptyState? <==> StashSelected(s) && |s.files| == 0
    ensures !v.Hidden? ==> v.count == Counted(|s.files|, "file")
    ensures v.Listed? ==> v.rows == ProcessedFiles(s.files, s.selectedFile)
  {
    if !StashSelected(s) then Hidden
    else if |s.files| == 0 then EmptyState(Counted(0, "file"))
    else Listed(Counted(|s.files|, "file"), ProcessedFiles(s.files, s.selectedFile))
  }

  /** `selectFile(file)`: one dispatch. */
  method SelectFile(store: AppStore, file: ChangedFile)
    requires store.Valid()
    modifies store
    ensures store.Valid() && store.dispatched == old(store.dispatched) + [SetSelectedFile(Some(file))]
  {
    store.SelectFile(Some(file));
  }

  /** After selecting a file, the rows marked selected are exactly those
      with its name, and the rows are otherwise as before. */
  lemma SelectingMarksRowsWithName(s: State, file: ChangedFile, k: nat)
    requires k < |s.files|
    ensures var r := Replay(s, [SetSelectedFile(Some(file))]);
      && r.files == s.files
      && (ProcessedFiles(r.files, r.selectedFile)[k].isSelected <==> s.files[k].filename == file.filename)
      && ProcessedFiles(r.files, r.selectedFile)[k].key == ProcessedFiles(s.files, s.selectedFile)[k].key
  {
    ReplayOne(s, SetSelectedFile(Some(file)));
  }
}
