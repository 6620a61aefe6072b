/** The main process's IPC handlers that inspect and change stashes
    (main.js). Every git invocation is a parameter: the value it resolves
    with or the message it rejects with. `clientError` is the error thrown
    while creating the git client for the repository path, which every
    handler's outer `catch` turns into `{success: false, error}`. */
module StashBackend {
  import opened Text
  import opened Seqs
  import opened Domain

  // ---------------------------------------------------------------------
  // Stash references and the apply/drop messages

  /** `stash@{n}`. */
  function StashRef(index: nat): (r: string)
    ensures |r| > 8 && r[..7] == "stash@{" && r[|r| - 1] == '}' && IsDigits(r[7..|r| - 1])
  {
    "stash@{" + NatToString(index) + "}"
  }

  /** Reads a `stash@{n}` reference back to its index. */
  function ParseStashRef(s: string): Option<nat> {
    var prefix := "stash@{";
    if |s| > |prefix| && s[..|prefix|] == prefix && s[|s| - 1] == '}' && IsDigits(s[|prefix|..|s| - 1])
    then Some(ParseDigits(s[|prefix|..|s| - 1]))
    else None
  }

  /** Every stash reference the handlers build names the index it was built
      from. */
  lemma StashRefRoundTrip(index: nat)
    ensures ParseStashRef(StashRef(index)) == Some(index)
  {
    var s := StashRef(index);
    assert s[..7] == "stash@{";
    assert s[7..|s| - 1] == NatToString(index);
    ParseNatToString(index);
  }

  /** `apply-stash`: `Applied stash@{n}` on success, git's message otherwise. */
  function ApplyStash(clientError: Option<string>, applied: GitResult<()>, index: nat): (r: Reply<string>)
    ensures r.Success? <==> clientError.None? && applied.Done?
    ensures r.Success? ==> r.value == "Applied " + StashRef(index)
    ensures r.Failure? ==> r.error == (if clientError.Some? then clientError.value else applied.message)
    ensures !r.Thrown?
  {
    if clientError.Some? then Failure(clientError.value)
    else if applied.Rejected? then Failure(applied.message)
    else Success("Applied " + StashRef(index))
  }

  /** `drop-stash`: `Dropped stash@{n}` on success, git's message otherwise. */
  function DropStash(clientError: Option<string>, dropped: GitResult<()>, index: nat): (r: Reply<string>)
    ensures r.Success? <==> clientError.None? && dropped.Done?
    ensures r.Success? ==> r.value == "Dropped " + StashRef(index)
    ensures r.Failure? ==> r.error == (if clientError.Some? then clientError.value else dropped.message)
    ensures !r.Thrown?
  {
    if clientError.Some? then Failure(clientError.value)
    else if dropped.Rejected? then Failure(dropped.message)
    else Success("Dropped " + StashRef(index))
  }

  /** `get-stashes`: the stash list in the order git reports it. */
  function GetStashes(clientError: Option<string>, listed: GitResult<seq<Stash>>): (r: Reply<seq<Stash>>)
    ensures r.Success? <==> clientError.None? && listed.Done?
    ensures r.Success? ==> r.value == listed.value
    ensures clientError.Some? ==> r == Failure(clientError.value)
    ensures clientError.None? && listed.Rejected? ==> r == Failure(listed.message)
    ensures !r.Thrown?
  {
    if clientError.Some? then Failure(clientError.value)
    else if listed.Rejected? then Failure(listed.message)
    else Success(listed.value)
  }

  /** `get-stash-content`: the whole patch of a stash, as git prints it. */
  function GetStashContent(clientError: Option<string>, patch: GitOutput): (r: Reply<string>)
    ensures r.Success? <==> clientError.None? && patch.Done?
    ensures r.Success? ==> r.value == patch.value
    ensures clientError.Some? ==> r == Failure(clientError.value)
    ensures clientError.None? && patch.Rejected? ==> r == Failure(patch.message)
    ensures !r.Thrown?
  {
    if clientError.Some? then Failure(clientError.value)
    else if patch.Rejected? then Failure(patch.message)
    else Success(patch.value)
  }

  // ---------------------------------------------------------------------
  // Method 1 of `get-stash-files`: `git stash show --name-status`

  /** The change kind of a name-status code; anything unrecognised counts as
      a modification. */
  function ClassifyNameStatus(code: string): (k: FileStatus)
    ensures k == Added <==> StartsWith(code, "A")
    ensures k == Deleted <==> StartsWith(code, "D")
    ensures k == Renamed <==> StartsWith(code, "R")
    ensures k == Modified <==> !StartsWith(code, "A") && !StartsWith(code, "D") && !StartsWith(code, "R")
  {
    if StartsWith(code, "A") then Added
    else if StartsWith(code, "D") then Deleted
    else if StartsWith(code, "M") then Modified
    else if StartsWith(code, "R") then Renamed
    else Modified
  }

  /** One line of name-status output: the first tab field is the code, the
      second the file name, or the whole trimmed line when there is no second
      field. */
  function ParseNameStatusLine(line: string): (f: ChangedFile)
    ensures f.status == ClassifyNameStatus(f.rawStatus)
    ensures '\t' !in f.rawStatus && '\t' !in f.filename
  {
    var parts := Split(Trim(line), '\t');
    var code := parts[0];
    var filename := if |parts| > 1 && parts[1] != "" then parts[1] else parts[0];
    ChangedFile(filename, ClassifyNameStatus(code), code)
  }

  /** `code<TAB>path` yields the path, the code's change kind and the code
      itself; a rename line `code<TAB>old<TAB>new` reports the old path. */
  lemma NameStatusLineFields(code: string, path: string, rest: string)
    requires code != [] && !IsSpace(code[0]) && '\t' !in code
    requires path != [] && '\t' !in path
    requires rest == [] || (rest[0] == '\t' && !IsSpace(rest[|rest| - 1]))
    requires rest == [] ==> !IsSpace(path[|path| - 1])
    ensures ParseNameStatusLine(code + "\t" + path + rest) ==
      ChangedFile(path, ClassifyNameStatus(code), code)
  {
    var line := code + "\t" + path + rest;
    assert line[0] == code[0];
    assert line[|line| - 1] == if rest == [] then path[|path| - 1] else rest[|rest| - 1];
    TrimIdentity(line);
    SplitNoSeparator(code, '\t');
    assert line == code + ['\t'] + (path + rest);
    SplitConcat(code, path + rest, '\t');
    FirstPieceBeforeSeparator(path, rest);
  }

  /** The first piece of `a + b` is `a` when `a` has no separator and `b` is
      empty or starts with one. */
  lemma {:induction false} FirstPieceBeforeSeparator(a: string, b: string)
    requires '\t' !in a
    requires b == [] || b[0] == '\t'
    ensures Split(a + b, '\t')[0] == a
  {
    if |a| > 0 {
      assert (a + b)[1..] == a[1..] + b;
      FirstPieceBeforeSeparator(a[1..], b);
      assert a == [a[0]] + a[1..];
    } else {
      assert a + b == b;
    }
  }

  /** A line without a tab names its file by the whole trimmed line, which is
      also its code. */
  lemma NameStatusLineWithoutTab(line: string)
    requires '\t' !in Trim(line)
    ensures ParseNameStatusLine(line) ==
      ChangedFile(Trim(line), ClassifyNameStatus(Trim(line)), Trim(line))
  {
    SplitNoSeparator(Trim(line), '\t');
  }

  /** The lines that survive `.filter(line => line.trim())`. */
  predicate NonBlankLine(line: string) {
    Trim(line) != ""
  }

  /** Method 1's parse: one entry per non-blank line, in order. */
  function ParseNameStatus(output: string): (r: seq<ChangedFile>)
    ensures |r| <= |Split(output, '\n')|
    ensures forall f :: f in r ==>
      exists line :: line in Split(output, '\n') && NonBlankLine(line) && f == ParseNameStatusLine(line)
    ensures forall line :: line in Split(output, '\n') && NonBlankLine(line) ==> ParseNameStatusLine(line) in r
  {
    var kept := Filter(Split(output, '\n'), NonBlankLine);
    var r := Map(kept, ParseNameStatusLine);
    forall f | f in r
      ensures exists line :: line in Split(output, '\n') && NonBlankLine(line) && f == ParseNameStatusLine(line)
    {
      var i :| 0 <= i < |r| && r[i] == f;
      assert kept[i] in kept;
    }
    forall line | line in Split(output, '\n') && NonBlankLine(line) ensures ParseNameStatusLine(line) in r {
      var i :| 0 <= i < |kept| && kept[i] == line;
      assert r[i] == ParseNameStatusLine(line);
    }
    r
  }

  /** Parsing two chunks of output joined by a newline parses each chunk. */
  lemma ParseNameStatusConcat(a: string, b: string)
    ensures ParseNameStatus(a + "\n" + b) == ParseNameStatus(a) + ParseNameStatus(b)
  {
    SplitConcat(a, b, '\n');
    FilterConcat(Split(a, '\n'), Split(b, '\n'), NonBlankLine);
    MapConcat(Filter(Split(a, '\n'), NonBlankLine), Filter(Split(b, '\n'), NonBlankLine), ParseNameStatusLine);
  }

  /** A single line yields no entry when blank and exactly its own entry
      otherwise. */
  lemma ParseNameStatusLineAlone(line: string)
    requires '\n' !in line
    ensures ParseNameStatus(line) == if IsBlank(line) then [] else [ParseNameStatusLine(line)]
  {
    SplitNoSeparator(line, '\n');
    TrimEmptyIffBlank(line);
  }

  /** Output that is not blank has at least one non-blank line, so method 1
      never succeeds with an empty list. */
  lemma ParseNameStatusNonEmpty(output: string)
    requires !IsBlank(output)
    ensures |ParseNameStatus(output)| >= 1
  {
    var lines := Split(output, '\n');
    if Filter(lines, NonBlankLine) == [] {
      forall i | 0 <= i < |lines| ensures IsBlank(lines[i]) {
        assert lines[i] in lines;
        TrimEmptyIffBlank(lines[i]);
      }
      JoinBlank(lines, '\n');
      JoinSplit(output, '\n');
    }
  }

  /** Joining blank pieces with a whitespace separator gives a blank string. */
  lemma {:induction false} JoinBlank(parts: seq<string>, sep: char)
    requires IsSpace(sep)
    requires forall i :: 0 <= i < |parts| ==> IsBlank(parts[i])
    ensures IsBlank(Join(parts, sep))
  {
    if |parts| > 1 {
      JoinBlank(parts[1..], sep);
      var j := Join(parts[1..], sep);
      var s := parts[0] + [sep] + j;
      forall i | 0 <= i < |s| ensures IsSpace(s[i]) {
        if i < |parts[0]| {
        } else if i > |parts[0]| {
          assert s[i] == j[i - |parts[0]| - 1];
        }
      }
    }
  }

  // ---------------------------------------------------------------------
  // Method 2 of `get-stash-files`: `git show --name-only`

  /** A line of `git show --name-only` output is kept when, untrimmed, it is
      not blank, does not start with `commit`, `Author` or `Date`, and
      contains a dot. */
  predicate KeepsNameOnlyLine(line: string) {
    && Trim(line) != ""
    && !StartsWith(line, "commit")
    && !StartsWith(line, "Author")
    && !StartsWith(line, "Date")
    && '.' in line
  }

  /** A kept line becomes a modified file named by the trimmed line. */
  function NameOnlyEntry(line: string): ChangedFile {
    ChangedFile(Trim(line), Modified, "M")
  }

  /** Method 2's lossy filter: every kept line, in order, as a modification
      with raw status `M`. */
  function FilterNameOnly(output: string): (r: seq<ChangedFile>)
    ensures |r| <= |Split(output, '\n')|
    ensures forall i :: 0 <= i < |r| ==> r[i].status == Modified && r[i].rawStatus == "M"
  {
    Map(Filter(Split(output, '\n'), KeepsNameOnlyLine), NameOnlyEntry)
  }

  /** Filtering two chunks of output joined by a newline filters each chunk. */
  lemma FilterNameOnlyConcat(a: string, b: string)
    ensures FilterNameOnly(a + "\n" + b) == FilterNameOnly(a) + FilterNameOnly(b)
  {
    SplitConcat(a, b, '\n');
    FilterConcat(Split(a, '\n'), Split(b, '\n'), KeepsNameOnlyLine);
    MapConcat(Filter(Split(a, '\n'), KeepsNameOnlyLine), Filter(Split(b, '\n'), KeepsNameOnlyLine), NameOnlyEntry);
  }

  /** A kept line yields exactly its trimmed self. */
  lemma FilterNameOnlyKeepsLine(line: string)
    requires '\n' !in line && KeepsNameOnlyLine(line)
    ensures FilterNameOnly(line) == [ChangedFile(Trim(line), Modified, "M")]
  {
    SplitNoSeparator(line, '\n');
  }

  /** Commit header lines and names without a dot are dropped, so the filter
      can produce nothing at all. */
  lemma FilterNameOnlyDropsLine(line: string)
    requires '\n' !in line
    requires StartsWith(line, "commit") || StartsWith(line, "Author") || StartsWith(line, "Date") || '.' !in line
    ensures FilterNameOnly(line) == []
  {
    SplitNoSeparator(line, '\n');
  }

  // ---------------------------------------------------------------------
  // `get-stash-files`

  /** The entry returned when neither listing method works. */
  const Placeholder: ChangedFile := ChangedFile("sample-file.txt", Modified, "M")

  /** Method 1 is used only when git answered with non-blank output. */
  predicate Usable(o: GitOutput) {
    o.Done? && Trim(o.value) != ""
  }

  /** `get-stash-files`: name-status, then name-only, then the placeholder.
      Only the client's own failure is reported as an error. */
  function GetStashFiles(clientError: Option<string>, nameStatus: GitOutput, nameOnly: GitOutput): (r: Reply<seq<ChangedFile>>)
    ensures clientError.Some? ==> r == Failure(clientError.value)
    ensures clientError.None? ==> r.Success?
    ensures r.Success? && Usable(nameStatus) ==> r.value == ParseNameStatus(nameStatus.value) && |r.value| >= 1
    ensures r.Success? && !Usable(nameStatus) && nameOnly.Done? ==> r.value == FilterNameOnly(nameOnly.value)
    ensures r.Success? && !Usable(nameStatus) && nameOnly.Rejected? ==> r.value == [Placeholder]
  {
    if clientError.Some? then Failure(clientError.value)
    else if Usable(nameStatus) then
      TrimEmptyIffBlank(nameStatus.value);
      ParseNameStatusNonEmpty(nameStatus.value);
      Success(ParseNameStatus(nameStatus.value))
    else if nameOnly.Done? then Success(FilterNameOnly(nameOnly.value))
    else Success([Placeholder])
  }

  /** Unlike method 1, method 2 can succeed with no files: a stash whose
      `git show --name-only` output is all header lines lists nothing. */
  lemma GetStashFilesCanBeEmpty(header: string)
    requires '\n' !in header && StartsWith(header, "commit")
    ensures GetStashFiles(None, Rejected("empty"), Done(header)) == Success([])
  {
    FilterNameOnlyDropsLine(header);
  }

  // ---------------------------------------------------------------------
  // `get-stash-file-content`

  const NoMethodError: string := "Unable to load file content with any method"

  /** `stashInfo.trim().split('\n')[0]`: the first line of the trimmed
      output of the hash query. */
  function FirstLine(s: string): (h: string)
    ensures '\n' !in h
  {
    Split(Trim(s), '\n')[0]
  }

  /** Method 2 runs `show` only for a non-empty hash, and wins when that
      output is non-blank. */
  predicate ByHashUsable(hashList: GitOutput, showByHash: string -> GitOutput) {
    hashList.Done? && FirstLine(hashList.value) != "" && Usable(showByHash(FirstLine(hashList.value)))
  }

  /** Method 3's full file content, wrapped so that it cannot be taken for a
      diff. */
  function BlobContent(filename: string, content: string): string {
    "File: " + filename + "\n" + "\n" + BlobMarker + "\n" + content
  }

  const BlobMarker: string := "--- File content from stash ---"

  /** The wrapped content shows the header lines, then the file's own lines. */
  lemma BlobContentLines(filename: string, content: string)
    requires '\n' !in filename
    ensures Split(BlobContent(filename, content), '\n') ==
      ["File: " + filename, "", BlobMarker] + Split(content, '\n')
  {
    var tail := BlobMarker + "\n" + content;
    var mid := "" + "\n" + tail;
    BlobContentShape(filename, content);
    SplitLine("File: " + filename, mid);
    SplitLine("", tail);
    SplitLine(BlobMarker, content);
  }

  /** The wrapped content as three line breaks between its parts. */
  lemma BlobContentShape(filename: string, content: string)
    ensures BlobContent(filename, content) == ("File: " + filename) + "\n" + ("" + "\n" + (BlobMarker + "\n" + content))
  {
  }

  /** A line without a line break, then a line break: the line is the first
      piece. */
  lemma SplitLine(line: string, rest: string)
    requires '\n' !in line
    ensures Split(line + "\n" + rest, '\n') == [line] + Split(rest, '\n')
  {
    SplitNoSeparator(line, '\n');
    SplitConcat(line, rest, '\n');
  }

  /** `get-stash-file-content`: range diff, then show by hash, then the
      wrapped blob; the first non-blank output wins. */
  function GetStashFileContent(
    clientError: Option<string>, diff: GitOutput, hashList: GitOutput,
    showByHash: string -> GitOutput, blob: GitOutput, filename: string): (r: Reply<string>)
    ensures clientError.Some? ==> r == Failure(clientError.value)
    ensures r.Success? ==> !IsBlank(r.value)
    ensures clientError.None? ==>
      (r.Failure? <==> !Usable(diff) && !ByHashUsable(hashList, showByHash) && !Usable(blob))
    ensures r.Failure? && clientError.None? ==> r.error == NoMethodError
    ensures r.Success? && Usable(diff) ==> r.value == diff.value
    ensures r.Success? && !Usable(diff) && ByHashUsable(hashList, showByHash) ==>
      r.value == showByHash(FirstLine(hashList.value)).value
    ensures r.Success? && !Usable(diff) && !ByHashUsable(hashList, showByHash) ==>
      r.value == BlobContent(filename, blob.value)
    ensures !r.Thrown?
  {
    if clientError.Some? then Failure(clientError.value)
    else if Usable(diff) then
      TrimEmptyIffBlank(diff.value);
      Success(diff.value)
    else if ByHashUsable(hashList, showByHash) then
      TrimEmptyIffBlank(showByHash(FirstLine(hashList.value)).value);
      Success(showByHash(FirstLine(hashList.value)).value)
    else if Usable(blob) then
      assert !IsSpace(BlobContent(filename, blob.value)[0]);
      Success(BlobContent(filename, blob.value))
    else Failure(NoMethodError)
  }
}
