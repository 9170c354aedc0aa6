/** `FileCopyApp.process_path` as a decision over the selection, the options
    and what the file system holds, and the selection state that
    `browse_file`, `browse_directory` and `clear_all` change. Dialog results are
    parameters; message boxes and the clipboard become an `Outcome` value. */
module App {
  import opened Wrappers
  import opened PyStr
  import opened PosixPath
  import opened Filter
  import opened Reader
  import opened Collect
  import opened Aggregate

  /** What `os.path.exists` and `os.path.isdir` see at a path: nothing, an
      entry that is not a directory, or a directory with its entries. */
  datatype Lookup = Missing | NotDir | Directory(entries: seq<Node>)

  /** The file system as seen by path, with what reading each path gives. */
  datatype Disk = Disk(lookup: string -> Lookup, read: string -> TextRead)

  /** The values of the option widgets. */
  datatype Options = Options(recursive: bool, showPaths: bool, ignoreText: string, prefix: string, suffix: string)

  /** The option values the window starts with. */
  const Defaults: Options := Options(false, true, "", "```", "```")

  /** What the user sees after "Process and Copy to Clipboard": an error box, an
      info box, or the blob copied with its status line and possibly a
      warning box. */
  datatype Outcome =
    | ShowError(message: string)
    | ShowInfo(message: string)
    | Copied(blob: string, status: string, warning: Option<string>)

  const NoSelection: string := "Please enter or select a file/directory path"
  const NoSuchPath: string := "Path does not exist"
  const BadConfiguration: string := "Invalid path configuration"
  const NothingFound: string := "No files found to process"
  const SomeFailed: string := "Some files could not be processed:\n"
  const AllFailed: string := "No files were processed. Errors:\n"

  /** `os.path.exists`: the empty path never exists. */
  predicate Exists(disk: Disk, path: string) {
    path != "" && !disk.lookup(path).Missing?
  }

  /** `os.path.isdir`. */
  predicate IsDir(disk: Disk, path: string) {
    path != "" && disk.lookup(path).Directory?
  }

  /** `should_ignore_file` with the current ignore text. */
  function Rule(opts: Options): string -> bool {
    p => ShouldIgnore(p, opts.ignoreText)
  }

  function LayoutOf(opts: Options): Layout {
    Layout(opts.prefix, opts.suffix, opts.showPaths)
  }

  /** The label `browse_file` shows for a multiple selection. */
  function CountLabel(n: nat): string {
    "Selected " + NatToString(n) + " files"
  }

  /** The test that takes the path text for that label. */
  predicate LooksLikeLabel(path: string) {
    StartsWith(path, "Selected ") && Contains(path, " files")
  }

  /** The failures, one `path: message` line each. */
  function FailureLines(errors: seq<Failure>): string {
    if errors == [] then ""
    else
      var e := errors[|errors| - 1];
      FailureLines(errors[..|errors| - 1]) + "\n" + e.path + ": " + e.message
  }

  /** The status line after a copy. */
  function CopiedStatus(count: nat): string {
    "Copied " + NatToString(count) + " files to clipboard!"
  }

  /** The end of `process_path`: copy when anything was read, else report. */
  function Report(results: seq<Record>, errors: seq<Failure>, layout: Layout): (o: Outcome)
    ensures o.Copied? <==> results != []
    ensures o.Copied? ==> o.blob == Blob(results, layout) && o.status == CopiedStatus(|results|)
    ensures o.Copied? ==> (o.warning.Some? <==> errors != [])
    ensures o == ShowInfo(NothingFound) <==> results == [] && errors == []
    ensures o.ShowError? <==> results == [] && errors != []
  {
    if results != [] then
      Copied(Blob(results, layout), CopiedStatus(|results|),
             if errors != [] then Some(SomeFailed + FailureLines(errors)) else None)
    else if errors != [] then ShowError(AllFailed + FailureLines(errors))
    else ShowInfo(NothingFound)
  }

  /** What `process_files` reads. */
  function FilesResults(paths: seq<string>, opts: Options, disk: Disk): seq<Record> {
    ReadAll(Kept(paths, Rule(opts)), disk.read)
  }

  /** The directory at `path`, with the entries the file system lists there. */
  function TreeAt(path: string, entries: seq<Node>): Node {
    Dir(path, entries)
  }

  /** What `process_directory` reads from the directory at `path`. */
  function DirectoryResults(path: string, entries: seq<Node>, opts: Options, disk: Disk): seq<Record> {
    ReadAll(Collected(TreeAt(path, entries), path, opts.recursive, Rule(opts)), disk.read)
  }

  /** The dispatch after the list of file paths has been chosen. */
  function Dispatch(path: string, filePaths: seq<string>, opts: Options, disk: Disk): Outcome {
    if filePaths != [] && !IsDir(disk, path) then
      Report(FilesResults(filePaths, opts, disk), [], LayoutOf(opts))
    else if IsDir(disk, path) then
      Report(DirectoryResults(path, disk.lookup(path).entries, opts, disk), [], LayoutOf(opts))
    else ShowError(BadConfiguration)
  }

  /** The first half of `process_path`: stop with an error, or go on with the
      stripped path and the list of file paths to read. */
  datatype Selection = Stop(message: string) | Go(path: string, filePaths: seq<string>)

  /** How `process_path` picks what to read from the path text and the stored
      file selection. */
  function Choose(pathText: string, stored: seq<string>, disk: Disk): (c: Selection)
    ensures c.Stop? ==> c.message == NoSelection || c.message == NoSuchPath
  {
    var path := Strip(pathText);
    if path == "" && stored == [] then Stop(NoSelection)
    else if |stored| > 1 then Go(path, stored)
    else if LooksLikeLabel(path) then Go(path, stored)
    else if !Exists(disk, path) then Stop(NoSuchPath)
    else if IsDir(disk, path) then Go(path, [])
    else Go(path, [path])
  }

  /** `process_path`, from the path text, the stored file selection, the
      options and the file system. */
  function ProcessPathOutcome(pathText: string, stored: seq<string>, opts: Options, disk: Disk): Outcome {
    match Choose(pathText, stored, disk)
    case Stop(message) => ShowError(message)
    case Go(path, filePaths) => Dispatch(path, filePaths, opts, disk)
  }

  /** Reading never raises, so no outcome is a warning or a read-failure error:
      every error box is one of the three path errors. */
  lemma NoReadFailures(pathText: string, stored: seq<string>, opts: Options, disk: Disk)
    ensures var o := ProcessPathOutcome(pathText, stored, opts, disk);
      (o.Copied? ==> o.warning == None) &&
      (o.ShowError? ==> o.message == NoSelection || o.message == NoSuchPath || o.message == BadConfiguration)
  {
    var c := Choose(pathText, stored, disk);
    if c.Go? {
      DispatchNoFailures(c.path, c.filePaths, opts, disk);
    }
  }

  /** The collecting half reports no failure. */
  lemma DispatchNoFailures(path: string, filePaths: seq<string>, opts: Options, disk: Disk)
    ensures var o := Dispatch(path, filePaths, opts, disk);
      (o.Copied? ==> o.warning == None) && (o.ShowError? ==> o.message == BadConfiguration)
  {
  }

  /** An empty (or blank) path with nothing stored is the no-selection error. */
  lemma BlankPathNoSelection(pathText: string, opts: Options, disk: Disk)
    requires forall k :: 0 <= k < |pathText| ==> IsSpace(pathText[k])
    ensures ProcessPathOutcome(pathText, [], opts, disk) == ShowError(NoSelection)
  {
  }

  /** A single typed path that does not exist is the invalid-path error. */
  lemma MissingPath(pathText: string, opts: Options, disk: Disk)
    requires Strip(pathText) != "" && !LooksLikeLabel(Strip(pathText)) && !Exists(disk, Strip(pathText))
    ensures ProcessPathOutcome(pathText, [], opts, disk) == ShowError(NoSuchPath)
  {
  }

  /** With one stored file and the path text erased, the stored file is not
      used: the empty path does not exist. */
  lemma ErasedSingleSelection(pathText: string, file: string, opts: Options, disk: Disk)
    requires Strip(pathText) == ""
    ensures ProcessPathOutcome(pathText, [file], opts, disk) == ShowError(NoSuchPath)
  {
    assert !StartsWith("", "Selected ");
  }

  /** A typed path shaped like the multi-file label, with nothing stored and no
      directory of that name, ends in the "should never reach here" error. */
  lemma TypedLabelNothingStored(pathText: string, opts: Options, disk: Disk)
    requires LooksLikeLabel(Strip(pathText)) && !IsDir(disk, Strip(pathText))
    ensures ProcessPathOutcome(pathText, [], opts, disk) == ShowError(BadConfiguration)
  {
    assert Choose(pathText, [], disk) == Go(Strip(pathText), []);
  }

  /** An existing file path is copied on its own, unless it is ignored. */
  lemma SingleFile(pathText: string, opts: Options, disk: Disk)
    requires var path := Strip(pathText);
      path != "" && !LooksLikeLabel(path) && Exists(disk, path) && !IsDir(disk, path)
    ensures var path := Strip(pathText);
      var o := ProcessPathOutcome(pathText, [], opts, disk);
      if ShouldIgnore(path, opts.ignoreText) then o == ShowInfo(NothingFound)
      else o == Copied(Blob([Record(path, ReadFile(disk.read(path)))], LayoutOf(opts)), CopiedStatus(1), None)
  {
    var path := Strip(pathText);
    assert Choose(pathText, [], disk) == Go(path, [path]);
    SingleRead(path, opts, disk);
  }

  /** Reading a one-path selection. */
  lemma SingleRead(path: string, opts: Options, disk: Disk)
    ensures FilesResults([path], opts, disk) ==
      if ShouldIgnore(path, opts.ignoreText) then [] else [Record(path, ReadFile(disk.read(path)))]
  {
    KeptOne(path, Rule(opts));
  }

  lemma KeptOne(path: string, ignored: string -> bool)
    ensures Kept([path], ignored) == if ignored(path) then [] else [path]
  {
    assert [path][..0] == [];
  }

  /** A path naming a directory is collected as a directory, whatever is
      stored, even when it looks like the multi-file label. */
  lemma DirectoryWins(pathText: string, stored: seq<string>, opts: Options, disk: Disk)
    requires IsDir(disk, Strip(pathText))
    ensures ProcessPathOutcome(pathText, stored, opts, disk) ==
      Report(DirectoryResults(Strip(pathText), disk.lookup(Strip(pathText)).entries, opts, disk), [], LayoutOf(opts))
  {
    ChooseDirectory(pathText, stored, disk);
    var c := Choose(pathText, stored, disk);
    DispatchDirectory(c.path, c.filePaths, opts, disk);
  }

  lemma ChooseDirectory(pathText: string, stored: seq<string>, disk: Disk)
    requires IsDir(disk, Strip(pathText))
    ensures Choose(pathText, stored, disk).Go? && Choose(pathText, stored, disk).path == Strip(pathText)
  {
  }

  lemma DispatchDirectory(path: string, filePaths: seq<string>, opts: Options, disk: Disk)
    requires IsDir(disk, path)
    ensures Dispatch(path, filePaths, opts, disk) ==
      Report(DirectoryResults(path, disk.lookup(path).entries, opts, disk), [], LayoutOf(opts))
  {
  }

  /** With several stored files and a path text that is not a directory, the
      stored files are collected and the path text is not looked at. */
  lemma StoredSelectionWins(pathText: string, stored: seq<string>, opts: Options, disk: Disk)
    requires |stored| > 1 && !IsDir(disk, Strip(pathText))
    ensures ProcessPathOutcome(pathText, stored, opts, disk) == Report(FilesResults(stored, opts, disk), [], LayoutOf(opts))
  {
  }

  /** The multi-file label is its own strip and passes the label test. */
  lemma CountLabelShape(n: nat)
    ensures Strip(CountLabel(n)) == CountLabel(n)
    ensures LooksLikeLabel(CountLabel(n))
  {
    var l := CountLabel(n);
    var digits := NatToString(n);
    assert l == "Selected " + digits + " files";
    assert l[..9] == "Selected ";
    assert l[9 + |digits|..9 + |digits| + 6] == " files";
    ContainsAt(l, " files", 9 + |digits|);
    assert l[0] == 'S' && l[|l| - 1] == 's';
    StripStripped(l);
  }

  /** A path is copied only if it is not ignored; in particular no `.DS_Store`
      is ever copied from a file selection. */
  lemma FilesResultsNotIgnored(paths: seq<string>, opts: Options, disk: Disk, i: int)
    requires 0 <= i < |FilesResults(paths, opts, disk)|
    ensures var p := FilesResults(paths, opts, disk)[i].path;
      p in paths && !ShouldIgnore(p, opts.ignoreText) && Basename(p) != AlwaysIgnored
  {
    var kept := Kept(paths, Rule(opts));
    KeptMembers(paths, Rule(opts));
    assert FilesResults(paths, opts, disk)[i].path == kept[i];
    assert kept[i] in kept;
    IgnoredIff(kept[i], opts.ignoreText);
  }

  /** The same for a directory: nothing ignored (no `.DS_Store` in particular)
      is read, in either mode. */
  lemma DirectoryResultsNotIgnored(path: string, entries: seq<Node>, opts: Options, disk: Disk, i: int)
    requires 0 <= i < |DirectoryResults(path, entries, opts, disk)|
    ensures var p := DirectoryResults(path, entries, opts, disk)[i].path;
      !ShouldIgnore(p, opts.ignoreText) && Basename(p) != AlwaysIgnored
  {
    var found := Collected(TreeAt(path, entries), path, opts.recursive, Rule(opts));
    var p := found[i];
    assert DirectoryResults(path, entries, opts, disk)[i].path == p;
    assert p in found;
    if opts.recursive {
      WalkNotIgnored(TreeAt(path, entries), path, Rule(opts), p);
    } else {
      ListingMembers(entries, path, Rule(opts), p);
    }
    IgnoredIff(p, opts.ignoreText);
  }

  /** The selection state of the window: the path text and the stored file
      selection. */
  class FileCopyApp {
    var pathText: string
    var filePaths: seq<string>

    /** The window starts with an empty path and nothing selected. */
    constructor()
      ensures pathText == "" && filePaths == []
    {
      pathText := "";
      filePaths := [];
    }

    /** Typing into the path entry: the stored selection is kept. */
    method SetPathText(text: string)
      modifies this
      ensures pathText == text && filePaths == old(filePaths)
    {
      pathText := text;
    }

    /** `browse_file` with the files the dialog returned (none when cancelled). */
    method BrowseFile(chosen: seq<string>)
      modifies this
      ensures chosen == [] ==> pathText == old(pathText) && filePaths == old(filePaths)
      ensures chosen != [] ==> filePaths == chosen
      ensures |chosen| == 1 ==> pathText == chosen[0]
      ensures |chosen| > 1 ==> pathText == CountLabel(|chosen|)
    {
      if chosen != [] {
        filePaths := chosen;
        if |chosen| == 1 {
          pathText := chosen[0];
        } else {
          pathText := CountLabel(|chosen|);
        }
      }
    }

    /** `browse_directory` with the directory the dialog returned (`""` when
      cancelled): the stored files are dropped. */
    method BrowseDirectory(chosen: string)
      modifies this
      ensures chosen == "" ==> pathText == old(pathText) && filePaths == old(filePaths)
      ensures chosen != "" ==> pathText == chosen && filePaths == []
    {
      if chosen != "" {
        filePaths := [];
        pathText := chosen;
      }
    }

    /** `clear_all`. */
    method ClearAll()
      modifies this
      ensures pathText == "" && filePaths == []
    {
      pathText := "";
      filePaths := [];
    }

    /** `process_path`: chooses the paths, collects and reads them, builds the
      blob and reports. The state is not changed. */
    method ProcessPath(opts: Options, disk: Disk) returns (o: Outcome)
      ensures o == ProcessPathOutcome(pathText, filePaths, opts, disk)
    {
      var c := Choose(pathText, filePaths, disk);
      match c
      case Stop(message) => o := ShowError(message);
      case Go(path, chosen) => o := DispatchPaths(path, chosen, opts, disk);
    }
  }

  /** The collecting half of `process_path`. */
  method DispatchPaths(path: string, filePaths: seq<string>, opts: Options, disk: Disk) returns (o: Outcome)
    ensures o == Dispatch(path, filePaths, opts, disk)
  {
    var results: seq<Record>;
    var errors: seq<Failure>;
    if filePaths != [] && !IsDir(disk, path) {
      results, errors := ProcessFiles(filePaths, Rule(opts), disk.read);
    } else if IsDir(disk, path) {
      results, errors := ProcessDirectory(TreeAt(path, disk.lookup(path).entries), path, opts.recursive, Rule(opts), disk.read);
    } else {
      return ShowError(BadConfiguration);
    }
    o := Finish(results, errors, LayoutOf(opts));
  }

  /** The reporting half of `process_path`. */
  method Finish(results: seq<Record>, errors: seq<Failure>, layout: Layout) returns (o: Outcome)
    ensures o == Report(results, errors, layout)
  {
    if results != [] {
      var all := BuildBlob(results, layout);
      var warning: Option<string> := None;
      if errors != [] {
        warning := Some(SomeFailed + FailureLines(errors));
      }
      o := Copied(all, CopiedStatus(|results|), warning);
    } else if errors != [] {
      o := ShowError(AllFailed + FailureLines(errors));
    } else {
      o := ShowInfo(NothingFound);
    }
  }

  /** With the options the window starts with, a file `hello` is copied under
      its path and a blank line, fenced by triple backquotes. */
  lemma DefaultsSection(path: string)
    ensures Blob([Record(path, "hello")], LayoutOf(Defaults)) == path + "\n\n```\nhello\n```\n\n"
  {
    assert [Record(path, "hello")][..0] == [];
  }

  /** After `clear_all`, processing is the no-selection error. */
  lemma ClearedNoSelection(opts: Options, disk: Disk)
    ensures ProcessPathOutcome("", [], opts, disk) == ShowError(NoSelection)
  {
  }

  /** After `browse_file` picked several files, processing collects exactly
      those files (unless a directory happens to carry the label's name). */
  lemma MultiSelection(chosen: seq<string>, opts: Options, disk: Disk)
    requires |chosen| > 1 && !IsDir(disk, CountLabel(|chosen|))
    ensures ProcessPathOutcome(CountLabel(|chosen|), chosen, opts, disk) ==
      Report(FilesResults(chosen, opts, disk), [], LayoutOf(opts))
  {
    CountLabelShape(|chosen|);
    StoredSelectionWins(CountLabel(|chosen|), chosen, opts, disk);
  }
}
