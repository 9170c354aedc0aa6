# File copier, modelled in Dafny

The file copier is a small desktop tool. The user picks one file, several files
or a directory. The tool reads the chosen files, wraps each one in delimiter
lines (optionally after its path) and copies the result to the clipboard.
Files can be ignored by extension, and `.DS_Store` is always ignored.

This project models the core of `FileCopyApp` in `app.py`:

- the ignore rule (`should_ignore_file`);
- the text that stands for a file (`read_file`);
- how files are collected from a selection (`process_files`) or from a
  directory (`process_directory`): a flat listing, or an `os.walk` that prunes
  `.git`, `.svn`, `.hg`, `__pycache__` and `node_modules`;
- the loop that builds the copied text;
- the decision `process_path` takes;
- the selection state changed by the browse buttons and "Clear".

Modules:

- `PyStr`: the Python `str` operations the code uses (`strip`, `split(',')`,
  `startswith`, `in`, `lower`, and `str(n)` inside f-strings), plus `rfind`,
  which `basename` and `splitext` use internally.
- `PosixPath`: `os.path.join`, `basename` and `splitext`.
- `Filter`: `should_ignore_file`.
- `Reader`: `read_file`. What opening and reading a file does is given as a
  value.
- `Collect`: collecting and reading. The file system is a tree of `Node`s. The
  ignore decision is a parameter `ignored: string -> bool`, and `App` passes
  `Filter.ShouldIgnore` with the current ignore text. The walk is written as
  the loop it is (`Collect.WalkDirectory`, `Collect.PruneDirs`). It is proved
  equal to a recursive specification (`Collect.Walk`). That specification is
  characterised as a set: the non-ignored files reachable through non-pruned
  subdirectories.
- `Aggregate`: the text copied to the clipboard.
- `App`: `process_path` as a function of the path text, the stored selection,
  the options and the file system, returning an `Outcome`. The class
  `FileCopyApp` holds `pathText` (the path entry) and `filePaths`.

The file system's answers come in as values: a path lookup
(`Lookup = Missing | NotDir | Directory(entries)`) and each file's read
outcome. Dialog results are method parameters. Message boxes and the
clipboard become the returned `Outcome`.

Reading a file never raises: every failure becomes an "Error reading file: …"
text. So the `errors` lists of `process_files` and `process_directory` are
always empty, and `process_path` never shows the "Some files could not be
processed" warning or the "No files were processed" error. The model proves
this (`Collect.ProcessFiles`, `Collect.ProcessDirectory`,
`App.NoReadFailures`).

The "Invalid path configuration" branch is commented "Should never reach
here", but it can be reached. Typing a path of the form `Selected … files`
with no stored selection, when no directory has that name, reaches it
(`App.TypedLabelNothingStored`). The model keeps this behaviour.

## Model

| member | source | states |
|---|---|---|
| PyStr.Strip | app.py:167 | `str.strip()`: the result occurs in the input and neither starts nor ends with Python whitespace, and it is empty exactly when the input is all whitespace |
| PyStr.StripTrims | app.py:167 | only leading and trailing whitespace is removed: the strip is exactly the slice of the input left between a prefix that is all whitespace and a suffix that is all whitespace (`TrimmedAt`) |
| PyStr.TrimParts | app.py:167 | stripping the left and then the right end leaves the input less an all-whitespace prefix and an all-whitespace suffix |
| PyStr.TrimmedBetween | app.py:167 | dropping an all-whitespace prefix and then an all-whitespace suffix leaves the slice between them |
| PyStr.StartsWith | app.py:258 | `s.startswith(p)`: `p` is a prefix of `s` (a definition, used by the contracts of `Placeholder`, `Join` and `Normalize`) |
| PyStr.Contains | app.py:258 | `t in s`: defined by scanning the start positions; `ContainsAt` and `ContainsWitness` prove it means "occurs at some index" |
| PyStr.IsSpace | app.py:167 | the characters Python's `str.isspace()` accepts, which `strip()` removes (a definition) |
| PyStr.StripLeft | app.py:167 | leading whitespace removed: the result is a suffix, and everything dropped is whitespace |
| PyStr.StripRight | app.py:167 | trailing whitespace removed: the result is a prefix, and everything dropped is whitespace |
| PyStr.StripStripped | app.py:167 | a string that neither starts nor ends with whitespace strips to itself |
| PyStr.Split | app.py:167 | `split(',')`: at least one piece, no piece holds the separator, and joining the pieces with it gives the input back |
| PyStr.SplitJoin | app.py:167 | the other round trip: splitting the join of separator-free pieces gives the pieces |
| PyStr.SplitAfterPiece | app.py:167 | splitting `a + sep + b` with separator-free `a` gives `a`, then the pieces of `b` |
| PyStr.SplitNoSeparator | app.py:167 | a string without the separator splits into itself |
| PyStr.Lower | app.py:171 | `lower()`: same length, each character lower-cased |
| PyStr.LowerIdempotent | app.py:175 | lower-casing twice equals lower-casing once, and leaves no upper-case letter |
| PyStr.RFind | app.py:159 | the last index of the character, or -1, with no occurrence after it |
| PyStr.RFindIs | app.py:159 | any index meeting `rfind`'s contract is its result |
| PyStr.ContainsAt | app.py:258 | `t in s` holds when `t` occurs at some index |
| PyStr.ContainsWitness | app.py:258 | conversely, `t in s` gives an index where `t` occurs |
| PyStr.NatToString | app.py:133 | `str(n)`: non-empty decimal digits without a leading zero |
| PyStr.NatToStringValue | app.py:133 | reading the digits of `str(n)` back gives `n` |
| PyStr.NatToStringInjective | app.py:133 | different counts give different numerals |
| PosixPath.Join | app.py:206 | `os.path.join`: an absolute second part wins; otherwise `b` is appended directly when `a` is empty or ends with `/`, and after one added `/` in every other case |
| PosixPath.Basename | app.py:159 | `os.path.basename`: the suffix after the last `/`, with no `/` in it |
| PosixPath.BasenameOfJoin | app.py:206 | the joined path of a directory entry has the entry's name as its basename |
| PosixPath.OnlyDotsAt | app.py:171 | every character of an all-dots range is a dot |
| PosixPath.NotOnlyDots | app.py:171 | a range that is not all dots has a non-dot character, and the lemma returns its index |
| PosixPath.NotOnlyDotsExists | app.py:171 | the same fact, as an existential |
| PosixPath.SplitExt | app.py:171 | `os.path.splitext`: the parts concatenate to the input; the extension is empty or a `.` followed by no `.` or `/`; a non-dot character of the last component precedes it |
| PosixPath.ExtensionPresent | app.py:171 | conversely, a dot after a non-dot character of the last component always gives an extension |
| PosixPath.ExtOfName | app.py:171 | for a name whose last dot is at `d`, the extension is `name[d..]` exactly when a non-dot character precedes it |
| PosixPath.NoDotName | app.py:171 | a name without `/` or `.` is its own basename and has no extension |
| PosixPath.DotfileExample | app.py:171 | `.bashrc` has no extension |
| PosixPath.LastDotExample | app.py:171 | `a.tar.gz` splits into `a.tar` and `.gz` |
| PosixPath.LeadingDotsExample | app.py:171 | `..foo.py` has the extension `.py` |
| Filter.StrippedNonEmpty | app.py:166-168 | the kept tokens are non-empty and stripped, and there are no more of them than pieces |
| Filter.StrippedNonEmptyOne | app.py:166-168 | one piece gives its strip, or nothing when the strip is empty |
| Filter.StrippedNonEmptyCons | app.py:166-168 | the first piece's token comes before the tokens of the rest |
| Filter.StrippedNonEmptyConcat | app.py:166-168 | the pieces are handled one by one, in order: the tokens of `a + b` are those of `a`, then those of `b` |
| Filter.StrippedNonEmptyMembers | app.py:166-168 | a token is in the list exactly when it is the non-empty strip of some piece |
| Filter.StrippedNonEmptySource | app.py:166-168 | every token in the list is the non-empty strip of some piece |
| Filter.StrippedNonEmptyKeeps | app.py:166-168 | every piece with a non-empty strip contributes that strip to the list |
| Filter.IgnoreTokens | app.py:166-168 | the ignore list is the kept strips of the comma-separated pieces; `ExampleTokens` and `SeparatorsOnly` pin it down on examples |
| Filter.Normalize | app.py:173-175 | a token that starts with `.` is unchanged, and any other gets a leading dot |
| Filter.MatchesAny | app.py:172-177 | the early-return search over the tokens; `MatchesAnyIff` proves it is "some token matches" |
| Filter.IgnoresName | app.py:162-177 | the decision on a file name: `.DS_Store`, or the search over the tokens; `IgnoredIff` states it as a set lookup |
| Filter.ShouldIgnore | app.py:157-179 | the decision taken on the basename of the path; its meaning is `IgnoredIff` |
| Filter.IgnoredExtensions | app.py:166-175 | the set of normalised, lower-cased tokens, the reference definition in `IgnoredIff` |
| Filter.NormalizeDotOptional | app.py:173-175 | normalising is idempotent, and `x` and `.x` normalise alike |
| Filter.MatchesAnyIff | app.py:172-179 | the search loop returns true exactly when some token's normalised, lower-cased form equals the file's extension |
| Filter.MatchesAnySet | app.py:172-179 | the search loop is membership in the set of normalised, lower-cased tokens |
| Filter.IgnoredIff | app.py:157-179 | a path is ignored exactly when its basename is `.DS_Store`, or its lower-cased extension is among the lower-cased, dotted tokens of the ignore text |
| Filter.IgnoreEntry | app.py:159 | for a directory entry, only the entry's name decides |
| Filter.DsStoreAlwaysIgnored | app.py:162-163 | a `.DS_Store` in any directory is ignored, whatever the ignore text |
| Filter.NoExtensionNeverMatches | app.py:171-177 | a file without an extension is never ignored by the extension rule |
| Filter.SplitChars | app.py:167 | every character of a split piece is a character of the split text |
| Filter.AllBlank | app.py:166-168 | pieces that strip to nothing give no tokens |
| Filter.SeparatorsOnly | app.py:166-168 | an ignore text of only commas and whitespace ignores nothing but `.DS_Store` |
| Filter.DotOptional | app.py:173-175 | writing `py` or `.py` makes no difference |
| Filter.ExampleTokens | app.py:166-168 | `"py, .txt"` gives the tokens `py` and `.txt` |
| Filter.ExampleSplit | app.py:167 | `"py, .txt"` splits into `py` and ` .txt` |
| Filter.ExampleStrip | app.py:167 | ` .txt` strips to `.txt` |
| Filter.DecisionFor | app.py:157-179 | the decision, given the basename, the lower-cased extension and the tokens |
| Filter.ExampleMatch | app.py:172-177 | `.py` matches the token `py` |
| Filter.ExampleNoMatch | app.py:172-177 | `.c` matches neither `py` nor `.txt` |
| Filter.UpperCaseName | app.py:159-171 | `a.PY` has the lower-cased extension `.py` |
| Filter.LowerPY | app.py:171 | `.PY` lower-cases to `.py` |
| Filter.KeptName | app.py:159-171 | `main.c` has the extension `.c` |
| Filter.UpperCaseExample | app.py:157-179 | with `"py, .txt"`, `a.PY` is ignored (matching ignores case) |
| Filter.KeptExample | app.py:157-179 | with `"py, .txt"`, `main.c` is kept |
| Reader.Placeholder | app.py:149-151 | the binary placeholder starts with `[Binary content - ` and has the length of its three parts |
| Reader.ErrorText | app.py:152-155 | the error text is `Error reading file: ` followed by exactly the exception's message |
| Reader.ParsePlaceholder | app.py:151 | a text is read as a placeholder only if it is longer than the fixed parts |
| Reader.ParsePlaceholderOf | app.py:151 | the placeholder gives its byte count back |
| Reader.PlaceholderOfParse | app.py:151 | every text that parses is the placeholder of the parsed count |
| Reader.NumeralRoundTrip | app.py:151 | a canonical decimal numeral is `str` of its value |
| Reader.NumeralPositive | app.py:151 | a numeral that does not start with `0` has a positive value |
| Reader.PlaceholderInjective | app.py:151 | different byte counts give different placeholders |
| Reader.ReadFile | app.py:141-155 | decoded text as is, a binary file as its placeholder, any failure as its error text; the inverses and the ambiguity are the lemmas below |
| Reader.ErrorTextInverse | app.py:141-155 | both failure paths give the error prefix followed by the failure's message |
| Reader.PlaceholderIsNotError | app.py:151-155 | no placeholder equals an error text |
| Reader.TextLooksBinary | app.py:141-155 | a text file whose content is a placeholder reads the same as the binary file it describes |
| Collect.Kept | app.py:233-234 | the non-ignored paths in order; `KeptMembers`, `KeptConcat` and `KeptAll` state its meaning |
| Collect.KeptMembers | app.py:233-234 | the kept paths are exactly the given paths that are not ignored |
| Collect.KeptConcat | app.py:233-234 | filtering keeps order: the kept paths of `a + b` are those of `a`, then those of `b` |
| Collect.KeptAll | app.py:233-234 | when nothing is ignored, every path is kept |
| Collect.ReadAll | app.py:219-222 | one record per path, in order, pairing the path with what `read_file` gives for it |
| Collect.ProcessFiles | app.py:228-241 | the results are the records of the non-ignored paths, in order, and the errors list is empty |
| Collect.Names | app.py:189 | the names of the entries, in order |
| Collect.DirEntries | app.py:189 | the `dirs` of `os.walk` are entries that are directories |
| Collect.FileEntries | app.py:189 | the `files` of `os.walk` are entries that are not directories |
| Collect.DirEntriesHas | app.py:189 | every subdirectory is among the `dirs` |
| Collect.FileEntriesHas | app.py:189 | every non-directory entry is among the `files` |
| Collect.EntryPaths | app.py:205-206 | one joined path per entry, in order |
| Collect.RemoveFirst | app.py:191-192 | `list.remove` keeps only entries of the list |
| Collect.RemoveEach | app.py:195-203 | the removal loop keeps only entries of the list |
| Collect.Prune | app.py:190-203 | pruning keeps only entries of the list |
| Collect.PruneDirs | app.py:190-203 | the pruning statements give `Prune` of the `dirs` list |
| Collect.RemoveAbsent | app.py:191-192 | removing an absent name changes nothing |
| Collect.RemoveFirstKeeps | app.py:191-192 | an entry with any other name survives removal |
| Collect.RemoveEachKeeps | app.py:195-203 | an entry whose name is not in the list survives the removal loop |
| Collect.Without | app.py:190-203 | the filter keeps only entries whose names are outside the list |
| Collect.WithoutNone | app.py:190-203 | filtering out names that do not occur changes nothing |
| Collect.WithoutDistinct | app.py:190-203 | filtering keeps names distinct |
| Collect.WithoutWithout | app.py:190-203 | filtering twice equals filtering once by both lists |
| Collect.WithoutSameNames | app.py:190-203 | lists with the same names filter alike |
| Collect.RemoveFirstIsWithout | app.py:191-192 | with distinct names, `remove` is filtering that name out |
| Collect.RemoveEachIsWithout | app.py:195-203 | with distinct names, the removal loop is filtering the names out |
| Collect.PruneIsFilter | app.py:190-203 | with distinct names, pruning drops exactly the five pruned names (the double `__pycache__` removal is harmless) |
| Collect.DirEntriesDistinct | app.py:189 | the `dirs` of a directory with distinct names have distinct names |
| Collect.Subdirs | app.py:189-203 | the subdirectories descended into are directories of the node |
| Collect.Walk | app.py:188-208 | the top-down walk as a recursive definition: a directory's own files, then what each surviving subdirectory yields; `WalkMembers` characterises it |
| Collect.SubWalks | app.py:189-208 | the walks of the surviving subdirectories, in listing order |
| Collect.ConcatMembers | app.py:189-208 | a path is in a concatenation exactly when it is in one of the parts |
| Collect.WalkFiles | app.py:205-208 | the loop over `files` gives the non-ignored joined paths, in order |
| Collect.WalkDirectory | app.py:188-208 | the `os.walk` loop (top-down, in listing order, pruning before descending) gives exactly `Walk` of the tree |
| Collect.EntryPathsMember | app.py:205-206 | every joined path comes from an entry |
| Collect.OwnFileVisible | app.py:205-208 | a file collected at the top level has a visible one-name chain |
| Collect.SubdirNotPruned | app.py:190-203 | no subdirectory descended into has a pruned name |
| Collect.WalkSound | app.py:188-208 | every collected path is a non-ignored file reached through non-pruned subdirectories |
| Collect.WalkNotIgnored | app.py:205-208 | nothing the walk collects is ignored, on any tree |
| Collect.WalkComplete | app.py:188-208 | every non-ignored file reached through non-pruned subdirectories is collected |
| Collect.WalkMembers | app.py:188-208 | the recursive collection holds exactly the non-ignored files reached through subdirectories with no pruned name |
| Collect.Listed | app.py:212-216 | an entry is listed when it is a regular file not named `__pycache__` and not ignored |
| Collect.Listing | app.py:209-217 | the listed entries' paths in listing order; `ListingMembers` and `ListingConcat` state its meaning |
| Collect.ListDirectory | app.py:209-217 | the `os.listdir` loop gives exactly `Listing` of the entries |
| Collect.ListingMembers | app.py:209-217 | the flat collection holds exactly the regular files directly in the directory, other than one named `__pycache__`, that are not ignored |
| Collect.ListingConcat | app.py:209-217 | the flat collection keeps listing order |
| Collect.ModesDiffer | app.py:188-217 | a special file, or a file named `__pycache__`, is collected by the walk but not by the listing |
| Collect.PruneEmpty | app.py:190-203 | pruning an empty `dirs` gives an empty list |
| Collect.Collected | app.py:188-217 | the walk in recursive mode, the listing otherwise |
| Collect.ReadEach | app.py:219-224 | the reading loop gives one record per collected path, in order (`ReadAll`), and no errors |
| Collect.ProcessDirectory | app.py:181-226 | the results are the records of the collected paths, in order, and the errors list is empty |
| Aggregate.Section | app.py:291-296 | a record's section has the length of its path line (when shown), delimiters, content and four line breaks |
| Aggregate.SectionParts | app.py:291-296 | the path line, the prefix line, the content and the suffix lines sit at fixed offsets in a section |
| Aggregate.Blob | app.py:289-296 | the sections of the records, in order; `BlobConcat`, `BlobLength` and `SectionInBlob` state its meaning |
| Aggregate.BuildBlob | app.py:289-296 | the aggregation loop gives the concatenation of the records' sections, in order |
| Aggregate.BlobConcat | app.py:289-296 | the text for `a + b` is the text for `a`, then the text for `b` |
| Aggregate.BlobLength | app.py:289-296 | each record adds at least four characters, and the text is empty exactly when there are no records |
| Aggregate.SectionInBlob | app.py:289-296 | record `i`'s section sits right after the sections of the records before it |
| Aggregate.FencedExample | app.py:291-296 | `hello` with the default delimiters and no paths gives "```\nhello\n```\n\n" |
| Aggregate.PathHeadsBlob | app.py:292-293 | with paths shown, the text starts with the first path and a blank line |
| App.Exists | app.py:263 | `os.path.exists`: the empty path never exists, any other exists unless the lookup finds nothing |
| App.IsDir | app.py:266 | `os.path.isdir`: the empty path is no directory, any other is one when the lookup finds a directory |
| App.LooksLikeLabel | app.py:258 | the label test: starts with `Selected ` and contains ` files`; `CountLabelShape` shows every multi-file label passes it |
| App.CountLabel | app.py:133 | the multi-file label `Selected n files` |
| App.CopiedStatus | app.py:300 | the status line `Copied n files to clipboard!` |
| App.FailureLines | app.py:302-311 | one `\npath: message` line per failure, in order |
| App.FilesResults | app.py:228-241 | what `process_files` returns for the options' ignore rule, as `Collect.ProcessFiles` proves |
| App.DirectoryResults | app.py:181-226 | what `process_directory` returns for the options' mode and ignore rule, as `Collect.ProcessDirectory` proves |
| App.Dispatch | app.py:277-287 | files when some are chosen and the path is no directory, else the directory, else "Invalid path configuration"; `DispatchNoFailures` and `DispatchDirectory` state its cases |
| App.ProcessPathOutcome | app.py:243-317 | `process_path` as a function: the choice, then the dispatch; its cases are the `App` lemmas below |
| App.Report | app.py:289-314 | a copy happens exactly when there are results, with the built text and the count in the status; a warning exactly when there are errors; otherwise an error box when there are errors and "No files found to process" when there are none |
| App.Choose | app.py:243-269 | the only early stops are "Please enter or select a file/directory path" and "Path does not exist" |
| App.NoReadFailures | app.py:243-317 | no outcome carries a warning, and every error box is one of the three path errors |
| App.DispatchNoFailures | app.py:277-314 | collecting and reading gives no warning, and the only error it can give is "Invalid path configuration" |
| App.BlankPathNoSelection | app.py:244-250 | a blank path text with nothing stored gives the no-selection error |
| App.MissingPath | app.py:262-265 | a typed path that is not a label and does not exist gives "Path does not exist" |
| App.ErasedSingleSelection | app.py:246-265 | one stored file with a blank path text gives "Path does not exist" (the stored file is not used) |
| App.TypedLabelNothingStored | app.py:258-287 | a typed label with nothing stored and no directory of that name reaches "Invalid path configuration" |
| App.SingleFile | app.py:266-300 | an existing non-directory path is copied on its own, with status "Copied 1 files to clipboard!", unless it is ignored, which gives "No files found to process" |
| App.SingleRead | app.py:233-237 | reading a one-path selection gives its record, or nothing if it is ignored |
| App.KeptOne | app.py:233-234 | a one-path selection keeps the path exactly when it is not ignored |
| App.DirectoryWins | app.py:278-283 | a path naming a directory is processed as a directory, whatever is stored |
| App.ChooseDirectory | app.py:253-269 | a directory path text always goes on to collecting, with that path |
| App.DispatchDirectory | app.py:278-283 | when the path is a directory, it is processed as one, whatever file list was chosen |
| App.StoredSelectionWins | app.py:253-280 | with several stored files and a path text that is not a directory, the stored files are processed |
| App.CountLabelShape | app.py:133-258 | the label `Selected n files` strips to itself and passes the label test |
| App.FilesResultsNotIgnored | app.py:233-234 | every record from a file selection is one of the selected paths, is not ignored, and is no `.DS_Store` |
| App.DirectoryResultsNotIgnored | app.py:205-217 | no record from a directory is ignored or a `.DS_Store`, in either mode, on any tree |
| App.FileCopyApp.constructor | app.py:124 | the window starts with an empty path and no stored files |
| App.FileCopyApp.SetPathText | app.py:244 | typing sets the path text and keeps the stored files |
| App.FileCopyApp.BrowseFile | app.py:126-133 | a cancelled dialog changes nothing; otherwise the chosen files are stored, and the path is the file (one) or `Selected n files` (several) |
| App.FileCopyApp.BrowseDirectory | app.py:135-139 | a cancelled dialog changes nothing; otherwise the stored files are cleared and the path is the directory |
| App.FileCopyApp.ClearAll | app.py:319-321 | the path text and the stored files are emptied |
| App.FileCopyApp.ProcessPath | app.py:243-314 | choosing, then the collecting and reading loops and the aggregation loop, give exactly `ProcessPathOutcome` of the current state |
| App.DispatchPaths | app.py:277-287 | the collecting statements give exactly `Dispatch` |
| App.Finish | app.py:289-314 | the reporting statements give exactly `Report` |
| App.DefaultsSection | app.py:47-87 | with the options the window starts with, a file `hello` is copied as its path, a blank line and "```\nhello\n```\n\n" |
| App.ClearedNoSelection | app.py:246-321 | after "Clear", processing gives the no-selection error |
| App.MultiSelection | app.py:126-280 | after choosing several files, processing reads exactly the stored files (unless a directory has the label's name) |

## Left out

- The Tk window, the preview pane and the status bar contents other than the status line are left out. The clipboard (`pyperclip`) and message boxes are modelled as the returned `Outcome`.
- The file dialogs are left out; their results are the parameters of `BrowseFile` and `BrowseDirectory`.
- The real file system is left out. `os.path.exists`, `os.path.isdir`, `os.listdir` and `os.walk` read a given tree (`Node`, `Lookup`), and opening and reading a file is a given `TextRead` per path. Relative paths are resolved by the caller, and the working directory is not modelled.
- UTF-8 decoding is left out: whether decoding succeeds and the decoded text are inputs.
- PyStr.Lower: lower-cases ASCII letters only, while Python's `str.lower` covers all of Unicode.
- Symbolic links, `os.walk`'s `onerror` and `followlinks`, and entries that change during the walk are left out.
- Collect.WalkMembers: states the set view only for trees whose directories have distinct entry names, which a real file system guarantees. The exact loop (`Collect.WalkDirectory`) holds for all trees.
- The catch-all `except` in `process_path` (app.py:316-317) is left out. No modelled step raises, since `read_file` catches every exception and reading is total.
- The "Some files could not be processed" and "No files were processed" messages are modelled (`App.Report`, `App.FailureLines`), but they are unreachable: the `errors` lists are always empty.
