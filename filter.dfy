/** `FileCopyApp.should_ignore_file`: whether a candidate path is left out,
    given the free text the user typed into "Ignore file types". */
module Filter {
  import opened PyStr
  import opened PosixPath

  /** The one file name that is always ignored. */
  const AlwaysIgnored: string := ".DS_Store"

  /** The pieces of `pieces` that are non-empty once stripped, stripped, in order. */
  function StrippedNonEmpty(pieces: seq<string>): (r: seq<string>)
    ensures |r| <= |pieces|
    ensures forall i :: 0 <= i < |r| ==> r[i] != "" && !IsSpace(r[i][0]) && !IsSpace(r[i][|r[i]| - 1])
  {
    if pieces == [] then []
    else
      var t := Strip(pieces[0]);
      var rest := StrippedNonEmpty(pieces[1..]);
      if t != "" then [t] + rest else rest
  }

  /** One piece gives its strip, unless that is empty. */
  lemma StrippedNonEmptyOne(piece: string)
    ensures StrippedNonEmpty([piece]) == if Strip(piece) == "" then [] else [Strip(piece)]
  {
    assert [piece][1..] == [];
  }

  /** The first piece is handled before the rest. */
  lemma StrippedNonEmptyCons(piece: string, rest: seq<string>)
    ensures StrippedNonEmpty([piece] + rest) ==
      (if Strip(piece) != "" then [Strip(piece)] else []) + StrippedNonEmpty(rest)
  {
    assert ([piece] + rest)[0] == piece && ([piece] + rest)[1..] == rest;
  }

  /** The pieces are handled one by one, in order. */
  lemma {:induction false} StrippedNonEmptyConcat(a: seq<string>, b: seq<string>)
    ensures StrippedNonEmpty(a + b) == StrippedNonEmpty(a) + StrippedNonEmpty(b)
    decreases |a|
  {
    if a == [] {
      assert a + b == b;
      assert StrippedNonEmpty(a) == [];
    } else {
      var x := a[0];
      var head := if Strip(x) != "" then [Strip(x)] else [];
      var sa, sb := StrippedNonEmpty(a[1..]), StrippedNonEmpty(b);
      StrippedNonEmptyConcat(a[1..], b);
      ConsSplit(a, b);
      StrippedNonEmptyCons(x, a[1..]);
      StrippedNonEmptyCons(x, a[1..] + b);
      assert StrippedNonEmpty(a) == head + sa;
      assert StrippedNonEmpty(a + b) == head + (sa + sb);
      AppendAssoc(head, sa, sb);
    }
  }

  lemma ConsSplit(a: seq<string>, b: seq<string>)
    requires a != []
    ensures a == [a[0]] + a[1..] && a + b == [a[0]] + (a[1..] + b)
  {
  }

  lemma AppendAssoc(x: seq<string>, y: seq<string>, z: seq<string>)
    ensures x + (y + z) == (x + y) + z
  {
  }

  /** A token is in the list exactly when it is the non-empty strip of some
      piece. */
  lemma StrippedNonEmptyMembers(pieces: seq<string>, t: string)
    ensures t in StrippedNonEmpty(pieces) <==>
      exists j :: 0 <= j < |pieces| && t == Strip(pieces[j]) && t != ""
  {
    if t in StrippedNonEmpty(pieces) {
      var j := StrippedNonEmptySource(pieces, t);
    }
    if exists j :: 0 <= j < |pieces| && t == Strip(pieces[j]) && t != "" {
      var j :| 0 <= j < |pieces| && t == Strip(pieces[j]) && t != "";
      StrippedNonEmptyKeeps(pieces, j);
    }
  }

  /** Every token comes from a piece. */
  lemma {:induction false} StrippedNonEmptySource(pieces: seq<string>, t: string) returns (j: int)
    requires t in StrippedNonEmpty(pieces)
    ensures 0 <= j < |pieces| && t == Strip(pieces[j]) && t != ""
  {
    var rest := pieces[1..];
    ConsSplit(pieces, []);
    StrippedNonEmptyCons(pieces[0], rest);
    if t == Strip(pieces[0]) && t != "" {
      j := 0;
    } else {
      var k := StrippedNonEmptySource(rest, t);
      j := k + 1;
    }
  }

  /** Every piece with a non-empty strip gives a token. */
  lemma {:induction false} StrippedNonEmptyKeeps(pieces: seq<string>, j: int)
    requires 0 <= j < |pieces| && Strip(pieces[j]) != ""
    ensures Strip(pieces[j]) in StrippedNonEmpty(pieces)
  {
    var rest := pieces[1..];
    ConsSplit(pieces, []);
    StrippedNonEmptyCons(pieces[0], rest);
    if j > 0 {
      StrippedNonEmptyKeeps(rest, j - 1);
    }
  }

  /** The ignore list: the comma-separated pieces of `text`, stripped, empty
      ones dropped. */
  function IgnoreTokens(text: string): seq<string> {
    StrippedNonEmpty(Split(text, ','))
  }

  /** A token with a leading `.` added when it has none. */
  function Normalize(token: string): (r: string)
    ensures r != [] && r[0] == '.'
    ensures StartsWith(token, ".") ==> r == token
    ensures !StartsWith(token, ".") ==> r == "." + token
  {
    if StartsWith(token, ".") then token else "." + token
  }

  /** With or without its leading dot, a token means the same extension. */
  lemma NormalizeDotOptional(token: string)
    ensures Normalize(Normalize(token)) == Normalize(token)
    ensures !StartsWith(token, ".") ==> Normalize("." + token) == Normalize(token)
  {
    assert StartsWith("." + token, ".");
  }

  /** The search loop over the ignore list, which returns at the first token
      whose normalised, lower-cased form equals the file's extension. */
  predicate MatchesAny(fileExt: string, tokens: seq<string>) {
    if tokens == [] then false
    else if fileExt == Lower(Normalize(tokens[0])) then true
    else MatchesAny(fileExt, tokens[1..])
  }

  /** The search succeeds exactly when some token matches. */
  lemma {:induction false} MatchesAnyIff(fileExt: string, tokens: seq<string>)
    ensures MatchesAny(fileExt, tokens) <==>
      exists i :: 0 <= i < |tokens| && fileExt == Lower(Normalize(tokens[i]))
  {
    if tokens != [] {
      MatchesAnyIff(fileExt, tokens[1..]);
      assert forall i :: 1 <= i < |tokens| ==> tokens[i] == tokens[1..][i - 1];
    }
  }

  /** The decision for a file name (a basename). */
  predicate IgnoresName(name: string, text: string) {
    name == AlwaysIgnored || MatchesAny(Lower(SplitExt(name).1), IgnoreTokens(text))
  }

  /** `should_ignore_file(path)`: the decision is taken on the basename. */
  predicate ShouldIgnore(path: string, text: string) {
    IgnoresName(Basename(path), text)
  }

  /** The extensions the ignore text names, normalised and lower-cased. */
  function IgnoredExtensions(text: string): set<string> {
    set t | t in IgnoreTokens(text) :: Lower(Normalize(t))
  }

  /** The decision as a set lookup: a path is ignored exactly when its basename
      is `.DS_Store` or its lower-cased extension is among the ignored ones. Both
      the file's extension and the tokens are lower-cased, so matching is
      case-insensitive. */
  lemma IgnoredIff(path: string, text: string)
    ensures ShouldIgnore(path, text) <==>
      Basename(path) == AlwaysIgnored || Lower(SplitExt(Basename(path)).1) in IgnoredExtensions(text)
  {
    MatchesAnySet(Lower(SplitExt(Basename(path)).1), IgnoreTokens(text));
  }

  /** The search as a set lookup. */
  lemma MatchesAnySet(e: string, tokens: seq<string>)
    ensures MatchesAny(e, tokens) <==> e in (set t | t in tokens :: Lower(Normalize(t)))
  {
    MatchesAnyIff(e, tokens);
    if e in (set t | t in tokens :: Lower(Normalize(t))) {
      var t :| t in tokens && e == Lower(Normalize(t));
      var i :| 0 <= i < |tokens| && tokens[i] == t;
    }
  }

  /** For an entry `name` of directory `dir`, the decision only looks at the
      name (ignoring is per basename). */
  lemma IgnoreEntry(dir: string, name: string, text: string)
    requires name != [] && '/' !in name
    ensures ShouldIgnore(Join(dir, name), text) == IgnoresName(name, text)
  {
    BasenameOfJoin(dir, name);
  }

  /** A `.DS_Store` in any directory is ignored, whatever the ignore text. */
  lemma DsStoreAlwaysIgnored(dir: string, text: string)
    ensures ShouldIgnore(Join(dir, AlwaysIgnored), text)
  {
    IgnoreEntry(dir, AlwaysIgnored, text);
  }

  /** A file without an extension (`Makefile`, `.bashrc`) is never ignored by
      the extension rule: every normalised token is at least a `.`. */
  lemma NoExtensionNeverMatches(path: string, text: string)
    requires Basename(path) != AlwaysIgnored && SplitExt(Basename(path)).1 == ""
    ensures !ShouldIgnore(path, text)
  {
    MatchesAnyIff("", IgnoreTokens(text));
  }

  /** The pieces of a split are made of characters of the split string. */
  lemma {:induction false} SplitChars(s: string, sep: char)
    ensures forall i, k :: 0 <= i < |Split(s, sep)| && 0 <= k < |Split(s, sep)[i]| ==>
      Split(s, sep)[i][k] in s
    decreases |s|
  {
    if s != [] {
      SplitChars(s[1..], sep);
    }
  }

  /** Pieces that strip to nothing leave an empty ignore list. */
  lemma {:induction false} AllBlank(pieces: seq<string>)
    requires forall j :: 0 <= j < |pieces| ==> Strip(pieces[j]) == ""
    ensures StrippedNonEmpty(pieces) == []
  {
    if pieces != [] {
      AllBlank(pieces[1..]);
    }
  }

  /** An ignore text made only of commas and whitespace ignores nothing except
      `.DS_Store`. */
  lemma SeparatorsOnly(path: string, text: string)
    requires forall k :: 0 <= k < |text| ==> text[k] == ',' || IsSpace(text[k])
    ensures ShouldIgnore(path, text) <==> Basename(path) == AlwaysIgnored
  {
    var pieces := Split(text, ',');
    SplitChars(text, ',');
    forall j | 0 <= j < |pieces| ensures Strip(pieces[j]) == "" {
      var p := pieces[j];
      forall k | 0 <= k < |p| ensures IsSpace(p[k]) {
        assert p[k] in text && p[k] != ',';
      }
    }
    AllBlank(pieces);
  }

  /** Writing `py` or `.py` in the ignore text makes no difference. */
  lemma DotOptional(path: string, token: string)
    requires token != [] && !IsSpace(token[0]) && !IsSpace(token[|token| - 1])
    requires ',' !in token && !StartsWith(token, ".")
    ensures ShouldIgnore(path, token) == ShouldIgnore(path, "." + token)
  {
    var dotted := "." + token;
    assert ',' !in dotted;
    SplitNoSeparator(token, ',');
    SplitNoSeparator(dotted, ',');
    StripStripped(token);
    StripStripped(dotted);
    assert IgnoreTokens(token) == [token];
    assert IgnoreTokens(dotted) == [dotted];
    NormalizeDotOptional(token);
  }

  /** The ignore text `"py, .txt"` names two tokens. */
  lemma ExampleTokens()
    ensures IgnoreTokens("py, .txt") == ["py", ".txt"]
  {
    ExampleSplit();
    ExampleStrip();
    StripStripped("py");
    assert ["py", " .txt"][1..] == [" .txt"];
    assert StrippedNonEmpty([" .txt"]) == [".txt"];
  }

  lemma ExampleSplit()
    ensures Split("py, .txt", ',') == ["py", " .txt"]
  {
    assert "py, .txt" == "py" + [','] + " .txt";
    SplitAfterPiece("py", " .txt", ',');
    SplitNoSeparator(" .txt", ',');
  }

  lemma ExampleStrip()
    ensures Strip(" .txt") == ".txt"
  {
    assert IsSpace(' ') && !IsSpace('.') && " .txt"[1..] == ".txt";
    assert StripLeft(".txt") == ".txt";
    assert StripLeft(" .txt") == ".txt";
    StripStripped(".txt");
  }

  /** The decision for a name with a known basename and extension. */
  lemma DecisionFor(path: string, text: string, name: string, ext: string, tokens: seq<string>)
    requires Basename(path) == name && Lower(SplitExt(name).1) == ext && IgnoreTokens(text) == tokens
    ensures ShouldIgnore(path, text) <==> name == AlwaysIgnored || MatchesAny(ext, tokens)
  {
  }

  lemma ExampleMatch()
    ensures MatchesAny(".py", ["py", ".txt"])
  {
    assert Lower(".py") == ".py";
  }

  lemma ExampleNoMatch()
    ensures !MatchesAny(".c", ["py", ".txt"])
  {
    assert ["py", ".txt"][1..] == [".txt"];
    assert Lower(".c")[1] == 'c' && Lower(".txt")[1] == 't';
  }

  lemma UpperCaseName()
    ensures Basename("a.PY") == "a.PY" && Lower(SplitExt("a.PY").1) == ".py"
  {
    assert "a.PY"[0] != '.' && "a.PY"[1..] == ".PY";
    ExtOfName("a.PY", 1);
    LowerPY();
  }

  lemma LowerPY()
    ensures Lower(".PY") == ".py"
  {
    var r := Lower(".PY");
    assert r[0] == LowerChar('.') == '.';
    assert r[1] == LowerChar('P') == 'p';
    assert r[2] == LowerChar('Y') == 'y';
  }

  lemma KeptName()
    ensures Basename("main.c") == "main.c" && Lower(SplitExt("main.c").1) == ".c"
  {
    assert "main.c"[0] != '.' && "main.c"[4..] == ".c";
    ExtOfName("main.c", 4);
    assert Lower(".c") == ".c";
  }

  /** With `"py, .txt"`, the upper-case `a.PY` is ignored. */
  lemma UpperCaseExample()
    ensures ShouldIgnore("a.PY", "py, .txt")
  {
    UpperCaseName();
    ExampleTokens();
    ExampleMatch();
    DecisionFor("a.PY", "py, .txt", "a.PY", ".py", ["py", ".txt"]);
  }

  /** With `"py, .txt"`, `main.c` is kept. */
  lemma KeptExample()
    ensures !ShouldIgnore("main.c", "py, .txt")
  {
    KeptName();
    ExampleTokens();
    ExampleNoMatch();
    DecisionFor("main.c", "py, .txt", "main.c", ".c", ["py", ".txt"]);
  }
}
