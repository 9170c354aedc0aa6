/** The POSIX flavour of Python's `os.path` functions the file copier calls:
    `join` with two arguments, `basename` and `splitext`. */
module PosixPath {
  import opened PyStr

  /** `os.path.join(a, b)`: an absolute `b` replaces `a`; otherwise a `/` is put
      between them unless `a` is empty or already ends with one. */
  function Join(a: string, b: string): (r: string)
    ensures StartsWith(b, "/") ==> r == b
    ensures !StartsWith(b, "/") && (a == "" || a[|a| - 1] == '/') ==> r == a + b
    ensures !StartsWith(b, "/") && a != "" && a[|a| - 1] != '/' ==> r == a + "/" + b
  {
    if StartsWith(b, "/") then b
    else if a == "" || a[|a| - 1] == '/' then a + b
    else a + "/" + b
  }

  /** `os.path.basename(p)`: what follows the last `/`. */
  function Basename(p: string): (r: string)
    ensures '/' !in r
    ensures |r| <= |p| && r == p[|p| - |r|..]
    ensures |r| < |p| ==> p[|p| - |r| - 1] == '/'
  {
    p[RFind(p, '/') + 1..]
  }

  /** The path of an entry called `name` inside the directory `dir` has that
      name as its basename, whenever the name is non-empty and has no `/`. */
  lemma BasenameOfJoin(dir: string, name: string)
    requires name != [] && '/' !in name
    ensures Basename(Join(dir, name)) == name
  {
    var p := Join(dir, name);
    assert name[0] != '/';
    var i := |p| - |name| - 1;
    assert p[i + 1..] == name;
    if dir == "" || dir[|dir| - 1] == '/' {
      assert p == dir + name;
    } else {
      assert p == dir + "/" + name;
    }
    RFindIs(p, '/', i);
  }

  /** Whether `p[lo..hi]` is made of dots only: the scan `splitext` makes over
      the leading dots of the final component. */
  predicate OnlyDots(p: string, lo: int, hi: int)
    requires 0 <= lo && hi <= |p|
    decreases hi - lo
  {
    lo >= hi || (p[lo] == '.' && OnlyDots(p, lo + 1, hi))
  }

  lemma {:induction false} OnlyDotsAt(p: string, lo: int, hi: int, k: int)
    requires 0 <= lo <= k < hi <= |p| && OnlyDots(p, lo, hi)
    ensures p[k] == '.'
    decreases hi - lo
  {
    if k > lo {
      OnlyDotsAt(p, lo + 1, hi, k);
    }
  }

  lemma {:induction false} NotOnlyDots(p: string, lo: int, hi: int) returns (k: int)
    requires 0 <= lo && hi <= |p| && !OnlyDots(p, lo, hi)
    ensures lo <= k < hi && p[k] != '.'
    decreases hi - lo
  {
    if p[lo] != '.' {
      k := lo;
    } else {
      k := NotOnlyDots(p, lo + 1, hi);
    }
  }

  lemma NotOnlyDotsExists(p: string, lo: int, hi: int)
    requires 0 <= lo && hi <= |p| && !OnlyDots(p, lo, hi)
    ensures exists k :: lo <= k < hi && p[k] != '.'
  {
    var k := NotOnlyDots(p, lo, hi);
  }

  /** `os.path.splitext(p)`: the extension runs from the last `.` of the final
      component, provided that component has a character other than `.` before
      it; a run of leading dots (`.bashrc`, `..foo`) gives no extension. */
  function SplitExt(p: string): (r: (string, string))
    ensures r.0 + r.1 == p
    ensures r.1 != [] ==> r.1[0] == '.'
    ensures forall k :: 0 < k < |r.1| ==> r.1[k] != '.' && r.1[k] != '/'
    ensures r.1 != [] ==> exists k :: RFind(p, '/') < k < |r.0| && r.0[k] != '.'
  {
    var sepIndex := RFind(p, '/');
    var dotIndex := RFind(p, '.');
    if dotIndex > sepIndex && !OnlyDots(p, sepIndex + 1, dotIndex) then
      NotOnlyDotsExists(p, sepIndex + 1, dotIndex);
      (p[..dotIndex], p[dotIndex..])
    else
      (p, "")
  }

  /** Conversely, a final component with a dot after some other character
      always has an extension. */
  lemma {:induction false} ExtensionPresent(p: string, k: int, d: int)
    requires RFind(p, '/') < k < d < |p| && p[k] != '.' && p[d] == '.'
    ensures SplitExt(p).1 != []
  {
    var dotIndex := RFind(p, '.');
    assert d <= dotIndex;
    if k < dotIndex && OnlyDots(p, RFind(p, '/') + 1, dotIndex) {
      OnlyDotsAt(p, RFind(p, '/') + 1, dotIndex, k);
    }
  }

  /** `splitext` on a name without `/` whose last dot is at `d`: the extension
      is `name[d..]` unless only dots precede it. */
  lemma ExtOfName(name: string, d: int)
    requires '/' !in name
    requires 0 <= d < |name| && name[d] == '.'
    requires forall k :: d < k < |name| ==> name[k] != '.'
    ensures Basename(name) == name
    ensures SplitExt(name).1 == if exists k :: 0 <= k < d && name[k] != '.' then name[d..] else ""
  {
    RFindIs(name, '/', -1);
    RFindIs(name, '.', d);
    if exists k :: 0 <= k < d && name[k] != '.' {
      var k :| 0 <= k < d && name[k] != '.';
      if OnlyDots(name, 0, d) {
        OnlyDotsAt(name, 0, d, k);
      }
    } else if !OnlyDots(name, 0, d) {
      var k := NotOnlyDots(name, 0, d);
    }
  }

  /** A name with neither `/` nor `.` is its own basename and has no extension. */
  lemma NoDotName(name: string)
    requires '/' !in name && '.' !in name
    ensures Basename(name) == name && SplitExt(name).1 == ""
  {
    RFindIs(name, '/', -1);
    RFindIs(name, '.', -1);
  }

  /** A dotfile has no extension. */
  lemma DotfileExample()
    ensures SplitExt(".bashrc") == (".bashrc", "")
  {
    ExtOfName(".bashrc", 0);
  }

  /** Only the last dot starts the extension. */
  lemma LastDotExample()
    ensures SplitExt("a.tar.gz") == ("a.tar", ".gz")
  {
    assert "a.tar.gz"[0] != '.' && "a.tar.gz"[5..] == ".gz" && "a.tar.gz"[..5] == "a.tar";
    ExtOfName("a.tar.gz", 5);
  }

  /** Leading dots do not hide a later extension. */
  lemma LeadingDotsExample()
    ensures SplitExt("..foo.py").1 == ".py"
  {
    assert "..foo.py"[2] != '.' && "..foo.py"[5..] == ".py";
    ExtOfName("..foo.py", 5);
  }
}
