/** `FileCopyApp.process_files` and `FileCopyApp.process_directory`: which files
    are collected, in which order, and what is read from each. A directory is
    an ordered tree of entries; what reading a path yields is the `disk`
    oracle. */
module Collect {
  import opened PyStr
  import opened PosixPath
  import opened Reader

  /** An entry of a directory: a regular file, a directory with its entries in
      listing order, or anything else that exists (a socket, a device, a fifo). */
  datatype Node = File(name: string) | Dir(name: string, children: seq<Node>) | Special(name: string)

  /** One collected file and the text that stands for it. */
  datatype Record = Record(path: string, content: string)

  /** A file that raised while being read, with the exception's text. */
  datatype Failure = Failure(path: string, message: string)

  const PyCache: string := "__pycache__"

  /** The directory names pruned at every level of a recursive collection, in
      the order they are removed. */
  const PrunedDirs: seq<string> := [".git", ".svn", ".hg", PyCache, "node_modules"]

  // ---------------------------------------------------------------------------
  // process_files

  /** The paths that are not ignored, in their order. */
  function Kept(paths: seq<string>, ignored: string -> bool): seq<string> {
    if paths == [] then []
    else
      var last := paths[|paths| - 1];
      Kept(paths[..|paths| - 1], ignored) + (if ignored(last) then [] else [last])
  }

  /** A path is kept exactly when it is given and not ignored. */
  lemma {:induction false} KeptMembers(paths: seq<string>, ignored: string -> bool)
    ensures forall p :: p in Kept(paths, ignored) <==> p in paths && !ignored(p)
  {
    if paths != [] {
      KeptMembers(paths[..|paths| - 1], ignored);
      assert paths == paths[..|paths| - 1] + [paths[|paths| - 1]];
    }
  }

  /** Filtering keeps the input order: it distributes over concatenation. */
  lemma {:induction false} KeptConcat(a: seq<string>, b: seq<string>, ignored: string -> bool)
    ensures Kept(a + b, ignored) == Kept(a, ignored) + Kept(b, ignored)
    decreases |b|
  {
    if b == [] {
      assert a + b == a;
    } else {
      var b' := b[..|b| - 1];
      KeptConcat(a, b', ignored);
      assert (a + b)[..|a + b| - 1] == a + b';
      assert (a + b)[|a + b| - 1] == b[|b| - 1];
    }
  }

  /** With nothing ignored, every path is kept, in order. */
  lemma {:induction false} KeptAll(paths: seq<string>, ignored: string -> bool)
    requires forall i :: 0 <= i < |paths| ==> !ignored(paths[i])
    ensures Kept(paths, ignored) == paths
  {
    if paths != [] {
      KeptAll(paths[..|paths| - 1], ignored);
    }
  }

  /** Each path paired with what reading it gives. */
  function ReadAll(paths: seq<string>, disk: string -> TextRead): (r: seq<Record>)
    ensures |r| == |paths|
    ensures forall i :: 0 <= i < |paths| ==> r[i] == Record(paths[i], ReadFile(disk(paths[i])))
  {
    if paths == [] then []
    else
      var last := paths[|paths| - 1];
      ReadAll(paths[..|paths| - 1], disk) + [Record(last, ReadFile(disk(last)))]
  }

  /** `process_files`: reads every given path that is not ignored. Reading never
      raises, so no failure is ever recorded. */
  method ProcessFiles(paths: seq<string>, ignored: string -> bool, disk: string -> TextRead)
    returns (results: seq<Record>, errors: seq<Failure>)
    ensures results == ReadAll(Kept(paths, ignored), disk)
    ensures errors == []
  {
    results := [];
    errors := [];
    for i := 0 to |paths|
      invariant results == ReadAll(Kept(paths[..i], ignored), disk)
      invariant errors == []
    {
      assert paths[..i + 1][..i] == paths[..i];
      var path := paths[i];
      if !ignored(path) {
        var content := ReadFile(disk(path));
        assert Kept(paths[..i + 1], ignored) == Kept(paths[..i], ignored) + [path];
        results := results + [Record(path, content)];
      }
    }
    assert paths[..|paths|] == paths;
  }

  // ---------------------------------------------------------------------------
  // Entries of a directory

  /** The names of some entries. */
  function Names(ds: seq<Node>): (r: seq<string>)
    ensures |r| == |ds|
    ensures forall i :: 0 <= i < |ds| ==> r[i] == ds[i].name
  {
    if ds == [] then [] else [ds[0].name] + Names(ds[1..])
  }

  /** The subdirectories among some entries, in order (the `dirs` of `os.walk`). */
  function DirEntries(cs: seq<Node>): (r: seq<Node>)
    ensures forall d :: d in r ==> d in cs && d.Dir?
  {
    if cs == [] then [] else (if cs[0].Dir? then [cs[0]] else []) + DirEntries(cs[1..])
  }

  /** The other entries, in order (the `files` of `os.walk`). */
  function FileEntries(cs: seq<Node>): (r: seq<Node>)
    ensures forall f :: f in r ==> f in cs && !f.Dir?
  {
    if cs == [] then [] else (if cs[0].Dir? then [] else [cs[0]]) + FileEntries(cs[1..])
  }

  lemma {:induction false} DirEntriesHas(cs: seq<Node>, c: Node)
    requires c in cs && c.Dir?
    ensures c in DirEntries(cs)
  {
    if c != cs[0] {
      DirEntriesHas(cs[1..], c);
    }
  }

  lemma {:induction false} FileEntriesHas(cs: seq<Node>, c: Node)
    requires c in cs && !c.Dir?
    ensures c in FileEntries(cs)
  {
    if c != cs[0] {
      FileEntriesHas(cs[1..], c);
    }
  }

  /** The paths of some entries inside the directory `root`. */
  function EntryPaths(root: string, fs: seq<Node>): (r: seq<string>)
    ensures |r| == |fs|
    ensures forall i :: 0 <= i < |fs| ==> r[i] == Join(root, fs[i].name)
  {
    if fs == [] then [] else EntryPaths(root, fs[..|fs| - 1]) + [Join(root, fs[|fs| - 1].name)]
  }

  // ---------------------------------------------------------------------------
  // Pruning `dirs` in place

  /** `dirs.remove(x)`: drops the first entry called `x`, if there is one. */
  function RemoveFirst(ds: seq<Node>, x: string): (r: seq<Node>)
    ensures forall d :: d in r ==> d in ds
  {
    if ds == [] then []
    else if ds[0].name == x then ds[1..]
    else [ds[0]] + RemoveFirst(ds[1..], x)
  }

  /** The removals one after another. */
  function RemoveEach(ds: seq<Node>, names: seq<string>): (r: seq<Node>)
    ensures forall d :: d in r ==> d in ds
  {
    if names == [] then ds
    else RemoveFirst(RemoveEach(ds, names[..|names| - 1]), names[|names| - 1])
  }

  /** The two pruning steps of each level: `__pycache__` first, then the list. */
  function Prune(ds: seq<Node>): (r: seq<Node>)
    ensures forall d :: d in r ==> d in ds
  {
    RemoveEach(RemoveFirst(ds, PyCache), PrunedDirs)
  }

  /** The pruning loop, removing each listed name found in `dirs`. */
  method PruneDirs(dirs: seq<Node>) returns (kept: seq<Node>)
    ensures kept == Prune(dirs)
  {
    kept := dirs;
    if PyCache in Names(kept) {
      kept := RemoveFirst(kept, PyCache);
    } else {
      RemoveAbsent(kept, PyCache);
    }
    for i := 0 to |PrunedDirs|
      invariant kept == RemoveEach(RemoveFirst(dirs, PyCache), PrunedDirs[..i])
    {
      var ignored := PrunedDirs[i];
      assert PrunedDirs[..i + 1][..i] == PrunedDirs[..i];
      assert RemoveEach(RemoveFirst(dirs, PyCache), PrunedDirs[..i + 1])
        == RemoveFirst(RemoveEach(RemoveFirst(dirs, PyCache), PrunedDirs[..i]), ignored);
      if ignored in Names(kept) {
        kept := RemoveFirst(kept, ignored);
      } else {
        RemoveAbsent(kept, ignored);
      }
    }
    assert PrunedDirs[..|PrunedDirs|] == PrunedDirs;
  }

  /** Removing a name that is not there changes nothing, so the `in` guards
      before each removal do not change the result. */
  lemma {:induction false} RemoveAbsent(ds: seq<Node>, x: string)
    requires x !in Names(ds)
    ensures RemoveFirst(ds, x) == ds
  {
    if ds != [] {
      assert Names(ds[1..]) == Names(ds)[1..];
      RemoveAbsent(ds[1..], x);
    }
  }

  /** An entry with another name survives a removal. */
  lemma {:induction false} RemoveFirstKeeps(ds: seq<Node>, x: string, d: Node)
    requires d in ds && d.name != x
    ensures d in RemoveFirst(ds, x)
  {
    if ds[0] != d && ds[0].name != x {
      RemoveFirstKeeps(ds[1..], x, d);
    }
  }

  lemma {:induction false} RemoveEachKeeps(ds: seq<Node>, names: seq<string>, d: Node)
    requires d in ds && d.name !in names
    ensures d in RemoveEach(ds, names)
  {
    if names != [] {
      RemoveEachKeeps(ds, names[..|names| - 1], d);
      RemoveFirstKeeps(RemoveEach(ds, names[..|names| - 1]), names[|names| - 1], d);
    }
  }

  /** Entry names are distinct within a directory. */
  predicate DistinctNames(ds: seq<Node>) {
    forall i, j :: 0 <= i < j < |ds| ==> ds[i].name != ds[j].name
  }

  /** Every directory of the tree has distinct entry names, as on a real file
      system. */
  predicate DistinctTree(n: Node) {
    n.Dir? ==> DistinctNames(n.children) && forall c :: c in n.children ==> DistinctTree(c)
  }

  /** The entries whose names are not in `names`, in order. */
  function Without(ds: seq<Node>, names: seq<string>): (r: seq<Node>)
    ensures forall d :: d in r ==> d in ds && d.name !in names
  {
    if ds == [] then []
    else (if ds[0].name in names then [] else [ds[0]]) + Without(ds[1..], names)
  }

  lemma {:induction false} WithoutNone(ds: seq<Node>, names: seq<string>)
    requires forall i :: 0 <= i < |ds| ==> ds[i].name !in names
    ensures Without(ds, names) == ds
  {
    if ds != [] {
      WithoutNone(ds[1..], names);
    }
  }

  lemma {:induction false} WithoutDistinct(ds: seq<Node>, names: seq<string>)
    requires DistinctNames(ds)
    ensures DistinctNames(Without(ds, names))
  {
    if ds != [] {
      WithoutDistinct(ds[1..], names);
      var rest := Without(ds[1..], names);
      forall d | d in rest
        ensures d.name != ds[0].name
      {
        var j :| 0 <= j < |ds[1..]| && ds[1..][j] == d;
        assert ds[j + 1] == d;
      }
    }
  }

  lemma {:induction false} WithoutWithout(ds: seq<Node>, a: seq<string>, b: seq<string>)
    ensures Without(Without(ds, a), b) == Without(ds, a + b)
  {
    if ds != [] {
      WithoutWithout(ds[1..], a, b);
      var rest := Without(ds[1..], a);
      if ds[0].name in a {
        assert Without(ds, a) == rest;
      } else {
        assert Without(ds, a) == [ds[0]] + rest;
        assert ([ds[0]] + rest)[1..] == rest;
      }
    }
  }

  lemma {:induction false} WithoutSameNames(ds: seq<Node>, a: seq<string>, b: seq<string>)
    requires forall x :: x in a <==> x in b
    ensures Without(ds, a) == Without(ds, b)
  {
    if ds != [] {
      WithoutSameNames(ds[1..], a, b);
    }
  }

  /** With distinct names, a removal is a filter. */
  lemma {:induction false} RemoveFirstIsWithout(ds: seq<Node>, x: string)
    requires DistinctNames(ds)
    ensures RemoveFirst(ds, x) == Without(ds, [x])
  {
    if ds != [] {
      if ds[0].name == x {
        forall i | 0 <= i < |ds[1..]|
          ensures ds[1..][i].name !in [x]
        {
          assert ds[1..][i] == ds[i + 1];
        }
        WithoutNone(ds[1..], [x]);
      } else {
        RemoveFirstIsWithout(ds[1..], x);
      }
    }
  }

  lemma {:induction false} RemoveEachIsWithout(ds: seq<Node>, names: seq<string>)
    requires DistinctNames(ds)
    ensures RemoveEach(ds, names) == Without(ds, names)
  {
    if names == [] {
      WithoutNone(ds, names);
    } else {
      var init := names[..|names| - 1];
      var last := names[|names| - 1];
      assert init + [last] == names;
      calc {
        RemoveEach(ds, names);
        RemoveFirst(RemoveEach(ds, init), last);
        { RemoveEachIsWithout(ds, init); }
        RemoveFirst(Without(ds, init), last);
        { WithoutDistinct(ds, init); RemoveFirstIsWithout(Without(ds, init), last); }
        Without(Without(ds, init), [last]);
        { WithoutWithout(ds, init, [last]); }
        Without(ds, names);
      }
    }
  }

  /** With distinct names, the pruning of one level drops exactly the entries
      named in the list and keeps the others in order; the extra `__pycache__`
      removal before the loop changes nothing. */
  lemma PruneIsFilter(ds: seq<Node>)
    requires DistinctNames(ds)
    ensures Prune(ds) == Without(ds, PrunedDirs)
    ensures Prune(ds) == RemoveEach(ds, PrunedDirs)
  {
    RemoveFirstIsWithout(ds, PyCache);
    WithoutDistinct(ds, [PyCache]);
    RemoveEachIsWithout(Without(ds, [PyCache]), PrunedDirs);
    WithoutWithout(ds, [PyCache], PrunedDirs);
    WithoutSameNames(ds, [PyCache] + PrunedDirs, PrunedDirs);
    RemoveEachIsWithout(ds, PrunedDirs);
  }

  lemma {:induction false} DirEntriesDistinct(cs: seq<Node>)
    requires DistinctNames(cs)
    ensures DistinctNames(DirEntries(cs))
  {
    if cs != [] {
      DirEntriesDistinct(cs[1..]);
      forall d | d in DirEntries(cs[1..])
        ensures d.name != cs[0].name
      {
        var j :| 0 <= j < |cs[1..]| && cs[1..][j] == d;
        assert cs[j + 1] == d;
      }
    }
  }

  // ---------------------------------------------------------------------------
  // The recursive collection: a top-down walk

  /** The subdirectories of `node` that survive the pruning, in order. */
  function Subdirs(node: Node): (r: seq<Node>)
    requires node.Dir?
    ensures forall d :: d in r ==> d in node.children && d.Dir?
  {
    Prune(DirEntries(node.children))
  }

  /** The pieces one after another. */
  function Concat(parts: seq<seq<string>>): seq<string> {
    if parts == [] then [] else Concat(parts[..|parts| - 1]) + parts[|parts| - 1]
  }

  /** A string is in a concatenation exactly when it is in one of the pieces. */
  lemma {:induction false} ConcatMembers(parts: seq<seq<string>>, p: string)
    ensures p in Concat(parts) <==> exists i :: 0 <= i < |parts| && p in parts[i]
  {
    if parts != [] {
      var init := parts[..|parts| - 1];
      ConcatMembers(init, p);
      if exists i :: 0 <= i < |parts| && p in parts[i] {
        var i :| 0 <= i < |parts| && p in parts[i];
        if i < |parts| - 1 {
          assert p in init[i];
        }
      }
      if p in Concat(init) {
        var i :| 0 <= i < |init| && p in init[i];
        assert p in parts[i];
      }
    }
  }

  /** The non-ignored files found by walking the directory `node` at path
      `root`: its own files, in listing order, then what each surviving
      subdirectory yields, in listing order. */
  function Walk(node: Node, root: string, ignored: string -> bool): seq<string>
    decreases node, 1
  {
    if !node.Dir? then []
    else Kept(EntryPaths(root, FileEntries(node.children)), ignored) + Concat(SubWalks(node, root, ignored))
  }

  /** What each surviving subdirectory of `node` yields, in order. */
  function SubWalks(node: Node, root: string, ignored: string -> bool): (r: seq<seq<string>>)
    requires node.Dir?
    decreases node, 0
  {
    var ds := Subdirs(node);
    seq(|ds|, i requires 0 <= i < |ds| =>
      assert ds[i] in node.children;
      Walk(ds[i], Join(root, ds[i].name), ignored))
  }

  /** The loop over the files of one level: the paths that are not ignored. */
  method WalkFiles(files: seq<Node>, root: string, ignored: string -> bool) returns (found: seq<string>)
    ensures found == Kept(EntryPaths(root, files), ignored)
  {
    found := [];
    for i := 0 to |files|
      invariant found == Kept(EntryPaths(root, files[..i]), ignored)
    {
      assert files[..i + 1][..i] == files[..i];
      var path := Join(root, files[i].name);
      assert EntryPaths(root, files[..i + 1]) == EntryPaths(root, files[..i]) + [path];
      if !ignored(path) {
        found := found + [path];
      }
    }
    assert files[..|files|] == files;
  }

  /** `os.walk` with the pruning and filtering of the loop body: the files of
      this level are collected first, then each surviving subdirectory is
      walked, in order. */
  method WalkDirectory(node: Node, root: string, ignored: string -> bool) returns (found: seq<string>)
    ensures found == Walk(node, root, ignored)
    decreases node
  {
    if !node.Dir? {
      return [];
    }
    var dirs := DirEntries(node.children);
    dirs := PruneDirs(dirs);
    assert dirs == Subdirs(node);
    var own := WalkFiles(FileEntries(node.children), root, ignored);
    var below: seq<string> := [];
    ghost var parts := SubWalks(node, root, ignored);
    for j := 0 to |dirs|
      invariant below == Concat(parts[..j])
    {
      assert parts[..j + 1][..j] == parts[..j];
      assert dirs[j] in node.children;
      var sub := WalkDirectory(dirs[j], Join(root, dirs[j].name), ignored);
      assert sub == parts[j];
      below := below + sub;
    }
    assert parts[..|dirs|] == parts;
    found := own + below;
  }

  /** The path of an entry reached from `root` through the names of `chain`. */
  function PathOf(root: string, chain: seq<string>): string
    decreases |chain|
  {
    if chain == [] then root else PathOf(Join(root, chain[0]), chain[1..])
  }

  /** `chain` names a non-directory entry below `node`, reached through
      subdirectories that are not pruned. */
  predicate Visible(node: Node, chain: seq<string>)
    decreases node
  {
    node.Dir? && |chain| >= 1 &&
    if |chain| == 1 then
      exists c :: c in node.children && !c.Dir? && c.name == chain[0]
    else
      chain[0] !in PrunedDirs &&
      exists c :: c in node.children && c.Dir? && c.name == chain[0] && Visible(c, chain[1..])
  }

  lemma EntryPathsMember(root: string, fs: seq<Node>, p: string) returns (i: int)
    requires p in EntryPaths(root, fs)
    ensures 0 <= i < |fs| && p == Join(root, fs[i].name)
  {
    var r := EntryPaths(root, fs);
    i :| 0 <= i < |r| && r[i] == p;
  }

  /** A file collected at the top level of a walk is reached by a one-name
      chain. */
  lemma OwnFileVisible(node: Node, root: string, ignored: string -> bool, p: string) returns (chain: seq<string>)
    requires node.Dir? && p in Kept(EntryPaths(root, FileEntries(node.children)), ignored)
    ensures Visible(node, chain) && p == PathOf(root, chain) && !ignored(p)
  {
    var files := FileEntries(node.children);
    KeptMembers(EntryPaths(root, files), ignored);
    var i := EntryPathsMember(root, files, p);
    chain := [files[i].name];
    assert files[i] in node.children;
    assert PathOf(root, chain) == PathOf(Join(root, files[i].name), []);
  }

  /** A surviving subdirectory of a tree with distinct names is not named in
      the prune list. */
  lemma SubdirNotPruned(node: Node, i: int)
    requires node.Dir? && DistinctNames(node.children) && 0 <= i < |Subdirs(node)|
    ensures Subdirs(node)[i].name !in PrunedDirs
  {
    DirEntriesDistinct(node.children);
    PruneIsFilter(DirEntries(node.children));
    assert Subdirs(node)[i] in Without(DirEntries(node.children), PrunedDirs);
  }

  /** Every walked file lies below `root` along a visible chain and is not
      ignored; in particular nothing below a pruned directory is collected. */
  lemma {:induction false} WalkSound(node: Node, root: string, ignored: string -> bool, p: string) returns (chain: seq<string>)
    requires DistinctTree(node) && p in Walk(node, root, ignored)
    ensures Visible(node, chain) && p == PathOf(root, chain) && !ignored(p)
    decreases node
  {
    var own := Kept(EntryPaths(root, FileEntries(node.children)), ignored);
    var parts := SubWalks(node, root, ignored);
    if p in own {
      chain := OwnFileVisible(node, root, ignored, p);
    } else {
      assert p in Concat(parts);
      ConcatMembers(parts, p);
      var i :| 0 <= i < |parts| && p in parts[i];
      var d := Subdirs(node)[i];
      SubdirNotPruned(node, i);
      assert d in node.children;
      var sub := WalkSound(d, Join(root, d.name), ignored, p);
      chain := [d.name] + sub;
      assert chain[1..] == sub;
    }
  }

  /** Nothing the walk collects is ignored, on any tree. */
  lemma {:induction false} WalkNotIgnored(node: Node, root: string, ignored: string -> bool, p: string)
    requires p in Walk(node, root, ignored)
    ensures !ignored(p)
    decreases node
  {
    var own := Kept(EntryPaths(root, FileEntries(node.children)), ignored);
    var parts := SubWalks(node, root, ignored);
    if p in own {
      KeptMembers(EntryPaths(root, FileEntries(node.children)), ignored);
    } else {
      assert p in Concat(parts);
      ConcatMembers(parts, p);
      var i :| 0 <= i < |parts| && p in parts[i];
      var d := Subdirs(node)[i];
      assert d in node.children;
      WalkNotIgnored(d, Join(root, d.name), ignored, p);
    }
  }

  /** Every non-ignored file along a visible chain is walked. */
  lemma {:induction false} WalkComplete(node: Node, root: string, ignored: string -> bool, chain: seq<string>)
    requires Visible(node, chain) && !ignored(PathOf(root, chain))
    ensures PathOf(root, chain) in Walk(node, root, ignored)
    decreases node
  {
    var p := PathOf(root, chain);
    var files := FileEntries(node.children);
    var dirs := Subdirs(node);
    if |chain| == 1 {
      var c :| c in node.children && !c.Dir? && c.name == chain[0];
      FileEntriesHas(node.children, c);
      var i :| 0 <= i < |files| && files[i] == c;
      var own := EntryPaths(root, files);
      assert own[i] == p;
      KeptMembers(own, ignored);
    } else {
      var c :| c in node.children && c.Dir? && c.name == chain[0] && Visible(c, chain[1..]);
      WalkComplete(c, Join(root, c.name), ignored, chain[1..]);
      DirEntriesHas(node.children, c);
      RemoveFirstKeeps(DirEntries(node.children), PyCache, c);
      RemoveEachKeeps(RemoveFirst(DirEntries(node.children), PyCache), PrunedDirs, c);
      var i :| 0 <= i < |dirs| && dirs[i] == c;
      var parts := SubWalks(node, root, ignored);
      assert p in parts[i];
      ConcatMembers(parts, p);
    }
  }

  /** The recursive collection, as a set: exactly the non-ignored files reached
      through subdirectories not named `.git`, `.svn`, `.hg`, `__pycache__` or
      `node_modules`. */
  lemma WalkMembers(node: Node, root: string, ignored: string -> bool, p: string)
    requires DistinctTree(node)
    ensures p in Walk(node, root, ignored) <==>
      exists chain :: Visible(node, chain) && p == PathOf(root, chain) && !ignored(p)
  {
    if p in Walk(node, root, ignored) {
      var chain := WalkSound(node, root, ignored, p);
    }
    if exists chain :: Visible(node, chain) && p == PathOf(root, chain) && !ignored(p) {
      var chain :| Visible(node, chain) && p == PathOf(root, chain) && !ignored(p);
      WalkComplete(node, root, ignored, chain);
    }
  }

  // ---------------------------------------------------------------------------
  // The non-recursive collection: one listing

  /** Whether the listing keeps entry `c` of directory `dir`. */
  predicate Listed(c: Node, dir: string, ignored: string -> bool) {
    c.name != PyCache && c.File? && !ignored(Join(dir, c.name))
  }

  /** The kept entries of one listing, in order. */
  function Listing(cs: seq<Node>, dir: string, ignored: string -> bool): seq<string> {
    if cs == [] then []
    else
      var c := cs[|cs| - 1];
      Listing(cs[..|cs| - 1], dir, ignored) + (if Listed(c, dir, ignored) then [Join(dir, c.name)] else [])
  }

  /** The listing loop over `os.listdir`. */
  method ListDirectory(node: Node, dir: string, ignored: string -> bool) returns (found: seq<string>)
    requires node.Dir?
    ensures found == Listing(node.children, dir, ignored)
  {
    found := [];
    var items := node.children;
    for i := 0 to |items|
      invariant found == Listing(items[..i], dir, ignored)
    {
      assert items[..i + 1][..i] == items[..i];
      var item := items[i];
      if item.name == PyCache {
        continue;
      }
      var path := Join(dir, item.name);
      if item.File? && !ignored(path) {
        found := found + [path];
      }
    }
    assert items[..|items|] == items;
  }

  /** A non-recursive collection holds exactly the regular files directly in
      the directory, other than one named `__pycache__`, that are not ignored. */
  lemma {:induction false} ListingMembers(cs: seq<Node>, dir: string, ignored: string -> bool, p: string)
    ensures p in Listing(cs, dir, ignored) <==>
      exists c :: c in cs && c.File? && c.name != PyCache && p == Join(dir, c.name) && !ignored(p)
  {
    if cs != [] {
      ListingMembers(cs[..|cs| - 1], dir, ignored, p);
      assert cs == cs[..|cs| - 1] + [cs[|cs| - 1]];
    }
  }

  /** A listing keeps the entries in listing order. */
  lemma {:induction false} ListingConcat(a: seq<Node>, b: seq<Node>, dir: string, ignored: string -> bool)
    ensures Listing(a + b, dir, ignored) == Listing(a, dir, ignored) + Listing(b, dir, ignored)
    decreases |b|
  {
    if b == [] {
      assert a + b == a;
    } else {
      ListingConcat(a, b[..|b| - 1], dir, ignored);
      assert (a + b)[..|a + b| - 1] == a + b[..|b| - 1];
      assert (a + b)[|a + b| - 1] == b[|b| - 1];
    }
  }

  /** The two modes disagree on a directory holding one non-directory entry
      that is `__pycache__` or not a regular file: the walk collects it, the
      listing does not. */
  lemma ModesDiffer(name: string, c: Node, root: string, ignored: string -> bool)
    requires !c.Dir? && (c.Special? || c.name == PyCache)
    requires !ignored(Join(root, c.name))
    ensures Walk(Dir(name, [c]), root, ignored) == [Join(root, c.name)]
    ensures Listing([c], root, ignored) == []
  {
    var node := Dir(name, [c]);
    assert FileEntries(node.children) == [c];
    assert DirEntries(node.children) == [];
    assert EntryPaths(root, [c]) == [Join(root, c.name)];
    assert [Join(root, c.name)][..0] == [];
    PruneEmpty();
    assert Subdirs(node) == [];
    assert SubWalks(node, root, ignored) == [];
    assert Kept([Join(root, c.name)], ignored) == [Join(root, c.name)];
    assert [c][..0] == [];
  }

  lemma PruneEmpty()
    ensures Prune([]) == []
  {
    RemoveEachIsWithout([], PrunedDirs);
  }

  // ---------------------------------------------------------------------------
  // process_directory

  /** The candidates of either mode. */
  function Collected(node: Node, root: string, recursive: bool, ignored: string -> bool): seq<string>
    requires node.Dir?
  {
    if recursive then Walk(node, root, ignored) else Listing(node.children, root, ignored)
  }

  /** `process_directory`: collects the candidates, then reads each. Reading
      never raises, so no failure is ever recorded. */
  method ProcessDirectory(node: Node, root: string, recursive: bool, ignored: string -> bool, disk: string -> TextRead)
    returns (results: seq<Record>, errors: seq<Failure>)
    requires node.Dir?
    ensures results == ReadAll(Collected(node, root, recursive, ignored), disk)
    ensures errors == []
  {
    var candidates: seq<string>;
    if recursive {
      candidates := WalkDirectory(node, root, ignored);
    } else {
      candidates := ListDirectory(node, root, ignored);
    }
    results, errors := ReadEach(candidates, disk);
  }

  /** The reading loop of `process_directory`. */
  method ReadEach(paths: seq<string>, disk: string -> TextRead) returns (results: seq<Record>, errors: seq<Failure>)
    ensures results == ReadAll(paths, disk)
    ensures errors == []
  {
    results := [];
    errors := [];
    for i := 0 to |paths|
      invariant results == ReadAll(paths[..i], disk)
      invariant errors == []
    {
      assert paths[..i + 1][..i] == paths[..i];
      var content := ReadFile(disk(paths[i]));
      results := results + [Record(paths[i], content)];
    }
    assert paths[..|paths|] == paths;
  }
}
