/** One directory tree under the benchmark directory, and the loops that write and clean it. */
module BenchTree {
  import opened BenchDatasets

  /** dirs holds the subdirectories below the top one, as non-empty component lists. */
  type Dir = seq<string>

  datatype Tree = Tree(files: Files, dirs: set<Dir>)

  const EMPTY_TREE := Tree(map[], {})

  function DirName(p: Dir): seq<string>
    requires |p| > 0
  {
    p[..|p| - 1]
  }

  function Ancestors(p: Dir): set<Dir> {
    set k | 0 < k < |p| :: p[..k]
  }

  function DirsOf(names: set<Path>): set<Dir> {
    set p, k | p in names && 0 < k < |p| :: p[..k]
  }

  /** No name is a directory prefix of another. */
  ghost predicate PrefixFree(names: set<Path>) {
    forall p, q :: p in names && q in names ==> !(p < q)
  }

  predicate IsDir(t: Tree, d: Dir) {
    d == [] || (|d| > 0 && d in t.dirs)
  }

  /** Every file and directory has its parent directory; only names and their directories occur. */
  ghost predicate TreeOk(t: Tree, names: set<Path>) {
    && t.files.Keys <= names
    && t.dirs <= DirsOf(names)
    && (forall p :: p in t.files ==> IsDir(t, DirName(p)))
    && (forall d :: d in t.dirs ==> Ancestors(d) <= t.dirs)
  }

  // ----- system calls; each requires what makes it succeed

  /** os.makedirs below the top directory. */
  function MakeDirs(t: Tree, d: Dir): Tree
    requires Ancestors(d) + {d} !! t.files.Keys
  {
    t.(dirs := t.dirs + Ancestors(d) + {d})
  }

  /** Opening for append, which creates a missing file. */
  function OpenAppend(t: Tree, p: Path): Tree
    requires IsDir(t, DirName(p)) && p !in t.dirs
  {
    t.(files := t.files[p := SizeIn(t.files, p)])
  }

  function Truncate(t: Tree, p: Path): Tree
    requires p in t.files
  {
    t.(files := t.files[p := 0])
  }

  function Write(t: Tree, p: Path, n: nat): Tree
    requires p in t.files
  {
    t.(files := t.files[p := t.files[p] + n])
  }

  function Unlink(t: Tree, p: Path): Tree
    requires p in t.files
  {
    t.(files := t.files - {p})
  }

  // ----- datasets as the lists the constructor turns them into

  type Listing = seq<(Path, nat)>

  predicate NoDup(ds: Listing) {
    forall i, j :: 0 <= i < j < |ds| ==> ds[i].0 != ds[j].0
  }

  /** A list that names no file twice. */
  type Distinct = ds: Listing | NoDup(ds)

  function ToFiles(ds: Listing): Files {
    if ds == [] then map[] else ToFiles(ds[..|ds| - 1])[ds[|ds| - 1].0 := ds[|ds| - 1].1]
  }

  lemma {:induction false} ToFilesMembers(ds: Listing)
    ensures forall p :: p in ToFiles(ds) <==> exists i :: 0 <= i < |ds| && ds[i].0 == p
  {
    if ds != [] {
      var front := ds[..|ds| - 1];
      ToFilesMembers(front);
      assert ds == front + [ds[|ds| - 1]];
    }
  }

  lemma ToFilesNext(ds: Listing, i: nat)
    requires i < |ds| && NoDup(ds)
    ensures ToFiles(ds[..i + 1]) == ToFiles(ds[..i])[ds[i].0 := ds[i].1]
    ensures ds[i].0 !in ToFiles(ds[..i])
  {
    assert ds[..i + 1][..i] == ds[..i];
    ToFilesMembers(ds[..i]);
  }

  // ----- run_directory

  /** What run_directory does to a tree; reset is set when files are unlinked or read first. */
  function RunTree(t: Tree, ds: Files, reset: bool): Tree {
    Tree(if reset then Overlay(t.files, ds) else Append(t.files, ds), t.dirs + DirsOf(ds.Keys))
  }

  /** The directories and the files of the result, one by one. */
  lemma RunTreeMembers(t: Tree, ds: Files, reset: bool, x: Dir, p: Path)
    ensures var u := RunTree(t, ds, reset);
      && (x in u.dirs <==> x in t.dirs || exists q, k :: q in ds && 0 < k < |q| && x == q[..k])
      && (p in u.files <==> p in t.files || p in ds)
      && (p in t.files && p !in ds ==> u.files[p] == t.files[p])
      && (p in ds ==> u.files[p] == if p in t.files && !reset then t.files[p] + ds[p] else ds[p])
  {
  }

  lemma NamesAreNotDirs(t: Tree, names: set<Path>, p: Path)
    requires PrefixFree(names) && TreeOk(t, names) && p in names
    ensures p !in t.dirs && Ancestors(p) !! t.files.Keys
  {
    forall d | d in Ancestors(p)
      ensures d !in t.files.Keys
    {
      var k :| 0 < k < |p| && d == p[..k];
      assert d < p;
    }
  }

  lemma AncestorsStep(d: Dir)
    requires |d| > 0
    ensures Ancestors(d) == (if |d| == 1 then {} else Ancestors(DirName(d)) + {DirName(d)})
  {
    var p := DirName(d);
    assert forall k :: 0 < k < |d| - 1 ==> d[..k] == p[..k];
    assert forall x: Dir :: x in Ancestors(d) ==> |d| > 1 && (x == p || x in Ancestors(p));
    assert forall x: Dir :: |d| > 1 && x in Ancestors(p) ==> x in Ancestors(d);
  }

  /** The directories a path needs: its ancestors are its parent and the parent's ancestors, and a
      set closed under parents that holds the parent holds them all. */
  ghost predicate ClosedUp(seen: set<Dir>) {
    forall d :: d in seen ==> Ancestors(d) <= seen
  }

  /** The loop that enters a directory and, going up, each of its ancestors. */
  method MarkSeen(seen0: set<Dir>, dname0: Dir) returns (seen: set<Dir>)
    ensures seen == seen0 + Ancestors(dname0) + (if |dname0| > 0 then {dname0} else {})
  {
    seen := seen0;
    var dname := dname0;
    while |dname| > 0
      invariant seen + Ancestors(dname) + (if |dname| > 0 then {dname} else {})
             == seen0 + Ancestors(dname0) + (if |dname0| > 0 then {dname0} else {})
    {
      AncestorsStep(dname);
      seen := seen + {dname};
      dname := DirName(dname);
    }
  }

  /** The loop that writes full buffers and, last, what is left. */
  method WriteChunks(t0: Tree, p: Path, size: nat, bufsize: nat) returns (t: Tree)
    requires bufsize > 0 && p in t0.files
    ensures t == Write(t0, p, size)
  {
    t := t0;
    var sz := size;
    while sz > 0
      invariant p in t.files && 0 <= sz <= size
      invariant t == Write(t0, p, size - sz)
    {
      var cur := if sz < bufsize then sz else bufsize;
      t := Write(t, p, cur);
      sz := sz - cur;
    }
  }

  /** One round of the loop body after the parent directory is in place. */
  method WriteOne(t0: Tree, p: Path, size: nat, bufsize: nat, unlink: bool, readfirst: bool) returns (t: Tree)
    requires bufsize > 0 && IsDir(t0, DirName(p)) && p !in t0.dirs
    ensures t == t0.(files := t0.files[p := (if unlink || readfirst then 0 else SizeIn(t0.files, p)) + size])
  {
    t := t0;
    if unlink && p in t.files {
      t := Unlink(t, p);
    }
    t := OpenAppend(t, p);
    if readfirst {
      t := Truncate(t, p);
    }
    t := WriteChunks(t, p, size, bufsize);
  }

  /** The parent directory is made unless it was seen before; either way it is there afterwards. */
  method EnsureParent(t0: Tree, seen0: set<Dir>, p: Path, ghost names: set<Path>) returns (t: Tree, seen: set<Dir>)
    requires PrefixFree(names) && TreeOk(t0, names) && p in names
    requires ClosedUp(seen0) && seen0 <= t0.dirs
    ensures t == t0.(dirs := t0.dirs + Ancestors(p)) && TreeOk(t, names)
    ensures ClosedUp(seen) && seen <= t.dirs
    ensures IsDir(t, DirName(p)) && p !in t.dirs
  {
    t, seen := t0, seen0;
    NamesAreNotDirs(t, names, p);
    AncestorsStep(p);
    var dname := DirName(p);
    if |dname| > 0 && dname !in seen {
      t := MakeDirs(t, dname);
      seen := MarkSeen(seen, dname);
      AncestorsClosed(dname);
    }
    assert t == t0.(dirs := t0.dirs + Ancestors(p));
    MoreDirs(t0, names, p);
    NamesAreNotDirs(t, names, p);
  }

  lemma WrittenTreeOk(t: Tree, u: Tree, names: set<Path>, p: Path, size: nat)
    requires TreeOk(t, names) && p in names && IsDir(t, DirName(p))
    requires u == t.(files := t.files[p := size])
    ensures TreeOk(u, names)
  {
    forall q | q in u.files
      ensures IsDir(u, DirName(q))
    {
      assert q == p || IsDir(t, DirName(q));
    }
  }

  /** One entry of the dataset: the directories it needs, then the file. */
  method RunEntry(t0: Tree, seen0: set<Dir>, p: Path, size: nat, ghost names: set<Path>, bufsize: nat,
                  unlink: bool, readfirst: bool)
    returns (t: Tree, seen: set<Dir>)
    requires bufsize > 0 && PrefixFree(names) && TreeOk(t0, names) && p in names
    requires ClosedUp(seen0) && seen0 <= t0.dirs
    ensures TreeOk(t, names) && ClosedUp(seen) && seen <= t.dirs
    ensures EntryWritten(t0, t, p, size, unlink || readfirst)
  {
    t, seen := EnsureParent(t0, seen0, p, names);
    ghost var u := t;
    t := WriteOne(t, p, size, bufsize, unlink, readfirst);
    WrittenTreeOk(u, t, names, p, t.files[p]);
  }

  /** Whatever tree it is given, every open finds its parent directory. */
  method RunDirectory(t0: Tree, ds: Listing, ghost names: set<Path>, bufsize: nat, unlink: bool, readfirst: bool)
    returns (t: Tree)
    requires bufsize > 0 && NoDup(ds) && PrefixFree(names)
    requires TreeOk(t0, names) && ToFiles(ds).Keys <= names
    ensures TreeOk(t, names)
    ensures t == RunTree(t0, ToFiles(ds), unlink || readfirst)
  {
    t := t0;
    var seen: set<Dir> := {};
    ghost var reset := unlink || readfirst;
    RunNothing(t0, reset);
    for i := 0 to |ds|
      invariant TreeOk(t, names)
      invariant t == RunTree(t0, ToFiles(ds[..i]), reset)
      invariant ClosedUp(seen) && seen <= t.dirs
    {
      var p, size := ds[i].0, ds[i].1;
      EntryNamed(ds, i, names);
      t, seen := RunEntry(t, seen, p, size, names, bufsize, unlink, readfirst);
      RunListingNext(t0, ds, i, reset, t);
    }
    assert ds[..|ds|] == ds;
  }

  lemma EntryNamed(ds: Listing, i: nat, names: set<Path>)
    requires i < |ds| && ToFiles(ds).Keys <= names
    ensures ds[i].0 in names
  {
    ToFilesMembers(ds);
  }

  lemma RunNothing(t: Tree, reset: bool)
    ensures RunTree(t, map[], reset) == t
  {
  }

  lemma AncestorsClosed(d: Dir)
    ensures ClosedUp(Ancestors(d))
    ensures |d| > 0 ==> ClosedUp(Ancestors(d) + {d})
  {
    forall x, y | x in Ancestors(d) && y in Ancestors(x)
      ensures y in Ancestors(d)
    {
      var k :| 0 < k < |d| && x == d[..k];
      var j :| 0 < j < |x| && y == x[..j];
      assert y == d[..j];
    }
  }

  lemma MoreDirs(t: Tree, names: set<Path>, p: Path)
    requires TreeOk(t, names) && p in names
    ensures TreeOk(t.(dirs := t.dirs + Ancestors(p)), names)
  {
    AncestorsClosed(p);
    var u := t.(dirs := t.dirs + Ancestors(p));
    forall q | q in u.files
      ensures IsDir(u, DirName(q))
    {
      assert IsDir(t, DirName(q));
    }
  }

  lemma OverlayNext(files: Files, ds: Files, p: Path, size: nat)
    ensures Overlay(files, ds[p := size]) == Overlay(files, ds)[p := size]
  {
  }

  lemma AppendNext(files: Files, ds: Files, p: Path, size: nat)
    requires p !in ds
    ensures Append(files, ds[p := size]) == Append(files, ds)[p := SizeIn(Append(files, ds), p) + size]
  {
    assert SizeIn(Append(files, ds), p) == SizeIn(files, p);
  }

  lemma DirsNext(names: set<Path>, p: Path)
    ensures DirsOf(names + {p}) == DirsOf(names) + Ancestors(p)
  {
  }

  /** u is t after the entry (p, size) was written. */
  ghost predicate EntryWritten(t: Tree, u: Tree, p: Path, size: nat, reset: bool) {
    && u.dirs == t.dirs + Ancestors(p)
    && u.files == t.files[p := (if reset then 0 else SizeIn(t.files, p)) + size]
  }

  lemma RunTreeNext(t0: Tree, ds: Files, p: Path, size: nat, reset: bool, t: Tree)
    requires p !in ds && EntryWritten(RunTree(t0, ds, reset), t, p, size, reset)
    ensures t == RunTree(t0, ds[p := size], reset)
  {
    if reset {
      OverlayNext(t0.files, ds, p, size);
    } else {
      AppendNext(t0.files, ds, p, size);
    }
    DirsNext(ds.Keys, p);
    assert ds[p := size].Keys == ds.Keys + {p};
    assert t.dirs == RunTree(t0, ds[p := size], reset).dirs;
  }

  lemma RunListingNext(t0: Tree, ds: Listing, i: nat, reset: bool, t: Tree)
    requires i < |ds| && NoDup(ds)
    requires EntryWritten(RunTree(t0, ToFiles(ds[..i]), reset), t, ds[i].0, ds[i].1, reset)
    ensures t == RunTree(t0, ToFiles(ds[..i + 1]), reset)
  {
    ToFilesNext(ds, i);
    RunTreeNext(t0, ToFiles(ds[..i]), ds[i].0, ds[i].1, reset, t);
  }

  // ----- clean_directory and rmrf

  function CleanTree(t: Tree, ds: Files): Tree {
    t.(files := Remove(t.files, ds))
  }

  method CleanDirectory(t0: Tree, ds: Listing) returns (t: Tree)
    requires NoDup(ds) && ToFiles(ds).Keys <= t0.files.Keys
    ensures t == CleanTree(t0, ToFiles(ds))
  {
    t := t0;
    assert ds[..|ds|] == ds;
    for i := 0 to |ds|
      invariant t == CleanTree(t0, ToFiles(ds[..i]))
    {
      ToFilesNext(ds, i);
      EntryNamed(ds, i, ToFiles(ds).Keys);
      t := Unlink(t, ds[i].0);
    }
  }

  /** The bottom-up walk removes every file and every subdirectory; the top directory stays. Each
      rmdir meets an empty directory because a deepest one is taken. */
  method Rmrf(t0: Tree, ghost names: set<Path>) returns (t: Tree)
    requires TreeOk(t0, names)
    ensures t == EMPTY_TREE
  {
    t := t0;
    while t.files != map[]
      invariant t.dirs == t0.dirs && t.files.Keys <= t0.files.Keys
      decreases t.files.Keys
    {
      var p :| p in t.files;
      t := Unlink(t, p);
    }
    while t.dirs != {}
      invariant t.files == map[]
      decreases t.dirs
    {
      var d := Deepest(t.dirs);
      t := RemoveDir(t, d);
    }
  }

  function RemoveDir(t: Tree, d: Dir): Tree
    requires d in t.dirs
    requires (forall x :: x in t.files ==> !(d < x)) && (forall x :: x in t.dirs ==> !(d < x))
  {
    t.(dirs := t.dirs - {d})
  }

  method Deepest(dirs: set<Dir>) returns (d: Dir)
    requires dirs != {}
    ensures d in dirs && forall x :: x in dirs ==> !(d < x)
  {
    d :| d in dirs;
    var todo := dirs - {d};
    while todo != {}
      invariant todo <= dirs && d in dirs
      invariant forall x :: x in dirs - todo ==> |x| <= |d|
    {
      var x :| x in todo;
      if |x| > |d| {
        d := x;
      }
      todo := todo - {x};
    }
  }

  lemma CleanTreeOk(t: Tree, ds: Files, names: set<Path>)
    requires TreeOk(t, names)
    ensures TreeOk(CleanTree(t, ds), names)
  {
  }
}
