/** compilebench itself: the container of datasets, label dictionaries and counters, the operations
    that pick a directory at random, and the main loops. Every method is proved to do what one
    operation of BenchModel does; all random picks are arbitrary choices. */
module BenchProgram {
  import opened BenchDatasets
  import opened BenchTree
  import opened BenchModel

  /** Compiles of first versions, and nothing else. */
  predicate OnlyCompiles(ops: seq<Op>) {
    forall k :: 0 <= k < |ops| ==> ops[k].Compile? && ops[k].from == Unpatched
  }

  predicate OnlyDeletes(ops: seq<Op>) {
    forall k :: 0 <= k < |ops| ==> ops[k].Delete?
  }

  lemma Associate(a: seq<Op>, b: seq<Op>, op: Op)
    ensures (a + b) + [op] == a + (b + [op])
  {
  }

  function Kernels(n: nat): set<Name> {
    set i | 0 <= i < n :: Kernel(i)
  }

  lemma KernelsNext(n: nat)
    ensures Kernels(n + 1) == Kernels(n) + {Kernel(n)} && Kernel(n) !in Kernels(n)
  {
  }

  function InitialOps(count: nat): seq<Op> {
    if count == 0 then [] else InitialOps(count - 1) + [InitialCreate(Kernel(count - 1))]
  }

  lemma DirsAfter(l: Labels, dir: Name, to: Label)
    ensures forall kind ::
      Dirs(l[dir := to], kind) == if kind == to then Dirs(l, kind) + {dir} else Dirs(l, kind) - {dir}
    ensures forall kind :: Dirs(l - {dir}, kind) == Dirs(l, kind) - {dir}
  {
  }

  lemma DirsDisjoint(l: Labels)
    ensures Dirs(l, Unpatched) !! Dirs(l, UnpatchedCompiled) !! Dirs(l, Patched) !! Dirs(l, PatchedCompiled)
    ensures Dirs(l, Unpatched) + Dirs(l, UnpatchedCompiled) + Dirs(l, Patched) + Dirs(l, PatchedCompiled) <= l.Keys
  {
  }

  lemma OnDisk(d: Raw, ops: seq<Op>, dir: Name)
    requires GoodDatasets(d) && RunEnabled(d, FRESH, ops) && dir in Run(d, FRESH, ops).labels
    ensures dir in Run(d, FRESH, ops).disk
  {
    ReachableInv(d, ops);
  }

  lemma CompileCounts(d: Raw, s: State, op: Op)
    requires Enabled(s, op) && op.Compile? && op.dir in s.disk && Dirs(s.labels, Patched) == {}
    ensures var s' := Step(d, s, op);
      && op.from == Unpatched && |Dirs(s'.labels, Unpatched)| == |Dirs(s.labels, Unpatched)| - 1
      && Dirs(s'.labels, Patched) == {}
      && |s'.labels| == |s.labels| && s'.disk.Keys == s.disk.Keys
  {
    assert op.dir in Dirs(s.labels, op.from);
    DirsAfter(s.labels, op.dir, UnpatchedCompiled);
    AfterUpdate(s.labels, op.dir, UnpatchedCompiled);
  }

  lemma DeleteCounts(d: Raw, s: State, op: Op)
    requires Enabled(s, op) && op.Delete? && op.dir in s.disk
    ensures |Step(d, s, op).labels| == |s.labels| - 1 && Step(d, s, op).disk.Keys == s.disk.Keys
  {
    AfterRemoval(s.labels, op.dir);
  }

  lemma OnlyUnpatched(l: Labels)
    requires Dirs(l, Patched) == Dirs(l, UnpatchedCompiled) == Dirs(l, PatchedCompiled) == {}
    ensures |Dirs(l, Unpatched)| == |l|
  {
    forall x | x in l
      ensures l[x] == Unpatched
    {
      assert x in Dirs(l, l[x]);
    }
    assert Dirs(l, Unpatched) == l.Keys;
  }

  /** The names of a dataset in the order an arbitrary sort or shuffle leaves them in. */
  method Enumerate(d: Files) returns (r: Distinct)
    ensures ToFiles(r) == d
  {
    r := [];
    var todo := d.Keys;
    while todo != {}
      invariant todo <= d.Keys && NoDup(r)
      invariant forall i :: 0 <= i < |r| ==> r[i].0 !in todo
      invariant ToFiles(r) == d - todo
    {
      var x :| x in todo;
      EnumerateNext(d, todo, r, x);
      r := r + [(x, d[x])];
      todo := todo - {x};
    }
    assert d - {} == d;
  }

  lemma EnumerateNext(d: Files, todo: set<Path>, r: Listing, x: Path)
    requires x in todo && x in d && ToFiles(r) == d - todo
    ensures ToFiles(r + [(x, d[x])]) == d - (todo - {x})
  {
    var r' := r + [(x, d[x])];
    assert r'[..|r'| - 1] == r;
    assert (d - todo)[x := d[x]] == d - (todo - {x});
  }

  lemma NoDirs(l: Labels)
    requires forall kind :: Dirs(l, kind) == {}
    ensures l == map[]
  {
    assert forall x :: x in l ==> x in Dirs(l, l[x]);
  }

  lemma PrefixFreeParts(d: Raw)
    requires PrefixFree(NamesOf(d))
    ensures PrefixFree(d.unpatched.Keys) && PrefixFree(d.patched.Keys) && PrefixFree(d.compiled.Keys)
  {
  }

  /** Picks an unused native-N directory, writes the dataset there, walks it and removes it. The
      walk meets exactly the dataset's names, each once, in the file system's order. */
  method NativeOrder(disk0: map<Name, Tree>, dhash: Files, bufsize: nat)
    returns (native: Distinct, disk: map<Name, Tree>)
    requires bufsize > 0 && PrefixFree(dhash.Keys)
    ensures ToFiles(native) == dhash && disk == disk0
  {
    disk := disk0;
    var i := 0;
    while Native(i) in disk
      decreases set n | n in disk && n.Native? && n.n >= i
    {
      ghost var left := set n | n in disk && n.Native? && n.n >= i;
      assert Native(i) in left;
      i := i + 1;
      assert Native(i - 1) !in (set n | n in disk && n.Native? && n.n >= i);
    }
    var tmplist := Enumerate(dhash);
    var t := RunDirectory(EMPTY_TREE, tmplist, dhash.Keys, bufsize, false, false);
    disk := disk[Native(i) := t];
    assert t.files == dhash;
    native := Enumerate(disk[Native(i)].files);
    t := Rmrf(disk[Native(i)], dhash.Keys);
    disk := disk[Native(i) := t];
    disk := disk - {Native(i)};
  }

  /** The constructor's work on the datasets: strip, then turn each into a list. */
  method LoadDatasets(disk0: map<Name, Tree>, raw: Raw, bufsize: nat)
    returns (unpatched: Distinct, patched: Distinct, unpatchedCompiled: Distinct, compiled: Distinct,
             disk: map<Name, Tree>)
    requires bufsize > 0 && PrefixFree(NamesOf(Strip(raw)))
    ensures Raw(ToFiles(unpatched), ToFiles(patched), ToFiles(unpatchedCompiled), ToFiles(compiled)) == Strip(raw)
    ensures disk == disk0
  {
    var d := StripInPlace(raw);
    PrefixFreeParts(d);
    unpatched, disk := NativeOrder(disk0, d.unpatched, bufsize);
    patched, disk := NativeOrder(disk, d.patched, bufsize);
    unpatchedCompiled := Enumerate(d.unpatchedCompiled);
    compiled, disk := NativeOrder(disk, d.compiled, bufsize);
  }

  class Bench {
    const bufsize: nat
    const unpatched: Distinct
    const patched: Distinct
    const unpatchedCompiled: Distinct
    const compiled: Distinct
    var unpatchedDirs: set<Name>
    var unpatchedCompiledDirs: set<Name>
    var patchedDirs: set<Name>
    var patchedCompiledDirs: set<Name>
    var disk: map<Name, Tree>
    var stats: Stats

    /** The datasets as maps, the operations performed so far and the state they lead to. */
    ghost const d: Datasets
    ghost var ops: seq<Op>
    ghost var model: State

    ghost predicate Loaded() {
      d == Raw(ToFiles(unpatched), ToFiles(patched), ToFiles(unpatchedCompiled), ToFiles(compiled))
    }

    /** The four dictionaries are one map from directory to label, read label by label. */
    ghost predicate Mirrors(l: Labels)
      reads `unpatchedDirs, `unpatchedCompiledDirs, `patchedDirs, `patchedCompiledDirs
    {
      && unpatchedDirs == Dirs(l, Unpatched)
      && unpatchedCompiledDirs == Dirs(l, UnpatchedCompiled)
      && patchedDirs == Dirs(l, Patched)
      && patchedCompiledDirs == Dirs(l, PatchedCompiled)
    }

    ghost predicate Reached(d: Raw)
      reads `ops, `model
    {
      RunEnabled(d, FRESH, ops) && model == Run(d, FRESH, ops)
    }

    ghost predicate Valid()
      reads this
    {
      && bufsize > 0 && Loaded() && Reached(d)
      && disk == model.disk && stats == model.stats && Mirrors(model.labels)
    }

    /** The dictionaries never share a directory and list only directories that exist. */
    lemma DictionariesDisjoint()
      requires Valid()
      ensures unpatchedDirs !! unpatchedCompiledDirs !! patchedDirs !! patchedCompiledDirs
      ensures unpatchedDirs + unpatchedCompiledDirs + patchedDirs + patchedCompiledDirs <= disk.Keys
    {
      ReachableInv(d, ops);
      DirsDisjoint(model.labels);
    }

    /** On a fresh benchmark directory. */
    constructor (raw: Raw, bufsize: nat)
      requires bufsize > 0 && PrefixFree(NamesOf(Strip(raw)))
      ensures Valid() && d == Strip(raw) && ops == [] && model == FRESH
    {
      this.bufsize := bufsize;
      var u, p, uc, c, disk0 := LoadDatasets(map[], raw, bufsize);
      unpatched, patched, unpatchedCompiled, compiled, disk := u, p, uc, c, disk0;
      StripIsStripped(raw);
      d := Strip(raw);
      unpatchedDirs, unpatchedCompiledDirs, patchedDirs, patchedCompiledDirs := {}, {}, {}, {};
      stats := NO_STATS;
      ops, model := [], FRESH;
      new;
      assert forall kind :: Dirs(map[], kind) == {};
    }

    /** dir's tree is written and its entry moves from one dictionary to another. */
    method Move(from: Label, to: Label, dir: Name, ghost l: Labels)
      requires from != to && Mirrors(l) && Has(l, dir, from)
      modifies `unpatchedDirs, `unpatchedCompiledDirs, `patchedDirs, `patchedCompiledDirs
      ensures Mirrors(l[dir := to])
    {
      match from {
        case Unpatched => unpatchedDirs := unpatchedDirs - {dir};
        case UnpatchedCompiled => unpatchedCompiledDirs := unpatchedCompiledDirs - {dir};
        case Patched => patchedDirs := patchedDirs - {dir};
        case PatchedCompiled => patchedCompiledDirs := patchedCompiledDirs - {dir};
      }
      match to {
        case Unpatched => unpatchedDirs := unpatchedDirs + {dir};
        case UnpatchedCompiled => unpatchedCompiledDirs := unpatchedCompiledDirs + {dir};
        case Patched => patchedDirs := patchedDirs + {dir};
        case PatchedCompiled => patchedCompiledDirs := patchedCompiledDirs + {dir};
      }
      DirsAfter(l, dir, to);
    }

    lemma Listed(from: Label, dir: Name)
      requires Valid() && Has(model.labels, dir, from)
      ensures dir in disk && TreeOk(disk[dir], NamesOf(d)) && HasContents(d, from, disk[dir].files)
    {
      ReachableInv(d, ops);
      BenchModel.Listed(d, model, dir);
    }

    /** patch_one_dir: 0 if nothing can be patched; the unlink choice does not show afterwards. */
    method PatchOneDir() returns (r: nat, ghost op: Op)
      requires Valid()
      modifies `unpatchedDirs, `unpatchedCompiledDirs, `patchedDirs, `patchedCompiledDirs, `disk, `stats, `ops, `model
      ensures Valid()
      ensures r == 0 ==> ops == old(ops) && model == old(model)
      ensures r == 0 ==> old(unpatchedDirs) == {} && old(unpatchedCompiledDirs) == {}
      ensures r != 0 ==> r == 1 && op.Patch? && Enabled(old(model), op)
      ensures r != 0 ==> ops == old(ops) + [op] && model == Step(d, old(model), op)
    {
      if unpatchedDirs == {} && unpatchedCompiledDirs == {} {
        return 0, *;
      }
      var plain: bool :| if plain then unpatchedDirs != {} else unpatchedCompiledDirs != {};
      var dir :| dir in if plain then unpatchedDirs else unpatchedCompiledDirs;
      var from := if plain then Unpatched else UnpatchedCompiled;
      var unlink: bool := *;
      Listed(from, dir);
      var t := RunDirectory(disk[dir], if plain then patched else compiled, NamesOf(d), bufsize, unlink, true);
      op := Patch(from, dir);
      Perform(op, from, PatchedLabel(from), dir, t, stats.(patch := stats.patch + 1));
      r := 1;
    }

    /** compile_one_dir: 0 if nothing can be compiled. */
    method CompileOneDir() returns (r: nat, ghost op: Op)
      requires Valid()
      modifies `unpatchedDirs, `unpatchedCompiledDirs, `patchedDirs, `patchedCompiledDirs, `disk, `stats, `ops, `model
      ensures Valid()
      ensures r == 0 ==> ops == old(ops) && model == old(model) && old(unpatchedDirs) == {} && old(patchedDirs) == {}
      ensures r != 0 ==> r == 1 && op.Compile? && Enabled(old(model), op)
      ensures r != 0 ==> ops == old(ops) + [op] && model == Step(d, old(model), op)
    {
      if unpatchedDirs == {} && patchedDirs == {} {
        return 0, *;
      }
      var plain: bool :| if plain then unpatchedDirs != {} else patchedDirs != {};
      var dir :| dir in if plain then unpatchedDirs else patchedDirs;
      var from := if plain then Unpatched else Patched;
      Listed(from, dir);
      var ds := if plain then unpatchedCompiled else compiled;
      var t := RunDirectory(disk[dir], ds, NamesOf(d), bufsize, false, false);
      op := Compile(from, dir);
      Perform(op, from, CompiledLabel(from), dir, t, stats.(compile := stats.compile + 1));
      r := 1;
    }

    /** clean_one_dir: 0 if nothing is compiled; every unlink finds its file. */
    method CleanOneDir() returns (r: nat, ghost op: Op)
      requires Valid()
      modifies `unpatchedDirs, `unpatchedCompiledDirs, `patchedDirs, `patchedCompiledDirs, `disk, `stats, `ops, `model
      ensures Valid()
      ensures r == 0 ==> ops == old(ops) && model == old(model)
      ensures r == 0 ==> old(unpatchedCompiledDirs) == {} && old(patchedCompiledDirs) == {}
      ensures r != 0 ==> r == 1 && op.Clean? && Enabled(old(model), op)
      ensures r != 0 ==> ops == old(ops) + [op] && model == Step(d, old(model), op)
    {
      if patchedCompiledDirs == {} && unpatchedCompiledDirs == {} {
        return 0, *;
      }
      var plain: bool :| if plain then unpatchedCompiledDirs != {} else patchedCompiledDirs != {};
      var dir :| dir in if plain then unpatchedCompiledDirs else patchedCompiledDirs;
      var from := if plain then UnpatchedCompiled else PatchedCompiled;
      Listed(from, dir);
      CleanKeepsContents(d, from, disk[dir].files);
      var t := CleanDirectory(disk[dir], if plain then unpatchedCompiled else compiled);
      op := Clean(from, dir);
      Perform(op, from, CleanLabel(from), dir, t, stats.(clean := stats.clean + 1));
      r := 1;
    }

    /** The common end of patching, compiling and cleaning: the tree is on disk, the entry has
        moved, the counter is up. */
    method Perform(ghost op: Op, from: Label, to: Label, dir: Name, t: Tree, stats': Stats)
      requires Valid() && Enabled(model, op)
      requires op.dir == dir && Has(model.labels, dir, from) && from != to
      requires Step(d, model, op) == State(model.labels[dir := to], disk[dir := t], stats')
      modifies `unpatchedDirs, `unpatchedCompiledDirs, `patchedDirs, `patchedCompiledDirs, `disk, `stats, `ops, `model
      ensures Valid() && ops == old(ops) + [op] && model == Step(d, old(model), op)
    {
      disk := disk[dir := t];
      Move(from, to, dir, model.labels);
      stats := stats';
      Record(op);
    }

    /** Adds the operation to the history. */
    ghost method Record(op: Op)
      requires Reached(d) && Enabled(model, op)
      modifies `ops, `model
      ensures Reached(d) && ops == old(ops) + [op] && model == Step(d, old(model), op)
    {
      RunNext(d, FRESH, ops, op);
      ops, model := ops + [op], Step(d, model, op);
    }

    method Enter(dir: Name, ghost l: Labels)
      requires Mirrors(l) && dir !in l
      modifies `unpatchedDirs
      ensures unpatchedDirs == old(unpatchedDirs) + {dir} && Mirrors(l[dir := Unpatched])
    {
      unpatchedDirs := unpatchedDirs + {dir};
      DirsAfter(l, dir, Unpatched);
    }

    method Drop(from: Label, dir: Name, ghost l: Labels)
      requires Mirrors(l) && Has(l, dir, from)
      modifies `unpatchedDirs, `unpatchedCompiledDirs, `patchedDirs, `patchedCompiledDirs
      ensures Mirrors(l - {dir})
    {
      match from {
        case Unpatched => unpatchedDirs := unpatchedDirs - {dir};
        case UnpatchedCompiled => unpatchedCompiledDirs := unpatchedCompiledDirs - {dir};
        case Patched => patchedDirs := patchedDirs - {dir};
        case PatchedCompiled => patchedCompiledDirs := patchedCompiledDirs - {dir};
      }
      DirsAfter(l, dir, from);
    }

    lemma NewName(dir: Name)
      requires Valid() && dir !in disk
      ensures dir !in model.labels
    {
      ReachableInv(d, ops);
    }

    method NewTree() returns (t: Tree)
      requires bufsize > 0 && Loaded()
      ensures t == RunTree(EMPTY_TREE, d.unpatched, false)
    {
      t := RunDirectory(EMPTY_TREE, unpatched, NamesOf(d), bufsize, false, false);
    }

    /** run_directory on a new top directory, entered as unpatched. */
    method MakeTree(ghost op: Op, dir: Name, stats': Stats)
      requires Valid() && dir !in disk && (op == Create(dir) || op == InitialCreate(dir))
      requires stats' == Step(d, model, op).stats
      modifies `unpatchedDirs, `unpatchedCompiledDirs, `patchedDirs, `patchedCompiledDirs, `disk, `stats, `ops, `model
      ensures Valid() && ops == old(ops) + [op] && model == Step(d, old(model), op)
      ensures unpatchedDirs == old(unpatchedDirs) + {dir} && patchedDirs == old(patchedDirs)
      ensures disk.Keys == old(disk).Keys + {dir}
    {
      NewName(dir);
      ghost var next := Step(d, model, op);
      var t := NewTree();
      disk := disk[dir := t];
      Enter(dir, model.labels);
      stats := stats';
      Record(op);
    }

    /** create_one_dir draws names until one is free. */
    method CreateOneDir() returns (r: nat, ghost op: Op)
      requires Valid()
      requires NameIsFree()
      modifies `unpatchedDirs, `unpatchedCompiledDirs, `patchedDirs, `patchedCompiledDirs, `disk, `stats, `ops, `model
      ensures Valid()
      ensures r == 1 && op.Create? && Enabled(old(model), op)
      ensures op.dir.Kernel? && 100 <= op.dir.n <= 100000
      ensures ops == old(ops) + [op] && model == Step(d, old(model), op)
    {
      var n :| 100 <= n <= 100000 && Kernel(n) !in disk;
      op := Create(Kernel(n));
      MakeTree(op, Kernel(n), stats.(create := stats.create + 1));
      r := 1;
    }

    /** delete_one_dir: the counter is chosen by comparing dictionaries after the entry is gone. */
    method DeleteOneDir() returns (r: nat, ghost op: Op)
      requires Valid()
      modifies `unpatchedDirs, `unpatchedCompiledDirs, `patchedDirs, `patchedCompiledDirs, `disk, `stats, `ops, `model
      ensures Valid()
      ensures r == 0 ==> ops == old(ops) && model == old(model) && old(model).labels == map[]
      ensures r != 0 ==> r == 1 && op.Delete? && Enabled(old(model), op)
      ensures r != 0 ==> ops == old(ops) + [op] && model == Step(d, old(model), op)
    {
      var from, dir, found := Pick();
      if !found {
        return 0, *;
      }
      Listed(from, dir);
      var t := Rmrf(disk[dir], NamesOf(d));
      op := Delete(from, dir);
      RemoveTree(op, from, dir, t);
      r := 1;
    }

    method RemoveTree(ghost op: Op, from: Label, dir: Name, t: Tree)
      requires Valid() && op == Delete(from, dir) && Enabled(model, op) && t == EMPTY_TREE
      modifies `unpatchedDirs, `unpatchedCompiledDirs, `patchedDirs, `patchedCompiledDirs, `disk, `stats, `ops, `model
      ensures Valid() && ops == old(ops) + [op] && model == Step(d, old(model), op)
    {
      ghost var next := Step(d, model, op);
      disk := disk[dir := t];
      Drop(from, dir, model.labels);
      CompareDictionaries(next.labels, from);
      var ch := Dictionary(from);
      if ch == unpatchedCompiledDirs || ch == patchedCompiledDirs {
        stats := stats.(deleteCompiled := stats.deleteCompiled + 1);
      } else {
        stats := stats.(delete := stats.delete + 1);
      }
      Record(op);
    }

    lemma CompareDictionaries(l: Labels, from: Label)
      requires Mirrors(l)
      ensures Dictionary(from) == Dirs(l, from)
      ensures LooksCompiled(l, from)
         <==> Dictionary(from) == unpatchedCompiledDirs || Dictionary(from) == patchedCompiledDirs
    {
    }

    function Dictionary(kind: Label): set<Name>
      reads this
    {
      match kind
      case Unpatched => unpatchedDirs
      case UnpatchedCompiled => unpatchedCompiledDirs
      case Patched => patchedDirs
      case PatchedCompiled => patchedCompiledDirs
    }

    /** A non-empty dictionary and one of its directories, if there is any. */
    method Pick() returns (from: Label, dir: Name, found: bool)
      requires Valid()
      ensures found ==> Has(model.labels, dir, from)
      ensures !found ==> model.labels == map[]
    {
      var good: seq<Label> := [];
      if patchedDirs != {} {
        good := good + [Patched];
      }
      if unpatchedDirs != {} {
        good := good + [Unpatched];
      }
      if unpatchedCompiledDirs != {} {
        good := good + [UnpatchedCompiled];
      }
      if patchedCompiledDirs != {} {
        good := good + [PatchedCompiled];
      }
      if good == [] {
        NoDirs(model.labels);
        return Unpatched, Kernel(0), false;
      }
      from :| from in good;
      assert Dictionary(from) != {};
      dir :| dir in Dictionary(from);
      found := true;
    }

    /** read_one_dir and stat_one_dir walk a tree without changing it and compare dictionaries. */
    method ReadOneDir() returns (r: nat, ghost op: Op)
      requires Valid()
      modifies `unpatchedDirs, `unpatchedCompiledDirs, `patchedDirs, `patchedCompiledDirs, `disk, `stats, `ops, `model
      ensures Valid()
      ensures r == 0 ==> ops == old(ops) && model == old(model) && old(model).labels == map[]
      ensures r != 0 ==> r == 1 && op.Read? && Enabled(old(model), op)
      ensures r != 0 ==> ops == old(ops) + [op] && model == Step(d, old(model), op)
    {
      var from, dir, found := Pick();
      if !found {
        return 0, *;
      }
      op := Read(from, dir);
      ghost var next := Step(d, model, op);
      CompareDictionaries(next.labels, from);
      var ch := Dictionary(from);
      if ch == unpatchedCompiledDirs || ch == patchedCompiledDirs {
        stats := stats.(readCompiled := stats.readCompiled + 1);
      } else {
        stats := stats.(read := stats.read + 1);
      }
      Record(op);
      r := 1;
    }

    method StatOneDir() returns (r: nat, ghost op: Op)
      requires Valid()
      modifies `unpatchedDirs, `unpatchedCompiledDirs, `patchedDirs, `patchedCompiledDirs, `disk, `stats, `ops, `model
      ensures Valid()
      ensures r == 0 ==> ops == old(ops) && model == old(model) && old(model).labels == map[]
      ensures r != 0 ==> r == 1 && op.StatTree? && Enabled(old(model), op)
      ensures r != 0 ==> ops == old(ops) + [op] && model == Step(d, old(model), op)
    {
      var from, dir, found := Pick();
      if !found {
        return 0, *;
      }
      op := StatTree(from, dir);
      ghost var next := Step(d, model, op);
      CompareDictionaries(next.labels, from);
      var ch := Dictionary(from);
      if ch == unpatchedCompiledDirs || ch == patchedCompiledDirs {
        stats := stats.(statCompiled := stats.statCompiled + 1);
      } else {
        stats := stats.(stat := stats.stat + 1);
      }
      Record(op);
      r := 1;
    }

    /** The initial directory number x. */
    method MakeInitial(x: nat, ghost past: seq<Op>)
      requires Valid() && disk.Keys == Kernels(x) == unpatchedDirs && patchedDirs == {}
      requires ops == past + InitialOps(x)
      modifies `unpatchedDirs, `unpatchedCompiledDirs, `patchedDirs, `patchedCompiledDirs, `disk, `stats, `ops, `model
      ensures Valid() && disk.Keys == Kernels(x + 1) == unpatchedDirs && patchedDirs == {}
      ensures ops == past + InitialOps(x + 1)
    {
      KernelsNext(x);
      Associate(past, InitialOps(x), InitialCreate(Kernel(x)));
      MakeTree(InitialCreate(Kernel(x)), Kernel(x), stats.(initialCreate := stats.initialCreate + 1));
    }

    /** The initial directories kernel-0, kernel-1, ... on a benchmark directory without kernels. */
    method CreateInitial(count: nat)
      requires Valid() && disk == map[] && unpatchedDirs == {} && patchedDirs == {}
      modifies `unpatchedDirs, `unpatchedCompiledDirs, `patchedDirs, `patchedCompiledDirs, `disk, `stats, `ops, `model
      ensures Valid()
      ensures disk.Keys == set i | 0 <= i < count :: Kernel(i)
      ensures unpatchedDirs == disk.Keys && patchedDirs == {}
      ensures ops == old(ops) + InitialOps(count)
    {
      for x := 0 to count
        invariant Valid() && disk.Keys == Kernels(x) == unpatchedDirs && patchedDirs == {}
        invariant ops == old(ops) + InitialOps(x)
      {
        MakeInitial(x, old(ops));
      }
    }

    predicate NameIsFree()
      reads `disk
    {
      exists n :: 100 <= n <= 100000 && Kernel(n) !in disk
    }

    /** One drawn operation: it is performed, or returns 0 because there is nothing for it. */
    method PerformDrawn(draw: Draw) returns (r: nat, ghost op: Op)
      requires Valid() && (draw == DrawCreate ==> NameIsFree())
      modifies `unpatchedDirs, `unpatchedCompiledDirs, `patchedDirs, `patchedCompiledDirs, `disk, `stats, `ops, `model
      ensures Valid() && r <= 1
      ensures r == 0 ==> ops == old(ops) && model == old(model) && NothingFor(model.labels, draw)
      ensures r == 1 ==> DrawnAs(op, draw) && Enabled(old(model), op)
      ensures r == 1 ==> ops == old(ops) + [op] && model == Step(d, old(model), op)
    {
      match draw {
        case DrawPatch => r, op := PatchOneDir();
        case DrawCompile => r, op := CompileOneDir();
        case DrawClean => r, op := CleanOneDir();
        case DrawDelete => r, op := DeleteOneDir();
        case DrawCreate => r, op := CreateOneDir();
        case DrawRead => r, op := ReadOneDir();
        case DrawStat => r, op := StatOneDir();
      }
    }

    /** One round of the random loop. */
    method Round(draw: Draw, ghost s: State, ghost draws: seq<Draw>, ghost performed: seq<Op>)
      returns (r: nat, ghost performed': seq<Op>)
      requires Valid() && (draw == DrawCreate ==> NameIsFree())
      requires DrawsLeadTo(d, s, draws, performed, model)
      modifies `unpatchedDirs, `unpatchedCompiledDirs, `patchedDirs, `patchedCompiledDirs, `disk, `stats, `ops, `model
      ensures Valid() && r <= 1 && |performed'| == |performed| + r
      ensures |ops| == |old(ops)| + r
      ensures DrawsLeadTo(d, s, draws + [draw], performed', model)
    {
      ghost var op, before := *, model;
      r, op := PerformDrawn(draw);
      if r == 0 {
        DrawFindsNothing(d, s, draws, performed, before, draw);
        performed' := performed;
      } else {
        DrawPerforms(d, s, draws, performed, before, draw, op);
        performed' := performed + [op];
      }
    }

    /** The random loop on a given sequence of draws, used of which it takes. It ends when the runs
        are done or the draws used up, or when a creation would search for a free name for ever. */
    method RandomLoop(runs: nat, draws: seq<Draw>) returns (totalRuns: nat, used: nat, ghost performed: seq<Op>)
      requires Valid()
      modifies `unpatchedDirs, `unpatchedCompiledDirs, `patchedDirs, `patchedCompiledDirs, `disk, `stats, `ops, `model
      ensures Valid() && used <= |draws|
      ensures totalRuns == |performed| <= runs && |ops| == |old(ops)| + totalRuns
      ensures DrawsLeadTo(d, old(model), draws[..used], performed, model)
      ensures totalRuns == runs || used == |draws| || (draws[used] == DrawCreate && !NameIsFree())
    {
      totalRuns, used, performed := 0, 0, [];
      while totalRuns < runs && used < |draws|
        invariant Valid() && used <= |draws|
        invariant totalRuns == |performed| <= runs && |ops| == |old(ops)| + totalRuns
        invariant DrawsLeadTo(d, old(model), draws[..used], performed, model)
        decreases |draws| - used
      {
        if draws[used] == DrawCreate && !NameIsFree() {
          return;
        }
        var r;
        assert draws[..used + 1] == draws[..used] + [draws[used]];
        r, performed := Round(draws[used], old(model), draws[..used], performed);
        totalRuns := totalRuns + r;
        used := used + 1;
      }
    }

    /** One round of the first loop of the make -j phase. */
    method CompileNext(ghost past: seq<Op>, ghost done: seq<Op>) returns (r: nat, ghost done': seq<Op>)
      requires Valid() && patchedDirs == {} && ops == past + done && OnlyCompiles(done)
      modifies `unpatchedDirs, `unpatchedCompiledDirs, `patchedDirs, `patchedCompiledDirs, `disk, `stats, `ops, `model
      ensures Valid() && patchedDirs == {} && disk.Keys == old(disk).Keys && |model.labels| == |old(model).labels|
      ensures r <= 1 && |unpatchedDirs| + r == |old(unpatchedDirs)| && (r == 0 ==> unpatchedDirs == {})
      ensures ops == past + done' && OnlyCompiles(done') && |done'| == |done| + r
    {
      ghost var op, before := *, model;
      r, op := CompileOneDir();
      done' := done;
      if r != 0 {
        OnDisk(d, past + done, op.dir);
        CompileCounts(d, before, op);
        done' := done + [op];
        Associate(past, done, op);
      }
    }

    /** The first loop of the make -j phase: compiles until there is nothing left to compile. */
    method CompileAll() returns (count: nat, ghost done: seq<Op>)
      requires Valid() && patchedDirs == unpatchedCompiledDirs == patchedCompiledDirs == {}
      modifies `unpatchedDirs, `unpatchedCompiledDirs, `patchedDirs, `patchedCompiledDirs, `disk, `stats, `ops, `model
      ensures Valid() && disk.Keys == old(disk).Keys && ops == old(ops) + done
      ensures count == |done| == |old(unpatchedDirs)| == |model.labels|
      ensures OnlyCompiles(done)
    {
      ghost var n := |unpatchedDirs|;
      count, done := 0, [];
      AllUnpatched();
      var r := 1;
      while r != 0
        invariant Valid() && disk.Keys == old(disk).Keys && ops == old(ops) + done && OnlyCompiles(done)
        invariant patchedDirs == {} && count == |done| && count + |unpatchedDirs| == n == |model.labels|
        invariant r == 0 ==> unpatchedDirs == {}
        decreases |unpatchedDirs|, r
      {
        r, done := CompileNext(old(ops), done);
        count := count + r;
      }
    }

    /** Three trees are read, if there are any; three runs are counted in any case. */
    method ReadThree() returns (count: nat, ghost done: seq<Op>)
      requires Valid()
      modifies `unpatchedDirs, `unpatchedCompiledDirs, `patchedDirs, `patchedCompiledDirs, `disk, `stats, `ops, `model
      ensures Valid() && disk == old(disk) && model.labels == old(model).labels && ops == old(ops) + done
      ensures count == 3 && |done| == if model.labels == map[] then 0 else 3
      ensures forall k :: 0 <= k < |done| ==> done[k].Read?
    {
      count, done := 0, [];
      for x := 0 to 3
        invariant Valid() && disk == old(disk) && model.labels == old(model).labels && ops == old(ops) + done
        invariant count == x && |done| == if model.labels == map[] then 0 else x
        invariant forall k :: 0 <= k < |done| ==> done[k].Read?
      {
        var r;
        ghost var op;
        r, op := ReadOneDir();
        if r != 0 {
          done := done + [op];
        }
        count := count + 1;
      }
    }

    /** One round of the last loop. */
    method DeleteNext(ghost past: seq<Op>, ghost done: seq<Op>) returns (r: nat, ghost done': seq<Op>)
      requires Valid() && ops == past + done && OnlyDeletes(done)
      modifies `unpatchedDirs, `unpatchedCompiledDirs, `patchedDirs, `patchedCompiledDirs, `disk, `stats, `ops, `model
      ensures Valid() && disk.Keys == old(disk).Keys
      ensures r <= 1 && |model.labels| + r == |old(model).labels| && (r == 0 ==> model.labels == map[])
      ensures ops == past + done' && OnlyDeletes(done') && |done'| == |done| + r
    {
      ghost var op, before := *, model;
      r, op := DeleteOneDir();
      done' := done;
      if r != 0 {
        OnDisk(d, past + done, op.dir);
        DeleteCounts(d, before, op);
        done' := done + [op];
        Associate(past, done, op);
      }
    }

    /** Deletes until nothing is left. */
    method DeleteAll() returns (count: nat, ghost done: seq<Op>)
      requires Valid()
      modifies `unpatchedDirs, `unpatchedCompiledDirs, `patchedDirs, `patchedCompiledDirs, `disk, `stats, `ops, `model
      ensures Valid() && model.labels == map[] && disk.Keys == old(disk).Keys && ops == old(ops) + done
      ensures count == |done| == |old(model).labels|
      ensures OnlyDeletes(done)
    {
      count, done := 0, [];
      var r := 1;
      while r != 0
        invariant Valid() && disk.Keys == old(disk).Keys && ops == old(ops) + done && OnlyDeletes(done)
        invariant count == |done| && count + |model.labels| == |old(model).labels|
        invariant r == 0 ==> model.labels == map[]
        decreases |model.labels|, r
      {
        r, done := DeleteNext(old(ops), done);
        count := count + r;
      }
    }

    /** The make -j phase: with n initial directories it compiles each once, reads three trees if there
        are any, and deletes each once; it counts 2n + 3 runs and forgets all trees. */
    method MakeJ() returns (totalRuns: nat, ghost compiles: seq<Op>, ghost walks: seq<Op>, ghost deletes: seq<Op>)
      requires Valid() && patchedDirs == unpatchedCompiledDirs == patchedCompiledDirs == {}
      modifies `unpatchedDirs, `unpatchedCompiledDirs, `patchedDirs, `patchedCompiledDirs, `disk, `stats, `ops, `model
      ensures Valid() && model.labels == map[] && disk.Keys == old(disk).Keys
      ensures totalRuns == 2 * |old(unpatchedDirs)| + 3
      ensures ops == old(ops) + compiles + walks + deletes
      ensures |compiles| == |deletes| == |old(unpatchedDirs)| && |walks| == if |old(unpatchedDirs)| == 0 then 0 else 3
      ensures OnlyCompiles(compiles)
      ensures forall k :: 0 <= k < |walks| ==> walks[k].Read?
      ensures OnlyDeletes(deletes)
    {
      var count;
      totalRuns, compiles := CompileAll();
      count, walks := ReadThree();
      totalRuns := totalRuns + count;
      count, deletes := DeleteAll();
      totalRuns := totalRuns + count;
    }

    lemma AllUnpatched()
      requires Valid() && patchedDirs == unpatchedCompiledDirs == patchedCompiledDirs == {}
      ensures |unpatchedDirs| == |model.labels|
    {
      OnlyUnpatched(model.labels);
    }
  }
}
