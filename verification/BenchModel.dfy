/** The state of a compilebench run and its operations on values, and what holds in every
    reachable state. Which directory has which label is one map here; that the four dictionaries
    of the program always are such a map is proved in module BenchProgram. */
module BenchModel {
  import opened BenchDatasets
  import opened BenchTree

  datatype Name = Kernel(n: nat) | Native(n: nat)

  /** The run counters, stats[3] of each list. */
  datatype Stats = Stats(initialCreate: nat, create: nat, patch: nat, compile: nat, clean: nat,
                         delete: nat, deleteCompiled: nat, read: nat, readCompiled: nat,
                         stat: nat, statCompiled: nat)

  const NO_STATS := Stats(0, 0, 0, 0, 0, 0, 0, 0, 0, 0, 0)

  type Labels = map<Name, Label>

  /** One of the program's dictionaries: the directories with a given label. */
  function Dirs(l: Labels, kind: Label): set<Name> {
    set dir | dir in l && l[dir] == kind
  }

  /** How the program tells whether the dictionary it picked is one of the compiled ones: it
      compares dictionaries by content. */
  predicate LooksCompiled(l: Labels, kind: Label) {
    Dirs(l, kind) == Dirs(l, UnpatchedCompiled) || Dirs(l, kind) == Dirs(l, PatchedCompiled)
  }

  datatype State = State(labels: Labels, disk: map<Name, Tree>, stats: Stats)

  const FRESH := State(map[], map[], NO_STATS)

  datatype Op =
    | InitialCreate(dir: Name)
    | Create(dir: Name)
    | Patch(from: Label, dir: Name)
    | Compile(from: Label, dir: Name)
    | Clean(from: Label, dir: Name)
    | Delete(from: Label, dir: Name)
    | Read(from: Label, dir: Name)
    | StatTree(from: Label, dir: Name)

  predicate IsCompiled(kind: Label) {
    kind == UnpatchedCompiled || kind == PatchedCompiled
  }

  function PatchedLabel(from: Label): Label {
    if from == Unpatched then Patched else PatchedCompiled
  }

  function CompiledLabel(from: Label): Label {
    if from == Unpatched then UnpatchedCompiled else PatchedCompiled
  }

  function CleanLabel(from: Label): Label {
    if from == UnpatchedCompiled then Unpatched else Patched
  }

  predicate Has(l: Labels, dir: Name, kind: Label) {
    dir in l && l[dir] == kind
  }

  /** The choices the code can make; a new directory's name is one not on disk. */
  predicate Enabled(s: State, op: Op) {
    match op
    case InitialCreate(dir) => dir !in s.disk
    case Create(dir) => dir !in s.disk
    case Patch(from, dir) => (from == Unpatched || from == UnpatchedCompiled) && Has(s.labels, dir, from)
    case Compile(from, dir) => (from == Unpatched || from == Patched) && Has(s.labels, dir, from)
    case Clean(from, dir) => IsCompiled(from) && Has(s.labels, dir, from)
    case Delete(from, dir) => Has(s.labels, dir, from)
    case Read(from, dir) => Has(s.labels, dir, from)
    case StatTree(from, dir) => Has(s.labels, dir, from)
  }

  function TreeOf(disk: map<Name, Tree>, dir: Name): Tree {
    if dir in disk then disk[dir] else EMPTY_TREE
  }

  /** One operation with its choices. A directory is made if it is missing; patching writes the
      same files whether it unlinks them first or truncates them. */
  function Step(d: Raw, s: State, op: Op): State {
    var dir := op.dir;
    var t := TreeOf(s.disk, dir);
    match op
    case InitialCreate(_) =>
      State(s.labels[dir := Unpatched], s.disk[dir := RunTree(t, d.unpatched, false)],
            s.stats.(initialCreate := s.stats.initialCreate + 1))
    case Create(_) =>
      State(s.labels[dir := Unpatched], s.disk[dir := RunTree(t, d.unpatched, false)],
            s.stats.(create := s.stats.create + 1))
    case Patch(from, _) =>
      State(s.labels[dir := PatchedLabel(from)], s.disk[dir := RunTree(t, PatchSet(d, from), true)],
            s.stats.(patch := s.stats.patch + 1))
    case Compile(from, _) =>
      State(s.labels[dir := CompiledLabel(from)], s.disk[dir := RunTree(t, CompileSet(d, from), false)],
            s.stats.(compile := s.stats.compile + 1))
    case Clean(from, _) =>
      State(s.labels[dir := CleanLabel(from)], s.disk[dir := CleanTree(t, CleanSet(d, from))],
            s.stats.(clean := s.stats.clean + 1))
    case Delete(from, _) =>
      var labels := s.labels - {dir};
      State(labels, s.disk[dir := EMPTY_TREE],
            if LooksCompiled(labels, from) then s.stats.(deleteCompiled := s.stats.deleteCompiled + 1)
            else s.stats.(delete := s.stats.delete + 1))
    case Read(from, _) =>
      s.(stats := if LooksCompiled(s.labels, from) then s.stats.(readCompiled := s.stats.readCompiled + 1)
                  else s.stats.(read := s.stats.read + 1))
    case StatTree(from, _) =>
      s.(stats := if LooksCompiled(s.labels, from) then s.stats.(statCompiled := s.stats.statCompiled + 1)
                  else s.stats.(stat := s.stats.stat + 1))
  }

  function Run(d: Raw, s: State, ops: seq<Op>): State {
    if ops == [] then s else Step(d, Run(d, s, ops[..|ops| - 1]), ops[|ops| - 1])
  }

  predicate RunEnabled(d: Raw, s: State, ops: seq<Op>) {
    ops == [] || (RunEnabled(d, s, ops[..|ops| - 1]) && Enabled(Run(d, s, ops[..|ops| - 1]), ops[|ops| - 1]))
  }

  lemma RunNext(d: Raw, s: State, ops: seq<Op>, op: Op)
    requires RunEnabled(d, s, ops) && Enabled(Run(d, s, ops), op)
    ensures RunEnabled(d, s, ops + [op]) && Run(d, s, ops + [op]) == Step(d, Run(d, s, ops), op)
  {
    assert (ops + [op])[..|ops + [op]| - 1] == ops;
  }

  // ----- runs of the random loop

  /** The operations the loop draws from. */
  datatype Draw = DrawPatch | DrawCompile | DrawClean | DrawDelete | DrawCreate | DrawRead | DrawStat

  predicate DrawnAs(op: Op, draw: Draw) {
    match draw
    case DrawPatch => op.Patch?
    case DrawCompile => op.Compile?
    case DrawClean => op.Clean?
    case DrawDelete => op.Delete?
    case DrawCreate => op.Create?
    case DrawRead => op.Read?
    case DrawStat => op.StatTree?
  }

  /** The drawn operation has no directory to work on. */
  predicate NothingFor(l: Labels, draw: Draw) {
    match draw
    case DrawPatch => Dirs(l, Unpatched) == {} && Dirs(l, UnpatchedCompiled) == {}
    case DrawCompile => Dirs(l, Unpatched) == {} && Dirs(l, Patched) == {}
    case DrawClean => Dirs(l, UnpatchedCompiled) == {} && Dirs(l, PatchedCompiled) == {}
    case DrawCreate => false
    case _ => l == map[]
  }

  /** ops is what the draws lead to from s: each draw performs one operation of its kind, or none
      and only when there is nothing for it. */
  predicate Follows(d: Raw, s: State, draws: seq<Draw>, ops: seq<Op>) {
    if draws == [] then ops == []
    else
      var front, draw := draws[..|draws| - 1], draws[|draws| - 1];
      || (Follows(d, s, front, ops) && NothingFor(Run(d, s, ops).labels, draw))
      || (ops != [] && Follows(d, s, front, ops[..|ops| - 1]) && DrawnAs(ops[|ops| - 1], draw))
  }

  /** From s the draws lead through ops to t. */
  ghost predicate DrawsLeadTo(d: Raw, s: State, draws: seq<Draw>, ops: seq<Op>, t: State) {
    Follows(d, s, draws, ops) && RunEnabled(d, s, ops) && t == Run(d, s, ops)
  }

  lemma DrawFindsNothing(d: Raw, s: State, draws: seq<Draw>, ops: seq<Op>, t: State, draw: Draw)
    requires DrawsLeadTo(d, s, draws, ops, t) && NothingFor(t.labels, draw)
    ensures DrawsLeadTo(d, s, draws + [draw], ops, t)
  {
    assert (draws + [draw])[..|draws + [draw]| - 1] == draws;
  }

  lemma DrawPerforms(d: Raw, s: State, draws: seq<Draw>, ops: seq<Op>, t: State, draw: Draw, op: Op)
    requires DrawsLeadTo(d, s, draws, ops, t) && DrawnAs(op, draw) && Enabled(t, op)
    ensures DrawsLeadTo(d, s, draws + [draw], ops + [op], Step(d, t, op))
  {
    RunNext(d, s, ops, op);
    assert (draws + [draw])[..|draws + [draw]| - 1] == draws;
    assert (ops + [op])[..|ops + [op]| - 1] == ops;
  }

  // ----- what holds in every reachable state

  function NamesOf(d: Raw): set<Path> {
    d.unpatched.Keys + d.patched.Keys + d.unpatchedCompiled.Keys + d.compiled.Keys
  }

  ghost predicate GoodDatasets(d: Raw) {
    Stripped(d) && PrefixFree(NamesOf(d))
  }

  type Datasets = d: Raw | GoodDatasets(d) ghost witness Raw(map[], map[], map[], map[])

  /** A directory on disk has the contents its label stands for; one without a label is empty. */
  ghost predicate DirOk(d: Raw, l: Labels, dir: Name, t: Tree) {
    && TreeOk(t, NamesOf(d))
    && (if dir in l then HasContents(d, l[dir], t.files) else t == EMPTY_TREE)
  }

  /** Tracked directories are creations minus deletions; directories on disk are creations. */
  predicate Balanced(tracked: nat, onDisk: nat, stats: Stats) {
    && tracked + stats.delete + stats.deleteCompiled == stats.initialCreate + stats.create
    && onDisk == stats.initialCreate + stats.create
  }

  ghost predicate Inv(d: Raw, s: State) {
    && s.labels.Keys <= s.disk.Keys
    && (forall dir :: dir in s.disk ==> DirOk(d, s.labels, dir, s.disk[dir]))
    && Balanced(|s.labels|, |s.disk|, s.stats)
  }

  lemma RunTreeOk(t: Tree, ds: Files, names: set<Path>, reset: bool)
    requires TreeOk(t, names) && ds.Keys <= names
    ensures TreeOk(RunTree(t, ds, reset), names)
  {
    var u := RunTree(t, ds, reset);
    forall p | p in u.files
      ensures IsDir(u, DirName(p))
    {
      if p in ds && |p| > 1 {
        assert DirName(p) == p[..|p| - 1];
        assert DirName(p) in DirsOf(ds.Keys);
      } else if p in t.files {
        assert IsDir(t, DirName(p));
      }
    }
    forall x, y | x in u.dirs && y in Ancestors(x)
      ensures y in u.dirs
    {
      if x in DirsOf(ds.Keys) {
        var p, k :| p in ds.Keys && 0 < k < |p| && x == p[..k];
        var j :| 0 < j < |x| && y == x[..j];
        assert y == p[..j];
      } else {
        assert Ancestors(x) <= t.dirs;
      }
    }
  }

  /** One directory changes its label, its tree and the counters; the others are not touched. */
  lemma ChangeKeepsInv(d: Raw, s: State, dir: Name, labels: Labels, t: Tree, stats: Stats)
    requires Inv(d, s)
    requires labels - {dir} == s.labels - {dir}
    requires DirOk(d, labels, dir, t)
    requires Balanced(|labels|, |s.disk[dir := t]|, stats)
    ensures Inv(d, State(labels, s.disk[dir := t], stats))
  {
    forall x | x in s.disk && x != dir
      ensures DirOk(d, labels, x, s.disk[x])
    {
      SameElsewhere(labels, s.labels, dir, x);
      assert DirOk(d, s.labels, x, s.disk[x]);
    }
    forall x | x in labels
      ensures x in s.disk[dir := t]
    {
      if x != dir {
        SameElsewhere(labels, s.labels, dir, x);
      }
    }
  }

  lemma SameElsewhere(a: Labels, b: Labels, dir: Name, x: Name)
    requires a - {dir} == b - {dir} && x != dir
    ensures x in a <==> x in b
    ensures x in a ==> a[x] == b[x]
  {
    assert x in a <==> x in a - {dir};
    assert x in b <==> x in b - {dir};
  }

  lemma Listed(d: Raw, s: State, dir: Name)
    requires Inv(d, s) && dir in s.labels
    ensures dir in s.disk && DirOk(d, s.labels, dir, s.disk[dir])
  {
  }

  lemma AfterUpdate<K, V>(m: map<K, V>, k: K, v: V)
    ensures m[k := v] - {k} == m - {k}
    ensures |m[k := v]| == |m| + (if k in m then 0 else 1)
  {
    assert m[k := v].Keys == m.Keys + {k};
    assert |m[k := v]| == |m[k := v].Keys| && |m| == |m.Keys|;
  }

  lemma AfterRemoval<K, V>(m: map<K, V>, k: K)
    requires k in m
    ensures (m - {k}) - {k} == m - {k}
    ensures |m - {k}| == |m| - 1
  {
    assert (m - {k}).Keys == m.Keys - {k};
    assert |m - {k}| == |(m - {k}).Keys| && |m| == |m.Keys|;
  }

  lemma CreatedDirOk(d: Raw, l: Labels, dir: Name)
    ensures DirOk(d, l[dir := Unpatched], dir, RunTree(EMPTY_TREE, d.unpatched, false))
  {
    RunTreeOk(EMPTY_TREE, d.unpatched, NamesOf(d), false);
    assert Append(map[], d.unpatched) == d.unpatched;
  }

  lemma PatchedDirOk(d: Raw, l: Labels, dir: Name, t: Tree, from: Label)
    requires (from == Unpatched || from == UnpatchedCompiled) && Has(l, dir, from) && DirOk(d, l, dir, t)
    ensures DirOk(d, l[dir := PatchedLabel(from)], dir, RunTree(t, PatchSet(d, from), true))
  {
    PatchKeepsContents(d, from, t.files);
    RunTreeOk(t, PatchSet(d, from), NamesOf(d), true);
  }

  lemma CompiledDirOk(d: Raw, l: Labels, dir: Name, t: Tree, from: Label)
    requires (from == Unpatched || from == Patched) && Has(l, dir, from) && DirOk(d, l, dir, t)
    ensures DirOk(d, l[dir := CompiledLabel(from)], dir, RunTree(t, CompileSet(d, from), false))
  {
    CompileKeepsContents(d, from, t.files);
    RunTreeOk(t, CompileSet(d, from), NamesOf(d), false);
  }

  lemma CleanedDirOk(d: Raw, l: Labels, dir: Name, t: Tree, from: Label)
    requires GoodDatasets(d) && IsCompiled(from) && Has(l, dir, from) && DirOk(d, l, dir, t)
    ensures DirOk(d, l[dir := CleanLabel(from)], dir, CleanTree(t, CleanSet(d, from)))
  {
    CleanKeepsContents(d, from, t.files);
    CleanTreeOk(t, CleanSet(d, from), NamesOf(d));
  }

  lemma CreateKeepsInv(d: Raw, s: State, op: Op)
    requires Inv(d, s) && Enabled(s, op) && (op.InitialCreate? || op.Create?)
    ensures Inv(d, Step(d, s, op))
  {
    var dir, t, stats := op.dir, RunTree(EMPTY_TREE, d.unpatched, false), Step(d, s, op).stats;
    CreatedDirOk(d, s.labels, dir);
    AfterUpdate(s.labels, dir, Unpatched);
    AfterUpdate(s.disk, dir, t);
    ChangeKeepsInv(d, s, dir, s.labels[dir := Unpatched], t, stats);
  }

  lemma RelabelKeepsInv(d: Raw, s: State, dir: Name, to: Label, t: Tree, stats: Stats)
    requires Inv(d, s) && dir in s.labels && DirOk(d, s.labels[dir := to], dir, t)
    requires Balanced(|s.labels|, |s.disk|, stats)
    ensures Inv(d, State(s.labels[dir := to], s.disk[dir := t], stats))
  {
    AfterUpdate(s.labels, dir, to);
    AfterUpdate(s.disk, dir, t);
    ChangeKeepsInv(d, s, dir, s.labels[dir := to], t, stats);
  }

  lemma RewriteKeepsInv(d: Raw, s: State, op: Op)
    requires GoodDatasets(d) && Inv(d, s) && Enabled(s, op) && (op.Patch? || op.Compile? || op.Clean?)
    ensures Inv(d, Step(d, s, op))
  {
    var dir, stats := op.dir, Step(d, s, op).stats;
    Listed(d, s, dir);
    var t := s.disk[dir];
    match op
    case Patch(from, _) =>
      PatchedDirOk(d, s.labels, dir, t, from);
      RelabelKeepsInv(d, s, dir, PatchedLabel(from), RunTree(t, PatchSet(d, from), true), stats);
    case Compile(from, _) =>
      CompiledDirOk(d, s.labels, dir, t, from);
      RelabelKeepsInv(d, s, dir, CompiledLabel(from), RunTree(t, CompileSet(d, from), false), stats);
    case Clean(from, _) =>
      CleanedDirOk(d, s.labels, dir, t, from);
      RelabelKeepsInv(d, s, dir, CleanLabel(from), CleanTree(t, CleanSet(d, from)), stats);
  }

  lemma DropKeepsInv(d: Raw, s: State, dir: Name, stats: Stats)
    requires Inv(d, s) && dir in s.labels
    requires Balanced(|s.labels| - 1, |s.disk|, stats)
    ensures Inv(d, State(s.labels - {dir}, s.disk[dir := EMPTY_TREE], stats))
  {
    AfterUpdate(s.disk, dir, EMPTY_TREE);
    AfterRemoval(s.labels, dir);
    assert TreeOk(EMPTY_TREE, NamesOf(d));
    ChangeKeepsInv(d, s, dir, s.labels - {dir}, EMPTY_TREE, stats);
  }

  lemma DeleteKeepsInv(d: Raw, s: State, op: Op)
    requires Inv(d, s) && Enabled(s, op) && op.Delete?
    ensures Inv(d, Step(d, s, op))
  {
    DropKeepsInv(d, s, op.dir, Step(d, s, op).stats);
  }

  lemma StepKeepsInv(d: Raw, s: State, op: Op)
    requires GoodDatasets(d) && Inv(d, s) && Enabled(s, op)
    ensures Inv(d, Step(d, s, op))
  {
    if op.InitialCreate? || op.Create? {
      CreateKeepsInv(d, s, op);
    } else if op.Delete? {
      DeleteKeepsInv(d, s, op);
    } else if !op.Read? && !op.StatTree? {
      RewriteKeepsInv(d, s, op);
    }
  }

  /** Every reachable state, for every choice of operations, directories and names. */
  lemma {:induction false} ReachableInv(d: Raw, ops: seq<Op>)
    requires GoodDatasets(d) && RunEnabled(d, FRESH, ops)
    ensures Inv(d, Run(d, FRESH, ops))
  {
    if ops != [] {
      var front := ops[..|ops| - 1];
      ReachableInv(d, front);
      StepKeepsInv(d, Run(d, FRESH, front), ops[|ops| - 1]);
    }
  }

  /** The exact contents of every tracked directory in every reachable state, and with them that
      cleaning never unlinks a missing file. */
  lemma ReachableContents(d: Raw, ops: seq<Op>, dir: Name)
    requires GoodDatasets(d) && RunEnabled(d, FRESH, ops)
    requires dir in Run(d, FRESH, ops).labels
    ensures var s := Run(d, FRESH, ops);
      && dir in s.disk
      && HasContents(d, s.labels[dir], s.disk[dir].files)
      && (IsCompiled(s.labels[dir]) ==> CleanSet(d, s.labels[dir]).Keys <= s.disk[dir].files.Keys)
  {
    ReachableInv(d, ops);
    var s := Run(d, FRESH, ops);
    Listed(d, s, dir);
    if IsCompiled(s.labels[dir]) {
      CleanKeepsContents(d, s.labels[dir], s.disk[dir].files);
    }
  }

  /** Dictionaries of different labels are equal only if both are empty. */
  lemma EqualOnlyIfEmpty(l: Labels, a: Label, b: Label)
    requires a != b
    ensures Dirs(l, a) == Dirs(l, b) <==> Dirs(l, a) == {} && Dirs(l, b) == {}
  {
    if Dirs(l, a) != {} {
      var x :| x in Dirs(l, a);
      assert x !in Dirs(l, b);
    }
  }

  lemma LooksCompiledMeans(l: Labels, kind: Label)
    ensures LooksCompiled(l, kind)
       <==> || IsCompiled(kind)
            || (Dirs(l, kind) == {} && (Dirs(l, UnpatchedCompiled) == {} || Dirs(l, PatchedCompiled) == {}))
  {
    if !IsCompiled(kind) {
      EqualOnlyIfEmpty(l, kind, UnpatchedCompiled);
      EqualOnlyIfEmpty(l, kind, PatchedCompiled);
    }
  }

  /** Reading and statting are always filed under the right counter. */
  lemma ReadFiledRight(s: State, from: Label, dir: Name)
    requires Enabled(s, Read(from, dir))
    ensures LooksCompiled(s.labels, from) <==> IsCompiled(from)
  {
    LooksCompiledMeans(s.labels, from);
    assert dir in Dirs(s.labels, from);
  }

  /** Deleting compares after the entry is gone, so it is filed under the right counter unless it
      took the last directory of an uncompiled label while a compiled label had none. */
  lemma DeleteFiledRight(d: Raw, s: State, from: Label, dir: Name)
    requires Enabled(s, Delete(from, dir))
    ensures (Step(d, s, Delete(from, dir)).stats.deleteCompiled == s.stats.deleteCompiled + 1 <==> IsCompiled(from))
       <==> || IsCompiled(from)
            || Dirs(s.labels, from) != {dir}
            || (Dirs(s.labels, UnpatchedCompiled) != {} && Dirs(s.labels, PatchedCompiled) != {})
  {
    var m := s.labels - {dir};
    LooksCompiledMeans(m, from);
    assert Dirs(m, from) == Dirs(s.labels, from) - {dir};
    if !IsCompiled(from) {
      assert Dirs(m, UnpatchedCompiled) == Dirs(s.labels, UnpatchedCompiled);
      assert Dirs(m, PatchedCompiled) == Dirs(s.labels, PatchedCompiled);
      assert Dirs(m, from) == {} <==> Dirs(s.labels, from) == {dir};
    }
  }

  /** No name is ever created twice: the top directory of a deleted tree stays on disk. */
  lemma {:induction false} NamesNeverReused(d: Raw, ops: seq<Op>, i: nat, j: nat)
    requires RunEnabled(d, FRESH, ops) && i < j < |ops|
    requires (ops[i].Create? || ops[i].InitialCreate?) && (ops[j].Create? || ops[j].InitialCreate?)
    ensures ops[i].dir != ops[j].dir
  {
    var front := ops[..|ops| - 1];
    if j == |ops| - 1 {
      DiskGrows(d, front, i);
    } else {
      NamesNeverReused(d, front, i, j);
    }
  }

  lemma {:induction false} DiskGrows(d: Raw, ops: seq<Op>, i: nat)
    requires i < |ops| && (ops[i].Create? || ops[i].InitialCreate?)
    ensures ops[i].dir in Run(d, FRESH, ops).disk
  {
    if i < |ops| - 1 {
      DiskGrows(d, ops[..|ops| - 1], i);
    }
  }

  // ----- runs that show what the program does not promise

  /** A tree is created, patched, compiled and cleaned. */
  function PatchFirst(dir: Name): seq<Op> {
    [InitialCreate(dir), Patch(Unpatched, dir), Compile(Patched, dir), Clean(PatchedCompiled, dir)]
  }

  /** A tree is created, compiled, patched and cleaned. */
  function CompileFirst(dir: Name): seq<Op> {
    [InitialCreate(dir), Compile(Unpatched, dir), Patch(UnpatchedCompiled, dir), Clean(PatchedCompiled, dir)]
  }

  /** dir has the label and the files after the run of ops from s. */
  ghost predicate Leaves(d: Raw, s: State, ops: seq<Op>, dir: Name, kind: Label, files: Files) {
    && RunEnabled(d, s, ops)
    && var t := Run(d, s, ops);
      Has(t.labels, dir, kind) && dir in t.disk && t.disk[dir].files == files
  }

  lemma LeavesCreated(d: Raw, s: State, dir: Name)
    requires dir !in s.disk
    ensures Leaves(d, s, [InitialCreate(dir)], dir, Unpatched, d.unpatched)
  {
    var op := InitialCreate(dir);
    assert [] + [op] == [op];
    RunNext(d, s, [], op);
    assert Append(map[], d.unpatched) == d.unpatched;
  }

  lemma LeavesNext(d: Raw, s: State, ops: seq<Op>, dir: Name, kind: Label, files: Files, op: Op)
    requires Leaves(d, s, ops, dir, kind, files)
    requires op == Patch(kind, dir) || op == Compile(kind, dir) || op == Clean(kind, dir)
    requires Enabled(Run(d, s, ops), op)
    ensures op.Patch? ==> Leaves(d, s, ops + [op], dir, PatchedLabel(kind), Overlay(files, PatchSet(d, kind)))
    ensures op.Compile? ==> Leaves(d, s, ops + [op], dir, CompiledLabel(kind), Append(files, CompileSet(d, kind)))
    ensures op.Clean? ==> Leaves(d, s, ops + [op], dir, CleanLabel(kind), Remove(files, CleanSet(d, kind)))
  {
    RunNext(d, s, ops, op);
  }

  lemma LeavesPatched(d: Raw, s: State, dir: Name)
    requires dir !in s.disk
    ensures Leaves(d, s, PatchFirst(dir)[..2], dir, Patched, PatchedTree(d))
  {
    LeavesCreated(d, s, dir);
    LeavesNext(d, s, PatchFirst(dir)[..1], dir, Unpatched, d.unpatched, Patch(Unpatched, dir));
    assert PatchFirst(dir)[..1] + [Patch(Unpatched, dir)] == PatchFirst(dir)[..2];
  }

  lemma LeavesPatchFirst(d: Raw, s: State, dir: Name)
    requires dir !in s.disk
    ensures Leaves(d, s, PatchFirst(dir), dir, Patched, Remove(Append(PatchedTree(d), d.compiled), d.compiled))
  {
    var ops, compile, clean := PatchFirst(dir), Compile(Patched, dir), Clean(PatchedCompiled, dir);
    LeavesPatched(d, s, dir);
    LeavesNext(d, s, ops[..2], dir, Patched, PatchedTree(d), compile);
    assert ops[..2] + [compile] == ops[..3];
    LeavesNext(d, s, ops[..3], dir, PatchedCompiled, Append(PatchedTree(d), d.compiled), clean);
    assert ops[..3] + [clean] == ops;
  }

  lemma LeavesCompiled(d: Raw, s: State, dir: Name)
    requires dir !in s.disk
    ensures Leaves(d, s, CompileFirst(dir)[..2], dir, UnpatchedCompiled, CompiledTree(d))
  {
    LeavesCreated(d, s, dir);
    LeavesNext(d, s, CompileFirst(dir)[..1], dir, Unpatched, d.unpatched, Compile(Unpatched, dir));
    assert CompileFirst(dir)[..1] + [Compile(Unpatched, dir)] == CompileFirst(dir)[..2];
  }

  lemma LeavesCompileFirst(d: Raw, s: State, dir: Name)
    requires dir !in s.disk
    ensures Leaves(d, s, CompileFirst(dir), dir, Patched, Remove(Overlay(CompiledTree(d), d.compiled), d.compiled))
  {
    var ops, patch, clean := CompileFirst(dir), Patch(UnpatchedCompiled, dir), Clean(PatchedCompiled, dir);
    LeavesCompiled(d, s, dir);
    LeavesNext(d, s, ops[..2], dir, UnpatchedCompiled, CompiledTree(d), patch);
    assert ops[..2] + [patch] == ops[..3];
    LeavesNext(d, s, ops[..3], dir, PatchedCompiled, Overlay(CompiledTree(d), d.compiled), clean);
    assert ops[..3] + [clean] == ops;
  }

  /** From any state, a new tree taken through either run ends with the label patched, and the two
      ends have the same files exactly when the thinned patch is what cleaning leaves of the first
      compile. */
  lemma PatchedDependsOnHistory(d: Raw, s: State, dir: Name)
    requires GoodDatasets(d) && dir !in s.disk
    ensures exists a, b :: && Leaves(d, s, PatchFirst(dir), dir, Patched, a)
                           && Leaves(d, s, CompileFirst(dir), dir, Patched, b)
                           && (a == b <==> d.patched == Remove(d.unpatchedCompiled, d.compiled))
  {
    LeavesPatchFirst(d, s, dir);
    LeavesCompileFirst(d, s, dir);
    HistoriesAgreeIff(d);
  }

  lemma OneFileStripped(raw: Raw, x: Path)
    requires NamesOf(raw) == {x}
    ensures GoodDatasets(Strip(raw))
  {
    StripIsStripped(raw);
    assert NamesOf(Strip(raw)) <= {x};
  }

  lemma PatchedNotCompiled(raw: Raw, x: Path)
    requires x in raw.patched && x !in raw.unpatchedCompiled
    requires x in raw.unpatched ==> raw.patched[x] != raw.unpatched[x]
    ensures var d := Strip(raw); d.patched != Remove(d.unpatchedCompiled, d.compiled)
  {
    assert x in Strip(raw).patched && x !in Strip(raw).unpatchedCompiled;
  }

  /** Two runs from a fresh directory whose patched trees differ: one file, a byte longer after the
      patch, and nothing compiled. */
  lemma HistoriesDiffer() returns (raw: Raw, a: Files, b: Files)
    ensures GoodDatasets(Strip(raw)) && a != b
    ensures Leaves(Strip(raw), FRESH, PatchFirst(Kernel(0)), Kernel(0), Patched, a)
    ensures Leaves(Strip(raw), FRESH, CompileFirst(Kernel(0)), Kernel(0), Patched, b)
  {
    var x: Path := ["x"];
    raw := Raw(map[x := 1], map[x := 2], map[], map[]);
    var d := Strip(raw);
    OneFileStripped(raw, x);
    PatchedNotCompiled(raw, x);
    LeavesPatchFirst(d, FRESH, Kernel(0));
    LeavesCompileFirst(d, FRESH, Kernel(0));
    HistoriesAgreeIff(d);
    a := Remove(Append(PatchedTree(d), d.compiled), d.compiled);
    b := Remove(Overlay(CompiledTree(d), d.compiled), d.compiled);
  }

  /** From any state, compiling and cleaning a freshly patched tree gives it back exactly when the
      compiled dataset names no file of the first version. */
  lemma FreshPatchSurvives(raw: Raw, s: State, dir: Name)
    requires dir !in s.disk
    ensures var d := Strip(raw);
      exists a, b :: && Leaves(d, s, PatchFirst(dir)[..2], dir, Patched, a)
                     && Leaves(d, s, PatchFirst(dir), dir, Patched, b)
                     && (a == b <==> d.compiled.Keys !! raw.unpatched.Keys)
  {
    LeavesPatched(Strip(raw), s, dir);
    LeavesPatchFirst(Strip(raw), s, dir);
    PatchedSurvivesCompile(raw);
  }

  /** A run in which cleaning takes a source file: the patch drops a file the second compile has. */
  lemma CleaningTakesSource() returns (raw: Raw, a: Files, b: Files)
    ensures GoodDatasets(Strip(raw)) && raw.unpatched.Keys <= a.Keys && !(raw.unpatched.Keys <= b.Keys)
    ensures Leaves(Strip(raw), FRESH, PatchFirst(Kernel(0))[..2], Kernel(0), Patched, a)
    ensures Leaves(Strip(raw), FRESH, PatchFirst(Kernel(0)), Kernel(0), Patched, b)
  {
    var x: Path := ["x"];
    raw := Raw(map[x := 1], map[], map[], map[x := 1]);
    var d := Strip(raw);
    OneFileStripped(raw, x);
    assert x in d.compiled;
    LeavesPatched(d, FRESH, Kernel(0));
    LeavesPatchFirst(d, FRESH, Kernel(0));
    a := PatchedTree(d);
    b := Remove(Append(PatchedTree(d), d.compiled), d.compiled);
  }

  /** Deleting the only tree of a fresh run, which was never compiled, is counted as compiled. */
  lemma DeletionMisfiled(d: Raw)
    ensures var ops := [InitialCreate(Kernel(0)), Delete(Unpatched, Kernel(0))];
      && RunEnabled(d, FRESH, ops)
      && Run(d, FRESH, ops).stats.deleteCompiled == 1 && Run(d, FRESH, ops).stats.delete == 0
  {
    var dir := Kernel(0);
    var create, delete := InitialCreate(dir), Delete(Unpatched, dir);
    LeavesCreated(d, FRESH, dir);
    RunNext(d, FRESH, [], create);
    assert [] + [create] == [create] && [create] + [delete] == [create, delete];
    RunNext(d, FRESH, [create], delete);
    var s := Run(d, FRESH, [create]);
    LooksCompiledMeans(s.labels - {dir}, Unpatched);
    assert s.labels - {dir} == map[];
  }
}
