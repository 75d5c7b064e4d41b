/** What compilebench does to directories and counters, in terms of the four dataset files as they
    were read and of nothing the program computes from them. */
module BenchMeaning {
  import opened Counting
  import opened BenchDatasets
  import opened BenchTree
  import opened BenchModel

  // ----- the versions a tree can have

  /** The second version laid over the first. */
  function BothVersions(raw: Raw): Files {
    raw.unpatched + raw.patched
  }

  /** The first compile, in which the first version's own files count as they are. */
  function FirstCompile(raw: Raw): Files {
    raw.unpatchedCompiled + raw.unpatched
  }

  /** What the second compile adds: no name of the second version, and nothing that the first compile
      adds to the first version with the same size. */
  function SecondCompile(raw: Raw): Files {
    map p | p in raw.compiled && p !in raw.patched
            && !(p in raw.unpatchedCompiled && p !in raw.unpatched && raw.unpatchedCompiled[p] == raw.compiled[p])
      :: raw.compiled[p]
  }

  function Size(files: Files, p: Path): nat {
    if p in files then files[p] else 0
  }

  function Grown(files: Files, ds: Files): Files {
    map p | p in files.Keys + ds.Keys :: Size(files, p) + Size(ds, p)
  }

  lemma StrippedOnRaw(raw: Raw)
    ensures var d := Strip(raw);
      && d.unpatched == raw.unpatched && d.compiled == SecondCompile(raw)
      && PatchedTree(d) == BothVersions(raw) && CompiledTree(d) == FirstCompile(raw)
  {
    var d := Strip(raw);
    StripPreservesMeaning(raw);
    forall p: Path
      ensures p in d.compiled <==> p in SecondCompile(raw)
      ensures p in d.compiled ==> d.compiled[p] == SecondCompile(raw)[p]
    {
      StripMembers(raw, p);
    }
    assert d.compiled.Keys == SecondCompile(raw).Keys;
  }

  lemma GrownIsAppend(files: Files, ds: Files)
    ensures Append(files, ds) == Grown(files, ds)
  {
  }

  // ----- contents by label

  /** In every reachable state a tracked directory has one of the contents its label stands for. */
  lemma ContentsOnRaw(raw: Raw, ops: seq<Op>, dir: Name)
    requires GoodDatasets(Strip(raw)) && RunEnabled(Strip(raw), FRESH, ops)
    requires dir in Run(Strip(raw), FRESH, ops).labels
    ensures dir in Run(Strip(raw), FRESH, ops).disk
    ensures var s := Run(Strip(raw), FRESH, ops);
      var files, two, one, more := s.disk[dir].files, BothVersions(raw), FirstCompile(raw), SecondCompile(raw);
      match s.labels[dir]
      case Unpatched => files == raw.unpatched
      case UnpatchedCompiled => files == one
      case Patched => files == two || files == two - more.Keys || files == one - more.Keys
      case PatchedCompiled => files == Grown(two, more) || files == two + more || files == one + more
  {
    ReachableContents(Strip(raw), ops, dir);
    StrippedOnRaw(raw);
    GrownIsAppend(BothVersions(raw), SecondCompile(raw));
  }

  // ----- what each operation does

  /** The other directories stay as they are. */
  predicate OnlyThis(s: State, s': State, dir: Name) {
    s'.labels - {dir} == s.labels - {dir} && s'.disk - {dir} == s.disk - {dir}
  }

  ghost predicate Leads(s': State, dir: Name, kind: Label, files: Files) {
    dir in s'.labels && s'.labels[dir] == kind && dir in s'.disk && s'.disk[dir].files == files
  }

  lemma OthersStay(d: Raw, s: State, op: Op)
    requires Enabled(s, op)
    ensures OnlyThis(s, Step(d, s, op), op.dir)
  {
  }

  lemma CreateMeans(raw: Raw, ops: seq<Op>, op: Op)
    requires GoodDatasets(Strip(raw)) && RunEnabled(Strip(raw), FRESH, ops)
    requires (op.Create? || op.InitialCreate?) && Enabled(Run(Strip(raw), FRESH, ops), op)
    ensures var s := Run(Strip(raw), FRESH, ops); var s' := Step(Strip(raw), s, op);
      OnlyThis(s, s', op.dir) && Leads(s', op.dir, Unpatched, raw.unpatched)
  {
    var s := Run(Strip(raw), FRESH, ops);
    OthersStay(Strip(raw), s, op);
    assert Append(map[], raw.unpatched) == raw.unpatched;
  }

  /** Patching gives the second version, or writes what the second compile adds over a compiled tree. */
  lemma PatchMeans(raw: Raw, ops: seq<Op>, from: Label, dir: Name)
    requires GoodDatasets(Strip(raw)) && RunEnabled(Strip(raw), FRESH, ops)
    requires Enabled(Run(Strip(raw), FRESH, ops), Patch(from, dir))
    ensures var s := Run(Strip(raw), FRESH, ops); var s' := Step(Strip(raw), s, Patch(from, dir));
      && OnlyThis(s, s', dir)
      && if from == Unpatched then Leads(s', dir, Patched, BothVersions(raw))
         else from == UnpatchedCompiled && Leads(s', dir, PatchedCompiled, FirstCompile(raw) + SecondCompile(raw))
  {
    var s := Run(Strip(raw), FRESH, ops);
    OthersStay(Strip(raw), s, Patch(from, dir));
    ReachableContents(Strip(raw), ops, dir);
    StrippedOnRaw(raw);
  }

  /** Compiling gives the first compile, or makes a patched tree grow by what the second one adds. */
  lemma CompileMeans(raw: Raw, ops: seq<Op>, from: Label, dir: Name)
    requires GoodDatasets(Strip(raw)) && RunEnabled(Strip(raw), FRESH, ops)
    requires Enabled(Run(Strip(raw), FRESH, ops), Compile(from, dir))
    ensures var s := Run(Strip(raw), FRESH, ops); var s' := Step(Strip(raw), s, Compile(from, dir));
      && OnlyThis(s, s', dir) && dir in s.disk
      && if from == Unpatched then Leads(s', dir, UnpatchedCompiled, FirstCompile(raw))
         else from == Patched && Leads(s', dir, PatchedCompiled, Grown(s.disk[dir].files, SecondCompile(raw)))
  {
    var s := Run(Strip(raw), FRESH, ops);
    OthersStay(Strip(raw), s, Compile(from, dir));
    ReachableContents(Strip(raw), ops, dir);
    StrippedOnRaw(raw);
    GrownIsAppend(s.disk[dir].files, SecondCompile(raw));
  }

  /** Cleaning gives the first version back, or takes what the second compile adds away. */
  lemma CleanMeans(raw: Raw, ops: seq<Op>, from: Label, dir: Name)
    requires GoodDatasets(Strip(raw)) && RunEnabled(Strip(raw), FRESH, ops)
    requires Enabled(Run(Strip(raw), FRESH, ops), Clean(from, dir))
    ensures var s := Run(Strip(raw), FRESH, ops); var s' := Step(Strip(raw), s, Clean(from, dir));
      && OnlyThis(s, s', dir) && dir in s.disk
      && if from == UnpatchedCompiled then Leads(s', dir, Unpatched, raw.unpatched)
         else from == PatchedCompiled && Leads(s', dir, Patched, s.disk[dir].files - SecondCompile(raw).Keys)
  {
    var s, d := Run(Strip(raw), FRESH, ops), Strip(raw);
    OthersStay(d, s, Clean(from, dir));
    ReachableContents(d, ops, dir);
    StrippedOnRaw(raw);
    RemoveAppend(d.unpatched, d.unpatchedCompiled);
    CompiledDisjoint(d);
  }

  /** Deleting forgets the directory and leaves it empty; reading and statting change nothing. */
  lemma DeleteMeans(d: Raw, s: State, op: Op)
    requires Enabled(s, op) && (op.Delete? || op.Read? || op.StatTree?)
    ensures var s' := Step(d, s, op);
      && OnlyThis(s, s', op.dir)
      && (op.Delete? ==> op.dir !in s'.labels && op.dir in s'.disk && s'.disk[op.dir] == EMPTY_TREE)
      && (!op.Delete? ==> s'.labels == s.labels && s'.disk == s.disk)
  {
    OthersStay(d, s, op);
  }

  // ----- the counters

  predicate IsInitial(op: Op) { op.InitialCreate? }
  predicate IsCreate(op: Op) { op.Create? }
  predicate IsPatch(op: Op) { op.Patch? }
  predicate IsCompile(op: Op) { op.Compile? }
  predicate IsClean(op: Op) { op.Clean? }
  predicate IsDelete(op: Op) { op.Delete? }
  predicate DeletesCompiled(op: Op) { op.Delete? && (op.from == UnpatchedCompiled || op.from == PatchedCompiled) }
  predicate ReadsCompiled(op: Op) { op.Read? && (op.from == UnpatchedCompiled || op.from == PatchedCompiled) }
  predicate ReadsSource(op: Op) { op.Read? && (op.from == Unpatched || op.from == Patched) }
  predicate StatsCompiled(op: Op) { op.StatTree? && (op.from == UnpatchedCompiled || op.from == PatchedCompiled) }
  predicate StatsSource(op: Op) { op.StatTree? && (op.from == Unpatched || op.from == Patched) }

  function One(b: bool): nat {
    if b then 1 else 0
  }

  lemma CounterStep(d: Raw, s: State, op: Op)
    requires Enabled(s, op)
    ensures var a, b := s.stats, Step(d, s, op).stats;
      && b.initialCreate == a.initialCreate + One(IsInitial(op)) && b.create == a.create + One(IsCreate(op))
      && b.patch == a.patch + One(IsPatch(op)) && b.compile == a.compile + One(IsCompile(op))
      && b.clean == a.clean + One(IsClean(op))
      && b.read == a.read + One(ReadsSource(op)) && b.readCompiled == a.readCompiled + One(ReadsCompiled(op))
      && b.stat == a.stat + One(StatsSource(op)) && b.statCompiled == a.statCompiled + One(StatsCompiled(op))
      && b.delete + b.deleteCompiled == a.delete + a.deleteCompiled + One(IsDelete(op))
      && b.deleteCompiled >= a.deleteCompiled + One(DeletesCompiled(op))
  {
    match op
    case Read(from, dir) => ReadFiledRight(s, from, dir);
    case StatTree(from, dir) =>
      assert Enabled(s, Read(from, dir));
      ReadFiledRight(s, from, dir);
    case Delete(from, dir) => LooksCompiledMeans(s.labels - {dir}, from);
    case _ =>
  }

  /** After every run each counter is the number of operations of its kind; only among deletions can
      one of a source tree have been counted as one of a compiled tree, and never the other way. */
  lemma {:induction false} CountersCount(d: Raw, ops: seq<Op>)
    requires RunEnabled(d, FRESH, ops)
    ensures var st := Run(d, FRESH, ops).stats;
      && st.initialCreate == Count(ops, IsInitial) && st.create == Count(ops, IsCreate)
      && st.patch == Count(ops, IsPatch) && st.compile == Count(ops, IsCompile) && st.clean == Count(ops, IsClean)
      && st.read == Count(ops, ReadsSource) && st.readCompiled == Count(ops, ReadsCompiled)
      && st.stat == Count(ops, StatsSource) && st.statCompiled == Count(ops, StatsCompiled)
      && st.delete + st.deleteCompiled == Count(ops, IsDelete)
      && st.deleteCompiled >= Count(ops, DeletesCompiled)
  {
    if ops != [] {
      var front := ops[..|ops| - 1];
      CountersCount(d, front);
      CounterStep(d, Run(d, FRESH, front), ops[|ops| - 1]);
    }
  }
}
