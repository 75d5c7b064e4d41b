/** Datasets of compilebench: file names with sizes, how the constructor strips the four raw
    datasets against each other, and what writing or removing a dataset does to a file map. */
module BenchDatasets {
  /** A relative, normalised path as its component names. */
  type Path = p: seq<string> | |p| > 0 witness ["x"]
  type Files = map<Path, nat>

  datatype Raw = Raw(unpatched: Files, patched: Files, unpatchedCompiled: Files, compiled: Files)

  // ----- writing and removing

  /** Every file of ds is emptied (or unlinked) first and then written. */
  function Overlay(files: Files, ds: Files): Files {
    files + ds
  }

  function SizeIn(files: Files, p: Path): nat {
    if p in files then files[p] else 0
  }

  /** Every file of ds is opened for append and written: an existing file grows. */
  function Append(files: Files, ds: Files): Files {
    map p | p in files.Keys + ds.Keys :: SizeIn(files, p) + SizeIn(ds, p)
  }

  function Remove(files: Files, ds: Files): Files {
    files - ds.Keys
  }

  // ----- the constructor's stripping

  /** The entries of ds that are not in base with the same size. */
  function WithoutEqual(ds: Files, base: Files): Files {
    map p | p in ds && !(p in base && base[p] == ds[p]) :: ds[p]
  }

  /** What the four loops leave: compiled sets without the names of their uncompiled set, and the
      second version without the entries that equal the first. */
  function Strip(raw: Raw): Raw {
    var uc := Remove(raw.unpatchedCompiled, raw.unpatched);
    Raw(raw.unpatched,
        WithoutEqual(raw.patched, raw.unpatched),
        uc,
        WithoutEqual(Remove(raw.compiled, raw.patched), uc))
  }

  /** The loop that deletes every name of base, whether ds has it or not. */
  method DeleteNames(ds: Files, base: Files) returns (r: Files)
    ensures r == Remove(ds, base)
  {
    r := ds;
    var todo := base.Keys;
    while todo != {}
      invariant todo <= base.Keys
      invariant r == ds - (base.Keys - todo)
    {
      var x :| x in todo;
      r := r - {x};
      todo := todo - {x};
    }
  }

  /** The loop that deletes every entry that base has with the same size. */
  method DeleteEqual(ds: Files, base: Files) returns (r: Files)
    ensures r == WithoutEqual(ds, base)
  {
    r := ds;
    var todo := base.Keys;
    while todo != {}
      invariant todo <= base.Keys
      invariant r == map p | p in ds && !(p in base.Keys - todo && base[p] == ds[p]) :: ds[p]
    {
      var x :| x in todo;
      if x in r && r[x] == base[x] {
        r := r - {x};
      }
      todo := todo - {x};
    }
  }

  /** The deletions in their actual order: the compiled set loses the names of the original
      patched set, before that set itself is thinned. */
  method StripInPlace(raw: Raw) returns (d: Raw)
    ensures d == Strip(raw)
  {
    var patched, unpatchedCompiled, compiled := raw.patched, raw.unpatchedCompiled, raw.compiled;
    unpatchedCompiled := DeleteNames(unpatchedCompiled, raw.unpatched);
    compiled := DeleteNames(compiled, patched);
    patched := DeleteEqual(patched, raw.unpatched);
    compiled := DeleteEqual(compiled, unpatchedCompiled);
    d := Raw(raw.unpatched, patched, unpatchedCompiled, compiled);
  }

  lemma OverlayWithoutEqual(base: Files, ds: Files)
    ensures Overlay(base, WithoutEqual(ds, base)) == Overlay(base, ds)
  {
    assert Overlay(base, WithoutEqual(ds, base)).Keys == Overlay(base, ds).Keys;
  }

  /** Where no name is shared, growing and replacing are the same. */
  lemma AppendRemaining(base: Files, ds: Files)
    ensures Append(base, Remove(ds, base)) == Overlay(ds, base)
  {
    assert Append(base, Remove(ds, base)).Keys == Overlay(ds, base).Keys;
  }

  /** Stripping preserves meaning: writing a thinned set gives what the full set would give. */
  lemma StripPreservesMeaning(raw: Raw)
    ensures var d := Strip(raw);
      && Overlay(d.unpatched, d.patched) == Overlay(raw.unpatched, raw.patched)
      && Overlay(d.unpatchedCompiled, d.compiled) == Overlay(d.unpatchedCompiled, Remove(raw.compiled, raw.patched))
      && Append(d.unpatched, d.unpatchedCompiled) == Overlay(raw.unpatchedCompiled, raw.unpatched)
      && d.unpatchedCompiled.Keys !! d.unpatched.Keys
      && d.compiled.Keys !! raw.patched.Keys
  {
    OverlayWithoutEqual(raw.unpatched, raw.patched);
    OverlayWithoutEqual(Remove(raw.unpatchedCompiled, raw.unpatched), Remove(raw.compiled, raw.patched));
    AppendRemaining(raw.unpatched, raw.unpatchedCompiled);
  }

  // ----- the contents a label stands for

  datatype Label = Unpatched | UnpatchedCompiled | Patched | PatchedCompiled

  /** What stripping establishes and the operations rely on. */
  ghost predicate Stripped(d: Raw) {
    && d.unpatchedCompiled.Keys !! d.unpatched.Keys
    && d.compiled.Keys !! d.patched.Keys
    && (forall p :: p in d.patched && p in d.unpatched ==> d.patched[p] != d.unpatched[p])
  }

  lemma StripIsStripped(raw: Raw)
    ensures Stripped(Strip(raw))
  {
  }

  /** What stripping leaves of each dataset, name by name and on the raw datasets alone. */
  lemma StripMembers(raw: Raw, p: Path)
    ensures Strip(raw).unpatched == raw.unpatched
    ensures p in Strip(raw).patched
       <==> p in raw.patched && !(p in raw.unpatched && raw.unpatched[p] == raw.patched[p])
    ensures p in Strip(raw).patched ==> Strip(raw).patched[p] == raw.patched[p]
    ensures p in Strip(raw).unpatchedCompiled <==> p in raw.unpatchedCompiled && p !in raw.unpatched
    ensures p in Strip(raw).unpatchedCompiled ==> Strip(raw).unpatchedCompiled[p] == raw.unpatchedCompiled[p]
    ensures p in Strip(raw).compiled
       <==> && p in raw.compiled && p !in raw.patched
            && !(p in raw.unpatchedCompiled && p !in raw.unpatched && raw.unpatchedCompiled[p] == raw.compiled[p])
    ensures p in Strip(raw).compiled ==> Strip(raw).compiled[p] == raw.compiled[p]
  {
  }

  function PatchedTree(d: Raw): Files {
    Overlay(d.unpatched, d.patched)
  }

  function CompiledTree(d: Raw): Files {
    Append(d.unpatched, d.unpatchedCompiled)
  }

  /** The exact contents a directory with the given label can have. */
  predicate HasContents(d: Raw, kind: Label, files: Files) {
    match kind
    case Unpatched => files == d.unpatched
    case UnpatchedCompiled => files == CompiledTree(d)
    case Patched =>
      || files == PatchedTree(d)
      || files == Remove(PatchedTree(d), d.compiled)
      || files == Remove(CompiledTree(d), d.compiled)
    case PatchedCompiled =>
      || files == Append(PatchedTree(d), d.compiled)
      || files == Overlay(PatchedTree(d), d.compiled)
      || files == Overlay(CompiledTree(d), d.compiled)
  }

  /** The dataset that patching, compiling or cleaning a directory writes or removes. */
  function PatchSet(d: Raw, from: Label): Files {
    if from == Unpatched then d.patched else d.compiled
  }

  function CompileSet(d: Raw, from: Label): Files {
    if from == Unpatched then d.unpatchedCompiled else d.compiled
  }

  function CleanSet(d: Raw, from: Label): Files {
    if from == PatchedCompiled then d.compiled else d.unpatchedCompiled
  }

  lemma RemoveAppend(files: Files, ds: Files)
    ensures Remove(Append(files, ds), ds) == Remove(files, ds)
    ensures Remove(Overlay(files, ds), ds) == Remove(files, ds)
    ensures Append(Remove(files, ds), ds) == Overlay(files, ds)
  {
    assert Remove(Append(files, ds), ds).Keys == Remove(files, ds).Keys;
  }

  lemma PatchKeepsContents(d: Raw, from: Label, files: Files)
    requires from == Unpatched || from == UnpatchedCompiled
    requires HasContents(d, from, files)
    ensures HasContents(d, if from == Unpatched then Patched else PatchedCompiled, Overlay(files, PatchSet(d, from)))
  {
  }

  lemma CompileKeepsContents(d: Raw, from: Label, files: Files)
    requires from == Unpatched || from == Patched
    requires HasContents(d, from, files)
    ensures var to := if from == Unpatched then UnpatchedCompiled else PatchedCompiled;
      HasContents(d, to, Append(files, CompileSet(d, from)))
  {
    RemoveAppend(PatchedTree(d), d.compiled);
    RemoveAppend(CompiledTree(d), d.compiled);
  }

  /** Cleaning finds every file it unlinks and leaves the contents its new label stands for. */
  lemma CleanKeepsContents(d: Raw, from: Label, files: Files)
    requires Stripped(d)
    requires from == UnpatchedCompiled || from == PatchedCompiled
    requires HasContents(d, from, files)
    ensures CleanSet(d, from).Keys <= files.Keys
    ensures HasContents(d, if from == UnpatchedCompiled then Unpatched else Patched, Remove(files, CleanSet(d, from)))
  {
    RemoveAppend(d.unpatched, d.unpatchedCompiled);
    RemoveAppend(PatchedTree(d), d.compiled);
    RemoveAppend(CompiledTree(d), d.compiled);
    CompiledDisjoint(d);
  }

  lemma CompiledDisjoint(d: Raw)
    requires Stripped(d)
    ensures Remove(d.unpatched, d.unpatchedCompiled) == d.unpatched
  {
  }

  /** Compile then clean gives an unpatched tree back always, and a patched tree exactly when the
      tree has no file the second compiled dataset also names. */
  lemma CompileThenClean(d: Raw, from: Label, files: Files)
    requires Stripped(d)
    requires from == Unpatched || from == Patched
    requires HasContents(d, from, files)
    ensures var after := Remove(Append(files, CompileSet(d, from)), CompileSet(d, from));
      after == files <==> from == Unpatched || d.compiled.Keys !! files.Keys
  {
    var ds := CompileSet(d, from);
    RemoveAppend(files, ds);
    CompiledDisjoint(d);
    if from == Patched {
      assert Remove(files, ds) == files <==> ds.Keys !! files.Keys by {
        if ds.Keys !! files.Keys {
          assert Remove(files, ds) == files;
        } else {
          var p :| p in ds.Keys && p in files.Keys;
          assert p !in Remove(files, ds);
        }
      }
    }
  }

  /** A freshly patched tree survives compile and clean exactly when no file of the compiled
      dataset is one that the patch deletes: writing a patch never deletes files, and stripping
      removes from the compiled dataset only the names the patched version still has. */
  lemma PatchedSurvivesCompile(raw: Raw)
    ensures var d := Strip(raw);
      Remove(Append(PatchedTree(d), d.compiled), d.compiled) == PatchedTree(d)
      <==> d.compiled.Keys !! raw.unpatched.Keys
  {
    var d := Strip(raw);
    StripPreservesMeaning(raw);
    StripIsStripped(raw);
    CompileThenClean(d, Patched, PatchedTree(d));
    assert d.compiled.Keys !! PatchedTree(d).Keys <==> d.compiled.Keys !! raw.unpatched.Keys;
  }

  lemma HistoriesAgreeAt(u: Files, p: Files, uc: Files, c: Files, x: Path)
    requires uc.Keys !! u.Keys && c.Keys !! p.Keys
    requires x in p && x in u ==> p[x] != u[x]
    ensures var a, b := Remove(Overlay(u, p), c), Remove(Append(u, uc), c);
      (x in a <==> x in b) && (x in a && x in b ==> a[x] == b[x])
      <==> (x in p <==> x in Remove(uc, c)) && (x in p && x in uc ==> p[x] == uc[x])
  {
  }

  /** The files after patch, compile, clean and those after compile, patch, clean agree exactly when
      the thinned patch is what cleaning leaves of the first compile. */
  lemma HistoriesAgreeIff(d: Raw)
    requires Stripped(d)
    ensures var patchedFirst := Remove(Append(PatchedTree(d), d.compiled), d.compiled);
            var compiledFirst := Remove(Overlay(CompiledTree(d), d.compiled), d.compiled);
      patchedFirst == compiledFirst <==> d.patched == Remove(d.unpatchedCompiled, d.compiled)
  {
    CompiledDisjoint(d);
    RemoveAppend(PatchedTree(d), d.compiled);
    RemoveAppend(CompiledTree(d), d.compiled);
    forall x: Path
      ensures var a, b := Remove(PatchedTree(d), d.compiled), Remove(CompiledTree(d), d.compiled);
        (x in a <==> x in b) && (x in a && x in b ==> a[x] == b[x])
        <==> (x in d.patched <==> x in Remove(d.unpatchedCompiled, d.compiled))
             && (x in d.patched && x in d.unpatchedCompiled ==> d.patched[x] == d.unpatchedCompiled[x])
    {
      HistoriesAgreeAt(d.unpatched, d.patched, d.unpatchedCompiled, d.compiled, x);
    }
    MapsEqual(Remove(PatchedTree(d), d.compiled), Remove(CompiledTree(d), d.compiled));
    MapsEqual(d.patched, Remove(d.unpatchedCompiled, d.compiled));
  }

  lemma MapsEqual(a: Files, b: Files)
    ensures a == b <==> forall x: Path :: (x in a <==> x in b) && (x in a && x in b ==> a[x] == b[x])
  {
    if forall x: Path :: (x in a <==> x in b) && (x in a && x in b ==> a[x] == b[x]) {
      assert a.Keys == b.Keys;
    }
  }
}
