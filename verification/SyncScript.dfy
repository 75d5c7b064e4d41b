/** The system calls of a synctest child with -u, written down as one list for a whole pass over its
    files, and what such calls do to the set of files. */
module SyncScript {
  import opened SyncNames

  /** N_FILES, UNLINK_LAG and RENAME_PASSES. */
  datatype Params = Params(files: nat, lag: nat, passes: nat)

  predicate GoodParams(c: Params) {
    c.lag <= c.files && c.passes >= 1
  }

  /** One process of the run: where it writes and how its files are named. */
  datatype Proc = Proc(root: string, group: nat, pid: nat)

  type Names = FileId -> string

  function NamesOf(who: Proc): Names {
    id => FilePath(who.root, who.group, who.pid, id)
  }

  datatype Call = OpenAt(path: string) | RenameAt(from: string, to: string) | UnlinkAt(path: string)

  function Perform(files: set<string>, call: Call): set<string> {
    match call
    case OpenAt(path) => files + {path}
    case RenameAt(from, to) => files - {from} + {to}
    case UnlinkAt(path) => files - {path}
  }

  /** File f is renamed from its first name to that of pass 0, from there to that of pass 1, and so
      on, n times in all. */
  function Renames(name: Names, f: nat, n: nat): seq<Call> {
    if n == 0 then []
    else Renames(name, f, n - 1) + [RenameAt(name(if n == 1 then Base(f) else Pass(n - 2, f)), name(Pass(n - 1, f)))]
  }

  /** File f unlinked under the name of the last pass. */
  function FinalUnlink(c: Params, name: Names, f: nat): (r: Call)
    requires GoodParams(c)
    ensures r.UnlinkAt?
  {
    UnlinkAt(name(Pass(c.passes - 1, f)))
  }

  /** File f is created and renamed, and the file lag numbers before it, if any, unlinked under the
      name of the last pass. */
  function FileScript(c: Params, name: Names, f: nat): seq<Call>
    requires GoodParams(c)
  {
    [OpenAt(name(Base(f)))] + Renames(name, f, c.passes)
    + (if f >= c.lag then [FinalUnlink(c, name, f - c.lag)] else [])
  }

  /** The first n files, one after the other. */
  function FilesScript(c: Params, name: Names, n: nat): seq<Call>
    requires GoodParams(c)
  {
    if n == 0 then [] else FilesScript(c, name, n - 1) + FileScript(c, name, n - 1)
  }

  /** The first n of the lag files that are left. */
  function Drains(c: Params, name: Names, n: nat): seq<Call>
    requires GoodParams(c)
  {
    if n == 0 then [] else Drains(c, name, n - 1) + [FinalUnlink(c, name, c.files - c.lag + n - 1)]
  }

  /** All calls of one iteration. */
  function Script(c: Params, name: Names): seq<Call>
    requires GoodParams(c)
  {
    FilesScript(c, name, c.files) + Drains(c, name, c.lag)
  }

  function Repeated(script: seq<Call>, n: nat): seq<Call> {
    if n == 0 then [] else Repeated(script, n - 1) + script
  }

  /** Two files with a lag of one and two rename passes, written out. */
  lemma SmallScript(name: Names)
    ensures Script(Params(2, 1, 2), name)
         == [OpenAt(name(Base(0))),
             RenameAt(name(Base(0)), name(Pass(0, 0))), RenameAt(name(Pass(0, 0)), name(Pass(1, 0))),
             OpenAt(name(Base(1))),
             RenameAt(name(Base(1)), name(Pass(0, 1))), RenameAt(name(Pass(0, 1)), name(Pass(1, 1))),
             UnlinkAt(name(Pass(1, 0))), UnlinkAt(name(Pass(1, 1)))]
  {
    SmallFile(name, 0);
    SmallFile(name, 1);
    SmallParts(name);
  }

  lemma SmallParts(name: Names)
    ensures var c := Params(2, 1, 2);
      Script(c, name) == FileScript(c, name, 0) + FileScript(c, name, 1) + [UnlinkAt(name(Pass(1, 1)))]
  {
    var c := Params(2, 1, 2);
    assert FilesScript(c, name, 0) == [] && Drains(c, name, 0) == [];
    assert FilesScript(c, name, 1) == FileScript(c, name, 0);
    assert FilesScript(c, name, 2) == FileScript(c, name, 0) + FileScript(c, name, 1);
    assert Drains(c, name, 1) == [UnlinkAt(name(Pass(1, 1)))];
  }

  lemma SmallFile(name: Names, f: nat)
    requires f < 2
    ensures FileScript(Params(2, 1, 2), name, f)
         == [OpenAt(name(Base(f))),
             RenameAt(name(Base(f)), name(Pass(0, f))), RenameAt(name(Pass(0, f)), name(Pass(1, f)))]
            + if f == 1 then [UnlinkAt(name(Pass(1, 0)))] else []
  {
    assert Renames(name, f, 0) == [];
    assert Renames(name, f, 1) == [RenameAt(name(Base(f)), name(Pass(0, f)))];
    assert Renames(name, f, 2) == Renames(name, f, 1) + [RenameAt(name(Pass(0, f)), name(Pass(1, f)))];
  }

  function Unlinks(script: seq<Call>): seq<Call> {
    if script == [] then []
    else Unlinks(script[..|script| - 1]) + if script[|script| - 1].UnlinkAt? then [script[|script| - 1]] else []
  }

  lemma {:induction false} UnlinksOfBoth(a: seq<Call>, b: seq<Call>)
    ensures Unlinks(a + b) == Unlinks(a) + Unlinks(b)
  {
    if b == [] {
      assert a + b == a;
    } else {
      var k := |b| - 1;
      UnlinksOfBoth(a, b[..k]);
      assert (a + b)[..|a + b| - 1] == a + b[..k];
    }
  }

  /** The first n files, unlinked in order under the name of the last pass. */
  function UnlinkEach(c: Params, name: Names, n: nat): seq<Call>
    requires GoodParams(c)
  {
    if n == 0 then [] else UnlinkEach(c, name, n - 1) + [FinalUnlink(c, name, n - 1)]
  }

  lemma {:induction false} NoUnlinkInRenames(name: Names, f: nat, n: nat)
    ensures Unlinks(Renames(name, f, n)) == []
  {
    if n > 0 {
      NoUnlinkInRenames(name, f, n - 1);
    }
  }

  lemma OnlyLastUnlinks(open: Call, renames: seq<Call>, unlink: seq<Call>)
    requires !open.UnlinkAt? && Unlinks(renames) == [] && Unlinks(unlink) == unlink
    ensures Unlinks([open] + renames + unlink) == unlink
  {
    UnlinksOfBoth([open], renames);
    UnlinksOfBoth([open] + renames, unlink);
    assert [open][..0] == [];
  }

  lemma SingleUnlink(call: Call)
    requires call.UnlinkAt?
    ensures Unlinks([call]) == [call]
  {
    assert [call][..0] == [];
  }

  lemma UnlinksOfFile(c: Params, name: Names, f: nat)
    requires GoodParams(c)
    ensures Unlinks(FileScript(c, name, f)) == if f >= c.lag then [FinalUnlink(c, name, f - c.lag)] else []
  {
    var unlink := if f >= c.lag then [FinalUnlink(c, name, f - c.lag)] else [];
    if f >= c.lag {
      SingleUnlink(FinalUnlink(c, name, f - c.lag));
    }
    NoUnlinkInRenames(name, f, c.passes);
    OnlyLastUnlinks(OpenAt(name(Base(f))), Renames(name, f, c.passes), unlink);
  }

  /** The unlinks of a script, when they are u. */
  predicate UnlinksAre(script: seq<Call>, u: seq<Call>) {
    Unlinks(script) == u
  }

  lemma UnlinksAdd(a: seq<Call>, b: seq<Call>, u: seq<Call>, v: seq<Call>)
    requires UnlinksAre(a, u) && UnlinksAre(b, v)
    ensures UnlinksAre(a + b, u + v)
  {
    UnlinksOfBoth(a, b);
  }

  lemma {:induction false} UnlinksOfFiles(c: Params, name: Names, n: nat)
    requires GoodParams(c)
    ensures UnlinksAre(FilesScript(c, name, n), UnlinkEach(c, name, if n < c.lag then 0 else n - c.lag))
  {
    if n > 0 {
      var u := UnlinkEach(c, name, if n - 1 < c.lag then 0 else n - 1 - c.lag);
      UnlinksOfFiles(c, name, n - 1);
      UnlinksOfFile(c, name, n - 1);
      var v := if n - 1 >= c.lag then [FinalUnlink(c, name, n - 1 - c.lag)] else [];
      UnlinksAdd(FilesScript(c, name, n - 1), FileScript(c, name, n - 1), u, v);
      NothingAdded(u);
    }
  }

  lemma NothingAdded(a: seq<Call>)
    ensures a + [] == a
  {
  }

  lemma Associative(a: seq<Call>, b: seq<Call>, x: seq<Call>)
    ensures a + (b + x) == (a + b) + x
  {
  }

  lemma {:induction false} UnlinksOfDrains(c: Params, name: Names, first: nat, n: nat)
    requires GoodParams(c) && n <= c.lag && first == c.files - c.lag
    ensures Unlinks(Drains(c, name, n)) == Drains(c, name, n)
    ensures UnlinkEach(c, name, first) + Drains(c, name, n) == UnlinkEach(c, name, first + n)
  {
    if n == 0 {
      NothingAdded(UnlinkEach(c, name, first));
    } else {
      var last := FinalUnlink(c, name, first + n - 1);
      UnlinksOfDrains(c, name, first, n - 1);
      var a, b, u := UnlinkEach(c, name, first), Drains(c, name, n - 1), UnlinkEach(c, name, first + n - 1);
      OneMoreUnlink(a, b, u, last);
      assert Drains(c, name, n) == b + [last] && UnlinkEach(c, name, first + n) == u + [last];
    }
  }

  lemma OneMoreUnlink(a: seq<Call>, b: seq<Call>, u: seq<Call>, last: Call)
    requires a + b == u && Unlinks(b) == b && last.UnlinkAt?
    ensures a + (b + [last]) == u + [last] && Unlinks(b + [last]) == b + [last]
  {
    Associative(a, b, [last]);
    assert (b + [last])[..|b + [last]| - 1] == b;
  }

  /** Every file is unlinked exactly once, in order. */
  lemma ScriptUnlinksEach(c: Params, name: Names)
    requires GoodParams(c)
    ensures UnlinksAre(Script(c, name), UnlinkEach(c, name, c.files))
  {
    var drains := Drains(c, name, c.lag);
    UnlinksOfFiles(c, name, c.files);
    UnlinksOfDrains(c, name, c.files - c.lag, c.lag);
    UnlinksAdd(FilesScript(c, name, c.files), drains, UnlinkEach(c, name, c.files - c.lag), drains);
  }

  // ----- logs of several processes

  /** The calls in a log that process i made. */
  function CallsOf(log: seq<(nat, Call)>, i: nat): seq<Call> {
    if log == [] then []
    else CallsOf(log[..|log| - 1], i) + if log[|log| - 1].0 == i then [log[|log| - 1].1] else []
  }

  /** The files there are when the calls of a log have been made, from an empty disk. */
  function Replay(log: seq<(nat, Call)>): set<string> {
    if log == [] then {} else Perform(Replay(log[..|log| - 1]), log[|log| - 1].1)
  }

  lemma LogNext(log: seq<(nat, Call)>, i: nat, call: Call, j: nat)
    ensures CallsOf(log + [(i, call)], j) == CallsOf(log, j) + if i == j then [call] else []
    ensures Replay(log + [(i, call)]) == Perform(Replay(log), call)
  {
    assert (log + [(i, call)])[..|log + [(i, call)]| - 1] == log;
  }
}
