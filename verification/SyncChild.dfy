/** What one synctest child does to its directory with -u: the sequence of its system calls, the
    files it has after each of them, and the loops that make them. */
module SyncChild {
  import opened SyncNames
  import opened SyncScript

  /** Where in do_child a process is: the next system call it makes. */
  datatype Pos =
    | AtCreate(f: nat)
    | AtRename(f: nat, p: nat)
    | AtUnlink(f: nat)
    | AtDrain(f: nat)
    | AtEnd

  datatype Sys = Open(id: FileId) | Rename(from: FileId, to: FileId) | Unlink(id: FileId) | NoCall

  predicate ValidPos(c: Params, pos: Pos) {
    match pos
    case AtCreate(f) => f < c.files
    case AtRename(f, p) => f < c.files && p < c.passes
    case AtUnlink(f) => c.lag <= f < c.files
    case AtDrain(f) => c.files - c.lag <= f < c.files
    case AtEnd => true
  }

  function Final(c: Params, f: nat): FileId
    requires c.passes >= 1
  {
    Pass(c.passes - 1, f)
  }

  function SysOf(c: Params, pos: Pos): Sys
    requires GoodParams(c) && ValidPos(c, pos)
  {
    match pos
    case AtCreate(f) => Open(Base(f))
    case AtRename(f, p) => Rename(if p == 0 then Base(f) else Pass(p - 1, f), Pass(p, f))
    case AtUnlink(f) => Unlink(Final(c, f - c.lag))
    case AtDrain(f) => Unlink(Final(c, f))
    case AtEnd => NoCall
  }

  function DrainFrom(c: Params, f: nat): Pos {
    if f < c.files then AtDrain(f) else AtEnd
  }

  /** The head of the loop over file numbers, or the drain loop after it. */
  function FileLoop(c: Params, f: nat): Pos
    requires GoodParams(c)
  {
    if f < c.files then AtCreate(f) else DrainFrom(c, c.files - c.lag)
  }

  function Start(c: Params): Pos
    requires GoodParams(c)
  {
    FileLoop(c, 0)
  }

  /** The next rename of file f, or what follows the last one. */
  function RenameLoop(c: Params, f: nat, p: nat): Pos
    requires GoodParams(c)
  {
    if p < c.passes then AtRename(f, p)
    else if f >= c.lag then AtUnlink(f)
    else FileLoop(c, f + 1)
  }

  function NextPos(c: Params, pos: Pos): (r: Pos)
    requires GoodParams(c) && ValidPos(c, pos)
    ensures ValidPos(c, r)
  {
    match pos
    case AtCreate(f) => RenameLoop(c, f, 0)
    case AtRename(f, p) => RenameLoop(c, f, p + 1)
    case AtUnlink(f) => FileLoop(c, f + 1)
    case AtDrain(f) => DrainFrom(c, f + 1)
    case AtEnd => AtEnd
  }

  // ----- the files a process has

  /** Files lo up to hi under their final names. */
  function Window(c: Params, lo: int, hi: nat): set<FileId>
    requires c.passes >= 1
  {
    set f: nat | lo <= f < hi :: Final(c, f)
  }

  /** The files the process has when it is about to make the call at pos: always a window of
      final names, with the file in work beside it. */
  function Live(c: Params, pos: Pos): set<FileId>
    requires c.passes >= 1
  {
    match pos
    case AtCreate(f) => Window(c, f - c.lag, f)
    case AtRename(f, p) => Window(c, f - c.lag, f) + {if p == 0 then Base(f) else Pass(p - 1, f)}
    case AtUnlink(f) => Window(c, f - c.lag, f + 1)
    case AtDrain(f) => Window(c, f, c.files)
    case AtEnd => {}
  }

  function ApplyIds(ids: set<FileId>, sys: Sys): set<FileId> {
    match sys
    case Open(id) => ids + {id}
    case Rename(from, to) => ids - {from} + {to}
    case Unlink(id) => ids - {id}
    case NoCall => ids
  }

  /** A rename or an unlink finds its file. */
  predicate Finds(ids: set<FileId>, sys: Sys) {
    match sys
    case Rename(from, _) => from in ids
    case Unlink(id) => id in ids
    case _ => true
  }

  lemma WindowGrows(c: Params, lo: int, hi: nat)
    requires c.passes >= 1 && lo <= hi
    ensures Window(c, lo, hi + 1) == Window(c, lo, hi) + {Final(c, hi)}
    ensures lo >= 0 ==> Window(c, lo, hi + 1) == Window(c, lo + 1, hi + 1) + {Final(c, lo)}
    ensures lo >= 0 ==> Final(c, lo) !in Window(c, lo + 1, hi + 1)
    ensures forall f :: Base(f) !in Window(c, lo, hi)
  {
  }

  lemma FileLoopLive(c: Params, f: nat)
    requires GoodParams(c) && f <= c.files
    ensures Live(c, FileLoop(c, f)) == Window(c, f - c.lag, f)
  {
  }

  lemma RenameStep(c: Params, f: nat, p: nat)
    requires GoodParams(c) && f < c.files && p < c.passes
    ensures Finds(Live(c, AtRename(f, p)), SysOf(c, AtRename(f, p)))
    ensures ApplyIds(Live(c, AtRename(f, p)), SysOf(c, AtRename(f, p))) == Live(c, NextPos(c, AtRename(f, p)))
  {
    var before := Window(c, f - c.lag, f);
    WindowGrows(c, f - c.lag, f);
    var from := if p == 0 then Base(f) else Pass(p - 1, f);
    assert from !in before;
    assert ApplyIds(Live(c, AtRename(f, p)), SysOf(c, AtRename(f, p))) == before + {Pass(p, f)};
    if p + 1 == c.passes && f < c.lag {
      FileLoopLive(c, f + 1);
      assert Window(c, f - c.lag, f + 1) == Window(c, f + 1 - c.lag, f + 1);
    }
  }

  /** Every call finds its file and leaves exactly the files of the next position. */
  lemma LiveStep(c: Params, pos: Pos)
    requires GoodParams(c) && ValidPos(c, pos)
    ensures Finds(Live(c, pos), SysOf(c, pos))
    ensures ApplyIds(Live(c, pos), SysOf(c, pos)) == Live(c, NextPos(c, pos))
  {
    match pos
    case AtCreate(f) =>
    case AtRename(f, p) => RenameStep(c, f, p);
    case AtUnlink(f) =>
      WindowGrows(c, f - c.lag, f);
      FileLoopLive(c, f + 1);
    case AtDrain(f) =>
      WindowGrows(c, f, c.files - 1);
    case AtEnd =>
  }

  /** The window never holds more than lag files, so no process ever has more than lag + 1. */
  lemma WindowSize(c: Params, lo: int, hi: nat)
    requires c.passes >= 1
    ensures |Window(c, lo, hi)| == if hi <= lo then 0 else if lo < 0 then hi else hi - lo
  {
    if lo < 0 {
      assert Window(c, lo, hi) == Window(c, 0, hi);
      WindowSizeFrom(c, 0, hi);
    } else {
      WindowSizeFrom(c, lo, hi);
    }
  }

  lemma {:induction false} WindowSizeFrom(c: Params, lo: nat, hi: nat)
    requires c.passes >= 1
    ensures |Window(c, lo, hi)| == if hi <= lo then 0 else hi - lo
    decreases hi
  {
    if lo < hi {
      WindowSizeFrom(c, lo, hi - 1);
      LastOfWindow(c, lo, hi - 1);
      OneMore(Window(c, lo, hi), Window(c, lo, hi - 1), Final(c, hi - 1));
    } else {
      assert Window(c, lo, hi) == {};
    }
  }

  lemma LastOfWindow(c: Params, lo: nat, hi: nat)
    requires c.passes >= 1 && lo <= hi
    ensures Window(c, lo, hi + 1) == Window(c, lo, hi) + {Final(c, hi)}
    ensures Final(c, hi) !in Window(c, lo, hi)
  {
  }

  lemma OneMore(a: set<FileId>, b: set<FileId>, x: FileId)
    requires a == b + {x} && x !in b
    ensures |a| == |b| + 1
  {
  }

  /** When file f is done, exactly the last min(f + 1, lag) files are left, under final names. */
  lemma AfterFile(c: Params, f: nat)
    requires GoodParams(c) && f < c.files
    ensures var left := Live(c, FileLoop(c, f + 1));
      && |left| == (if f + 1 < c.lag then f + 1 else c.lag)
      && forall id :: id in left <==> exists j: nat :: f + 1 - c.lag <= j <= f && id == Final(c, j)
  {
    FileLoopLive(c, f + 1);
    WindowSize(c, f + 1 - c.lag, f + 1);
  }

  lemma LiveSize(c: Params, pos: Pos)
    requires GoodParams(c) && ValidPos(c, pos)
    ensures |Live(c, pos)| <= c.lag + 1
  {
    match pos
    case AtCreate(f) => WindowSize(c, f - c.lag, f);
    case AtRename(f, p) => WindowSize(c, f - c.lag, f);
    case AtUnlink(f) => WindowSize(c, f - c.lag, f + 1);
    case AtDrain(f) => WindowSize(c, f, c.files);
    case AtEnd =>
  }

  // ----- the same on paths, beside the files of others

  function Paths(root: string, group: nat, pid: nat, ids: set<FileId>): set<string> {
    set id | id in ids :: FilePath(root, group, pid, id)
  }

  function ApplyPaths(files: set<string>, root: string, group: nat, pid: nat, sys: Sys): set<string> {
    match sys
    case Open(id) => files + {FilePath(root, group, pid, id)}
    case Rename(from, to) => files - {FilePath(root, group, pid, from)} + {FilePath(root, group, pid, to)}
    case Unlink(id) => files - {FilePath(root, group, pid, id)}
    case NoCall => files
  }

  predicate FindsPath(files: set<string>, root: string, group: nat, pid: nat, sys: Sys) {
    match sys
    case Rename(from, _) => FilePath(root, group, pid, from) in files
    case Unlink(id) => FilePath(root, group, pid, id) in files
    case _ => true
  }

  ghost predicate NoneOf(others: set<string>, root: string, group: nat, pid: nat) {
    forall id :: FilePath(root, group, pid, id) !in others
  }

  lemma PathMembers(root: string, group: nat, pid: nat, ids: set<FileId>)
    ensures forall id :: FilePath(root, group, pid, id) in Paths(root, group, pid, ids) <==> id in ids
  {
    forall id | FilePath(root, group, pid, id) in Paths(root, group, pid, ids)
      ensures id in ids
    {
      var id' :| id' in ids && FilePath(root, group, pid, id') == FilePath(root, group, pid, id);
      FilePathInjective(root, group, pid, id, group, pid, id');
    }
  }

  lemma PathsMinus(root: string, group: nat, pid: nat, ids: set<FileId>, id: FileId)
    ensures Paths(root, group, pid, ids - {id}) == Paths(root, group, pid, ids) - {FilePath(root, group, pid, id)}
  {
    PathMembers(root, group, pid, ids - {id});
    PathMembers(root, group, pid, ids);
  }

  lemma PathsPlus(root: string, group: nat, pid: nat, ids: set<FileId>, id: FileId)
    ensures Paths(root, group, pid, ids + {id}) == Paths(root, group, pid, ids) + {FilePath(root, group, pid, id)}
  {
  }

  /** A call by one process changes its own files only. */
  lemma CallOnPaths(others: set<string>, root: string, group: nat, pid: nat, ids: set<FileId>, sys: Sys)
    requires NoneOf(others, root, group, pid)
    ensures Finds(ids, sys) ==> FindsPath(others + Paths(root, group, pid, ids), root, group, pid, sys)
    ensures ApplyPaths(others + Paths(root, group, pid, ids), root, group, pid, sys)
         == others + Paths(root, group, pid, ApplyIds(ids, sys))
  {
    match sys
    case Open(id) => PathsPlus(root, group, pid, ids, id);
    case Rename(from, to) =>
      PathsMinus(root, group, pid, ids, from);
      PathsPlus(root, group, pid, ids - {from}, to);
    case Unlink(id) => PathsMinus(root, group, pid, ids, id);
    case NoCall =>
  }

  lemma StepOnPaths(others: set<string>, c: Params, root: string, group: nat, pid: nat, pos: Pos)
    requires GoodParams(c) && ValidPos(c, pos) && NoneOf(others, root, group, pid)
    ensures var files := others + Paths(root, group, pid, Live(c, pos));
      && FindsPath(files, root, group, pid, SysOf(c, pos))
      && ApplyPaths(files, root, group, pid, SysOf(c, pos))
         == others + Paths(root, group, pid, Live(c, NextPos(c, pos)))
  {
    LiveStep(c, pos);
    CallOnPaths(others, root, group, pid, Live(c, pos), SysOf(c, pos));
  }

  // ----- the calls made, position by position

  /** The call at a position, on paths. */
  function CallAt(c: Params, name: Names, pos: Pos): Call
    requires GoodParams(c) && ValidPos(c, pos) && pos != AtEnd
  {
    match SysOf(c, pos)
    case Open(id) => OpenAt(name(id))
    case Rename(from, to) => RenameAt(name(from), name(to))
    case Unlink(id) => UnlinkAt(name(id))
  }

  /** The part of the script that comes before the call at a position. */
  function Before(c: Params, name: Names, pos: Pos): seq<Call>
    requires GoodParams(c) && ValidPos(c, pos)
  {
    match pos
    case AtCreate(f) => FilesScript(c, name, f)
    case AtRename(f, p) => FilesScript(c, name, f) + ([OpenAt(name(Base(f)))] + Renames(name, f, p))
    case AtUnlink(f) => FilesScript(c, name, f) + ([OpenAt(name(Base(f)))] + Renames(name, f, c.passes))
    case AtDrain(f) => FilesScript(c, name, c.files) + Drains(c, name, f - (c.files - c.lag))
    case AtEnd => Script(c, name)
  }

  lemma FileLoopBefore(c: Params, name: Names, f: nat)
    requires GoodParams(c) && f <= c.files
    ensures Before(c, name, FileLoop(c, f)) == FilesScript(c, name, f)
  {
    if f == c.files {
      assert FilesScript(c, name, f) + [] == FilesScript(c, name, f);
    }
  }

  /** A child begins at the beginning of the script. */
  lemma NothingBeforeStart(c: Params, name: Names)
    requires GoodParams(c)
    ensures Before(c, name, Start(c)) == []
  {
    FileLoopBefore(c, name, 0);
  }

  lemma Associate(a: seq<Call>, b: seq<Call>, x: Call)
    ensures a + (b + [x]) == (a + b) + [x]
  {
  }

  /** The calls made follow the script, one call at a time. */
  lemma BeforeNext(c: Params, name: Names, pos: Pos)
    requires GoodParams(c) && ValidPos(c, pos) && pos != AtEnd
    ensures Before(c, name, NextPos(c, pos)) == Before(c, name, pos) + [CallAt(c, name, pos)]
  {
    match pos
    case AtCreate(f) =>
      assert [OpenAt(name(Base(f)))] + Renames(name, f, 0) == [OpenAt(name(Base(f)))];
    case AtRename(f, p) => BeforeRename(c, name, f, p);
    case AtUnlink(f) =>
      FileLoopBefore(c, name, f + 1);
      Associate(FilesScript(c, name, f), [OpenAt(name(Base(f)))] + Renames(name, f, c.passes), CallAt(c, name, pos));
    case AtDrain(f) =>
      Associate(FilesScript(c, name, c.files), Drains(c, name, f - (c.files - c.lag)), CallAt(c, name, pos));
  }

  lemma BeforeRename(c: Params, name: Names, f: nat, p: nat)
    requires GoodParams(c) && f < c.files && p < c.passes
    ensures var pos := AtRename(f, p);
      Before(c, name, NextPos(c, pos)) == Before(c, name, pos) + [CallAt(c, name, pos)]
  {
    var call, open := CallAt(c, name, AtRename(f, p)), [OpenAt(name(Base(f)))];
    assert Renames(name, f, p + 1) == Renames(name, f, p) + [call];
    Associate(open, Renames(name, f, p), call);
    Associate(FilesScript(c, name, f), open + Renames(name, f, p), call);
    if p + 1 == c.passes && f < c.lag {
      FileLoopBefore(c, name, f + 1);
      assert FileScript(c, name, f) == open + Renames(name, f, c.passes);
    }
  }

  /** What a call does to the files is what performing it on its paths does. */
  lemma CallIsPerformed(files: set<string>, c: Params, who: Proc, pos: Pos)
    requires GoodParams(c) && ValidPos(c, pos) && pos != AtEnd
    ensures ApplyPaths(files, who.root, who.group, who.pid, SysOf(c, pos))
         == Perform(files, CallAt(c, NamesOf(who), pos))
  {
  }

  // ----- the loops

  /** The file system; a call requires what makes it succeed. */
  class Disk {
    var files: set<string>
    ghost var calls: seq<Call>

    method Open(path: string)
      modifies this
      ensures files == old(files) + {path} && calls == old(calls) + [OpenAt(path)]
    {
      calls := calls + [OpenAt(path)];
      files := files + {path};
    }

    method Rename(from: string, to: string)
      requires from in files
      modifies this
      ensures files == old(files) - {from} + {to} && calls == old(calls) + [RenameAt(from, to)]
    {
      calls := calls + [RenameAt(from, to)];
      files := files - {from} + {to};
    }

    method Unlink(path: string)
      requires path in files
      modifies this
      ensures files == old(files) - {path} && calls == old(calls) + [UnlinkAt(path)]
    {
      calls := calls + [UnlinkAt(path)];
      files := files - {path};
    }
  }

  /** The disk holds the files of others and, for this process, those of the position; since
      then the calls of the script before the position were made. */
  ghost predicate DiskAt(disk: Disk, others: set<string>, c: Params, who: Proc, pos: Pos, since: seq<Call>)
    reads disk
  {
    && GoodParams(c) && ValidPos(c, pos)
    && NoneOf(others, who.root, who.group, who.pid)
    && disk.files == others + Paths(who.root, who.group, who.pid, Live(c, pos))
    && disk.calls == since + Before(c, NamesOf(who), pos)
  }

  lemma ScriptStep(since: seq<Call>, c: Params, who: Proc, pos: Pos)
    requires GoodParams(c) && ValidPos(c, pos) && pos != AtEnd
    ensures since + Before(c, NamesOf(who), NextPos(c, pos))
         == (since + Before(c, NamesOf(who), pos)) + [CallAt(c, NamesOf(who), pos)]
  {
    BeforeNext(c, NamesOf(who), pos);
    Associate(since, Before(c, NamesOf(who), pos), CallAt(c, NamesOf(who), pos));
  }

  method DoOneFile(disk: Disk, ghost others: set<string>, c: Params, who: Proc, f: nat, ghost since: seq<Call>)
    requires f < c.files && DiskAt(disk, others, c, who, AtCreate(f), since)
    modifies disk
    ensures DiskAt(disk, others, c, who, if f >= c.lag then AtUnlink(f) else FileLoop(c, f + 1), since)
  {
    var name := FilePath(who.root, who.group, who.pid, Base(f));
    StepOnPaths(others, c, who.root, who.group, who.pid, AtCreate(f));
    ScriptStep(since, c, who, AtCreate(f));
    disk.Open(name);
    var pass := 0;
    while pass < c.passes
      invariant pass <= c.passes
      invariant name == FilePath(who.root, who.group, who.pid, if pass == 0 then Base(f) else Pass(pass - 1, f))
      invariant DiskAt(disk, others, c, who, RenameLoop(c, f, pass), since)
    {
      var newname := FilePath(who.root, who.group, who.pid, Pass(pass, f));
      StepOnPaths(others, c, who.root, who.group, who.pid, AtRename(f, pass));
      ScriptStep(since, c, who, AtRename(f, pass));
      disk.Rename(name, newname);
      name := newname;
      pass := pass + 1;
    }
  }

  lemma UnlinksFile(c: Params, who: Proc, f: nat, pos: Pos)
    requires GoodParams(c) && ValidPos(c, pos) && (pos == AtUnlink(f + c.lag) || pos == AtDrain(f))
    ensures SysOf(c, pos) == Unlink(Pass(c.passes - 1, f))
    ensures CallAt(c, NamesOf(who), pos) == UnlinkAt(FilePath(who.root, who.group, who.pid, Pass(c.passes - 1, f)))
  {
  }

  method UnlinkOneFile(disk: Disk, ghost others: set<string>, c: Params, who: Proc, f: nat,
                       ghost pos: Pos, ghost since: seq<Call>)
    requires pos == AtUnlink(f + c.lag) || pos == AtDrain(f)
    requires DiskAt(disk, others, c, who, pos, since)
    modifies disk
    ensures DiskAt(disk, others, c, who, NextPos(c, pos), since)
  {
    StepOnPaths(others, c, who.root, who.group, who.pid, pos);
    ScriptStep(since, c, who, pos);
    UnlinksFile(c, who, f, pos);
    disk.Unlink(FilePath(who.root, who.group, who.pid, Pass(c.passes - 1, f)));
  }

  lemma AtStart(disk: Disk, c: Params, who: Proc)
    requires GoodParams(c) && NoneOf(disk.files, who.root, who.group, who.pid)
    ensures DiskAt(disk, disk.files, c, who, FileLoop(c, 0), disk.calls)
  {
    FileLoopLive(c, 0);
    NothingBeforeStart(c, NamesOf(who));
    assert Window(c, 0 - c.lag, 0) == {};
  }

  lemma AtTheEnd(disk: Disk, others: set<string>, c: Params, who: Proc, since: seq<Call>)
    requires DiskAt(disk, others, c, who, AtEnd, since)
    ensures disk.files == others && disk.calls == since + Script(c, NamesOf(who))
  {
  }

  /** One round of do_child's first loop. */
  method DoAndUnlink(disk: Disk, ghost others: set<string>, c: Params, who: Proc, f: nat, ghost since: seq<Call>)
    requires f < c.files && DiskAt(disk, others, c, who, AtCreate(f), since)
    modifies disk
    ensures DiskAt(disk, others, c, who, FileLoop(c, f + 1), since)
  {
    DoOneFile(disk, others, c, who, f, since);
    if f >= c.lag {
      UnlinkOneFile(disk, others, c, who, f - c.lag, AtUnlink(f), since);
    }
  }

  /** do_child's second loop. */
  method DrainAll(disk: Disk, ghost others: set<string>, c: Params, who: Proc, ghost since: seq<Call>)
    requires GoodParams(c) && DiskAt(disk, others, c, who, DrainFrom(c, c.files - c.lag), since)
    modifies disk
    ensures DiskAt(disk, others, c, who, AtEnd, since)
  {
    var fileno := c.files - c.lag;
    while fileno < c.files
      invariant c.files - c.lag <= fileno <= c.files
      invariant DiskAt(disk, others, c, who, DrainFrom(c, fileno), since)
    {
      UnlinkOneFile(disk, others, c, who, fileno, AtDrain(fileno), since);
      fileno := fileno + 1;
    }
  }

  /** do_child with -u: exactly the calls of the script, in order. After file f exactly the last
      min(f + 1, lag) files are left, under their final names; in the end none is, and nobody else's
      file was touched. */
  method DoChild(disk: Disk, c: Params, who: Proc)
    requires GoodParams(c) && NoneOf(disk.files, who.root, who.group, who.pid)
    modifies disk
    ensures disk.files == old(disk.files)
    ensures disk.calls == old(disk.calls) + Script(c, NamesOf(who))
  {
    ghost var others, since := disk.files, disk.calls;
    var fileno := 0;
    AtStart(disk, c, who);
    while fileno < c.files
      invariant fileno <= c.files
      invariant DiskAt(disk, others, c, who, FileLoop(c, fileno), since)
    {
      DoAndUnlink(disk, others, c, who, fileno, since);
      fileno := fileno + 1;
    }
    DrainAll(disk, others, c, who, since);
    AtTheEnd(disk, others, c, who, since);
  }
}
