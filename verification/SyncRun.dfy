/** synctest as a whole: doit forks its children, they work and report through the shared status
    array, the parent reaps them and removes the directories. Every step of parent and children is
    one transition, and the steps interleave freely; forks and children may also fail. */
module SyncRun {
  import opened Arithmetic
  import opened Counting
  import opened SyncNames
  import opened SyncScript
  import opened SyncChild

  /** pids are the process numbers the forks hand out; nothing is reaped before the last fork, so
      no number is handed out twice. */
  datatype Config = Config(root: string, n: nat, perDir: nat, iters: nat, pids: seq<nat>, c: Params)

  ghost predicate GoodConfig(cfg: Config) {
    && cfg.perDir > 0 && |cfg.pids| == cfg.n && GoodParams(cfg.c)
    && forall i, j :: 0 <= i < j < cfg.n ==> cfg.pids[i] != cfg.pids[j]
  }

  /** Absent is the slot of a fork that failed. */
  datatype Stage = Unforked | Absent | Running | Stored | Exited | Reaped

  datatype Child = Child(stage: Stage, iter: nat, pos: Pos, group: nat)

  datatype Parent =
    | MakingDir(i: nat)
    | Forking(i: nat)
    | Waiting
    | Scanning(slot: nat)
    | Removing(g: nat)
    | Done
    | NoChildError

  /** made is thread_group + 1 while forking: how many directories were made. waits counts the
      successful calls of wait3; calls is the log of the file calls of all children. */
  datatype State = State(children: seq<Child>, status: seq<int>, parent: Parent, made: nat,
                         left: int, waits: nat, files: set<string>, dirs: set<nat>,
                         calls: seq<(nat, Call)>)

  /** forkOk and reap are the kernel's choices: whether fork works, which exited child wait3 takes. */
  datatype Event = ParentStep(forkOk: bool, reap: nat) | ChildStep(i: nat) | ChildFails(i: nat)

  function ForkLoop(cfg: Config, i: nat): Parent {
    if i < cfg.n then MakingDir(i) else Waiting
  }

  function Initial(cfg: Config): State {
    State(seq(cfg.n, i => Child(Unforked, 0, AtEnd, 0)), seq(cfg.n, i => 0), ForkLoop(cfg, 0), 0, cfg.n, 0, {}, {}, [])
  }

  predicate Gone(c: Child) {
    c.stage == Absent || c.stage == Reaped
  }

  predicate Shaped(cfg: Config, s: State) {
    && |s.children| == |s.status| == cfg.n == |cfg.pids| && GoodParams(cfg.c) && cfg.perDir > 0
    && (forall i :: 0 <= i < cfg.n ==> ValidPos(cfg.c, s.children[i].pos))
    && (s.parent.MakingDir? ==> s.parent.i < cfg.n)
    && (s.parent.Forking? ==> s.parent.i < cfg.n && s.made > 0)
    && (s.parent.Scanning? ==> s.parent.slot <= cfg.n)
  }

  /** wait3 blocks while children are left and none has exited; with no child left it fails. */
  predicate Enabled(cfg: Config, s: State, ev: Event)
    requires Shaped(cfg, s)
  {
    match ev
    case ParentStep(_, reap) =>
      (match s.parent
       case Waiting =>
         || s.left == 0
         || (reap < cfg.n && s.children[reap].stage == Exited)
         || forall i :: 0 <= i < cfg.n ==> Gone(s.children[i])
       case Done => false
       case NoChildError => false
       case _ => true)
    case ChildStep(i) => i < cfg.n && (s.children[i].stage == Running || s.children[i].stage == Stored)
    case ChildFails(i) => i < cfg.n && s.children[i].stage == Running
  }

  predicate DirEmpty(cfg: Config, s: State, g: nat) {
    forall p :: p in s.files ==> !(DirPath(cfg.root, g) + "/" <= p)
  }

  function ParentNext(cfg: Config, s: State, forkOk: bool, reap: nat): State
    requires Shaped(cfg, s) && Enabled(cfg, s, ParentStep(forkOk, reap))
  {
    match s.parent
    case MakingDir(i) =>
      if i % cfg.perDir == 0 then
        s.(made := s.made + 1, dirs := s.dirs + {s.made}, parent := Forking(i))
      else s.(parent := Forking(i))
    case Forking(i) =>
      s.(children := s.children[i := if forkOk then Child(Running, 0, Start(cfg.c), s.made - 1)
                                     else s.children[i].(stage := Absent)],
         parent := ForkLoop(cfg, i + 1))
    case Waiting =>
      if s.left == 0 then s.(parent := Removing(0))
      else if reap < cfg.n && s.children[reap].stage == Exited then
        s.(children := s.children[reap := s.children[reap].(stage := Reaped)],
           waits := s.waits + 1, parent := Scanning(0))
      else s.(parent := NoChildError)
    case Scanning(slot) =>
      if slot == cfg.n then s.(parent := Waiting)
      else if s.status[slot] == 1 then
        s.(status := s.status[slot := 2], left := s.left - 1, parent := Scanning(slot + 1))
      else s.(parent := Scanning(slot + 1))
    case Removing(g) =>
      if g < cfg.n / cfg.perDir then
        s.(dirs := if DirEmpty(cfg, s, g) then s.dirs - {g} else s.dirs, parent := Removing(g + 1))
      else s.(parent := Done)
    case Done => s
    case NoChildError => s
  }

  function ChildNext(cfg: Config, s: State, i: nat): State
    requires Shaped(cfg, s) && Enabled(cfg, s, ChildStep(i))
  {
    var c := s.children[i];
    if c.stage == Stored then s.(children := s.children[i := c.(stage := Exited)])
    else if c.iter >= cfg.iters then s.(status := s.status[i := 1], children := s.children[i := c.(stage := Stored)])
    else if c.pos == AtEnd then s.(children := s.children[i := c.(iter := c.iter + 1, pos := Start(cfg.c))])
    else s.(files := ApplyPaths(s.files, cfg.root, c.group, cfg.pids[i], SysOf(cfg.c, c.pos)),
            calls := s.calls + [(i, CallAt(cfg.c, NamesOf(Proc(cfg.root, c.group, cfg.pids[i])), c.pos))],
            children := s.children[i := c.(pos := NextPos(cfg.c, c.pos))])
  }

  function Step(cfg: Config, s: State, ev: Event): State
    requires Shaped(cfg, s) && Enabled(cfg, s, ev)
  {
    match ev
    case ParentStep(forkOk, reap) => ParentNext(cfg, s, forkOk, reap)
    case ChildStep(i) => ChildNext(cfg, s, i)
    case ChildFails(i) => s.(children := s.children[i := s.children[i].(stage := Exited)])
  }

  // ----- the invariant, slot by slot

  function Forked(cfg: Config, p: Parent): nat {
    match p
    case MakingDir(i) => i
    case Forking(i) => i
    case _ => cfg.n
  }

  /** The directories the first i children need. */
  function Groups(i: nat, perDir: nat): nat
    requires perDir > 0
  {
    if i % perDir == 0 then i / perDir else i / perDir + 1
  }

  predicate SlotOk(cfg: Config, i: nat, c: Child, st: int, forked: nat)
    requires GoodParams(cfg.c) && cfg.perDir > 0
  {
    && ValidPos(cfg.c, c.pos)
    && (c.stage == Unforked <==> forked <= i)
    && 0 <= st <= 2
    && (if c.stage == Unforked || c.stage == Absent then c.pos == AtEnd && st == 0
        else c.group == i / cfg.perDir && c.iter <= cfg.iters && (c.iter == cfg.iters ==> c.pos == Start(cfg.c)))
    && (c.stage == Running ==> st == 0)
    && (c.stage == Stored ==> st != 0)
    && (st != 0 ==> c.iter == cfg.iters)
  }

  predicate IsTwo(st: int) {
    st == 2
  }

  predicate IsReaped(c: Child) {
    c.stage == Reaped
  }

  /** No reaped child's report is still unread in slots below the given one. */
  predicate ReadUpTo(s: State, slot: nat)
    requires |s.children| == |s.status|
  {
    forall i :: 0 <= i < |s.children| && i < slot && s.children[i].stage == Reaped ==> s.status[i] != 1
  }

  predicate ParentOk(cfg: Config, s: State)
    requires Shaped(cfg, s)
  {
    match s.parent
    case MakingDir(i) => s.made == Groups(i, cfg.perDir) && s.waits == 0
    case Forking(i) => s.made == i / cfg.perDir + 1 && s.waits == 0
    case Waiting => s.made == Groups(cfg.n, cfg.perDir) && ReadUpTo(s, cfg.n)
    case Scanning(slot) => s.made == Groups(cfg.n, cfg.perDir) && ReadUpTo(s, slot)
    case NoChildError =>
      && s.made == Groups(cfg.n, cfg.perDir) && s.left != 0 && ReadUpTo(s, cfg.n)
      && forall i :: 0 <= i < cfg.n ==> Gone(s.children[i])
    case Removing(g) => s.left == 0 && g <= cfg.n / cfg.perDir
    case Done => s.left == 0
  }

  predicate Between(lo: nat, d: nat, hi: nat) {
    lo <= d < hi
  }

  function DirRange(lo: nat, hi: nat): set<nat> {
    set d: nat | lo <= d < hi && Between(lo, d, hi)
  }

  predicate DirsOk(cfg: Config, s: State)
    requires Shaped(cfg, s)
  {
    match s.parent
    case Removing(g) => s.dirs == DirRange(g, Groups(cfg.n, cfg.perDir))
    case Done => s.dirs == DirRange(cfg.n / cfg.perDir, Groups(cfg.n, cfg.perDir))
    case _ => s.dirs == DirRange(0, s.made)
  }

  ghost predicate SlotsOk(cfg: Config, children: seq<Child>, status: seq<int>, forked: nat)
    requires |children| == |status| && GoodParams(cfg.c) && cfg.perDir > 0
  {
    forall i :: 0 <= i < |children| ==> SlotOk(cfg, i, children[i], status[i], forked)
  }

  ghost predicate Protocol(cfg: Config, s: State) {
    && Shaped(cfg, s)
    && SlotsOk(cfg, s.children, s.status, Forked(cfg, s.parent))
    && s.left == cfg.n - Count(s.status, IsTwo)
    && s.waits == Count(s.children, IsReaped)
    && ParentOk(cfg, s)
  }

  lemma GroupsNext(i: nat, perDir: nat)
    requires perDir > 0
    ensures Groups(i + 1, perDir) == i / perDir + 1
  {
    var q, r := i / perDir, i % perDir;
    assert i == perDir * q + r;
    if r + 1 < perDir {
      ModOf(perDir, q, r + 1);
    } else {
      MulSucc(perDir, q);
      ModOf(perDir, q + 1, 0);
    }
  }

  // ----- the protocol

  lemma InitialProtocol(cfg: Config)
    requires GoodConfig(cfg)
    ensures Protocol(cfg, Initial(cfg))
  {
    var s := Initial(cfg);
    CountAll(s.status, IsTwo);
    CountAll(s.children, IsReaped);
    assert 0 % cfg.perDir == 0 && 0 / cfg.perDir == 0 by {
      ModOf(cfg.perDir, 0, 0);
    }
  }

  /** One slot changes, and perhaps it is the one forked next. */
  lemma SlotChanges(cfg: Config, children: seq<Child>, status: seq<int>, i: nat, c: Child, st: int,
                    forked: nat, forked': nat)
    requires |children| == |status| && i < |children| && GoodParams(cfg.c) && cfg.perDir > 0
    requires SlotsOk(cfg, children, status, forked) && SlotOk(cfg, i, c, st, forked')
    requires forked' == forked || (i == forked && forked' == forked + 1)
    ensures SlotsOk(cfg, children[i := c], status[i := st], forked')
  {
    var cs, ss := children[i := c], status[i := st];
    forall j | 0 <= j < |cs|
      ensures SlotOk(cfg, j, cs[j], ss[j], forked')
    {
      if j != i {
        assert SlotOk(cfg, j, children[j], status[j], forked);
      }
    }
  }

  /** What a child may do to its own slot: its report goes from 0 to 1 and nothing else. */
  lemma ChildSlot(cfg: Config, s: State, i: nat, fails: bool)
    requires Protocol(cfg, s) && Enabled(cfg, s, if fails then ChildFails(i) else ChildStep(i))
    ensures var s' := Step(cfg, s, if fails then ChildFails(i) else ChildStep(i));
      && s'.children == s.children[i := s'.children[i]] && s'.status == s.status[i := s'.status[i]]
      && SlotOk(cfg, i, s'.children[i], s'.status[i], Forked(cfg, s.parent))
      && !IsReaped(s.children[i]) && !IsReaped(s'.children[i]) && !Gone(s'.children[i])
      && (s'.status[i] == s.status[i] || (s.status[i] == 0 && s'.status[i] == 1))
      && (s'.parent, s'.left, s'.waits, s'.made, s'.dirs) == (s.parent, s.left, s.waits, s.made, s.dirs)
  {
    assert SlotOk(cfg, i, s.children[i], s.status[i], Forked(cfg, s.parent));
  }

  lemma ChildKeepsProtocol(cfg: Config, s: State, i: nat, fails: bool)
    requires Protocol(cfg, s) && Enabled(cfg, s, if fails then ChildFails(i) else ChildStep(i))
    ensures Protocol(cfg, Step(cfg, s, if fails then ChildFails(i) else ChildStep(i)))
  {
    var s' := Step(cfg, s, if fails then ChildFails(i) else ChildStep(i));
    ChildSlot(cfg, s, i, fails);
    var forked := Forked(cfg, s.parent);
    SlotChanges(cfg, s.children, s.status, i, s'.children[i], s'.status[i], forked, forked);
    CountUpdate(s.children, IsReaped, i, s'.children[i]);
    CountUpdate(s.status, IsTwo, i, s'.status[i]);
    SlotsValid(cfg, s'.children, s'.status, Forked(cfg, s.parent));
    ParentUnmoved(cfg, s, s', i);
  }

  lemma SlotsValid(cfg: Config, children: seq<Child>, status: seq<int>, forked: nat)
    requires |children| == |status| && GoodParams(cfg.c) && cfg.perDir > 0 && SlotsOk(cfg, children, status, forked)
    ensures forall i :: 0 <= i < |children| ==> ValidPos(cfg.c, children[i].pos)
  {
    forall i | 0 <= i < |children|
      ensures ValidPos(cfg.c, children[i].pos)
    {
      assert SlotOk(cfg, i, children[i], status[i], forked);
    }
  }

  lemma ParentUnmoved(cfg: Config, s: State, s': State, i: nat)
    requires Shaped(cfg, s) && Shaped(cfg, s') && ParentOk(cfg, s) && i < cfg.n
    requires (s'.parent, s'.left, s'.waits, s'.made) == (s.parent, s.left, s.waits, s.made)
    requires s'.children == s.children[i := s'.children[i]] && s'.status == s.status[i := s'.status[i]]
    requires !Gone(s.children[i]) && !Gone(s'.children[i])
    ensures ParentOk(cfg, s')
  {
  }

  lemma ForkKeepsProtocol(cfg: Config, s: State, forkOk: bool)
    requires Protocol(cfg, s) && s.parent.Forking?
    ensures Protocol(cfg, ParentNext(cfg, s, forkOk, 0))
  {
    var s', i := ParentNext(cfg, s, forkOk, 0), s.parent.i;
    assert SlotOk(cfg, i, s.children[i], s.status[i], i);
    assert s'.status == s.status[i := s.status[i]];
    SlotChanges(cfg, s.children, s.status, i, s'.children[i], s.status[i], i, i + 1);
    CountUpdate(s.children, IsReaped, i, s'.children[i]);
    SlotsValid(cfg, s'.children, s'.status, i + 1);
    NoneReaped(s');
    ForkKeepsParent(cfg, s, forkOk);
  }

  lemma ForkKeepsParent(cfg: Config, s: State, forkOk: bool)
    requires Shaped(cfg, s) && ParentOk(cfg, s) && s.parent.Forking?
    requires var s' := ParentNext(cfg, s, forkOk, 0); Shaped(cfg, s') && ReadUpTo(s', cfg.n)
    ensures ParentOk(cfg, ParentNext(cfg, s, forkOk, 0))
  {
    GroupsNext(s.parent.i, cfg.perDir);
  }

  /** While no wait has succeeded nothing is reaped. */
  lemma NoneReaped(s: State)
    requires Count(s.children, IsReaped) == 0
    ensures forall i :: 0 <= i < |s.children| ==> s.children[i].stage != Reaped
  {
    forall i | 0 <= i < |s.children|
      ensures s.children[i].stage != Reaped
    {
      if IsReaped(s.children[i]) {
        CountUpdate(s.children, IsReaped, i, s.children[i].(stage := Exited));
      }
    }
  }

  lemma ReapKeepsProtocol(cfg: Config, s: State, reap: nat)
    requires Protocol(cfg, s) && s.parent == Waiting && s.left != 0 && reap < cfg.n && s.children[reap].stage == Exited
    ensures Protocol(cfg, ParentNext(cfg, s, true, reap))
  {
    var s' := ParentNext(cfg, s, true, reap);
    assert SlotOk(cfg, reap, s.children[reap], s.status[reap], cfg.n);
    assert s'.status == s.status[reap := s.status[reap]];
    SlotChanges(cfg, s.children, s.status, reap, s'.children[reap], s.status[reap], cfg.n, cfg.n);
    CountUpdate(s.children, IsReaped, reap, s'.children[reap]);
    SlotsValid(cfg, s'.children, s'.status, cfg.n);
  }

  lemma ScanKeepsProtocol(cfg: Config, s: State)
    requires Protocol(cfg, s) && s.parent.Scanning?
    ensures Protocol(cfg, ParentNext(cfg, s, true, 0))
  {
    var s', slot := ParentNext(cfg, s, true, 0), s.parent.slot;
    ScanKeepsParent(cfg, s);
    if slot < cfg.n && s.status[slot] == 1 {
      assert SlotOk(cfg, slot, s.children[slot], s.status[slot], cfg.n);
      assert s'.children == s.children[slot := s.children[slot]];
      SlotChanges(cfg, s.children, s.status, slot, s.children[slot], 2, cfg.n, cfg.n);
      CountUpdate(s.status, IsTwo, slot, 2);
    }
  }

  lemma ScanKeepsParent(cfg: Config, s: State)
    requires Shaped(cfg, s) && ParentOk(cfg, s) && s.parent.Scanning?
    ensures Shaped(cfg, ParentNext(cfg, s, true, 0)) && ParentOk(cfg, ParentNext(cfg, s, true, 0))
  {
  }

  /** Steps that touch neither children nor reports. */
  lemma DirKeepsProtocol(cfg: Config, s: State)
    requires Protocol(cfg, s) && (s.parent.MakingDir? || s.parent.Removing?)
    ensures Protocol(cfg, ParentNext(cfg, s, true, 0))
  {
    var s' := ParentNext(cfg, s, true, 0);
    DirKeepsParent(cfg, s);
    assert (s'.children, s'.status, s'.left, s'.waits) == (s.children, s.status, s.left, s.waits);
    assert Forked(cfg, s'.parent) == Forked(cfg, s.parent);
  }

  lemma DirKeepsParent(cfg: Config, s: State)
    requires Shaped(cfg, s) && ParentOk(cfg, s) && (s.parent.MakingDir? || s.parent.Removing?)
    ensures Shaped(cfg, ParentNext(cfg, s, true, 0)) && ParentOk(cfg, ParentNext(cfg, s, true, 0))
  {
  }

  lemma LeaveKeepsProtocol(cfg: Config, s: State, reap: nat)
    requires Protocol(cfg, s) && s.parent == Waiting && Enabled(cfg, s, ParentStep(true, reap))
    requires s.left == 0 || reap >= cfg.n || s.children[reap].stage != Exited
    ensures Protocol(cfg, ParentNext(cfg, s, true, reap))
  {
    var s' := ParentNext(cfg, s, true, reap);
    assert (s'.children, s'.status, s'.left, s'.waits) == (s.children, s.status, s.left, s.waits);
    LeaveKeepsParent(cfg, s, reap);
  }

  lemma LeaveKeepsParent(cfg: Config, s: State, reap: nat)
    requires Shaped(cfg, s) && ParentOk(cfg, s) && s.parent == Waiting && Enabled(cfg, s, ParentStep(true, reap))
    requires s.left == 0 || reap >= cfg.n || s.children[reap].stage != Exited
    ensures Shaped(cfg, ParentNext(cfg, s, true, reap)) && ParentOk(cfg, ParentNext(cfg, s, true, reap))
  {
  }

  lemma ParentKeepsProtocol(cfg: Config, s: State, forkOk: bool, reap: nat)
    requires Protocol(cfg, s) && Enabled(cfg, s, ParentStep(forkOk, reap))
    ensures Protocol(cfg, ParentNext(cfg, s, forkOk, reap))
  {
    if s.parent.Forking? {
      ForkKeepsProtocol(cfg, s, forkOk);
    } else if s.parent.Scanning? {
      ScanKeepsProtocol(cfg, s);
    } else if s.parent != Waiting {
      DirKeepsProtocol(cfg, s);
    } else if s.left != 0 && reap < cfg.n && s.children[reap].stage == Exited {
      ReapKeepsProtocol(cfg, s, reap);
    } else {
      LeaveKeepsProtocol(cfg, s, reap);
    }
  }

  lemma StepKeepsProtocol(cfg: Config, s: State, ev: Event)
    requires Protocol(cfg, s) && Enabled(cfg, s, ev)
    ensures Protocol(cfg, Step(cfg, s, ev))
  {
    match ev
    case ParentStep(forkOk, reap) => ParentKeepsProtocol(cfg, s, forkOk, reap);
    case ChildStep(i) => ChildKeepsProtocol(cfg, s, i, false);
    case ChildFails(i) => ChildKeepsProtocol(cfg, s, i, true);
  }

  // ----- what the protocol gives

  /** Each slot of the status array only ever goes from 0 to 1 to 2. */
  lemma StatusOnlyRises(cfg: Config, s: State, ev: Event, i: nat)
    requires Protocol(cfg, s) && Enabled(cfg, s, ev) && i < cfg.n
    ensures var a, b := s.status[i], Step(cfg, s, ev).status[i];
      b == a || (a == 0 && b == 1) || (a == 1 && b == 2)
  {
    if ev.ChildStep? {
      ChildSlot(cfg, s, ev.i, false);
    }
  }

  /** The child in slot i will never report: its fork failed or it died before storing. */
  predicate Lost(s: State, i: nat)
    requires i < |s.children| == |s.status|
  {
    s.status[i] == 0 && s.children[i].stage in {Absent, Exited, Reaped}
  }

  /** When the parent is about to wait and no child is left to wait for, it still expects some
      exactly when a child was lost: wait3 fails in no run where all forks and children succeed,
      and in every run where one does not and the others have been reaped. */
  lemma WaitFailsIffLost(cfg: Config, s: State)
    requires Protocol(cfg, s) && s.parent == Waiting
    requires forall i :: 0 <= i < cfg.n ==> Gone(s.children[i])
    ensures s.left != 0 <==> exists i :: 0 <= i < cfg.n && Lost(s, i)
  {
    CountAll(s.status, IsTwo);
    forall i | 0 <= i < cfg.n
      ensures IsTwo(s.status[i]) <==> !Lost(s, i)
    {
      assert SlotOk(cfg, i, s.children[i], s.status[i], cfg.n);
    }
  }

  lemma NoChildErrorOnlyIfLost(cfg: Config, s: State)
    requires Protocol(cfg, s) && s.parent == NoChildError
    ensures exists i :: 0 <= i < cfg.n && Lost(s, i)
  {
    CountAll(s.status, IsTwo);
    var i :| 0 <= i < cfg.n && !IsTwo(s.status[i]);
    assert SlotOk(cfg, i, s.children[i], s.status[i], cfg.n);
    assert Lost(s, i);
  }

  /** The wait loop makes at most n successful waits. */
  lemma AtMostNWaits(cfg: Config, s: State)
    requires Protocol(cfg, s)
    ensures s.waits <= cfg.n
  {
    CountAll(s.children, IsReaped);
  }

  /** The parent is past the wait loop only when every child has run all its iterations. */
  lemma PastLoopAllFinished(cfg: Config, s: State)
    requires Protocol(cfg, s) && (s.parent.Removing? || s.parent.Done?)
    ensures forall i :: 0 <= i < cfg.n ==>
      s.status[i] == 2 && s.children[i].iter == cfg.iters && s.children[i].pos == Start(cfg.c)
  {
    CountAll(s.status, IsTwo);
    forall i | 0 <= i < cfg.n
      ensures s.status[i] == 2 && s.children[i].iter == cfg.iters && s.children[i].pos == Start(cfg.c)
    {
      assert IsTwo(s.status[i]);
      assert SlotOk(cfg, i, s.children[i], s.status[i], cfg.n);
    }
  }

  // ----- the file system

  function Mine(cfg: Config, s: State, i: nat): set<string>
    requires Shaped(cfg, s) && i < cfg.n
  {
    Paths(cfg.root, s.children[i].group, cfg.pids[i], Live(cfg.c, s.children[i].pos))
  }

  /** The files on disk are those the children have at their positions. */
  ghost predicate FilesOk(cfg: Config, s: State) {
    && Shaped(cfg, s)
    && forall p :: p in s.files <==> exists i :: 0 <= i < cfg.n && p in Mine(cfg, s, i)
  }

  /** The files of the other children, none of which this child could ever name. */
  lemma OthersFiles(cfg: Config, s: State, i: nat) returns (others: set<string>)
    requires GoodConfig(cfg) && FilesOk(cfg, s) && i < cfg.n
    ensures s.files == others + Mine(cfg, s, i)
    ensures NoneOf(others, cfg.root, s.children[i].group, cfg.pids[i])
    ensures forall p :: p in others <==> exists j :: 0 <= j < cfg.n && j != i && p in Mine(cfg, s, j)
  {
    others := s.files - Mine(cfg, s, i);
    forall j, p | 0 <= j < cfg.n && j != i && p in Mine(cfg, s, j)
      ensures forall id :: FilePath(cfg.root, s.children[i].group, cfg.pids[i], id) != p
    {
      var id' :| p == FilePath(cfg.root, s.children[j].group, cfg.pids[j], id');
      forall id
        ensures FilePath(cfg.root, s.children[i].group, cfg.pids[i], id) != p
      {
        if FilePath(cfg.root, s.children[i].group, cfg.pids[i], id) == p {
          FilePathInjective(cfg.root, s.children[i].group, cfg.pids[i], id, s.children[j].group, cfg.pids[j], id');
        }
      }
    }
  }

  lemma CallOrNothing(cfg: Config, s: State, i: nat)
    requires Shaped(cfg, s) && Enabled(cfg, s, ChildStep(i))
    ensures var c, s' := s.children[i], ChildNext(cfg, s, i);
      || (s'.files == s.files && s'.children[i].group == c.group
          && (s'.children[i].pos == c.pos || (c.pos == AtEnd && s'.children[i].pos == Start(cfg.c))))
      || (s'.files == ApplyPaths(s.files, cfg.root, c.group, cfg.pids[i], SysOf(cfg.c, c.pos))
          && s'.children[i].group == c.group && s'.children[i].pos == NextPos(cfg.c, c.pos))
  {
  }

  /** Over every interleaving, a child's rename or unlink finds its file, and its call leaves the
      files of every other child alone. */
  lemma CallFindsItsFile(cfg: Config, s: State, i: nat)
    requires GoodConfig(cfg) && FilesOk(cfg, s) && Enabled(cfg, s, ChildStep(i))
    ensures var c := s.children[i]; FindsPath(s.files, cfg.root, c.group, cfg.pids[i], SysOf(cfg.c, c.pos))
    ensures forall j :: 0 <= j < cfg.n && j != i ==> Mine(cfg, s, j) <= ChildNext(cfg, s, i).files
  {
    var others := OthersFiles(cfg, s, i);
    StepOnPaths(others, cfg.c, cfg.root, s.children[i].group, cfg.pids[i], s.children[i].pos);
    CallOrNothing(cfg, s, i);
    assert others <= ChildNext(cfg, s, i).files;
    forall j | 0 <= j < cfg.n && j != i
      ensures Mine(cfg, s, j) <= others
    {
      assert forall p :: p in Mine(cfg, s, j) ==> p in others;
    }
  }

  lemma StartEmpty(c: Params)
    requires GoodParams(c)
    ensures Live(c, Start(c)) == {} && Live(c, AtEnd) == {}
  {
    FileLoopLive(c, 0);
    assert Window(c, 0 - c.lag, 0) == {};
  }

  /** A step that changes no child's position or directory changes no file either. */
  lemma SameFiles(cfg: Config, s: State, s': State)
    requires FilesOk(cfg, s) && Shaped(cfg, s') && s'.files == s.files
    requires forall i :: 0 <= i < cfg.n ==> Mine(cfg, s', i) == Mine(cfg, s, i)
    ensures FilesOk(cfg, s')
  {
  }

  lemma ChildKeepsFiles(cfg: Config, s: State, i: nat)
    requires GoodConfig(cfg) && FilesOk(cfg, s) && Enabled(cfg, s, ChildStep(i)) && Shaped(cfg, ChildNext(cfg, s, i))
    ensures FilesOk(cfg, ChildNext(cfg, s, i))
  {
    var s', c := ChildNext(cfg, s, i), s.children[i];
    var others := OthersFiles(cfg, s, i);
    StepOnPaths(others, cfg.c, cfg.root, c.group, cfg.pids[i], c.pos);
    CallOrNothing(cfg, s, i);
    StartEmpty(cfg.c);
    assert s'.files == others + Mine(cfg, s', i);
    forall j | 0 <= j < cfg.n && j != i
      ensures Mine(cfg, s', j) == Mine(cfg, s, j)
    {
      OthersKeepTheirs(cfg, s, i, j);
    }
    UnionOfAll(cfg, s, s', i, others);
  }

  lemma OthersKeepTheirs(cfg: Config, s: State, i: nat, j: nat)
    requires Shaped(cfg, s) && Enabled(cfg, s, ChildStep(i)) && Shaped(cfg, ChildNext(cfg, s, i)) && j < cfg.n && j != i
    ensures Mine(cfg, ChildNext(cfg, s, i), j) == Mine(cfg, s, j)
  {
    assert ChildNext(cfg, s, i).children[j] == s.children[j];
  }

  lemma UnionOfAll(cfg: Config, s: State, s': State, i: nat, others: set<string>)
    requires Shaped(cfg, s) && Shaped(cfg, s') && i < cfg.n && s'.files == others + Mine(cfg, s', i)
    requires forall p :: p in others <==> exists j :: 0 <= j < cfg.n && j != i && p in Mine(cfg, s, j)
    requires forall j :: 0 <= j < cfg.n && j != i ==> Mine(cfg, s', j) == Mine(cfg, s, j)
    ensures FilesOk(cfg, s')
  {
  }

  lemma ParentKeepsFiles(cfg: Config, s: State, forkOk: bool, reap: nat)
    requires Protocol(cfg, s) && FilesOk(cfg, s) && Enabled(cfg, s, ParentStep(forkOk, reap))
    requires Shaped(cfg, ParentNext(cfg, s, forkOk, reap))
    ensures FilesOk(cfg, ParentNext(cfg, s, forkOk, reap))
  {
    var s' := ParentNext(cfg, s, forkOk, reap);
    if s.parent.Forking? {
      assert SlotOk(cfg, s.parent.i, s.children[s.parent.i], s.status[s.parent.i], s.parent.i);
    }
    forall i | 0 <= i < cfg.n
      ensures Mine(cfg, s', i) == Mine(cfg, s, i)
    {
      ParentKeepsMine(cfg, s, forkOk, reap, i);
    }
    ParentTouchesNoFile(cfg, s, forkOk, reap);
    SameFiles(cfg, s, s');
  }

  lemma ParentTouchesNoFile(cfg: Config, s: State, forkOk: bool, reap: nat)
    requires Shaped(cfg, s) && Enabled(cfg, s, ParentStep(forkOk, reap))
    ensures ParentNext(cfg, s, forkOk, reap).files == s.files
  {
  }

  lemma ParentKeepsMine(cfg: Config, s: State, forkOk: bool, reap: nat, i: nat)
    requires Shaped(cfg, s) && Enabled(cfg, s, ParentStep(forkOk, reap)) && i < cfg.n
    requires Shaped(cfg, ParentNext(cfg, s, forkOk, reap))
    requires s.parent.Forking? ==> s.children[s.parent.i].pos == AtEnd
    ensures Mine(cfg, ParentNext(cfg, s, forkOk, reap), i) == Mine(cfg, s, i)
  {
    StartEmpty(cfg.c);
    ParentMovesNobody(cfg, s, forkOk, reap, i);
    SameMine(cfg, s, ParentNext(cfg, s, forkOk, reap), i);
  }

  /** The parent moves a child only by forking it: from nowhere to its start. */
  lemma ParentMovesNobody(cfg: Config, s: State, forkOk: bool, reap: nat, i: nat)
    requires Shaped(cfg, s) && Enabled(cfg, s, ParentStep(forkOk, reap)) && i < cfg.n
    requires s.parent.Forking? ==> s.children[s.parent.i].pos == AtEnd
    ensures var a, b := s.children[i], ParentNext(cfg, s, forkOk, reap).children[i];
      (a.group == b.group && a.pos == b.pos) || (a.pos == AtEnd && b.pos == Start(cfg.c))
  {
  }

  /** A child's files depend on its directory and position only, and at its start it has none. */
  lemma SameMine(cfg: Config, s: State, s': State, i: nat)
    requires Shaped(cfg, s) && Shaped(cfg, s') && i < cfg.n
    requires var a, b := s.children[i], s'.children[i];
      (a.group == b.group && a.pos == b.pos) || (Live(cfg.c, a.pos) == {} == Live(cfg.c, b.pos))
    ensures Mine(cfg, s', i) == Mine(cfg, s, i)
  {
  }

  lemma StepKeepsFiles(cfg: Config, s: State, ev: Event)
    requires GoodConfig(cfg) && Protocol(cfg, s) && FilesOk(cfg, s) && Enabled(cfg, s, ev)
    ensures FilesOk(cfg, Step(cfg, s, ev))
  {
    StepKeepsProtocol(cfg, s, ev);
    match ev
    case ParentStep(forkOk, reap) => ParentKeepsFiles(cfg, s, forkOk, reap);
    case ChildStep(i) => ChildKeepsFiles(cfg, s, i);
    case ChildFails(i) => SameFiles(cfg, s, Step(cfg, s, ev));
  }

  // ----- the directories

  /** Once the parent is past the wait loop no file is left. */
  lemma PastLoopNoFiles(cfg: Config, s: State)
    requires Protocol(cfg, s) && FilesOk(cfg, s) && (s.parent.Removing? || s.parent.Done?)
    ensures s.files == {}
  {
    PastLoopAllFinished(cfg, s);
    StartEmpty(cfg.c);
  }

  lemma RangeGrows(lo: nat, hi: nat)
    ensures lo <= hi ==> DirRange(lo, hi + 1) == DirRange(lo, hi) + {hi}
    ensures DirRange(lo, hi) - {lo} == DirRange(lo + 1, hi)
  {
  }

  lemma ParentKeepsDirs(cfg: Config, s: State, forkOk: bool, reap: nat)
    requires Protocol(cfg, s) && FilesOk(cfg, s) && DirsOk(cfg, s) && Enabled(cfg, s, ParentStep(forkOk, reap))
    requires Shaped(cfg, ParentNext(cfg, s, forkOk, reap))
    ensures DirsOk(cfg, ParentNext(cfg, s, forkOk, reap))
  {
    match s.parent
    case MakingDir(i) => RangeGrows(0, s.made);
    case Removing(g) =>
      PastLoopNoFiles(cfg, s);
      RangeGrows(g, Groups(cfg.n, cfg.perDir));
    case _ =>
  }

  lemma StepKeepsDirs(cfg: Config, s: State, ev: Event)
    requires Protocol(cfg, s) && FilesOk(cfg, s) && DirsOk(cfg, s) && Enabled(cfg, s, ev)
    ensures Protocol(cfg, Step(cfg, s, ev)) && DirsOk(cfg, Step(cfg, s, ev))
  {
    StepKeepsProtocol(cfg, s, ev);
    match ev
    case ParentStep(forkOk, reap) => ParentKeepsDirs(cfg, s, forkOk, reap);
    case ChildStep(i) => ChildSlot(cfg, s, i, false);
    case ChildFails(i) =>
  }

  ghost predicate Inv(cfg: Config, s: State) {
    Protocol(cfg, s) && FilesOk(cfg, s) && DirsOk(cfg, s)
  }

  /** s is reachable by the given steps of parent and children. */
  ghost predicate Reaches(cfg: Config, evs: seq<Event>, s: State)
    requires cfg.perDir > 0
  {
    if evs == [] then s == Initial(cfg)
    else exists r :: Reaches(cfg, evs[..|evs| - 1], r) && Shaped(cfg, r)
                     && Enabled(cfg, r, evs[|evs| - 1]) && s == Step(cfg, r, evs[|evs| - 1])
  }

  lemma InitialInv(cfg: Config)
    requires GoodConfig(cfg)
    ensures Inv(cfg, Initial(cfg))
  {
    InitialProtocol(cfg);
    StartEmpty(cfg.c);
  }

  lemma {:induction false} ReachableInv(cfg: Config, evs: seq<Event>, s: State)
    requires GoodConfig(cfg) && Reaches(cfg, evs, s)
    ensures Inv(cfg, s)
  {
    if evs == [] {
      InitialInv(cfg);
    } else {
      var ev := evs[|evs| - 1];
      var r :| Reaches(cfg, evs[..|evs| - 1], r) && Shaped(cfg, r) && Enabled(cfg, r, ev) && s == Step(cfg, r, ev);
      ReachableInv(cfg, evs[..|evs| - 1], r);
      StepKeepsFiles(cfg, r, ev);
      StepKeepsDirs(cfg, r, ev);
    }
  }

  /** At the end of every run no file is left and the directories that remain are exactly the
      incomplete last group, which exists if and only if perDir does not divide n. */
  lemma WhatRemains(cfg: Config, evs: seq<Event>, s: State)
    requires GoodConfig(cfg) && Reaches(cfg, evs, s) && s.parent == Done
    ensures s.files == {}
    ensures s.dirs == if cfg.n % cfg.perDir == 0 then {} else {cfg.n / cfg.perDir}
  {
    ReachableInv(cfg, evs, s);
    PastLoopNoFiles(cfg, s);
    LastGroup(cfg);
  }

  lemma LastGroup(cfg: Config)
    requires cfg.perDir > 0
    ensures DirRange(cfg.n / cfg.perDir, Groups(cfg.n, cfg.perDir))
         == if cfg.n % cfg.perDir == 0 then {} else {cfg.n / cfg.perDir}
  {
    var q := cfg.n / cfg.perDir;
    RangeGrows(q, q);
    assert DirRange(q, q) == {};
  }
}
