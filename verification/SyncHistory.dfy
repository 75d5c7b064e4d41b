/** What the children of a synctest run have really done when it is over: the log of their calls. */
module SyncHistory {
  import opened Arithmetic
  import opened SyncNames
  import opened SyncScript
  import opened SyncChild
  import opened SyncRun
  import opened SyncProgress

  function WhoIs(cfg: Config, s: State, i: nat): Proc
    requires i < |s.children| == |cfg.pids|
  {
    Proc(cfg.root, s.children[i].group, cfg.pids[i])
  }

  /** Complete scripts for the iterations that are over and the beginning of one for this one. */
  function CallsDue(cfg: Config, who: Proc, c: Child): seq<Call>
    requires GoodParams(cfg.c) && ValidPos(cfg.c, c.pos)
  {
    if c.stage == Unforked || c.stage == Absent then []
    else Repeated(Script(cfg.c, NamesOf(who)), c.iter) + Before(cfg.c, NamesOf(who), c.pos)
  }

  ghost predicate CallsOk(cfg: Config, s: State) {
    && Shaped(cfg, s)
    && (forall i :: 0 <= i < cfg.n ==> CallsOf(s.calls, i) == CallsDue(cfg, WhoIs(cfg, s, i), s.children[i]))
    && s.files == Replay(s.calls)
  }

  /** A step that makes no call, and takes each child at most from nowhere to its start or from the
      end of one script to the start of the next. */
  predicate NoCallMade(cfg: Config, c: Child, c': Child)
    requires GoodParams(cfg.c)
  {
    || (c'.group == c.group && c'.iter == c.iter && c'.pos == c.pos
        && (c.stage in {Unforked, Absent} <==> c'.stage in {Unforked, Absent}))
    || (c.stage == Unforked && c'.stage == Absent)
    || (c.stage == Unforked && c'.stage == Running && c'.iter == 0 && c'.pos == Start(cfg.c))
    || (c.stage == Running && c.pos == AtEnd && c' == c.(iter := c.iter + 1, pos := Start(cfg.c)))
  }

  lemma NothingDue(cfg: Config, who: Proc, c: Child)
    requires GoodParams(cfg.c) && c.stage == Running && c.iter == 0 && c.pos == Start(cfg.c)
    ensures CallsDue(cfg, who, c) == []
  {
    NothingBeforeStart(cfg.c, NamesOf(who));
  }

  lemma NextScript(cfg: Config, who: Proc, c: Child)
    requires GoodParams(cfg.c) && c.stage == Running && c.pos == AtEnd
    ensures CallsDue(cfg, who, c.(iter := c.iter + 1, pos := Start(cfg.c))) == CallsDue(cfg, who, c)
  {
    var script := Script(cfg.c, NamesOf(who));
    NothingBeforeStart(cfg.c, NamesOf(who));
    assert Repeated(script, c.iter + 1) + [] == Repeated(script, c.iter) + script;
  }

  lemma SameCallsDue(cfg: Config, s: State, s': State, i: nat)
    requires Shaped(cfg, s) && Shaped(cfg, s') && i < cfg.n && NoCallMade(cfg, s.children[i], s'.children[i])
    ensures CallsDue(cfg, WhoIs(cfg, s', i), s'.children[i]) == CallsDue(cfg, WhoIs(cfg, s, i), s.children[i])
  {
    var c, c' := s.children[i], s'.children[i];
    if c.stage == Unforked && c'.stage == Running {
      NothingDue(cfg, WhoIs(cfg, s', i), c');
    } else if c.stage == Running && c'.stage == Running && c'.iter == c.iter + 1 {
      NextScript(cfg, WhoIs(cfg, s, i), c);
    }
  }

  lemma QuietStep(cfg: Config, s: State, s': State)
    requires CallsOk(cfg, s) && Shaped(cfg, s') && s'.calls == s.calls && s'.files == s.files
    requires forall i :: 0 <= i < cfg.n ==> NoCallMade(cfg, s.children[i], s'.children[i])
    ensures CallsOk(cfg, s')
  {
    forall i | 0 <= i < cfg.n
      ensures CallsOf(s'.calls, i) == CallsDue(cfg, WhoIs(cfg, s', i), s'.children[i])
    {
      SameCallsDue(cfg, s, s', i);
    }
  }

  lemma ParentIsQuiet(cfg: Config, s: State, forkOk: bool, reap: nat, i: nat)
    requires Shaped(cfg, s) && Enabled(cfg, s, ParentStep(forkOk, reap)) && i < cfg.n
    requires s.parent.Forking? ==> s.children[s.parent.i].stage == Unforked
    ensures var s' := ParentNext(cfg, s, forkOk, reap);
      s'.calls == s.calls && s'.files == s.files && NoCallMade(cfg, s.children[i], s'.children[i])
  {
  }

  /** Whether a child's step is a system call. */
  predicate Calls(cfg: Config, c: Child) {
    c.stage == Running && c.iter < cfg.iters && c.pos != AtEnd
  }

  lemma ChildIsQuiet(cfg: Config, s: State, i: nat, fails: bool)
    requires Shaped(cfg, s) && Enabled(cfg, s, if fails then ChildFails(i) else ChildStep(i))
    requires fails || !Calls(cfg, s.children[i])
    ensures var s' := Step(cfg, s, if fails then ChildFails(i) else ChildStep(i));
      && s'.calls == s.calls && s'.files == s.files && NoCallMade(cfg, s.children[i], s'.children[i])
      && forall j :: 0 <= j < cfg.n && j != i ==> s'.children[j] == s.children[j]
  {
  }

  lemma ChildCalls(cfg: Config, s: State, i: nat)
    requires Shaped(cfg, s) && Enabled(cfg, s, ChildStep(i)) && Calls(cfg, s.children[i])
    ensures var c, s', who := s.children[i], ChildNext(cfg, s, i), WhoIs(cfg, s, i);
      && s'.calls == s.calls + [(i, CallAt(cfg.c, NamesOf(who), c.pos))]
      && s'.files == Perform(s.files, CallAt(cfg.c, NamesOf(who), c.pos))
      && s'.children == s.children[i := c.(pos := NextPos(cfg.c, c.pos))]
  {
    CallIsPerformed(s.files, cfg.c, WhoIs(cfg, s, i), s.children[i].pos);
  }

  lemma CallKeepsCalls(cfg: Config, s: State, i: nat)
    requires CallsOk(cfg, s) && Enabled(cfg, s, ChildStep(i)) && Calls(cfg, s.children[i])
    requires Shaped(cfg, ChildNext(cfg, s, i))
    ensures CallsOk(cfg, ChildNext(cfg, s, i))
  {
    var s', who, c := ChildNext(cfg, s, i), WhoIs(cfg, s, i), s.children[i];
    var call := CallAt(cfg.c, NamesOf(who), c.pos);
    ChildCalls(cfg, s, i);
    BeforeNext(cfg.c, NamesOf(who), c.pos);
    Associate(Repeated(Script(cfg.c, NamesOf(who)), c.iter), Before(cfg.c, NamesOf(who), c.pos), call);
    forall j | 0 <= j < cfg.n
      ensures CallsOf(s'.calls, j) == CallsDue(cfg, WhoIs(cfg, s', j), s'.children[j])
    {
      LogNext(s.calls, i, call, j);
      if j != i {
        assert s'.children[j] == s.children[j];
      }
    }
    LogNext(s.calls, i, call, i);
  }

  lemma ParentKeepsCalls(cfg: Config, s: State, forkOk: bool, reap: nat)
    requires Protocol(cfg, s) && CallsOk(cfg, s) && Enabled(cfg, s, ParentStep(forkOk, reap))
    requires Shaped(cfg, ParentNext(cfg, s, forkOk, reap))
    ensures CallsOk(cfg, ParentNext(cfg, s, forkOk, reap))
  {
    var s' := ParentNext(cfg, s, forkOk, reap);
    if s.parent.Forking? {
      assert SlotOk(cfg, s.parent.i, s.children[s.parent.i], s.status[s.parent.i], s.parent.i);
    }
    forall i | 0 <= i < cfg.n
      ensures NoCallMade(cfg, s.children[i], s'.children[i])
    {
      ParentIsQuiet(cfg, s, forkOk, reap, i);
    }
    ParentTouchesNothing(cfg, s, forkOk, reap);
    QuietStep(cfg, s, s');
  }

  lemma QuietChildKeepsCalls(cfg: Config, s: State, i: nat, fails: bool)
    requires CallsOk(cfg, s) && Enabled(cfg, s, if fails then ChildFails(i) else ChildStep(i))
    requires fails || !Calls(cfg, s.children[i])
    requires Shaped(cfg, Step(cfg, s, if fails then ChildFails(i) else ChildStep(i)))
    ensures CallsOk(cfg, Step(cfg, s, if fails then ChildFails(i) else ChildStep(i)))
  {
    ChildIsQuiet(cfg, s, i, fails);
    QuietStep(cfg, s, Step(cfg, s, if fails then ChildFails(i) else ChildStep(i)));
  }

  lemma StepKeepsCalls(cfg: Config, s: State, ev: Event)
    requires Protocol(cfg, s) && CallsOk(cfg, s) && Enabled(cfg, s, ev)
    ensures CallsOk(cfg, Step(cfg, s, ev))
  {
    StepKeepsProtocol(cfg, s, ev);
    match ev
    case ParentStep(forkOk, reap) => ParentKeepsCalls(cfg, s, forkOk, reap);
    case ChildStep(i) =>
      if Calls(cfg, s.children[i]) {
        CallKeepsCalls(cfg, s, i);
      } else {
        QuietChildKeepsCalls(cfg, s, i, false);
      }
    case ChildFails(i) => QuietChildKeepsCalls(cfg, s, i, true);
  }

  lemma ParentTouchesNothing(cfg: Config, s: State, forkOk: bool, reap: nat)
    requires Shaped(cfg, s) && Enabled(cfg, s, ParentStep(forkOk, reap))
    ensures var s' := ParentNext(cfg, s, forkOk, reap); s'.calls == s.calls && s'.files == s.files
  {
  }

  /** In every reachable state each child has made exactly the calls due at its position, and the
      files on disk are what all calls so far, in their order, lead to. */
  lemma {:induction false} ReachableCalls(cfg: Config, evs: seq<Event>, s: State)
    requires GoodConfig(cfg) && Reaches(cfg, evs, s)
    ensures CallsOk(cfg, s)
  {
    ReachableInv(cfg, evs, s);
    if evs != [] {
      var ev := evs[|evs| - 1];
      var r :| Reaches(cfg, evs[..|evs| - 1], r) && Shaped(cfg, r) && Enabled(cfg, r, ev) && s == Step(cfg, r, ev);
      ReachableCalls(cfg, evs[..|evs| - 1], r);
      ReachableInv(cfg, evs[..|evs| - 1], r);
      StepKeepsCalls(cfg, r, ev);
    }
  }

  /** The script of child i, in the directory of its group, as often as there are iterations. */
  function AllItsCalls(cfg: Config, i: nat): seq<Call>
    requires GoodParams(cfg.c) && cfg.perDir > 0 && i < |cfg.pids|
  {
    Repeated(Script(cfg.c, NamesOf(Proc(cfg.root, i / cfg.perDir, cfg.pids[i]))), cfg.iters)
  }

  /** When the parent is past the wait loop, every child has made the whole script, as often as it
      was told to, in the directory of its group. */
  lemma PastLoopMeansScripts(cfg: Config, evs: seq<Event>, s: State, i: nat)
    requires GoodConfig(cfg) && Reaches(cfg, evs, s) && (s.parent.Removing? || s.parent.Done?) && i < cfg.n
    ensures CallsOf(s.calls, i) == AllItsCalls(cfg, i)
  {
    ReachableInv(cfg, evs, s);
    ReachableCalls(cfg, evs, s);
    PastLoopAllFinished(cfg, s);
    assert SlotOk(cfg, i, s.children[i], s.status[i], cfg.n);
    var name := NamesOf(Proc(cfg.root, i / cfg.perDir, cfg.pids[i]));
    NothingBeforeStart(cfg.c, name);
    assert Repeated(Script(cfg.c, name), cfg.iters) + [] == Repeated(Script(cfg.c, name), cfg.iters);
  }

  /** Every call is made in a directory that exists. */
  lemma DirectoryExists(cfg: Config, evs: seq<Event>, s: State, i: nat)
    requires GoodConfig(cfg) && Reaches(cfg, evs, s)
    requires i < cfg.n && |s.children| == cfg.n && s.children[i].stage == Running
    ensures s.children[i].group == i / cfg.perDir && s.children[i].group in s.dirs
  {
    ReachableInv(cfg, evs, s);
    assert SlotOk(cfg, i, s.children[i], s.status[i], Forked(cfg, s.parent));
    if s.parent.Removing? || s.parent.Done? {
      PastLoopAllFinished(cfg, s);
      assert false;
    }
    GroupMade(i, Forked(cfg, s.parent), cfg.perDir);
    assert Between(0, i / cfg.perDir, s.made);
  }

  lemma GroupMade(i: nat, forked: nat, perDir: nat)
    requires perDir > 0 && i < forked
    ensures i / perDir < Groups(forked, perDir) && i / perDir <= forked / perDir
  {
    var q, r, q' := i / perDir, i % perDir, forked / perDir;
    assert i == perDir * q + r && forked == perDir * q' + forked % perDir;
    if q' <= q {
      MulMono(perDir, q', q);
      if q' < q {
        MulSucc(perDir, q');
        MulMono(perDir, q' + 1, q);
      }
    }
  }

  /** A run in which nothing fails and nobody can step any more has done its work: the parent is
      done, every child has made its whole script as often as it was told to, has reported and been
      counted, no file is left, and of the directories only that of an incomplete last group. */
  lemma CompleteRun(cfg: Config, evs: seq<Event>, s: State)
    requires GoodConfig(cfg) && Reaches(cfg, evs, s) && Stuck(cfg, s)
    requires forall k :: 0 <= k < |evs| ==> Succeeds(evs[k])
    ensures s.parent == Done && s.left == 0 && forall i :: 0 <= i < cfg.n ==> s.status[i] == 2
    ensures forall i :: 0 <= i < cfg.n ==> CallsOf(s.calls, i) == AllItsCalls(cfg, i)
    ensures s.files == {}
    ensures s.dirs == if cfg.n % cfg.perDir == 0 then {} else {cfg.n / cfg.perDir}
  {
    NothingFails(cfg, evs, s);
    StuckMeansDone(cfg, s);
    PastLoopAllFinished(cfg, s);
    WhatRemains(cfg, evs, s);
    forall i | 0 <= i < cfg.n
      ensures CallsOf(s.calls, i) == AllItsCalls(cfg, i)
    {
      PastLoopMeansScripts(cfg, evs, s, i);
    }
  }

  lemma StuckMeansDone(cfg: Config, s: State)
    requires Protocol(cfg, s) && Stuck(cfg, s) && s.parent != NoChildError
    ensures s.parent == Done && s.left == 0
  {
    if s.parent != Done {
      NoDeadlock(cfg, s);
      assert false;
    }
  }
}
