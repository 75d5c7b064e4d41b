/** Progress of a synctest run: someone can always step until the parent is done, and under every
    interleaving every run is finite. */
module SyncProgress {
  import opened Arithmetic
  import opened Counting
  import opened SyncScript
  import opened SyncChild
  import opened SyncRun

  /** A step in which no fork fails and no child dies. */
  predicate Succeeds(ev: Event) {
    match ev
    case ParentStep(forkOk, _) => forkOk
    case ChildStep(_) => true
    case ChildFails(_) => false
  }

  /** Until the parent is done or has given up, it or some child can step: a parent that waits
      waits for a child that is still at work. */
  lemma NoDeadlock(cfg: Config, s: State)
    requires Protocol(cfg, s) && s.parent != Done && s.parent != NoChildError
    ensures exists ev :: Enabled(cfg, s, ev) && Succeeds(ev)
  {
    if s.parent != Waiting || s.left == 0 || forall i :: 0 <= i < cfg.n ==> Gone(s.children[i]) {
      assert Enabled(cfg, s, ParentStep(true, 0)) && Succeeds(ParentStep(true, 0));
    } else {
      var i :| 0 <= i < cfg.n && !Gone(s.children[i]);
      assert SlotOk(cfg, i, s.children[i], s.status[i], cfg.n);
      var ev := if s.children[i].stage == Exited then ParentStep(true, i) else ChildStep(i);
      assert Enabled(cfg, s, ev) && Succeeds(ev);
    }
  }

  // ----- the system calls a child still has to make in this iteration

  function FilesLeft(c: Params, f: nat): nat
    requires f <= c.files
  {
    Times(c.files - f, c.passes + 2) + c.lag
  }

  function CallsLeft(c: Params, pos: Pos): nat
    requires GoodParams(c) && ValidPos(c, pos)
  {
    match pos
    case AtCreate(f) => FilesLeft(c, f + 1) + c.passes + 2
    case AtRename(f, p) => FilesLeft(c, f + 1) + c.passes - p + 1
    case AtUnlink(f) => FilesLeft(c, f + 1) + 1
    case AtDrain(f) => c.files - f
    case AtEnd => 0
  }

  lemma FileLoopCalls(c: Params, f: nat)
    requires GoodParams(c) && f <= c.files
    ensures CallsLeft(c, FileLoop(c, f)) == FilesLeft(c, f)
  {
  }

  lemma CallFalls(c: Params, pos: Pos)
    requires GoodParams(c) && ValidPos(c, pos) && pos != AtEnd
    ensures CallsLeft(c, NextPos(c, pos)) < CallsLeft(c, pos)
  {
    if pos.AtRename? || pos.AtUnlink? {
      FileLoopCalls(c, pos.f + 1);
    }
  }

  // ----- the steps left to a child, to all children, to the parent

  function IterationsLeft(iters: nat, iter: nat, perIter: nat, calls: nat): (r: nat)
    ensures r >= 2
  {
    if iter >= iters then 2 else Times(iters - iter - 1, perIter + 1) + calls + 3
  }

  function ChildLeft(cfg: Config, c: Child): nat {
    if !GoodParams(cfg.c) || !ValidPos(cfg.c, c.pos) then 0
    else
      var perIter := CallsLeft(cfg.c, Start(cfg.c));
      match c.stage
      case Unforked => IterationsLeft(cfg.iters, 0, perIter, perIter)
      case Running => IterationsLeft(cfg.iters, c.iter, perIter, CallsLeft(cfg.c, c.pos))
      case Stored => 1
      case _ => 0
  }

  function ChildrenLeft(cfg: Config, cs: seq<Child>): nat {
    if cs == [] then 0 else ChildrenLeft(cfg, cs[..|cs| - 1]) + ChildLeft(cfg, cs[|cs| - 1])
  }

  lemma {:induction false} OneChildSteps(cfg: Config, cs: seq<Child>, i: nat, c: Child)
    requires i < |cs|
    ensures ChildrenLeft(cfg, cs[i := c]) == ChildrenLeft(cfg, cs) - ChildLeft(cfg, cs[i]) + ChildLeft(cfg, c)
  {
    var k := |cs| - 1;
    if i < k {
      OneChildSteps(cfg, cs[..k], i, c);
      assert cs[i := c][..k] == cs[..k][i := c];
    } else {
      assert cs[i := c][..k] == cs[..k];
    }
  }

  function WaitLoopLeft(cfg: Config, waits: nat): (r: nat)
    requires cfg.perDir > 0 && waits <= cfg.n
    ensures r > cfg.n / cfg.perDir + 1
  {
    Times(cfg.n - waits, cfg.n + 2) + cfg.n / cfg.perDir + 3
  }

  /** waiting is what the wait loop and the rest still cost. */
  function ParentLeft(cfg: Config, p: Parent, waiting: nat): int
    requires cfg.perDir > 0
  {
    match p
    case MakingDir(i) => waiting + 2 * (cfg.n - i)
    case Forking(i) => waiting + 2 * (cfg.n - i) - 1
    case Waiting => waiting
    case Scanning(slot) => waiting + cfg.n - slot + 1
    case Removing(g) => cfg.n / cfg.perDir - g + 1
    case Done => 0
    case NoChildError => 0
  }

  /** A bound on the steps that parent and children together can still take. */
  function StepsLeft(cfg: Config, s: State): int
    requires cfg.perDir > 0 && s.waits <= cfg.n
  {
    ParentLeft(cfg, s.parent, WaitLoopLeft(cfg, s.waits)) + ChildrenLeft(cfg, s.children)
  }

  lemma NextIteration(iters: nat, iter: nat, perIter: nat)
    requires iter < iters
    ensures IterationsLeft(iters, iter + 1, perIter, perIter) < IterationsLeft(iters, iter, perIter, 0)
  {
  }

  lemma WorkFalls(cfg: Config, c: Child, c': Child)
    requires GoodParams(cfg.c) && ValidPos(cfg.c, c.pos) && c.stage == Running && c.iter < cfg.iters
    requires c' == if c.pos == AtEnd then c.(iter := c.iter + 1, pos := Start(cfg.c))
                   else c.(pos := NextPos(cfg.c, c.pos))
    ensures ChildLeft(cfg, c') < ChildLeft(cfg, c)
  {
    if c.pos == AtEnd {
      NextIteration(cfg.iters, c.iter, CallsLeft(cfg.c, Start(cfg.c)));
    } else {
      CallFalls(cfg.c, c.pos);
    }
  }

  lemma ReportFalls(cfg: Config, c: Child, stage: Stage)
    requires GoodParams(cfg.c) && ValidPos(cfg.c, c.pos)
    requires (c.stage == Running && (stage == Stored || stage == Exited)) || (c.stage == Stored && stage == Exited)
    ensures ChildLeft(cfg, c.(stage := stage)) < ChildLeft(cfg, c)
  {
  }

  lemma ChildFalls(cfg: Config, s: State, i: nat, fails: bool)
    requires Shaped(cfg, s) && Enabled(cfg, s, if fails then ChildFails(i) else ChildStep(i))
    ensures var s' := Step(cfg, s, if fails then ChildFails(i) else ChildStep(i));
      ChildLeft(cfg, s'.children[i]) < ChildLeft(cfg, s.children[i])
  {
    var c, c' := s.children[i], Step(cfg, s, if fails then ChildFails(i) else ChildStep(i)).children[i];
    if fails || c.stage == Stored || c.iter >= cfg.iters {
      ReportFalls(cfg, c, c'.stage);
    } else {
      WorkFalls(cfg, c, c');
    }
  }

  /** What is left of a wait loop of n children: a successful wait pays for the scan after it. */
  lemma WaitFalls(cfg: Config, waits: nat)
    requires cfg.perDir > 0 && waits < cfg.n
    ensures WaitLoopLeft(cfg, waits) == WaitLoopLeft(cfg, waits + 1) + cfg.n + 2
  {
  }

  lemma ParentRuns(cfg: Config, s: State, forkOk: bool, reap: nat, waiting: nat, waiting': nat)
    requires Shaped(cfg, s) && ParentOk(cfg, s) && Enabled(cfg, s, ParentStep(forkOk, reap))
    requires waiting > cfg.n / cfg.perDir + 1
    requires var s' := ParentNext(cfg, s, forkOk, reap);
      waiting == waiting' + (if s'.waits == s.waits then 0 else cfg.n + 2)
    ensures ParentLeft(cfg, ParentNext(cfg, s, forkOk, reap).parent, waiting') < ParentLeft(cfg, s.parent, waiting)
  {
  }

  lemma WaitsRise(cfg: Config, s: State, forkOk: bool, reap: nat)
    requires Shaped(cfg, s) && Enabled(cfg, s, ParentStep(forkOk, reap))
    ensures var s' := ParentNext(cfg, s, forkOk, reap); s'.waits == s.waits || s'.waits == s.waits + 1
  {
  }

  /** The parent's step leaves the children's work alone or takes some of it away. */
  lemma ParentTakesWork(cfg: Config, s: State, forkOk: bool, reap: nat)
    requires Shaped(cfg, s) && Enabled(cfg, s, ParentStep(forkOk, reap))
    requires s.parent.Forking? ==> s.children[s.parent.i].stage == Unforked
    ensures ChildrenLeft(cfg, ParentNext(cfg, s, forkOk, reap).children) <= ChildrenLeft(cfg, s.children)
  {
    var s' := ParentNext(cfg, s, forkOk, reap);
    if s.parent.Forking? {
      OneChildSteps(cfg, s.children, s.parent.i, s'.children[s.parent.i]);
    } else if s'.waits > s.waits {
      OneChildSteps(cfg, s.children, reap, s'.children[reap]);
    }
  }

  lemma ParentFalls(cfg: Config, s: State, forkOk: bool, reap: nat)
    requires Protocol(cfg, s) && Enabled(cfg, s, ParentStep(forkOk, reap))
    ensures var s' := ParentNext(cfg, s, forkOk, reap);
      && s.waits <= cfg.n && s'.waits <= cfg.n && StepsLeft(cfg, s') < StepsLeft(cfg, s)
  {
    var s' := ParentNext(cfg, s, forkOk, reap);
    ParentKeepsProtocol(cfg, s, forkOk, reap);
    AtMostNWaits(cfg, s);
    AtMostNWaits(cfg, s');
    WaitsRise(cfg, s, forkOk, reap);
    if s'.waits > s.waits {
      WaitFalls(cfg, s.waits);
    }
    ParentRuns(cfg, s, forkOk, reap, WaitLoopLeft(cfg, s.waits), WaitLoopLeft(cfg, s'.waits));
    if s.parent.Forking? {
      assert SlotOk(cfg, s.parent.i, s.children[s.parent.i], s.status[s.parent.i], s.parent.i);
    }
    ParentTakesWork(cfg, s, forkOk, reap);
  }

  lemma StepFalls(cfg: Config, s: State, ev: Event)
    requires Protocol(cfg, s) && Enabled(cfg, s, ev)
    ensures s.waits <= cfg.n && Step(cfg, s, ev).waits <= cfg.n
    ensures StepsLeft(cfg, Step(cfg, s, ev)) < StepsLeft(cfg, s)
  {
    AtMostNWaits(cfg, s);
    match ev
    case ParentStep(forkOk, reap) => ParentFalls(cfg, s, forkOk, reap);
    case ChildStep(i) =>
      ChildSlot(cfg, s, i, false);
      ChildFalls(cfg, s, i, false);
      OneChildSteps(cfg, s.children, i, Step(cfg, s, ev).children[i]);
    case ChildFails(i) =>
      ChildFalls(cfg, s, i, true);
      OneChildSteps(cfg, s.children, i, Step(cfg, s, ev).children[i]);
  }

  lemma StepsLeftNatural(cfg: Config, s: State)
    requires Protocol(cfg, s)
    ensures s.waits <= cfg.n && StepsLeft(cfg, s) >= 0
  {
    AtMostNWaits(cfg, s);
  }

  /** Every run is finite: no interleaving takes more steps than the initial state allows. With
      NoDeadlock this makes every run that is not cut short end with the parent done or failed. */
  lemma {:induction false} RunsAreFinite(cfg: Config, evs: seq<Event>, s: State)
    requires GoodConfig(cfg) && Reaches(cfg, evs, s)
    ensures s.waits <= cfg.n && |evs| + StepsLeft(cfg, s) <= StepsLeft(cfg, Initial(cfg))
    ensures |evs| <= StepsLeft(cfg, Initial(cfg))
  {
    ReachableInv(cfg, evs, s);
    StepsLeftNatural(cfg, s);
    if evs != [] {
      var ev := evs[|evs| - 1];
      var r :| Reaches(cfg, evs[..|evs| - 1], r) && Shaped(cfg, r) && Enabled(cfg, r, ev) && s == Step(cfg, r, ev);
      RunsAreFinite(cfg, evs[..|evs| - 1], r);
      ReachableInv(cfg, evs[..|evs| - 1], r);
      StepFalls(cfg, r, ev);
    }
  }

  // ----- runs in which nothing fails

  ghost predicate NobodyLost(s: State)
    requires |s.children| == |s.status|
  {
    forall i :: 0 <= i < |s.children| ==> !Lost(s, i)
  }

  lemma StepLosesNobody(cfg: Config, s: State, ev: Event)
    requires Protocol(cfg, s) && Enabled(cfg, s, ev) && Succeeds(ev) && NobodyLost(s)
    ensures Protocol(cfg, Step(cfg, s, ev)) && NobodyLost(Step(cfg, s, ev))
  {
    StepKeepsProtocol(cfg, s, ev);
    var s' := Step(cfg, s, ev);
    forall i | 0 <= i < cfg.n
      ensures !Lost(s', i)
    {
      assert SlotOk(cfg, i, s.children[i], s.status[i], Forked(cfg, s.parent)) && !Lost(s, i);
      ChildNotLost(cfg, s, ev, i);
    }
  }

  lemma ChildNotLost(cfg: Config, s: State, ev: Event, i: nat)
    requires Shaped(cfg, s) && Enabled(cfg, s, ev) && Succeeds(ev) && i < cfg.n
    requires SlotOk(cfg, i, s.children[i], s.status[i], Forked(cfg, s.parent)) && !Lost(s, i)
    ensures !Lost(Step(cfg, s, ev), i)
  {
  }

  /** When every fork and every child succeeds, nobody is lost and wait3 is never called with no
      child left. */
  lemma {:induction false} NothingFails(cfg: Config, evs: seq<Event>, s: State)
    requires GoodConfig(cfg) && Reaches(cfg, evs, s)
    requires forall k :: 0 <= k < |evs| ==> Succeeds(evs[k])
    ensures Protocol(cfg, s) && NobodyLost(s) && s.parent != NoChildError
  {
    ReachableInv(cfg, evs, s);
    if evs != [] {
      var ev := evs[|evs| - 1];
      var r :| Reaches(cfg, evs[..|evs| - 1], r) && Shaped(cfg, r) && Enabled(cfg, r, ev) && s == Step(cfg, r, ev);
      NothingFails(cfg, evs[..|evs| - 1], r);
      StepLosesNobody(cfg, r, ev);
    }
    if s.parent == NoChildError {
      NoChildErrorOnlyIfLost(cfg, s);
    }
  }

  // ----- complete runs

  ghost predicate Stuck(cfg: Config, s: State) {
    Shaped(cfg, s) && forall ev :: !Enabled(cfg, s, ev)
  }

  lemma ReachesNext(cfg: Config, evs: seq<Event>, s: State, ev: Event)
    requires cfg.perDir > 0 && Reaches(cfg, evs, s) && Shaped(cfg, s) && Enabled(cfg, s, ev)
    ensures Reaches(cfg, evs + [ev], Step(cfg, s, ev))
  {
    assert (evs + [ev])[..|evs + [ev]| - 1] == evs;
  }

  function Bound(cfg: Config, s: State): nat {
    if cfg.perDir > 0 && s.waits <= cfg.n && StepsLeft(cfg, s) >= 0 then StepsLeft(cfg, s) else 0
  }

  lemma StepBound(cfg: Config, s: State, ev: Event)
    requires Protocol(cfg, s) && Enabled(cfg, s, ev)
    ensures Bound(cfg, Step(cfg, s, ev)) < Bound(cfg, s)
  {
    StepKeepsProtocol(cfg, s, ev);
    StepFalls(cfg, s, ev);
    StepsLeftNatural(cfg, s);
    StepsLeftNatural(cfg, Step(cfg, s, ev));
  }

  lemma OneMoreStep(cfg: Config, evs: seq<Event>, s: State) returns (ev: Event, s': State)
    requires GoodConfig(cfg) && Reaches(cfg, evs, s) && s.parent != Done
    requires forall k :: 0 <= k < |evs| ==> Succeeds(evs[k])
    ensures Succeeds(ev) && Reaches(cfg, evs + [ev], s') && Bound(cfg, s') < Bound(cfg, s)
  {
    NothingFails(cfg, evs, s);
    NoDeadlock(cfg, s);
    ev :| Enabled(cfg, s, ev) && Succeeds(ev);
    s' := Step(cfg, s, ev);
    StepBound(cfg, s, ev);
    ReachesNext(cfg, evs, s, ev);
  }

  /** Every run in which nothing has failed can be continued to such an end. */
  lemma {:induction false} CanComplete(cfg: Config, evs: seq<Event>, s: State) returns (run: seq<Event>, t: State)
    requires GoodConfig(cfg) && Reaches(cfg, evs, s)
    requires forall k :: 0 <= k < |evs| ==> Succeeds(evs[k])
    ensures evs <= run && Reaches(cfg, run, t) && t.parent == Done
    ensures forall k :: 0 <= k < |run| ==> Succeeds(run[k])
    decreases Bound(cfg, s)
  {
    if s.parent == Done {
      run, t := evs, s;
    } else {
      var ev, s' := OneMoreStep(cfg, evs, s);
      run, t := CanComplete(cfg, evs + [ev], s');
    }
  }

  /** One child where two share a directory: the run goes through and its directory stays. */
  lemma DirectoryStays(root: string) returns (cfg: Config, evs: seq<Event>, s: State)
    ensures GoodConfig(cfg) && cfg.n == 1 && cfg.perDir == 2 && Reaches(cfg, evs, s)
    ensures s.parent == Done && s.dirs == {0}
  {
    cfg := Config(root, 1, 2, 1, [100], Params(100, 30, 3));
    evs, s := CanComplete(cfg, [], Initial(cfg));
    WhatRemains(cfg, evs, s);
  }
}
