/** The start barrier and the end counter of snapstorm: worker threads that wait on a condition
    variable until all are ready, take their snapshot and count themselves out, and a main thread
    that polls both counters. Every access is a step of its own, steps interleave freely, and a
    waiting thread may wake spuriously. */
module SnapStorm {
  import opened Counting

  /** The next thing a worker does. Those named Lock need a free mutex. */
  datatype Worker =
    | Unborn
    | LockStart   // lock m_start
    | Ready       // nr_ready++
    | Test        // while (!can_start)
    | Asleep      // in pthread_cond_wait, mutex released
    | Woken       // in pthread_cond_wait, about to lock m_start again
    | UnlockStart
    | Snap
    | LockEnd
    | Finish      // nr_finished++
    | UnlockEnd
    | Gone

  datatype Main =
    | Spawning(i: nat)
    | LockReady | TestReady | UnlockPoll | SleepReady | UnlockReady
    | LockGo | SetGo | Broadcast | UnlockGo
    | LockDone | TestDone | UnlockDonePoll | SleepDone | Done

  datatype Owner = Free | ByMain | By(i: nat)

  datatype State = State(workers: seq<Worker>, main: Main, start: Owner, end: Owner,
                         canStart: bool, ready: nat, finished: nat)

  datatype Event = MainStep | WorkerStep(i: nat) | Spurious(i: nat)

  function Initial(n: nat): State {
    State(seq(n, i => Unborn), Spawning(0), Free, Free, false, 0, 0)
  }

  predicate HoldsStart(w: Worker) {
    w == Ready || w == Test || w == UnlockStart
  }

  predicate HoldsEnd(w: Worker) {
    w == Finish || w == UnlockEnd
  }

  predicate MainHoldsStart(m: Main) {
    m in {TestReady, UnlockPoll, UnlockReady, SetGo, Broadcast, UnlockGo}
  }

  predicate MainHoldsEnd(m: Main) {
    m in {TestDone, UnlockDonePoll, Done}
  }

  predicate WorkerEnabled(s: State, i: nat)
    requires i < |s.workers|
  {
    match s.workers[i]
    case Unborn => false
    case LockStart => s.start == Free
    case Asleep => false
    case Woken => s.start == Free
    case LockEnd => s.end == Free
    case Gone => false
    case _ => true
  }

  predicate MainEnabled(s: State) {
    match s.main
    case LockReady => s.start == Free
    case LockGo => s.start == Free
    case LockDone => s.end == Free
    case Done => false
    case _ => true
  }

  predicate Enabled(s: State, ev: Event) {
    match ev
    case MainStep => MainEnabled(s)
    case WorkerStep(i) => i < |s.workers| && WorkerEnabled(s, i)
    case Spurious(i) => i < |s.workers| && s.workers[i] == Asleep
  }

  function At(s: State, i: nat, w: Worker): State
    requires i < |s.workers|
  {
    s.(workers := s.workers[i := w])
  }

  function WorkerNext(s: State, i: nat): State
    requires i < |s.workers| && WorkerEnabled(s, i)
  {
    match s.workers[i]
    case LockStart => At(s, i, Ready).(start := By(i))
    case Ready => At(s, i, Test).(ready := s.ready + 1)
    case Test => if s.canStart then At(s, i, UnlockStart) else At(s, i, Asleep).(start := Free)
    case Woken => At(s, i, Test).(start := By(i))
    case UnlockStart => At(s, i, Snap).(start := Free)
    case Snap => At(s, i, LockEnd)
    case LockEnd => At(s, i, Finish).(end := By(i))
    case Finish => At(s, i, UnlockEnd).(finished := s.finished + 1)
    case UnlockEnd => At(s, i, Gone).(end := Free)
    case _ => s
  }

  function WakeAll(ws: seq<Worker>): seq<Worker> {
    seq(|ws|, i requires 0 <= i < |ws| => if ws[i] == Asleep then Woken else ws[i])
  }

  function MainNext(s: State): State
    requires MainEnabled(s)
  {
    var n := |s.workers|;
    match s.main
    case Spawning(i) => if i < n then At(s, i, LockStart).(main := Spawning(i + 1)) else s.(main := LockReady)
    case LockReady => s.(main := TestReady, start := ByMain)
    case TestReady => s.(main := if s.ready < n then UnlockPoll else UnlockReady)
    case UnlockPoll => s.(main := SleepReady, start := Free)
    case SleepReady => s.(main := LockReady)
    case UnlockReady => s.(main := LockGo, start := Free)
    case LockGo => s.(main := SetGo, start := ByMain)
    case SetGo => s.(main := Broadcast, canStart := true)
    case Broadcast => s.(main := UnlockGo, workers := WakeAll(s.workers))
    case UnlockGo => s.(main := LockDone, start := Free)
    case LockDone => s.(main := TestDone, end := ByMain)
    case TestDone => s.(main := if s.finished < n then UnlockDonePoll else Done)
    case UnlockDonePoll => s.(main := SleepDone, end := Free)
    case SleepDone => s.(main := LockDone)
    case Done => s
  }

  function Step(s: State, ev: Event): State
    requires Enabled(s, ev)
  {
    match ev
    case MainStep => MainNext(s)
    case WorkerStep(i) => WorkerNext(s, i)
    case Spurious(i) => At(s, i, Woken)
  }

  // ----- the invariant

  predicate CountedReady(w: Worker) {
    w != Unborn && w != LockStart && w != Ready
  }

  predicate CountedFinished(w: Worker) {
    w == UnlockEnd || w == Gone
  }

  predicate BeforeGo(w: Worker) {
    w == Unborn || w == LockStart || w == Ready || w == Test || w == Asleep || w == Woken
  }

  predicate PastSet(m: Main) {
    m in {Broadcast, UnlockGo, LockDone, TestDone, UnlockDonePoll, SleepDone, Done}
  }

  predicate PastReady(m: Main) {
    m in {UnlockReady, LockGo, SetGo} || PastSet(m)
  }

  predicate PastBroadcast(m: Main) {
    PastSet(m) && m != Broadcast
  }

  /** How one worker stands to the locks, the flag and main. */
  predicate WorkerOk(i: nat, w: Worker, s: State) {
    && (s.start == By(i) <==> HoldsStart(w))
    && (s.end == By(i) <==> HoldsEnd(w))
    && (!s.canStart ==> BeforeGo(w))
    && (PastBroadcast(s.main) ==> w != Asleep)
    && (w == Unborn <==> s.main.Spawning? && s.main.i <= i)
  }

  ghost predicate WorkersOk(s: State) {
    forall i :: 0 <= i < |s.workers| ==> WorkerOk(i, s.workers[i], s)
  }

  predicate LocksOk(s: State) {
    && (s.start == ByMain <==> MainHoldsStart(s.main))
    && (s.end == ByMain <==> MainHoldsEnd(s.main))
    && (s.start.By? ==> s.start.i < |s.workers|)
    && (s.end.By? ==> s.end.i < |s.workers|)
  }

  ghost predicate CountsOk(s: State) {
    && (s.canStart <==> PastSet(s.main))
    && s.ready == Count(s.workers, CountedReady) <= |s.workers|
    && s.finished == Count(s.workers, CountedFinished) <= |s.workers|
    && (PastReady(s.main) ==> s.ready == |s.workers|)
    && (s.main == Done ==> s.finished == |s.workers|)
  }

  ghost predicate Inv(s: State) {
    WorkersOk(s) && LocksOk(s) && CountsOk(s)
  }

  lemma InitialInv(n: nat)
    ensures Inv(Initial(n))
  {
    CountAll(Initial(n).workers, CountedReady);
    CountAll(Initial(n).workers, CountedFinished);
  }

  /** A lock changes hands only from free to the given worker or back. */
  predicate OwnLock(o: Owner, o': Owner, i: nat) {
    o' == o || (o == Free && o' == By(i)) || (o == By(i) && o' == Free)
  }

  /** What a worker's step may change, and that it leaves the worker's own share in order. */
  lemma WorkerLocal(s: State, i: nat)
    requires i < |s.workers| && WorkerEnabled(s, i) && WorkerOk(i, s.workers[i], s)
    requires s.canStart <==> PastSet(s.main)
    ensures var s' := WorkerNext(s, i);
      && WorkerOk(i, s'.workers[i], s')
      && s'.workers == s.workers[i := s'.workers[i]]
      && s'.main == s.main && s'.canStart == s.canStart
      && OwnLock(s.start, s'.start, i) && OwnLock(s.end, s'.end, i)
      && s'.ready == s.ready + (if s.workers[i] == Ready then 1 else 0)
      && s'.finished == s.finished + (if s.workers[i] == Finish then 1 else 0)
      && (CountedReady(s'.workers[i]) <==> CountedReady(s.workers[i]) || s.workers[i] == Ready)
      && (CountedFinished(s'.workers[i]) <==> CountedFinished(s.workers[i]) || s.workers[i] == Finish)
  {
  }

  lemma OthersOk(s: State, s': State, i: nat)
    requires WorkersOk(s)
    requires i < |s.workers| == |s'.workers| && s'.workers == s.workers[i := s'.workers[i]]
    requires WorkerOk(i, s'.workers[i], s')
    requires s'.main == s.main && s'.canStart == s.canStart
    requires OwnLock(s.start, s'.start, i) && OwnLock(s.end, s'.end, i)
    ensures WorkersOk(s')
  {
    forall j | 0 <= j < |s.workers|
      ensures WorkerOk(j, s'.workers[j], s')
    {
      assert WorkerOk(j, s.workers[j], s);
    }
  }

  lemma WorkerKeepsInv(s: State, i: nat)
    requires Inv(s) && i < |s.workers| && WorkerEnabled(s, i)
    ensures Inv(WorkerNext(s, i))
  {
    var s' := WorkerNext(s, i);
    WorkerLocal(s, i);
    OthersOk(s, s', i);
    CountUpdate(s.workers, CountedReady, i, s'.workers[i]);
    CountUpdate(s.workers, CountedFinished, i, s'.workers[i]);
    CountAll(s'.workers, CountedReady);
    CountAll(s'.workers, CountedFinished);
  }

  lemma SpuriousKeepsInv(s: State, i: nat)
    requires Inv(s) && i < |s.workers| && s.workers[i] == Asleep
    ensures Inv(At(s, i, Woken))
  {
    assert WorkerOk(i, s.workers[i], s);
    OthersOk(s, At(s, i, Woken), i);
    CountUpdate(s.workers, CountedReady, i, Woken);
    CountUpdate(s.workers, CountedFinished, i, Woken);
  }

  /** Main's steps that leave the workers alone. */
  predicate MainAlone(s: State) {
    MainEnabled(s) && s.main != Broadcast && !(s.main.Spawning? && s.main.i < |s.workers|)
  }

  lemma MainLeavesWorkers(s: State, j: nat)
    requires Inv(s) && MainAlone(s) && j < |s.workers|
    ensures WorkerOk(j, s.workers[j], MainNext(s))
  {
    assert WorkerOk(j, s.workers[j], s);
  }

  lemma MainKeepsLocks(s: State)
    requires LocksOk(s) && MainAlone(s)
    ensures LocksOk(MainNext(s)) && MainNext(s).workers == s.workers
  {
  }

  lemma MainKeepsCounts(s: State)
    requires CountsOk(s) && MainAlone(s)
    ensures CountsOk(MainNext(s))
  {
  }

  lemma MainAloneKeepsInv(s: State)
    requires Inv(s) && MainAlone(s)
    ensures Inv(MainNext(s))
  {
    MainKeepsLocks(s);
    MainKeepsCounts(s);
    forall j | 0 <= j < |s.workers|
      ensures WorkerOk(j, s.workers[j], MainNext(s))
    {
      MainLeavesWorkers(s, j);
    }
  }

  lemma SpawnKeepsInv(s: State)
    requires Inv(s) && s.main.Spawning? && s.main.i < |s.workers|
    ensures Inv(MainNext(s))
  {
    var s', i := MainNext(s), s.main.i;
    CountUpdate(s.workers, CountedReady, i, LockStart);
    CountUpdate(s.workers, CountedFinished, i, LockStart);
    assert WorkerOk(i, s.workers[i], s);
    forall j | 0 <= j < |s.workers|
      ensures WorkerOk(j, s'.workers[j], s')
    {
      assert WorkerOk(j, s.workers[j], s);
    }
  }

  lemma {:induction false} WakingCounts(ws: seq<Worker>)
    ensures Count(WakeAll(ws), CountedReady) == Count(ws, CountedReady)
    ensures Count(WakeAll(ws), CountedFinished) == Count(ws, CountedFinished)
  {
    if ws != [] {
      var k := |ws| - 1;
      WakingCounts(ws[..k]);
      assert WakeAll(ws)[..k] == WakeAll(ws[..k]);
    }
  }

  lemma BroadcastKeepsInv(s: State)
    requires Inv(s) && s.main == Broadcast
    ensures Inv(MainNext(s))
  {
    var s' := MainNext(s);
    WakingCounts(s.workers);
    forall j | 0 <= j < |s.workers|
      ensures WorkerOk(j, s'.workers[j], s')
    {
      assert WorkerOk(j, s.workers[j], s);
    }
  }

  lemma StepKeepsInv(s: State, ev: Event)
    requires Inv(s) && Enabled(s, ev)
    ensures Inv(Step(s, ev)) && |Step(s, ev).workers| == |s.workers|
  {
    match ev
    case WorkerStep(i) => WorkerKeepsInv(s, i);
    case Spurious(i) => SpuriousKeepsInv(s, i);
    case MainStep =>
      if s.main == Broadcast {
        BroadcastKeepsInv(s);
      } else if s.main.Spawning? && s.main.i < |s.workers| {
        SpawnKeepsInv(s);
      } else {
        MainAloneKeepsInv(s);
      }
  }

  predicate Leads(r: State, ev: Event, s: State) {
    Enabled(r, ev) && s == Step(r, ev)
  }

  /** s is reachable by the given steps of n threads and main. */
  ghost predicate Reaches(n: nat, evs: seq<Event>, s: State) {
    if evs == [] then s == Initial(n)
    else
      var front, ev := evs[..|evs| - 1], evs[|evs| - 1];
      exists r :: Reaches(n, front, r) && Leads(r, ev, s)
  }

  lemma {:induction false} ReachableInv(n: nat, evs: seq<Event>, s: State)
    requires Reaches(n, evs, s)
    ensures Inv(s) && |s.workers| == n
  {
    if evs == [] {
      InitialInv(n);
    } else {
      var ev := evs[|evs| - 1];
      var r :| Reaches(n, evs[..|evs| - 1], r) && Leads(r, ev, s);
      ReachableInv(n, evs[..|evs| - 1], r);
      StepKeepsInv(r, ev);
    }
  }

  // ----- safety

  /** In every reachable state of n threads: the flag means all are ready, no snapshot is taken
      before the flag, and main is done only when every worker has counted itself out. */
  lemma StartBarrier(n: nat, evs: seq<Event>, s: State)
    requires Reaches(n, evs, s)
    ensures |s.workers| == n
    ensures s.canStart ==> s.ready == n && forall i :: 0 <= i < n ==> CountedReady(s.workers[i])
    ensures (exists i :: 0 <= i < n && !BeforeGo(s.workers[i])) ==> s.canStart
    ensures s.main == Done ==> forall i :: 0 <= i < n ==> s.workers[i] == Gone
  {
    ReachableInv(n, evs, s);
    CountAll(s.workers, CountedReady);
    CountAll(s.workers, CountedFinished);
    forall i | 0 <= i < n
      ensures !BeforeGo(s.workers[i]) ==> s.canStart
      ensures s.main == Done ==> s.workers[i] != UnlockEnd
    {
      assert WorkerOk(i, s.workers[i], s);
    }
  }

  /** Both mutexes exclude: at most one thread is ever inside either critical section. */
  lemma MutualExclusion(n: nat, evs: seq<Event>, s: State, i: nat, j: nat)
    requires Reaches(n, evs, s) && i < j < n
    ensures |s.workers| == n
    ensures !(HoldsStart(s.workers[i]) && HoldsStart(s.workers[j]))
    ensures !(HoldsEnd(s.workers[i]) && HoldsEnd(s.workers[j]))
    ensures HoldsStart(s.workers[i]) ==> !MainHoldsStart(s.main)
    ensures HoldsEnd(s.workers[i]) ==> !MainHoldsEnd(s.main)
  {
    ReachableInv(n, evs, s);
    assert WorkerOk(i, s.workers[i], s) && WorkerOk(j, s.workers[j], s);
  }

  /** No lost wakeup: from the broadcast on no worker is asleep, then or at the end of any longer
      run. */
  lemma NoLostWakeup(n: nat, evs: seq<Event>, more: seq<Event>, s: State, t: State, i: nat)
    requires Reaches(n, evs, s) && PastBroadcast(s.main) && Reaches(n, evs + more, t) && i < n
    ensures |s.workers| == |t.workers| == n && PastBroadcast(t.main)
    ensures s.workers[i] != Asleep && t.workers[i] != Asleep
  {
    BroadcastIsForGood(n, evs, more, s, t);
    ReachableInv(n, evs, s);
    ReachableInv(n, evs + more, t);
    assert WorkerOk(i, s.workers[i], s) && WorkerOk(i, t.workers[i], t);
  }

  lemma {:induction false} BroadcastIsForGood(n: nat, evs: seq<Event>, more: seq<Event>, s: State, t: State)
    requires Reaches(n, evs, s) && PastBroadcast(s.main) && Reaches(n, evs + more, t)
    ensures PastBroadcast(t.main)
  {
    if more == [] {
      assert evs + more == evs;
      OneState(n, evs, s, t);
    } else {
      var k := |more| - 1;
      assert (evs + more)[..|evs + more| - 1] == evs + more[..k] && (evs + more)[|evs + more| - 1] == more[k];
      var r :| Reaches(n, evs + more[..k], r) && Leads(r, more[k], t);
      BroadcastIsForGood(n, evs, more[..k], s, r);
      PastBroadcastStays(r, more[k]);
    }
  }

  /** The steps of a run determine the state it reaches. */
  lemma {:induction false} OneState(n: nat, evs: seq<Event>, s: State, t: State)
    requires Reaches(n, evs, s) && Reaches(n, evs, t)
    ensures s == t
  {
    if evs != [] {
      var front, ev := evs[..|evs| - 1], evs[|evs| - 1];
      var q :| Reaches(n, front, q) && Leads(q, ev, s);
      var r :| Reaches(n, front, r) && Leads(r, ev, t);
      OneState(n, front, q, r);
    }
  }

  lemma PastBroadcastStays(s: State, ev: Event)
    requires PastBroadcast(s.main) && Enabled(s, ev)
    ensures PastBroadcast(Step(s, ev).main)
  {
  }

  // ----- progress

  /** While main polls for readiness with its guard true, some worker can step. */
  lemma ReadyProgress(s: State)
    requires Inv(s) && (s.main == SleepReady || s.main == LockReady) && s.ready < |s.workers|
    ensures exists i :: 0 <= i < |s.workers| && WorkerEnabled(s, i)
  {
    CountAll(s.workers, CountedReady);
    if s.start.By? {
      assert WorkerOk(s.start.i, s.workers[s.start.i], s);
      assert WorkerEnabled(s, s.start.i);
    } else {
      var i :| 0 <= i < |s.workers| && !CountedReady(s.workers[i]);
      assert WorkerOk(i, s.workers[i], s);
      assert WorkerEnabled(s, i);
    }
  }

  /** While main polls for the end with its guard true, some worker can step. */
  lemma DoneProgress(s: State)
    requires Inv(s) && (s.main == SleepDone || s.main == LockDone) && s.finished < |s.workers|
    ensures exists i :: 0 <= i < |s.workers| && WorkerEnabled(s, i)
  {
    CountAll(s.workers, CountedFinished);
    if s.start.By? {
      assert WorkerOk(s.start.i, s.workers[s.start.i], s);
      assert WorkerEnabled(s, s.start.i);
    } else if s.end.By? {
      assert WorkerOk(s.end.i, s.workers[s.end.i], s);
      assert WorkerEnabled(s, s.end.i);
    } else {
      var i :| 0 <= i < |s.workers| && !CountedFinished(s.workers[i]);
      assert WorkerOk(i, s.workers[i], s);
      assert WorkerEnabled(s, i);
    }
  }

  /** No deadlock: until main is done, main or a worker can step without a spurious wakeup. */
  lemma NoDeadlock(n: nat, evs: seq<Event>, s: State)
    requires Reaches(n, evs, s) && s.main != Done
    ensures |s.workers| == n
    ensures MainEnabled(s) || exists i :: 0 <= i < n && WorkerEnabled(s, i)
  {
    ReachableInv(n, evs, s);
    if s.start.By? {
      assert WorkerOk(s.start.i, s.workers[s.start.i], s);
      assert WorkerEnabled(s, s.start.i);
    } else if s.end.By? {
      assert WorkerOk(s.end.i, s.workers[s.end.i], s);
      assert WorkerEnabled(s, s.end.i);
    }
  }

  /** How many steps a worker has left before it must wait for somebody or is gone. */
  function Rank(w: Worker): nat {
    match w
    case Unborn => 12
    case LockStart => 11
    case Ready => 10
    case Woken => 9
    case Test => 8
    case Asleep => 7
    case UnlockStart => 6
    case Snap => 5
    case LockEnd => 4
    case Finish => 3
    case UnlockEnd => 2
    case Gone => 1
  }

  function TotalRank(ws: seq<Worker>): nat {
    if ws == [] then 0 else TotalRank(ws[..|ws| - 1]) + Rank(ws[|ws| - 1])
  }

  lemma {:induction false} RankUpdate(ws: seq<Worker>, i: nat, w: Worker)
    requires i < |ws|
    ensures TotalRank(ws[i := w]) == TotalRank(ws) - Rank(ws[i]) + Rank(w)
  {
    var k := |ws| - 1;
    if i < k {
      RankUpdate(ws[..k], i, w);
      assert ws[i := w][..k] == ws[..k][i := w];
    } else {
      assert ws[i := w][..k] == ws[..k];
    }
  }

  /** Every step of a worker that is not a spurious wakeup lowers the total rank. */
  lemma WorkerStepFalls(s: State, i: nat)
    requires i < |s.workers| && WorkerEnabled(s, i)
    ensures TotalRank(WorkerNext(s, i).workers) < TotalRank(s.workers)
  {
    RankUpdate(s.workers, i, WorkerNext(s, i).workers[i]);
  }

  ghost predicate WorkersOnly(s: State, steps: seq<nat>, t: State) {
    if steps == [] then t == s
    else
      var front, i := steps[..|steps| - 1], steps[|steps| - 1];
      exists r :: WorkersOnly(s, front, r) && Leads(r, WorkerStep(i), t)
  }

  lemma {:induction false} WorkersOnlyBounded(s: State, steps: seq<nat>, t: State)
    requires Inv(s) && WorkersOnly(s, steps, t)
    ensures Inv(t) && t.main == s.main && |t.workers| == |s.workers|
    ensures |steps| + TotalRank(t.workers) <= TotalRank(s.workers)
  {
    if steps != [] {
      var i := steps[|steps| - 1];
      var r :| WorkersOnly(s, steps[..|steps| - 1], r) && Leads(r, WorkerStep(i), t);
      WorkersOnlyBounded(s, steps[..|steps| - 1], r);
      WorkerKeepsInv(r, i);
      WorkerLocal(r, i);
      WorkerStepFalls(r, i);
    }
  }

  /** Polling ends: while main sleeps between two looks, the workers can take no more steps than
      their total rank, and once they can take none the guard main is about to test is false. */
  lemma PollingEnds(n: nat, evs: seq<Event>, s: State, steps: seq<nat>, t: State)
    requires Reaches(n, evs, s) && (s.main == SleepReady || s.main == SleepDone)
    requires WorkersOnly(s, steps, t)
    ensures |steps| <= TotalRank(s.workers) && |t.workers| == n
    ensures (forall i :: 0 <= i < n ==> !WorkerEnabled(t, i)) ==>
              if s.main == SleepReady then t.ready == n else t.finished == n
  {
    ReachableInv(n, evs, s);
    WorkersOnlyBounded(s, steps, t);
    CountAll(t.workers, CountedReady);
    CountAll(t.workers, CountedFinished);
    if t.main == SleepReady && t.ready < n {
      ReadyProgress(t);
    }
    if t.main == SleepDone && t.finished < n {
      DoneProgress(t);
    }
  }
}
