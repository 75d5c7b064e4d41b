/** What every worker of a snapstorm run has really done when it is over, step by step. */
module SnapHistory {
  import opened Counting
  import opened SnapStorm

  /** The state after the steps of a run, leaving out steps that could not be taken. */
  function StateAfter(n: nat, evs: seq<Event>): State {
    if evs == [] then Initial(n)
    else
      var r, ev := StateAfter(n, evs[..|evs| - 1]), evs[|evs| - 1];
      if Enabled(r, ev) then Step(r, ev) else r
  }

  lemma {:induction false} ReachesStateAfter(n: nat, evs: seq<Event>, s: State)
    requires Reaches(n, evs, s)
    ensures s == StateAfter(n, evs)
    ensures forall k :: 0 <= k <= |evs| ==> Reaches(n, evs[..k], StateAfter(n, evs[..k]))
  {
    assert evs[..|evs|] == evs;
    if evs != [] {
      var front, ev := evs[..|evs| - 1], evs[|evs| - 1];
      var r :| Reaches(n, front, r) && Leads(r, ev, s);
      ReachesStateAfter(n, front, r);
      forall k | 0 <= k <= |evs|
        ensures Reaches(n, evs[..k], StateAfter(n, evs[..k]))
      {
        if k < |evs| {
          assert evs[..k] == front[..k];
        }
      }
    }
  }

  /** Step k of the run was worker i's step from w: the lock, increment or call named by w. */
  predicate Did(n: nat, evs: seq<Event>, k: nat, i: nat, w: Worker)
    requires k < |evs|
  {
    evs[k] == WorkerStep(i) && i < |StateAfter(n, evs[..k]).workers| && StateAfter(n, evs[..k]).workers[i] == w
  }

  /** The things a worker does once, and where it is when it has done them. */
  predicate Once(w: Worker) {
    w == Ready || w == Snap || w == Finish
  }

  predicate HasDone(w: Worker, at: Worker) {
    match w
    case Ready => at in {Test, Asleep, Woken, UnlockStart, Snap, LockEnd, Finish, UnlockEnd, Worker.Gone}
    case Snap => at in {LockEnd, Finish, UnlockEnd, Worker.Gone}
    case Finish => at in {UnlockEnd, Worker.Gone}
    case _ => false
  }

  lemma WorkerDoes(s: State, j: nat, i: nat, w: Worker)
    requires j < |s.workers| && WorkerEnabled(s, j) && i < |s.workers| && Once(w)
    ensures var s' := WorkerNext(s, j);
      && i < |s'.workers|
      && (HasDone(w, s'.workers[i]) <==> HasDone(w, s.workers[i]) || (i == j && s.workers[i] == w))
  {
  }

  lemma MainDoes(s: State, i: nat, w: Worker)
    requires MainEnabled(s) && i < |s.workers| && Once(w)
    requires s.main.Spawning? && s.main.i <= i ==> s.workers[i] == Unborn
    ensures i < |MainNext(s).workers| && (HasDone(w, MainNext(s).workers[i]) <==> HasDone(w, s.workers[i]))
  {
  }

  lemma StepDoes(s: State, ev: Event, i: nat, w: Worker)
    requires Enabled(s, ev) && Inv(s) && i < |s.workers| == |Step(s, ev).workers| && Once(w)
    ensures HasDone(w, Step(s, ev).workers[i])
       <==> HasDone(w, s.workers[i]) || (ev == WorkerStep(i) && s.workers[i] == w)
    ensures ev == WorkerStep(i) && s.workers[i] == w ==> !HasDone(w, s.workers[i])
  {
    match ev
    case MainStep =>
      assert WorkerOk(i, s.workers[i], s);
      MainDoes(s, i, w);
    case WorkerStep(j) => WorkerDoes(s, j, i, w);
    case Spurious(j) =>
  }

  ghost predicate DidBy(n: nat, evs: seq<Event>, i: nat, w: Worker) {
    exists k :: 0 <= k < |evs| && Did(n, evs, k, i, w)
  }

  ghost predicate AtMostOnce(n: nat, evs: seq<Event>, i: nat, w: Worker) {
    forall k, k' :: 0 <= k < k' < |evs| ==> !(Did(n, evs, k, i, w) && Did(n, evs, k', i, w))
  }

  lemma DidBefore(n: nat, evs: seq<Event>, m: nat, k: nat, i: nat, w: Worker)
    requires k < m <= |evs|
    ensures Did(n, evs[..m], k, i, w) == Did(n, evs, k, i, w)
  {
    assert evs[..m][..k] == evs[..k];
  }

  /** A worker has done a thing exactly when it is past it, and never twice. */
  lemma {:induction false} DoneOnce(n: nat, evs: seq<Event>, s: State, i: nat, w: Worker)
    requires Reaches(n, evs, s) && i < n && Once(w)
    ensures |s.workers| == n && (DidBy(n, evs, i, w) <==> HasDone(w, s.workers[i])) && AtMostOnce(n, evs, i, w)
  {
    ReachableInv(n, evs, s);
    if evs != [] {
      var m := |evs| - 1;
      var front, ev := evs[..m], evs[m];
      var r :| Reaches(n, front, r) && Leads(r, ev, s);
      ReachableInv(n, front, r);
      ReachesStateAfter(n, front, r);
      DoneOnce(n, front, r, i, w);
      StepDoes(r, ev, i, w);
      forall k | 0 <= k < m
        ensures Did(n, front, k, i, w) == Did(n, evs, k, i, w)
      {
        DidBefore(n, evs, m, k, i, w);
      }
      assert Did(n, evs, m, i, w) <==> ev == WorkerStep(i) && r.workers[i] == w;
      DidExtends(n, front, evs, i, w);
    }
  }

  lemma DidExtends(n: nat, front: seq<Event>, evs: seq<Event>, i: nat, w: Worker)
    requires |evs| == |front| + 1
    requires forall k :: 0 <= k < |front| ==> Did(n, front, k, i, w) == Did(n, evs, k, i, w)
    ensures DidBy(n, evs, i, w) <==> DidBy(n, front, i, w) || Did(n, evs, |front|, i, w)
    ensures AtMostOnce(n, front, i, w) && !(DidBy(n, front, i, w) && Did(n, evs, |front|, i, w))
            ==> AtMostOnce(n, evs, i, w)
  {
    if DidBy(n, front, i, w) {
      var k :| 0 <= k < |front| && Did(n, front, k, i, w);
      assert Did(n, evs, k, i, w);
    }
  }

  /** Before step k some step of worker i was the one named by w. */
  lemma DidEarlier(n: nat, evs: seq<Event>, s: State, k: nat, i: nat, w: Worker) returns (e: nat)
    requires Reaches(n, evs, s) && k <= |evs| && i < n && Once(w)
    requires |StateAfter(n, evs[..k]).workers| == n && HasDone(w, StateAfter(n, evs[..k]).workers[i])
    ensures e < k && Did(n, evs, e, i, w)
  {
    ReachesStateAfter(n, evs, s);
    DoneOnce(n, evs[..k], StateAfter(n, evs[..k]), i, w);
    e :| 0 <= e < k && Did(n, evs[..k], e, i, w);
    DidBefore(n, evs, k, e, i, w);
  }

  /** Worker i did the thing named by w in one of the first k steps. */
  ghost predicate DidSoFar(n: nat, evs: seq<Event>, k: nat, i: nat, w: Worker)
    requires k <= |evs|
  {
    exists e :: 0 <= e < k && Did(n, evs, e, i, w)
  }

  /** When main is done, every worker has taken its snapshot exactly once: with the flag set, after
      every worker had counted itself ready, and before it counted itself finished. */
  lemma EverySnapshotTaken(n: nat, evs: seq<Event>, s: State, i: nat) returns (k: nat)
    requires Reaches(n, evs, s) && s.main == Main.Done && i < n
    ensures k < |evs| && Did(n, evs, k, i, Snap)
    ensures forall k' :: 0 <= k' < |evs| && Did(n, evs, k', i, Snap) ==> k' == k
    ensures StateAfter(n, evs[..k]).canStart
    ensures forall j :: 0 <= j < n ==> DidSoFar(n, evs, k, j, Ready)
    ensures exists f :: k < f < |evs| && Did(n, evs, f, i, Finish)
  {
    StartBarrier(n, evs, s);
    ReachesStateAfter(n, evs, s);
    assert evs[..|evs|] == evs;
    DoneOnce(n, evs, s, i, Snap);
    k := DidEarlier(n, evs, s, |evs|, i, Snap);
    FlagAtSnapshot(n, evs, s, k, i);
    AllReadyBefore(n, evs, s, k, i);
    var f := DidEarlier(n, evs, s, |evs|, i, Finish);
    FinishAfterSnap(n, evs, s, k, f, i);
  }

  lemma AllReadyBefore(n: nat, evs: seq<Event>, s: State, k: nat, i: nat)
    requires Reaches(n, evs, s) && k < |evs| && i < n && Did(n, evs, k, i, Snap)
    ensures forall j :: 0 <= j < n ==> DidSoFar(n, evs, k, j, Ready)
  {
    FlagAtSnapshot(n, evs, s, k, i);
    forall j | 0 <= j < n
      ensures DidSoFar(n, evs, k, j, Ready)
    {
      assert HasDone(Ready, StateAfter(n, evs[..k]).workers[j]);
      var e := DidEarlier(n, evs, s, k, j, Ready);
    }
  }

  lemma FlagAtSnapshot(n: nat, evs: seq<Event>, s: State, k: nat, i: nat)
    requires Reaches(n, evs, s) && k < |evs| && i < n && Did(n, evs, k, i, Snap)
    ensures var r := StateAfter(n, evs[..k]);
      r.canStart && |r.workers| == n && forall j :: 0 <= j < n ==> HasDone(Ready, r.workers[j])
  {
    var r := StateAfter(n, evs[..k]);
    ReachesStateAfter(n, evs, s);
    StartBarrier(n, evs[..k], r);
    assert !BeforeGo(r.workers[i]);
    forall j | 0 <= j < n
      ensures HasDone(Ready, r.workers[j])
    {
      assert CountedReady(r.workers[j]);
    }
  }

  lemma FinishAfterSnap(n: nat, evs: seq<Event>, s: State, k: nat, f: nat, i: nat)
    requires Reaches(n, evs, s) && k < |evs| && f < |evs| && i < n
    requires Did(n, evs, k, i, Snap) && Did(n, evs, f, i, Finish)
    ensures k < f
  {
    ReachesStateAfter(n, evs, s);
    ReachableInv(n, evs[..f], StateAfter(n, evs[..f]));
    var e := DidEarlier(n, evs, s, f, i, Snap);
    DoneOnce(n, evs, s, i, Snap);
  }
}
