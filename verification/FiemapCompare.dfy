/** The window loop of compare_fiemap_and_map: what it accepts, for every window size. */
module FiemapCompare {
  import opened Arithmetic
  import opened FiemapExtents
  import opened FiemapChecker

  const MAX_INT := 0x7fff_ffff

  predicate IsLastData(layout: string, i: nat) {
    i < |layout| && layout[i] != 'H' && forall j :: i < j < |layout| ==> layout[j] == 'H'
  }

  /** The simple per-block demand, with no windows and no scans. weird answers the probe that
      tolerates a zero-filled block where a hole was wanted. */
  ghost predicate BlockOk(es: seq<Extent>, layout: string, bs: nat, i: nat, weird: nat -> bool)
    requires bs > 0 && i < |layout|
  {
    match layout[i]
    case 'D' => if IsLastData(layout, i) then CoveredWith(es, bs * i, bs, EXTENT_LAST) else Covered(es, bs * i, bs)
    case 'P' => if IsLastData(layout, i) then CoveredWith(es, bs * i, bs, EXTENT_LAST) else Covered(es, bs * i, bs)
    case 'H' => weird(bs * i) || !Covered(es, bs * i, bs)
    case _ => false
  }

  predicate WindowStart(w: nat, k: nat)
    requires k > 0
  {
    w % k == 0
  }

  /** What one FIEMAP call made at block w for k blocks returns when nothing is cut off. */
  function Window(es: seq<Extent>, w: nat, k: nat, bs: nat): seq<Extent> {
    Overlapping(es, bs * w, bs * k)
  }

  /** The verdict on the blocks below cur: the flags of every window that starts there and the
      per-block demand. */
  ghost predicate AcceptsUpTo(es: seq<Extent>, layout: string, bs: nat, k: nat, weird: nat -> bool, cur: nat)
    requires bs > 0 && k > 0 && cur <= |layout|
  {
    && (forall w :: 0 <= w < cur && WindowStart(w, k) ==> FlagsOk(Window(es, w, k, bs), bs))
    && (forall i :: 0 <= i < cur ==> BlockOk(es, layout, bs, i, weird))
  }

  ghost predicate Accepts(es: seq<Extent>, layout: string, bs: nat, k: nat, weird: nat -> bool)
    requires bs > 0 && k > 0
  {
    AcceptsUpTo(es, layout, bs, k, weird, |layout|)
  }

  /** A block of the window is covered in the slice exactly when it is covered in the whole list. */
  lemma BlockInWindow(es: seq<Extent>, layout: string, bs: nat, w: nat, k: nat, i: nat, weird: nat -> bool)
    requires bs > 0 && k > 0 && w <= i < w + k && i < |layout|
    ensures BlockOk(Window(es, w, k, bs), layout, bs, i, weird) <==> BlockOk(es, layout, bs, i, weird)
  {
    var win, off := Window(es, w, k, bs), bs * i;
    MulMono(bs, w, i);
    MulSucc(bs, i);
    MulMono(bs, i + 1, w + k);
    assert bs * (w + k) == bs * w + bs * k;
    SliceMembers(es, bs * w, bs * k);
    assert Covered(win, off, bs) <==> exists e :: e in win && e.Covers(off, bs);
    assert Covered(es, off, bs) <==> exists e :: e in es && e.Covers(off, bs);
    assert CoveredWith(win, off, bs, EXTENT_LAST) <==> exists e :: e in win && e.Covers(off, bs) && e.Has(EXTENT_LAST);
    assert CoveredWith(es, off, bs, EXTENT_LAST) <==> exists e :: e in es && e.Covers(off, bs) && e.Has(EXTENT_LAST);
  }

  /** What a comparison has done so far: the first block of every FIEMAP call, and for every block
      checked the first block of its window and the block. */
  class Trace {
    ghost var calls: seq<nat>
    ghost var checks: seq<(nat, nat)>

    ghost constructor ()
      ensures calls == [] && checks == []
    {
      calls, checks := [], [];
    }
  }

  /** The first n blocks of the window at w. */
  function InWindow(w: nat, n: nat): seq<(nat, nat)> {
    seq(n, j requires j >= 0 => (w, w + j))
  }

  /** Every block once, in order, each inside the window it was checked in. */
  ghost predicate EachBlockOnce(checks: seq<(nat, nat)>, k: nat)
    requires k > 0
  {
    forall j :: 0 <= j < |checks| ==>
      checks[j].1 == j && WindowStart(checks[j].0, k) && checks[j].0 <= j < checks[j].0 + k
  }

  method Fiemap(es: seq<Extent>, bs: nat, cur: nat, k: nat, ghost trace: Trace) returns (fm: seq<Extent>)
    modifies trace`calls
    ensures fm == FiemapCall(es, bs * cur, bs * k, k) && trace.calls == old(trace.calls) + [cur]
  {
    trace.calls := trace.calls + [cur];
    fm := FiemapCall(es, bs * cur, bs * k, k);
  }

  /** The scans on the slice decide the per-block demand on the whole list. */
  method CheckBlock(ghost es: seq<Extent>, fm: seq<Extent>, layout: string, bs: nat, ghost w: nat, ghost k: nat,
                    i: nat, lastData: int, weird: nat -> bool, ghost trace: Trace)
    returns (ret: int)
    requires bs > 0 && k > 0 && Regular(es, bs) && fm == Window(es, w, k, bs)
    requires w <= i < w + k && i < |layout|
    requires layout[i] != 'H' ==> (lastData == i <==> IsLastData(layout, i))
    modifies trace`checks
    ensures trace.checks == old(trace.checks) + [(w, i)]
    ensures ret == 0 || ret == -1
    ensures ret == 0 <==> BlockOk(es, layout, bs, i, weird)
  {
    trace.checks := trace.checks + [(w, i)];
    var logicalOffset := bs * i;
    ModOf(bs, i, 0);
    SliceRegular(es, bs * w, bs * k, bs);
    BlockInWindow(es, layout, bs, w, k, i, weird);
    DataAcceptedMeans(fm, logicalOffset, bs, lastData == i);
    HoleAcceptedMeans(fm, logicalOffset, bs, weird(logicalOffset), 0);
    match layout[i] {
      case 'D' => ret := CheckData(fm, logicalOffset, bs, lastData == i, false);
      case 'H' => ret := CheckHole(fm, logicalOffset, bs, weird(logicalOffset));
      case 'P' => ret := CheckData(fm, logicalOffset, bs, lastData == i, true);
      case _ => ret := -1;
    }
  }

  /** The blocks of one window, from its first block to its last or the end of the layout. */
  method CheckWindow(ghost es: seq<Extent>, fm: seq<Extent>, layout: string, bs: nat, cur: nat, k: nat,
                     lastData: int, weird: nat -> bool, ghost trace: Trace)
    returns (ret: int, i: nat)
    requires bs > 0 && k > 0 && Regular(es, bs) && fm == Window(es, cur, k, bs) && cur < |layout|
    requires forall j :: 0 <= j < |layout| && layout[j] != 'H' ==> (lastData == j <==> IsLastData(layout, j))
    modifies trace`checks
    ensures ret == 0 || ret == -1
    ensures ret == 0 ==> i == if cur + k < |layout| then cur + k else |layout|
    ensures ret == 0 ==> forall j :: cur <= j < i ==> BlockOk(es, layout, bs, j, weird)
    ensures ret != 0 ==> cur <= i < |layout| && i < cur + k && !BlockOk(es, layout, bs, i, weird)
    ensures trace.checks == old(trace.checks) + InWindow(cur, if ret == 0 then i - cur else i - cur + 1)
  {
    i := cur;
    var c := 1;
    while i < |layout|
      invariant cur <= i <= |layout| && c == i - cur + 1 && i <= cur + k
      invariant forall j :: cur <= j < i ==> BlockOk(es, layout, bs, j, weird)
      invariant trace.checks == old(trace.checks) + InWindow(cur, i - cur)
    {
      if c > k {
        break;
      }
      assert InWindow(cur, i - cur + 1) == InWindow(cur, i - cur) + [(cur, i)];
      ret := CheckBlock(es, fm, layout, bs, cur, k, i, lastData, weird, trace);
      if ret != 0 {
        return;
      }
      i, c := i + 1, c + 1;
    }
    ret := 0;
  }

  /** One FIEMAP call, the flag test and the window's blocks. */
  method RunWindow(es: seq<Extent>, layout: string, bs: nat, k: nat, weird: nat -> bool, cur: nat, lastData: int,
                   ghost trace: Trace)
    returns (ret: int)
    requires bs > 0 && k > 0 && Regular(es, bs) && cur < |layout| && WindowStart(cur, k)
    requires AcceptsUpTo(es, layout, bs, k, weird, cur)
    requires forall j :: 0 <= j < |layout| && layout[j] != 'H' ==> (lastData == j <==> IsLastData(layout, j))
    requires EachBlockOnce(trace.checks, k) && |trace.checks| == cur
    modifies trace
    ensures ret == 0 || ret == -1
    ensures ret == 0 ==> AcceptsUpTo(es, layout, bs, k, weird, if cur + k < |layout| then cur + k else |layout|)
    ensures ret != 0 ==> !Accepts(es, layout, bs, k, weird)
    ensures trace.calls == old(trace.calls) + [cur]
    ensures EachBlockOnce(trace.checks, k) && |trace.checks| <= |layout|
    ensures ret == 0 ==> |trace.checks| == if cur + k < |layout| then cur + k else |layout|
  {
    var fm := Fiemap(es, bs, cur, k, trace);
    CallNotTruncated(es, cur, k, bs);
    ret := CheckFlags(fm, bs);
    if ret != 0 {
      return;
    }
    var next;
    ret, next := CheckWindow(es, fm, layout, bs, cur, k, lastData, weird, trace);
    NextWindow(cur, k);
  }

  /** The scan that numbers the blocks: the number of the last one that is not a hole, and nothing
      definite when there is none. */
  method FindLastData(layout: string) returns (lastData: int)
    ensures forall j :: 0 <= j < |layout| && layout[j] != 'H' ==> (lastData == j <==> IsLastData(layout, j))
  {
    lastData := *;
    for i := 0 to |layout|
      invariant forall j :: 0 <= j < i && layout[j] != 'H' ==>
        j <= lastData < i && 0 <= lastData && layout[lastData] != 'H'
    {
      if layout[i] != 'H' {
        lastData := i;
      }
    }
  }

  /** es is what the kernel would report for the whole file, k the randomly drawn window size and
      weird the probe's answers. The count bound never cuts a window short, the windows tile the
      layout, every block is checked once, and the loop ends because the first unchecked block
      advances. */
  method CompareFiemapAndMap(es: seq<Extent>, layout: string, bs: nat, k: nat, weird: nat -> bool, ghost trace: Trace)
    returns (ret: int)
    requires bs > 0 && 0 < k <= |layout| && bs * |layout| <= MAX_INT
    requires Regular(es, bs) && trace.calls == [] && trace.checks == []
    modifies trace
    ensures ret == 0 || ret == -1
    ensures ret == 0 <==> Accepts(es, layout, bs, k, weird)
    ensures forall j :: 0 <= j < |trace.calls| ==> trace.calls[j] == k * j
    ensures ret == 0 ==> k * (|trace.calls| - 1) < |layout| <= k * |trace.calls|
    ensures EachBlockOnce(trace.checks, k) && |trace.checks| <= |layout|
    ensures ret == 0 ==> |trace.checks| == |layout|
  {
    var lastData := FindLastData(layout);
    var cur := 0;
    while cur < |layout|
      invariant 0 <= cur <= |layout| && |trace.checks| == cur && EachBlockOnce(trace.checks, k)
      invariant cur < |layout| ==> WindowStart(cur, k) && cur == k * |trace.calls|
      invariant cur == |layout| ==> k * (|trace.calls| - 1) < |layout| <= k * |trace.calls|
      invariant forall j :: 0 <= j < |trace.calls| ==> trace.calls[j] == k * j
      invariant AcceptsUpTo(es, layout, bs, k, weird, cur)
      decreases |layout| - cur
    {
      NextWindow(cur, k);
      MulSucc(k, |trace.calls|);
      ret := RunWindow(es, layout, bs, k, weird, cur, lastData, trace);
      if ret != 0 {
        return;
      }
      cur := if cur + k < |layout| then cur + k else |layout|;
    }
    ret := 0;
  }

  lemma NextWindow(w: nat, k: nat)
    requires k > 0 && WindowStart(w, k)
    ensures WindowStart(w + k, k)
    ensures forall v :: w < v < w + k ==> !WindowStart(v, k)
  {
    var q := w / k;
    MulSucc(k, q);
    ModOf(k, q + 1, 0);
    forall v | w < v < w + k
      ensures !WindowStart(v, k)
    {
      InsideWindow(w, k, v);
    }
  }

  lemma InsideWindow(w: nat, k: nat, v: nat)
    requires k > 0 && WindowStart(w, k) && w < v < w + k
    ensures !WindowStart(v, k)
  {
    ModOf(k, w / k, v - w);
  }

  // ----- what acceptance means for the file system under test

  ghost predicate BlockCovered(es: seq<Extent>, b: nat, bs: nat) {
    Covered(es, bs * b, bs)
  }

  /** es reports exactly the given allocated blocks, in whole-block extents with correct flags,
      and marks the final extent and no other as LAST. */
  ghost predicate Reports(es: seq<Extent>, blocks: set<nat>, bs: nat)
    requires bs > 0
  {
    && Regular(es, bs)
    && (forall b: nat :: b in blocks <==> BlockCovered(es, b, bs))
    && (forall j :: 0 <= j < |es| ==> ExtentFlagsOk(es[j], bs) && (es[j].Has(EXTENT_LAST) <==> j + 1 == |es|))
  }

  function NonHoles(layout: string): (r: set<nat>) {
    set i | 0 <= i < |layout| && layout[i] != 'H'
  }

  predicate ValidLayout(layout: string) {
    forall i :: 0 <= i < |layout| ==> layout[i] in "DHP"
  }

  /** Only the final extent of the list may be marked LAST. */
  ghost predicate LastOnlyAtEnd(s: seq<Extent>) {
    forall c :: 0 <= c < |s| && s[c].Has(EXTENT_LAST) ==> c + 1 == |s|
  }

  lemma {:induction false} SliceKeepsLast(es: seq<Extent>, start: nat, len: nat)
    requires LastOnlyAtEnd(es)
    ensures LastOnlyAtEnd(Overlapping(es, start, len))
  {
    if es != [] {
      assert forall j :: 0 <= j < |es[1..]| ==> es[1..][j] == es[j + 1];
      SliceKeepsLast(es[1..], start, len);
      var s, rest := Overlapping(es, start, len), Overlapping(es[1..], start, len);
      if es[0].Overlaps(start, len) {
        assert |es| == 1 ==> rest == [];
        assert s == [es[0]] + rest;
      } else {
        assert s == rest;
      }
    }
  }

  /** The block right after any extent's first byte is allocated, so the extent that covers the
      last allocated block is the final one. */
  lemma LastBlockInFinalExtent(es: seq<Extent>, blocks: set<nat>, bs: nat, b: nat)
    requires bs > 0 && Reports(es, blocks, bs) && b in blocks
    requires forall c :: c in blocks ==> c <= b
    ensures CoveredWith(es, bs * b, bs, EXTENT_LAST)
  {
    assert BlockCovered(es, b, bs);
    var j :| 0 <= j < |es| && es[j].Covers(bs * b, bs);
    if j + 1 < |es| {
      var q := NextExtentBlock(es, j, bs, b);
      assert false;
    }
  }

  /** The extent after one that covers block b starts with a later block. */
  lemma NextExtentBlock(es: seq<Extent>, j: nat, bs: nat, b: nat) returns (q: nat)
    requires bs > 0 && Regular(es, bs) && j + 1 < |es| && es[j].Covers(bs * b, bs)
    ensures b < q && BlockCovered(es, q, bs)
  {
    q := FirstBlock(es, j + 1, bs);
    if q <= b {
      MulMono(bs, q, b);
      assert false;
    }
  }

  lemma FirstBlock(es: seq<Extent>, j: nat, bs: nat) returns (q: nat)
    requires bs > 0 && Regular(es, bs) && j < |es|
    ensures es[j].logical == bs * q && BlockCovered(es, q, bs)
  {
    var e := es[j];
    q := e.logical / bs;
    assert e.logical == bs * q;
    ContainsIsCovers(e, e.logical, bs);
  }

  lemma WindowFlags(es: seq<Extent>, bs: nat, w: nat, k: nat)
    requires bs > 0 && LastOnlyAtEnd(es) && forall j :: 0 <= j < |es| ==> ExtentFlagsOk(es[j], bs)
    ensures FlagsOk(Window(es, w, k, bs), bs)
  {
    SliceKeepsLast(es, bs * w, bs * k);
    SliceMembers(es, bs * w, bs * k);
    var s := Window(es, w, k, bs);
    forall c | 0 <= c < |s|
      ensures ExtentFlagsOk(s[c], bs)
    {
      assert s[c] in es;
    }
  }

  lemma ReportedBlockOk(es: seq<Extent>, layout: string, bs: nat, i: nat, weird: nat -> bool)
    requires bs > 0 && ValidLayout(layout) && Reports(es, NonHoles(layout), bs) && i < |layout|
    ensures BlockOk(es, layout, bs, i, weird)
  {
    assert i in NonHoles(layout) <==> BlockCovered(es, i, bs);
    assert layout[i] in "DHP";
    if IsLastData(layout, i) {
      LastBlockInFinalExtent(es, NonHoles(layout), bs, i);
    }
  }

  /** No false alarm: a file system that reports exactly the blocks the layout asks for is
      accepted, whatever the window size and whatever the probe would say. */
  lemma NoFalseAlarm(es: seq<Extent>, layout: string, bs: nat, k: nat, weird: nat -> bool)
    requires bs > 0 && k > 0 && ValidLayout(layout) && Reports(es, NonHoles(layout), bs)
    ensures Accepts(es, layout, bs, k, weird)
  {
    forall w | 0 <= w < |layout| && WindowStart(w, k)
      ensures FlagsOk(Window(es, w, k, bs), bs)
    {
      WindowFlags(es, bs, w, k);
    }
    forall i | 0 <= i < |layout|
      ensures BlockOk(es, layout, bs, i, weird)
    {
      ReportedBlockOk(es, layout, bs, i, weird);
    }
  }

  /** A preallocated block that the kernel reports as written is accepted. */
  lemma UnmarkedPreallocationAccepted()
    ensures var es := [Extent(0, 0, 1, EXTENT_LAST)];
      Regular(es, 1) && !es[0].Has(EXTENT_UNWRITTEN) && Accepts(es, "P", 1, 1, off => false)
  {
    var es := [Extent(0, 0, 1, EXTENT_LAST)];
    assert es[1..] == [] && Overlapping(es[1..], 0, 1) == [];
    assert Window(es, 0, 1, 1) == [es[0]];
    assert es[0].Covers(0, 1) && es[0].Has(EXTENT_LAST);
    assert BlockOk(es, "P", 1, 0, off => false);
  }

  /** The UNWRITTEN test never fires: preallocated and written blocks are interchangeable. A
      layout and any layout that differs only in D against P get the same verdict. */
  lemma PreallocationUnchecked(es: seq<Extent>, a: string, b: string, bs: nat, k: nat, weird: nat -> bool)
    requires bs > 0 && k > 0 && |a| == |b|
    requires forall i :: 0 <= i < |a| ==> a[i] == b[i] || (a[i] in "DP" && b[i] in "DP")
    ensures Accepts(es, a, bs, k, weird) <==> Accepts(es, b, bs, k, weird)
  {
    forall i | 0 <= i < |a|
      ensures BlockOk(es, a, bs, i, weird) <==> BlockOk(es, b, bs, i, weird)
    {
      assert forall j :: 0 <= j < |a| ==> (a[j] == 'H' <==> b[j] == 'H');
      assert IsLastData(a, i) <==> IsLastData(b, i);
    }
  }
}
