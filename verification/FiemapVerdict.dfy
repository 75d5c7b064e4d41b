/** What acceptance by the window loop says about the whole extent list, with the windows and their
    flag tests resolved, and how far the verdict depends on the random window size. */
module FiemapVerdict {
  import opened Arithmetic
  import opened FiemapExtents
  import opened FiemapChecker
  import opened FiemapCompare

  // ----- the window a byte falls into

  /** The first block of the window that holds the byte at off. */
  function WindowOf(off: nat, bs: nat, k: nat): nat
    requires bs > 0 && k > 0
  {
    k * (off / bs / k)
  }

  lemma DivAtLeast(off: nat, d: nat, x: nat)
    requires d > 0
    ensures d * x <= off <==> x <= off / d
  {
    var q, r := off / d, off % d;
    assert off == d * q + r;
    if x <= q {
      MulMono(d, x, q);
    } else {
      MulSucc(d, q);
      MulMono(d, q + 1, x);
    }
  }

  /** A window of k blocks begins at or before a byte, or ends after it, as its start compares. */
  lemma WindowOrder(off: nat, bs: nat, k: nat, w: nat)
    requires bs > 0 && k > 0 && WindowStart(w, k)
    ensures bs * w <= off <==> w <= WindowOf(off, bs, k)
    ensures off < bs * w + bs * k <==> WindowOf(off, bs, k) <= w
  {
    var b, q := off / bs, w / k;
    assert w == k * q;
    DivAtLeast(off, bs, w);
    DivAtLeast(off, bs, w + k);
    assert bs * (w + k) == bs * w + bs * k;
    MulSucc(k, q);
    DivAtLeast(b, k, q);
    DivAtLeast(b, k, q + 1);
    SameOrder(k, q, b / k);
  }

  lemma SameOrder(k: nat, a: nat, b: nat)
    requires k > 0
    ensures a <= b <==> k * a <= k * b
    ensures b <= a <==> k * b <= k * a
  {
    if a < b {
      MulSucc(k, a);
      MulMono(k, a + 1, b);
    } else if b < a {
      MulSucc(k, b);
      MulMono(k, b + 1, a);
    }
  }

  lemma WindowOfIsStart(off: nat, bs: nat, k: nat)
    requires bs > 0 && k > 0
    ensures WindowStart(WindowOf(off, bs, k), k)
  {
    ModOf(k, off / bs / k, 0);
  }

  lemma WindowOfMono(a: nat, b: nat, bs: nat, k: nat)
    requires bs > 0 && k > 0 && a <= b
    ensures WindowOf(a, bs, k) <= WindowOf(b, bs, k)
  {
    WindowOfIsStart(a, bs, k);
    WindowOrder(a, bs, k, WindowOf(a, bs, k));
    WindowOrder(b, bs, k, WindowOf(a, bs, k));
  }

  function FirstWindow(e: Extent, bs: nat, k: nat): nat
    requires bs > 0 && k > 0
  {
    WindowOf(e.logical, bs, k)
  }

  function FinalWindow(e: Extent, bs: nat, k: nat): nat
    requires bs > 0 && k > 0 && e.length > 0
  {
    WindowOf(e.End() - 1, bs, k)
  }

  /** An extent overlaps exactly the windows from its first to its final one. */
  lemma OverlapsBetween(e: Extent, bs: nat, k: nat, w: nat)
    requires bs > 0 && k > 0 && e.length > 0 && WindowStart(w, k)
    ensures e.Overlaps(bs * w, bs * k) <==> FirstWindow(e, bs, k) <= w <= FinalWindow(e, bs, k)
  {
    WindowOrder(e.logical, bs, k, w);
    WindowOrder(e.End() - 1, bs, k, w);
  }

  // ----- the flag test of one window

  ghost predicate NoLastBeforeAnother(es: seq<Extent>, start: nat, len: nat) {
    forall i, j :: 0 <= i < j < |es| && es[i].Overlaps(start, len) && es[j].Overlaps(start, len) ==>
      !es[i].Has(EXTENT_LAST)
  }

  lemma {:induction false} LastAtEndOfSliceIff(es: seq<Extent>, start: nat, len: nat)
    ensures LastOnlyAtEnd(Overlapping(es, start, len)) <==> NoLastBeforeAnother(es, start, len)
  {
    if es != [] {
      var e, s, rest := es[0], Overlapping(es, start, len), Overlapping(es[1..], start, len);
      LastAtEndOfSliceIff(es[1..], start, len);
      assert forall j :: 0 <= j < |es[1..]| ==> es[1..][j] == es[j + 1];
      NoLastCons(es, start, len);
      if e.Overlaps(start, len) {
        assert s == [e] + rest;
        LastCons(e, rest);
        SliceEmptyIff(es[1..], start, len);
      } else {
        assert s == rest;
      }
    }
  }

  lemma LastCons(e: Extent, rest: seq<Extent>)
    ensures LastOnlyAtEnd([e] + rest) <==> LastOnlyAtEnd(rest) && (e.Has(EXTENT_LAST) ==> rest == [])
  {
    var s := [e] + rest;
    assert s[0] == e && forall c :: 0 <= c < |rest| ==> s[c + 1] == rest[c];
    if LastOnlyAtEnd(s) {
      forall c | 0 <= c < |rest| && rest[c].Has(EXTENT_LAST)
        ensures c + 1 == |rest|
      {
        assert s[c + 1].Has(EXTENT_LAST);
      }
    }
  }

  lemma SliceEmptyIff(es: seq<Extent>, start: nat, len: nat)
    ensures Overlapping(es, start, len) == [] <==> forall j :: 0 <= j < |es| ==> !es[j].Overlaps(start, len)
  {
    SliceMembers(es, start, len);
    var s := Overlapping(es, start, len);
    if s == [] {
      forall j | 0 <= j < |es|
        ensures !es[j].Overlaps(start, len)
      {
        assert es[j] !in s;
      }
    } else {
      assert s[0] in s;
    }
  }

  lemma NoLastCons(es: seq<Extent>, start: nat, len: nat)
    requires es != []
    ensures NoLastBeforeAnother(es, start, len)
       <==> && NoLastBeforeAnother(es[1..], start, len)
            && (es[0].Overlaps(start, len) && es[0].Has(EXTENT_LAST) ==>
                  forall j :: 0 <= j < |es[1..]| ==> !es[1..][j].Overlaps(start, len))
  {
    var t := es[1..];
    if NoLastBeforeAnother(es, start, len) {
      forall i, j | 0 <= i < j < |t| && t[i].Overlaps(start, len) && t[j].Overlaps(start, len)
        ensures !t[i].Has(EXTENT_LAST)
      {
        assert es[i + 1] == t[i] && es[j + 1] == t[j];
      }
      forall j | 0 <= j < |t| && es[0].Overlaps(start, len) && es[0].Has(EXTENT_LAST)
        ensures !t[j].Overlaps(start, len)
      {
        assert es[j + 1] == t[j];
      }
    }
  }

  lemma WindowFlagsIff(es: seq<Extent>, bs: nat, w: nat, k: nat)
    requires bs > 0
    ensures FlagsOk(Window(es, w, k, bs), bs)
       <==> && (forall j :: 0 <= j < |es| && es[j].Overlaps(bs * w, bs * k) ==> ExtentFlagsOk(es[j], bs))
            && NoLastBeforeAnother(es, bs * w, bs * k)
  {
    var s := Window(es, w, k, bs);
    LastAtEndOfSliceIff(es, bs * w, bs * k);
    SliceMembers(es, bs * w, bs * k);
    if FlagsOk(s, bs) {
      forall j | 0 <= j < |es| && es[j].Overlaps(bs * w, bs * k)
        ensures ExtentFlagsOk(es[j], bs)
      {
        assert es[j] in s;
      }
    }
    if forall j :: 0 <= j < |es| && es[j].Overlaps(bs * w, bs * k) ==> ExtentFlagsOk(es[j], bs) {
      forall c | 0 <= c < |s|
        ensures ExtentFlagsOk(s[c], bs)
      {
        assert s[c] in es;
      }
    }
  }

  // ----- the flag tests of all windows

  /** Some call made for a layout of n blocks returns the extent. */
  predicate Returned(e: Extent, n: nat, bs: nat, k: nat)
    requires bs > 0 && k > 0
  {
    FirstWindow(e, bs, k) < n
  }

  /** Some call returns extent j and the one after it: the next begins in the window j ends in. */
  predicate ReturnedTogether(es: seq<Extent>, j: nat, n: nat, bs: nat, k: nat)
    requires bs > 0 && k > 0 && j + 1 < |es| && es[j].length > 0
  {
    FinalWindow(es[j], bs, k) == FirstWindow(es[j + 1], bs, k) < n
  }

  /** The demand on the list that the flag tests of all windows amount to. */
  ghost predicate FlagsFine(es: seq<Extent>, n: nat, bs: nat, k: nat)
    requires bs > 0 && k > 0 && Regular(es, bs)
  {
    && (forall j :: 0 <= j < |es| && Returned(es[j], n, bs, k) ==> ExtentFlagsOk(es[j], bs))
    && (forall j :: 0 <= j < |es| - 1 && es[j].Has(EXTENT_LAST) ==> !ReturnedTogether(es, j, n, bs, k))
  }

  ghost predicate AllWindowsPass(es: seq<Extent>, n: nat, bs: nat, k: nat)
    requires bs > 0 && k > 0
  {
    forall w :: 0 <= w < n && WindowStart(w, k) ==> FlagsOk(Window(es, w, k, bs), bs)
  }

  lemma ReturnedExtentPasses(es: seq<Extent>, n: nat, bs: nat, k: nat, j: nat)
    requires bs > 0 && k > 0 && Regular(es, bs) && AllWindowsPass(es, n, bs, k)
    requires j < |es| && Returned(es[j], n, bs, k)
    ensures ExtentFlagsOk(es[j], bs)
  {
    var w := FirstWindow(es[j], bs, k);
    WindowOfIsStart(es[j].logical, bs, k);
    WindowOfMono(es[j].logical, es[j].End() - 1, bs, k);
    OverlapsBetween(es[j], bs, k, w);
    WindowFlagsIff(es, bs, w, k);
  }

  lemma TogetherNotLast(es: seq<Extent>, n: nat, bs: nat, k: nat, j: nat)
    requires bs > 0 && k > 0 && Regular(es, bs) && AllWindowsPass(es, n, bs, k)
    requires j + 1 < |es| && ReturnedTogether(es, j, n, bs, k)
    ensures !es[j].Has(EXTENT_LAST)
  {
    var w := FinalWindow(es[j], bs, k);
    WindowOfIsStart(es[j].End() - 1, bs, k);
    WindowOfMono(es[j].logical, es[j].End() - 1, bs, k);
    WindowOfMono(es[j + 1].logical, es[j + 1].End() - 1, bs, k);
    OverlapsBetween(es[j], bs, k, w);
    OverlapsBetween(es[j + 1], bs, k, w);
    WindowFlagsIff(es, bs, w, k);
  }

  lemma WindowPasses(es: seq<Extent>, n: nat, bs: nat, k: nat, w: nat)
    requires bs > 0 && k > 0 && Regular(es, bs) && FlagsFine(es, n, bs, k) && w < n && WindowStart(w, k)
    ensures FlagsOk(Window(es, w, k, bs), bs)
  {
    forall j | 0 <= j < |es| && es[j].Overlaps(bs * w, bs * k)
      ensures ExtentFlagsOk(es[j], bs)
    {
      OverlapsBetween(es[j], bs, k, w);
    }
    forall i, j | 0 <= i < j < |es| && es[i].Overlaps(bs * w, bs * k) && es[j].Overlaps(bs * w, bs * k)
      ensures !es[i].Has(EXTENT_LAST)
    {
      SuccessorToo(es, n, bs, k, w, i, j);
    }
    WindowFlagsIff(es, bs, w, k);
  }

  /** Two extents in one window have everything between them in that window as well. */
  lemma SuccessorToo(es: seq<Extent>, n: nat, bs: nat, k: nat, w: nat, i: nat, j: nat)
    requires bs > 0 && k > 0 && Regular(es, bs) && i < j < |es| && w < n && WindowStart(w, k)
    requires es[i].Overlaps(bs * w, bs * k) && es[j].Overlaps(bs * w, bs * k)
    ensures ReturnedTogether(es, i, n, bs, k)
  {
    OverlapsBetween(es[i], bs, k, w);
    OverlapsBetween(es[j], bs, k, w);
    assert es[i].End() <= es[i + 1].logical <= es[j].logical;
    WindowOfMono(es[i].End() - 1, es[i + 1].logical, bs, k);
    WindowOfMono(es[i + 1].logical, es[j].logical, bs, k);
  }

  /** All flag tests pass exactly when every extent that some call returns is in order and none of
      them says LAST in a call that also returns its successor. */
  lemma AllWindowsPassIff(es: seq<Extent>, n: nat, bs: nat, k: nat)
    requires bs > 0 && k > 0 && Regular(es, bs)
    ensures AllWindowsPass(es, n, bs, k) <==> FlagsFine(es, n, bs, k)
  {
    if AllWindowsPass(es, n, bs, k) {
      forall j | 0 <= j < |es| && Returned(es[j], n, bs, k)
        ensures ExtentFlagsOk(es[j], bs)
      {
        ReturnedExtentPasses(es, n, bs, k, j);
      }
      forall j | 0 <= j < |es| - 1 && ReturnedTogether(es, j, n, bs, k)
        ensures !es[j].Has(EXTENT_LAST)
      {
        TogetherNotLast(es, n, bs, k, j);
      }
    }
    if FlagsFine(es, n, bs, k) {
      forall w | 0 <= w < n && WindowStart(w, k)
        ensures FlagsOk(Window(es, w, k, bs), bs)
      {
        WindowPasses(es, n, bs, k, w);
      }
    }
  }

  // ----- acceptance

  /** Soundness and completeness: when the probe tolerates nothing, the accepted lists are those
      whose returned extents are in order with no LAST before a successor in the same window, whose
      covered blocks within the file are the non-holes, and whose last data block lies in an extent
      marked LAST. */
  lemma AcceptedIffExact(es: seq<Extent>, layout: string, bs: nat, k: nat)
    requires bs > 0 && k > 0 && Regular(es, bs)
    ensures Accepts(es, layout, bs, k, off => false)
       <==> && ValidLayout(layout)
            && FlagsFine(es, |layout|, bs, k)
            && (forall i :: 0 <= i < |layout| ==> (i in NonHoles(layout) <==> Covered(es, bs * i, bs)))
            && (forall i :: 0 <= i < |layout| && IsLastData(layout, i) ==> CoveredWith(es, bs * i, bs, EXTENT_LAST))
  {
    AllWindowsPassIff(es, |layout|, bs, k);
    if Accepts(es, layout, bs, k, off => false) {
      forall i | 0 <= i < |layout|
        ensures layout[i] in "DHP" && (i in NonHoles(layout) <==> Covered(es, bs * i, bs))
        ensures IsLastData(layout, i) ==> CoveredWith(es, bs * i, bs, EXTENT_LAST)
      {
        assert BlockOk(es, layout, bs, i, off => false);
      }
    }
  }

  // ----- the same in plain numbers and bits

  /** The block at byte off lies inside extent j, by the numbers alone. */
  predicate Inside(es: seq<Extent>, j: nat, off: nat, bs: nat)
    requires j < |es|
  {
    es[j].logical <= off && off + bs <= es[j].logical + es[j].length
  }

  predicate OnlyHolesAfter(layout: string, i: nat)
    requires i < |layout|
  {
    forall h :: i < h < |layout| ==> layout[h] == 'H'
  }

  /** What each block asks for: a hole nothing over it or a tolerant probe, any other block an extent
      over the whole of it, with bit 0 set if only holes follow. */
  ghost predicate BlockServed(es: seq<Extent>, layout: string, bs: nat, i: nat, weird: nat -> bool)
    requires i < |layout|
  {
    if layout[i] == 'H' then weird(bs * i) || forall j :: 0 <= j < |es| ==> !Inside(es, j, bs * i, bs)
    else
      && (layout[i] == 'D' || layout[i] == 'P')
      && exists j ::
           0 <= j < |es| && Inside(es, j, bs * i, bs) && (OnlyHolesAfter(layout, i) ==> es[j].flags & 0x1 != 0)
  }

  lemma BlockSpelledOut(es: seq<Extent>, layout: string, bs: nat, i: nat, weird: nat -> bool)
    requires bs > 0 && i < |layout|
    ensures BlockOk(es, layout, bs, i, weird) <==> BlockServed(es, layout, bs, i, weird)
  {
    assert forall j :: 0 <= j < |es| ==> (es[j].Covers(bs * i, bs) <==> Inside(es, j, bs * i, bs));
    assert IsLastData(layout, i) <==> layout[i] != 'H' && OnlyHolesAfter(layout, i);
  }

  /** The bits an extent may carry, its length being a multiple of the block size: 0x100, 0x200 and
      0x400 are for unaligned extents, which must carry 0x100; 0x80 goes with 0x8 and 0x4 with 0x2. */
  predicate BitsFine(e: Extent, bs: nat)
    requires bs > 0
  {
    && (if e.physical % bs == 0 then e.flags & 0x700 == 0 else e.flags & 0x100 != 0)
    && (e.flags & 0x80 != 0 ==> e.flags & 0x8 != 0)
    && (e.flags & 0x4 != 0 ==> e.flags & 0x2 != 0)
  }

  /** Among n blocks asked for k at a time: every extent that begins in a window asked for has fine
      bits, and none with bit 0 ends in the window where the next one begins. */
  ghost predicate BitsFineIn(es: seq<Extent>, n: nat, bs: nat, k: nat)
    requires bs > 0 && k > 0
  {
    && (forall j :: 0 <= j < |es| && k * (es[j].logical / bs / k) < n ==> BitsFine(es[j], bs))
    && (forall j :: 0 <= j < |es| - 1 && es[j].flags & 0x1 != 0 ==>
          var w := k * ((es[j].logical + es[j].length - 1) / bs / k);
          w >= n || w != k * (es[j + 1].logical / bs / k))
  }

  lemma FlagsSpelledOut(es: seq<Extent>, n: nat, bs: nat, k: nat)
    requires bs > 0 && k > 0 && Regular(es, bs)
    ensures FlagsFine(es, n, bs, k) <==> BitsFineIn(es, n, bs, k)
  {
    forall j | 0 <= j < |es|
      ensures ExtentFlagsOk(es[j], bs) <==> BitsFine(es[j], bs)
      ensures es[j].Has(EXTENT_LAST) <==> es[j].flags & 0x1 != 0
    {
      FlagsInBits(es[j], bs);
    }
  }

  /** The verdict on any regular list, for any answers of the probe: flags by their bits, windows and
      coverage by numbers. */
  lemma AcceptedSpelledOut(es: seq<Extent>, layout: string, bs: nat, k: nat, weird: nat -> bool)
    requires bs > 0 && k > 0 && Regular(es, bs)
    ensures Accepts(es, layout, bs, k, weird)
       <==> (forall i :: 0 <= i < |layout| ==> BlockServed(es, layout, bs, i, weird)) && BitsFineIn(es, |layout|, bs, k)
  {
    AllWindowsPassIff(es, |layout|, bs, k);
    FlagsSpelledOut(es, |layout|, bs, k);
    forall i | 0 <= i < |layout|
      ensures BlockOk(es, layout, bs, i, weird) <==> BlockServed(es, layout, bs, i, weird)
    {
      BlockSpelledOut(es, layout, bs, i, weird);
    }
    BlocksAndWindows(es, layout, bs, k, weird);
  }

  lemma BlocksAndWindows(es: seq<Extent>, layout: string, bs: nat, k: nat, weird: nat -> bool)
    requires bs > 0 && k > 0
    ensures Accepts(es, layout, bs, k, weird)
       <==> (forall i :: 0 <= i < |layout| ==> BlockOk(es, layout, bs, i, weird)) && AllWindowsPass(es, |layout|, bs, k)
  {
  }

  /** One aligned block at a physical offset of one byte without 0x100 is rejected, with it accepted. */
  lemma UnalignedNeedsItsFlag(flags: bv32)
    requires flags == 0x1 || flags == 0x101
    ensures Accepts([Extent(0, 1, 4096, flags)], "D", 4096, 1, off => false) <==> flags == 0x101
  {
    var es := [Extent(0, 1, 4096, flags)];
    AcceptedSpelledOut(es, "D", 4096, 1, off => false);
    assert Inside(es, 0, 4096 * 0, 4096);
    if flags == 0x101 {
      assert BlockServed(es, "D", 4096, 0, off => false);
      assert es[0].flags & 0x100 != 0 && es[0].flags & 0x80 == 0 && es[0].flags & 0x4 == 0;
    } else {
      assert es[0].flags & 0x100 == 0;
    }
  }

  function TwoLast(): seq<Extent> {
    [Extent(0, 0, 1, EXTENT_LAST), Extent(1, 1, 1, EXTENT_LAST)]
  }

  lemma TwoLastRegular()
    ensures Regular(TwoLast(), 1) && forall j :: 0 <= j < 2 ==> ExtentFlagsOk(TwoLast()[j], 1)
  {
  }

  lemma TwoLastCovered(i: nat)
    requires i < 2
    ensures CoveredWith(TwoLast(), 1 * i, 1, EXTENT_LAST) && Covered(TwoLast(), 1 * i, 1)
  {
    assert TwoLast()[i].Covers(1 * i, 1) && TwoLast()[i].Has(EXTENT_LAST);
  }

  lemma TwoLastInSingles()
    ensures Accepts(TwoLast(), "DD", 1, 1, off => false)
  {
    TwoLastRegular();
    assert FirstWindow(TwoLast()[1], 1, 1) == 1 && FinalWindow(TwoLast()[0], 1, 1) == 0;
    AllWindowsPassIff(TwoLast(), 2, 1, 1);
    TwoLastCovered(0);
    TwoLastCovered(1);
    assert BlockOk(TwoLast(), "DD", 1, 0, off => false) && BlockOk(TwoLast(), "DD", 1, 1, off => false);
  }

  lemma TwoLastInPairs()
    ensures !Accepts(TwoLast(), "DD", 1, 2, off => false)
  {
    TwoLastRegular();
    assert FirstWindow(TwoLast()[1], 1, 2) == 0 && FinalWindow(TwoLast()[0], 1, 2) == 0;
    assert TwoLast()[0].Has(EXTENT_LAST) && ReturnedTogether(TwoLast(), 0, 2, 1, 2);
    AllWindowsPassIff(TwoLast(), 2, 1, 2);
  }

  /** The verdict depends on the window size: with LAST on both of two adjacent extents, windows of
      one block never return them together and accept, and one window of two blocks rejects. */
  lemma VerdictDependsOnWindow()
    ensures Regular(TwoLast(), 1)
    ensures Accepts(TwoLast(), "DD", 1, 1, off => false)
    ensures !Accepts(TwoLast(), "DD", 1, 2, off => false)
  {
    TwoLastRegular();
    TwoLastInSingles();
    TwoLastInPairs();
  }
}
