/** The checks fiemap-test.c makes on one returned extent list: flags, data blocks, holes. */
module FiemapChecker {
  import opened Arithmetic
  import opened FiemapExtents

  datatype Option<+T> = None | Some(value: T)

  // ----- check_flags

  /** The demands on a single extent. The block size is a power of two, so masking with its
      complement is rounding down to a multiple. */
  predicate ExtentFlagsOk(e: Extent, bs: nat)
    requires bs > 0
  {
    var aligned := e.physical % bs == 0 && e.length % bs == 0;
    && (e.Has(EXTENT_NOT_ALIGNED) <==> !aligned)
    && (e.Has(EXTENT_DATA_ENCRYPTED) ==> e.Has(EXTENT_ENCODED))
    && (e.Has(EXTENT_DELALLOC) ==> e.Has(EXTENT_UNKNOWN))
    && (e.Has(EXTENT_DATA_INLINE) ==> e.Has(EXTENT_NOT_ALIGNED))
    && (e.Has(EXTENT_DATA_TAIL) ==> e.Has(EXTENT_NOT_ALIGNED))
  }

  /** A whole returned list: every extent is fine and only the final one may say LAST. */
  ghost predicate FlagsOk(fm: seq<Extent>, bs: nat)
    requires bs > 0
  {
    forall c :: 0 <= c < |fm| ==> ExtentFlagsOk(fm[c], bs) && (fm[c].Has(EXTENT_LAST) ==> c + 1 == |fm|)
  }

  /** The demands in bits: an aligned extent carries none of NOT_ALIGNED, INLINE and TAIL, an unaligned
      one carries NOT_ALIGNED; encrypted data is encoded, and delayed allocation unknown. */
  lemma FlagsInBits(e: Extent, bs: nat)
    requires bs > 0
    ensures ExtentFlagsOk(e, bs)
       <==> && (if e.physical % bs == 0 && e.length % bs == 0 then e.flags & 0x700 == 0 else e.flags & 0x100 != 0)
            && (e.flags & 0x80 != 0 ==> e.flags & 0x8 != 0)
            && (e.flags & 0x4 != 0 ==> e.flags & 0x2 != 0)
    ensures e.Has(EXTENT_LAST) <==> e.flags & 0x1 != 0
  {
    MaskOfThree(e.flags);
  }

  lemma MaskOfThree(x: bv32)
    ensures x & 0x700 == 0 <==> x & 0x100 == 0 && x & 0x200 == 0 && x & 0x400 == 0
  {
  }

  lemma ListFlagsInBits(fm: seq<Extent>, bs: nat)
    requires bs > 0
    ensures FlagsOk(fm, bs)
       <==> forall c :: 0 <= c < |fm| ==>
              && (if fm[c].physical % bs == 0 && fm[c].length % bs == 0 then fm[c].flags & 0x700 == 0
                  else fm[c].flags & 0x100 != 0)
              && (fm[c].flags & 0x80 != 0 ==> fm[c].flags & 0x8 != 0)
              && (fm[c].flags & 0x4 != 0 ==> fm[c].flags & 0x2 != 0)
              && (fm[c].flags & 0x1 != 0 ==> c + 1 == |fm|)
  {
    forall c | 0 <= c < |fm|
      ensures ExtentFlagsOk(fm[c], bs)
         <==> && (if fm[c].physical % bs == 0 && fm[c].length % bs == 0 then fm[c].flags & 0x700 == 0
                  else fm[c].flags & 0x100 != 0)
              && (fm[c].flags & 0x80 != 0 ==> fm[c].flags & 0x8 != 0)
              && (fm[c].flags & 0x4 != 0 ==> fm[c].flags & 0x2 != 0)
      ensures fm[c].Has(EXTENT_LAST) <==> fm[c].flags & 0x1 != 0
    {
      FlagsInBits(fm[c], bs);
    }
  }

  method CheckFlags(fm: seq<Extent>, bs: nat) returns (ret: int)
    requires bs > 0
    ensures ret == 0 || ret == -1
    ensures ret == 0 <==> FlagsOk(fm, bs)
    ensures ret == 0 <==> forall c :: 0 <= c < |fm| ==>
      && (if fm[c].physical % bs == 0 && fm[c].length % bs == 0 then fm[c].flags & 0x700 == 0
          else fm[c].flags & 0x100 != 0)
      && (fm[c].flags & 0x80 != 0 ==> fm[c].flags & 0x8 != 0)
      && (fm[c].flags & 0x4 != 0 ==> fm[c].flags & 0x2 != 0)
      && (fm[c].flags & 0x1 != 0 ==> c + 1 == |fm|)
  {
    ListFlagsInBits(fm, bs);
    for c := 0 to |fm|
      invariant forall i :: 0 <= i < c ==> ExtentFlagsOk(fm[i], bs) && (fm[i].Has(EXTENT_LAST) ==> i + 1 == |fm|)
    {
      var e := fm[c];
      var alignedOffset := e.physical - e.physical % bs;
      var alignedLength := e.length - e.length % bs;
      if (alignedOffset != e.physical || alignedLength != e.length) && !e.Has(EXTENT_NOT_ALIGNED) {
        return -1;
      }
      if e.Has(EXTENT_DATA_ENCRYPTED) && !e.Has(EXTENT_ENCODED) {
        return -1;
      }
      if e.Has(EXTENT_NOT_ALIGNED) && alignedOffset == e.physical && alignedLength == e.length {
        return -1;
      }
      if e.Has(EXTENT_LAST) && c + 1 < |fm| {
        return -1;
      }
      if e.Has(EXTENT_DELALLOC) && !e.Has(EXTENT_UNKNOWN) {
        return -1;
      }
      if e.Has(EXTENT_DATA_INLINE) && !e.Has(EXTENT_NOT_ALIGNED) {
        return -1;
      }
      if e.Has(EXTENT_DATA_TAIL) && !e.Has(EXTENT_NOT_ALIGNED) {
        return -1;
      }
    }
    return 0;
  }

  // ----- check_data

  /** The test the source writes for a preallocated block, `!flags & UNWRITTEN`: C negates first,
      so the left operand is 0 or 1 and never meets bit 0x800. */
  predicate UnwrittenTest(flags: bv32)
    ensures !UnwrittenTest(flags)
  {
    (if flags == 0 then 1 as bv32 else 0) & EXTENT_UNWRITTEN != 0
  }

  /** The index of the extent the early-exit scan settles on, from index c on, for any list. Sums
      wrap round as in 64-bit arithmetic. */
  function ScanData(fm: seq<Extent>, off: nat, bs: nat, c: nat): Option<nat>
    decreases |fm| - c
  {
    if c >= |fm| then None
    else
      var start, end := fm[c].logical, Wrap(fm[c].End());
      if off > end then ScanData(fm, off, bs, c + 1)
      else if Wrap(off + bs) < start then None
      else if start <= off < end then
        if Wrap(off + bs) > end then ScanData(fm, Wrap(end + 1), bs, c + 1) else Some(c)
      else ScanData(fm, off, bs, c + 1)
  }

  /** The verdict on a data or preallocated block, for any list. */
  predicate DataAccepted(fm: seq<Extent>, off: nat, bs: nat, last: bool) {
    match ScanData(fm, off, bs, 0)
    case None => false
    case Some(c) => c < |fm| && (last ==> fm[c].Has(EXTENT_LAST))
  }

  lemma ScanDataInRange(fm: seq<Extent>, off: nat, bs: nat, c: nat)
    ensures ScanData(fm, off, bs, c).Some? ==> c <= ScanData(fm, off, bs, c).value < |fm|
    decreases |fm| - c
  {
  }

  method CheckData(fm: seq<Extent>, off: nat, bs: nat, last: bool, prealloc: bool) returns (ret: int)
    ensures ret == 0 || ret == -1
    ensures ret == 0 <==> DataAccepted(fm, off, bs, last)
  {
    var logicalOffset: nat := off;
    var c, found := 0, 0;
    ScanDataInRange(fm, off, bs, 0);
    while c < |fm|
      invariant 0 <= c <= |fm| && found == 0
      invariant ScanData(fm, off, bs, 0) == ScanData(fm, logicalOffset, bs, c)
    {
      var e := fm[c];
      var start, end := e.logical, Wrap(e.logical + e.length);
      if logicalOffset > end {
        c := c + 1;
        continue;
      }
      if Wrap(logicalOffset + bs) < start {
        break;
      }
      if logicalOffset >= start && logicalOffset < end {
        if prealloc && UnwrittenTest(e.flags) {
          assert false;
        }
        if Wrap(logicalOffset + bs) > end {
          logicalOffset := Wrap(end + 1);
          c := c + 1;
          continue;
        } else {
          found := 1;
          break;
        }
      }
      c := c + 1;
    }
    if found != 0 && last && !fm[c].Has(EXTENT_LAST) {
      found := 0;
    }
    return if found == 0 then -1 else 0;
  }

  /** On a regular list the early exits and the continue lose nothing: the scan finds a covering
      extent exactly when one exists, and it finds that one. */
  lemma {:induction false} ScanDataFinds(fm: seq<Extent>, off: nat, bs: nat, c: nat)
    requires bs > 0 && Regular(fm, bs) && off % bs == 0 && c <= |fm|
    requires forall j :: 0 <= j < c ==> !fm[j].Covers(off, bs)
    ensures ScanData(fm, off, bs, c).Some? <==> Covered(fm, off, bs)
    ensures forall j :: 0 <= j < |fm| && fm[j].Covers(off, bs) ==> ScanData(fm, off, bs, c) == Some(j)
    decreases |fm| - c
  {
    if c < |fm| {
      ContainsIsCovers(fm[c], off, bs);
      if fm[c].Covers(off, bs) {
        OnlyOneCovers(fm, off, bs, c);
      } else if off <= fm[c].End() && Wrap(off + bs) < fm[c].logical {
      } else {
        ScanDataFinds(fm, off, bs, c + 1);
      }
    }
  }

  lemma OnlyOneCovers(fm: seq<Extent>, off: nat, bs: nat, c: nat)
    requires bs > 0 && Regular(fm, bs) && c < |fm| && fm[c].Covers(off, bs)
    ensures forall j :: 0 <= j < |fm| && fm[j].Covers(off, bs) ==> j == c
  {
  }

  lemma DataAcceptedMeans(fm: seq<Extent>, off: nat, bs: nat, last: bool)
    requires bs > 0 && Regular(fm, bs) && off % bs == 0
    ensures DataAccepted(fm, off, bs, last)
       <==> if last then CoveredWith(fm, off, bs, EXTENT_LAST) else Covered(fm, off, bs)
  {
    ScanDataFinds(fm, off, bs, 0);
    ScanDataInRange(fm, off, bs, 0);
  }

  /** On lists that are not regular the early exits do show. Out of order, a covering extent after a
      distant one is never seen; across a split inside a block, the scan goes on one byte past the
      first part and takes an extent that does not cover the block; and an extent whose end wraps
      round to a small number covers nothing. */
  lemma EarlyExitsShow()
    ensures var distant, near := Extent(100, 0, 8, 0), Extent(0, 0, 4, 0);
      !DataAccepted([distant, near], 0, 4, false) && DataAccepted([near, distant], 0, 4, false)
    ensures DataAccepted([Extent(0, 0, 3, 0), Extent(3, 3, 9, 0)], 0, 4, false)
    ensures !DataAccepted([Extent(8, 0, 0xffff_ffff_ffff_fffc, 0)], 8, 4, false)
  {
    var near, part, rest := Extent(0, 0, 4, 0), Extent(0, 0, 3, 0), Extent(3, 3, 9, 0);
    assert ScanData([near, Extent(100, 0, 8, 0)], 0, 4, 0) == Some(0);
    assert ScanData([part, rest], 4, 4, 1) == Some(1);
    assert ScanData([part, rest], 0, 4, 0) == Some(1);
    assert Wrap(8 + 0xffff_ffff_ffff_fffc) == 4;
  }

  // ----- check_hole

  /** The verdict of the early-exit scan on a hole, from index c on, for any list, with sums that
      wrap round; weird is the answer of the zero-filled-block probe at this offset. */
  predicate HoleAccepted(fm: seq<Extent>, off: nat, bs: nat, weird: bool, c: nat)
    decreases |fm| - c
  {
    if c >= |fm| then true
    else
      var start, end := fm[c].logical, Wrap(fm[c].End());
      if off > end then HoleAccepted(fm, off, bs, weird, c + 1)
      else if Wrap(off + bs) < start then true
      else if start <= off < end then weird
      else HoleAccepted(fm, off, bs, weird, c + 1)
  }

  method CheckHole(fm: seq<Extent>, off: nat, bs: nat, weird: bool) returns (ret: int)
    ensures ret == 0 || ret == -1
    ensures ret == 0 <==> HoleAccepted(fm, off, bs, weird, 0)
  {
    var c := 0;
    while c < |fm|
      invariant 0 <= c <= |fm|
      invariant HoleAccepted(fm, off, bs, weird, 0) == HoleAccepted(fm, off, bs, weird, c)
    {
      var e := fm[c];
      var start, end := e.logical, Wrap(e.logical + e.length);
      if off > end {
        c := c + 1;
        continue;
      }
      if Wrap(off + bs) < start {
        break;
      }
      if off >= start && off < end {
        if weird {
          break;
        }
        return -1;
      }
      c := c + 1;
    }
    return 0;
  }

  lemma {:induction false} HoleAcceptedMeans(fm: seq<Extent>, off: nat, bs: nat, weird: bool, c: nat)
    requires bs > 0 && Regular(fm, bs) && off % bs == 0 && c <= |fm|
    requires forall j :: 0 <= j < c ==> !fm[j].Covers(off, bs)
    ensures HoleAccepted(fm, off, bs, weird, c) <==> weird || !Covered(fm, off, bs)
    decreases |fm| - c
  {
    if c < |fm| {
      ContainsIsCovers(fm[c], off, bs);
      if !fm[c].Contains(off) && (off > fm[c].End() || Wrap(off + bs) >= fm[c].logical) {
        HoleAcceptedMeans(fm, off, bs, weird, c + 1);
      }
    }
  }
}
