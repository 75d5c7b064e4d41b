/** Extents as FIEMAP reports them, the slice one call returns, and the facts about slices of
    sorted, disjoint, block-aligned extent lists that the window loop of the checker relies on. */
module FiemapExtents {
  import opened Arithmetic

  const EXTENT_LAST: bv32 := 0x0000_0001
  const EXTENT_UNKNOWN: bv32 := 0x0000_0002
  const EXTENT_DELALLOC: bv32 := 0x0000_0004
  const EXTENT_ENCODED: bv32 := 0x0000_0008
  const EXTENT_DATA_ENCRYPTED: bv32 := 0x0000_0080
  const EXTENT_NOT_ALIGNED: bv32 := 0x0000_0100
  const EXTENT_DATA_INLINE: bv32 := 0x0000_0200
  const EXTENT_DATA_TAIL: bv32 := 0x0000_0400
  const EXTENT_UNWRITTEN: bv32 := 0x0000_0800

  const TWO_TO_64: nat := 0x1_0000_0000_0000_0000

  /** What a 64-bit unsigned variable holds of a sum. */
  function Wrap(n: nat): (r: nat)
    ensures n < TWO_TO_64 ==> r == n
  {
    n % TWO_TO_64
  }

  datatype Extent = Extent(logical: nat, physical: nat, length: nat, flags: bv32)
  {
    function End(): nat {
      logical + length
    }

    predicate Has(flag: bv32) {
      flags & flag != 0
    }

    /** The block of size bs at byte off lies wholly inside the extent. */
    predicate Covers(off: nat, bs: nat) {
      logical <= off && off + bs <= End()
    }

    predicate Contains(off: nat) {
      logical <= off < End()
    }

    /** What FIEMAP means by "overlaps the requested range". */
    predicate Overlaps(start: nat, len: nat) {
      logical < start + len && start < End()
    }
  }

  /** One extent of a regular list: non-empty, whole blocks, and representable in 64 bits. */
  predicate RegularExtent(e: Extent, bs: nat)
    requires bs > 0
  {
    e.length > 0 && e.logical % bs == 0 && e.length % bs == 0 && e.End() < TWO_TO_64
  }

  ghost predicate Regular(es: seq<Extent>, bs: nat)
    requires bs > 0
  {
    && (forall j :: 0 <= j < |es| ==> RegularExtent(es[j], bs))
    && (forall i, j :: 0 <= i < j < |es| ==> es[i].End() <= es[j].logical)
  }

  ghost predicate Covered(es: seq<Extent>, off: nat, bs: nat) {
    exists j :: 0 <= j < |es| && es[j].Covers(off, bs)
  }

  /** Covered by an extent that carries the flag. */
  ghost predicate CoveredWith(es: seq<Extent>, off: nat, bs: nat, flag: bv32) {
    exists j :: 0 <= j < |es| && es[j].Covers(off, bs) && es[j].Has(flag)
  }

  /** The extents overlapping a byte range, in order. */
  function Overlapping(es: seq<Extent>, start: nat, len: nat): seq<Extent> {
    if es == [] then []
    else (if es[0].Overlaps(start, len) then [es[0]] else []) + Overlapping(es[1..], start, len)
  }

  /** One FIEMAP call: the overlapping extents, cut at the caller's fm_extent_count. */
  function FiemapCall(es: seq<Extent>, start: nat, len: nat, count: nat): seq<Extent> {
    var all := Overlapping(es, start, len);
    if |all| <= count then all else all[..count]
  }

  lemma EndAligned(e: Extent, bs: nat)
    requires bs > 0 && RegularExtent(e, bs)
    ensures e.End() % bs == 0
  {
    Multiples(e.logical, e.length, bs);
  }

  /** An aligned byte offset inside an extent of whole blocks starts a block inside that extent. */
  lemma ContainsIsCovers(e: Extent, off: nat, bs: nat)
    requires bs > 0 && RegularExtent(e, bs) && off % bs == 0
    ensures e.Contains(off) <==> e.Covers(off, bs)
  {
    EndAligned(e, bs);
    if e.Contains(off) {
      Multiples(off, e.End(), bs);
    }
  }

  /** Slicing keeps exactly the overlapping extents, keeps their order and keeps the list regular. */
  lemma {:induction false} SliceMembers(es: seq<Extent>, start: nat, len: nat)
    ensures forall e :: e in Overlapping(es, start, len) <==> e in es && e.Overlaps(start, len)
  {
    if es != [] {
      SliceMembers(es[1..], start, len);
      assert es == [es[0]] + es[1..];
    }
  }

  lemma {:induction false} SliceRegular(es: seq<Extent>, start: nat, len: nat, bs: nat)
    requires bs > 0 && Regular(es, bs)
    ensures Regular(Overlapping(es, start, len), bs)
  {
    if es != [] {
      var s, rest := Overlapping(es, start, len), Overlapping(es[1..], start, len);
      SliceRegular(es[1..], start, len, bs);
      if es[0].Overlaps(start, len) {
        SliceMembers(es[1..], start, len);
        forall j | 0 <= j < |rest|
          ensures es[0].End() <= rest[j].logical
        {
          assert rest[j] in es[1..];
        }
        assert s == [es[0]] + rest;
        RegularCons(es[0], rest, bs);
      } else {
        assert s == rest;
      }
    }
  }

  lemma RegularCons(e: Extent, rest: seq<Extent>, bs: nat)
    requires bs > 0 && RegularExtent(e, bs) && Regular(rest, bs)
    requires forall j :: 0 <= j < |rest| ==> e.End() <= rest[j].logical
    ensures Regular([e] + rest, bs)
  {
    var s := [e] + rest;
    forall i, j | 0 <= i < j < |s|
      ensures s[i].End() <= s[j].logical
    {
      assert s[j] == rest[j - 1] && (i > 0 ==> s[i] == rest[i - 1]);
    }
  }

  /** Every extent of a regular list takes at least one block of the window, so a window of
      whole blocks holds no more overlapping extents than blocks. */
  lemma {:induction false} SliceSize(es: seq<Extent>, start: nat, len: nat, bs: nat, from: nat)
    requires bs > 0 && Regular(es, bs)
    requires (start + len) % bs == 0 && from % bs == 0 && from <= start + len
    requires forall j :: 0 <= j < |es| && es[j].Overlaps(start, len) ==> from < es[j].End() && from < start + len
    ensures bs * |Overlapping(es, start, len)| <= start + len - from
  {
    if es != [] {
      var e, stop := es[0], start + len;
      assert forall j :: 0 <= j < |es[1..]| ==> es[1..][j] == es[j + 1];
      if e.Overlaps(start, len) {
        var next := if e.End() < stop then e.End() else stop;
        EndAligned(e, bs);
        Multiples(from, next, bs);
        SliceSize(es[1..], start, len, bs, next);
        MulSucc(bs, |Overlapping(es[1..], start, len)|);
      } else {
        SliceSize(es[1..], start, len, bs, from);
      }
    }
  }

  /** A request for the extents of k aligned blocks with room for k extents is never cut. */
  lemma CallNotTruncated(es: seq<Extent>, w: nat, k: nat, bs: nat)
    requires bs > 0 && k > 0 && Regular(es, bs)
    ensures FiemapCall(es, bs * w, bs * k, k) == Overlapping(es, bs * w, bs * k)
  {
    ModOf(bs, w, 0);
    ModOf(bs, k, 0);
    Multiples(bs * w, bs * k, bs);
    MulMono(bs, 1, k);
    SliceSize(es, bs * w, bs * k, bs, bs * w);
    var n := |Overlapping(es, bs * w, bs * k)|;
    if n > k {
      MulSucc(bs, k);
      MulMono(bs, k + 1, n);
      assert false;
    }
  }
}
