/** create_file_from_mapping on a model of one open file, and one iteration of main. */
module FiemapWriter {
  import opened Arithmetic
  import opened FiemapExtents
  import opened FiemapChecker
  import opened FiemapCompare

  datatype Block = Written | Preallocated

  /** One open file: the write position in bytes and the allocated blocks. */
  class TestFile {
    const bs: nat
    var pos: nat
    var blocks: map<nat, Block>

    constructor (bs: nat)
      requires bs > 0
      ensures this.bs == bs && pos == 0 && blocks == map[]
    {
      this.bs := bs;
      pos, blocks := 0, map[];
    }

    /** write() of one block at an aligned position, of which the kernel takes result bytes; a
        short write leaves the position inside the block and the block allocated. */
    method Write(result: int) returns (n: int)
      requires bs > 0 && pos % bs == 0 && result <= bs
      modifies this
      ensures n == result && pos == old(pos) + (if result > 0 then result else 0)
      ensures blocks == if result > 0 then old(blocks)[old(pos) / bs := Written] else old(blocks)
    {
      if result > 0 {
        blocks := blocks[pos / bs := Written];
        pos := pos + result;
      }
      n := result;
    }

    /** fallocate() of one block at an aligned offset; written blocks stay written. */
    method Fallocate(off: nat, ok: bool) returns (n: int)
      requires bs > 0 && off % bs == 0
      modifies this`blocks
      ensures ok ==> n == 0
      ensures ok ==> blocks == if off / bs in old(blocks) then old(blocks) else old(blocks)[off / bs := Preallocated]
      ensures !ok ==> n < 0 && blocks == old(blocks)
    {
      if ok {
        if off / bs !in blocks {
          blocks := blocks[off / bs := Preallocated];
        }
        n := 0;
      } else {
        n := -1;
      }
    }

    method SeekForward(ok: bool) returns (n: int)
      modifies this`pos
      ensures ok ==> n == pos == old(pos) + bs
      ensures !ok ==> n == -1 && pos == old(pos)
    {
      if ok {
        pos := pos + bs;
        n := pos;
      } else {
        n := -1;
      }
    }
  }

  /** The blocks a layout asks for. */
  function BlocksOf(layout: string): (r: map<nat, Block>) {
    map i | 0 <= i < |layout| && layout[i] in "DP" :: if layout[i] == 'D' then Written else Preallocated
  }

  lemma BlocksOfNext(layout: string, i: nat)
    requires i < |layout|
    ensures layout[i] == 'D' ==> BlocksOf(layout[..i + 1]) == BlocksOf(layout[..i])[i := Written]
    ensures layout[i] == 'P' ==> BlocksOf(layout[..i + 1]) == BlocksOf(layout[..i])[i := Preallocated]
    ensures layout[i] !in "DP" ==> BlocksOf(layout[..i + 1]) == BlocksOf(layout[..i])
    ensures i !in BlocksOf(layout[..i])
  {
    assert forall j :: 0 <= j < i ==> layout[..i + 1][j] == layout[..i][j];
  }

  /** The kernel's answers for each block: how many bytes a write takes, and whether fallocate and
      lseek succeed. */
  datatype Answers = Answers(write: nat -> int, alloc: nat -> bool, seek: nat -> bool)

  /** No write takes more than it was given. */
  ghost predicate Plausible(io: Answers, bs: nat) {
    forall i :: io.write(i) <= bs
  }

  /** The loop of create_file_from_mapping. On success the allocated blocks are exactly the non-holes, written and
      preallocated ones kept apart; on failure all blocks before the failing one are in place. */
  method WriteBlocks(f: TestFile, layout: string, io: Answers)
    returns (ret: int, ghost done: nat)
    requires f.bs > 0 && Plausible(io, f.bs) && f.bs * |layout| <= MAX_INT && f.pos == 0 && f.blocks == map[]
    modifies f
    ensures ret == 0 || ret == -1
    ensures done <= |layout| && forall i :: 0 <= i < done ==> StepOk(layout, i, io, f.bs)
    ensures ret == 0 ==> done == |layout| && f.pos == f.bs * |layout|
    ensures ret == 0 ==> ValidLayout(layout) && f.blocks == BlocksOf(layout) && f.blocks.Keys == NonHoles(layout)
    ensures ret != 0 ==> done < |layout| && !StepOk(layout, done, io, f.bs)
    ensures ret != 0 ==> f.blocks - {done} == BlocksOf(layout[..done])
  {
    var curOffset := 0;
    var i := 0;
    done := 0;
    while i < |layout|
      invariant i <= |layout| && done == i && curOffset == f.pos == f.bs * i
      invariant f.blocks == BlocksOf(layout[..i])
      invariant forall j :: 0 <= j < i ==> StepOk(layout, j, io, f.bs)
    {
      done := i;
      ModOf(f.bs, i, 0);
      MulSucc(f.bs, i);
      BlocksOfNext(layout, i);
      match layout[i] {
        case 'D' =>
          ret := f.Write(io.write(i));
          if ret < f.bs {
            return -1, i;
          }
        case 'P' =>
          ret := f.Fallocate(curOffset, io.alloc(i));
          if ret < 0 {
            return -1, i;
          }
          ret := f.SeekForward(io.seek(i));
          if ret == -1 {
            return -1, i;
          }
        case 'H' =>
          ret := f.SeekForward(io.seek(i));
          if ret == -1 {
            return -1, i;
          }
        case _ =>
          return -1, i;
      }
      curOffset := curOffset + f.bs;
      i := i + 1;
      done := i;
    }
    assert layout[..i] == layout;
    forall j | 0 <= j < |layout|
      ensures layout[j] in "DHP"
    {
      assert StepOk(layout, j, io, f.bs);
    }
    ret := 0;
  }

  /** Writes the file block by block. On success the allocated blocks are exactly the non-holes, written and
      preallocated ones kept apart; on failure all blocks before the failing one are in place. */
  method CreateFileFromMapping(f: TestFile, layout: string, io: Answers)
    returns (ret: int, ghost done: nat)
    requires f.bs > 0 && Plausible(io, f.bs) && f.bs * |layout| <= MAX_INT && f.pos == 0 && f.blocks == map[]
    modifies f
    ensures ret == 0 || ret == -1
    ensures done <= |layout| && forall i :: 0 <= i < done ==> StepOk(layout, i, io, f.bs)
    ensures ret == 0 ==> done == |layout| && f.pos == f.bs * |layout|
    ensures ret == 0 ==> ValidLayout(layout) && f.blocks == BlocksOf(layout) && f.blocks.Keys == NonHoles(layout)
    ensures ret != 0 ==> done < |layout| && !StepOk(layout, done, io, f.bs)
    ensures ret != 0 ==> f.blocks - {done} == BlocksOf(layout[..done])
    ensures ret == 0 <==> forall i :: 0 <= i < |layout| ==>
      || (layout[i] == 'D' && io.write(i) >= f.bs)
      || (layout[i] == 'P' && io.alloc(i) && io.seek(i))
      || (layout[i] == 'H' && io.seek(i))
    ensures ret == 0 ==> forall i: nat :: i in f.blocks <==> i < |layout| && (layout[i] == 'D' || layout[i] == 'P')
    ensures ret == 0 ==> forall i: nat ::
      i in f.blocks && i < |layout| ==> (f.blocks[i] == Written <==> layout[i] == 'D')
  {
    ret, done := WriteBlocks(f, layout, io);
    CallsSpelledOut(layout, io, f.bs);
    BlocksSpelledOut(layout);
  }

  /** The calls made for block i all succeed; an unknown letter has no call that could. */
  predicate StepOk(layout: string, i: nat, io: Answers, bs: nat)
    requires i < |layout|
  {
    match layout[i]
    case 'D' => io.write(i) >= bs
    case 'P' => io.alloc(i) && io.seek(i)
    case 'H' => io.seek(i)
    case _ => false
  }

  lemma CallsSpelledOut(layout: string, io: Answers, bs: nat)
    ensures forall i :: 0 <= i < |layout| ==>
      (StepOk(layout, i, io, bs) <==>
       || (layout[i] == 'D' && io.write(i) >= bs)
       || (layout[i] == 'P' && io.alloc(i) && io.seek(i))
       || (layout[i] == 'H' && io.seek(i)))
  {
  }

  lemma BlocksSpelledOut(layout: string)
    ensures forall i: nat :: i in BlocksOf(layout) <==> i < |layout| && (layout[i] == 'D' || layout[i] == 'P')
    ensures forall i: nat ::
      i in BlocksOf(layout) && i < |layout| ==> (BlocksOf(layout)[i] == Written <==> layout[i] == 'D')
  {
  }

  predicate Fits(blocks: set<nat>, bs: nat) {
    forall b :: b in blocks ==> bs * (b + 1) <= MAX_INT
  }

  lemma NonHolesFit(layout: string, bs: nat)
    requires bs * |layout| <= MAX_INT
    ensures Fits(NonHoles(layout), bs)
  {
    forall b | b in NonHoles(layout)
      ensures bs * (b + 1) <= MAX_INT
    {
      MulMono(bs, b + 1, |layout|);
    }
  }

  // ----- a kernel that reports exactly the allocated blocks

  /** The given blocks below n in rising order. */
  function Ascending(blocks: set<nat>, n: nat): seq<nat> {
    if n == 0 then []
    else if n - 1 in blocks then Ascending(blocks, n - 1) + [n - 1]
    else Ascending(blocks, n - 1)
  }

  lemma {:induction false} AscendingLists(blocks: set<nat>, n: nat)
    ensures forall b :: b in Ascending(blocks, n) <==> b in blocks && b < n
    ensures forall i, j :: 0 <= i < j < |Ascending(blocks, n)| ==> Ascending(blocks, n)[i] < Ascending(blocks, n)[j]
  {
    if n > 0 {
      var front, l := Ascending(blocks, n - 1), Ascending(blocks, n);
      AscendingLists(blocks, n - 1);
      assert forall i :: 0 <= i < |front| ==> front[i] in front && l[i] == front[i];
    }
  }

  function BlockExtent(b: nat, bs: nat, final: bool): Extent {
    Extent(bs * b, bs * b, bs, if final then EXTENT_LAST else 0)
  }

  /** One extent for each block of the list, the final one marked. */
  function OnePerBlock(l: seq<nat>, bs: nat): seq<Extent> {
    seq(|l|, j requires 0 <= j < |l| => BlockExtent(l[j], bs, j + 1 == |l|))
  }

  function ExactKernel(n: nat, bs: nat): map<nat, Block> -> seq<Extent> {
    (blocks: map<nat, Block>) => OnePerBlock(Ascending(blocks.Keys, n), bs)
  }

  lemma BlockExtentFine(b: nat, bs: nat, final: bool)
    requires bs > 0 && bs * (b + 1) <= MAX_INT
    ensures var e := BlockExtent(b, bs, final);
      RegularExtent(e, bs) && ExtentFlagsOk(e, bs) && (e.Has(EXTENT_LAST) <==> final)
  {
    MulSucc(bs, b);
    ModOf(bs, b, 0);
    ModOf(bs, 1, 0);
  }

  lemma EarlierBlock(bs: nat, b: nat, c: nat)
    requires b < c
    ensures bs * b + bs <= bs * c
  {
    MulSucc(bs, b);
    MulMono(bs, b + 1, c);
  }

  lemma CoversOnlyItsBlock(bs: nat, b: nat, c: nat, final: bool)
    requires bs > 0
    ensures BlockExtent(c, bs, final).Covers(bs * b, bs) <==> b == c
  {
    if b < c {
      EarlierBlock(bs, b, c);
    } else if c < b {
      EarlierBlock(bs, c, b);
    }
  }

  lemma OnePerBlockReports(l: seq<nat>, blocks: set<nat>, bs: nat)
    requires bs > 0 && Fits(blocks, bs) && forall b :: b in l <==> b in blocks
    requires forall i, j :: 0 <= i < j < |l| ==> l[i] < l[j]
    ensures Reports(OnePerBlock(l, bs), blocks, bs)
  {
    var es := OnePerBlock(l, bs);
    forall j | 0 <= j < |es|
      ensures RegularExtent(es[j], bs) && ExtentFlagsOk(es[j], bs) && (es[j].Has(EXTENT_LAST) <==> j + 1 == |es|)
    {
      assert l[j] in blocks;
      BlockExtentFine(l[j], bs, j + 1 == |l|);
    }
    forall i, j | 0 <= i < j < |es|
      ensures es[i].End() <= es[j].logical
    {
      EarlierBlock(bs, l[i], l[j]);
    }
    forall b: nat
      ensures b in blocks <==> BlockCovered(es, b, bs)
    {
      ListedIsCovered(l, b, bs);
    }
  }

  lemma ListedIsCovered(l: seq<nat>, b: nat, bs: nat)
    requires bs > 0
    ensures b in l <==> BlockCovered(OnePerBlock(l, bs), b, bs)
  {
    var es := OnePerBlock(l, bs);
    forall j | 0 <= j < |l|
      ensures es[j].Covers(bs * b, bs) <==> b == l[j]
    {
      CoversOnlyItsBlock(bs, b, l[j], j + 1 == |l|);
    }
    if b in l {
      var j :| 0 <= j < |l| && l[j] == b;
      assert es[j].Covers(bs * b, bs);
    }
  }

  /** Kernels of the kind RunOnce asks for exist, for every block size. */
  lemma ExactKernelReports(bs: nat, n: nat, blocks: map<nat, Block>)
    requires bs > 0 && n >= MAX_INT && Fits(blocks.Keys, bs)
    ensures Reports(ExactKernel(n, bs)(blocks), blocks.Keys, bs)
  {
    forall b | b in blocks.Keys
      ensures b < n
    {
      BlockBelow(bs, b);
    }
    AscendingLists(blocks.Keys, n);
    OnePerBlockReports(Ascending(blocks.Keys, n), blocks.Keys, bs);
  }

  lemma BlockBelow(bs: nat, b: nat)
    requires bs > 0 && bs * (b + 1) <= MAX_INT
    ensures b < MAX_INT
  {
    MulMono(b + 1, 1, bs);
  }

  /** One iteration of main on a kernel whose FIEMAP reports exactly the allocated blocks: if the
      layout could be written at all, the comparison raises no alarm, for every layout, window
      size and probe. */
  method RunOnce(f: TestFile, kernel: map<nat, Block> -> seq<Extent>, layout: string, k: nat,
                 io: Answers, weird: nat -> bool)
    returns (created: int, compared: int)
    requires f.bs > 0 && Plausible(io, f.bs) && 0 < k <= |layout| && f.bs * |layout| <= MAX_INT
    requires f.pos == 0 && f.blocks == map[]
    requires forall blocks: map<nat, Block> :: Fits(blocks.Keys, f.bs) ==> Reports(kernel(blocks), blocks.Keys, f.bs)
    modifies f
    ensures created == 0 <==> forall i :: 0 <= i < |layout| ==> StepOk(layout, i, io, f.bs)
    ensures created == 0 ==> compared == 0
  {
    ghost var done;
    created, done := CreateFileFromMapping(f, layout, io);
    compared := 0;
    if created == 0 {
      NonHolesFit(layout, f.bs);
      ghost var trace := new Trace();
      compared := CompareFiemapAndMap(kernel(f.blocks), layout, f.bs, k, weird, trace);
      NoFalseAlarm(kernel(f.blocks), layout, f.bs, k, weird);
    }
  }
}
