/** sparse-cp: copies a file block by block, skipping blocks of zeros, and what exactly comes out. */
module SparseCp {
  import opened Bytes

  const BS: nat := 4096

  predicate AllZero(b: seq<Byte>) {
    forall i :: 0 <= i < |b| ==> b[i] == 0
  }

  /** The output file and its position. Writing past the end leaves a hole of zeros. */
  class OutFile {
    var data: seq<Byte>
    var pos: nat

    constructor ()
      ensures data == [] && pos == 0
    {
      data, pos := [], 0;
    }

    method Seek(p: nat)
      modifies this`pos
      ensures pos == p
    {
      pos := p;
    }

    method SysWrite(b: seq<Byte>)
      modifies this
      ensures data == WriteAt(old(data), old(pos), b) && pos == old(pos) + |b|
    {
      data := WriteAt(data, pos, b);
      pos := pos + |b|;
    }
  }

  function WriteAt(data: seq<Byte>, pos: nat, b: seq<Byte>): seq<Byte> {
    var front := if pos <= |data| then data[..pos] else data + ZeroBytes(pos - |data|);
    front + b + if pos + |b| <= |data| then data[pos + |b|..] else []
  }

  function Block(src: seq<Byte>, k: nat): seq<Byte>
    requires BS * (k + 1) <= |src|
  {
    src[BS * k..BS * (k + 1)]
  }

  /** The end of the last block with data among the first k, all of them full blocks. */
  function DataEnd(src: seq<Byte>, k: nat): (p: nat)
    requires BS * k <= |src|
    ensures p <= BS * k
  {
    if k == 0 then 0
    else if AllZero(Block(src, k - 1)) then DataEnd(src, k - 1)
    else BS * k
  }

  function FullBlocks(src: seq<Byte>): nat {
    |src| / BS
  }

  /** What comes out: the source with the zero blocks right before the end, or right before the
      short tail, cut out. */
  function Copied(src: seq<Byte>): seq<Byte> {
    src[..DataEnd(src, FullBlocks(src))] + src[BS * FullBlocks(src)..]
  }

  lemma {:induction false} ZerosAfterData(src: seq<Byte>, k: nat)
    requires BS * k <= |src|
    ensures forall i :: DataEnd(src, k) <= i < BS * k ==> src[i] == 0
  {
    if k > 0 && AllZero(Block(src, k - 1)) {
      ZerosAfterData(src, k - 1);
      forall i | BS * (k - 1) <= i < BS * k
        ensures src[i] == 0
      {
        assert Block(src, k - 1)[i - BS * (k - 1)] == 0;
      }
    }
  }

  /** A data block written at its own offset also fills the gap of skipped zero blocks. */
  lemma GapIsZeros(src: seq<Byte>, k: nat)
    requires BS * (k + 1) <= |src|
    ensures WriteAt(src[..DataEnd(src, k)], BS * k, Block(src, k)) == src[..BS * (k + 1)]
  {
    ZerosAfterData(src, k);
    WriteAfterGap(src, DataEnd(src, k), BS * k, BS * (k + 1));
  }

  lemma WriteAfterGap(src: seq<Byte>, p: nat, q: nat, r: nat)
    requires p <= q <= r <= |src| && forall i :: p <= i < q ==> src[i] == 0
    ensures WriteAt(src[..p], q, src[q..r]) == src[..r]
  {
    assert src[p..q] == ZeroBytes(q - p);
    assert src[..p] + src[p..q] == src[..q];
    assert src[..q] + src[q..r] == src[..r];
  }

  /** The whole loop; every read but the last returns a full block. */
  method Copy(src: seq<Byte>, out: OutFile)
    requires out.data == [] && out.pos == 0
    modifies out
    ensures out.data == Copied(src)
  {
    var fsize := |src|;
    var i := 0;
    ghost var k := 0;
    out.Seek(0);
    while i < fsize
      invariant i == BS * k
      invariant BS * k <= fsize ==> out.data == src[..DataEnd(src, k)] && out.pos == DataEnd(src, k)
      invariant BS * k > fsize ==> k == FullBlocks(src) + 1 && out.data == Copied(src)
      decreases fsize - i
    {
      var b := src[i..if i + BS <= fsize then i + BS else fsize];
      if |b| < BS {
        assert k == FullBlocks(src);
        out.SysWrite(b);
      } else {
        assert b == Block(src, k);
        if AllZero(b) {
        } else {
          GapIsZeros(src, k);
          out.Seek(i);
          out.SysWrite(b);
        }
      }
      i := i + BS;
      k := k + 1;
    }
    if BS * k == fsize {
      assert k == FullBlocks(src);
    }
  }

  /** The copy is faithful exactly when no full block ends in a run of zero blocks: there is no
      full block, or the last one has data. */
  lemma FaithfulIff(src: seq<Byte>)
    ensures Copied(src) == src <==> FullBlocks(src) == 0 || !AllZero(Block(src, FullBlocks(src) - 1))
  {
    var q := FullBlocks(src);
    var p := DataEnd(src, q);
    assert |Copied(src)| == p + |src| - BS * q;
    if p == BS * q {
      assert Copied(src) == src;
    }
  }

  function PaddedTo(data: seq<Byte>, n: nat): seq<Byte> {
    if |data| < n then data + ZeroBytes(n - |data|) else data
  }

  /** Padded with zeros to the source's size the copy equals the source exactly when it was
      faithful or the short tail is all zeros; in particular always when there is no tail. */
  lemma PaddedFaithfulIff(src: seq<Byte>)
    ensures PaddedTo(Copied(src), |src|) == src <==> Copied(src) == src || AllZero(src[BS * FullBlocks(src)..])
    ensures |src| % BS == 0 ==> PaddedTo(Copied(src), |src|) == src
  {
    var q := FullBlocks(src);
    var p := DataEnd(src, q);
    var tail := src[BS * q..];
    var padded := PaddedTo(Copied(src), |src|);
    ZerosAfterData(src, q);
    if p == BS * q {
      assert Copied(src) == src;
    } else if AllZero(tail) {
      assert forall i :: BS * q <= i < |src| ==> src[i] == tail[i - BS * q];
      assert padded == src;
    } else {
      var i := TailMoved(src);
      PaddingKeeps(Copied(src), |src|, i);
    }
  }

  /** If zero blocks were cut before a tail with data, the tail's last data byte sits too early. */
  lemma TailMoved(src: seq<Byte>) returns (i: nat)
    requires DataEnd(src, FullBlocks(src)) < BS * FullBlocks(src) && !AllZero(src[BS * FullBlocks(src)..])
    ensures i < |Copied(src)| <= |src| && Copied(src)[i] != src[i]
  {
    var q := FullBlocks(src);
    var p := DataEnd(src, q);
    var tail, copied := src[BS * q..], Copied(src);
    var j :| 0 <= j < |tail| && tail[j] != 0;
    ZerosAfterData(src, q);
    GapAtLeastBlock(src, q);
    assert src[p + j] == 0;
    assert copied[p + j] == tail[j];
    i := p + j;
  }

  /** What comes out, in plain numbers: the copy ends its first part after some number of blocks of
      4096 bytes, all skipped blocks behind that are zero, the last one kept is not, and then comes
      what is left behind the last full block. */
  lemma CopiedInBlocks(src: seq<Byte>) returns (kept: nat)
    ensures var full := |src| / 4096;
      && kept <= full && Copied(src) == src[..4096 * kept] + src[4096 * full..]
      && (forall i :: 4096 * kept <= i < 4096 * full ==> src[i] == 0)
      && (kept > 0 ==> exists i :: 4096 * (kept - 1) <= i < 4096 * kept && src[i] != 0)
  {
    kept := KeptBlocks(src, |src| / 4096);
    ZerosAfterData(src, |src| / 4096);
  }

  lemma {:induction false} KeptBlocks(src: seq<Byte>, k: nat) returns (kept: nat)
    requires 4096 * k <= |src|
    ensures kept <= k && DataEnd(src, k) == 4096 * kept
    ensures kept > 0 ==> exists i :: 4096 * (kept - 1) <= i < 4096 * kept && src[i] != 0
  {
    if k == 0 {
      kept := 0;
    } else if AllZero(Block(src, k - 1)) {
      kept := KeptBlocks(src, k - 1);
    } else {
      kept := k;
      var j :| 0 <= j < 4096 && Block(src, k - 1)[j] != 0;
      assert src[4096 * (k - 1) + j] != 0;
    }
  }

  /** Faithful exactly when the source has no full block of 4096 bytes or the last one is not all
      zeros; after padding also when the short tail is. */
  lemma FaithfulInNumbers(src: seq<Byte>)
    ensures var full := |src| / 4096;
      && (Copied(src) == src <==> full == 0 || exists i :: 4096 * (full - 1) <= i < 4096 * full && src[i] != 0)
      && (PaddedTo(Copied(src), |src|) == src
          <==> Copied(src) == src || forall i :: 4096 * full <= i < |src| ==> src[i] == 0)
  {
    var full := |src| / 4096;
    FaithfulIff(src);
    PaddedFaithfulIff(src);
    if full > 0 {
      ZerosBetween(src, 4096 * (full - 1), 4096 * full);
    }
    ZerosBetween(src, 4096 * full, |src|);
  }

  lemma ZerosBetween(src: seq<Byte>, lo: nat, hi: nat)
    requires lo <= hi <= |src|
    ensures AllZero(src[lo..hi]) <==> forall i :: lo <= i < hi ==> src[i] == 0
  {
    var b := src[lo..hi];
    assert forall i :: lo <= i < hi ==> src[i] == b[i - lo];
  }

  /** A file of one zero block comes out empty; with a byte of data behind the block even padding
      does not help, because that byte comes out first. */
  lemma UnfaithfulCopies()
    ensures Copied(ZeroBytes(BS)) == [] != ZeroBytes(BS)
    ensures var src := ZeroBytes(BS) + [1];
      Copied(src) == [1] && PaddedTo(Copied(src), |src|) != src
  {
    var zeros := ZeroBytes(BS);
    CutZeroBlock(zeros);
    CutZeroBlock(zeros + [1]);
    assert zeros[BS..] == [] && (zeros + [1])[BS..] == [1];
    assert PaddedTo([1], BS + 1)[0] == 1 && (zeros + [1])[0] == 0;
  }

  lemma CutZeroBlock(src: seq<Byte>)
    requires BS <= |src| < 2 * BS && AllZero(src[..BS])
    ensures Copied(src) == src[BS..]
  {
    assert FullBlocks(src) == 1 && Block(src, 0) == src[..BS];
    assert DataEnd(src, 0) == 0 && DataEnd(src, 1) == 0;
  }

  lemma PaddingKeeps(data: seq<Byte>, n: nat, i: nat)
    requires i < |data| <= n
    ensures PaddedTo(data, n)[i] == data[i]
  {
  }

  lemma {:induction false} GapAtLeastBlock(src: seq<Byte>, k: nat)
    requires BS * k <= |src| && DataEnd(src, k) < BS * k
    ensures DataEnd(src, k) + BS <= BS * k
  {
  }
}
