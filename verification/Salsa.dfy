/** The stream of salsa_scrambler: one Salsa20 column round applied in place to every 16-word lane
    of a buffer and copied out, over and over with the two buffers swapped. The shape of the round
    is stated for any word operations and instantiated with 32-bit add, rotate and xor at the end:
    that it loses nothing rests only on xor undoing itself. */
module Salsa {
  type Shift = k: bv32 | 0 < k < 32 witness 1

  /** mix(a, b, k) is what is xored into a word; xor combines the two. */
  datatype Word<!W> = Word(mix: (W, W, Shift) -> W, xor: (W, W) -> W)

  ghost predicate Undoes<W(!new)>(w: Word<W>) {
    forall a, b :: w.xor(w.xor(a, b), b) == a
  }

  datatype Quad<W> = Quad(y0: W, y1: W, y2: W, y3: W)

  /** quarterround, section 3 of the Salsa20 specification. */
  function QuarterRound<W>(y: Quad<W>, w: Word<W>): Quad<W> {
    var z1 := w.xor(y.y1, w.mix(y.y0, y.y3, 7));
    var z2 := w.xor(y.y2, w.mix(z1, y.y0, 9));
    var z3 := w.xor(y.y3, w.mix(z2, z1, 13));
    var z0 := w.xor(y.y0, w.mix(z3, z2, 18));
    Quad(z0, z1, z2, z3)
  }

  function UndoQuarterRound<W>(z: Quad<W>, w: Word<W>): Quad<W> {
    var y0 := w.xor(z.y0, w.mix(z.y3, z.y2, 18));
    var y3 := w.xor(z.y3, w.mix(z.y2, z.y1, 13));
    var y2 := w.xor(z.y2, w.mix(z.y1, y0, 9));
    var y1 := w.xor(z.y1, w.mix(y0, y3, 7));
    Quad(y0, y1, y2, y3)
  }

  lemma QuarterRoundBijective<W(!new)>(y: Quad<W>, w: Word<W>)
    requires Undoes(w)
    ensures UndoQuarterRound(QuarterRound(y, w), w) == y
    ensures QuarterRound(UndoQuarterRound(y, w), w) == y
  {
  }

  // ----- a whole lane

  function Pick<W>(x: seq<W>, a: nat, b: nat, c: nat, d: nat): Quad<W>
    requires |x| == 16 && a < 16 && b < 16 && c < 16 && d < 16
  {
    Quad(x[a], x[b], x[c], x[d])
  }

  /** The lane whose four columns, each started at its diagonal word, are the given quads. */
  function FromColumns<W>(p: Quad<W>, q: Quad<W>, r: Quad<W>, s: Quad<W>): seq<W> {
    [p.y0, q.y3, r.y2, s.y1,
     p.y1, q.y0, r.y3, s.y2,
     p.y2, q.y1, r.y0, s.y3,
     p.y3, q.y2, r.y1, s.y0]
  }

  /** columnround, section 5 of the Salsa20 specification; only lanes of 16 words occur. */
  function ColumnRound<W>(x: seq<W>, w: Word<W>): seq<W> {
    if |x| != 16 then x
    else FromColumns(QuarterRound(Pick(x, 0, 4, 8, 12), w), QuarterRound(Pick(x, 5, 9, 13, 1), w),
                     QuarterRound(Pick(x, 10, 14, 2, 6), w), QuarterRound(Pick(x, 15, 3, 7, 11), w))
  }

  function UndoColumnRound<W>(x: seq<W>, w: Word<W>): seq<W> {
    if |x| != 16 then x
    else FromColumns(UndoQuarterRound(Pick(x, 0, 4, 8, 12), w), UndoQuarterRound(Pick(x, 5, 9, 13, 1), w),
                     UndoQuarterRound(Pick(x, 10, 14, 2, 6), w), UndoQuarterRound(Pick(x, 15, 3, 7, 11), w))
  }

  lemma ColumnsOf<W>(p: Quad<W>, q: Quad<W>, r: Quad<W>, s: Quad<W>)
    ensures var x := FromColumns(p, q, r, s);
      && Pick(x, 0, 4, 8, 12) == p && Pick(x, 5, 9, 13, 1) == q
      && Pick(x, 10, 14, 2, 6) == r && Pick(x, 15, 3, 7, 11) == s
  {
  }

  lemma LaneFromColumns<W>(x: seq<W>)
    requires |x| == 16
    ensures FromColumns(Pick(x, 0, 4, 8, 12), Pick(x, 5, 9, 13, 1), Pick(x, 10, 14, 2, 6), Pick(x, 15, 3, 7, 11)) == x
  {
  }

  /** The scrambler loses nothing: it is a bijection on all states. */
  lemma ColumnRoundBijective<W(!new)>(x: seq<W>, w: Word<W>)
    requires Undoes(w)
    ensures UndoColumnRound(ColumnRound(x, w), w) == x
    ensures ColumnRound(UndoColumnRound(x, w), w) == x
  {
    if |x| == 16 {
      var p, q, r, s := Pick(x, 0, 4, 8, 12), Pick(x, 5, 9, 13, 1), Pick(x, 10, 14, 2, 6), Pick(x, 15, 3, 7, 11);
      LaneFromColumns(x);
      ColumnsOf(QuarterRound(p, w), QuarterRound(q, w), QuarterRound(r, w), QuarterRound(s, w));
      ColumnsOf(UndoQuarterRound(p, w), UndoQuarterRound(q, w), UndoQuarterRound(r, w), UndoQuarterRound(s, w));
      QuarterRoundBijective(p, w);
      QuarterRoundBijective(q, w);
      QuarterRoundBijective(r, w);
      QuarterRoundBijective(s, w);
    }
  }

  /** The sixteen assignments of the round, in order: each word of the result by the words it is made
      of, with the amounts 7, 9, 13 and 18. */
  lemma SixteenWords<W>(x: seq<W>, w: Word<W>)
    requires |x| == 16
    ensures var z := ColumnRound(x, w);
      && |z| == 16
      && z[4] == w.xor(x[4], w.mix(x[0], x[12], 7)) && z[8] == w.xor(x[8], w.mix(z[4], x[0], 9))
      && z[12] == w.xor(x[12], w.mix(z[8], z[4], 13)) && z[0] == w.xor(x[0], w.mix(z[12], z[8], 18))
      && z[9] == w.xor(x[9], w.mix(x[5], x[1], 7)) && z[13] == w.xor(x[13], w.mix(z[9], x[5], 9))
      && z[1] == w.xor(x[1], w.mix(z[13], z[9], 13)) && z[5] == w.xor(x[5], w.mix(z[1], z[13], 18))
      && z[14] == w.xor(x[14], w.mix(x[10], x[6], 7)) && z[2] == w.xor(x[2], w.mix(z[14], x[10], 9))
      && z[6] == w.xor(x[6], w.mix(z[2], z[14], 13)) && z[10] == w.xor(x[10], w.mix(z[6], z[2], 18))
      && z[3] == w.xor(x[3], w.mix(x[15], x[11], 7)) && z[7] == w.xor(x[7], w.mix(z[3], x[15], 9))
      && z[11] == w.xor(x[11], w.mix(z[7], z[3], 13)) && z[15] == w.xor(x[15], w.mix(z[11], z[7], 18))
  {
    QuarterWords(Pick(x, 0, 4, 8, 12), w);
    QuarterWords(Pick(x, 5, 9, 13, 1), w);
    QuarterWords(Pick(x, 10, 14, 2, 6), w);
    QuarterWords(Pick(x, 15, 3, 7, 11), w);
  }

  lemma QuarterWords<W>(y: Quad<W>, w: Word<W>)
    ensures var z := QuarterRound(y, w);
      && z.y1 == w.xor(y.y1, w.mix(y.y0, y.y3, 7)) && z.y2 == w.xor(y.y2, w.mix(z.y1, y.y0, 9))
      && z.y3 == w.xor(y.y3, w.mix(z.y2, z.y1, 13)) && z.y0 == w.xor(y.y0, w.mix(z.y3, z.y2, 18))
  {
  }

  // ----- in place

  /** One column, four assignments. */
  method QuarterInPlace<W>(x: array<W>, a: nat, b: nat, c: nat, d: nat, w: Word<W>)
    requires a < x.Length && b < x.Length && c < x.Length && d < x.Length
    requires a != b && a != c && a != d && b != c && b != d && c != d
    modifies x
    ensures Quad(x[a], x[b], x[c], x[d]) == QuarterRound(old(Quad(x[a], x[b], x[c], x[d])), w)
    ensures forall i :: 0 <= i < x.Length && i != a && i != b && i != c && i != d ==> x[i] == old(x[i])
  {
    x[b] := w.xor(x[b], w.mix(x[a], x[d], 7));
    x[c] := w.xor(x[c], w.mix(x[b], x[a], 9));
    x[d] := w.xor(x[d], w.mix(x[c], x[b], 13));
    x[a] := w.xor(x[a], w.mix(x[d], x[c], 18));
  }

  /** The four columns of a lane, in place. */
  method RoundInPlace<W>(x: array<W>, o: nat, w: Word<W>)
    requires o + 16 <= x.Length
    modifies x
    ensures x[o..o + 16] == ColumnRound(old(x[o..o + 16]), w)
    ensures forall i :: 0 <= i < x.Length && !(o <= i < o + 16) ==> x[i] == old(x[i])
  {
    ghost var was := x[o..o + 16];
    QuarterInPlace(x, o + 0, o + 4, o + 8, o + 12, w);
    QuarterInPlace(x, o + 5, o + 9, o + 13, o + 1, w);
    QuarterInPlace(x, o + 10, o + 14, o + 2, o + 6, w);
    QuarterInPlace(x, o + 15, o + 3, o + 7, o + 11, w);
    ColumnsMatch(was, x[o..o + 16], w);
  }

  /** salsa_scrambler on the lanes at o: the round in place, then the copy. */
  method Scramble<W>(out: array<W>, x: array<W>, o: nat, w: Word<W>)
    requires o + 16 <= x.Length && o + 16 <= out.Length && out != x
    modifies out, x
    ensures x[o..o + 16] == ColumnRound(old(x[o..o + 16]), w) && out[o..o + 16] == x[o..o + 16]
    ensures forall i :: 0 <= i < x.Length && !(o <= i < o + 16) ==> x[i] == old(x[i])
    ensures forall i :: 0 <= i < out.Length && !(o <= i < o + 16) ==> out[i] == old(out[i])
  {
    RoundInPlace(x, o, w);
    ghost var now := x[..];
    for i := 0 to 16
      invariant x[..] == now
      invariant forall j :: o <= j < o + i ==> out[j] == now[j]
      invariant forall j :: 0 <= j < out.Length && !(o <= j < o + 16) ==> out[j] == old(out[j])
    {
      out[o + i] := x[o + i];
    }
  }

  lemma ColumnsMatch<W>(was: seq<W>, now: seq<W>, w: Word<W>)
    requires |was| == |now| == 16
    requires Pick(now, 0, 4, 8, 12) == QuarterRound(Pick(was, 0, 4, 8, 12), w)
    requires Pick(now, 5, 9, 13, 1) == QuarterRound(Pick(was, 5, 9, 13, 1), w)
    requires Pick(now, 10, 14, 2, 6) == QuarterRound(Pick(was, 10, 14, 2, 6), w)
    requires Pick(now, 15, 3, 7, 11) == QuarterRound(Pick(was, 15, 3, 7, 11), w)
    ensures now == ColumnRound(was, w)
  {
    LaneFromColumns(now);
  }

  // ----- the stream

  function Lane<W>(chunk: seq<W>, i: nat): seq<W>
    requires 16 * i + 16 <= |chunk|
  {
    chunk[16 * i..16 * i + 16]
  }

  function Rounds<W>(k: nat, x: seq<W>, w: Word<W>): seq<W> {
    if k == 0 then x else ColumnRound(Rounds(k - 1, x, w), w)
  }

  /** Every lane of chunk is the k-fold column round of the same lane of the seed. */
  ghost predicate After<W>(k: nat, seed: seq<W>, chunk: seq<W>, w: Word<W>) {
    && |chunk| == |seed| && |seed| % 16 == 0
    && forall i :: 0 <= i && 16 * i + 16 <= |seed| ==> Lane(chunk, i) == Rounds(k, Lane(seed, i), w)
  }

  /** The lanes below i have had one round, the words from there on none. */
  ghost predicate PassedTo<W>(was: seq<W>, now: seq<W>, i: nat, w: Word<W>) {
    && |now| == |was|
    && (forall j :: 0 <= j < i && 16 * j + 16 <= |was| ==> Lane(now, j) == ColumnRound(Lane(was, j), w))
    && (forall j :: 16 * i <= j < |was| ==> now[j] == was[j])
  }

  lemma LanesKept<W>(s: seq<W>, t: seq<W>, i: nat)
    requires |s| == |t| && 16 * i + 16 <= |s|
    requires forall j :: 16 * i <= j < 16 * i + 16 ==> s[j] == t[j]
    ensures Lane(s, i) == Lane(t, i)
  {
  }

  lemma PassedNext<W>(was: seq<W>, before: seq<W>, after: seq<W>, i: nat, w: Word<W>)
    requires PassedTo(was, before, i, w) && 16 * i + 16 <= |was| == |after|
    requires after[16 * i..16 * i + 16] == ColumnRound(before[16 * i..16 * i + 16], w)
    requires forall j :: 0 <= j < |was| && !(16 * i <= j < 16 * i + 16) ==> after[j] == before[j]
    ensures PassedTo(was, after, i + 1, w)
  {
    LanesKept(before, was, i);
    forall j | 0 <= j < i && 16 * j + 16 <= |was|
      ensures Lane(after, j) == ColumnRound(Lane(was, j), w)
    {
      LanesKept(after, before, j);
    }
  }

  lemma AfterNext<W>(k: nat, seed: seq<W>, was: seq<W>, now: seq<W>, w: Word<W>)
    requires After(k, seed, was, w) && PassedTo(was, now, |was| / 16, w)
    ensures After(k + 1, seed, now, w)
  {
  }

  /** One pass over all lanes: both buffers end up equal. */
  method Pass<W>(output: array<W>, input: array<W>, w: Word<W>)
    requires output != input && output.Length == input.Length && input.Length % 16 == 0
    modifies output, input
    ensures PassedTo(old(input[..]), input[..], input.Length / 16, w) && output[..] == input[..]
  {
    ghost var was := input[..];
    for i := 0 to input.Length / 16
      invariant PassedTo(was, input[..], i, w)
      invariant output[..16 * i] == input[..16 * i]
    {
      ghost var before := input[..];
      Scramble(output, input, 16 * i, w);
      PassedNext(was, before, input[..], i, w);
      assert output[..16 * (i + 1)] == output[..16 * i] + output[16 * i..16 * i + 16];
      assert input[..16 * (i + 1)] == input[..16 * i] + input[16 * i..16 * i + 16];
    }
    assert output[..] == output[..output.Length];
  }

  lemma SeedIsAfter0<W>(seed: seq<W>, w: Word<W>)
    requires |seed| % 16 == 0
    ensures After(0, seed, seed, w)
  {
  }

  /** The k-th chunk, counted from 1, is the seed after k rounds of every lane. */
  ghost predicate IsStream<W>(seed: seq<W>, written: seq<seq<W>>, w: Word<W>) {
    forall k :: 0 <= k < |written| ==> After(k + 1, seed, written[k], w)
  }

  lemma StreamNext<W>(seed: seq<W>, written: seq<seq<W>>, chunk: seq<W>, w: Word<W>)
    requires IsStream(seed, written, w) && After(|written| + 1, seed, chunk, w)
    ensures IsStream(seed, written + [chunk], w)
  {
    forall k | 0 <= k < |written|
      ensures After(k + 1, seed, (written + [chunk])[k], w)
    {
      assert After(k + 1, seed, written[k], w);
    }
  }

  /** main, cut after a number of passes. The k-th chunk written is the k-fold column round of
      every lane of the seed; swapping the buffers never matters. */
  method Stream<W>(bufA: array<W>, bufB: array<W>, passes: nat, w: Word<W>) returns (written: seq<seq<W>>)
    requires bufA != bufB && bufA.Length == bufB.Length && bufA.Length % 16 == 0
    modifies bufA, bufB
    ensures |written| == passes
    ensures IsStream(old(bufA[..]), written, w)
    ensures passes > 0 ==> bufA[..] == bufB[..] == written[passes - 1]
  {
    ghost var seed := bufA[..];
    var input, output := bufA, bufB;
    written := [];
    SeedIsAfter0(seed, w);
    while |written| < passes
      invariant |written| <= passes
      invariant (input == bufA && output == bufB) || (input == bufB && output == bufA)
      invariant After(|written|, seed, input[..], w)
      invariant written != [] ==> input[..] == output[..] == written[|written| - 1]
      invariant IsStream(seed, written, w)
    {
      ghost var was := input[..];
      Pass(output, input, w);
      AfterNext(|written|, seed, was, input[..], w);
      StreamNext(seed, written, output[..], w);
      written := written + [output[..]];
      output, input := input, output;
    }
  }

  lemma {:induction false} RoundsAdd<W>(j: nat, k: nat, x: seq<W>, w: Word<W>)
    ensures Rounds(j + k, x, w) == Rounds(j, Rounds(k, x, w), w)
  {
    if j > 0 {
      RoundsAdd(j - 1, k, x, w);
    }
  }

  lemma {:induction false} RoundsInjective<W(!new)>(k: nat, x: seq<W>, y: seq<W>, w: Word<W>)
    requires Undoes(w) && Rounds(k, x, w) == Rounds(k, y, w)
    ensures x == y
  {
    if k > 0 {
      ColumnRoundBijective(Rounds(k - 1, x, w), w);
      ColumnRoundBijective(Rounds(k - 1, y, w), w);
      RoundsInjective(k - 1, x, y, w);
    }
  }

  /** The stream can only repeat by coming back to its seed: if chunks i and j coincide, chunk
      j - i is the seed. */
  lemma RepeatsThroughSeed<W(!new)>(seed: seq<W>, i: nat, j: nat, gap: nat, a: seq<W>, c: seq<W>, w: Word<W>)
    requires Undoes(w) && i < j && gap == j - i
    requires After(i, seed, a, w) && After(j, seed, a, w) && After(gap, seed, c, w)
    ensures c == seed
  {
    forall l | 0 <= l < |seed| / 16
      ensures Lane(c, l) == Lane(seed, l)
    {
      LaneRepeats(i, j, Lane(seed, l), w);
    }
    SameLanes(c, seed);
  }

  lemma LaneRepeats<W(!new)>(i: nat, j: nat, x: seq<W>, w: Word<W>)
    requires Undoes(w) && i < j && Rounds(i, x, w) == Rounds(j, x, w)
    ensures Rounds(j - i, x, w) == x
  {
    RoundsAdd(i, j - i, x, w);
    RoundsInjective(i, Rounds(j - i, x, w), x, w);
  }

  lemma SameLanes<W>(a: seq<W>, b: seq<W>)
    requires |a| == |b| && |a| % 16 == 0
    requires forall l :: 0 <= l < |a| / 16 ==> Lane(a, l) == Lane(b, l)
    ensures a == b
  {
    forall k | 0 <= k < |a|
      ensures a[k] == b[k]
    {
      var l := k / 16;
      assert Lane(a, l) == Lane(b, l);
      assert a[k] == Lane(a, l)[k - 16 * l] && b[k] == Lane(b, l)[k - 16 * l];
    }
  }

  lemma StreamRepeats<W(!new)>(seed: seq<W>, written: seq<seq<W>>, w: Word<W>)
    requires Undoes(w) && IsStream(seed, written, w)
    ensures forall i, j :: 0 <= i < j < |written| && written[i] == written[j] ==> written[j - i - 1] == seed
  {
    forall i, j | 0 <= i < j < |written| && written[i] == written[j]
      ensures written[j - i - 1] == seed
    {
      ChunksRepeat(seed, written, i, j, w);
    }
  }

  lemma ChunksRepeat<W(!new)>(seed: seq<W>, written: seq<seq<W>>, i: nat, j: nat, w: Word<W>)
    requires Undoes(w) && IsStream(seed, written, w) && i < j < |written| && written[i] == written[j]
    ensures written[j - i - 1] == seed
  {
    var first, second, gap, a, c := i + 1, j + 1, j - i, written[i], written[j - i - 1];
    assert After(first, seed, a, w) && After(second, seed, a, w) && After(gap, seed, c, w) by {
      ChunkOf(seed, written, first, a, w);
      ChunkOf(seed, written, second, a, w);
      ChunkOf(seed, written, gap, c, w);
    }
    RepeatsThroughSeed(seed, first, second, gap, a, c, w);
  }

  lemma ChunkOf<W>(seed: seq<W>, written: seq<seq<W>>, k: nat, chunk: seq<W>, w: Word<W>)
    requires IsStream(seed, written, w) && 0 < k <= |written| && chunk == written[k - 1]
    ensures After(k, seed, chunk, w)
  {
    assert After(k - 1 + 1, seed, written[k - 1], w);
  }

  // ----- 32-bit words

  /** R(a,b): rotate left. */
  function Rotate(a: bv32, b: Shift): bv32 {
    (a << b) | (a >> (32 - b))
  }

  function Mix32(a: bv32, b: bv32, k: Shift): bv32 {
    Rotate(a + b, k)
  }

  function Xor32(a: bv32, b: bv32): bv32 {
    a ^ b
  }

  const WORD32: Word<bv32> := Word(Mix32, Xor32)

  /** Bit i of the word comes to place i + b, and round to the other end past bit 31. */
  lemma RotateMovesBits(a: bv32, b: Shift, i: bv32)
    requires i < 32
    ensures (Rotate(a, b) >> (if i + b < 32 then i + b else i + b - 32)) & 1 == (a >> i) & 1
  {
    if i + b < 32 {
      MovedUp(a, b, i);
    } else {
      MovedRound(a, b, i);
    }
  }

  lemma MovedUp(a: bv32, b: bv32, i: bv32)
    requires 0 < b < 32 && i < 32 && i + b < 32
    ensures (((a << b) | (a >> (32 - b))) >> (i + b)) & 1 == (a >> i) & 1
  {
  }

  lemma MovedRound(a: bv32, b: bv32, i: bv32)
    requires 0 < b < 32 && i < 32 && i + b >= 32
    ensures (((a << b) | (a >> (32 - b))) >> (i + b - 32)) & 1 == (a >> i) & 1
  {
  }

  lemma XorTwice(a: bv32, b: bv32)
    ensures (a ^ b) ^ b == a
  {
  }

  lemma Word32Undoes()
    ensures Undoes(WORD32)
  {
    forall a, b
      ensures WORD32.xor(WORD32.xor(a, b), b) == a
    {
      XorTwice(a, b);
    }
  }

  /** What the words are mixed with: addition without carry out of 32 bits, rotation, exclusive or. */
  lemma Word32Is(a: bv32, b: bv32, k: Shift)
    ensures WORD32.mix(a, b, k) == Rotate(a + b, k) && WORD32.xor(a, b) == a ^ b
  {
  }

  lemma ExampleWords()
    ensures WORD32.xor(0, WORD32.mix(1, 0, 7)) == 0x80
    ensures WORD32.xor(0, WORD32.mix(0x80, 1, 9)) == 0x1_0200
    ensures WORD32.xor(0, WORD32.mix(0x1_0200, 0x80, 13)) == 0x2050_0000
    ensures WORD32.xor(1, WORD32.mix(0x2050_0000, 0x1_0200, 18)) == 0x0800_8145
  {
    Word32Is(1, 0, 7);
    Word32Is(0x80, 1, 9);
    Word32Is(0x1_0200, 0x80, 13);
    Word32Is(0x2050_0000, 0x1_0200, 18);
    assert Rotate(1, 7) == 0x80 && Rotate(0x81, 9) == 0x1_0200;
    assert Rotate(0x1_0280, 13) == 0x2050_0000 && Rotate(0x2051_0200, 18) == 0x0800_8144;
  }

  lemma QuarterBySteps<W>(y: Quad<W>, z: Quad<W>, w: Word<W>)
    requires z.y1 == w.xor(y.y1, w.mix(y.y0, y.y3, 7)) && z.y2 == w.xor(y.y2, w.mix(z.y1, y.y0, 9))
    requires z.y3 == w.xor(y.y3, w.mix(z.y2, z.y1, 13)) && z.y0 == w.xor(y.y0, w.mix(z.y3, z.y2, 18))
    ensures QuarterRound(y, w) == z
  {
  }

  /** An example of quarterround in section 3 of the Salsa20 specification. */
  lemma QuarterRoundExample()
    ensures QuarterRound(Quad(1, 0, 0, 0), WORD32) == Quad(0x0800_8145, 0x80, 0x1_0200, 0x2050_0000)
  {
    ExampleWords();
    QuarterBySteps(Quad(1, 0, 0, 0), Quad(0x0800_8145, 0x80, 0x1_0200, 0x2050_0000), WORD32);
  }

  /** The scrambler's own 32-bit round has an inverse on every 16-word state. */
  lemma SalsaScramblerBijective(x: seq<bv32>)
    ensures UndoColumnRound(ColumnRound(x, WORD32), WORD32) == x
    ensures ColumnRound(UndoColumnRound(x, WORD32), WORD32) == x
  {
    Word32Undoes();
    ColumnRoundBijective(x, WORD32);
  }

  /** salsa_scrambler */
  method SalsaScrambler(out: array<bv32>, x: array<bv32>, o: nat)
    requires o + 16 <= x.Length && o + 16 <= out.Length && out != x
    modifies out, x
    ensures x[o..o + 16] == ColumnRound(old(x[o..o + 16]), WORD32) && out[o..o + 16] == x[o..o + 16]
    ensures forall i :: 0 <= i < x.Length && !(o <= i < o + 16) ==> x[i] == old(x[i])
    ensures forall i :: 0 <= i < out.Length && !(o <= i < o + 16) ==> out[i] == old(out[i])
  {
    Scramble(out, x, o, WORD32);
  }

  const CHUNK := 2048

  /** From chunk to chunk, beginning with the seed: each of the 128 lanes has had one more round. */
  lemma LanesAdvance<W>(seed: seq<W>, written: seq<seq<W>>, k: nat, l: nat, w: Word<W>)
    requires IsStream(seed, written, w) && k < |written| && |seed| == 2048 && l < 128
    ensures |written[k]| == 2048
    ensures var before := if k == 0 then seed else written[k - 1];
      |before| == 2048 && written[k][16 * l..16 * l + 16] == ColumnRound(before[16 * l..16 * l + 16], w)
  {
    var before := if k == 0 then seed else written[k - 1];
    if k > 0 {
      ChunkOf(seed, written, k, before, w);
    }
    ChunkOf(seed, written, k + 1, written[k], w);
    LaneAfter(k, seed, before, l, w);
    LaneAfter(k + 1, seed, written[k], l, w);
  }

  lemma LaneAfter<W>(k: nat, seed: seq<W>, chunk: seq<W>, l: nat, w: Word<W>)
    requires (k == 0 && chunk == seed) || After(k, seed, chunk, w)
    requires 16 * l + 16 <= |seed|
    ensures |chunk| == |seed| && Lane(chunk, l) == Rounds(k, Lane(seed, l), w)
  {
  }

  /** main's two buffers of CHUNK words. */
  method ScramblerMain(bufA: array<bv32>, bufB: array<bv32>, passes: nat) returns (written: seq<seq<bv32>>)
    requires bufA != bufB && bufA.Length == bufB.Length == CHUNK
    modifies bufA, bufB
    ensures |written| == passes && IsStream(old(bufA[..]), written, WORD32)
    ensures passes > 0 ==> bufA[..] == bufB[..] == written[passes - 1]
    ensures forall k :: 0 <= k < passes ==> |written[k]| == 2048
    ensures forall i, j :: 0 <= i < j < passes && written[i] == written[j] ==> written[j - i - 1] == old(bufA[..])
  {
    written := Stream(bufA, bufB, passes, WORD32);
    Word32Undoes();
    StreamRepeats(old(bufA[..]), written, WORD32);
    forall k | 0 <= k < passes
      ensures |written[k]| == 2048
    {
      ChunkOf(old(bufA[..]), written, k + 1, written[k], WORD32);
    }
  }
}
