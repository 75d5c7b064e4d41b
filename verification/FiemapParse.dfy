/** fiemap.py: the buffer of a FIEMAP call as bytes, the parser that reads it back, and the protocol
    of asking once for the number of extents and once for the extents. */
module FiemapParse {
  import opened Bytes

  datatype Result<+T> = Ok(value: T) | StructError

  // ----- the struct module, '=' formats: standard sizes, no padding, little endian

  const HEADER: seq<nat> := [8, 8, 4, 4, 4, 4]
  const EXTENT: seq<nat> := [8, 8, 8, 8, 8, 4, 4, 4, 4]
  const SF: nat := 32
  const SFE: nat := 56

  function CalcSize(widths: seq<nat>): nat {
    if widths == [] then 0 else widths[0] + CalcSize(widths[1..])
  }

  function Power256(w: nat): nat {
    if w == 0 then 1 else 256 * Power256(w - 1)
  }

  function ToBytes(n: nat, w: nat): (r: seq<Byte>)
    ensures |r| == w
  {
    if w == 0 then [] else [n % 256] + ToBytes(n / 256, w - 1)
  }

  function FromBytes(s: seq<Byte>): nat {
    if s == [] then 0 else s[0] + 256 * FromBytes(s[1..])
  }

  predicate InRange(vals: seq<nat>, widths: seq<nat>) {
    |vals| == |widths| && forall i :: 0 <= i < |vals| ==> vals[i] < Power256(widths[i])
  }

  function Pack(vals: seq<nat>, widths: seq<nat>): (r: seq<Byte>)
    requires |vals| == |widths|
    ensures |r| == CalcSize(widths)
  {
    if vals == [] then [] else ToBytes(vals[0], widths[0]) + Pack(vals[1..], widths[1..])
  }

  function Fields(s: seq<Byte>, widths: seq<nat>): (r: seq<nat>)
    requires |s| == CalcSize(widths)
    ensures |r| == |widths|
  {
    if widths == [] then [] else [FromBytes(s[..widths[0]])] + Fields(s[widths[0]..], widths[1..])
  }

  /** struct.unpack refuses a string of any other length. */
  function Unpack(s: seq<Byte>, widths: seq<nat>): Result<seq<nat>> {
    if |s| == CalcSize(widths) then Ok(Fields(s, widths)) else StructError
  }

  lemma {:induction false} BytesRoundTrip(n: nat, w: nat)
    requires n < Power256(w)
    ensures FromBytes(ToBytes(n, w)) == n
  {
    if w > 0 {
      BytesRoundTrip(n / 256, w - 1);
      assert ToBytes(n, w)[1..] == ToBytes(n / 256, w - 1);
    }
  }

  lemma {:induction false} PackRoundTrip(vals: seq<nat>, widths: seq<nat>)
    requires InRange(vals, widths)
    ensures Unpack(Pack(vals, widths), widths) == Ok(vals)
  {
    if vals != [] {
      var s := Pack(vals, widths);
      BytesRoundTrip(vals[0], widths[0]);
      PackRoundTrip(vals[1..], widths[1..]);
      assert s[..widths[0]] == ToBytes(vals[0], widths[0]);
      assert s[widths[0]..] == Pack(vals[1..], widths[1..]);
      assert vals == [vals[0]] + vals[1..];
    }
  }

  lemma Sizes()
    ensures CalcSize(HEADER) == SF && CalcSize(EXTENT) == SFE
  {
    assert HEADER[1..] == [8, 4, 4, 4, 4] && HEADER[1..][1..] == [4, 4, 4, 4];
    assert [4, 4, 4, 4][1..] == [4, 4, 4] && [4, 4, 4][1..] == [4, 4] && [4, 4][1..] == [4] && [4][1..] == [];
    assert EXTENT[1..] == [8, 8, 8, 8, 4, 4, 4, 4] && EXTENT[1..][1..] == [8, 8, 8, 4, 4, 4, 4];
    assert [8, 8, 8, 4, 4, 4, 4][1..] == [8, 8, 4, 4, 4, 4] == HEADER;
  }

  // ----- what is parsed out

  /** _flags: the bits that have a name. */
  const FLAGS: map<nat, string> :=
    map[0x2 := "unknown", 0x4 := "delalloc", 0x80 := "encrypted", 0x100 := "not_aligned", 0x200 := "inline",
        0x400 := "tail_packed", 0x800 := "unwritten", 0x1000 := "merged", 0x1 := "eof"]

  /** x & z > 0 for a single bit z. */
  predicate BitSet(x: nat, z: nat)
    requires z > 0
  {
    x / z % 2 == 1
  }

  /** The names of the set bits; the program joins them in the dictionary's arbitrary order. */
  function FlagNames(x: nat): set<string> {
    set z | z in FLAGS && z > 0 && BitSet(x, z) :: FLAGS[z]
  }

  datatype Extent = Extent(logical: nat, physical: nat, length: nat, flags: set<string>)

  datatype Fiemap = Fiemap(start: nat, length: nat, flags: nat, mappedExtents: nat, extentCount: nat,
                           extents: seq<Extent>)

  function Slice(s: seq<Byte>, i: nat, j: nat): seq<Byte>
    requires i <= j
  {
    if |s| <= i then [] else if |s| <= j then s[i..] else s[i..j]
  }

  function ToExtent(x: seq<nat>): Extent
    requires |x| == 9
  {
    Extent(x[0], x[1], x[2], FlagNames(x[5]))
  }

  function ReadRecord(b: seq<Byte>): Result<Extent> {
    match Unpack(b, EXTENT)
    case Ok(x) => Ok(ToExtent(x))
    case StructError => StructError
  }

  /** The record at index e, if the string is long enough for it. */
  function RecordAt(s: seq<Byte>, e: nat, read: Reader): Result<Extent> {
    read(Slice(s, SFE * e, SFE * e + SFE))
  }

  type Reader = seq<Byte> -> Result<Extent>

  type Packer = Record -> seq<Byte>

  /** The records one after the other, or the error of the first that is cut short. */
  function ParsedExtents(s: seq<Byte>, num: nat, read: Reader): Result<seq<Extent>> {
    if num == 0 then Ok([])
    else
      match ParsedExtents(s, num - 1, read)
      case StructError => StructError
      case Ok(front) =>
        match RecordAt(s, num - 1, read)
        case StructError => StructError
        case Ok(x) => Ok(front + [x])
  }

  function Parsed(s: seq<Byte>): Result<Fiemap> {
    match Unpack(Slice(s, 0, SF), HEADER)
    case StructError => StructError
    case Ok(h) =>
      match ParsedExtents(Slice(s, SF, SF + |s|), h[4], ReadRecord)
      case StructError => StructError
      case Ok(extents) => Ok(Fiemap(h[0], h[1], h[2], h[3], h[4], extents))
  }

  /** parse_fiemap_extents; read is what its loop body does with the bytes of one record. */
  method ParseFiemapExtents(s: seq<Byte>, num: nat, read: Reader) returns (r: Result<seq<Extent>>)
    ensures r == ParsedExtents(s, num, read)
  {
    var ex: seq<Extent> := [];
    for e := 0 to num
      invariant ParsedExtents(s, e, read) == Ok(ex)
    {
      var i := SFE * e;
      var x := read(Slice(s, i, i + SFE));
      if x.StructError? {
        ErrorPropagates(s, e + 1, num, read);
        return StructError;
      }
      ex := ex + [x.value];
    }
    return Ok(ex);
  }

  /** parse_fiemap takes the record count from the extent_count field. */
  method ParseFiemap(s: seq<Byte>) returns (r: Result<Fiemap>)
    ensures r == Parsed(s)
  {
    var res := Unpack(Slice(s, 0, SF), HEADER);
    if res.StructError? {
      return StructError;
    }
    var h := res.value;
    var extents := ParseFiemapExtents(Slice(s, SF, SF + |s|), h[4], ReadRecord);
    if extents.StructError? {
      return StructError;
    }
    return Ok(Fiemap(h[0], h[1], h[2], h[3], h[4], extents.value));
  }

  lemma {:induction false} ErrorPropagates(s: seq<Byte>, k: nat, num: nat, read: Reader)
    requires k <= num && ParsedExtents(s, k, read) == StructError
    ensures ParsedExtents(s, num, read) == StructError
  {
    if k < num {
      ErrorPropagates(s, k, num - 1, read);
    }
  }

  /** The parser stops with an error exactly when the records asked for do not fit the string. */
  lemma {:induction false} ParsedExtentsFit(s: seq<Byte>, num: nat, read: Reader)
    requires forall b :: read(b).Ok? <==> |b| == SFE
    ensures ParsedExtents(s, num, read).Ok? <==> SFE * num <= |s|
    ensures ParsedExtents(s, num, read).Ok? ==> |ParsedExtents(s, num, read).value| == num
  {
    if num > 0 {
      ParsedExtentsFit(s, num - 1, read);
    }
  }

  lemma ReadRecordSize()
    ensures forall b :: ReadRecord(b).Ok? <==> |b| == SFE
  {
    Sizes();
  }

  /** The number in the four bytes where the header has extent_count. */
  function CountField(s: seq<Byte>): nat
    requires |s| >= SF
  {
    FromBytes(s[24..28])
  }

  /** Where field j of a format begins. */
  function Offset(widths: seq<nat>, j: nat): nat
    requires j <= |widths|
  {
    if j == 0 then 0 else widths[0] + Offset(widths[1..], j - 1)
  }

  lemma {:induction false} OffsetFits(widths: seq<nat>, j: nat)
    requires j < |widths|
    ensures Offset(widths, j) + widths[j] <= CalcSize(widths)
  {
    if j > 0 {
      OffsetFits(widths[1..], j - 1);
    }
  }

  lemma SliceOfDrop(s: seq<Byte>, a: nat, b: nat, c: nat)
    requires b <= c && a + c <= |s|
    ensures s[a..][b..c] == s[a + b..a + c]
  {
  }

  function FieldBytes(s: seq<Byte>, widths: seq<nat>, j: nat): seq<Byte>
    requires |s| == CalcSize(widths) && j < |widths|
  {
    OffsetFits(widths, j);
    s[Offset(widths, j)..Offset(widths, j) + widths[j]]
  }

  lemma {:induction false} FieldIs(s: seq<Byte>, widths: seq<nat>, j: nat)
    requires |s| == CalcSize(widths) && j < |widths|
    ensures Fields(s, widths)[j] == FromBytes(FieldBytes(s, widths, j))
  {
    if j > 0 {
      var off := Offset(widths[1..], j - 1);
      OffsetFits(widths[1..], j - 1);
      FieldIs(s[widths[0]..], widths[1..], j - 1);
      SliceOfDrop(s, widths[0], off, off + widths[j]);
    }
  }

  lemma CountOffset()
    ensures Offset(HEADER, 4) == 24
  {
    var w1, w2, w3, w4 := [8, 4, 4, 4, 4], [4, 4, 4, 4], [4, 4, 4], [4, 4];
    assert HEADER[1..] == w1 && w1[1..] == w2 && w2[1..] == w3 && w3[1..] == w4;
    assert Offset(w3, 1) == 4 && Offset(w2, 2) == 8 && Offset(w1, 3) == 16;
  }

  lemma CountIsFifthField(s: seq<Byte>)
    requires |s| == SF
    ensures CalcSize(HEADER) == |s| && Fields(s, HEADER)[4] == CountField(s)
  {
    Sizes();
    CountOffset();
    FieldIs(s, HEADER, 4);
  }

  /** parse_fiemap succeeds exactly when the string holds a header and all the records its
      extent_count promises; it never reads past the end. */
  lemma ParsedFits(s: seq<Byte>)
    ensures Parsed(s).Ok? <==> |s| >= SF && SF + SFE * CountField(s) <= |s|
    ensures Parsed(s).Ok? ==> |Parsed(s).value.extents| == Parsed(s).value.extentCount == CountField(s)
  {
    var head, rest := Slice(s, 0, SF), Slice(s, SF, SF + |s|);
    if |s| < SF {
      HeaderCutShort(s);
    } else {
      assert head == s[..SF] && head[24..28] == s[24..28];
      CountIsFifthField(head);
      RecordsFit(rest, CountField(s));
      ParsedAfterHeader(s, Fields(head, HEADER));
    }
  }

  lemma HeaderCutShort(s: seq<Byte>)
    requires |s| < SF
    ensures Parsed(s) == StructError
  {
    Sizes();
    assert |Slice(s, 0, SF)| == |s|;
  }

  lemma RecordsFit(s: seq<Byte>, num: nat)
    ensures ParsedExtents(s, num, ReadRecord).Ok? <==> SFE * num <= |s|
    ensures ParsedExtents(s, num, ReadRecord).Ok? ==> |ParsedExtents(s, num, ReadRecord).value| == num
  {
    ReadRecordSize();
    ParsedExtentsFit(s, num, ReadRecord);
  }

  lemma ParsedAfterHeader(s: seq<Byte>, h: seq<nat>)
    requires |h| == 6 && Unpack(Slice(s, 0, SF), HEADER) == Ok(h)
    ensures var x := ParsedExtents(Slice(s, SF, SF + |s|), h[4], ReadRecord);
      && (Parsed(s).Ok? <==> x.Ok?)
      && (x.Ok? ==> Parsed(s).value.extents == x.value && Parsed(s).value.extentCount == h[4])
  {
  }

  // ----- what is parsed, in bytes and bits

  /** Numbers are read least byte first. */
  lemma FourBytes(s: seq<Byte>)
    requires |s| == 4
    ensures FromBytes(s) == s[0] as int + 0x100 * (s[1] as int) + 0x1_0000 * (s[2] as int) + 0x100_0000 * (s[3] as int)
  {
    assert s[1..][1..] == s[2..] && s[2..][1..] == s[3..] && s[3..][1..] == [];
    assert FromBytes(s[3..]) == s[3];
    assert FromBytes(s[2..]) == s[2] as int + 0x100 * FromBytes(s[3..]);
    assert FromBytes(s[1..]) == s[1] as int + 0x100 * FromBytes(s[2..]);
  }

  lemma EightBytes(s: seq<Byte>)
    requires |s| == 8
    ensures FromBytes(s) == FromBytes(s[..4]) + 0x1_0000_0000 * FromBytes(s[4..])
  {
    FourBytes(s[..4]);
    assert s[1..][1..] == s[2..] && s[2..][1..] == s[3..] && s[3..][1..] == s[4..];
    assert FromBytes(s[3..]) == s[3] as int + 0x100 * FromBytes(s[4..]);
    assert FromBytes(s[2..]) == s[2] as int + 0x100 * FromBytes(s[3..]);
    assert FromBytes(s[1..]) == s[1] as int + 0x100 * FromBytes(s[2..]);
  }

  lemma RecordOffsets()
    ensures Offset(EXTENT, 0) == 0 && Offset(EXTENT, 1) == 8 && Offset(EXTENT, 2) == 16 && Offset(EXTENT, 5) == 40
  {
    var w1, w2, w3, w4 := [8, 8, 8, 8, 4, 4, 4, 4], [8, 8, 8, 4, 4, 4, 4], [8, 8, 4, 4, 4, 4], [8, 4, 4, 4, 4];
    assert EXTENT[1..] == w1 && w1[1..] == w2 && w2[1..] == w3 && w3[1..] == w4;
    assert Offset(w4, 1) == 8 && Offset(w3, 2) == 16 && Offset(w2, 3) == 24 && Offset(w1, 4) == 32;
    assert Offset(w1, 1) == 8;
  }

  lemma HeaderOffsets()
    ensures Offset(HEADER, 0) == 0 && Offset(HEADER, 1) == 8 && Offset(HEADER, 2) == 16 && Offset(HEADER, 3) == 20
    ensures Offset(HEADER, 5) == 28
  {
    var w1, w2, w3, w4 := [8, 4, 4, 4, 4], [4, 4, 4, 4], [4, 4, 4], [4, 4];
    assert HEADER[1..] == w1 && w1[1..] == w2 && w2[1..] == w3 && w3[1..] == w4;
    assert Offset(w2, 1) == 4 && Offset(w1, 1) == 8 && Offset(w1, 2) == 12;
    assert Offset(w4, 1) == 4 && Offset(w3, 2) == 8 && Offset(w2, 3) == 12 && Offset(w1, 4) == 20;
  }

  /** A record of 56 bytes: logical offset in bytes 0 to 8, physical offset in 8 to 16, length in 16 to
      24, flags in 40 to 44. */
  lemma RecordFromBytes(b: seq<Byte>)
    requires |b| == 56
    ensures ReadRecord(b)
         == Ok(Extent(FromBytes(b[0..8]), FromBytes(b[8..16]), FromBytes(b[16..24]), FlagNames(FromBytes(b[40..44]))))
  {
    Sizes();
    RecordOffsets();
    FieldIs(b, EXTENT, 0);
    FieldIs(b, EXTENT, 1);
    FieldIs(b, EXTENT, 2);
    FieldIs(b, EXTENT, 5);
  }

  lemma HeaderFromBytes(s: seq<Byte>)
    requires |s| == 32
    ensures CalcSize(HEADER) == |s|
    ensures var h := Fields(s, HEADER);
      && h[0] == FromBytes(s[0..8]) && h[1] == FromBytes(s[8..16]) && h[2] == FromBytes(s[16..20])
      && h[3] == FromBytes(s[20..24]) && h[4] == FromBytes(s[24..28])
  {
    Sizes();
    HeaderOffsets();
    CountIsFifthField(s);
    FieldIs(s, HEADER, 0);
    FieldIs(s, HEADER, 1);
    FieldIs(s, HEADER, 2);
    FieldIs(s, HEADER, 3);
  }

  lemma {:induction false} ExtentIsRecord(s: seq<Byte>, num: nat, e: nat, read: Reader)
    requires ParsedExtents(s, num, read).Ok? && e < num
    ensures |ParsedExtents(s, num, read).value| == num
    ensures RecordAt(s, e, read) == Ok(ParsedExtents(s, num, read).value[e])
  {
    ParsedSize(s, num, read);
    ParsedSize(s, num - 1, read);
    if e < num - 1 {
      ExtentIsRecord(s, num - 1, e, read);
    }
  }

  lemma {:induction false} ParsedSize(s: seq<Byte>, num: nat, read: Reader)
    requires ParsedExtents(s, num, read).Ok?
    ensures |ParsedExtents(s, num, read).value| == num
  {
    if num > 0 {
      ParsedSize(s, num - 1, read);
    }
  }

  /** Whatever string is parsed: extent e comes from the 56 bytes at 32 + 56 * e. */
  lemma ExtentFromBytes(s: seq<Byte>, e: nat)
    requires Parsed(s).Ok? && e < |Parsed(s).value.extents|
    ensures 32 + 56 * e + 56 <= |s|
    ensures var b := s[32 + 56 * e..32 + 56 * e + 56];
      Parsed(s).value.extents[e]
      == Extent(FromBytes(b[0..8]), FromBytes(b[8..16]), FromBytes(b[16..24]), FlagNames(FromBytes(b[40..44])))
  {
    ParsedFits(s);
    var head, rest := Slice(s, 0, SF), Slice(s, SF, SF + |s|);
    assert head == s[..SF] && head[24..28] == s[24..28] && rest == s[32..];
    CountIsFifthField(head);
    ParsedAfterHeader(s, Fields(head, HEADER));
    SliceOfDrop(s, 32, 56 * e, 56 * e + 56);
    ExtentOfRest(rest, CountField(s), e, s[32 + 56 * e..32 + 56 * e + 56]);
  }

  lemma ExtentOfRest(rest: seq<Byte>, num: nat, e: nat, b: seq<Byte>)
    requires ParsedExtents(rest, num, ReadRecord).Ok? && e < num
    requires 56 * e + 56 <= |rest| && b == rest[56 * e..56 * e + 56]
    ensures |ParsedExtents(rest, num, ReadRecord).value| == num
    ensures ParsedExtents(rest, num, ReadRecord).value[e]
         == Extent(FromBytes(b[0..8]), FromBytes(b[8..16]), FromBytes(b[16..24]), FlagNames(FromBytes(b[40..44])))
  {
    ExtentIsRecord(rest, num, e, ReadRecord);
    assert Slice(rest, SFE * e, SFE * e + SFE) == b;
    RecordFromBytes(b);
  }

  /** The header of whatever string is parsed. */
  lemma FiemapFromBytes(s: seq<Byte>)
    requires Parsed(s).Ok?
    ensures |s| >= 32
    ensures var r := Parsed(s).value;
      && r.start == FromBytes(s[0..8]) && r.length == FromBytes(s[8..16]) && r.flags == FromBytes(s[16..20])
      && r.mappedExtents == FromBytes(s[20..24]) && r.extentCount == FromBytes(s[24..28])
  {
    ParsedFits(s);
    var head := s[..32];
    assert Slice(s, 0, SF) == head;
    HeaderFromBytes(head);
    HeaderGoesThrough(s, Fields(head, HEADER));
    assert head[0..8] == s[0..8] && head[8..16] == s[8..16] && head[16..20] == s[16..20];
    assert head[20..24] == s[20..24] && head[24..28] == s[24..28];
  }

  lemma HeaderGoesThrough(s: seq<Byte>, h: seq<nat>)
    requires |h| == 6 && Unpack(Slice(s, 0, SF), HEADER) == Ok(h) && Parsed(s).Ok?
    ensures var r := Parsed(s).value;
      r.start == h[0] && r.length == h[1] && r.flags == h[2] && r.mappedExtents == h[3] && r.extentCount == h[4]
  {
  }

  /** Each name and the bit that shows it. */
  lemma NamedBits(x: nat)
    ensures "eof" in FlagNames(x) <==> x / 0x1 % 2 == 1
    ensures "unknown" in FlagNames(x) <==> x / 0x2 % 2 == 1
    ensures "delalloc" in FlagNames(x) <==> x / 0x4 % 2 == 1
    ensures "encrypted" in FlagNames(x) <==> x / 0x80 % 2 == 1
    ensures "not_aligned" in FlagNames(x) <==> x / 0x100 % 2 == 1
    ensures "inline" in FlagNames(x) <==> x / 0x200 % 2 == 1
    ensures "tail_packed" in FlagNames(x) <==> x / 0x400 % 2 == 1
    ensures "unwritten" in FlagNames(x) <==> x / 0x800 % 2 == 1
    ensures "merged" in FlagNames(x) <==> x / 0x1000 % 2 == 1
  {
    FlagShownIff(x, 0x1);
    FlagShownIff(x, 0x2);
    FlagShownIff(x, 0x4);
    FlagShownIff(x, 0x80);
    FlagShownIff(x, 0x100);
    FlagShownIff(x, 0x200);
    FlagShownIff(x, 0x400);
    FlagShownIff(x, 0x800);
    FlagShownIff(x, 0x1000);
  }

  // ----- serialised headers and records

  datatype Header = Header(start: nat, length: nat, flags: nat, mappedExtents: nat, extentCount: nat, reserved: nat)

  /** struct fiemap_extent with its reserved words. */
  datatype Record = Record(logical: nat, physical: nat, length: nat, r0: nat, r1: nat,
                           flags: nat, r2: nat, r3: nat, r4: nat)

  function HeaderFields(h: Header): seq<nat> {
    [h.start, h.length, h.flags, h.mappedExtents, h.extentCount, h.reserved]
  }

  function RecordFields(x: Record): seq<nat> {
    [x.logical, x.physical, x.length, x.r0, x.r1, x.flags, x.r2, x.r3, x.r4]
  }

  function PackHeader(h: Header): (r: seq<Byte>)
    ensures |r| == SF
  {
    Sizes();
    Pack(HeaderFields(h), HEADER)
  }

  function PackRecord(x: Record): (r: seq<Byte>)
    ensures |r| == SFE
  {
    Sizes();
    Pack(RecordFields(x), EXTENT)
  }

  function SerialiseRecords(xs: seq<Record>, pack: Packer): seq<Byte> {
    if xs == [] then [] else SerialiseRecords(xs[..|xs| - 1], pack) + pack(xs[|xs| - 1])
  }

  lemma {:induction false} SerialiseSize(xs: seq<Record>, pack: Packer)
    requires forall x :: |pack(x)| == SFE
    ensures |SerialiseRecords(xs, pack)| == SFE * |xs|
  {
    if xs != [] {
      SerialiseSize(xs[..|xs| - 1], pack);
    }
  }

  function Serialise(h: Header, xs: seq<Record>): seq<Byte> {
    PackHeader(h) + SerialiseRecords(xs, PackRecord)
  }

  predicate ValidHeader(h: Header) {
    InRange(HeaderFields(h), HEADER)
  }

  predicate ValidRecords(xs: seq<Record>) {
    forall i :: 0 <= i < |xs| ==> InRange(RecordFields(xs[i]), EXTENT)
  }

  function Shown(x: Record): Extent {
    Extent(x.logical, x.physical, x.length, FlagNames(x.flags))
  }

  function ShownAll(xs: seq<Record>): (r: seq<Extent>)
    ensures |r| == |xs| && forall i :: 0 <= i < |xs| ==> r[i] == Shown(xs[i])
  {
    if xs == [] then [] else ShownAll(xs[..|xs| - 1]) + [Shown(xs[|xs| - 1])]
  }

  lemma PackedRecordReads(x: Record)
    requires InRange(RecordFields(x), EXTENT)
    ensures ReadRecord(PackRecord(x)) == Ok(Shown(x))
  {
    PackRoundTrip(RecordFields(x), EXTENT);
  }

  lemma SliceMiddle(a: seq<Byte>, b: seq<Byte>, c: seq<Byte>)
    ensures Slice(a + (b + c), |a|, |a| + |b|) == b
  {
  }

  /** Whatever follows, the records of the prefix are read one by one. */
  lemma {:induction false} ParsesRecords(xs: seq<Record>, more: seq<Byte>, pack: Packer, read: Reader)
    requires forall x :: |pack(x)| == SFE
    requires forall i :: 0 <= i < |xs| ==> read(pack(xs[i])) == Ok(Shown(xs[i]))
    ensures ParsedExtents(SerialiseRecords(xs, pack) + more, |xs|, read) == Ok(ShownAll(xs))
  {
    if xs != [] {
      var k := |xs| - 1;
      var front, last := SerialiseRecords(xs[..k], pack), pack(xs[k]);
      ParsesRecords(xs[..k], last + more, pack, read);
      SerialiseSize(xs[..k], pack);
      SliceMiddle(front, last, more);
      assert SerialiseRecords(xs, pack) + more == front + (last + more);
    }
  }

  lemma ParsesAllRecords(xs: seq<Record>)
    requires ValidRecords(xs)
    ensures ParsedExtents(SerialiseRecords(xs, PackRecord), |xs|, ReadRecord) == Ok(ShownAll(xs))
  {
    forall i | 0 <= i < |xs|
      ensures ReadRecord(PackRecord(xs[i])) == Ok(Shown(xs[i]))
    {
      PackedRecordReads(xs[i]);
    }
    ParsesRecords(xs, [], PackRecord, ReadRecord);
    NothingMore(SerialiseRecords(xs, PackRecord));
  }

  lemma NothingMore(s: seq<Byte>)
    ensures s + [] == s
  {
  }

  lemma PackedHeaderReads(h: Header)
    requires ValidHeader(h)
    ensures Unpack(PackHeader(h), HEADER) == Ok(HeaderFields(h))
  {
    PackRoundTrip(HeaderFields(h), HEADER);
  }

  lemma ParsedParts(head: seq<Byte>, rest: seq<Byte>, h: seq<nat>, extents: seq<Extent>)
    requires |head| == SF && |h| == 6
    requires Unpack(head, HEADER) == Ok(h) && ParsedExtents(rest, h[4], ReadRecord) == Ok(extents)
    ensures Parsed(head + rest) == Ok(Fiemap(h[0], h[1], h[2], h[3], h[4], extents))
  {
    assert Slice(head + rest, 0, SF) == head;
    assert Slice(head + rest, SF, SF + |head + rest|) == rest;
  }

  /** Parsing what was serialised gives every field back: each record's logical and physical offset
      and length in order, and the names of its flag bits. */
  lemma ParseRoundTrip(h: Header, xs: seq<Record>)
    requires ValidHeader(h) && ValidRecords(xs) && h.extentCount == |xs|
    ensures Parsed(Serialise(h, xs))
         == Ok(Fiemap(h.start, h.length, h.flags, h.mappedExtents, h.extentCount, ShownAll(xs)))
  {
    PackedHeaderReads(h);
    ParsesAllRecords(xs);
    ParsedParts(PackHeader(h), SerialiseRecords(xs, PackRecord), HeaderFields(h), ShownAll(xs));
  }

  /** A name is shown exactly when its own bit is set; bits without a name show nothing. */
  lemma FlagShownIff(x: nat, z: nat)
    requires z in FLAGS
    ensures FLAGS[z] in FlagNames(x) <==> BitSet(x, z)
    ensures FlagNames(x) <= FLAGS.Values
  {
    if FLAGS[z] in FlagNames(x) {
      var y :| y in FLAGS && y > 0 && BitSet(x, y) && FLAGS[y] == FLAGS[z];
      NamesDistinct(y, z);
    }
  }

  lemma NamesDistinct(y: nat, z: nat)
    requires y in FLAGS && z in FLAGS && FLAGS[y] == FLAGS[z]
    ensures y == z
  {
    assert |FLAGS[z]| == |FLAGS[y]| && FLAGS[z][0] == FLAGS[y][0];
  }

  // ----- the ioctl and the two calls

  const ZERO_RECORD := Record(0, 0, 0, 0, 0, 0, 0, 0, 0)

  function Min(a: nat, b: nat): nat {
    if a < b then a else b
  }

  /** fm_mapped_extents: all of them are counted when there is no room for any. */
  function Mapped(es: seq<Record>, count: nat): nat {
    if count == 0 then |es| else Min(count, |es|)
  }

  function ReplyHeader(es: seq<Record>, count: nat): Header {
    Header(0, 0xffff_ffff_ffff_ffff, 0, Mapped(es, count), count, 0)
  }

  /** As many extents as fit, and untouched zeroed room after them. */
  function ReplyRecords(es: seq<Record>, count: nat): seq<Record> {
    es[..Min(count, |es|)] + ZeroRecords(count - Min(count, |es|))
  }

  lemma {:induction false} ZeroToBytes(w: nat)
    ensures ToBytes(0, w) == ZeroBytes(w)
  {
    if w > 0 {
      ZeroToBytes(w - 1);
    }
  }

  lemma {:induction false} ZeroPack(vals: seq<nat>, widths: seq<nat>)
    requires |vals| == |widths| && forall i :: 0 <= i < |vals| ==> vals[i] == 0
    ensures Pack(vals, widths) == ZeroBytes(CalcSize(widths))
  {
    if vals != [] {
      ZeroToBytes(widths[0]);
      ZeroPack(vals[1..], widths[1..]);
    }
  }

  lemma ZeroRecordBytes()
    ensures PackRecord(ZERO_RECORD) == ZeroBytes(SFE)
  {
    Sizes();
    ZeroPack(RecordFields(ZERO_RECORD), EXTENT);
  }

  function ZeroRecords(n: nat): seq<Record> {
    seq(n, i => ZERO_RECORD)
  }

  lemma ZeroRecordsNext(xs: seq<Record>, n: nat)
    ensures (xs + ZeroRecords(n + 1))[..|xs| + n] == xs + ZeroRecords(n)
    ensures (xs + ZeroRecords(n + 1))[|xs| + n] == ZERO_RECORD
  {
  }

  lemma ZeroBytesAdd(m: nat, n: nat)
    ensures ZeroBytes(m) + ZeroBytes(n) == ZeroBytes(m + n)
    ensures ZeroBytes(m + n)[m..] == ZeroBytes(n)
  {
  }

  lemma Reassociate(a: seq<Byte>, b: seq<Byte>, c: seq<Byte>)
    ensures (a + b) + c == a + (b + c)
  {
  }

  /** Zeroed room is a run of all-zero records. */
  lemma {:induction false} ZeroRoom(xs: seq<Record>, n: nat, pack: Packer)
    requires pack(ZERO_RECORD) == ZeroBytes(SFE)
    ensures SerialiseRecords(xs + ZeroRecords(n), pack) == SerialiseRecords(xs, pack) + ZeroBytes(SFE * n)
  {
    if n == 0 {
      assert xs + ZeroRecords(0) == xs;
      assert ZeroBytes(SFE * 0) == [];
    } else {
      ZeroRoom(xs, n - 1, pack);
      ZeroRecordsNext(xs, n - 1);
      ZeroBytesAdd(SFE * (n - 1), SFE);
      Reassociate(SerialiseRecords(xs, pack), ZeroBytes(SFE * (n - 1)), ZeroBytes(SFE));
    }
  }

  /** Bytes copied over the front of a buffer. */
  method Overwrite(buf: array<Byte>, front: seq<Byte>)
    requires |front| <= buf.Length
    modifies buf
    ensures buf[..] == front + old(buf[..])[|front|..]
  {
    for i := 0 to |front|
      invariant forall j :: 0 <= j < i ==> buf[j] == front[j]
      invariant forall j :: i <= j < buf.Length ==> buf[j] == old(buf[j])
    {
      buf[i] := front[i];
    }
  }

  /** What is asked: the whole file, from offset 0 for 2 to the 64 less 1 bytes, with no flags, and
      room for count extents. */
  function Request(count: nat): (r: seq<Byte>)
    ensures |r| == SF + SFE * count
  {
    PackHeader(Header(0, 0xffff_ffff_ffff_ffff, 0, 0, count, 0)) + ZeroBytes(SFE * count)
  }

  lemma PackTail(vals: seq<nat>, widths: seq<nat>)
    requires |vals| == |widths| && vals != []
    ensures widths[0] <= CalcSize(widths)
    ensures Pack(vals, widths)[..widths[0]] == ToBytes(vals[0], widths[0])
    ensures Pack(vals, widths)[widths[0]..] == Pack(vals[1..], widths[1..])
  {
  }

  lemma {:induction false} PackedField(vals: seq<nat>, widths: seq<nat>, j: nat)
    requires |vals| == |widths| && j < |vals|
    ensures FieldBytes(Pack(vals, widths), widths, j) == ToBytes(vals[j], widths[j])
  {
    PackTail(vals, widths);
    if j > 0 {
      PackedField(vals[1..], widths[1..], j - 1);
      TailField(Pack(vals, widths), Pack(vals[1..], widths[1..]), widths, j);
    }
  }

  lemma TailField(s: seq<Byte>, rest: seq<Byte>, widths: seq<nat>, j: nat)
    requires |s| == CalcSize(widths) && 0 < j < |widths| && |rest| == CalcSize(widths[1..])
    requires widths[0] <= |s| && s[widths[0]..] == rest
    ensures FieldBytes(s, widths, j) == FieldBytes(rest, widths[1..], j - 1)
  {
    var off := Offset(widths[1..], j - 1);
    OffsetFits(widths[1..], j - 1);
    SliceOfDrop(s, widths[0], off, off + widths[j]);
  }

  lemma {:induction false} AllOnes(w: nat, i: nat)
    requires i < w
    ensures Power256(w) >= 1 && ToBytes(Power256(w) - 1, w)[i] == 255
  {
    PowerPositive(w - 1);
    assert Power256(w) - 1 == 255 + 256 * (Power256(w - 1) - 1);
    if i > 0 {
      AllOnes(w - 1, i - 1);
    }
  }

  lemma {:induction false} PowerPositive(w: nat)
    ensures Power256(w) >= 1
  {
    if w > 0 {
      PowerPositive(w - 1);
    }
  }

  /** The request byte by byte: eight bytes of ones where the length is, the count least byte first
      where extent_count is, and zeros everywhere else. */
  lemma RequestInBytes(count: nat, i: nat)
    requires count < 0x1_0000_0000 && i < 32 + 56 * count
    ensures 8 <= i < 16 ==> Request(count)[i] == 255
    ensures i < 8 || 16 <= i < 24 || 28 <= i ==> Request(count)[i] == 0
    ensures FromBytes(Request(count)[24..28]) == count
  {
    var h := Header(0, 0xffff_ffff_ffff_ffff, 0, 0, count, 0);
    var head := PackHeader(h);
    Powers();
    RequestFields(h, count);
    assert Request(count)[24..28] == head[24..28];
    BytesRoundTrip(count, 4);
    if i < 32 {
      assert Request(count)[i] == head[i];
    }
    if 8 <= i < 16 {
      AllOnes(8, i - 8);
      assert head[i] == head[8..16][i - 8];
    } else if i < 8 {
      assert head[i] == head[0..8][i];
    } else if 16 <= i < 20 {
      assert head[i] == head[16..20][i - 16];
    } else if 20 <= i < 24 {
      assert head[i] == head[20..24][i - 20];
    } else if 28 <= i < 32 {
      assert head[i] == head[28..32][i - 28];
    }
  }

  lemma RequestFields(h: Header, count: nat)
    requires h == Header(0, 0xffff_ffff_ffff_ffff, 0, 0, count, 0)
    ensures var head := PackHeader(h);
      && head[0..8] == ZeroBytes(8) && head[8..16] == ToBytes(0xffff_ffff_ffff_ffff, 8) && head[16..20] == ZeroBytes(4)
      && head[20..24] == ZeroBytes(4) && head[24..28] == ToBytes(count, 4) && head[28..32] == ZeroBytes(4)
  {
    var vals := HeaderFields(h);
    Sizes();
    HeaderOffsets();
    CountOffset();
    PackedField(vals, HEADER, 0);
    PackedField(vals, HEADER, 1);
    PackedField(vals, HEADER, 2);
    PackedField(vals, HEADER, 3);
    PackedField(vals, HEADER, 4);
    PackedField(vals, HEADER, 5);
    ZeroToBytes(8);
    ZeroToBytes(4);
  }

  /** The kernel's side of FS_IOC_FIEMAP for that request, on a file whose extents are es: it fills in
      the count of mapped extents and as many extents as fit. */
  method KernelFiemap(buf: array<Byte>, es: seq<Record>, count: nat)
    requires buf[..] == Request(count)
    modifies buf
    ensures var m := Min(count, |es|);
      buf[..] == Serialise(ReplyHeader(es, count), es[..m]) + old(buf[..])[SF + SFE * m..]
  {
    var reply := Serialise(ReplyHeader(es, count), es[..Min(count, |es|)]);
    SerialisedSize(ReplyHeader(es, count), es[..Min(count, |es|)]);
    Overwrite(buf, reply);
  }

  lemma SerialisedSize(h: Header, xs: seq<Record>)
    ensures |Serialise(h, xs)| == SF + SFE * |xs|
  {
    SerialiseSize(xs, PackRecord);
  }

  /** fiemap_ioctl: a header asking for the whole file, room for count extents, one call. */
  method FiemapIoctl(es: seq<Record>, count: nat) returns (s: seq<Byte>)
    requires count < Power256(4) && |es| < Power256(4)
    ensures s == Serialise(ReplyHeader(es, count), ReplyRecords(es, count))
  {
    var start := Request(count);
    var buf := new Byte[|start|](i requires 0 <= i < |start| => start[i]);
    assert buf[..] == start;
    KernelFiemap(buf, es, count);
    ReplyFillsRoom(es, count, start);
    s := buf[..];
  }

  lemma ReplyFillsRoom(es: seq<Record>, count: nat, start: seq<Byte>)
    requires |start| == SF + SFE * count && start[SF..] == ZeroBytes(SFE * count)
    ensures var m, h := Min(count, |es|), ReplyHeader(es, count);
      Serialise(h, es[..m]) + start[SF + SFE * m..] == Serialise(h, ReplyRecords(es, count))
  {
    var m := Min(count, |es|);
    ZeroRecordBytes();
    HeaderThenRoom(ReplyHeader(es, count), es[..m], count - m, start);
  }

  lemma HeaderThenRoom(h: Header, xs: seq<Record>, n: nat, start: seq<Byte>)
    requires PackRecord(ZERO_RECORD) == ZeroBytes(SFE)
    requires |start| == SF + SFE * (|xs| + n) && start[SF..] == ZeroBytes(SFE * (|xs| + n))
    ensures Serialise(h, xs) + start[SF + SFE * |xs|..] == Serialise(h, xs + ZeroRecords(n))
  {
    RoomIsZeroRecords(xs, n, start, PackHeader(h), PackRecord);
  }

  /** The zeroed rest of a buffer, after a header and some records, is the records of no extent. */
  lemma RoomIsZeroRecords(xs: seq<Record>, n: nat, start: seq<Byte>, head: seq<Byte>, pack: Packer)
    requires pack(ZERO_RECORD) == ZeroBytes(SFE)
    requires |start| == SF + SFE * (|xs| + n) && start[SF..] == ZeroBytes(SFE * (|xs| + n))
    ensures (head + SerialiseRecords(xs, pack)) + start[SF + SFE * |xs|..]
         == head + SerialiseRecords(xs + ZeroRecords(n), pack)
  {
    ZeroRoom(xs, n, pack);
    ZeroBytesAdd(SFE * |xs|, SFE * n);
    assert start[SF + SFE * |xs|..] == start[SF..][SFE * |xs|..];
    Reassociate(head, SerialiseRecords(xs, pack), ZeroBytes(SFE * n));
  }

  lemma ReplyValid(es: seq<Record>, count: nat)
    requires count < Power256(4) && |es| < Power256(4) && ValidRecords(es)
    ensures ValidHeader(ReplyHeader(es, count)) && ValidRecords(ReplyRecords(es, count))
    ensures |ReplyRecords(es, count)| == count
  {
    Powers();
    var xs := ReplyRecords(es, count);
    forall i | 0 <= i < |xs|
      ensures InRange(RecordFields(xs[i]), EXTENT)
    {
      if i < Min(count, |es|) {
        assert xs[i] == es[i];
      } else {
        assert xs[i] == ZERO_RECORD;
      }
    }
  }

  lemma Powers()
    ensures Power256(4) == 0x1_0000_0000 && Power256(8) == 0x1_0000_0000_0000_0000
  {
    assert Power256(2) == 0x1_0000 && Power256(3) == 0x100_0000 && Power256(4) == 0x1_0000_0000;
    assert Power256(5) == 0x100_0000_0000 && Power256(6) == 0x1_0000_0000_0000 && Power256(7) == 0x100_0000_0000_0000;
  }

  /** fiemap with extents. first and second are the file's extents at the two calls. The reply is
      always parsed in full, never past its end; it shows one record per extent counted by the
      first call, and exactly the file's extents when the file did not change in between. */
  method FiemapTwoCalls(first: seq<Record>, second: seq<Record>) returns (r: Result<Fiemap>)
    requires |first| < Power256(4) && |second| < Power256(4) && ValidRecords(first) && ValidRecords(second)
    ensures r.Ok? && |r.value.extents| == r.value.extentCount == |first|
    ensures forall i :: 0 <= i < |first| ==>
      r.value.extents[i] == if i < |second| then Shown(second[i]) else Shown(ZERO_RECORD)
    ensures first == second ==> r.value.mappedExtents == |first|
  {
    var count := FiemapIoctl(first, 0);
    ReplyParsed(first, 0);
    var asked := ParseFiemap(count);
    var s := FiemapIoctl(second, asked.value.mappedExtents);
    ReplyParsed(second, |first|);
    r := ParseFiemap(s);
  }

  lemma ReplyParsed(es: seq<Record>, count: nat)
    requires count < Power256(4) && |es| < Power256(4) && ValidRecords(es)
    ensures var r := Parsed(Serialise(ReplyHeader(es, count), ReplyRecords(es, count)));
      && r.Ok? && |r.value.extents| == r.value.extentCount == count && r.value.mappedExtents == Mapped(es, count)
      && forall i :: 0 <= i < count ==> r.value.extents[i] == if i < |es| then Shown(es[i]) else Shown(ZERO_RECORD)
  {
    ReplyValid(es, count);
    ParseRoundTrip(ReplyHeader(es, count), ReplyRecords(es, count));
  }
}
