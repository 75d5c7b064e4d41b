/** The names synctest prints for its files, and that no two files ever print alike. */
module SyncNames {
  /** Which of its names file f has: the one it is created under, or that of a rename pass. */
  datatype FileId = Base(f: nat) | Pass(p: nat, f: nat)

  function Digit(n: nat): char
    requires n < 10
  {
    "0123456789"[n]
  }

  /** %d */
  function Decimal(n: nat): string {
    if n < 10 then [Digit(n)] else Decimal(n / 10) + [Digit(n % 10)]
  }

  function Zeros(k: nat): string {
    seq(k, i => '0')
  }

  function Pad(s: string, w: nat): string {
    if |s| < w then Zeros(w - |s|) + s else s
  }

  /** %0wd: at least w digits, more if the number needs them. */
  function Padded(n: nat, w: nat): string {
    Pad(Decimal(n), w)
  }

  function DirPath(root: string, group: nat): string {
    root + "/" + Padded(group, 5)
  }

  function FileName(pid: nat, id: FileId): string {
    match id
    case Base(f) => Padded(pid, 5) + "-" + Padded(f, 5)
    case Pass(p, f) => Padded(p, 2) + "-" + (Padded(pid, 5) + "-" + Padded(f, 5))
  }

  function FilePath(root: string, group: nat, pid: nat, id: FileId): string {
    root + ("/" + (Padded(group, 5) + "/" + FileName(pid, id)))
  }

  // ----- reading a number back

  predicate Digits(s: string) {
    forall i :: 0 <= i < |s| ==> '0' <= s[i] <= '9'
  }

  function Value(s: string): nat
    requires Digits(s)
  {
    if s == [] then 0 else 10 * Value(s[..|s| - 1]) + (s[|s| - 1] as nat - '0' as nat)
  }

  lemma {:induction false} DecimalReads(n: nat)
    ensures Digits(Decimal(n)) && Value(Decimal(n)) == n
  {
    if n >= 10 {
      DecimalReads(n / 10);
      var s := Decimal(n);
      assert s[..|s| - 1] == Decimal(n / 10);
    }
  }

  lemma {:induction false} LeadingZeros(k: nat, s: string)
    requires Digits(s)
    ensures Digits(Zeros(k) + s) && Value(Zeros(k) + s) == Value(s)
    decreases |s| + k
  {
    var t := Zeros(k) + s;
    if s != [] {
      LeadingZeros(k, s[..|s| - 1]);
      assert t[..|t| - 1] == Zeros(k) + s[..|s| - 1];
    } else if k > 0 {
      LeadingZeros(k - 1, s);
      assert t[..|t| - 1] == Zeros(k - 1) + s;
    }
  }

  lemma PadReads(s: string, w: nat)
    requires Digits(s)
    ensures Digits(Pad(s, w)) && Value(Pad(s, w)) == Value(s)
  {
    if |s| < w {
      LeadingZeros(w - |s|, s);
    }
  }

  lemma PaddedReads(n: nat, w: nat)
    ensures Digits(Padded(n, w)) && Value(Padded(n, w)) == n
  {
    DecimalReads(n);
    PadReads(Decimal(n), w);
  }

  /** Equal texts with a separator are equal on both sides of its first occurrence. */
  lemma SplitAt(a: string, b: string, c: string, d: string, sep: char)
    requires sep !in a && sep !in c && a + [sep] + b == c + [sep] + d
    ensures a == c && b == d
  {
    var s, t := a + [sep] + b, c + [sep] + d;
    assert s[|a|] == sep && t[|c|] == sep;
    assert forall i :: 0 <= i < |a| ==> s[i] == a[i];
    assert forall i :: 0 <= i < |c| ==> t[i] == c[i];
    assert |a| == |c|;
    assert a == s[..|a|] && c == t[..|c|];
    assert b == s[|a| + 1..] && d == t[|c| + 1..];
  }

  lemma PairInjective(m: nat, rest: string, n: nat, rest': string, w: nat, w': nat, sep: char)
    requires !('0' <= sep <= '9') && Padded(m, w) + [sep] + rest == Padded(n, w') + [sep] + rest'
    ensures m == n && rest == rest'
  {
    PaddedReads(m, w);
    PaddedReads(n, w');
    SplitAt(Padded(m, w), rest, Padded(n, w'), rest', sep);
  }

  lemma NoDash(n: nat, w: nat)
    ensures '-' !in Padded(n, w)
  {
    PaddedReads(n, w);
  }

  /** Names are injective in process, file and pass; a created name is never a renamed one. */
  lemma FileNameInjective(pid: nat, id: FileId, pid': nat, id': FileId)
    requires FileName(pid, id) == FileName(pid', id')
    ensures pid == pid' && id == id'
  {
    match (id, id')
    case (Base(f), Base(f')) =>
      PairInjective(pid, Padded(f, 5), pid', Padded(f', 5), 5, 5, '-');
      PaddedReads(f, 5);
      PaddedReads(f', 5);
    case (Pass(p, f), Pass(p', f')) =>
      PairInjective(p, Padded(pid, 5) + "-" + Padded(f, 5), p', Padded(pid', 5) + "-" + Padded(f', 5), 2, 2, '-');
      PairInjective(pid, Padded(f, 5), pid', Padded(f', 5), 5, 5, '-');
      PaddedReads(f, 5);
      PaddedReads(f', 5);
    case (Base(f), Pass(p', f')) =>
      BaseIsNotPass(pid, f, p', pid', f');
    case (Pass(p, f), Base(f')) =>
      BaseIsNotPass(pid', f', p, pid, f);
  }

  lemma BaseIsNotPass(pid: nat, f: nat, p: nat, pid': nat, f': nat)
    ensures FileName(pid, Base(f)) != FileName(pid', Pass(p, f'))
  {
    var rest := Padded(pid', 5) + "-" + Padded(f', 5);
    assert rest[|Padded(pid', 5)|] == '-';
    NoDash(f, 5);
    if FileName(pid, Base(f)) == FileName(pid', Pass(p, f')) {
      PairInjective(pid, Padded(f, 5), p, rest, 5, 2, '-');
      assert false;
    }
  }

  lemma FilePathInDir(root: string, group: nat, pid: nat, id: FileId)
    ensures FilePath(root, group, pid, id) == DirPath(root, group) + "/" + FileName(pid, id)
  {
    var a, b, c := Padded(group, 5), FileName(pid, id), root;
    assert c + ("/" + (a + "/" + b)) == (c + "/" + a) + "/" + b;
  }

  lemma DropPrefix(c: string, a: string, b: string)
    requires c + a == c + b
    ensures a == b
  {
    assert a == (c + a)[|c|..] && b == (c + b)[|c|..];
  }

  /** A path determines its directory, process, file and pass. */
  lemma FilePathInjective(root: string, group: nat, pid: nat, id: FileId, group': nat, pid': nat, id': FileId)
    requires FilePath(root, group, pid, id) == FilePath(root, group', pid', id')
    ensures group == group' && pid == pid' && id == id'
  {
    var a, b := Padded(group, 5) + "/" + FileName(pid, id), Padded(group', 5) + "/" + FileName(pid', id');
    DropPrefix(root, "/" + a, "/" + b);
    DropPrefix("/", a, b);
    PairInjective(group, FileName(pid, id), group', FileName(pid', id'), 5, 5, '/');
    FileNameInjective(pid, id, pid', id');
  }

  /** Decimal numbers of two digits and more, digit by digit. */
  lemma DecimalNext(n: nat, k: nat, front: string, last: char)
    requires n >= 10 && n / 10 == k && Decimal(k) == front && Digit(n % 10) == last
    ensures Decimal(n) == front + [last]
  {
  }

  lemma PrintedNumbers()
    ensures Padded(3, 5) == "00003" && Padded(7, 5) == "00007" && Padded(2, 2) == "02"
    ensures Padded(99, 5) == "00099" && Padded(1234, 5) == "01234" && Padded(123456, 5) == "123456"
  {
    DecimalNext(99, 9, "9", '9');
    DecimalNext(12, 1, "1", '2');
    DecimalNext(123, 12, "12", '3');
    DecimalNext(1234, 123, "123", '4');
    DecimalNext(12345, 1234, "1234", '5');
    DecimalNext(123456, 12345, "12345", '6');
    assert Zeros(1) == "0" && Zeros(2) == "00" && Zeros(3) == "000" && Zeros(4) == "0000";
  }

  lemma PrintedFile(pid: nat, f: nat, a: string, b: string)
    requires Padded(pid, 5) == a && Padded(f, 5) == b
    ensures FileName(pid, Base(f)) == a + "-" + b
    ensures FileName(pid, Pass(2, f)) == "02-" + (a + "-" + b)
  {
    PrintedNumbers();
    assert "02" + "-" == "02-";
  }

  /** The names as they are printed: five digits each, two for the pass, longer numbers in full. */
  lemma PrintedBase()
    ensures FileName(1234, Base(7)) == "01234-00007"
  {
    PrintedNumbers();
    PrintedFile(1234, 7, "01234", "00007");
  }

  lemma PrintedPass()
    ensures FileName(1234, Pass(2, 99)) == "02-01234-00099"
  {
    PrintedNumbers();
    PrintedFile(1234, 99, "01234", "00099");
  }

  lemma PrintedLong()
    ensures FileName(123456, Base(7)) == "123456-00007"
  {
    PrintedNumbers();
    PrintedFile(123456, 7, "123456", "00007");
  }

  lemma PrintedDir()
    ensures DirPath("d", 99) == "d/00099"
  {
    PrintedNumbers();
  }
}
