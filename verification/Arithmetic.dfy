/** The few facts about products and remainders by a variable divisor that the block arithmetic
    needs; everything else is left to linear reasoning. */
module Arithmetic {
  lemma MulMono(d: nat, a: int, b: int)
    requires a <= b
    ensures d * a <= d * b
  {
    if d > 0 {
      MulMono(d - 1, a, b);
      assert d * a == (d - 1) * a + a;
      assert d * b == (d - 1) * b + b;
    }
  }

  lemma MulSucc(d: int, q: int)
    ensures d * (q + 1) == d * q + d
  {
  }

  lemma ModOf(d: int, q: int, r: int)
    requires 0 <= r < d
    ensures (d * q + r) % d == r && (d * q + r) / d == q
  {
    var a := d * q + r;
    var q', r' := a / d, a % d;
    assert a == d * q' + r';
    MulSucc(d, q);
    MulSucc(d, q');
    if q < q' {
      MulMono(d, q + 1, q');
      assert false;
    } else if q' < q {
      MulMono(d, q' + 1, q);
      assert false;
    }
  }

  /** k times d, by addition. */
  function Times(k: nat, d: nat): nat {
    if k == 0 then 0 else Times(k - 1, d) + d
  }

  /** Two multiples of d: their sum is one, and the larger is ahead by at least d. */
  lemma Multiples(a: nat, b: nat, d: nat)
    requires d > 0 && a % d == 0 && b % d == 0
    ensures (a + b) % d == 0
    ensures a < b ==> a + d <= b && (b - a) % d == 0
  {
    var q, r := a / d, b / d;
    assert a == d * q && b == d * r;
    assert d * (q + r) == a + b;
    ModOf(d, q + r, 0);
    if a < b {
      if r <= q {
        MulMono(d, r, q);
        assert false;
      }
      MulSucc(d, q);
      MulMono(d, q + 1, r);
      assert d * (r - q) == b - a;
      ModOf(d, r - q, 0);
    }
  }
}
