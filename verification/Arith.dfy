/** Division and powers of two, as the codecs and the consensus arithmetic need them. */
module Arith {

  function Pow2(k: nat): (p: nat)
    ensures p > 0
  {
    if k == 0 then 1 else 2 * Pow2(k - 1)
  }

  lemma {:induction false} SignOfProduct(x: int, d: int)
    requires d > 0
    ensures x * d < 0 ==> x < 0
    ensures x * d > 0 ==> x > 0
  {
    if x >= 0 {
      assert x * d >= 0;
    }
    if x <= 0 {
      assert x * d <= 0;
    }
  }

  lemma {:induction false} SmallMultiple(k: int, d: int)
    requires d > 0 && -d < k * d < d
    ensures k == 0
  {
    SignOfProduct(k - 1, d);
    SignOfProduct(k + 1, d);
    assert (k - 1) * d == k * d - d;
    assert (k + 1) * d == k * d + d;
  }

  /** Quotient and remainder are unique. */
  lemma {:induction false} DivUnique(n: int, d: int, q: int, r: int)
    requires d > 0 && n == q * d + r && 0 <= r < d
    ensures n / d == q && n % d == r
  {
    var q', r' := n / d, n % d;
    assert n == q' * d + r';
    assert (q - q') * d == r' - r;
    SmallMultiple(q - q', d);
  }

  lemma {:induction false} DivAddMultiple(a: int, k: int, d: int)
    requires d > 0
    ensures (a + k * d) / d == a / d + k
    ensures (a + k * d) % d == a % d
  {
    var q, r := a / d, a % d;
    assert a + k * d == (q + k) * d + r;
    DivUnique(a + k * d, d, q + k, r);
  }

  lemma {:induction false} Pow2Sum(a: nat, b: nat)
    ensures Pow2(a + b) == Pow2(a) * Pow2(b)
  {
    if a > 0 {
      Pow2Sum(a - 1, b);
      assert Pow2(a + b) == 2 * Pow2(a - 1 + b);
    }
  }

  lemma {:induction false} Pow2Grows(a: nat, b: nat)
    requires a <= b
    ensures Pow2(a) <= Pow2(b)
    decreases b
  {
    if a < b {
      Pow2Grows(a, b - 1);
    }
  }

  //////////////////////////////////////////////////////////////////////////////
  // Numbers as bits
  //////////////////////////////////////////////////////////////////////////////

  /** Bit r of a number. */
  predicate Bit(m: nat, r: nat) {
    m / Pow2(r) % 2 == 1
  }

  /** The number whose bit r is bits[r]. */
  function FromBits(bits: seq<bool>): (m: nat) {
    if bits == [] then 0
    else FromBits(bits[..|bits| - 1]) + (if bits[|bits| - 1] then Pow2(|bits| - 1) else 0)
  }

  lemma {:induction false} FromBitsBound(bits: seq<bool>)
    ensures FromBits(bits) < Pow2(|bits|)
  {
    if bits != [] {
      FromBitsBound(bits[..|bits| - 1]);
    }
  }

  lemma {:induction false} FromBitsBit(bits: seq<bool>, r: nat)
    ensures Bit(FromBits(bits), r) == (r < |bits| && bits[r])
  {
    hide Pow2;
    var n := |bits|;
    FromBitsBound(bits);
    if r >= n {
      Pow2Grows(n, r);
      DivUnique(FromBits(bits), Pow2(r), 0, FromBits(bits));
    } else {
      var rest := bits[..n - 1];
      var low := FromBits(rest);
      FromBitsBound(rest);
      var b := if bits[n - 1] then 1 else 0;
      assert FromBits(bits) == low + b * Pow2(n - 1);
      if r == n - 1 {
        DivUnique(low + b * Pow2(r), Pow2(r), b, low);
      } else {
        FromBitsBit(rest, r);
        HigherBit(low, b, n - 1, r);
      }
    }
  }

  lemma {:induction false} HigherBit(low: nat, b: nat, k: nat, r: nat)
    requires r < k
    ensures (low + b * Pow2(k)) / Pow2(r) % 2 == low / Pow2(r) % 2
  {
    var half := Pow2(k - r - 1);
    Pow2Sum(k - r, r);
    assert Pow2(k - r) == 2 * half;
    var m := b * half * 2;
    assert b * Pow2(k) == m * Pow2(r) by {
      assert b * (2 * half * Pow2(r)) == (b * half * 2) * Pow2(r);
    }
    DivAddMultiple(low, m, Pow2(r));
    DivAddMultiple(low / Pow2(r), b * half, 2);
  }
}
