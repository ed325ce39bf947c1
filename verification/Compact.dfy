/** The 32-bit compact form of a bignum: its MPI length and its three leading bytes. */
module CompactBits {
  import opened Arith
  import opened Numerals

  /** Byte i of a big-endian buffer, or zero past its end. */
  function ByteAt(vch: seq<nat>, i: nat): nat {
    if i < |vch| then vch[i] else 0
  }

  /** `CBigNum::GetCompact`; the shifted length wraps at 32 bits. */
  function GetCompact(n: int): nat {
    CompactOf(Reverse(GetVch(n)))
  }

  function CompactOf(vch: seq<nat>): nat {
    |vch| % 0x100 * 0x1000000 + ByteAt(vch, 0) * 0x10000 + ByteAt(vch, 1) * 0x100 + ByteAt(vch, 2)
  }

  /** Byte i of the mantissa of a compact number, most significant first. */
  function Mantissa(nCompact: nat, i: nat): nat {
    if i == 0 then nCompact / 0x10000 % 0x100
    else if i == 1 then nCompact / 0x100 % 0x100
    else if i == 2 then nCompact % 0x100
    else 0
  }

  /** The big-endian buffer that `SetCompact` fills. */
  function CompactBuffer(nCompact: nat): (vch: seq<nat>)
    ensures |vch| == nCompact / 0x1000000
    ensures forall i :: 0 <= i < |vch| ==> vch[i] == Mantissa(nCompact, i)
  {
    seq(nCompact / 0x1000000, i requires 0 <= i => Mantissa(nCompact, i))
  }

  /** `CBigNum::SetCompact`. */
  function SetCompact(nCompact: nat): int {
    SetVch(Reverse(CompactBuffer(nCompact)))
  }

  //////////////////////////////////////////////////////////////////////////////
  // The shortest signed bytes
  //////////////////////////////////////////////////////////////////////////////

  /** No shorter little-endian bytes hold the same number. */
  ghost predicate Minimal(v: seq<nat>) {
    && AllBelow(v, 256)
    && (v != [] ==> v[|v| - 1] % 0x80 != 0 || (|v| > 1 && v[|v| - 2] >= 0x80))
  }

  lemma {:induction false} GetVchMinimal(n: int)
    ensures Minimal(GetVch(n))
  {
    ValueOfDigits(Abs(n), 256);
    SetGetVch(n);
  }

  /** Minimal bytes are the ones the number is written back as. */
  lemma {:induction false} GetSetVch(v: seq<nat>)
    requires Minimal(v)
    ensures GetVch(SetVch(v)) == v
  {
    if v != [] {
      var k := |v| - 1;
      var top := v[k] % 0x80;
      var bare := v[k := top];
      assert v[k] >= 0x80 ==> top == v[k] - 0x80;
      assert v[k] < 0x80 ==> bare == v;
      var value: int := Value(bare, 256);
      assert SetVch(v) == if v[k] >= 0x80 then 0 - value else value;
      MinimalDigits(v);
    }
  }

  lemma {:induction false} MinimalDigits(v: seq<nat>)
    requires v != [] && Minimal(v)
    ensures var k := |v| - 1; var top := v[k] % 0x80; var bare := v[k := top];
            && Value(bare, 256) > 0
            && Digits(Value(bare, 256), 256) == if top != 0 then bare else v[..k]
  {
    var k := |v| - 1;
    var top := v[k] % 0x80;
    var bare := v[k := top];
    if top != 0 {
      DigitsOfValue(bare, 256);
      ValuePositive(bare, 256);
    } else {
      var ds := v[..k];
      assert bare == ds + Zeros(1);
      ValueWithZeros(ds, 1, 256);
      DigitsOfValue(ds, 256);
      ValuePositive(ds, 256);
    }
  }

  //////////////////////////////////////////////////////////////////////////////
  // Truncation
  //////////////////////////////////////////////////////////////////////////////

  /** The bytes with all but the three leading ones cleared. */
  function Leading(v: seq<nat>): (t: seq<nat>)
    ensures |t| == |v|
    ensures forall i :: 0 <= i < |v| ==> t[i] == (if i < |v| - 3 then 0 else v[i])
  {
    if |v| <= 3 then v else Zeros(|v| - 3) + v[|v| - 3..]
  }

  lemma {:induction false} LeadingMinimal(v: seq<nat>)
    requires Minimal(v)
    ensures Minimal(Leading(v))
  {
  }

  lemma {:induction false} MantissaOf(size: nat, a: nat, b: nat, c: nat)
    requires a < 0x100 && b < 0x100 && c < 0x100
    ensures var w := size * 0x1000000 + a * 0x10000 + b * 0x100 + c;
            w / 0x1000000 == size && Mantissa(w, 0) == a && Mantissa(w, 1) == b && Mantissa(w, 2) == c
  {
    var w := size * 0x1000000 + a * 0x10000 + b * 0x100 + c;
    DivUnique(w, 0x100, size * 0x10000 + a * 0x100 + b, c);
    DivUnique(w, 0x10000, size * 0x100 + a, b * 0x100 + c);
    DivUnique(w, 0x1000000, size, a * 0x10000 + b * 0x100 + c);
    DivUnique(size * 0x10000 + a * 0x100 + b, 0x100, size * 0x100 + a, b);
    DivUnique(size * 0x100 + a, 0x100, size, a);
  }

  /** Writing bytes in compact form and reading them back keeps the three leading ones. */
  lemma {:induction false} BufferOfCompact(n: int)
    requires |GetVch(n)| < 0x100
    ensures Reverse(CompactBuffer(GetCompact(n))) == Leading(GetVch(n))
  {
    SetGetVch(n);
    var v := GetVch(n);
    var big := Reverse(v);
    hide GetVch, Leading, Mantissa;
    MantissaOf(|big|, ByteAt(big, 0), ByteAt(big, 1), ByteAt(big, 2));
    BufferBytes(GetCompact(n), v);
  }

  lemma {:induction false} BufferBytes(c: nat, v: seq<nat>)
    requires c / 0x1000000 == |v|
    requires var big := Reverse(v);
             Mantissa(c, 0) == ByteAt(big, 0) && Mantissa(c, 1) == ByteAt(big, 1) && Mantissa(c, 2) == ByteAt(big, 2)
    ensures Reverse(CompactBuffer(c)) == Leading(v)
  {
    hide CompactBuffer, Reverse, Leading, Mantissa;
    forall i | 0 <= i < |v| ensures Reverse(CompactBuffer(c))[i] == Leading(v)[i] {
      var j := |v| - 1 - i;
      MantissaEnds(c, j);
      assert Reverse(CompactBuffer(c))[i] == Mantissa(c, j);
      assert Reverse(v)[j] == v[i];
    }
  }

  lemma {:induction false} MantissaEnds(c: nat, i: nat)
    ensures i >= 3 ==> Mantissa(c, i) == 0
  {
  }

  /** What a number is after a trip through the compact form. */
  function Rounded(n: int): int {
    SetCompact(GetCompact(n))
  }

  /** The compact form is idempotent: what it has rounded, it keeps. */
  lemma {:induction false} CompactIdempotent(n: int)
    requires |GetVch(n)| < 0x100
    ensures GetVch(Rounded(n)) == Leading(GetVch(n))
    ensures GetCompact(Rounded(n)) == GetCompact(n)
    ensures Rounded(Rounded(n)) == Rounded(n)
  {
    BufferOfCompact(n);
    GetVchMinimal(n);
    LeadingMinimal(GetVch(n));
    GetSetVch(Leading(GetVch(n)));
    var v, t := GetVch(n), Leading(GetVch(n));
    assert forall i :: 0 <= i < 3 && i < |v| ==> Reverse(t)[i] == Reverse(v)[i];
  }

  function Power(base: nat, k: nat): (p: nat)
    ensures base > 0 ==> p > 0
  {
    if k == 0 then 1 else base * Power(base, k - 1)
  }

  lemma {:induction false} ValueOfConcat(a: seq<nat>, b: seq<nat>, base: nat)
    ensures Value(a + b, base) == Value(a, base) + Power(base, |a|) * Value(b, base)
  {
    if a == [] {
      assert a + b == b;
    } else {
      assert (a + b)[1..] == a[1..] + b;
      ValueOfConcat(a[1..], b, base);
      var x, p, y := Value(a[1..], base), Power(base, |a| - 1), Value(b, base);
      Distribute(base, x, p, y);
      assert Value(a + b, base) == a[0] + base * Value(a[1..] + b, base);
    }
  }

  lemma {:induction false} Distribute(k: nat, x: nat, p: nat, y: nat)
    ensures k * (x + p * y) == k * x + k * p * y
  {
    assert k * (x + p * y) == k * x + k * (p * y);
  }

  lemma {:induction false} ValueBelow(ds: seq<nat>, base: nat)
    requires AllBelow(ds, base) && base >= 1
    ensures Value(ds, base) < Power(base, |ds|)
  {
    if ds != [] {
      ValueBelow(ds[1..], base);
      Widen(ds[0], Value(ds[1..], base), base, Power(base, |ds| - 1));
    }
  }

  lemma {:induction false} Widen(d: nat, x: nat, base: nat, p: nat)
    requires d < base && x < p
    ensures d + base * x < base * p
  {
    assert base * (x + 1) == base * x + base;
    Scale(base, x + 1, p);
  }

  lemma {:induction false} Scale(k: nat, a: int, b: int)
    requires a <= b
    ensures k * a <= k * b
  {
  }

  //////////////////////////////////////////////////////////////////////////////
  // How much is lost
  //////////////////////////////////////////////////////////////////////////////

  /** Of a positive number less than one part in 2^15 is cut off, and never all of it. */
  lemma {:induction false} CompactTruncates(n: nat)
    requires 0 < n && |GetVch(n)| < 0x100
    ensures 0 < Rounded(n) <= n
    ensures (n - Rounded(n)) * 0x8000 < Rounded(n)
  {
    var v := GetVch(n);
    var t := Leading(v);
    BufferOfCompact(n);
    GetVchMinimal(n);
    SetGetVch(n);
    assert v[|v| - 1] < 0x80 by {
      ValueOfDigits(n, 256);
    }
    assert Value(v, 256) == n && Value(t, 256) == Rounded(n);
    hide GetVch, SetVch, Rounded, Value;
    LeadingValue(v);
  }

  lemma {:induction false} LeadingValue(v: seq<nat>)
    requires v != [] && Minimal(v) && v[|v| - 1] < 0x80
    ensures 0 < Value(Leading(v), 256) <= Value(v, 256)
    ensures (Value(v, 256) - Value(Leading(v), 256)) * 0x8000 < Value(Leading(v), 256)
  {
    if |v| <= 3 {
      MinimalPositive(v);
    } else {
      var k := |v| - 3;
      var low, high := v[..k], v[k..];
      assert v == low + high;
      ValueOfConcat(low, high, 256);
      ValueOfConcat(Zeros(k), high, 256);
      ValueOfZeros(k, 256);
      ValueBelow(low, 256);
      ThreeBytes(high);
      CutBelow(Value(low, 256), Power(256, k), Value(high, 256));
    }
  }

  lemma {:induction false} MinimalPositive(v: seq<nat>)
    requires v != [] && Minimal(v) && v[|v| - 1] < 0x80
    ensures Value(v, 256) > 0
  {
    if v[|v| - 1] != 0 {
      ValuePositive(v, 256);
    } else {
      var ds := v[..|v| - 1];
      assert v == ds + Zeros(1);
      ValueWithZeros(ds, 1, 256);
      ValuePositive(ds, 256);
    }
  }

  lemma {:induction false} ThreeBytes(v: seq<nat>)
    requires |v| == 3 && (v[2] != 0 || v[1] >= 0x80)
    ensures Value(v, 256) >= 0x8000
  {
    assert Value(v, 256) == v[0] + 256 * Value(v[1..], 256);
    assert Value(v[1..], 256) == v[1] + 256 * Value(v[2..], 256) by {
      assert v[1..][1..] == v[2..];
    }
    assert Value(v[2..], 256) == v[2] + 256 * Value(v[2..][1..], 256);
  }

  lemma {:induction false} CutBelow(low: nat, p: nat, high: nat)
    requires low < p && high >= 0x8000
    ensures 0 < p * high && low * 0x8000 < p * high
  {
    Scale(p, 0x8000, high);
  }

  /** A number below 2^(8 k + 7) has at most k + 1 signed bytes. */
  lemma {:induction false} ShortEnough(n: int, k: nat)
    requires Abs(n) < 0x80 * Power(256, k)
    ensures |GetVch(n)| <= k + 1
  {
    var ds := Digits(Abs(n), 256);
    ValueOfDigits(Abs(n), 256);
    DigitsShort(Abs(n), k + 1);
    if |ds| == k + 1 {
      TopDigit(ds, k);
    }
  }

  lemma {:induction false} TopDigit(ds: seq<nat>, k: nat)
    requires |ds| == k + 1 && Value(ds, 256) < 0x80 * Power(256, k)
    ensures ds[k] < 0x80
  {
    var low, high := ds[..k], ds[k..];
    assert ds == low + high;
    ValueOfConcat(low, high, 256);
    assert Value(high, 256) == high[0] + 256 * Value(high[1..], 256);
    assert high[0] == Value(high, 256);
    hide Value, Power;
    var p: int, top: int := Power(256, k), high[0];
    assert (top - 0x80) * p == p * top - 0x80 * p < 0;
    SignOfProduct(top - 0x80, p);
  }

  lemma {:induction false} SetVchShort(v: seq<nat>)
    requires AllBelow(v, 256)
    ensures |GetVch(SetVch(v))| <= |v|
  {
    if v != [] {
      var k := |v| - 1;
      var low, top := v[..k], v[k] % 0x80;
      var bare := v[k := top];
      assert bare == low + [top];
      ValueOfConcat(low, [top], 256);
      ValueBelow(low, 256);
      assert Value([top], 256) == top;
      Widened(Value(low, 256), Power(256, k), top);
      assert v[k] < 0x80 ==> bare == v;
      ShortEnough(SetVch(v), k);
    }
  }

  lemma {:induction false} Widened(low: nat, p: nat, top: nat)
    requires low < p && top < 0x80
    ensures low + p * top < 0x80 * p
  {
    Scale(p, top, 0x7f);
  }

  lemma {:induction false} DigitsShort(n: nat, k: nat)
    requires n < Power(256, k)
    ensures |Digits(n, 256)| <= k
  {
    if n > 0 {
      Smaller(n, 256);
      DigitsShort(n / 256, k - 1);
    }
  }

  //////////////////////////////////////////////////////////////////////////////
  // The compact numbers that are kept
  //////////////////////////////////////////////////////////////////////////////

  /** The normal form: no byte past the length, and no leading byte to spare. */
  predicate Normal(nCompact: nat) {
    var nSize := nCompact / 0x1000000;
    var a, b, c := Mantissa(nCompact, 0), Mantissa(nCompact, 1), Mantissa(nCompact, 2);
    && (nSize < 1 ==> a == 0) && (nSize < 2 ==> b == 0) && (nSize < 3 ==> c == 0)
    && (nSize >= 1 ==> a % 0x80 != 0 || b >= 0x80)
  }

  /** Exactly the 32-bit numbers in normal form survive decoding and encoding. */
  lemma {:induction false} CompactRoundTrip(nCompact: nat)
    requires nCompact < 0x1_0000_0000
    ensures GetCompact(SetCompact(nCompact)) == nCompact <==> Normal(nCompact)
  {
    if Normal(nCompact) {
      NormalKept(nCompact);
    }
    if GetCompact(SetCompact(nCompact)) == nCompact {
      var vch := Reverse(CompactBuffer(nCompact));
      SetVchShort(vch);
      CompactNormal(SetCompact(nCompact));
    }
  }

  lemma {:induction false} NormalKept(nCompact: nat)
    requires nCompact < 0x1_0000_0000 && Normal(nCompact)
    ensures GetCompact(SetCompact(nCompact)) == nCompact
  {
    var vch := CompactBuffer(nCompact);
    NormalMinimal(nCompact);
    GetSetVch(Reverse(vch));
    ReverseTwice(vch);
    NormalOf(nCompact);
  }

  lemma {:induction false} NormalOf(nCompact: nat)
    requires nCompact < 0x1_0000_0000 && Normal(nCompact)
    ensures CompactOf(CompactBuffer(nCompact)) == nCompact
  {
    var vch := CompactBuffer(nCompact);
    assert ByteAt(vch, 0) == Mantissa(nCompact, 0);
    assert ByteAt(vch, 1) == Mantissa(nCompact, 1);
    assert ByteAt(vch, 2) == Mantissa(nCompact, 2);
    hide Mantissa;
    Reassemble(nCompact);
  }

  lemma {:induction false} NormalMinimal(nCompact: nat)
    requires Normal(nCompact)
    ensures Minimal(Reverse(CompactBuffer(nCompact)))
  {
    var vch := CompactBuffer(nCompact);
    hide CompactBuffer;
    assert |vch| > 1 ==> Reverse(vch)[|vch| - 2] == vch[1];
    assert |vch| > 0 ==> Reverse(vch)[|vch| - 1] == vch[0];
  }

  lemma {:induction false} Reassemble(c: nat)
    ensures c == c / 0x1000000 * 0x1000000 + Mantissa(c, 0) * 0x10000 + Mantissa(c, 1) * 0x100 + Mantissa(c, 2)
  {
    assert c / 0x10000 == c / 0x100 / 0x100 && c / 0x1000000 == c / 0x10000 / 0x100;
  }

  /** Every number is encoded in normal form. */
  lemma {:induction false} CompactNormal(n: int)
    requires |GetVch(n)| < 0x100
    ensures GetCompact(n) < 0x1_0000_0000 && Normal(GetCompact(n))
  {
    GetVchMinimal(n);
    var v := GetVch(n);
    var big := Reverse(v);
    hide GetVch, Mantissa;
    MantissaOf(|big|, ByteAt(big, 0), ByteAt(big, 1), ByteAt(big, 2));
    assert |v| > 1 ==> big[1] == v[|v| - 2];
    assert |v| > 0 ==> big[0] == v[|v| - 1];
  }

  /** What a compact number of at least three bytes stands for: its low 23 bits shifted by its length less three, negative
      when the bit above them is set. */
  lemma {:induction false} CompactValue(c: nat)
    requires c / 0x1000000 >= 3
    ensures SetCompact(c) == (if c / 0x800000 % 2 == 1 then -1 else 1) * (c % 0x800000 * Power(256, c / 0x1000000 - 3))
  {
    hide Power, Value, SetVch, Zeros, Reverse;
    var k := c / 0x1000000 - 3;
    var a, b, d := c / 0x10000 % 0x100, c / 0x100 % 0x100, c % 0x100;
    BytesOfCompact(c);
    SignedTop(k, d, b, a);
    TopValue(k, d, b, if a >= 0x80 then a - 0x80 else a);
    LowBits(c);
  }

  lemma {:induction false} BytesOfCompact(c: nat)
    requires c / 0x1000000 >= 3
    ensures Reverse(CompactBuffer(c)) == Zeros(c / 0x1000000 - 3) + [c % 0x100, c / 0x100 % 0x100, c / 0x10000 % 0x100]
  {
  }

  lemma {:induction false} TopValue(k: nat, d: nat, b: nat, a: nat)
    ensures Value(Zeros(k) + [d, b, a], 256) == (d + 256 * b + 0x10000 * a) * Power(256, k)
  {
    hide Power, Value;
    ValueOfConcat(Zeros(k), [d, b, a], 256);
    ValueOfZeros(k, 256);
    ValueOfThree([d, b, a]);
  }

  lemma {:induction false} SignedTop(k: nat, d: nat, b: nat, a: nat)
    requires a < 0x100
    ensures SetVch(Zeros(k) + [d, b, a])
         == if a >= 0x80 then 0 - Value(Zeros(k) + [d, b, a - 0x80], 256) else Value(Zeros(k) + [d, b, a], 256)
  {
    var v := Zeros(k) + [d, b, a];
    assert a >= 0x80 ==> v[|v| - 1 := a - 0x80] == Zeros(k) + [d, b, a - 0x80];
  }

  lemma {:induction false} ValueOfThree(v: seq<nat>)
    requires |v| == 3
    ensures Value(v, 256) == v[0] + 256 * v[1] + 0x10000 * v[2]
  {
    assert v[1..][1..] == v[2..] && v[2..][1..] == [];
    assert Value(v[2..], 256) == v[2];
    assert Value(v[1..], 256) == v[1] + 256 * v[2];
  }

  lemma {:induction false} LowBits(c: nat)
    ensures var a, b, d := c / 0x10000 % 0x100, c / 0x100 % 0x100, c % 0x100;
            && (c / 0x800000 % 2 == 1 <==> a >= 0x80)
            && c % 0x800000 == d + 256 * b + 0x10000 * if a >= 0x80 then a - 0x80 else a
  {
    var x, y := c / 0x100, c / 0x10000;
    assert y == x / 0x100 && c / 0x800000 == y / 0x80;
    assert c == c % 0x100 + 0x100 * x && x == x % 0x100 + 0x100 * y && y == y % 0x80 + 0x80 * (y / 0x80);
  }
}
