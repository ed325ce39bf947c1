/** Numbers as digit sequences, least significant digit first, in any base. */
module Numerals {
  import opened Arith
  import opened Common

  function Value(ds: seq<nat>, base: nat): nat {
    if ds == [] then 0 else ds[0] + base * Value(ds[1..], base)
  }

  function Digits(n: nat, base: nat): seq<nat>
    requires base >= 2
    decreases n
  {
    if n == 0 then [] else Smaller(n, base); [n % base] + Digits(n / base, base)
  }

  lemma {:induction false} Smaller(n: nat, base: nat)
    requires n > 0 && base >= 2
    ensures 0 <= n / base < n && 0 <= n % base < base
    ensures n == n % base + base * (n / base)
  {
    var q, r := n / base, n % base;
    assert n == base * q + r;
    SignOfProduct(q + 1, base);
    assert (q + 1) * base == base * q + base > 0;
    Multiple(q, base);
  }

  lemma {:induction false} Multiple(q: nat, base: nat)
    requires base >= 2
    ensures base * q >= q + q
  {
  }

  ghost predicate AllBelow(ds: seq<nat>, base: nat) {
    forall i :: 0 <= i < |ds| ==> ds[i] < base
  }

  /** No superfluous zero at the most significant end. */
  ghost predicate Canonical(ds: seq<nat>, base: nat) {
    AllBelow(ds, base) && (ds != [] ==> ds[|ds| - 1] != 0)
  }

  lemma {:induction false} Unfold(d: nat, rest: seq<nat>, base: nat)
    requires base >= 2 && d < base && Canonical(rest, base)
    ensures Value([d] + rest, base) == d + base * Value(rest, base)
    ensures d != 0 || rest != [] ==> Canonical([d] + rest, base)
    ensures rest == [] ==> Value(rest, base) == 0
  {
    assert ([d] + rest)[1..] == rest;
  }

  lemma {:induction false} ValueOfDigits(n: nat, base: nat)
    requires base >= 2
    ensures Value(Digits(n, base), base) == n && Canonical(Digits(n, base), base)
    decreases n
  {
    if n > 0 {
      Smaller(n, base);
      ValueOfDigits(n / base, base);
      Unfold(n % base, Digits(n / base, base), base);
    }
  }

  lemma {:induction false} ValuePositive(ds: seq<nat>, base: nat)
    requires base >= 2 && Canonical(ds, base) && ds != []
    ensures Value(ds, base) > 0
  {
    if |ds| > 1 {
      ValuePositive(ds[1..], base);
      SignOfProduct(Value(ds[1..], base), base);
      assert base * Value(ds[1..], base) > 0;
    }
  }

  /** Canonical digits are the digits of their value. */
  lemma {:induction false} DigitsOfValue(ds: seq<nat>, base: nat)
    requires base >= 2 && Canonical(ds, base)
    ensures Digits(Value(ds, base), base) == ds
  {
    if ds != [] {
      var rest := ds[1..];
      ValuePositive(ds, base);
      DigitsOfValue(rest, base);
      DivUnique(Value(ds, base), base, Value(rest, base), ds[0]);
    }
  }

  function Zeros(k: nat): (s: seq<nat>)
    ensures |s| == k && forall i :: 0 <= i < k ==> s[i] == 0
  {
    Repeat(0, k)
  }

  lemma {:induction false} ValueOfZeros(k: nat, base: nat)
    ensures Value(Zeros(k), base) == 0
  {
    if k > 0 {
      ValueOfZeros(k - 1, base);
      assert Zeros(k)[1..] == Zeros(k - 1);
    }
  }

  /** Zeros at the most significant end do not change the value. */
  lemma {:induction false} ValueWithZeros(ds: seq<nat>, k: nat, base: nat)
    ensures Value(ds + Zeros(k), base) == Value(ds, base)
  {
    if ds == [] {
      ValueOfZeros(k, base);
      assert ds + Zeros(k) == Zeros(k);
    } else {
      assert (ds + Zeros(k))[1..] == ds[1..] + Zeros(k);
      ValueWithZeros(ds[1..], k, base);
    }
  }

  //////////////////////////////////////////////////////////////////////////////
  // Reversal
  //////////////////////////////////////////////////////////////////////////////

  function Reverse<T>(s: seq<T>): (r: seq<T>)
    ensures |r| == |s| && forall i :: 0 <= i < |s| ==> r[i] == s[|s| - 1 - i]
  {
    if s == [] then [] else Reverse(s[1..]) + [s[0]]
  }

  lemma {:induction false} ReverseTwice<T>(s: seq<T>)
    ensures Reverse(Reverse(s)) == s
  {
  }

  lemma {:induction false} ReverseConcat<T>(a: seq<T>, b: seq<T>)
    ensures Reverse(a + b) == Reverse(b) + Reverse(a)
  {
  }

  lemma {:induction false} ReverseZeros(k: nat)
    ensures Reverse(Zeros(k)) == Zeros(k)
  {
  }

  //////////////////////////////////////////////////////////////////////////////
  // Signed byte strings
  //////////////////////////////////////////////////////////////////////////////

  function Abs(n: int): nat {
    if n < 0 then -n else n
  }

  /** `CBigNum::setvch`: little-endian bytes whose top bit is the sign. */
  function SetVch(vch: seq<nat>): int {
    if vch == [] then 0
    else
      var top := vch[|vch| - 1];
      if top >= 0x80 then 0 - Value(vch[|vch| - 1 := top - 0x80], 256) else Value(vch, 256)
  }

  /** `CBigNum::getvch`: the shortest such bytes; nothing for zero. */
  function GetVch(n: int): seq<nat> {
    var ds := Digits(Abs(n), 256);
    if ds == [] then []
    else
      var top := ds[|ds| - 1];
      if top >= 0x80 then ds + [if n < 0 then 0x80 else 0]
      else if n < 0 then ds[|ds| - 1 := top + 0x80]
      else ds
  }

  /** The byte format holds every number. */
  lemma {:induction false} SetGetVch(n: int)
    ensures SetVch(GetVch(n)) == n && AllBelow(GetVch(n), 256)
  {
    var ds := Digits(Abs(n), 256);
    ValueOfDigits(Abs(n), 256);
    if ds != [] {
      var top := ds[|ds| - 1];
      if top >= 0x80 {
        var v := GetVch(n);
        assert v[|v| - 1 := 0] == ds + Zeros(1);
        assert n >= 0 ==> v == ds + Zeros(1);
        ValueWithZeros(ds, 1, 256);
      } else if n < 0 {
        assert GetVch(n)[|ds| - 1 := top] == ds;
      }
    }
  }

  /** Bytes that end in a zero byte are a non-negative number. */
  lemma {:induction false} SetVchPositive(ds: seq<nat>)
    ensures SetVch(ds + [0]) == Value(ds, 256)
  {
    assert ds + [0] == ds + Zeros(1);
    ValueWithZeros(ds, 1, 256);
  }
}
