/** Base58: a byte string as a number written with 58 digits, leading zero bytes as leading ones. */
module Base58 {
  import opened Arith
  import opened Numerals

  type Bytes = seq<nat>

  datatype Decoded = Fail | Ok(bytes: Bytes)

  //////////////////////////////////////////////////////////////////////////////
  // The alphabet
  //////////////////////////////////////////////////////////////////////////////

  /** The character of a digit: 1 to 9, the capitals without I and O, the small letters without l. */
  function CharOf(d: nat): char
    requires d < 58
  {
    if d < 9 then ('1' as nat + d) as char
    else if d < 17 then ('A' as nat + d - 9) as char
    else if d < 22 then ('J' as nat + d - 17) as char
    else if d < 33 then ('P' as nat + d - 22) as char
    else if d < 44 then ('a' as nat + d - 33) as char
    else ('m' as nat + d - 44) as char
  }

  /** Characters grow with their digits, so they are all different. */
  lemma {:induction false} AlphabetGrows(i: nat, j: nat)
    requires i < j < 58
    ensures CharOf(i) < CharOf(j)
  {
  }

  /** `strchr(pszBase58, c)`: the position of a character, 58 if it is missing. */
  function IndexFrom(c: char, i: nat): (d: nat)
    requires i <= 58
    ensures i <= d <= 58
    ensures d < 58 ==> CharOf(d) == c
    ensures forall j :: i <= j < d ==> CharOf(j) != c
    decreases 58 - i
  {
    if i == 58 || CharOf(i) == c then i else IndexFrom(c, i + 1)
  }

  function DigitOf(c: char): nat {
    IndexFrom(c, 0)
  }

  predicate InAlphabet(c: char) {
    DigitOf(c) < 58
  }

  /** `isspace`: the space and the five control characters from tab to carriage return. */
  predicate IsSpace(c: char)
    ensures IsSpace(c) <==> c as int in {9, 10, 11, 12, 13, 32}
  {
    c == ' ' || '\t' <= c <= '\r'
  }

  lemma {:induction false} DigitOfChar(d: nat)
    requires d < 58
    ensures DigitOf(CharOf(d)) == d
  {
    var e := DigitOf(CharOf(d));
    if e < d {
      AlphabetGrows(e, d);
    }
  }

  /** White space and the string terminator are not digits. */
  lemma {:induction false} NotADigit(c: char)
    ensures IsSpace(c) || c == '\0' ==> !InAlphabet(c)
  {
    if InAlphabet(c) {
      AtLeastOne(DigitOf(c));
    }
  }

  lemma {:induction false} AtLeastOne(d: nat)
    requires d < 58
    ensures CharOf(d) >= '1'
  {
    if d > 0 {
      AlphabetGrows(0, d);
    }
  }

  /** The digits are the letters and numerals of ASCII without 0, I, O and l; in ascending order, by `AlphabetGrows`. */
  lemma {:induction false} AlphabetIs(c: char)
    ensures InAlphabet(c) <==>
      ('1' <= c <= '9' || 'A' <= c <= 'Z' || 'a' <= c <= 'z') && c != 'I' && c != 'O' && c != 'l'
  {
    hide IndexFrom;
    var d := DigitOf(c);
    if ('1' <= c <= '9' || 'A' <= c <= 'Z' || 'a' <= c <= 'z') && c != 'I' && c != 'O' && c != 'l' {
      assert CharOf(PlaceOf(c)) == c;
    }
  }

  /** Where such a character stands. */
  function PlaceOf(c: char): (d: nat)
    requires ('1' <= c <= '9' || 'A' <= c <= 'Z' || 'a' <= c <= 'z') && c != 'I' && c != 'O' && c != 'l'
    ensures d < 58
  {
    var n := c as nat;
    if c <= '9' then n - '1' as nat
    else if c < 'I' then n - 'A' as nat + 9
    else if c < 'O' then n - 'J' as nat + 17
    else if c <= 'Z' then n - 'P' as nat + 22
    else if c < 'l' then n - 'a' as nat + 33
    else n - 'm' as nat + 44
  }

  ghost predicate AllDigits(s: string) {
    forall i :: 0 <= i < |s| ==> InAlphabet(s[i])
  }

  function Chars(ds: seq<nat>): (s: string)
    requires forall i :: 0 <= i < |ds| ==> ds[i] < 58
    ensures |s| == |ds| && forall i :: 0 <= i < |ds| ==> s[i] == CharOf(ds[i])
  {
    if ds == [] then "" else Chars(ds[..|ds| - 1]) + [CharOf(ds[|ds| - 1])]
  }

  function Indices(s: string): (ds: seq<nat>)
    ensures |ds| == |s| && forall i :: 0 <= i < |s| ==> ds[i] == DigitOf(s[i])
  {
    if s == "" then [] else Indices(s[..|s| - 1]) + [DigitOf(s[|s| - 1])]
  }

  //////////////////////////////////////////////////////////////////////////////
  // Encoding
  //////////////////////////////////////////////////////////////////////////////

  function LeadingZeros(ds: seq<nat>): (z: nat)
    ensures z <= |ds| && (forall i :: 0 <= i < z ==> ds[i] == 0) && (z < |ds| ==> ds[z] != 0)
  {
    if ds == [] || ds[0] != 0 then 0 else 1 + LeadingZeros(ds[1..])
  }

  /** A number in another base, most significant digit first, with its leading zeros kept. */
  function Recode(ds: seq<nat>, from: nat, to: nat): seq<nat>
    requires to >= 2
  {
    Zeros(LeadingZeros(ds)) + Reverse(Digits(Value(Reverse(ds), from), to))
  }

  /** The digits of the string that encodes a byte string. */
  function Encoding(bytes: Bytes): seq<nat> {
    Recode(bytes, 256, 58)
  }

  lemma {:induction false} EncodingIsDigits(bytes: Bytes)
    ensures AllBelow(Encoding(bytes), 58)
  {
    ValueOfDigits(Value(Reverse(bytes), 256), 58);
  }

  lemma {:induction false} CharsMore(ds: seq<nat>, d: nat)
    requires AllBelow(ds, 58) && d < 58
    ensures Chars(ds + [d]) == Chars(ds) + [CharOf(d)]
  {
    assert (ds + [d])[..|ds|] == ds;
  }

  lemma {:induction false} CharsReversed(ds: seq<nat>)
    requires AllBelow(ds, 58)
    ensures AllBelow(Reverse(ds), 58) && Reverse(Chars(ds)) == Chars(Reverse(ds))
  {
    hide CharOf;
  }

  /** The division loop: the digits of a number, least significant first. */
  method WriteDigits(n: nat) returns (str: string)
    ensures AllBelow(Digits(n, 58), 58) && str == Chars(Digits(n, 58))
  {
    hide CharOf, Chars, Digits;
    ValueOfDigits(n, 58);
    var bn := n;
    ghost var ds: seq<nat> := [];
    str := "";
    assert str == Chars(ds) by { NoChars(); }
    while bn > 0
      invariant bn >= 0 && ds + Digits(bn, 58) == Digits(n, 58)
      invariant AllBelow(ds, 58) && str == Chars(ds)
      decreases bn
    {
      DigitsStep(ds, bn);
      CharsMore(ds, bn % 58);
      str := str + [CharOf(bn % 58)];
      ds := ds + [bn % 58];
      bn := bn / 58;
    }
    DigitsDone(ds);
  }

  lemma {:induction false} DigitsStep(ds: seq<nat>, bn: nat)
    requires bn > 0
    ensures 0 <= bn / 58 < bn && ds + Digits(bn, 58) == (ds + [bn % 58]) + Digits(bn / 58, 58)
  {
    Smaller(bn, 58);
  }

  lemma {:induction false} DigitsDone(ds: seq<nat>)
    ensures ds + Digits(0, 58) == ds
  {
  }

  lemma {:induction false} NoChars()
    ensures Chars([]) == ""
  {
  }

  /** The loop over the leading zero bytes. */
  method AppendOnes(bytes: Bytes, from: string, ghost ds: seq<nat>) returns (str: string)
    requires AllBelow(ds, 58) && from == Chars(ds)
    ensures AllBelow(ds + Zeros(LeadingZeros(bytes)), 58) && str == Chars(ds + Zeros(LeadingZeros(bytes)))
  {
    hide CharOf, Chars;
    str := from;
    var p := 0;
    assert ds + Zeros(0) == ds;
    while p < |bytes| && bytes[p] == 0
      invariant 0 <= p <= LeadingZeros(bytes)
      invariant AllBelow(ds + Zeros(p), 58) && str == Chars(ds + Zeros(p))
    {
      CharsMore(ds + Zeros(p), 0);
      assert (ds + Zeros(p)) + [0] == ds + Zeros(p + 1);
      str := str + [CharOf(0)];
      p := p + 1;
    }
  }

  method EncodeBase58(bytes: Bytes) returns (str: string)
    ensures AllBelow(Encoding(bytes), 58) && str == Chars(Encoding(bytes))
  {
    hide CharOf, Chars, Digits, Value, SetVch, LeadingZeros;
    EncodingIsDigits(bytes);
    var vchTmp := Reverse(bytes) + [0];
    SetVchPositive(Reverse(bytes));
    var bn := SetVch(vchTmp);
    str := WriteDigits(bn);
    ghost var ds, z := Digits(bn, 58), LeadingZeros(bytes);
    str := AppendOnes(bytes, str, ds);
    CharsReversed(ds + Zeros(z));
    ReverseConcat(ds, Zeros(z));
    ReverseZeros(z);
    str := Reverse(str);
  }

  //////////////////////////////////////////////////////////////////////////////
  // Decoding
  //////////////////////////////////////////////////////////////////////////////

  /** The bytes that a string of digits encodes. */
  function Decoding(ds: seq<nat>): Bytes {
    Recode(ds, 58, 256)
  }

  /** `getvch` without the sign byte. */
  lemma {:induction false} TrimmedVch(n: nat)
    ensures var vch := GetVch(n);
      Digits(n, 256) == if |vch| >= 2 && vch[|vch| - 1] == 0 && vch[|vch| - 2] >= 0x80 then vch[..|vch| - 1] else vch
  {
    ValueOfDigits(n, 256);
  }

  lemma {:induction false} ValueOfPrefix(ds: seq<nat>, k: nat)
    requires k < |ds|
    ensures Value(Reverse(ds[..k + 1]), 58) == Value(Reverse(ds[..k]), 58) * 58 + ds[k]
  {
    var r := Reverse(ds[..k + 1]);
    assert r[1..] == Reverse(ds[..k]);
  }

  /** The end of a C string: its length, or the first terminator. */
  ghost predicate IsEnd(s: string, e: nat) {
    e <= |s| && (e < |s| ==> s[e] == '\0') && forall i :: 0 <= i < e ==> s[i] != '\0'
  }

  /** The string is white space, digits in [lo, hi), white space. */
  ghost predicate Framed(s: string, lo: nat, hi: nat, e: nat) {
    && lo <= hi <= e <= |s|
    && (forall i :: 0 <= i < lo ==> IsSpace(s[i]))
    && (forall i :: lo <= i < hi ==> InAlphabet(s[i]))
    && (forall i :: hi <= i < e ==> IsSpace(s[i]))
  }

  /** The multiplication loop: reads digits as far as they go. */
  method ReadDigits(s: string, lo: nat) returns (bn: nat, hi: nat)
    requires lo <= |s|
    ensures lo <= hi <= |s| && (forall i :: lo <= i < hi ==> InAlphabet(s[i]))
    ensures hi < |s| ==> !InAlphabet(s[hi])
    ensures bn == Value(Reverse(Indices(s[lo..hi])), 58)
  {
    hide InAlphabet, Indices, Value;
    bn, hi := 0, lo;
    NoIndices(s, lo);
    while hi < |s| && InAlphabet(s[hi])
      invariant lo <= hi <= |s| && forall i :: lo <= i < hi ==> InAlphabet(s[i])
      invariant bn == Value(Reverse(Indices(s[lo..hi])), 58)
    {
      ReadStep(s, lo, hi);
      bn := bn * 58 + DigitOf(s[hi]);
      hi := hi + 1;
    }
  }

  method CountOnes(s: string, lo: nat, ghost hi: nat, ghost e: nat) returns (z: nat)
    requires IsEnd(s, e) && Framed(s, lo, hi, e)
    ensures z == LeadingZeros(Indices(s[lo..hi]))
  {
    hide CharOf, Indices, LeadingZeros;
    z := 0;
    while lo + z < |s| && s[lo + z] == CharOf(0)
      invariant 0 <= z <= LeadingZeros(Indices(s[lo..hi]))
    {
      LeadingOne(s, lo, hi, e, z);
      z := z + 1;
    }
    LeadingOne(s, lo, hi, e, z);
  }

  method SkipSpaces(s: string, from: nat, ghost e: nat) returns (to: nat)
    requires IsEnd(s, e) && from <= e
    ensures from <= to <= e && (forall i :: from <= i < to ==> IsSpace(s[i])) && (to < e ==> !IsSpace(s[to]))
  {
    to := from;
    while to < |s| && IsSpace(s[to])
      invariant from <= to <= e && forall i :: from <= i < to ==> IsSpace(s[i])
    {
      to := to + 1;
    }
  }

  method DecodeBase58(s: string) returns (r: Decoded, ghost lo: nat, ghost hi: nat, ghost e: nat)
    ensures IsEnd(s, e) && lo <= hi <= e
    ensures r.Ok? <==> exists a, b :: Framed(s, a, b, e)
    ensures r.Ok? ==> Framed(s, lo, hi, e) && r.bytes == Decoding(Indices(s[lo..hi]))
  {
    hide InAlphabet, Indices, Digits, Value, GetVch, LeadingZeros, IsSpace;
    e := EndOf(s);
    var psz := SkipSpaces(s, 0, e);
    var bn, p := ReadDigits(s, psz);
    DigitsEnd(s, psz, p, e);
    var q := SkipSpaces(s, p, e);
    lo, hi := psz, p;
    if q < |s| && s[q] != '\0' {
      NotFramed(s, lo, hi, q, e);
      return Fail, lo, hi, e;
    }
    assert Framed(s, lo, hi, e);
    var vchTmp := GetVch(bn);
    TrimmedVch(bn);
    if |vchTmp| >= 2 && vchTmp[|vchTmp| - 1] == 0 && vchTmp[|vchTmp| - 2] >= 0x80 {
      vchTmp := vchTmp[..|vchTmp| - 1];
    }
    var nLeadingZeros := CountOnes(s, psz, hi, e);
    r := Ok(Zeros(nLeadingZeros) + Reverse(vchTmp));
  }

  /** Digits stop before the end of the string. */
  lemma {:induction false} DigitsEnd(s: string, lo: nat, hi: nat, e: nat)
    requires IsEnd(s, e) && lo <= e && lo <= hi <= |s| && forall i :: lo <= i < hi ==> InAlphabet(s[i])
    ensures hi <= e
  {
    if e < hi {
      NotADigit(s[e]);
    }
  }

  method EndOf(s: string) returns (e: nat)
    ensures IsEnd(s, e)
  {
    e := 0;
    while e < |s| && s[e] != '\0'
      invariant e <= |s| && forall i :: 0 <= i < e ==> s[i] != '\0'
    {
      e := e + 1;
    }
  }

  lemma {:induction false} NoIndices(s: string, lo: nat)
    requires lo <= |s|
    ensures Value(Reverse(Indices(s[lo..lo])), 58) == 0
  {
  }

  lemma {:induction false} ReadStep(s: string, lo: nat, hi: nat)
    requires lo <= hi < |s|
    ensures Value(Reverse(Indices(s[lo..hi + 1])), 58) == Value(Reverse(Indices(s[lo..hi])), 58) * 58 + DigitOf(s[hi])
  {
    hide DigitOf, Value;
    var more := Indices(s[lo..hi + 1]);
    assert more[..hi - lo] == Indices(s[lo..hi]);
    assert more[..hi - lo + 1] == more;
    ValueOfPrefix(more, hi - lo);
  }

  /** A character that is neither digit nor space in the way leaves no other reading. */
  lemma {:induction false} NotFramed(s: string, lo: nat, hi: nat, p: nat, e: nat)
    requires IsEnd(s, e) && lo <= hi <= p < e
    requires forall i :: lo <= i < hi ==> InAlphabet(s[i])
    requires forall i :: hi <= i < p ==> IsSpace(s[i])
    requires !IsSpace(s[lo]) && !InAlphabet(s[hi]) && !IsSpace(s[p])
    ensures forall a, b :: !Framed(s, a, b, e)
  {
    hide IsSpace, InAlphabet;
    NotADigitHere(s, hi);
    NotADigitHere(s, p);
  }

  lemma {:induction false} NotADigitHere(s: string, i: nat)
    requires i < |s|
    ensures !(IsSpace(s[i]) && InAlphabet(s[i]))
  {
    NotADigit(s[i]);
  }

  /** Leading ones of the string are leading zeros among its digits. */
  lemma {:induction false} LeadingOne(s: string, lo: nat, hi: nat, e: nat, z: nat)
    requires IsEnd(s, e) && Framed(s, lo, hi, e) && z <= LeadingZeros(Indices(s[lo..hi]))
    ensures (lo + z < |s| && s[lo + z] == CharOf(0)) <==> z < LeadingZeros(Indices(s[lo..hi]))
  {
    hide CharOf, IsSpace;
    var ds := Indices(s[lo..hi]);
    DigitOfChar(0);
    if lo + z < hi {
      assert ds[z] == DigitOf(s[lo + z]);
      DigitIs(s[lo + z]);
    } else if lo + z < |s| {
      NotADigit(s[lo + z]);
    }
  }

  lemma {:induction false} DigitIs(c: char)
    ensures DigitOf(c) < 58 ==> CharOf(DigitOf(c)) == c
  {
  }

  //////////////////////////////////////////////////////////////////////////////
  // Round trips
  //////////////////////////////////////////////////////////////////////////////

  /** Split off the leading zeros: the rest, reversed, is canonical and has the same value. */
  lemma {:induction false} WithoutZeros(ds: seq<nat>, base: nat)
    requires base >= 2 && AllBelow(ds, base)
    ensures var z := LeadingZeros(ds); var body := ds[z..];
      && ds == Zeros(z) + body && Canonical(Reverse(body), base)
      && Value(Reverse(ds), base) == Value(Reverse(body), base)
  {
    var z := LeadingZeros(ds);
    var body := ds[z..];
    assert ds == Zeros(z) + body;
    ReverseConcat(Zeros(z), body);
    ReverseZeros(z);
    ValueWithZeros(Reverse(body), z, base);
  }

  lemma {:induction false} LeadingZerosOf(z: nat, body: seq<nat>)
    requires body != [] ==> body[0] != 0
    ensures LeadingZeros(Zeros(z) + body) == z
  {
    if z > 0 {
      LeadingZerosOf(z - 1, body);
      assert (Zeros(z) + body)[1..] == Zeros(z - 1) + body;
    } else {
      assert Zeros(0) + body == body;
    }
  }

  /** Changing the base and changing it back gives the same digits, leading zeros included. */
  lemma {:induction false} RecodeBack(ds: seq<nat>, from: nat, to: nat)
    requires from >= 2 && to >= 2 && AllBelow(ds, from)
    ensures AllBelow(Recode(ds, from, to), to)
    ensures Recode(Recode(ds, from, to), to, from) == ds
  {
    hide Digits, Value, LeadingZeros;
    var z := LeadingZeros(ds);
    var body := ds[z..];
    WithoutZeros(ds, from);
    var n := Value(Reverse(ds), from);
    ValueOfDigits(n, to);
    var out := Reverse(Digits(n, to));
    LeadingZerosOf(z, out);
    ReverseConcat(Zeros(z), out);
    ReverseZeros(z);
    ReverseTwice(Digits(n, to));
    ValueWithZeros(Digits(n, to), z, to);
    DigitsOfValue(Reverse(body), from);
    ReverseTwice(body);
  }

  lemma {:induction false} IndicesOfChars(ds: seq<nat>)
    requires AllBelow(ds, 58)
    ensures Indices(Chars(ds)) == ds && AllDigits(Chars(ds))
  {
    forall i | 0 <= i < |ds| ensures DigitOf(Chars(ds)[i]) == ds[i] {
      DigitOfChar(ds[i]);
    }
  }

  lemma {:induction false} CharsOfIndices(s: string)
    requires AllDigits(s)
    ensures AllBelow(Indices(s), 58) && Chars(Indices(s)) == s
  {
    forall i | 0 <= i < |s| ensures Indices(s)[i] < 58 && CharOf(Indices(s)[i]) == s[i] {
      DigitIs(s[i]);
      assert InAlphabet(s[i]);
    }
  }

  /** Decoding the encoding of any byte string gives it back. */
  lemma {:induction false} DecodeEncode(bytes: Bytes)
    requires AllBelow(bytes, 256)
    ensures AllBelow(Encoding(bytes), 58)
    ensures AllDigits(Chars(Encoding(bytes))) && Decoding(Indices(Chars(Encoding(bytes)))) == bytes
  {
    RecodeBack(bytes, 256, 58);
    IndicesOfChars(Encoding(bytes));
  }

  /** Encoding the decoding of any string of digits gives it back. */
  lemma {:induction false} EncodeDecode(s: string)
    requires AllDigits(s)
    ensures AllBelow(Decoding(Indices(s)), 256) && AllBelow(Encoding(Decoding(Indices(s))), 58)
    ensures Chars(Encoding(Decoding(Indices(s)))) == s
  {
    CharsOfIndices(s);
    RecodeBack(Indices(s), 58, 256);
  }

  /** A string of digits is read whole. */
  lemma {:induction false} ReadWhole(s: string, e: nat)
    requires AllDigits(s) && IsEnd(s, e)
    ensures e == |s| && Framed(s, 0, |s|, e)
    ensures forall a, b :: Framed(s, a, b, e) ==> a == 0 && b == |s|
  {
    hide IsSpace, InAlphabet;
    if e < |s| {
      Readable(s, e);
    }
    forall a: nat, b: nat | Framed(s, a, b, e) ensures a == 0 && b == |s| {
      if a > 0 {
        Readable(s, 0);
      }
      if b < e {
        Readable(s, b);
      }
    }
  }

  lemma {:induction false} Readable(s: string, i: nat)
    requires AllDigits(s) && i < |s|
    ensures !IsSpace(s[i]) && s[i] != '\0'
  {
    NotADigit(s[i]);
  }

  //////////////////////////////////////////////////////////////////////////////
  // With a checksum
  //////////////////////////////////////////////////////////////////////////////

  /** The double hash: 32 bytes. */
  ghost predicate IsHash(hash: Bytes -> Bytes) {
    forall b :: |hash(b)| == 32 && AllBelow(hash(b), 256)
  }

  method EncodeBase58Check(hash: Bytes -> Bytes, vchIn: Bytes) returns (str: string)
    requires IsHash(hash)
    ensures AllBelow(Encoding(vchIn + hash(vchIn)[..4]), 58)
    ensures str == Chars(Encoding(vchIn + hash(vchIn)[..4]))
  {
    str := EncodeBase58(vchIn + hash(vchIn)[..4]);
  }

  /** Accepted are exactly the readable strings of at least four bytes that end in the checksum of
      what precedes it. */
  method DecodeBase58Check(hash: Bytes -> Bytes, s: string)
    returns (r: Decoded, ghost raw: Decoded, ghost lo: nat, ghost hi: nat, ghost e: nat)
    requires IsHash(hash)
    ensures IsEnd(s, e) && lo <= hi <= e
    ensures raw.Ok? <==> exists a, b :: Framed(s, a, b, e)
    ensures raw.Ok? ==> Framed(s, lo, hi, e) && raw.bytes == Decoding(Indices(s[lo..hi]))
    ensures AllDigits(s) ==> raw == Ok(Decoding(Indices(s)))
    ensures r.Ok? <==> raw.Ok? && |raw.bytes| >= 4 && raw.bytes[|raw.bytes| - 4..] == hash(raw.bytes[..|raw.bytes| - 4])[..4]
    ensures r.Ok? ==> r.bytes == raw.bytes[..|raw.bytes| - 4]
  {
    hide Decoding, Indices, Framed;
    var d;
    d, lo, hi, e := DecodeBase58(s);
    raw := d;
    if AllDigits(s) {
      ReadWhole(s, e);
      assert s[0..|s|] == s;
    }
    if d.Fail? || |d.bytes| < 4 {
      return Fail, raw, lo, hi, e;
    }
    var n := |d.bytes| - 4;
    if d.bytes[n..] != hash(d.bytes[..n])[..4] {
      return Fail, raw, lo, hi, e;
    }
    r := Ok(d.bytes[..n]);
  }

  /** The checksum form is undone by its decoder. */
  method CheckRoundTrip(hash: Bytes -> Bytes, bytes: Bytes) returns (r: Decoded)
    requires IsHash(hash) && AllBelow(bytes, 256)
    ensures r == Ok(bytes)
  {
    hide Decoding, Indices, Encoding, Chars;
    var vch := bytes + hash(bytes)[..4];
    var str := EncodeBase58Check(hash, bytes);
    DecodeEncode(vch);
    ghost var raw, lo, hi, e;
    r, raw, lo, hi, e := DecodeBase58Check(hash, str);
    assert vch[..|bytes|] == bytes && vch[|bytes|..] == hash(bytes)[..4];
  }
}
