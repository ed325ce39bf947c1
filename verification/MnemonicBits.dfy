/** The 11-bit packing of mnemonics: bytes and words as strings of bits, most significant bit first. */
module MnemonicBits {

  type Byte = b: bv16 | b < 0x100
  type Word = w: bv16 | w < 0x800

  //////////////////////////////////////////////////////////////////////////////
  // Bits of machine words
  //////////////////////////////////////////////////////////////////////////////

  function Mask(j: nat): bv16 {
    if j == 0 then 1 else if j == 1 then 2 else if j == 2 then 4 else if j == 3 then 8
    else if j == 4 then 0x10 else if j == 5 then 0x20 else if j == 6 then 0x40 else if j == 7 then 0x80
    else if j == 8 then 0x100 else if j == 9 then 0x200 else if j == 10 then 0x400 else if j == 11 then 0x800
    else if j == 12 then 0x1000 else if j == 13 then 0x2000 else if j == 14 then 0x4000 else if j == 15 then 0x8000
    else 0
  }

  /** Bit j, counted from the least significant one. */
  predicate Bit(x: bv16, j: nat) {
    Has(x, Mask(j))
  }

  predicate Has(x: bv16, m: bv16) {
    And(x, m) != 0
  }

  function And(x: bv16, y: bv16): bv16 {
    x & y
  }

  /** Shifts by a variable amount, one place at a time. */
  function Shl(x: bv16, r: nat): bv16 {
    if r == 0 then x else Shl(x, r - 1) << 1
  }

  function Shr(x: bv16, r: nat): bv16 {
    if r == 0 then x else Shr(x, r - 1) >> 1
  }

  function Or(x: bv16, y: bv16): bv16 {
    x | y
  }

  /** The low eight and the low eleven bits. */
  function Low8(x: bv16): Byte {
    x & 0xFF
  }

  function Low11(x: bv16): Word {
    x & 0x7FF
  }

  lemma {:induction false} ShlOne(x: bv16, j: nat)
    requires j < 16
    ensures Bit(x << 1, j) == (j > 0 && Bit(x, j - 1))
  {
  }

  lemma {:induction false} ShrOne(x: bv16, j: nat)
    ensures Bit(x >> 1, j) == Bit(x, j + 1)
  {
  }

  lemma {:induction false} ShlBit(x: bv16, r: nat, j: nat)
    requires j < 16
    ensures Bit(Shl(x, r), j) == (j >= r && Bit(x, j - r))
  {
    hide Bit;
    if r > 0 {
      ShlOne(Shl(x, r - 1), j);
      if j > 0 {
        ShlBit(x, r - 1, j - 1);
      }
    }
  }

  lemma {:induction false} ShrBit(x: bv16, r: nat, j: nat)
    ensures Bit(Shr(x, r), j) == Bit(x, j + r)
  {
    hide Bit;
    if r > 0 {
      ShrOne(Shr(x, r - 1), j);
      ShrBit(x, r - 1, j + 1);
    }
  }

  lemma {:induction false} OrBit(x: bv16, y: bv16, j: nat)
    ensures Bit(Or(x, y), j) == (Bit(x, j) || Bit(y, j))
  {
    hide Has, Mask, Or;
    OrHas(x, y, Mask(j));
  }

  lemma {:induction false} OrHas(x: bv16, y: bv16, m: bv16)
    ensures Has(Or(x, y), m) == (Has(x, m) || Has(y, m))
  {
    hide And, Or;
    OrDistributes(x, y, m);
    OrIsZero(And(x, m), And(y, m));
  }

  lemma {:induction false} OrDistributes(x: bv16, y: bv16, m: bv16)
    ensures And(Or(x, y), m) == Or(And(x, m), And(y, m))
  {
  }

  lemma {:induction false} OrIsZero(x: bv16, y: bv16)
    ensures Or(x, y) == 0 <==> x == 0 && y == 0
  {
  }

  lemma {:induction false} LowByte(x: bv16, j: nat)
    ensures Bit(Low8(x), j) == (j < 8 && Bit(x, j))
  {
    AndMask(x, 0xFF, Mask(j));
  }

  lemma {:induction false} AndMask(x: bv16, y: bv16, m: bv16)
    ensures (x & y) & m == x & (y & m)
  {
  }

  lemma {:induction false} LowWord(x: bv16, j: nat)
    ensures Bit(Low11(x), j) == (j < 11 && Bit(x, j))
  {
    AndMask(x, 0x7FF, Mask(j));
  }

  lemma {:induction false} NoHighBit(x: bv16, j: nat)
    ensures x < 0x100 && j >= 8 ==> !Bit(x, j)
    ensures x < 0x800 && j >= 11 ==> !Bit(x, j)
  {
  }

  /** The low eleven bits determine a word. */
  lemma {:induction false} SameBits(a: Word, b: Word)
    requires forall j :: 0 <= j < 11 ==> Bit(a, j) == Bit(b, j)
    ensures a == b
  {
    assert Bit(a, 0) == Bit(b, 0) && Bit(a, 1) == Bit(b, 1) && Bit(a, 2) == Bit(b, 2);
    assert Bit(a, 3) == Bit(b, 3) && Bit(a, 4) == Bit(b, 4) && Bit(a, 5) == Bit(b, 5);
    assert Bit(a, 6) == Bit(b, 6) && Bit(a, 7) == Bit(b, 7) && Bit(a, 8) == Bit(b, 8);
    assert Bit(a, 9) == Bit(b, 9) && Bit(a, 10) == Bit(b, 10);
  }

  //////////////////////////////////////////////////////////////////////////////
  // Bit strings
  //////////////////////////////////////////////////////////////////////////////

  predicate ByteBit(b: Byte, j: nat)
    requires j < 8
  {
    Bit(b, 7 - j)
  }

  predicate WordBit(w: Word, j: nat)
    requires j < 11
  {
    Bit(w, 10 - j)
  }

  /** Bit p of a byte string. */
  predicate BitAt(s: seq<Byte>, p: nat)
    requires p < 8 * |s|
  {
    ByteBit(s[p / 8], p % 8)
  }

  lemma {:induction false} SameByte(a: Byte, b: Byte)
    requires forall j :: 0 <= j < 8 ==> ByteBit(a, j) == ByteBit(b, j)
    ensures a == b
  {
    hide Bit;
    forall j | 0 <= j < 11 ensures Bit(a, j) == Bit(b, j) {
      NoHighBit(a, j);
      NoHighBit(b, j);
      if j < 8 {
        assert ByteBit(a, 7 - j) == ByteBit(b, 7 - j);
      }
    }
    SameBits(a, b);
  }

  lemma {:induction false} SameWord(a: Word, b: Word)
    requires forall j :: 0 <= j < 11 ==> WordBit(a, j) == WordBit(b, j)
    ensures a == b
  {
    hide Bit;
    forall j | 0 <= j < 11 ensures Bit(a, j) == Bit(b, j) {
      assert WordBit(a, 10 - j) == WordBit(b, 10 - j);
    }
    SameBits(a, b);
  }

  /** Equal bit strings are equal byte strings. */
  lemma {:induction false} SameBytes(a: seq<Byte>, b: seq<Byte>)
    requires |a| == |b| && forall p :: 0 <= p < 8 * |a| ==> BitAt(a, p) == BitAt(b, p)
    ensures a == b
  {
    hide ByteBit;
    forall i | 0 <= i < |a| ensures a[i] == b[i] {
      forall j | 0 <= j < 8 ensures ByteBit(a[i], j) == ByteBit(b[i], j) {
        assert BitAt(a, 8 * i + j) == BitAt(b, 8 * i + j);
        assert (8 * i + j) / 8 == i && (8 * i + j) % 8 == j;
      }
      SameByte(a[i], b[i]);
    }
  }

  //////////////////////////////////////////////////////////////////////////////
  // One word
  //////////////////////////////////////////////////////////////////////////////

  /** The word that starts at bit r of three bytes, as the encoder computes it. */
  function TakeWord(b1: Byte, b2: Byte, b3: Byte, r: nat): Word
    requires r < 8
  {
    var high := Shl(Low8(Shl(b1, r)), 3);
    if r > 5 then Low11(Or(Or(high, Shl(b2, r - 5)), Shr(b3, 13 - r)))
    else Low11(Or(high, Shr(b2, 5 - r)))
  }

  /** Bit p of three bytes. */
  predicate BitOfThree(b1: Byte, b2: Byte, b3: Byte, p: nat)
    requires p < 24
  {
    if p < 8 then ByteBit(b1, p) else if p < 16 then ByteBit(b2, p - 8) else ByteBit(b3, p - 16)
  }

  lemma {:induction false} HighPart(b: Byte, r: nat, j: nat)
    requires r < 8 && j < 11
    ensures Bit(Shl(Low8(Shl(b, r)), 3), j) == (3 + r <= j && Bit(b, j - 3 - r))
  {
    hide Bit, Shl, Low8;
    ShlBit(Low8(Shl(b, r)), 3, j);
    if j >= 3 {
      LowByte(Shl(b, r), j - 3);
      ShlBit(b, r, j - 3);
    }
  }

  lemma {:induction false} TakeWordBit(b1: Byte, b2: Byte, b3: Byte, r: nat, j: nat)
    requires r < 8 && j < 11
    ensures WordBit(TakeWord(b1, b2, b3, r), j) == BitOfThree(b1, b2, b3, r + j)
  {
    hide Bit, Shl, Shr, Or, Low8, Low11;
    var high, k := Shl(Low8(Shl(b1, r)), 3), 10 - j;
    HighPart(b1, r, k);
    if r > 5 {
      var mid, low := Shl(b2, r - 5), Shr(b3, 13 - r);
      LowWord(Or(Or(high, mid), low), k);
      OrBit(Or(high, mid), low, k);
      OrBit(high, mid, k);
      ShlBit(b2, r - 5, k);
      ShrBit(b3, 13 - r, k);
      NoHighBit(b3, k + 13 - r);
      NoHighBit(b2, if k >= r - 5 then k - (r - 5) else 0);
    } else {
      var mid := Shr(b2, 5 - r);
      LowWord(Or(high, mid), k);
      OrBit(high, mid, k);
      ShrBit(b2, 5 - r, k);
      NoHighBit(b2, k + 5 - r);
    }
  }

  /** What the decoder ORs into the three bytes from bit r on. */
  function Part1(o: Word, r: nat): Byte {
    Low8(Shr(o, r + 3))
  }

  function Part2(o: Word, r: nat): Byte {
    Low8(if r > 5 then Shr(o, r - 5) else Shl(o, 5 - r))
  }

  function Part3(o: Word, r: nat): Byte
    requires r < 8
  {
    if r > 5 then Low8(Shl(o, 13 - r)) else 0
  }

  lemma {:induction false} PartBits(o: Word, r: nat, j: nat)
    requires r < 8 && j < 8
    ensures ByteBit(Part1(o, r), j) == (r <= j && WordBit(o, j - r))
    ensures ByteBit(Part2(o, r), j) == (j + 8 < r + 11 && WordBit(o, j + 8 - r))
    ensures ByteBit(Part3(o, r), j) == (j + 16 < r + 11 && WordBit(o, j + 16 - r))
  {
    hide Bit, Shl, Shr, Or, Low8, Low11;
    var k := 7 - j;
    LowByte(Shr(o, r + 3), k);
    ShrBit(o, r + 3, k);
    NoHighBit(o, k + r + 3);
    if r > 5 {
      LowByte(Shr(o, r - 5), k);
      ShrBit(o, r - 5, k);
      LowByte(Shl(o, 13 - r), k);
      ShlBit(o, 13 - r, k);
    } else {
      LowByte(Shl(o, 5 - r), k);
      ShlBit(o, 5 - r, k);
      NoBits(k);
    }
  }

  lemma {:induction false} NoBits(j: nat)
    ensures !Bit(0, j)
  {
  }

  //////////////////////////////////////////////////////////////////////////////
  // Keeping the top bits of a byte
  //////////////////////////////////////////////////////////////////////////////

  /** `((1 << r) - 1) << (8 - r)`. */
  function TopMask(r: nat): bv16
    requires r <= 8
  {
    Shl(Minus1(Shl(1, r)), 8 - r)
  }

  function Minus1(x: bv16): bv16 {
    x - 1
  }

  lemma {:induction false} OnesNext(x: bv16)
    ensures Minus1(x << 1) == Or(Minus1(x) << 1, 1)
  {
  }

  lemma {:induction false} One(j: nat)
    ensures Bit(1, j) == (j == 0)
    ensures !Bit(Minus1(1), j)
  {
  }

  lemma {:induction false} OnesBit(r: nat, j: nat)
    requires j < 16
    ensures Bit(Minus1(Shl(1, r)), j) == (j < r)
  {
    hide Bit, Or, Minus1;
    One(j);
    if r > 0 {
      var x := Shl(1, r - 1);
      OnesNext(x);
      OrBit(Minus1(x) << 1, 1, j);
      ShlOne(Minus1(x), j);
      if j > 0 {
        OnesBit(r - 1, j - 1);
      }
    }
  }

  lemma {:induction false} AndBit(x: bv16, y: bv16, j: nat)
    ensures Bit(And(x, y), j) == (Bit(x, j) && Bit(y, j))
  {
    hide And, Mask;
    var m := Mask(j);
    AndDistributes(x, y, m);
    OneBit(x, j);
    OneBit(y, j);
    AndTrivial(m);
  }

  lemma {:induction false} AndDistributes(x: bv16, y: bv16, m: bv16)
    ensures And(And(x, y), m) == And(And(x, m), And(y, m))
  {
  }

  lemma {:induction false} AndTrivial(m: bv16)
    ensures And(m, m) == m && And(0, m) == 0 == And(m, 0) == And(0, 0)
  {
  }

  lemma {:induction false} OneBit(x: bv16, j: nat)
    ensures And(x, Mask(j)) == 0 || And(x, Mask(j)) == Mask(j)
  {
  }

  lemma {:induction false} TopBits(b: Byte, r: nat, j: nat)
    requires r <= 8 && j < 8
    ensures ByteBit(Low8(And(b, TopMask(r))), j) == (j < r && ByteBit(b, j))
  {
    hide Bit, And, Low8, Shl, Minus1;
    LowByte(And(b, TopMask(r)), 7 - j);
    AndBit(b, TopMask(r), 7 - j);
    ShlBit(Minus1(Shl(1, r)), 8 - r, 7 - j);
    if 7 - j >= 8 - r {
      OnesBit(r, 7 - j - (8 - r));
    }
  }
}
