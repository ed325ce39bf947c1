/** Mnemonics: entropy and a checksum cut into 11-bit words, and back. */
module Mnemonics {
  import opened Common
  import opened MnemonicBits

  datatype Result<T> = Ok(value: T) | Err(code: int)

  /** The digest function, SHA-256 in the source. */
  type Digest = seq<Byte> -> seq<Byte>

  ghost predicate IsDigest(H: Digest) {
    forall e :: |H(e)| == 32
  }

  function CeilDiv(a: nat, b: nat): nat
    requires b > 0
  {
    a / b + if a % b == 0 then 0 else 1
  }

  /** Bit p of a string of words. */
  predicate WordsBit(w: seq<Word>, p: nat)
    requires p < 11 * |w|
  {
    WordBit(w[p / 11], p % 11)
  }

  //////////////////////////////////////////////////////////////////////////////
  // Packing
  //////////////////////////////////////////////////////////////////////////////

  /** The words hold the bits of the bytes, in order. */
  ghost predicate Packed(vIn: seq<Byte>, w: seq<Word>) {
    11 * |w| <= 8 * |vIn| && forall p :: 0 <= p < 11 * |w| ==> WordsBit(w, p) == BitAt(vIn, p)
  }

  /** The bytes that packing the given number of bits reads. */
  predicate Readable(nBits: nat, nBytes: nat) {
    nBits > 0 ==>
      var last := (nBits - 1) / 11 * 11;
      last / 8 + (if last % 8 > 5 then 2 else 1) < nBytes
  }

  lemma {:induction false} ThreeBytes(v: seq<Byte>, s: nat, q: nat)
    requires q < 24 && s + q / 8 < |v|
    ensures BitAt(v, 8 * s + q) == ByteBit(v[s + q / 8], q % 8)
  {
    assert (8 * s + q) / 8 == s + q / 8 && (8 * s + q) % 8 == q % 8;
  }

  lemma {:induction false} PackNext(vIn: seq<Byte>, w: seq<Word>, b3: Byte)
    requires Packed(vIn, w)
    requires var i := 11 * |w|; i / 8 + (if i % 8 > 5 then 2 else 1) < |vIn|
    requires var i := 11 * |w|; i % 8 > 5 ==> b3 == vIn[i / 8 + 2]
    ensures var i := 11 * |w|;
            Packed(vIn, w + [TakeWord(vIn[i / 8], vIn[i / 8 + 1], b3, i % 8)])
  {
    hide ByteBit, WordBit, TakeWord;
    var i := 11 * |w|;
    var s, r := i / 8, i % 8;
    var o := TakeWord(vIn[s], vIn[s + 1], b3, r);
    var w' := w + [o];
    forall p | 0 <= p < 11 * |w'| ensures WordsBit(w', p) == BitAt(vIn, p) {
      if p >= i {
        var j := p - i;
        TakeWordBit(vIn[s], vIn[s + 1], b3, r, j);
        assert p / 11 == |w| && p % 11 == j;
        assert p == 8 * s + (r + j);
        ThreeBytes(vIn, s, r + j);
      } else {
        assert WordsBit(w', p) == WordsBit(w, p);
      }
    }
  }

  /** The packing loop of `MnemonicEncode`. */
  method PackWords(vIn: seq<Byte>, nBits: nat) returns (vWord: seq<Word>)
    requires Readable(nBits, |vIn|)
    ensures |vWord| == CeilDiv(nBits, 11) && Packed(vIn, vWord)
  {
    hide Packed, TakeWord, Readable;
    vWord := [];
    NothingPacked(vIn);
    var i := 0;
    while i < nBits
      invariant i == 11 * |vWord| && i < nBits + 11 && Packed(vIn, vWord)
    {
      var s, r := i / 8, i % 8;
      Within(nBits, |vIn|, i);
      var b3: Byte := 0;
      if r > 5 {
        b3 := vIn[s + 2];
      }
      PackNext(vIn, vWord, b3);
      vWord := vWord + [TakeWord(vIn[s], vIn[s + 1], b3, r)];
      i := i + 11;
    }
  }

  lemma {:induction false} NothingPacked(vIn: seq<Byte>)
    ensures Packed(vIn, [])
  {
  }

  lemma {:induction false} Within(nBits: nat, nBytes: nat, i: nat)
    requires Readable(nBits, nBytes) && i < nBits && i % 11 == 0
    ensures i / 8 + (if i % 8 > 5 then 2 else 1) < nBytes
  {
    var last := (nBits - 1) / 11 * 11;
    assert i <= last;
    assert i < last ==> i + 11 <= last;
  }

  //////////////////////////////////////////////////////////////////////////////
  // Unpacking
  //////////////////////////////////////////////////////////////////////////////

  /** The bytes hold the bits of the first k words, in order, and zeros. */
  ghost predicate Filled(w: seq<Word>, k: nat, v: seq<Byte>)
    requires k <= |w|
  {
    forall p :: 0 <= p < 8 * |v| ==> BitAt(v, p) == (p < 11 * k && WordsBit(w, p))
  }

  ghost predicate Unpacked(w: seq<Word>, v: seq<Byte>) {
    |v| == CeilDiv(11 * |w|, 8) && Filled(w, |w|, v)
  }

  function OrByte(x: Byte, y: bv16): Byte {
    Low8(Or(x, y))
  }

  lemma {:induction false} OrByteBit(x: Byte, y: Byte, j: nat)
    requires j < 8
    ensures ByteBit(OrByte(x, y), j) == (ByteBit(x, j) || ByteBit(y, j))
  {
    hide Bit, Low8, Or;
    LowByte(Or(x, y), 7 - j);
    OrBit(x, y, 7 - j);
  }

  /** The bytes after one word has been ORed in from bit i on. */
  function PutWord(v: seq<Byte>, i: nat, o: Word): (v': seq<Byte>)
    requires i / 8 + (if i % 8 > 5 then 2 else 1) < |v|
    ensures |v'| == |v|
  {
    var s, r := i / 8, i % 8;
    var v1 := v[s := OrByte(v[s], Part1(o, r))];
    var v2 := v1[s + 1 := OrByte(v1[s + 1], Part2(o, r))];
    if r > 5 then v2[s + 2 := OrByte(v2[s + 2], Part3(o, r))] else v2
  }

  lemma {:induction false} PutWordBit(v: seq<Byte>, i: nat, o: Word, p: nat)
    requires i / 8 + (if i % 8 > 5 then 2 else 1) < |v| && p < 8 * |v|
    ensures BitAt(PutWord(v, i, o), p) == (BitAt(v, p) || (i <= p < i + 11 && WordBit(o, p - i)))
  {
    hide ByteBit, WordBit, Part1, Part2, Part3, OrByte;
    var s, r, j := i / 8, i % 8, p % 8;
    PartBits(o, r, j);
    if p / 8 == s {
      OrByteBit(v[s], Part1(o, r), j);
    } else if p / 8 == s + 1 {
      OrByteBit(v[s + 1], Part2(o, r), j);
    } else if p / 8 == s + 2 && r > 5 {
      OrByteBit(v[s + 2], Part3(o, r), j);
    }
  }

  lemma {:induction false} FilledNext(w: seq<Word>, k: nat, v: seq<Byte>)
    requires k < |w| && Filled(w, k, v)
    requires var i := 11 * k; i / 8 + (if i % 8 > 5 then 2 else 1) < |v|
    ensures Filled(w, k + 1, PutWord(v, 11 * k, w[k]))
  {
    hide WordBit, PutWord, ByteBit;
    var v' := PutWord(v, 11 * k, w[k]);
    forall p | 0 <= p < 8 * |v'| ensures BitAt(v', p) == (p < 11 * (k + 1) && WordsBit(w, p)) {
      PutWordBit(v, 11 * k, w[k], p);
      assert 11 * k <= p < 11 * k + 11 ==> p / 11 == k && p % 11 == p - 11 * k;
      assert BitAt(v, p) == (p < 11 * k && WordsBit(w, p));
    }
  }

  lemma {:induction false} NothingFilled(w: seq<Word>, n: nat)
    ensures Filled(w, 0, Repeat(0, n))
  {
    hide Bit;
    forall p | 0 <= p < 8 * n ensures !BitAt(Repeat(0, n), p) {
      NoBits(7 - p % 8);
    }
  }

  /** The unpacking loop of `MnemonicDecode`. */
  method UnpackWords(vWordInts: seq<Word>) returns (vEntropy: seq<Byte>)
    ensures Unpacked(vWordInts, vEntropy)
  {
    hide Filled, Repeat, PutWord;
    var nBits := 11 * |vWordInts|;
    var nBytes := nBits / 8 + if nBits % 8 == 0 then 0 else 1;
    vEntropy := Repeat(0, nBytes);
    NothingFilled(vWordInts, nBytes);
    var i, k := 0, 0;
    while k < |vWordInts|
      invariant 0 <= k <= |vWordInts| && i == 11 * k && |vEntropy| == nBytes && Filled(vWordInts, k, vEntropy)
    {
      Ends(k, |vWordInts|, nBytes);
      FilledNext(vWordInts, k, vEntropy);
      vEntropy := OrWord(vEntropy, i, vWordInts[k]);
      i, k := i + 11, k + 1;
    }
  }

  /** Its body; the tests for the end of the buffer never fail. */
  method OrWord(v: seq<Byte>, i: nat, o: Word) returns (vEntropy: seq<Byte>)
    requires i / 8 + (if i % 8 > 5 then 2 else 1) < |v|
    ensures vEntropy == PutWord(v, i, o)
  {
    hide OrByte, Part1, Part2, Part3;
    var s, r, el := i / 8, i % 8, |v|;
    vEntropy := v[s := OrByte(v[s], Part1(o, r))];
    if s < el - 1 {
      vEntropy := vEntropy[s + 1 := OrByte(vEntropy[s + 1], Part2(o, r))];
      if r > 5 {
        if s < el - 2 {
          vEntropy := vEntropy[s + 2 := OrByte(vEntropy[s + 2], Part3(o, r))];
        }
      }
    }
  }

  lemma {:induction false} Ends(k: nat, n: nat, nBytes: nat)
    requires k < n && nBytes == CeilDiv(11 * n, 8)
    ensures var i := 11 * k; i / 8 + (if i % 8 > 5 then 2 else 1) < nBytes
  {
    var i := 11 * k;
    assert 8 * nBytes >= 11 * n >= i + 11;
    assert i == 8 * (i / 8) + i % 8;
  }

  //////////////////////////////////////////////////////////////////////////////
  // The checksum
  //////////////////////////////////////////////////////////////////////////////

  /** The first n bits of a digest, padded with zeros to whole bytes. */
  function Masked(hash: seq<Byte>, n: nat): (c: seq<Byte>)
    requires CeilDiv(n, 8) <= |hash|
    ensures |c| == CeilDiv(n, 8)
  {
    var c := hash[..CeilDiv(n, 8)];
    if n % 8 > 0 then c[|c| - 1 := Low8(And(c[|c| - 1], TopMask(n % 8)))] else c
  }

  lemma {:induction false} MaskedBit(hash: seq<Byte>, n: nat, p: nat)
    requires CeilDiv(n, 8) <= |hash| && p < 8 * CeilDiv(n, 8)
    ensures BitAt(Masked(hash, n), p) == (p < n && BitAt(hash, p))
  {
    hide ByteBit, TopMask, And, Low8;
    var k := CeilDiv(n, 8) - 1;
    if n % 8 > 0 {
      TopBits(hash[k], n % 8, p % 8);
    }
  }

  //////////////////////////////////////////////////////////////////////////////
  // Encoding and decoding
  //////////////////////////////////////////////////////////////////////////////

  /** The number of bits that are packed for n bytes of entropy. */
  function EncodedBits(n: nat): nat {
    8 * n + n / 4
  }

  /** The entropy, the bytes of the digest that the checksum needs, and zeros. */
  function Padded(H: Digest, e: seq<Byte>): (vIn: seq<Byte>)
    requires |H(e)| == 32 && |e| / 4 <= 256
    ensures |vIn| == |e| + 32
  {
    var ncb := CeilDiv(|e| / 4, 8);
    e + (H(e)[..ncb] + Repeat(0, 32 - ncb))
  }

  /** `MnemonicEncode` up to the lookup of the words. The entropy is one for which the packing loop stays inside
      its buffer; `ReadableIff` says which that is. */
  method EncodeWords(H: Digest, vEntropy: seq<Byte>) returns (r: Result<seq<Word>>)
    requires IsDigest(H)
    requires 1 <= |vEntropy| / 4 <= 256 ==> Readable(EncodedBits(|vEntropy|), |vEntropy| + 32)
    ensures r.Ok? <==> 1 <= |vEntropy| / 4 <= 256
    ensures r.Ok? ==> |r.value| == CeilDiv(EncodedBits(|vEntropy|), 11) && Packed(Padded(H, vEntropy), r.value)
    ensures r.Err? ==> r.code == 2
  {
    hide Packed, Readable, Repeat;
    var hash := H(vEntropy);
    var nCsSize := |vEntropy| / 4;
    if nCsSize < 1 || nCsSize > 256 {
      return Err(2);
    }
    var ncb := nCsSize / 8;
    if nCsSize % 8 != 0 {
      ncb := ncb + 1;
    }
    var vTmp := hash[..ncb] + Repeat(0, 32 - ncb);
    var vIn := vEntropy + vTmp;
    var nBits := |vEntropy| * 8 + nCsSize;
    var vWord := PackWords(vIn, nBits);
    r := Ok(vWord);
  }

  lemma {:induction false} MultiplesAreReadable(n: nat)
    requires n % 4 == 0 && 4 <= n <= 1024
    ensures Readable(EncodedBits(n), n + 32)
    ensures CeilDiv(EncodedBits(n), 11) == 3 * (n / 4)
  {
    var m := n / 4;
    assert EncodedBits(n) == 11 * (3 * m);
    assert (11 * (3 * m) - 1) / 11 == 3 * m - 1;
    var last := 11 * (3 * m - 1);
    assert last + 11 == 8 * n + m;
  }

  /** Of the lengths that the encoder accepts, exactly these are packed without reading past the buffer. */
  lemma {:induction false} ReadableIff(n: nat)
    requires 1 <= n / 4 <= 256
    ensures Readable(EncodedBits(n), n + 32) <==> n / 4 + 3 * (n % 4) <= 256
  {
    var a, c := n / 4, n % 4;
    var words := 3 * a + c;
    LastWord(n);
    var last := 11 * (words - 1);
    assert last == 8 * n + (a + 3 * c - 11);
  }

  lemma {:induction false} LastWord(n: nat)
    requires n / 4 >= 1
    ensures EncodedBits(n) > 0 && (EncodedBits(n) - 1) / 11 == 3 * (n / 4) + n % 4 - 1
  {
    var a, c := n / 4, n % 4;
    assert EncodedBits(n) == 33 * a + 8 * c;
    assert c == 0 ==> (33 * a - 1) / 11 == 3 * a - 1;
    assert c == 1 ==> (33 * a + 7) / 11 == 3 * a;
    assert c == 2 ==> (33 * a + 15) / 11 == 3 * a + 1;
    assert c == 3 ==> (33 * a + 23) / 11 == 3 * a + 2;
  }

  /** How the decoder splits the bits of k words. */
  function ChecksumBits(k: nat): nat {
    11 * k / 32
  }

  function EntropyBytes(k: nat): nat {
    (11 * k - ChecksumBits(k)) / 8
  }

  lemma {:induction false} SplitFits(k: nat)
    ensures EntropyBytes(k) + CeilDiv(ChecksumBits(k), 8) <= CeilDiv(11 * k, 8)
  {
    var n, c := 11 * k, ChecksumBits(k);
    assert n == 32 * c + n % 32;
    assert (n - c) / 8 * 8 <= n - c;
  }

  /** The checksum that follows the entropy is the first bits of its digest. */
  ghost predicate Accepted(H: Digest, k: nat, v: seq<Byte>)
    requires IsDigest(H) && |v| == CeilDiv(11 * k, 8) && ChecksumBits(k) <= 256
  {
    SplitFits(k);
    var n := EntropyBytes(k);
    v[n..n + CeilDiv(ChecksumBits(k), 8)] == Masked(H(v[..n]), ChecksumBits(k))
  }

  /** `MnemonicDecode` after the lookup of the words. When checksums are compared, there are no more words than a
      digest has bits for. */
  method DecodeWords(H: Digest, vWordInts: seq<Word>, fIgnoreChecksum: bool) returns (r: Result<seq<Byte>>, ghost v: seq<Byte>)
    requires IsDigest(H) && (!fIgnoreChecksum && |vWordInts| % 3 == 0 ==> ChecksumBits(|vWordInts|) <= 256)
    ensures Unpacked(vWordInts, v)
    ensures fIgnoreChecksum ==> r == Ok(v)
    ensures !fIgnoreChecksum ==> (r.Ok? <==> |vWordInts| % 3 == 0 && Accepted(H, |vWordInts|, v))
    ensures !fIgnoreChecksum && r.Ok? ==> r.value == v[..EntropyBytes(|vWordInts|)]
    ensures r.Err? ==> r.code == if |vWordInts| % 3 != 0 then 4 else 5
  {
    hide Unpacked, Filled, TopMask, And, Low8;
    var nBits := |vWordInts| * 11;
    var vEntropy := UnpackWords(vWordInts);
    v := vEntropy;
    UnpackedSize(vWordInts, v);
    if !fIgnoreChecksum && |vWordInts| % 3 != 0 {
      return Err(4), v;
    }
    if fIgnoreChecksum {
      return Ok(vEntropy), v;
    }
    var nLenChecksum := nBits / 32;
    var nLenEntropy := nBits - nLenChecksum;
    var nBytesEntropy := nLenEntropy / 8;
    var nBytesChecksum := nLenChecksum / 8 + if nLenChecksum % 8 == 0 then 0 else 1;
    SplitFits(|vWordInts|);
    var vCS := vEntropy[nBytesEntropy..nBytesEntropy + nBytesChecksum];
    vEntropy := vEntropy[..nBytesEntropy];
    var hash := H(vEntropy);
    var vCSTest := hash[..nBytesChecksum];
    if nLenChecksum % 8 > 0 {
      vCSTest := vCSTest[nBytesChecksum - 1 := Low8(And(vCSTest[nBytesChecksum - 1], TopMask(nLenChecksum % 8)))];
    }
    if vCSTest != vCS {
      return Err(5), v;
    }
    r := Ok(vEntropy);
  }

  /** The words are determined by the bytes. */
  lemma {:induction false} PackedOnce(vIn: seq<Byte>, a: seq<Word>, b: seq<Word>)
    requires Packed(vIn, a) && Packed(vIn, b) && |a| == |b|
    ensures a == b
  {
    hide WordBit, BitAt;
    forall k | 0 <= k < |a| ensures a[k] == b[k] {
      forall j | 0 <= j < 11 ensures WordBit(a[k], j) == WordBit(b[k], j) {
        var p := 11 * k + j;
        assert p / 11 == k && p % 11 == j;
        assert WordsBit(a, p) == BitAt(vIn, p) == WordsBit(b, p);
      }
      SameWord(a[k], b[k]);
    }
  }

  //////////////////////////////////////////////////////////////////////////////
  // Round trips
  //////////////////////////////////////////////////////////////////////////////

  lemma {:induction false} BitOfSlice(v: seq<Byte>, n: nat, k: nat, p: nat)
    requires n + k <= |v| && p < 8 * k
    ensures BitAt(v[n..n + k], p) == BitAt(v, 8 * n + p)
  {
    assert (8 * n + p) / 8 == n + p / 8 && (8 * n + p) % 8 == p % 8;
  }

  lemma {:induction false} PaddedBit(H: Digest, e: seq<Byte>, p: nat)
    requires |H(e)| == 32 && |e| / 4 <= 256 && p < EncodedBits(|e|)
    ensures BitAt(Padded(H, e), p) == if p < 8 * |e| then BitAt(e, p) else BitAt(H(e), p - 8 * |e|)
  {
    hide ByteBit;
    var vIn := Padded(H, e);
    if p < 8 * |e| {
      assert vIn[p / 8] == e[p / 8];
    } else {
      var q := p - 8 * |e|;
      assert p / 8 == |e| + q / 8 && p % 8 == q % 8;
      assert q / 8 < CeilDiv(|e| / 4, 8);
    }
  }

  lemma {:induction false} Sizes(m: nat)
    requires 1 <= m <= 256
    ensures ChecksumBits(3 * m) == m + m / 32 && ChecksumBits(3 * m) <= 264
    ensures EntropyBytes(3 * m) == 4 * m <==> m < 32
    ensures m < 32 ==> ChecksumBits(3 * m) == m && CeilDiv(33 * m, 8) == 4 * m + CeilDiv(m, 8)
  {
    assert 11 * (3 * m) == 32 * m + m;
    assert (32 * m + m) / 32 == m + m / 32;
  }

  /** The decoder's bytes, for words that the encoder made. */
  lemma {:induction false} DecodedBit(H: Digest, e: seq<Byte>, w: seq<Word>, v: seq<Byte>, p: nat)
    requires IsDigest(H) && |e| % 4 == 0 && 4 <= |e| <= 1024 && |w| == 3 * (|e| / 4)
    requires Packed(Padded(H, e), w) && Unpacked(w, v) && p < 8 * |v|
    ensures BitAt(v, p) == if p < 8 * |e| then BitAt(e, p) else p < EncodedBits(|e|) && BitAt(H(e), p - 8 * |e|)
  {
    hide BitAt, Padded, WordsBit;
    assert 11 * |w| == EncodedBits(|e|);
    if p < 11 * |w| {
      PaddedBit(H, e, p);
      assert WordsBit(w, p) == BitAt(Padded(H, e), p);
    }
  }

  /** Decoding undoes encoding, and accepts the checksum. */
  lemma {:induction false} DecodesEncoded(H: Digest, e: seq<Byte>, w: seq<Word>, v: seq<Byte>)
    requires IsDigest(H) && |e| % 4 == 0 && 4 <= |e| < 128 && |w| == 3 * (|e| / 4)
    requires Packed(Padded(H, e), w) && Unpacked(w, v)
    ensures ChecksumBits(|w|) <= 256 && Accepted(H, |w|, v) && v[..EntropyBytes(|w|)] == e
  {
    hide BitAt, Padded, WordsBit, Packed, Masked;
    var m := |e| / 4;
    Sizes(m);
    SplitFits(|w|);
    var n, c := |e|, CeilDiv(m, 8);
    forall p | 0 <= p < 8 * n ensures BitAt(v[..n], p) == BitAt(e, p) {
      BitOfSlice(v, 0, n, p);
      DecodedBit(H, e, w, v, p);
    }
    SameBytes(v[..n], e);
    forall p | 0 <= p < 8 * c ensures BitAt(v[n..n + c], p) == BitAt(Masked(H(e), m), p) {
      BitOfSlice(v, n, c, p);
      DecodedBit(H, e, w, v, 8 * n + p);
      MaskedBit(H(e), m, p);
    }
    SameBytes(v[n..n + c], Masked(H(e), m));
  }

  /** Words that are accepted are the words their entropy is encoded as. */
  lemma {:induction false} EncodesDecoded(H: Digest, w: seq<Word>, v: seq<Byte>)
    requires IsDigest(H) && |w| % 3 == 0 && 3 <= |w| <= 93 && Unpacked(w, v)
    requires Accepted(H, |w|, v)
    ensures var e := v[..EntropyBytes(|w|)];
            && |e| % 4 == 0 && 4 <= |e| < 128 && |w| == CeilDiv(EncodedBits(|e|), 11)
            && Packed(Padded(H, e), w)
  {
    hide BitAt, Padded, WordsBit, Masked, Filled;
    var m := |w| / 3;
    Sizes(m);
    MultiplesAreReadable(4 * m);
    AcceptedPacked(H, w, v, m);
  }

  lemma {:induction false} AcceptedPacked(H: Digest, w: seq<Word>, v: seq<Byte>, m: nat)
    requires IsDigest(H) && |w| == 3 * m && 1 <= m < 32 && Unpacked(w, v)
    requires |v| == 4 * m + CeilDiv(m, 8) && v[4 * m..4 * m + CeilDiv(m, 8)] == Masked(H(v[..4 * m]), m)
    ensures Packed(Padded(H, v[..4 * m]), w)
  {
    hide BitAt, Padded, WordsBit, Masked, Unpacked;
    forall p | 0 <= p < 11 * |w| ensures WordsBit(w, p) == BitAt(Padded(H, v[..4 * m]), p) {
      AcceptedBit(H, w, v, m, p);
    }
  }

  lemma {:induction false} AcceptedBit(H: Digest, w: seq<Word>, v: seq<Byte>, m: nat, p: nat)
    requires IsDigest(H) && |w| == 3 * m && 1 <= m < 32 && Unpacked(w, v) && p < 33 * m
    requires |v| == 4 * m + CeilDiv(m, 8) && v[4 * m..4 * m + CeilDiv(m, 8)] == Masked(H(v[..4 * m]), m)
    ensures WordsBit(w, p) == BitAt(Padded(H, v[..4 * m]), p)
  {
    hide BitAt, Padded, WordsBit, Masked;
    var n, c := 4 * m, CeilDiv(m, 8);
    var e := v[..n];
    PaddedBit(H, e, p);
    assert BitAt(v, p) == WordsBit(w, p);
    if p < 8 * n {
      BitOfSlice(v, 0, n, p);
    } else {
      BitOfSlice(v, n, c, p - 8 * n);
      MaskedBit(H(e), m, p - 8 * n);
    }
  }

  lemma {:induction false} UnpackedSize(w: seq<Word>, v: seq<Byte>)
    requires Unpacked(w, v)
    ensures |v| == CeilDiv(11 * |w|, 8)
  {
  }

  //////////////////////////////////////////////////////////////////////////////
  // Other lengths
  //////////////////////////////////////////////////////////////////////////////

  /** How many words n bytes of entropy give. */
  lemma {:induction false} WordCount(n: nat)
    ensures CeilDiv(EncodedBits(n), 11) == 3 * (n / 4) + n % 4
  {
    var a, c := n / 4, n % 4;
    assert EncodedBits(n) == 33 * a + 8 * c;
    assert c == 0 ==> (33 * a) / 11 == 3 * a && (33 * a) % 11 == 0;
    assert c == 1 ==> (33 * a + 8) / 11 == 3 * a && (33 * a + 8) % 11 == 8;
    assert c == 2 ==> (33 * a + 16) / 11 == 3 * a + 1 && (33 * a + 16) % 11 == 5;
    assert c == 3 ==> (33 * a + 24) / 11 == 3 * a + 2 && (33 * a + 24) % 11 == 2;
  }

  /** From 32 groups of words on the decoder takes one byte of entropy for checksum. */
  lemma {:induction false} LongSizes(m: nat)
    requires 32 <= m && ChecksumBits(3 * m) <= 256
    ensures m <= 249 && ChecksumBits(3 * m) == m + m / 32 && EntropyBytes(3 * m) == 4 * m - 1
  {
    assert 11 * (3 * m) == 32 * m + m;
    assert (32 * m + m) / 32 == m + m / 32;
    var q := m / 32;
    assert 1 <= q <= 8;
  }

  /** No bit of a digest from lo to hi is set. */
  ghost predicate Silent(hash: seq<Byte>, lo: nat, hi: nat) {
    forall p :: lo <= p < hi && p < 8 * |hash| ==> !BitAt(hash, p)
  }

  /** The bits of the digest that the encoder wrote, in whole bytes, and the bits that the decoder compares. */
  ghost predicate ChecksumsAgree(H: Digest, e: seq<Byte>) {
    && |e| >= 3
    && var m := (|e| + 1) / 4;
       var written, compared := 8 * CeilDiv(m - 1, 8), m + m / 32;
       Silent(H(e), Min(written, compared), Max(written, compared))
  }

  /** Entropy of three bytes past a multiple of four. */
  ghost predicate IsLong(e: seq<Byte>) {
    |e| % 4 == 3 && |e| >= 127 && ChecksumBits(3 * ((|e| + 1) / 4)) <= 256
  }

  /** Which entropy comes back: a multiple of four bytes below 128; or three bytes past such a multiple from 127 on, when
      the digest happens to agree. */
  ghost predicate ComesBack(H: Digest, e: seq<Byte>) {
    || (|e| % 4 == 0 && |e| < 128)
    || (|e| % 4 == 3 && |e| >= 127 && ChecksumsAgree(H, e))
  }

  lemma {:induction false} LongBit(H: Digest, e: seq<Byte>, w: seq<Word>, v: seq<Byte>, p: nat)
    requires IsDigest(H) && IsLong(e) && |w| == 3 * ((|e| + 1) / 4)
    requires Packed(Padded(H, e), w) && Unpacked(w, v) && p < 8 * |v|
    ensures BitAt(v, p) == if p < 8 * |e| then BitAt(e, p)
                           else p - 8 * |e| < 8 * CeilDiv((|e| + 1) / 4 - 1, 8) && BitAt(H(e), p - 8 * |e|)
  {
    hide BitAt, WordsBit, Padded;
    var m := (|e| + 1) / 4;
    LongSizes(m);
    assert 11 * |w| == 8 * |e| + m + 8;
    if p < 11 * |w| {
      assert WordsBit(w, p) == BitAt(Padded(H, e), p);
      PaddedEnd(H, e, p);
    }
  }

  lemma {:induction false} PaddedEnd(H: Digest, e: seq<Byte>, p: nat)
    requires |H(e)| == 32 && |e| / 4 <= 256 && p < 8 * |e| + 256
    ensures var ncb := CeilDiv(|e| / 4, 8);
            BitAt(Padded(H, e), p) == if p < 8 * |e| then BitAt(e, p) else p - 8 * |e| < 8 * ncb && BitAt(H(e), p - 8 * |e|)
  {
    hide Bit;
    var vIn := Padded(H, e);
    if p < 8 * |e| {
      assert vIn[p / 8] == e[p / 8];
    } else {
      var q := p - 8 * |e|;
      assert p / 8 == |e| + q / 8 && p % 8 == q % 8;
      NoBits(7 - q % 8);
    }
  }

  /** Long entropy is read back, and accepted exactly when the digest agrees. */
  lemma {:induction false} LongDecodes(H: Digest, e: seq<Byte>, w: seq<Word>, v: seq<Byte>)
    requires IsDigest(H) && IsLong(e) && |w| == 3 * ((|e| + 1) / 4)
    requires Packed(Padded(H, e), w) && Unpacked(w, v)
    ensures EntropyBytes(|w|) == |e| <= |v| && v[..|e|] == e
    ensures Accepted(H, |w|, v) <==> ChecksumsAgree(H, e)
  {
    hide Padded, Packed, Masked, Unpacked, ChecksumsAgree, ChecksumBits, EntropyBytes, CeilDiv;
    var m := (|e| + 1) / 4;
    LongSizes(m);
    SplitFits(|w|);
    UnpackedSize(w, v);
    hide IsLong;
    LongEntropy(H, e, w, v);
    LongChecksum(H, e, w, v, m);
  }

  lemma {:induction false} LongEntropy(H: Digest, e: seq<Byte>, w: seq<Word>, v: seq<Byte>)
    requires IsDigest(H) && IsLong(e) && |w| == 3 * ((|e| + 1) / 4)
    requires Packed(Padded(H, e), w) && Unpacked(w, v) && |e| <= |v|
    ensures v[..|e|] == e
  {
    hide BitAt, Padded, Packed, Unpacked, IsLong, CeilDiv;
    var n := |e|;
    forall p | 0 <= p < 8 * n ensures BitAt(v[..n], p) == BitAt(e, p) {
      BitOfSlice(v, 0, n, p);
      LongBit(H, e, w, v, p);
    }
    SameBytes(v[..n], e);
  }

  /** The bytes are the first i bits of a digest, and zeros. */
  ghost predicate Begins(hash: seq<Byte>, a: seq<Byte>, i: nat) {
    |a| <= |hash| && i <= 8 * |a| && forall p :: 0 <= p < 8 * |a| ==> BitAt(a, p) == (p < i && BitAt(hash, p))
  }

  lemma {:induction false} LongChecksum(H: Digest, e: seq<Byte>, w: seq<Word>, v: seq<Byte>, m: nat)
    requires IsDigest(H) && IsLong(e) && m == (|e| + 1) / 4 && |w| == 3 * m
    requires Packed(Padded(H, e), w) && Unpacked(w, v)
    requires 32 <= m <= 249 && |e| + CeilDiv(m + m / 32, 8) <= |v|
    ensures v[|e|..|e| + CeilDiv(m + m / 32, 8)] == Masked(H(e), m + m / 32) <==> ChecksumsAgree(H, e)
  {
    hide Begins, Padded, Packed, Masked, Unpacked, Silent, IsLong;
    CeilFits(m);
    WrittenBegins(H, e, w, v, m);
    MaskedBegins(H(e), m + m / 32);
    hide CeilDiv;
    SameUpTo(H(e), v[|e|..|e| + CeilDiv(m + m / 32, 8)], Masked(H(e), m + m / 32), 8 * CeilDiv(m - 1, 8), m + m / 32);
  }

  lemma {:induction false} CeilFits(m: nat)
    requires 32 <= m <= 249
    ensures m + m / 32 <= 256 && CeilDiv(m + m / 32, 8) <= 32
    ensures 8 * CeilDiv(m - 1, 8) <= 8 * CeilDiv(m + m / 32, 8) && m + m / 32 <= 8 * CeilDiv(m + m / 32, 8)
  {
  }

  lemma {:induction false} WrittenBegins(H: Digest, e: seq<Byte>, w: seq<Word>, v: seq<Byte>, m: nat)
    requires IsDigest(H) && IsLong(e) && m == (|e| + 1) / 4 && |w| == 3 * m
    requires Packed(Padded(H, e), w) && Unpacked(w, v)
    requires 32 <= m <= 249 && |e| + CeilDiv(m + m / 32, 8) <= |v|
    ensures Begins(H(e), v[|e|..|e| + CeilDiv(m + m / 32, 8)], 8 * CeilDiv(m - 1, 8))
  {
    hide BitAt, Padded, Packed, Unpacked, IsLong;
    CeilFits(m);
    var c, written := CeilDiv(m + m / 32, 8), 8 * CeilDiv(m - 1, 8);
    var vCS := v[|e|..|e| + c];
    forall p | 0 <= p < 8 * c ensures BitAt(vCS, p) == (p < written && BitAt(H(e), p)) {
      BitOfSlice(v, |e|, c, p);
      LongBit(H, e, w, v, 8 * |e| + p);
    }
  }

  lemma {:induction false} MaskedBegins(hash: seq<Byte>, n: nat)
    requires CeilDiv(n, 8) <= |hash|
    ensures Begins(hash, Masked(hash, n), n)
  {
    hide BitAt, Masked;
    forall p | 0 <= p < 8 * CeilDiv(n, 8) ensures BitAt(Masked(hash, n), p) == (p < n && BitAt(hash, p)) {
      MaskedBit(hash, n, p);
    }
  }

  /** Two beginnings of a digest are equal exactly when the bits in which they differ are not set. */
  lemma {:induction false} SameUpTo(hash: seq<Byte>, a: seq<Byte>, b: seq<Byte>, i: nat, j: nat)
    requires |a| == |b| && Begins(hash, a, i) && Begins(hash, b, j)
    ensures a == b <==> Silent(hash, Min(i, j), Max(i, j))
  {
    hide BitAt;
    if Silent(hash, Min(i, j), Max(i, j)) {
      SameBytes(a, b);
    }
    if a == b {
      forall p | Min(i, j) <= p < Max(i, j) && p < 8 * |hash| ensures !BitAt(hash, p) {
        assert BitAt(a, p) == BitAt(b, p);
      }
    }
  }
}
