/** Mnemonics as text: word numbers are looked up in a word list and back. */
module MnemonicText {
  import opened MnemonicBits
  import opened WordList
  import opened Mnemonics

  /** Words as numbers. */
  function Number(w: Word): (n: nat)
    ensures n < 0x800
  {
    w as nat
  }

  function Numbered(n: nat): (w: Word)
    requires n < 0x800
    ensures Number(w) == n
  {
    if n == 0 then 0 else
      var w := Numbered(n - 1);
      Successor(w);
      w + 1
  }

  lemma {:induction false} Successor(w: Word)
    requires Number(w) < 0x7ff
    ensures w < 0x7ff && Number(w + 1) == Number(w) + 1
  {
  }

  lemma {:induction false} SameNumber(a: Word, b: Word)
    requires Number(a) == Number(b)
    ensures a == b
  {
    assert (a as nat) as bv16 == a;
    assert (b as nat) as bv16 == b;
  }

  /** A usable word list: 2048 different words of at least two characters, none with a space in it. */
  ghost predicate IsWordList(pwl: string) {
    && pwl != [] && |Lines(pwl)| == 0x800
    && (forall i :: 0 <= i < 0x800 ==> IsToken(Lines(pwl)[i])) && LongWords(Lines(pwl))
    && (forall i, j :: 0 <= i < j < 0x800 ==> Lines(pwl)[i] != Lines(pwl)[j])
  }

  /** The words with the given numbers. */
  ghost function Named(pwl: string, w: seq<Word>): (ws: seq<string>)
    requires |Lines(pwl)| == 0x800
    ensures |ws| == |w| && forall k :: 0 <= k < |w| ==> ws[k] == Lines(pwl)[Number(w[k])]
  {
    seq(|w|, k requires 0 <= k < |w| => Lines(pwl)[Number(w[k])])
  }

  /** The end of `MnemonicEncode`. */
  method WordsToText(pwl: string, vWord: seq<Word>) returns (sWordList: string)
    requires pwl != [] && |Lines(pwl)| == 0x800
    ensures sWordList == Join(Named(pwl, vWord))
  {
    hide Lines, Number, Numbered;
    sWordList := "";
    var k := 0;
    while k < |vWord|
      invariant 0 <= k <= |vWord| && sWordList == Join(Named(pwl, vWord[..k]))
    {
      var ok, sWord := GetWord(Number(vWord[k]), pwl);
      ghost var ws := Named(pwl, vWord[..k + 1]);
      assert ws[..k] == Named(pwl, vWord[..k]);
      sWordList := AppendWord(sWordList, sWord);
      k := k + 1;
    }
    assert vWord[..|vWord|] == vWord;
  }

  /** The beginning of `MnemonicDecode`. */
  method TextToWords(pwl: string, tokens: seq<string>) returns (ok: bool, vWordInts: seq<Word>)
    requires |Lines(pwl)| == 0x800
    ensures ok <==> forall k :: 0 <= k < |tokens| ==> tokens[k] in Lines(pwl)
    ensures ok ==> Named(pwl, vWordInts) == tokens
  {
    hide Lines, Number, Numbered;
    vWordInts := [];
    var k := 0;
    while k < |tokens|
      invariant 0 <= k <= |tokens| && |vWordInts| == k
      invariant forall i :: 0 <= i < k ==> tokens[i] in Lines(pwl) && Lines(pwl)[Number(vWordInts[i])] == tokens[i]
    {
      var found, ofs := GetWordOffset(tokens[k], pwl);
      if !found {
        return false, vWordInts;
      }
      vWordInts := vWordInts + [Numbered(ofs)];
      k := k + 1;
    }
    assert Named(pwl, vWordInts) == tokens;
    ok := true;
  }

  lemma {:induction false} NamedOnce(pwl: string, a: seq<Word>, b: seq<Word>)
    requires IsWordList(pwl) && Named(pwl, a) == Named(pwl, b)
    ensures a == b
  {
    hide Lines, Number, Numbered;
    assert |a| == |b|;
    forall k | 0 <= k < |a| ensures a[k] == b[k] {
      assert Named(pwl, a)[k] == Named(pwl, b)[k];
      SameNumber(a[k], b[k]);
    }
  }

  //////////////////////////////////////////////////////////////////////////////
  // Encoding and decoding
  //////////////////////////////////////////////////////////////////////////////

  /** `MnemonicEncode` for a known language. */
  method MnemonicEncode(H: Digest, pwl: string, vEntropy: seq<Byte>) returns (r: Result<string>, ghost w: seq<Word>)
    requires IsDigest(H) && IsWordList(pwl)
    requires 1 <= |vEntropy| / 4 <= 256 ==> Readable(EncodedBits(|vEntropy|), |vEntropy| + 32)
    ensures if 1 <= |vEntropy| / 4 <= 256 then
              && |w| == CeilDiv(EncodedBits(|vEntropy|), 11) && Packed(Padded(H, vEntropy), w)
              && r == Ok(Join(Named(pwl, w)))
            else r == Err(2)
  {
    w := [];
    hide Packed, Padded, Readable, Named;
    var encoded := EncodeWords(H, vEntropy);
    if encoded.Err? {
      return Err(encoded.code), w;
    }
    w := encoded.value;
    var sWordList := WordsToText(pwl, encoded.value);
    r := Ok(sWordList);
  }

  /** `MnemonicDecode` for a known language. */
  method MnemonicDecode(H: Digest, pwl: string, sWordList: string, fIgnoreChecksum: bool)
    returns (r: Result<seq<Byte>>, ghost w: seq<Word>, ghost v: seq<Byte>)
    requires IsDigest(H) && IsWordList(pwl)
    ensures Unpacked(w, v)
    ensures if |sWordList| >= 2048 then r == Err(2)
            else if exists t <- Tokens(sWordList) :: t !in Lines(pwl) then r == Err(3)
            else
              && Named(pwl, w) == Tokens(sWordList) && ChecksumBits(|w|) <= 256
              && r == if fIgnoreChecksum then Ok(v) else if |w| % 3 != 0 then Err(4) else if !Accepted(H, |w|, v) then Err(5) else Ok(Entropy(w, v))
  {
    hide Unpacked, Accepted, Named, Tokens, Lines;
    w, v := [], [];
    NothingUnpacked();
    if |sWordList| >= 2048 {
      return Err(2), w, v;
    }
    var tokens := Tokens(sWordList);
    var ok, vWordInts := TextToWords(pwl, tokens);
    if !ok {
      return Err(3), w, v;
    }
    assert forall t <- tokens :: t in Lines(pwl);
    w := vWordInts;
    NamedSize(pwl, w);
    FewNamed(pwl, sWordList, w);
    r, v := DecodeWords(H, vWordInts, fIgnoreChecksum);
    UnpackedSize(w, v);
    SplitFits(|w|);
  }

  /** A text that is not too long has no more words than a digest has checksum bits for. */
  lemma {:induction false} FewNamed(pwl: string, sWordList: string, w: seq<Word>)
    requires IsWordList(pwl) && |sWordList| < 2048 && Named(pwl, w) == Tokens(sWordList)
    ensures |w| <= 682 && ChecksumBits(|w|) <= 256
  {
    hide Lines, Number, Tokens;
    forall k | 0 <= k < |w| ensures |Tokens(sWordList)[k]| >= 2 {
      assert Named(pwl, w)[k] == Lines(pwl)[Number(w[k])];
    }
    FewWords(sWordList);
  }

  /** The entropy part of unpacked words. */
  ghost function Entropy(w: seq<Word>, v: seq<Byte>): seq<Byte>
    requires Unpacked(w, v)
  {
    SplitFits(|w|);
    v[..EntropyBytes(|w|)]
  }

  lemma {:induction false} NothingUnpacked()
    ensures Unpacked([], [])
  {
  }

  lemma {:induction false} NamedTokens(pwl: string, w: seq<Word>)
    requires IsWordList(pwl)
    ensures Tokens(Join(Named(pwl, w))) == Named(pwl, w)
    ensures forall t <- Named(pwl, w) :: t in Lines(pwl)
  {
    hide Number, Lines;
    forall k | 0 <= k < |w| ensures IsToken(Named(pwl, w)[k]) && Named(pwl, w)[k] in Lines(pwl) {
      assert Named(pwl, w)[k] == Lines(pwl)[Number(w[k])];
    }
    TokensOfJoin(Named(pwl, w));
  }

  /** Entropy that the encoder accepts is encoded as a text that decodes to it exactly when the text is shorter than 2048
      characters and the entropy comes back. */
  method EncodeThenDecode(H: Digest, pwl: string, e: seq<Byte>) returns (text: Result<string>, r: Result<seq<Byte>>)
    requires IsDigest(H) && IsWordList(pwl)
    requires 1 <= |e| / 4 <= 256 ==> Readable(EncodedBits(|e|), |e| + 32)
    ensures text.Ok? <==> 1 <= |e| / 4 <= 256
    ensures text.Ok? ==> (r == Ok(e) <==> |text.value| < 2048 && ComesBack(H, e))
  {
    hide Packed, Unpacked, Padded, Accepted, Readable, Named, Tokens, Join, Lines, IsWordList, ChecksumsAgree;
    ghost var w, w', v;
    r := Err(2);
    text, w := MnemonicEncode(H, pwl, e);
    if text.Err? {
      return;
    }
    WordCount(|e|);
    NamedTokens(pwl, w);
    NamedSize(pwl, w);
    r, w', v := MnemonicDecode(H, pwl, text.value, false);
    if |text.value| < 2048 {
      NamedOnce(pwl, w, w');
      FewNamed(pwl, text.value, w);
      hide EncodedBits;
      BackIff(H, e, w, v);
    }
  }

  /** The decoder's answer to the encoder's words. */
  lemma {:induction false} BackIff(H: Digest, e: seq<Byte>, w: seq<Word>, v: seq<Byte>)
    requires IsDigest(H) && 1 <= |e| / 4 <= 256 && |w| == 3 * (|e| / 4) + |e| % 4 && ChecksumBits(|w|) <= 256
    requires Packed(Padded(H, e), w) && Unpacked(w, v)
    ensures |v| == CeilDiv(11 * |w|, 8)
    ensures |w| % 3 == 0 && Accepted(H, |w|, v) && Entropy(w, v) == e <==> ComesBack(H, e)
  {
    hide Packed, Padded, Accepted, ChecksumsAgree, Unpacked;
    UnpackedSize(w, v);
    WordsMod(|e|);
    if |e| % 4 == 0 {
      BackMultiple(H, e, w, v);
    } else if |e| % 4 == 3 {
      BackThree(H, e, w, v, (|e| + 1) / 4);
    }
  }

  lemma {:induction false} WordsMod(n: nat)
    ensures (3 * (n / 4) + n % 4) % 3 == n % 4 % 3
    ensures n % 4 == 3 ==> 3 * (n / 4) + n % 4 == 3 * ((n + 1) / 4)
  {
  }

  lemma {:induction false} BackMultiple(H: Digest, e: seq<Byte>, w: seq<Word>, v: seq<Byte>)
    requires IsDigest(H) && |e| % 4 == 0 && 1 <= |e| / 4 <= 256 && |w| == 3 * (|e| / 4) && ChecksumBits(|w|) <= 256
    requires Packed(Padded(H, e), w) && Unpacked(w, v) && |v| == CeilDiv(11 * |w|, 8)
    ensures Accepted(H, |w|, v) && Entropy(w, v) == e <==> |e| < 128
  {
    hide Packed, Padded, Accepted, Unpacked;
    Sizes(|e| / 4);
    SplitFits(|w|);
    if |e| < 128 {
      DecodesEncoded(H, e, w, v);
    }
  }

  lemma {:induction false} BackThree(H: Digest, e: seq<Byte>, w: seq<Word>, v: seq<Byte>, m: nat)
    requires IsDigest(H) && |e| == 4 * m - 1 && m <= 257 && |w| == 3 * m && ChecksumBits(|w|) <= 256 && m > 1
    requires Packed(Padded(H, e), w) && Unpacked(w, v) && |v| == CeilDiv(11 * |w|, 8)
    ensures Accepted(H, |w|, v) && Entropy(w, v) == e <==> |e| >= 127 && ChecksumsAgree(H, e)
  {
    hide Packed, Padded, Accepted, Unpacked, ChecksumsAgree, ChecksumBits, EntropyBytes, CeilDiv;
    SplitFits(|w|);
    if m < 32 {
      Sizes(m);
    } else {
      assert (|e| + 1) / 4 == m && |e| % 4 == 3;
      LongDecodes(H, e, w, v);
    }
  }

  lemma {:induction false} NamedSize(pwl: string, w: seq<Word>)
    requires IsWordList(pwl)
    ensures |Lines(pwl)| == 0x800 && |Named(pwl, w)| == |w|
  {
  }

  /** A text that is accepted is, up to its spacing, the one that its entropy is encoded as. */
  method DecodeThenEncode(H: Digest, pwl: string, text: string) returns (r: Result<seq<Byte>>, again: string)
    requires IsDigest(H) && IsWordList(pwl) && 3 <= |Tokens(text)| <= 93
    ensures r.Ok? ==> 4 <= |r.value| < 128 && again == Join(Tokens(text))
  {
    hide Packed, Unpacked, Padded, Accepted, Readable, Named, Tokens, Join, Lines, IsWordList;
    again := "";
    ghost var w, w', v;
    r, w, v := MnemonicDecode(H, pwl, text, false);
    if r.Ok? {
      NamedSize(pwl, w);
      UnpackedSize(w, v);
      SplitFits(|w|);
      EncodesDecoded(H, w, v);
      MultiplesAreReadable(|r.value|);
      var encoded;
      encoded, w' := MnemonicEncode(H, pwl, r.value);
      PackedOnce(Padded(H, r.value), w, w');
      again := encoded.value;
    }
  }
}
