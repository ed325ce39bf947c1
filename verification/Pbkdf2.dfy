/** PBKDF2 of section 5.2 of RFC 8018 with the HMAC of section 2 of RFC 2104 over SHA-256. */
module KeyDerivation {
  import opened Common

  type Byte = bv8

  /** The hash function, SHA-256 in the source. */
  type HashFn = seq<Byte> -> seq<Byte>

  ghost predicate IsHash(H: HashFn) {
    forall m :: |H(m)| == 32
  }

  //////////////////////////////////////////////////////////////////////////////
  // As the standards define it
  //////////////////////////////////////////////////////////////////////////////

  function Xor(a: seq<Byte>, b: seq<Byte>): (r: seq<Byte>)
    requires |a| == |b|
    ensures |r| == |a| && forall i :: 0 <= i < |a| ==> r[i] == a[i] ^ b[i]
  {
    seq(|a|, i requires 0 <= i < |a| => a[i] ^ b[i])
  }

  /** The key, hashed if it is longer than a block. */
  function BlockKey(H: HashFn, K: seq<Byte>): seq<Byte> {
    if |K| > 64 then H(K) else K
  }

  /** The key, filled with zeros to a block. */
  function KeyBlock(H: HashFn, K: seq<Byte>): (k: seq<Byte>)
    requires |H(K)| == 32
    ensures |k| == 64
  {
    BlockKey(H, K) + Repeat(0, 64 - |BlockKey(H, K)|)
  }

  function Hmac(H: HashFn, K: seq<Byte>, text: seq<Byte>): seq<Byte>
    requires |H(K)| == 32
  {
    H(Xor(KeyBlock(H, K), Repeat(0x5c, 64)) + H(Xor(KeyBlock(H, K), Repeat(0x36, 64)) + text))
  }

  /** The octet with a value. */
  function Octet(n: nat): (b: Byte)
    requires n < 0x100
    ensures b as nat == n
  {
    if n == 0 then 0 else
      var b := Octet(n - 1);
      Successor(b);
      b + 1
  }

  lemma {:induction false} Successor(b: Byte)
    requires b as nat < 0xff
    ensures (b + 1) as nat == b as nat + 1
  {
  }

  /** A number as four octets, most significant first. */
  function Int(i: nat): (s: seq<Byte>)
    ensures |s| == 4
  {
    [Octet(i / 0x1000000 % 0x100), Octet(i / 0x10000 % 0x100), Octet(i / 0x100 % 0x100), Octet(i % 0x100)]
  }

  /** The octets are the digits of the number in base 256, most significant first. */
  lemma {:induction false} IntIs(i: nat)
    requires i < 0x1_0000_0000
    ensures var s := Int(i);
            i == 0x1000000 * (s[0] as nat) + 0x10000 * (s[1] as nat) + 0x100 * (s[2] as nat) + (s[3] as nat)
  {
    hide Octet;
    assert i / 0x10000 == i / 0x100 / 0x100 && i / 0x1000000 == i / 0x10000 / 0x100;
  }

  /** U_j of block i. */
  function U(H: HashFn, P: seq<Byte>, S: seq<Byte>, i: nat, j: nat): (u: seq<Byte>)
    requires |H(P)| == 32 && j >= 1
  {
    if j == 1 then Hmac(H, P, S + Int(i)) else Hmac(H, P, U(H, P, S, i, j - 1))
  }

  /** The exclusive or of the first c values of U. */
  ghost function F(H: HashFn, P: seq<Byte>, S: seq<Byte>, c: nat, i: nat): (t: seq<Byte>)
    requires IsHash(H) && c >= 1
    ensures |t| == 32
  {
    if c == 1 then U(H, P, S, i, 1) else Xor(F(H, P, S, c - 1, i), U(H, P, S, i, c))
  }

  /** T_1 || ... || T_l. */
  ghost function Blocks(H: HashFn, P: seq<Byte>, S: seq<Byte>, c: nat, l: nat): (s: seq<Byte>)
    requires IsHash(H) && c >= 1
    ensures |s| == 32 * l
  {
    if l == 0 then [] else Blocks(H, P, S, c, l - 1) + F(H, P, S, c, l)
  }

  /** The derived key: the first dkLen octets. */
  ghost function DerivedKey(H: HashFn, P: seq<Byte>, S: seq<Byte>, c: nat, dkLen: nat): (s: seq<Byte>)
    requires IsHash(H) && c >= 1
    ensures |s| == dkLen
  {
    Blocks(H, P, S, c, (dkLen + 31) / 32)[..dkLen]
  }

  //////////////////////////////////////////////////////////////////////////////
  // HMAC contexts
  //////////////////////////////////////////////////////////////////////////////

  /** The inner and the outer hash operation; an operation is what it has been fed. */
  class HmacCtx {
    var ictx: seq<Byte>
    var octx: seq<Byte>

    constructor ()
    {
      ictx, octx := [], [];
    }

    /** An operation with this key that has been fed this text. */
    ghost predicate Fed(H: HashFn, K: seq<Byte>, text: seq<Byte>)
      requires IsHash(H)
      reads this
    {
      && ictx == Xor(KeyBlock(H, K), Repeat(0x36, 64)) + text
      && octx == Xor(KeyBlock(H, K), Repeat(0x5c, 64))
    }

    method Init(H: HashFn, K: seq<Byte>)
      requires IsHash(H)
      modifies this
      ensures Fed(H, K, [])
    {
      var key := K;
      if |K| > 64 {
        key := H(K);
      }
      var pad := new Byte[64](i => 0x36);
      FillPad(H, K, key, pad, 0x36);
      ictx := pad[..];
      pad := new Byte[64](i => 0x5c);
      FillPad(H, K, key, pad, 0x5c);
      octx := pad[..];
    }

    method Update(H: HashFn, data: seq<Byte>, ghost K: seq<Byte>, ghost text: seq<Byte>)
      requires IsHash(H) && Fed(H, K, text)
      modifies this
      ensures Fed(H, K, text + data)
    {
      hide KeyBlock, Xor;
      ictx := ictx + data;
    }

    method Final(H: HashFn, ghost K: seq<Byte>, ghost text: seq<Byte>) returns (digest: seq<Byte>)
      requires IsHash(H) && Fed(H, K, text)
      modifies this
      ensures digest == Hmac(H, K, text)
    {
      var ihash := H(ictx);
      octx := octx + ihash;
      digest := H(octx);
    }

    /** `memcpy` of a context. */
    method Copy(other: HmacCtx, ghost H: HashFn, ghost K: seq<Byte>, ghost text: seq<Byte>)
      requires IsHash(H) && other.Fed(H, K, text)
      modifies this
      ensures ictx == other.ictx && octx == other.octx
      ensures Fed(H, K, text)
    {
      ictx, octx := other.ictx, other.octx;
    }
  }

  /** The pad is exclusive-ored with the key, byte by byte. */
  method FillPad(H: HashFn, ghost K: seq<Byte>, key: seq<Byte>, pad: array<Byte>, b: Byte)
    requires IsHash(H) && key == BlockKey(H, K) && pad.Length == 64
    requires forall i :: 0 <= i < 64 ==> pad[i] == b
    modifies pad
    ensures pad[..] == Xor(KeyBlock(H, K), Repeat(b, 64))
  {
    assert |H(K)| == 32;
    var i := 0;
    while i < |key|
      invariant 0 <= i <= |key| <= 64
      invariant forall j :: 0 <= j < i ==> pad[j] == b ^ key[j]
      invariant forall j :: i <= j < 64 ==> pad[j] == b
    {
      pad[i] := pad[i] ^ key[i];
      i := i + 1;
    }
    forall j | 0 <= j < 64 ensures pad[j] == Xor(KeyBlock(H, K), Repeat(b, 64))[j] {
      XorSwaps(b, if j < |key| then key[j] else 0);
    }
  }

  lemma {:induction false} XorSwaps(a: Byte, b: Byte)
    ensures a ^ b == b ^ a && 0 ^ a == a
  {
  }

  //////////////////////////////////////////////////////////////////////////////
  // The derivation
  //////////////////////////////////////////////////////////////////////////////

  /** `T[k] ^= U[k]` for all k. */
  method XorInto(T: array<Byte>, u: seq<Byte>)
    requires T.Length == |u| == 32
    modifies T
    ensures T[..] == Xor(old(T[..]), u)
  {
    var k := 0;
    while k < 32
      invariant 0 <= k <= 32
      invariant forall j :: 0 <= j < k ==> T[j] == old(T[j]) ^ u[j]
      invariant forall j :: k <= j < 32 ==> T[j] == old(T[j])
    {
      T[k] := T[k] ^ u[k];
      k := k + 1;
    }
  }

  /** The inner loop: the remaining iterations of one block. */
  method Iterate(H: HashFn, P: seq<Byte>, ghost S: seq<Byte>, c: nat, hctx: HmacCtx, T: array<Byte>, u1: seq<Byte>, ghost i: nat)
    requires IsHash(H) && c >= 1 && T.Length == 32
    requires u1 == U(H, P, S, i, 1) && T[..] == u1
    modifies hctx, T
    ensures T[..] == F(H, P, S, c, i)
  {
    hide Hmac;
    var u := u1;
    var j := 2;
    while j <= c
      invariant 2 <= j <= c + 1
      invariant u == U(H, P, S, i, j - 1) && |u| == 32
      invariant T[..] == F(H, P, S, j - 1, i)
    {
      hctx.Init(H, P);
      hctx.Update(H, u, P, []);
      assert [] + u == u;
      u := hctx.Final(H, P, u);
      HmacSize(H, P, U(H, P, S, i, j - 1));
      XorInto(T, u);
      j := j + 1;
    }
  }

  lemma {:induction false} FirstU(H: HashFn, P: seq<Byte>, S: seq<Byte>, i: nat)
    requires IsHash(H)
    ensures U(H, P, S, i, 1) == Hmac(H, P, S + Int(i))
  {
  }

  lemma {:induction false} HmacSize(H: HashFn, K: seq<Byte>, text: seq<Byte>)
    requires IsHash(H)
    ensures |Hmac(H, K, text)| == 32
  {
  }

  /** `memcpy` of the first n bytes of a block into the output. */
  method CopyOut(buf: array<Byte>, at: nat, T: array<Byte>, n: nat)
    requires at + n <= buf.Length && n <= T.Length && buf != T
    modifies buf
    ensures buf[..at + n] == old(buf[..at]) + T[..n]
    ensures buf[at + n..] == old(buf[at + n..])
  {
    var k := 0;
    while k < n
      invariant 0 <= k <= n
      invariant forall j :: 0 <= j < k ==> buf[at + j] == T[j]
      invariant forall j :: (0 <= j < at || at + k <= j < buf.Length) ==> buf[j] == old(buf[j])
    {
      buf[at + k] := T[k];
      k := k + 1;
    }
    CopiedOut(old(buf[..]), buf[..], at, T[..n], n);
  }

  lemma {:induction false} CopiedOut(before: seq<Byte>, after: seq<Byte>, at: nat, t: seq<Byte>, n: nat)
    requires |before| == |after| && at + n <= |after| && |t| == n
    requires forall j :: 0 <= j < n ==> after[at + j] == t[j]
    requires forall j :: (0 <= j < at || at + n <= j < |after|) ==> after[j] == before[j]
    ensures after[..at + n] == before[..at] + t && after[at + n..] == before[at + n..]
  {
    forall j | 0 <= j < at + n ensures after[j] == (before[..at] + t)[j] {
      if j >= at {
        assert after[at + (j - at)] == t[j - at];
      }
    }
  }

  /** The block with index i: T_{i + 1}. The number of the block is cast to 32 bits. */
  method DeriveBlock(H: HashFn, passwd: seq<Byte>, ghost salt: seq<Byte>, c: nat, PShctx: HmacCtx, hctx: HmacCtx,
                     T: array<Byte>, i: nat)
    requires IsHash(H) && c >= 1 && T.Length == 32 && i < 0xffff_ffff
    requires PShctx != hctx && PShctx.Fed(H, passwd, salt)
    modifies hctx, T
    ensures T[..] == F(H, passwd, salt, c, i + 1)
  {
    hide *;
    FirstU(H, passwd, salt, i + 1);
    var ivec := Int((i + 1) % 0x1_0000_0000);
    hctx.Copy(PShctx, H, passwd, salt);
    hctx.Update(H, ivec, passwd, salt);
    var u := hctx.Final(H, passwd, salt + ivec);
    HmacSize(H, passwd, salt + ivec);
    SetBlock(T, u);
    Iterate(H, passwd, salt, c, hctx, T, u, i + 1);
  }

  /** The derived key is written over the whole buffer and nothing else. */
  method PBKDF2_SHA256(H: HashFn, passwd: seq<Byte>, salt: seq<Byte>, c: nat, buf: array<Byte>)
    requires IsHash(H) && c >= 1 && buf.Length <= 32 * 0xffff_ffff
    modifies buf
    ensures buf[..] == DerivedKey(H, passwd, salt, c, buf.Length)
  {
    hide Hmac, F, Blocks, HmacCtx.Fed;
    var dkLen := buf.Length;
    NoBlocks(H, passwd, salt, c);
    var PShctx := new HmacCtx();
    var hctx := new HmacCtx();
    PShctx.Init(H, passwd);
    PShctx.Update(H, salt, passwd, []);
    assert [] + salt == salt;
    var T := new Byte[32];
    var i := 0;
    while i * 32 < dkLen
      invariant 0 <= i <= (dkLen + 31) / 32
      invariant PShctx.Fed(H, passwd, salt)
      invariant buf[..Min(32 * i, dkLen)] == Blocks(H, passwd, salt, c, i)[..Min(32 * i, dkLen)]
      decreases dkLen - i * 32
    {
      DeriveBlock(H, passwd, salt, c, PShctx, hctx, T, i);
      var clen := dkLen - i * 32;
      if clen > 32 {
        clen := 32;
      }
      ghost var before := Blocks(H, passwd, salt, c, i);
      assert buf[..i * 32] == before;
      CopyOut(buf, i * 32, T, clen);
      NextBlock(H, passwd, salt, c, i, clen);
      assert buf[..32 * i + clen] == before + F(H, passwd, salt, c, i + 1)[..clen];
      i := i + 1;
    }
    assert buf[..dkLen] == buf[..];
  }

  method SetBlock(T: array<Byte>, u: seq<Byte>)
    requires T.Length == |u|
    modifies T
    ensures T[..] == u
  {
    forall k | 0 <= k < |u| {
      T[k] := u[k];
    }
  }

  lemma {:induction false} NoBlocks(H: HashFn, P: seq<Byte>, S: seq<Byte>, c: nat)
    requires IsHash(H) && c >= 1
    ensures Blocks(H, P, S, c, 0) == []
  {
  }

  lemma {:induction false} NextBlock(H: HashFn, P: seq<Byte>, S: seq<Byte>, c: nat, i: nat, n: nat)
    requires IsHash(H) && c >= 1 && n <= 32
    ensures Blocks(H, P, S, c, i + 1)[..32 * i + n] == Blocks(H, P, S, c, i) + F(H, P, S, c, i + 1)[..n]
  {
    hide F;
  }

  //////////////////////////////////////////////////////////////////////////////
  // Lengths
  //////////////////////////////////////////////////////////////////////////////

  lemma {:induction false} FewerBlocks(H: HashFn, P: seq<Byte>, S: seq<Byte>, c: nat, k: nat, l: nat)
    requires IsHash(H) && c >= 1 && k <= l
    ensures Blocks(H, P, S, c, l)[..32 * k] == Blocks(H, P, S, c, k)
    decreases l
  {
    hide F;
    if k < l {
      FewerBlocks(H, P, S, c, k, l - 1);
      var before := Blocks(H, P, S, c, l - 1);
      assert (before + F(H, P, S, c, l))[..32 * k] == before[..32 * k];
    }
  }

  /** A shorter key is the beginning of a longer one. */
  lemma {:induction false} ShorterKey(H: HashFn, P: seq<Byte>, S: seq<Byte>, c: nat, m: nat, n: nat)
    requires IsHash(H) && c >= 1 && m <= n
    ensures DerivedKey(H, P, S, c, m) == DerivedKey(H, P, S, c, n)[..m]
  {
    hide Blocks;
    var k, l := (m + 31) / 32, (n + 31) / 32;
    FewerBlocks(H, P, S, c, k, l);
    assert Blocks(H, P, S, c, l)[..n][..m] == Blocks(H, P, S, c, l)[..32 * k][..m];
  }
}
