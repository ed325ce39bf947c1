/** Cutting a byte stream into messages: what the node's receive buffer should hold. */
module Framing {
  import Numerals

  type Byte = x: nat | x < 0x100

  const HEADER_SIZE: nat := 24
  const MAX_SIZE: nat := 0x02000000

  /** The message header: start bytes, command, payload size and checksum. */
  datatype Header = Header(pchMessageStart: seq<Byte>, pchCommand: seq<Byte>, nMessageSize: nat, nChecksum: nat)

  /** A 32-bit little-endian number. */
  function ReadLE32(s: seq<Byte>): (n: nat)
    requires |s| == 4
    ensures n < 0x1_0000_0000
  {
    var a: nat, b: nat, c: nat, d: nat := s[0], s[1], s[2], s[3];
    a + 0x100 * b + 0x10000 * c + 0x1000000 * d
  }

  function WriteLE32(n: nat): (s: seq<Byte>)
    ensures |s| == 4
  {
    [n % 0x100, n / 0x100 % 0x100, n / 0x10000 % 0x100, n / 0x1000000 % 0x100]
  }

  function ParseHeader(s: seq<Byte>): (h: Header)
    requires |s| >= HEADER_SIZE
    ensures h.nMessageSize == PayloadSize(s)
  {
    Header(s[..4], s[4..16], ReadLE32(s[16..20]), ReadLE32(s[20..24]))
  }

  function PayloadSize(s: seq<Byte>): nat
    requires |s| >= HEADER_SIZE
  {
    ReadLE32(s[16..20])
  }

  /** The messages at the front of a stream, the incomplete rest, and whether the rest is rejected. */
  datatype Framed = Framed(messages: seq<seq<Byte>>, rest: seq<Byte>, rejected: bool)

  function Frame(s: seq<Byte>): (f: Framed)
    decreases |s|
  {
    if |s| < HEADER_SIZE then Framed([], s, false)
    else if PayloadSize(s) > MAX_SIZE then Framed([], s, true)
    else
      var n := HEADER_SIZE + PayloadSize(s);
      if |s| < n then Framed([], s, false)
      else
        var f := Frame(s[n..]);
        Framed([s[..n]] + f.messages, f.rest, f.rejected)
  }

  /** The bytes of one whole message. */
  predicate IsMessage(s: seq<Byte>) {
    |s| >= HEADER_SIZE && PayloadSize(s) <= MAX_SIZE && |s| == HEADER_SIZE + PayloadSize(s)
  }

  /** The bytes of a message that is not whole yet, or nothing. */
  predicate IsPartial(s: seq<Byte>) {
    |s| >= HEADER_SIZE ==> PayloadSize(s) <= MAX_SIZE && |s| < HEADER_SIZE + PayloadSize(s)
  }

  function Concat(ms: seq<seq<Byte>>): seq<Byte> {
    if ms == [] then [] else ms[0] + Concat(ms[1..])
  }

  lemma {:induction false} SameHeader(s: seq<Byte>, t: seq<Byte>)
    requires |s| >= HEADER_SIZE
    ensures PayloadSize(s + t) == PayloadSize(s)
  {
    assert (s + t)[16..20] == s[16..20];
  }

  /** A message followed by a stream is framed as that message and what the stream is framed as. */
  lemma {:induction false} FrameMessage(m: seq<Byte>, s: seq<Byte>)
    requires IsMessage(m)
    ensures var f := Frame(s); Frame(m + s) == Framed([m] + f.messages, f.rest, f.rejected)
  {
    SameHeader(m, s);
    assert (m + s)[..|m|] == m && (m + s)[|m|..] == s;
  }

  /** The stream begins with a whole message. */
  predicate Starts(s: seq<Byte>) {
    |s| >= HEADER_SIZE && PayloadSize(s) <= MAX_SIZE && |s| >= HEADER_SIZE + PayloadSize(s)
  }

  lemma {:induction false} FirstMessage(s: seq<Byte>) returns (m: seq<Byte>, rest: seq<Byte>)
    requires Starts(s)
    ensures IsMessage(m) && s == m + rest && |rest| < |s|
  {
    var n := HEADER_SIZE + PayloadSize(s);
    m, rest := s[..n], s[n..];
    SameHeader(m, rest);
    assert s == m + rest;
  }

  lemma {:induction false} FrameStops(s: seq<Byte>)
    requires !Starts(s)
    ensures Frame(s) == Framed([], s, |s| >= HEADER_SIZE && PayloadSize(s) > MAX_SIZE)
  {
  }

  /** Framing cuts: nothing is lost or reordered, and every piece is what it should be. */
  lemma {:induction false} FrameCuts(s: seq<Byte>)
    ensures var f := Frame(s);
            && s == Concat(f.messages) + f.rest
            && (forall i :: 0 <= i < |f.messages| ==> IsMessage(f.messages[i]))
            && (f.rejected <==> |f.rest| >= 24 && PayloadSize(f.rest) > 0x0200_0000)
            && (!f.rejected ==> IsPartial(f.rest))
    decreases |s|
  {
    hide Frame;
    if Starts(s) {
      var m, rest := FirstMessage(s);
      FrameCuts(rest);
      FrameMessage(m, rest);
      hide IsMessage, IsPartial, Starts, PayloadSize;
      var f := Frame(rest);
      assert ([m] + f.messages)[1..] == f.messages;
    } else {
      FrameStops(s);
    }
  }

  /** Framing can go on from where it stopped. */
  lemma {:induction false} FrameAppend(s: seq<Byte>, t: seq<Byte>)
    ensures var f := Frame(s);
            Frame(s + t) == if f.rejected then Framed(f.messages, f.rest + t, true)
                            else var g := Frame(f.rest + t); Framed(f.messages + g.messages, g.rest, g.rejected)
    decreases |s|
  {
    hide Frame;
    if Starts(s) {
      var m, rest := FirstMessage(s);
      hide IsMessage, Starts, PayloadSize;
      FrameAppend(rest, t);
      FrameMessage(m, rest);
      FrameMessage(m, rest + t);
      assert s + t == m + (rest + t);
      var f := Frame(rest);
      var g := Frame(f.rest + t);
      assert [m] + (f.messages + g.messages) == [m] + f.messages + g.messages;
    } else {
      FrameStops(s);
      if Frame(s).rejected {
        SameHeader(s, t);
        FrameStops(s + t);
      } else {
        assert [] + Frame(s + t).messages == Frame(s + t).messages;
      }
    }
  }

  /** Messages sent back to back come out as they went in. */
  lemma {:induction false} FrameOfConcat(ms: seq<seq<Byte>>)
    requires forall i :: 0 <= i < |ms| ==> IsMessage(ms[i])
    ensures Frame(Concat(ms)) == Framed(ms, [], false)
  {
    if ms != [] {
      FrameOfConcat(ms[1..]);
      FrameMessage(ms[0], Concat(ms[1..]));
    }
  }

  //////////////////////////////////////////////////////////////////////////////
  // The sender's side
  //////////////////////////////////////////////////////////////////////////////

  function WriteMessage(h: Header, payload: seq<Byte>): seq<Byte> {
    h.pchMessageStart + h.pchCommand + WriteLE32(h.nMessageSize) + WriteLE32(h.nChecksum) + payload
  }

  lemma {:induction false} LE32RoundTrip(n: nat)
    requires n < 0x1_0000_0000
    ensures ReadLE32(WriteLE32(n)) == n
  {
    assert n / 0x10000 == n / 0x100 / 0x100 && n / 0x1000000 == n / 0x10000 / 0x100;
  }

  /** The four bytes are the digits of the number in base 256, least significant first. */
  lemma {:induction false} LE32Is(s: seq<Byte>)
    requires |s| == 4
    ensures ReadLE32(s) == Numerals.Value(s, 256) && WriteLE32(Numerals.Value(s, 256)) == s
  {
    var d: seq<nat> := s;
    assert d[1..][1..] == d[2..] && d[2..][1..] == d[3..] && d[3..][1..] == [];
    assert Numerals.Value(d[3..], 256) == d[3];
    assert Numerals.Value(d[2..], 256) == d[2] + 256 * d[3];
    assert Numerals.Value(d[1..], 256) == d[1] + 256 * (d[2] + 256 * d[3]);
    BytesOf(s[0], s[1], s[2], s[3]);
  }

  lemma {:induction false} BytesOf(a: Byte, b: Byte, c: Byte, d: Byte)
    ensures WriteLE32(a + 256 * (b + 256 * (c + 256 * d))) == [a, b, c, d]
  {
    var n := a + 256 * (b + 256 * (c + 256 * d));
    assert n / 0x100 == b + 256 * (c + 256 * d);
    assert n / 0x10000 == n / 0x100 / 0x100 == c + 256 * d;
    assert n / 0x1000000 == n / 0x10000 / 0x100 == d;
  }

  /** A header and its payload, written out, are one message that reads back as both. */
  lemma {:induction false} WriteRead(h: Header, payload: seq<Byte>)
    requires |h.pchMessageStart| == 4 && |h.pchCommand| == 12
    requires h.nMessageSize == |payload| <= MAX_SIZE && h.nChecksum < 0x1_0000_0000
    ensures var m := WriteMessage(h, payload);
            IsMessage(m) && ParseHeader(m) == h && m[HEADER_SIZE..] == payload
  {
    var m := WriteMessage(h, payload);
    hide WriteLE32, ReadLE32;
    LE32RoundTrip(h.nMessageSize);
    LE32RoundTrip(h.nChecksum);
    assert m[..4] == h.pchMessageStart;
    assert m[4..16] == h.pchCommand;
    assert m[16..20] == WriteLE32(h.nMessageSize);
    assert m[20..24] == WriteLE32(h.nChecksum);
    assert m[24..] == payload;
  }

  //////////////////////////////////////////////////////////////////////////////
  // The queue
  //////////////////////////////////////////////////////////////////////////////

  /** What the queue holds when its first messages have been taken off: whole messages, and what has
      arrived of the next one. */
  function Pending(f: Framed, taken: nat): (q: seq<seq<Byte>>)
    requires taken <= |f.messages|
    ensures |q| >= |f.messages| - taken
    ensures f.rest == [] ==> |q| == |f.messages| - taken
    ensures f.rest != [] ==> |q| == |f.messages| - taken + 1 && q[|q| - 1] == f.rest
    ensures forall i :: 0 <= i < |f.messages| - taken ==> q[i] == f.messages[taken + i]
  {
    f.messages[taken..] + if f.rest == [] then [] else [f.rest]
  }

  /** A piece that does not reach past the end of the message being received. */
  lemma {:induction false} PieceArrives(s: seq<Byte>, piece: seq<Byte>, taken: nat)
    requires var t := Frame(s).rest + piece; piece != [] && (IsPartial(t) || IsMessage(t))
    requires !Frame(s).rejected && taken <= |Frame(s).messages|
    ensures var f, g := Frame(s), Frame(s + piece);
            && !g.rejected && taken <= |g.messages|
            && Pending(g, taken) == f.messages[taken..] + [f.rest + piece]
  {
    hide Frame;
    FrameAppend(s, piece);
    var f, g := Frame(s), Frame(s + piece);
    var t := f.rest + piece;
    if IsPartial(t) {
      FrameStops(t);
      assert f.messages + [] == f.messages;
    } else {
      FrameMessage(t, []);
      FrameStops([]);
      assert t + [] == t;
      assert (f.messages + [t])[taken..] == f.messages[taken..] + [t];
    }
  }

  /** A header that is rejected, whatever follows it. */
  lemma {:induction false} HeaderRejected(s: seq<Byte>, piece: seq<Byte>, more: seq<Byte>)
    requires var t := Frame(s).rest + piece; |t| == HEADER_SIZE && PayloadSize(t) > MAX_SIZE
    requires !Frame(s).rejected
    ensures var g := Frame(s + (piece + more)); g.rejected && g.messages == Frame(s).messages
  {
    hide Frame;
    var f := Frame(s);
    FrameAppend(s, piece + more);
    SameHeader(f.rest + piece, more);
    assert f.rest + (piece + more) == f.rest + piece + more;
    FrameStops(f.rest + piece + more);
  }
}
