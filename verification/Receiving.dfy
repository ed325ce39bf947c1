/** The receiving side of a node: `CNetMessage` and `CNode::ReceiveMsgBytes`. */
module Receiving {
  import opened Common
  import opened Framing

  const READ_AHEAD: nat := 256 * 1024

  /** `memcpy` of a chunk into a buffer. */
  function Overwrite(buf: seq<Byte>, at: nat, data: seq<Byte>): (r: seq<Byte>)
    requires at + |data| <= |buf|
    ensures |r| == |buf| && r[..at + |data|] == buf[..at] + data
  {
    buf[..at] + data + buf[at + |data|..]
  }

  /** `resize` to a larger size. */
  function Enlarge(buf: seq<Byte>, n: nat): (r: seq<Byte>)
    requires n >= |buf|
    ensures |r| == n && r[..|buf|] == buf
  {
    buf + seq(n - |buf|, i => 0)
  }

  class NetMessage {
    var in_data: bool
    var hdrbuf: seq<Byte>
    var hdr: Header
    var nHdrPos: nat
    var vRecv: seq<Byte>
    var nDataPos: nat

    constructor ()
      ensures Holds([])
    {
      in_data, nHdrPos, nDataPos, vRecv := false, 0, 0, [];
      hdrbuf := seq(HEADER_SIZE, i => 0);
      hdr := Header([], [], 0, 0);
    }

    predicate Complete()
      reads this
    {
      in_data && hdr.nMessageSize == nDataPos
    }

    /** The message holds these received bytes, in its header buffer or in its header and payload buffer, and
        the payload buffer stays within the declared size and 256 KiB past the bytes received. */
    ghost predicate Holds(s: seq<Byte>)
      reads this
    {
      if |s| < HEADER_SIZE then
        !in_data && |hdrbuf| == HEADER_SIZE && nHdrPos == |s| && hdrbuf[..nHdrPos] == s && nDataPos == 0 && vRecv == []
      else
        && in_data && hdr == ParseHeader(s) && hdr.nMessageSize <= MAX_SIZE
        && nDataPos == |s| - HEADER_SIZE <= |vRecv| <= Min(hdr.nMessageSize, nDataPos + READ_AHEAD)
        && vRecv[..nDataPos] == s[HEADER_SIZE..]
    }

    method ReadHeader(pch: seq<Byte>, ghost s: seq<Byte>) returns (handled: int)
      requires Holds(s) && |s| < HEADER_SIZE && pch != []
      modifies this
      ensures var n := Min(HEADER_SIZE - |s|, |pch|);
              var t := s + pch[..n];
              && n > 0
              && handled == (if |t| == HEADER_SIZE && PayloadSize(t) > MAX_SIZE then -1 else n)
              && (handled >= 0 ==> Holds(t))
              && (handled < 0 ==> !Complete())
    {
      var nRemaining := HEADER_SIZE - nHdrPos;
      var nCopy := Min(nRemaining, |pch|);
      hdrbuf := Overwrite(hdrbuf, nHdrPos, pch[..nCopy]);
      nHdrPos := nHdrPos + nCopy;
      if nHdrPos < HEADER_SIZE {
        return nCopy;
      }
      assert hdrbuf == s + pch[..nCopy];
      hdr := ParseHeader(hdrbuf);
      hdrbuf := [];
      if hdr.nMessageSize > MAX_SIZE {
        return -1;
      }
      in_data := true;
      return nCopy;
    }

    method ReadData(pch: seq<Byte>, ghost s: seq<Byte>) returns (handled: int)
      requires Holds(s) && |s| >= HEADER_SIZE && IsPartial(s) && pch != []
      modifies this
      ensures var n := Min(HEADER_SIZE + PayloadSize(s) - |s|, |pch|);
              n > 0 && handled == n && Holds(s + pch[..n])
    {
      var nRemaining := hdr.nMessageSize - nDataPos;
      var nCopy := Min(nRemaining, |pch|);
      ghost var t := s + pch[..nCopy];
      SameFields(s, pch[..nCopy]);
      if |vRecv| < nDataPos + nCopy {
        vRecv := Enlarge(vRecv, Min(hdr.nMessageSize, nDataPos + nCopy + READ_AHEAD));
      }
      vRecv := Overwrite(vRecv, nDataPos, pch[..nCopy]);
      assert t[HEADER_SIZE..] == s[HEADER_SIZE..] + pch[..nCopy];
      nDataPos := nDataPos + nCopy;
      return nCopy;
    }

    /** The branch of the receive loop that hands a chunk to the message. */
    method Read(pch: seq<Byte>, ghost s: seq<Byte>) returns (handled: int)
      requires Holds(s) && IsPartial(s) && pch != []
      modifies this
      ensures handled <= |pch|
      ensures handled >= 0 ==> handled > 0 && Holds(s + pch[..handled])
      ensures handled >= 0 ==> IsPartial(s + pch[..handled]) || IsMessage(s + pch[..handled])
      ensures handled < 0 ==> !Complete() && exists n :: TooLarge(s, pch, n)
    {
      if !in_data {
        handled := ReadHeader(pch, s);
        if handled < 0 {
          assert TooLarge(s, pch, Min(HEADER_SIZE - |s|, |pch|));
        }
      } else {
        handled := ReadData(pch, s);
        SameHeader(s, pch[..handled]);
      }
    }
  }

  /** A header of which n more bytes have arrived and that declares too large a payload. */
  ghost predicate TooLarge(s: seq<Byte>, pch: seq<Byte>, n: nat) {
    && n <= |pch| && |s + pch[..n]| == HEADER_SIZE
    && PayloadSize(s + pch[..n]) > MAX_SIZE
  }

  lemma {:induction false} SameFields(s: seq<Byte>, t: seq<Byte>)
    requires |s| >= HEADER_SIZE
    ensures ParseHeader(s + t) == ParseHeader(s)
  {
    assert (s + t)[..4] == s[..4] && (s + t)[4..16] == s[4..16];
    assert (s + t)[16..20] == s[16..20] && (s + t)[20..24] == s[20..24];
  }

  ghost predicate Distinct(ms: seq<NetMessage>) {
    forall i, j :: 0 <= i < j < |ms| ==> ms[i] != ms[j]
  }

  ghost predicate HoldAll(ms: seq<NetMessage>, q: seq<seq<Byte>>)
    reads ms
  {
    |ms| == |q| && forall i :: 0 <= i < |q| ==> ms[i].Holds(q[i])
  }

  /** A message that holds the bytes of a whole message is complete, with exactly that header and payload;
      one that holds less is not. */
  lemma {:induction false} CompleteIffWhole(m: NetMessage, s: seq<Byte>)
    requires m.Holds(s)
    ensures IsMessage(s) ==> m.Complete() && m.hdr == ParseHeader(s) && m.vRecv == s[HEADER_SIZE..]
    ensures IsPartial(s) ==> !m.Complete()
  {
  }

  /** What a message takes in memory: no more than 256 KiB past what has arrived of it, and at most 32 MiB of payload. */
  lemma {:induction false} BufferBound(m: NetMessage, s: seq<Byte>)
    requires m.Holds(s)
    ensures |m.vRecv| <= |s| + 262_144 && |m.vRecv| <= 33_554_432
  {
  }

  /** The queue ends in a complete message, or is empty, exactly when nothing of the next one has arrived. */
  lemma {:induction false} NothingBegun(ms: seq<NetMessage>, s: seq<Byte>, taken: nat)
    requires !Frame(s).rejected && taken <= |Frame(s).messages|
    requires HoldAll(ms, Pending(Frame(s), taken))
    ensures ms == [] || ms[|ms| - 1].Complete() <==> Frame(s).rest == []
  {
    hide Frame, PayloadSize;
    FrameCuts(s);
    hide IsMessage, IsPartial;
    var q := Pending(Frame(s), taken);
    if ms != [] {
      CompleteIffWhole(ms[|ms| - 1], q[|q| - 1]);
    }
  }

  lemma {:induction false} HoldOneMore(ms: seq<NetMessage>, q: seq<seq<Byte>>, m: NetMessage, s: seq<Byte>)
    requires HoldAll(ms, q) && m.Holds(s)
    ensures HoldAll(ms + [m], q + [s])
  {
  }

  lemma {:induction false} Shorter(ms: seq<NetMessage>, q: seq<seq<Byte>>, s: seq<Byte>)
    requires HoldAll(ms, q + [s])
    ensures |ms| == |q| + 1 && HoldAll(ms[..|ms| - 1], q) && ms[|ms| - 1].Holds(s)
  {
    assert forall i :: 0 <= i < |q| ==> (q + [s])[i] == q[i];
  }

  class Node {
    var vRecvMsg: seq<NetMessage>
    /** All that has arrived, and how many messages have been taken off the queue. */
    ghost var received: seq<Byte>
    ghost var taken: nat

    ghost predicate Valid()
      reads this, vRecvMsg
    {
      var f := Frame(received);
      && !f.rejected && taken <= |f.messages|
      && Distinct(vRecvMsg) && HoldAll(vRecvMsg, Pending(f, taken))
    }

    constructor ()
      ensures Valid() && received == [] && taken == 0 && vRecvMsg == []
    {
      vRecvMsg, received, taken := [], [], 0;
    }

    /** The message being received is the last of the queue; a new one is begun if there is none. */
    method Current() returns (msg: NetMessage)
      requires Valid()
      modifies this`vRecvMsg
      ensures var f := Frame(received);
              HoldAll(vRecvMsg, f.messages[taken..] + [f.rest])
      ensures Distinct(vRecvMsg) && vRecvMsg != [] && msg == vRecvMsg[|vRecvMsg| - 1]
      ensures forall i :: 0 <= i < |vRecvMsg| ==> vRecvMsg[i] in old(vRecvMsg) || fresh(vRecvMsg[i])
    {
      hide Frame;
      NothingBegun(vRecvMsg, received, taken);
      if vRecvMsg == [] || vRecvMsg[|vRecvMsg| - 1].Complete() {
        var next := new NetMessage();
        HoldOneMore(vRecvMsg, Frame(received).messages[taken..], next, []);
        vRecvMsg := vRecvMsg + [next];
      }
      msg := vRecvMsg[|vRecvMsg| - 1];
    }

    /** The queue after a rejected header: the whole messages before it, and one that never completes. */
    ghost predicate Stopped(f: Framed)
      reads this, vRecvMsg
    {
      && f.rejected && taken <= |f.messages| && |vRecvMsg| == |f.messages| - taken + 1
      && HoldAll(vRecvMsg[..|vRecvMsg| - 1], f.messages[taken..])
      && !vRecvMsg[|vRecvMsg| - 1].Complete()
    }

    /** One turn of the receive loop. */
    method Absorb(pch: seq<Byte>) returns (handled: int)
      requires Valid() && pch != []
      modifies this, vRecvMsg
      ensures taken == old(taken) && handled <= |pch|
      ensures handled >= 0 ==> handled > 0 && received == old(received) + pch[..handled] && Valid()
      ensures handled < 0 ==> Stopped(Frame(old(received) + pch))
      ensures forall i :: 0 <= i < |vRecvMsg| ==> vRecvMsg[i] in old(vRecvMsg) || fresh(vRecvMsg[i])
    {
      hide Frame, IsPartial, IsMessage, NetMessage.Holds, PayloadSize, Pending, HoldAll, NetMessage.Complete;
      ghost var f := Frame(received);
      FrameCuts(received);
      var msg := Current();
      ghost var before := vRecvMsg[..|vRecvMsg| - 1];
      Shorter(vRecvMsg, f.messages[taken..], f.rest);
      assert msg in vRecvMsg && msg !in before;
      handled := msg.Read(pch, f.rest);
      assert HoldAll(before, f.messages[taken..]);
      if handled < 0 {
        ghost var n: nat :| TooLarge(f.rest, pch, n);
        HeaderRejected(received, pch[..n], pch[n..]);
        assert pch == pch[..n] + pch[n..];
      } else {
        PieceArrives(received, pch[..handled], taken);
        HoldOneMore(before, f.messages[taken..], msg, f.rest + pch[..handled]);
        assert vRecvMsg == before + [msg];
        received := received + pch[..handled];
      }
    }

    /** A chunk is taken in whole unless the stream so far is to be rejected; the queue depends on the stream
        alone. */
    method ReceiveMsgBytes(pch: seq<Byte>) returns (ok: bool)
      requires Valid()
      modifies this, vRecvMsg
      ensures taken == old(taken)
      ensures ok <==> !Frame(old(received) + pch).rejected
      ensures ok ==> received == old(received) + pch && Valid()
      ensures !ok ==> Stopped(Frame(old(received) + pch))
      ensures forall i :: 0 <= i < |vRecvMsg| ==> vRecvMsg[i] in old(vRecvMsg) || fresh(vRecvMsg[i])
    {
      hide Frame, HoldAll, Pending;
      var rest := pch;
      assert received + rest == old(received) + pch;
      while |rest| > 0
        invariant Valid() && taken == old(taken)
        invariant received + rest == old(received) + pch
        invariant forall i :: 0 <= i < |vRecvMsg| ==> vRecvMsg[i] in old(vRecvMsg) || fresh(vRecvMsg[i])
        decreases |rest|
      {
        ghost var was := received;
        var handled := Absorb(rest);
        if handled < 0 {
          return false;
        }
        assert was + rest == was + rest[..handled] + rest[handled..];
        rest := rest[handled..];
      }
      assert received + [] == received;
      return true;
    }

    /** Messages that have been processed are erased from the front. */
    method Erase(n: nat)
      requires Valid() && n <= |vRecvMsg| && (forall i :: 0 <= i < n ==> vRecvMsg[i].Complete())
      modifies this
      ensures Valid() && received == old(received) && taken == old(taken) + n
      ensures vRecvMsg == old(vRecvMsg[n..])
    {
      hide Frame;
      ghost var f := Frame(received);
      if n == |vRecvMsg| && n > 0 {
        NothingBegun(vRecvMsg, received, taken);
      }
      vRecvMsg, taken := vRecvMsg[n..], taken + n;
      assert Pending(f, taken) == Pending(f, taken - n)[n..];
    }
  }

  /** However a stream is cut into chunks, the queue and the verdict are those of the whole stream; after a
      rejection nothing more is read. */
  method ReceiveAll(chunks: seq<seq<Byte>>) returns (node: Node, ok: bool)
    ensures ok <==> !Frame(Concat(chunks)).rejected
    ensures ok ==> node.Valid() && node.received == Concat(chunks) && node.taken == 0
    ensures !ok ==> node.Stopped(Frame(Concat(chunks)))
  {
    hide Frame;
    node := new Node();
    ok := true;
    var i := 0;
    while i < |chunks|
      invariant 0 <= i <= |chunks| && node.Valid() && fresh(node) && fresh(node.vRecvMsg)
      invariant node.taken == 0 && Concat(chunks) == node.received + Concat(chunks[i..])
    {
      ghost var was, later := node.received, Concat(chunks[i + 1..]);
      assert chunks[i..][1..] == chunks[i + 1..];
      ok := node.ReceiveMsgBytes(chunks[i]);
      assert Concat(chunks) == was + chunks[i] + later;
      if !ok {
        FrameAppend(was + chunks[i], later);
        return;
      }
      i := i + 1;
    }
    assert chunks[i..] == [];
    assert node.received + [] == node.received;
  }
}
