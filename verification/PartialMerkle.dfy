/** The partial Merkle tree of BIP 37: a depth-first stream of flag bits and hashes from
    which a filtered peer recovers the matched transaction ids and the block's root. */
module PartialMerkle {
  import opened Arith
  import opened Common
  import opened Merkle

  /** 60 bytes is the least size of a serialized transaction. */
  const MAX_TRANSACTIONS: nat := 2000000 / 60

  //////////////////////////////////////////////////////////////////////////////
  // Matched leaves
  //////////////////////////////////////////////////////////////////////////////

  /** The leaves in [lo, hi) whose mask bit is set, in order. */
  function Selected(txids: seq<Hash>, mask: seq<bool>, lo: nat, hi: nat): seq<Hash>
    requires hi <= |txids| == |mask|
    decreases hi - lo
  {
    if lo >= hi then []
    else (if mask[lo] then [txids[lo]] else []) + Selected(txids, mask, lo + 1, hi)
  }

  ghost predicate AnyMatch(mask: seq<bool>, lo: nat, hi: nat)
    requires hi <= |mask|
  {
    exists p :: lo <= p < hi && mask[p]
  }

  lemma {:induction false} SelectedSplit(txids: seq<Hash>, mask: seq<bool>, lo: nat, mid: nat, hi: nat)
    requires lo <= mid <= hi <= |txids| == |mask|
    ensures Selected(txids, mask, lo, hi) == Selected(txids, mask, lo, mid) + Selected(txids, mask, mid, hi)
    decreases mid - lo
  {
    if lo < mid {
      SelectedSplit(txids, mask, lo + 1, mid, hi);
    }
  }

  lemma {:induction false} SelectedEmpty(txids: seq<Hash>, mask: seq<bool>, lo: nat, hi: nat)
    requires hi <= |txids| == |mask|
    ensures AnyMatch(mask, lo, hi) <==> Selected(txids, mask, lo, hi) != []
    decreases hi - lo
  {
    if lo < hi {
      SelectedEmpty(txids, mask, lo + 1, hi);
    }
  }

  lemma {:induction false} SelectedAgrees(txids: seq<Hash>, m1: seq<bool>, m2: seq<bool>, lo: nat, hi: nat)
    requires hi <= |txids| == |m1| == |m2|
    requires forall p :: lo <= p < hi ==> m1[p] == m2[p]
    ensures Selected(txids, m1, lo, hi) == Selected(txids, m2, lo, hi)
    decreases hi - lo
  {
    if lo < hi {
      assert m1[lo] == m2[lo];
      SelectedAgrees(txids, m1, m2, lo + 1, hi);
    }
  }

  //////////////////////////////////////////////////////////////////////////////
  // Leaves below a node
  //////////////////////////////////////////////////////////////////////////////

  function First(height: nat, pos: nat): nat {
    pos * Pow2(height)
  }

  function End(n: nat, height: nat, pos: nat): nat {
    Min((pos + 1) * Pow2(height), n)
  }

  /** A leaf node covers itself; an inner node's leaves are split by its children. */
  lemma {:induction false} NodeLeaves(n: nat, height: nat, pos: nat)
    requires pos < Width(n, height)
    ensures First(height, pos) < End(n, height, pos) <= n
    ensures height == 0 ==> First(height, pos) == pos && End(n, height, pos) == pos + 1
    ensures height > 0 ==>
      && First(height - 1, 2 * pos) == First(height, pos)
      && if 2 * pos + 1 < Width(n, height - 1)
         then End(n, height - 1, 2 * pos) == First(height - 1, 2 * pos + 1)
           && End(n, height - 1, 2 * pos + 1) == End(n, height, pos)
         else End(n, height - 1, 2 * pos) == End(n, height, pos)
  {
    NodeExists(n, height, pos);
    var p := Pow2(height);
    assert (pos + 1) * p == pos * p + p;
    if height > 0 {
      var q := Pow2(height - 1);
      NodeExists(n, height - 1, 2 * pos + 1);
      assert p == 2 * q;
      assert 2 * pos * q == pos * p;
      assert (2 * pos + 1) * q == pos * p + q;
      assert (2 * pos + 1 + 1) * q == pos * p + 2 * q;
    }
  }

  lemma {:induction false} WholeTree(n: nat)
    requires n > 0
    ensures Width(n, TreeHeight(n)) == 1
    ensures First(TreeHeight(n), 0) == 0 && End(n, TreeHeight(n), 0) == n
  {
    HeightFromBounds(n, 0);
    NodeExists(n, TreeHeight(n), 1);
  }

  //////////////////////////////////////////////////////////////////////////////
  // Building
  //////////////////////////////////////////////////////////////////////////////

  /** The matched leaves below a node, by its children. */
  function Below(txids: seq<Hash>, mask: seq<bool>, height: nat, pos: nat): seq<Hash>
    requires |txids| == |mask| && pos < Width(|mask|, height)
    decreases height, 0
  {
    if height == 0 then (if mask[pos] then [txids[pos]] else [])
    else Below(txids, mask, height - 1, 2 * pos) + RightBelow(txids, mask, height - 1, 2 * pos + 1)
  }

  function RightBelow(txids: seq<Hash>, mask: seq<bool>, height: nat, pos: nat): seq<Hash>
    requires |txids| == |mask|
    decreases height, 1
  {
    if pos < Width(|mask|, height) then Below(txids, mask, height, pos) else []
  }

  /** Whether a node is the parent of a matched leaf, by its children. */
  predicate Flag(mask: seq<bool>, height: nat, pos: nat)
    requires pos < Width(|mask|, height)
    decreases height, 0
  {
    if height == 0 then mask[pos]
    else Flag(mask, height - 1, 2 * pos) || RightFlag(mask, height - 1, 2 * pos + 1)
  }

  predicate RightFlag(mask: seq<bool>, height: nat, pos: nat)
    decreases height, 1
  {
    pos < Width(|mask|, height) && Flag(mask, height, pos)
  }

  /** The source's scan over a node's leaves decides the flag. */
  lemma {:induction false} FlagIsAnyMatch(mask: seq<bool>, height: nat, pos: nat)
    requires pos < Width(|mask|, height)
    ensures First(height, pos) < End(|mask|, height, pos) <= |mask|
    ensures Flag(mask, height, pos) <==> AnyMatch(mask, First(height, pos), End(|mask|, height, pos))
    decreases height
  {
    NodeLeaves(|mask|, height, pos);
    if height > 0 {
      FlagIsAnyMatch(mask, height - 1, 2 * pos);
      if 2 * pos + 1 < Width(|mask|, height - 1) {
        FlagIsAnyMatch(mask, height - 1, 2 * pos + 1);
      }
    }
  }

  lemma {:induction false} BelowIsSelected(txids: seq<Hash>, mask: seq<bool>, height: nat, pos: nat)
    requires |txids| == |mask| && pos < Width(|mask|, height)
    ensures First(height, pos) < End(|mask|, height, pos) <= |mask|
    ensures Below(txids, mask, height, pos) == Selected(txids, mask, First(height, pos), End(|mask|, height, pos))
    decreases height
  {
    NodeLeaves(|mask|, height, pos);
    if height > 0 {
      BelowIsSelected(txids, mask, height - 1, 2 * pos);
      if 2 * pos + 1 < Width(|mask|, height - 1) {
        BelowIsSelected(txids, mask, height - 1, 2 * pos + 1);
        SelectedSplit(txids, mask, First(height, pos), First(height - 1, 2 * pos + 1), End(|mask|, height, pos));
      }
    } else {
      assert Selected(txids, mask, pos, pos + 1) == Below(txids, mask, 0, pos);
    }
  }

  lemma {:induction false} FlagIffBelow(txids: seq<Hash>, mask: seq<bool>, height: nat, pos: nat)
    requires |txids| == |mask| && pos < Width(|mask|, height)
    ensures Flag(mask, height, pos) <==> Below(txids, mask, height, pos) != []
    decreases height
  {
    if height > 0 {
      FlagIffBelow(txids, mask, height - 1, 2 * pos);
      if 2 * pos + 1 < Width(|mask|, height - 1) {
        FlagIffBelow(txids, mask, height - 1, 2 * pos + 1);
      }
    }
  }

  function BuildBits(mask: seq<bool>, height: nat, pos: nat): seq<bool>
    requires pos < Width(|mask|, height)
    decreases height, 0
  {
    var flag := Flag(mask, height, pos);
    if height == 0 || !flag then [flag]
    else [flag] + (BuildBits(mask, height - 1, 2 * pos) + RightBits(mask, height - 1, 2 * pos + 1))
  }

  function RightBits(mask: seq<bool>, height: nat, pos: nat): seq<bool>
    decreases height, 1
  {
    if pos < Width(|mask|, height) then BuildBits(mask, height, pos) else []
  }

  function BuildHashes(hash: PairHash, txids: seq<Hash>, mask: seq<bool>, height: nat, pos: nat): seq<Hash>
    requires |txids| == |mask| && pos < Width(|mask|, height)
    decreases height, 0
  {
    if height == 0 || !Flag(mask, height, pos) then [CalcHash(hash, txids, height, pos)]
    else BuildHashes(hash, txids, mask, height - 1, 2 * pos) + RightHashes(hash, txids, mask, height - 1, 2 * pos + 1)
  }

  function RightHashes(hash: PairHash, txids: seq<Hash>, mask: seq<bool>, height: nat, pos: nat): seq<Hash>
    requires |txids| == |mask|
    decreases height, 1
  {
    if pos < Width(|mask|, height) then BuildHashes(hash, txids, mask, height, pos) else []
  }

  //////////////////////////////////////////////////////////////////////////////
  // Size bounds
  //////////////////////////////////////////////////////////////////////////////

  /** Descended nodes that have only one child. */
  ghost function OnlyChildren(mask: seq<bool>, height: nat, pos: nat): nat
    requires pos < Width(|mask|, height)
    decreases height
  {
    if height == 0 || !Flag(mask, height, pos) then 0
    else if 2 * pos + 1 < Width(|mask|, height - 1)
      then OnlyChildren(mask, height - 1, 2 * pos) + OnlyChildren(mask, height - 1, 2 * pos + 1)
      else 1 + OnlyChildren(mask, height - 1, 2 * pos)
  }

  /** Never more hashes than leaves below the node. */
  lemma {:induction false} HashesAtMostLeaves(hash: PairHash, txids: seq<Hash>, mask: seq<bool>, height: nat, pos: nat)
    requires |txids| == |mask| && pos < Width(|mask|, height)
    ensures 1 <= |BuildHashes(hash, txids, mask, height, pos)| <= End(|mask|, height, pos) - First(height, pos)
    decreases height
  {
    NodeLeaves(|mask|, height, pos);
    if height > 0 && Flag(mask, height, pos) {
      HashesAtMostLeaves(hash, txids, mask, height - 1, 2 * pos);
      if 2 * pos + 1 < Width(|mask|, height - 1) {
        HashesAtMostLeaves(hash, txids, mask, height - 1, 2 * pos + 1);
      }
    }
  }

  lemma {:induction false} LevelSum(a: nat, b: nat, x: nat, y: nat, height: nat)
    requires height > 0 && a + b > 0
    requires x <= 1 + a * (height - 1) && y <= 1 + b * (height - 1)
    ensures x + y <= 1 + (a + b) * height
  {
    assert (a + b) * height == a * (height - 1) + b * (height - 1) + (a + b);
  }

  /** Never more hashes than one per level and matched transaction, plus one. */
  lemma {:induction false} HashesByMatches(hash: PairHash, txids: seq<Hash>, mask: seq<bool>, height: nat, pos: nat)
    requires |txids| == |mask| && pos < Width(|mask|, height)
    ensures |BuildHashes(hash, txids, mask, height, pos)| <= 1 + |Below(txids, mask, height, pos)| * height
    decreases height
  {
    FlagIffBelow(txids, mask, height, pos);
    if height > 0 && Flag(mask, height, pos) {
      HashesByMatches(hash, txids, mask, height - 1, 2 * pos);
      if 2 * pos + 1 < Width(|mask|, height - 1) {
        HashesByMatches(hash, txids, mask, height - 1, 2 * pos + 1);
      }
      LevelSum(|Below(txids, mask, height - 1, 2 * pos)|, |RightBelow(txids, mask, height - 1, 2 * pos + 1)|,
               |BuildHashes(hash, txids, mask, height - 1, 2 * pos)|,
               |RightHashes(hash, txids, mask, height - 1, 2 * pos + 1)|, height);
    }
  }

  /** The exact number of flag bits. */
  lemma {:induction false} BitCount(hash: PairHash, txids: seq<Hash>, mask: seq<bool>, height: nat, pos: nat)
    requires |txids| == |mask| && pos < Width(|mask|, height)
    ensures |BuildBits(mask, height, pos)|
         == 2 * |BuildHashes(hash, txids, mask, height, pos)| - 1 + OnlyChildren(mask, height, pos)
    decreases height
  {
    if height > 0 && Flag(mask, height, pos) {
      BitCount(hash, txids, mask, height - 1, 2 * pos);
      if 2 * pos + 1 < Width(|mask|, height - 1) {
        BitCount(hash, txids, mask, height - 1, 2 * pos + 1);
      }
    }
  }

  /** A level of odd width with a match under its last node. */
  ghost predicate OddMatch(mask: seq<bool>, height: nat) {
    var w := Width(|mask|, height);
    w % 2 == 1 && Flag(mask, height, w - 1)
  }

  /** The match is one of the last leaves. */
  lemma {:induction false} OddMatchIs(mask: seq<bool>, height: nat)
    ensures OddMatch(mask, height) <==>
      var w := Width(|mask|, height);
      w % 2 == 1 && First(height, w - 1) < |mask| && AnyMatch(mask, First(height, w - 1), |mask|)
  {
    var w := Width(|mask|, height);
    if w % 2 == 1 {
      FlagIsAnyMatch(mask, height, w - 1);
      NodeExists(|mask|, height, w);
      assert End(|mask|, height, w - 1) == |mask|;
    }
  }

  ghost predicate OddMatchBelow(mask: seq<bool>, height: nat) {
    exists h :: 0 <= h < height && OddMatch(mask, h)
  }

  lemma {:induction false} OddMatchFlags(mask: seq<bool>, h: nat, height: nat)
    requires h < height && OddMatch(mask, h)
    ensures Width(|mask|, height) > 0 && Flag(mask, height, Width(|mask|, height) - 1)
    decreases height
  {
    if h < height - 1 {
      OddMatchFlags(mask, h, height - 1);
    }
  }

  /** A descended node with a single child is the last of its level, above an odd one. */
  lemma {:induction false} OnlyChildrenIff(mask: seq<bool>, height: nat, pos: nat)
    requires pos < Width(|mask|, height)
    ensures OnlyChildren(mask, height, pos) > 0 <==> pos == Width(|mask|, height) - 1 && OddMatchBelow(mask, height)
    decreases height
  {
    if height > 0 {
      if !Flag(mask, height, pos) {
        if pos == Width(|mask|, height) - 1 && OddMatchBelow(mask, height) {
          var h :| 0 <= h < height && OddMatch(mask, h);
          OddMatchFlags(mask, h, height);
        }
      } else if 2 * pos + 1 < Width(|mask|, height - 1) {
        OnlyChildrenIff(mask, height - 1, 2 * pos);
        OnlyChildrenIff(mask, height - 1, 2 * pos + 1);
        if pos == Width(|mask|, height) - 1 {
          EvenLevel(mask, height);
        }
      } else {
        var w := Width(|mask|, height - 1);
        assert w == 2 * pos + 1 && !RightFlag(mask, height - 1, 2 * pos + 1);
        assert OddMatch(mask, height - 1);
      }
    }
  }

  lemma {:induction false} EvenLevel(mask: seq<bool>, height: nat)
    requires height > 0 && Width(|mask|, height - 1) % 2 == 0
    ensures OddMatchBelow(mask, height) <==> OddMatchBelow(mask, height - 1)
  {
    if OddMatchBelow(mask, height) {
      var h :| 0 <= h < height && OddMatch(mask, h);
      assert h < height - 1;
    }
  }

  //////////////////////////////////////////////////////////////////////////////
  // Extracting
  //////////////////////////////////////////////////////////////////////////////

  /** What travels in a `merkleblock` message. */
  datatype PartialTree = PartialTree(total: nat, bits: seq<bool>, hashes: seq<Hash>)

  datatype Cursor = Cursor(bitsUsed: nat, hashUsed: nat, matches: seq<Hash>, bad: bool)

  datatype Verdict = Verdict(root: Hash, matches: seq<Hash>, accepted: bool, bad: bool)

  function Extract(hash: PairHash, t: PartialTree, height: nat, pos: nat, c: Cursor): (Hash, Cursor)
    decreases height
  {
    if c.bitsUsed >= |t.bits| then (0, c.(bad := true))
    else
      var flag := t.bits[c.bitsUsed];
      var c1 := c.(bitsUsed := c.bitsUsed + 1);
      if height == 0 || !flag then
        if c1.hashUsed >= |t.hashes| then (0, c1.(bad := true))
        else
          var node := t.hashes[c1.hashUsed];
          (node, c1.(hashUsed := c1.hashUsed + 1,
                     matches := if height == 0 && flag then c1.matches + [node] else c1.matches))
      else
        var (left, c2) := Extract(hash, t, height - 1, 2 * pos, c1);
        if 2 * pos + 1 < Width(t.total, height - 1) then
          var (right, c3) := Extract(hash, t, height - 1, 2 * pos + 1, c2);
          (hash(left, right), c3)
        else
          (hash(left, left), c2)
  }

  function Judge(hash: PairHash, t: PartialTree, bad: bool): Verdict {
    if t.total == 0 || t.total > MAX_TRANSACTIONS || |t.hashes| > t.total || |t.bits| < |t.hashes| then
      Verdict(0, [], false, bad)
    else
      var (root, c) := Extract(hash, t, TreeHeight(t.total), 0, Cursor(0, 0, [], bad));
      if c.bad || (c.bitsUsed + 7) / 8 != (|t.bits| + 7) / 8 || c.hashUsed != |t.hashes| then
        Verdict(0, c.matches, false, c.bad)
      else
        Verdict(root, c.matches, true, false)
  }

  //////////////////////////////////////////////////////////////////////////////
  // Round trip
  //////////////////////////////////////////////////////////////////////////////

  /** `part` occurs in `s` at offset `i`. */
  ghost predicate Holds<T>(s: seq<T>, i: nat, part: seq<T>) {
    i + |part| <= |s| && s[i..i + |part|] == part
  }

  lemma {:induction false} HoldsSplit<T>(s: seq<T>, i: nat, a: seq<T>, b: seq<T>)
    requires Holds(s, i, a + b)
    ensures Holds(s, i, a) && Holds(s, i + |a|, b)
  {
    assert s[i..i + |a + b|][..|a|] == a;
    assert s[i..i + |a + b|][|a|..] == b;
  }

  lemma {:induction false} HoldsFirst<T>(s: seq<T>, i: nat, x: T, b: seq<T>)
    requires Holds(s, i, [x] + b)
    ensures i < |s| && s[i] == x && Holds(s, i + 1, b)
  {
    HoldsSplit(s, i, [x], b);
    assert s[i..i + 1][0] == x;
  }

  /** What extraction of a node leaves behind when the stream holds that node. */
  ghost function Advanced(hash: PairHash, txids: seq<Hash>, mask: seq<bool>, height: nat, pos: nat, c: Cursor): Cursor
    requires |txids| == |mask| && pos < Width(|mask|, height)
  {
    Cursor(c.bitsUsed + |BuildBits(mask, height, pos)|,
           c.hashUsed + |BuildHashes(hash, txids, mask, height, pos)|,
           c.matches + Below(txids, mask, height, pos),
           false)
  }

  /** The stream at `c` holds the encoding of a node. */
  ghost predicate HoldsNode(hash: PairHash, txids: seq<Hash>, mask: seq<bool>, t: PartialTree,
                            height: nat, pos: nat, c: Cursor)
    requires |txids| == |mask| && pos < Width(|mask|, height)
  {
    && Holds(t.bits, c.bitsUsed, BuildBits(mask, height, pos))
    && Holds(t.hashes, c.hashUsed, BuildHashes(hash, txids, mask, height, pos))
  }

  lemma {:induction false} StreamsOf(hash: PairHash, txids: seq<Hash>, mask: seq<bool>, height: nat, pos: nat)
    requires |txids| == |mask| && pos < Width(|mask|, height) && height > 0 && Flag(mask, height, pos)
    ensures BuildBits(mask, height, pos)
         == [true] + (BuildBits(mask, height - 1, 2 * pos) + RightBits(mask, height - 1, 2 * pos + 1))
    ensures BuildHashes(hash, txids, mask, height, pos)
         == BuildHashes(hash, txids, mask, height - 1, 2 * pos) + RightHashes(hash, txids, mask, height - 1, 2 * pos + 1)
  {
  }

  lemma {:induction false} LeftExists(n: nat, height: nat, pos: nat)
    requires height > 0 && pos < Width(n, height)
    ensures 2 * pos < Width(n, height - 1)
  {
  }

  /** A node that is descended has its left child next in the streams. */
  lemma {:induction false} HoldsLeft(hash: PairHash, txids: seq<Hash>, mask: seq<bool>, t: PartialTree,
                                     height: nat, pos: nat, c: Cursor)
    requires |txids| == |mask| && pos < Width(|mask|, height) && height > 0 && 2 * pos < Width(|mask|, height - 1)
    requires Flag(mask, height, pos) && HoldsNode(hash, txids, mask, t, height, pos, c)
    ensures c.bitsUsed < |t.bits| && t.bits[c.bitsUsed]
    ensures HoldsNode(hash, txids, mask, t, height - 1, 2 * pos, c.(bitsUsed := c.bitsUsed + 1))
  {
    hide BuildBits, BuildHashes, Holds, Below, Flag, CalcHash, Width;
    var lbits, rbits := BuildBits(mask, height - 1, 2 * pos), RightBits(mask, height - 1, 2 * pos + 1);
    var lhash := BuildHashes(hash, txids, mask, height - 1, 2 * pos);
    var rhash := RightHashes(hash, txids, mask, height - 1, 2 * pos + 1);
    StreamsOf(hash, txids, mask, height, pos);
    HoldsFirst(t.bits, c.bitsUsed, true, lbits + rbits);
    HoldsSplit(t.bits, c.bitsUsed + 1, lbits, rbits);
    HoldsSplit(t.hashes, c.hashUsed, lhash, rhash);
  }

  /** And then its right child, if it has one. */
  lemma {:induction false} HoldsRight(hash: PairHash, txids: seq<Hash>, mask: seq<bool>, t: PartialTree,
                                      height: nat, pos: nat, c: Cursor, c2: Cursor)
    requires |txids| == |mask| && pos < Width(|mask|, height) && height > 0 && 2 * pos + 1 < Width(|mask|, height - 1)
    requires Flag(mask, height, pos) && HoldsNode(hash, txids, mask, t, height, pos, c)
    requires c2 == Advanced(hash, txids, mask, height - 1, 2 * pos, c.(bitsUsed := c.bitsUsed + 1))
    ensures HoldsNode(hash, txids, mask, t, height - 1, 2 * pos + 1, c2)
  {
    hide BuildBits, BuildHashes, Holds, Below, Flag, CalcHash, Width;
    var lbits, rbits := BuildBits(mask, height - 1, 2 * pos), RightBits(mask, height - 1, 2 * pos + 1);
    var lhash := BuildHashes(hash, txids, mask, height - 1, 2 * pos);
    var rhash := RightHashes(hash, txids, mask, height - 1, 2 * pos + 1);
    StreamsOf(hash, txids, mask, height, pos);
    HoldsFirst(t.bits, c.bitsUsed, true, lbits + rbits);
    HoldsSplit(t.bits, c.bitsUsed + 1, lbits, rbits);
    HoldsSplit(t.hashes, c.hashUsed, lhash, rhash);
  }

  lemma {:induction false} ExtractBuilt(hash: PairHash, txids: seq<Hash>, mask: seq<bool>, t: PartialTree,
                                        height: nat, pos: nat, c: Cursor)
    requires t.total == |txids| == |mask| && pos < Width(|mask|, height) && !c.bad
    requires HoldsNode(hash, txids, mask, t, height, pos, c)
    ensures Extract(hash, t, height, pos, c)
         == (CalcHash(hash, txids, height, pos), Advanced(hash, txids, mask, height, pos, c))
    decreases height
  {
    hide HoldsNode, Flag;
    if height == 0 || !Flag(mask, height, pos) {
      ExtractStop(hash, txids, mask, t, height, pos, c);
    } else {
      var c1 := c.(bitsUsed := c.bitsUsed + 1);
      LeftExists(|mask|, height, pos);
      HoldsLeft(hash, txids, mask, t, height, pos, c);
      ExtractBuilt(hash, txids, mask, t, height - 1, 2 * pos, c1);
      if 2 * pos + 1 < Width(|mask|, height - 1) {
        var c2 := Advanced(hash, txids, mask, height - 1, 2 * pos, c1);
        HoldsRight(hash, txids, mask, t, height, pos, c, c2);
        ExtractBuilt(hash, txids, mask, t, height - 1, 2 * pos + 1, c2);
      }
      AdvancedTwice(hash, txids, mask, height, pos, c);
    }
  }

  lemma {:induction false} ExtractStop(hash: PairHash, txids: seq<Hash>, mask: seq<bool>, t: PartialTree,
                                       height: nat, pos: nat, c: Cursor)
    requires t.total == |txids| == |mask| && pos < Width(|mask|, height) && !c.bad
    requires HoldsNode(hash, txids, mask, t, height, pos, c)
    requires height == 0 || !Flag(mask, height, pos)
    ensures Extract(hash, t, height, pos, c)
         == (CalcHash(hash, txids, height, pos), Advanced(hash, txids, mask, height, pos, c))
  {
    FlagIffBelow(txids, mask, height, pos);
    HoldsFirst(t.bits, c.bitsUsed, Flag(mask, height, pos), []);
    HoldsFirst(t.hashes, c.hashUsed, CalcHash(hash, txids, height, pos), []);
    assert c.matches + [] == c.matches;
  }

  lemma {:induction false} AdvancedTwice(hash: PairHash, txids: seq<Hash>, mask: seq<bool>, height: nat, pos: nat, c: Cursor)
    requires |txids| == |mask| && pos < Width(|mask|, height) && height > 0 && Flag(mask, height, pos)
    ensures
      var c1 := c.(bitsUsed := c.bitsUsed + 1);
      var c2 := Advanced(hash, txids, mask, height - 1, 2 * pos, c1);
      Advanced(hash, txids, mask, height, pos, c)
        == if 2 * pos + 1 < Width(|mask|, height - 1)
           then Advanced(hash, txids, mask, height - 1, 2 * pos + 1, c2) else c2
  {
    var l, r := Below(txids, mask, height - 1, 2 * pos), RightBelow(txids, mask, height - 1, 2 * pos + 1);
    assert c.matches + (l + r) == (c.matches + l) + r;
    assert (c.matches + l) + [] == c.matches + l;
    StreamsOf(hash, txids, mask, height, pos);
    assert Below(txids, mask, height, pos) == l + r;
  }

  /** What the constructor builds for a block and a mask. */
  ghost function Built(hash: PairHash, txids: seq<Hash>, mask: seq<bool>): PartialTree
    requires 0 < |txids| == |mask|
  {
    WholeTree(|mask|);
    PartialTree(|txids|, BuildBits(mask, TreeHeight(|mask|), 0), BuildHashes(hash, txids, mask, TreeHeight(|mask|), 0))
  }

  /** `t` is `built` with its bits padded to at most a whole number of bytes. */
  ghost predicate Padded(built: PartialTree, t: PartialTree) {
    && t.total == built.total && t.hashes == built.hashes
    && |built.bits| <= |t.bits| && t.bits[..|built.bits|] == built.bits
    && (|t.bits| + 7) / 8 == (|built.bits| + 7) / 8
  }

  /** For every block and mask, extraction of the built tree, padded or not, gives the block's
      root and exactly the matched ids in order; it is refused exactly when the block is too large. */
  lemma {:induction false} RoundTrip(hash: PairHash, txids: seq<Hash>, mask: seq<bool>, t: PartialTree)
    requires 0 < |txids| == |mask|
    requires Padded(Built(hash, txids, mask), t)
    ensures Judge(hash, t, false)
         == if |txids| <= MAX_TRANSACTIONS
            then Verdict(MerkleRoot(hash, txids), Selected(txids, mask, 0, |txids|), true, false)
            else Verdict(0, [], false, false)
  {
    var n := |txids|;
    var height := TreeHeight(n);
    WholeTree(n);
    HashesAtMostLeaves(hash, txids, mask, height, 0);
    BitCount(hash, txids, mask, height, 0);
    BelowIsSelected(txids, mask, height, 0);
    if n <= MAX_TRANSACTIONS {
      assert Holds(t.bits, 0, BuildBits(mask, height, 0));
      assert Holds(t.hashes, 0, BuildHashes(hash, txids, mask, height, 0));
      ExtractBuilt(hash, txids, mask, t, height, 0, Cursor(0, 0, [], false));
      assert [] + Selected(txids, mask, 0, n) == Selected(txids, mask, 0, n);
    }
  }

  /** The documented bounds on the number of hashes, and the exact number of bits. */
  lemma {:induction false} BuiltSize(hash: PairHash, txids: seq<Hash>, mask: seq<bool>)
    requires 0 < |txids| == |mask|
    ensures var t := Built(hash, txids, mask);
      && |t.hashes| <= |txids|
      && |t.hashes| <= 1 + |Selected(txids, mask, 0, |txids|)| * TreeHeight(|txids|)
      && Width(|mask|, TreeHeight(|mask|)) == 1
      && |t.bits| == 2 * |t.hashes| - 1 + OnlyChildren(mask, TreeHeight(|mask|), 0)
  {
    WholeTree(|txids|);
    HashesAtMostLeaves(hash, txids, mask, TreeHeight(|txids|), 0);
    HashesByMatches(hash, txids, mask, TreeHeight(|txids|), 0);
    BelowIsSelected(txids, mask, TreeHeight(|txids|), 0);
    BitCount(hash, txids, mask, TreeHeight(|txids|), 0);
  }

  //////////////////////////////////////////////////////////////////////////////
  // Soundness against any sender
  //////////////////////////////////////////////////////////////////////////////

  lemma {:induction false} BadStays(hash: PairHash, t: PartialTree, height: nat, pos: nat, c: Cursor)
    ensures c.bad ==> Extract(hash, t, height, pos, c).1.bad
    decreases height
  {
    if c.bitsUsed < |t.bits| && height > 0 && t.bits[c.bitsUsed] {
      var c1 := c.(bitsUsed := c.bitsUsed + 1);
      BadStays(hash, t, height - 1, 2 * pos, c1);
      BadStays(hash, t, height - 1, 2 * pos + 1, Extract(hash, t, height - 1, 2 * pos, c1).1);
    }
  }

  ghost predicate NoClash(hash: PairHash, a: Hash, b: Hash, c: Hash, d: Hash) {
    hash(a, b) == hash(c, d) ==> a == c && b == d
  }

  /** At every node the sender's tree descends, the extracted pair of children either is the
      block's own pair or does not hash to the same node. */
  ghost predicate CollisionFree(hash: PairHash, txids: seq<Hash>, t: PartialTree, height: nat, pos: nat, c: Cursor)
    requires t.total == |txids| && pos < Width(|txids|, height)
    decreases height
  {
    c.bitsUsed < |t.bits| && height > 0 && t.bits[c.bitsUsed] ==>
      var c1 := c.(bitsUsed := c.bitsUsed + 1);
      var (left, c2) := Extract(hash, t, height - 1, 2 * pos, c1);
      var trueLeft := CalcHash(hash, txids, height - 1, 2 * pos);
      && CollisionFree(hash, txids, t, height - 1, 2 * pos, c1)
      && if 2 * pos + 1 < Width(|txids|, height - 1) then
           var right := Extract(hash, t, height - 1, 2 * pos + 1, c2).0;
           var trueRight := CalcHash(hash, txids, height - 1, 2 * pos + 1);
           && NoClash(hash, left, right, trueLeft, trueRight)
           && CollisionFree(hash, txids, t, height - 1, 2 * pos + 1, c2)
         else
           NoClash(hash, left, left, trueLeft, trueLeft)
  }

  ghost predicate Injective(hash: PairHash) {
    forall a, b, c, d :: NoClash(hash, a, b, c, d)
  }

  /** An injective pair hash has no collisions to exhibit. */
  lemma {:induction false} InjectiveIsCollisionFree(hash: PairHash, txids: seq<Hash>, t: PartialTree, height: nat, pos: nat, c: Cursor)
    requires t.total == |txids| && pos < Width(|txids|, height) && Injective(hash)
    ensures CollisionFree(hash, txids, t, height, pos, c)
    decreases height
  {
    if c.bitsUsed < |t.bits| && height > 0 && t.bits[c.bitsUsed] {
      var c1 := c.(bitsUsed := c.bitsUsed + 1);
      InjectiveIsCollisionFree(hash, txids, t, height - 1, 2 * pos, c1);
      if 2 * pos + 1 < Width(|txids|, height - 1) {
        InjectiveIsCollisionFree(hash, txids, t, height - 1, 2 * pos + 1, Extract(hash, t, height - 1, 2 * pos, c1).1);
      }
    }
  }

  lemma {:induction false} BelowAgrees(txids: seq<Hash>, m1: seq<bool>, m2: seq<bool>, height: nat, pos: nat)
    requires |txids| == |m1| == |m2| && pos < Width(|txids|, height)
    requires forall p :: First(height, pos) <= p < End(|txids|, height, pos) && p < |txids| ==> m1[p] == m2[p]
    ensures Below(txids, m1, height, pos) == Below(txids, m2, height, pos)
  {
    BelowIsSelected(txids, m1, height, pos);
    BelowIsSelected(txids, m2, height, pos);
    SelectedAgrees(txids, m1, m2, First(height, pos), End(|txids|, height, pos));
  }

  /** Masks for the two children combine into a mask for their parent. */
  lemma {:induction false} JoinMasks(txids: seq<Hash>, m1: seq<bool>, m2: seq<bool>, height: nat, pos: nat) returns (mask: seq<bool>)
    requires |txids| == |m1| == |m2| && height > 0 && pos < Width(|txids|, height)
    requires 2 * pos + 1 < Width(|txids|, height - 1)
    ensures |mask| == |txids|
    ensures Below(txids, mask, height, pos)
         == Below(txids, m1, height - 1, 2 * pos) + Below(txids, m2, height - 1, 2 * pos + 1)
  {
    NodeLeaves(|txids|, height, pos);
    NodeLeaves(|txids|, height - 1, 2 * pos + 1);
    var mid := First(height - 1, 2 * pos + 1);
    mask := m1[..mid] + m2[mid..];
    BelowAgrees(txids, m1, mask, height - 1, 2 * pos);
    BelowAgrees(txids, m2, mask, height - 1, 2 * pos + 1);
  }

  lemma {:induction false} BelowNothing(txids: seq<Hash>, mask: seq<bool>, height: nat, pos: nat)
    requires |txids| == |mask| && pos < Width(|txids|, height)
    requires forall p :: 0 <= p < |mask| ==> !mask[p]
    ensures Below(txids, mask, height, pos) == []
  {
    FlagIffBelow(txids, mask, height, pos);
    FlagIsAnyMatch(mask, height, pos);
  }

  /** The extraction from `c` gives the block's own node, and nothing collides below. */
  ghost predicate Genuine(hash: PairHash, txids: seq<Hash>, t: PartialTree, height: nat, pos: nat, c: Cursor)
    requires t.total == |txids| && pos < Width(|txids|, height)
  {
    && Extract(hash, t, height, pos, c).0 == CalcHash(hash, txids, height, pos)
    && !Extract(hash, t, height, pos, c).1.bad
    && CollisionFree(hash, txids, t, height, pos, c)
  }

  lemma {:induction false} GenuineChildren(hash: PairHash, txids: seq<Hash>, t: PartialTree, height: nat, pos: nat, c: Cursor)
    requires t.total == |txids| && pos < Width(|txids|, height)
    requires Genuine(hash, txids, t, height, pos, c)
    requires height > 0 && c.bitsUsed < |t.bits| && t.bits[c.bitsUsed]
    ensures
      var c1 := c.(bitsUsed := c.bitsUsed + 1);
      var c2 := Extract(hash, t, height - 1, 2 * pos, c1).1;
      && Genuine(hash, txids, t, height - 1, 2 * pos, c1)
      && if 2 * pos + 1 < Width(|txids|, height - 1)
         then Genuine(hash, txids, t, height - 1, 2 * pos + 1, c2)
           && Extract(hash, t, height, pos, c).1 == Extract(hash, t, height - 1, 2 * pos + 1, c2).1
         else Extract(hash, t, height, pos, c).1 == c2
  {
    var c1 := c.(bitsUsed := c.bitsUsed + 1);
    BadStays(hash, t, height - 1, 2 * pos + 1, Extract(hash, t, height - 1, 2 * pos, c1).1);
  }

  lemma {:induction false} SoundStop(hash: PairHash, txids: seq<Hash>, t: PartialTree,
                                     height: nat, pos: nat, c: Cursor) returns (mask: seq<bool>)
    requires t.total == |txids| && pos < Width(|txids|, height)
    requires Genuine(hash, txids, t, height, pos, c)
    requires c.bitsUsed < |t.bits| && (height == 0 || !t.bits[c.bitsUsed])
    ensures |mask| == |txids|
    ensures Extract(hash, t, height, pos, c).1.matches == c.matches + Below(txids, mask, height, pos)
  {
    mask := seq(|txids|, i => height == 0 && t.bits[c.bitsUsed]);
    if !(height == 0 && t.bits[c.bitsUsed]) {
      BelowNothing(txids, mask, height, pos);
    }
  }

  lemma {:induction false} GenuineReads(hash: PairHash, txids: seq<Hash>, t: PartialTree, height: nat, pos: nat, c: Cursor)
    requires t.total == |txids| && pos < Width(|txids|, height)
    requires Genuine(hash, txids, t, height, pos, c)
    ensures c.bitsUsed < |t.bits|
    ensures height > 0 ==> 2 * pos < Width(|txids|, height - 1)
  {
  }

  lemma {:induction false} Reassociate<T>(a: seq<T>, b: seq<T>, c: seq<T>)
    ensures a + b + c == a + (b + c)
  {
  }

  lemma {:induction false} BelowOnly(txids: seq<Hash>, mask: seq<bool>, height: nat, pos: nat)
    requires |txids| == |mask| && height > 0 && pos < Width(|txids|, height)
    requires 2 * pos + 1 >= Width(|txids|, height - 1)
    ensures Below(txids, mask, height, pos) == Below(txids, mask, height - 1, 2 * pos)
  {
    assert Below(txids, mask, height - 1, 2 * pos) + [] == Below(txids, mask, height - 1, 2 * pos);
  }

  lemma {:induction false} ExtractSound(hash: PairHash, txids: seq<Hash>, t: PartialTree,
                                        height: nat, pos: nat, c: Cursor) returns (mask: seq<bool>)
    requires t.total == |txids| && pos < Width(|txids|, height)
    requires Genuine(hash, txids, t, height, pos, c)
    ensures |mask| == |txids|
    ensures Extract(hash, t, height, pos, c).1.matches == c.matches + Below(txids, mask, height, pos)
    decreases height
  {
    hide Genuine, Extract, Below, Width, CalcHash;
    GenuineReads(hash, txids, t, height, pos, c);
    if height == 0 || !t.bits[c.bitsUsed] {
      mask := SoundStop(hash, txids, t, height, pos, c);
    } else {
      GenuineChildren(hash, txids, t, height, pos, c);
      var c1 := c.(bitsUsed := c.bitsUsed + 1);
      var c2 := Extract(hash, t, height - 1, 2 * pos, c1).1;
      var left := ExtractSound(hash, txids, t, height - 1, 2 * pos, c1);
      if 2 * pos + 1 < Width(|txids|, height - 1) {
        var right := ExtractSound(hash, txids, t, height - 1, 2 * pos + 1, c2);
        mask := JoinMasks(txids, left, right, height, pos);
        Reassociate(c.matches, Below(txids, left, height - 1, 2 * pos), Below(txids, right, height - 1, 2 * pos + 1));
      } else {
        mask := left;
        BelowOnly(txids, left, height, pos);
      }
    }
  }

  /** Extraction of the whole tree meets no collision. */
  ghost predicate NoCollision(hash: PairHash, txids: seq<Hash>, t: PartialTree, bad: bool)
    requires t.total == |txids| > 0
  {
    WholeTree(|txids|);
    CollisionFree(hash, txids, t, TreeHeight(|txids|), 0, Cursor(0, 0, [], bad))
  }

  /** Any partial tree at all, built by anyone, that declares the block's transaction count and
      extracts to the block's root yields a subsequence of the block's transaction ids, unless
      it exhibits a hash collision. */
  lemma {:induction false} Soundness(hash: PairHash, txids: seq<Hash>, t: PartialTree, bad: bool) returns (mask: seq<bool>)
    requires t.total == |txids| > 0
    requires MerkleRoot(hash, txids) != 0 && Judge(hash, t, bad).root == MerkleRoot(hash, txids)
    requires NoCollision(hash, txids, t, bad)
    ensures |mask| == |txids| && Judge(hash, t, bad).matches == Selected(txids, mask, 0, |txids|)
  {
    WholeTree(|txids|);
    mask := ExtractSound(hash, txids, t, TreeHeight(|txids|), 0, Cursor(0, 0, [], bad));
    BelowIsSelected(txids, mask, TreeHeight(|txids|), 0);
    assert [] + Selected(txids, mask, 0, |txids|) == Selected(txids, mask, 0, |txids|);
  }

  lemma {:induction false} ExtractMore(hash: PairHash, t: PartialTree, more: PartialTree, height: nat, pos: nat, c: Cursor)
    requires more.total == t.total && t.bits <= more.bits && t.hashes <= more.hashes
    requires !Extract(hash, t, height, pos, c).1.bad
    ensures Extract(hash, more, height, pos, c) == Extract(hash, t, height, pos, c)
    decreases height
  {
    if c.bitsUsed < |t.bits| {
      assert more.bits[c.bitsUsed] == t.bits[c.bitsUsed];
      if height > 0 && t.bits[c.bitsUsed] {
        var c1 := c.(bitsUsed := c.bitsUsed + 1);
        var c2 := Extract(hash, t, height - 1, 2 * pos, c1).1;
        BadStays(hash, t, height - 1, 2 * pos + 1, c2);
        ExtractMore(hash, t, more, height - 1, 2 * pos, c1);
        if 2 * pos + 1 < Width(t.total, height - 1) {
          ExtractMore(hash, t, more, height - 1, 2 * pos + 1, c2);
        }
      }
    }
  }

  /** Nothing may be left over: what begins with an accepted tree is accepted exactly when it has no more hashes and no more
      bytes of bits. */
  lemma {:induction false} NothingLeftOver(hash: PairHash, t: PartialTree, more: PartialTree, bad: bool)
    requires Judge(hash, t, bad).accepted
    requires more.total == t.total && t.bits <= more.bits && t.hashes <= more.hashes
    ensures Judge(hash, more, bad).accepted <==> |more.hashes| == |t.hashes| && (|more.bits| + 7) / 8 == (|t.bits| + 7) / 8
  {
    hide Extract;
    ExtractMore(hash, t, more, TreeHeight(t.total), 0, Cursor(0, 0, [], bad));
  }

  /** What an accepted tree must be: some transactions but not too many, no more hashes than transactions, at least one bit
      for each hash, and everything read. */
  lemma {:induction false} AcceptedReads(hash: PairHash, t: PartialTree, bad: bool)
    ensures var (root, c) := Extract(hash, t, TreeHeight(t.total), 0, Cursor(0, 0, [], bad));
            Judge(hash, t, bad).accepted <==>
            && 0 < t.total <= 33_333 && |t.hashes| <= t.total && |t.hashes| <= |t.bits|
            && !c.bad && c.hashUsed == |t.hashes| && (c.bitsUsed + 7) / 8 == (|t.bits| + 7) / 8
  {
    hide Extract;
  }

  /** The declared count is essential: with another count, an inner node passes for a transaction. */
  lemma {:induction false} WrongCountFoolsExtraction(hash: PairHash, a: Hash, b: Hash)
    requires hash(a, b) != a && hash(a, b) != b
    ensures MerkleRoot(hash, [a, b]) == hash(a, b)
    ensures Judge(hash, PartialTree(1, [true], [hash(a, b)]), false) == Verdict(hash(a, b), [hash(a, b)], true, false)
    ensures hash(a, b) !in [a, b]
  {
    assert Width(2, 1) == 1;
    assert TreeHeight(2) == 1;
    assert CalcHash(hash, [a, b], 1, 0) == hash(a, b);
  }

  /** The documented bound on the flag bits holds exactly when no level below the root that is odd has a match under its
      last node. */
  lemma {:induction false} DocumentedBitsIff(hash: PairHash, txids: seq<Hash>, mask: seq<bool>)
    requires 0 < |txids| == |mask|
    ensures var t := Built(hash, txids, mask);
            |t.bits| <= 2 * |t.hashes| - 1 <==> !OddMatchBelow(mask, TreeHeight(|mask|))
  {
    hide Built, OddMatchBelow, OnlyChildren;
    BuiltSize(hash, txids, mask);
    OnlyChildrenIff(mask, TreeHeight(|mask|), 0);
  }

  /** The documented "at most 2N - 1 bits" fails where a descended node has only one child. */
  lemma {:induction false} MoreBitsThanDocumented(hash: PairHash, a: Hash, b: Hash, c: Hash)
    ensures var t := Built(hash, [a, b, c], [false, false, true]);
      |t.hashes| == 2 && |t.bits| == 4 > 2 * |t.hashes| - 1
  {
    var mask := [false, false, true];
    BuiltSize(hash, [a, b, c], mask);
    assert Width(3, 1) == 2 && Width(3, 2) == 1;
    assert TreeHeight(3) == 2;
    assert Flag(mask, 1, 1) && !Flag(mask, 1, 0);
    assert Flag(mask, 2, 0);
    assert BuildHashes(hash, [a, b, c], mask, 1, 1) == [c];
    assert |BuildHashes(hash, [a, b, c], mask, 1, 0)| == 1;
    assert OnlyChildren(mask, 1, 1) == 1 && OnlyChildren(mask, 1, 0) == 0;
  }

  //////////////////////////////////////////////////////////////////////////////
  // Flag bits as bytes
  //////////////////////////////////////////////////////////////////////////////

  predicate FlagAt(b: bv8, k: nat)
    requires k < 8
  {
    b & (1 << k) != 0
  }

  lemma {:induction false} OrFlag(b: bv8, value: bool, k: nat, j: nat)
    requires k < 8 && j < 8
    ensures FlagAt(b | (if value then 1 << k else 0), j) == (FlagAt(b, j) || (value && j == k))
  {
  }

  /** Bit `p` of the stream is bit `p % 8` of byte `p / 8`; bits past the end are clear. */
  ghost predicate IsPacking(bits: seq<bool>, bytes: seq<bv8>) {
    && |bytes| == (|bits| + 7) / 8
    && forall p :: 0 <= p < 8 * |bytes| ==> FlagAt(bytes[p / 8], p % 8) == (p < |bits| && bits[p])
  }

  method PackBits(bits: seq<bool>) returns (bytes: seq<bv8>)
    ensures IsPacking(bits, bytes)
  {
    var size := (|bits| + 7) / 8;
    bytes := seq(size, i => 0);
    var p := 0;
    while p < |bits|
      invariant 0 <= p <= |bits| && |bytes| == size
      invariant forall q :: 0 <= q < 8 * size ==> FlagAt(bytes[q / 8], q % 8) == (q < p && bits[q])
    {
      var b := bytes[p / 8] | (if bits[p] then 1 << (p % 8) else 0);
      forall j | 0 <= j < 8 ensures FlagAt(b, j) == (FlagAt(bytes[p / 8], j) || (bits[p] && j == p % 8)) {
        OrFlag(bytes[p / 8], bits[p], p % 8, j);
      }
      SetBit(bytes, b, bits, p);
      bytes := bytes[p / 8 := b];
      p := p + 1;
    }
  }

  lemma {:induction false} SetBit(bytes: seq<bv8>, b: bv8, bits: seq<bool>, p: nat)
    requires p < |bits| && p / 8 < |bytes|
    requires forall q :: 0 <= q < 8 * |bytes| ==> FlagAt(bytes[q / 8], q % 8) == (q < p && q < |bits| && bits[q])
    requires forall j :: 0 <= j < 8 ==> FlagAt(b, j) == (FlagAt(bytes[p / 8], j) || (bits[p] && j == p % 8))
    ensures forall q :: 0 <= q < 8 * |bytes| ==>
      FlagAt(bytes[p / 8 := b][q / 8], q % 8) == (q < p + 1 && q < |bits| && bits[q])
  {
    forall q | 0 <= q < 8 * |bytes|
      ensures FlagAt(bytes[p / 8 := b][q / 8], q % 8) == (q < p + 1 && q < |bits| && bits[q])
    {
      assert q / 8 == p / 8 && q % 8 == p % 8 ==> q == p;
    }
  }

  method UnpackBits(bytes: seq<bv8>) returns (bits: seq<bool>)
    ensures |bits| == 8 * |bytes|
    ensures forall p :: 0 <= p < |bits| ==> bits[p] == FlagAt(bytes[p / 8], p % 8)
  {
    bits := [];
    var p := 0;
    while p < 8 * |bytes|
      invariant 0 <= p <= 8 * |bytes| && |bits| == p
      invariant forall q :: 0 <= q < p ==> bits[q] == FlagAt(bytes[q / 8], q % 8)
    {
      bits := bits + [FlagAt(bytes[p / 8], p % 8)];
      p := p + 1;
    }
  }

  //////////////////////////////////////////////////////////////////////////////
  // The object
  //////////////////////////////////////////////////////////////////////////////

  class PartialMerkleTree {
    const hash: PairHash
    var nTransactions: nat
    var vBits: seq<bool>
    var vHash: seq<Hash>
    var fBad: bool

    function Tree(): PartialTree
      reads this
    {
      PartialTree(nTransactions, vBits, vHash)
    }

    constructor FromMatches(hash: PairHash, vTxid: seq<Hash>, vMatch: seq<bool>)
      requires 0 < |vTxid| == |vMatch|
      ensures this.hash == hash && Tree() == Built(hash, vTxid, vMatch) && !fBad
    {
      this.hash := hash;
      nTransactions := |vTxid|;
      fBad := false;
      vBits := [];
      vHash := [];
      new;
      var height := ComputeHeight(nTransactions);
      TraverseAndBuild(height, 0, vTxid, vMatch);
    }

    /** Reading from the wire: any count, any hashes, any bytes. */
    constructor Unserialize(hash: PairHash, total: nat, hashes: seq<Hash>, bytes: seq<bv8>)
      ensures this.hash == hash && nTransactions == total && vHash == hashes && !fBad
      ensures forall bits :: IsPacking(bits, bytes) ==> Padded(PartialTree(total, bits, hashes), Tree())
    {
      this.hash := hash;
      nTransactions := total;
      vHash := hashes;
      fBad := false;
      var bits := UnpackBits(bytes);
      vBits := bits;
    }

    method ParentOfMatch(height: nat, pos: nat, vMatch: seq<bool>) returns (flag: bool)
      requires nTransactions == |vMatch| && pos < Width(|vMatch|, height)
      ensures flag == Flag(vMatch, height, pos)
    {
      FlagIsAnyMatch(vMatch, height, pos);
      flag := false;
      var p := First(height, pos);
      while p < (pos + 1) * Pow2(height) && p < nTransactions
        invariant First(height, pos) <= p <= End(nTransactions, height, pos)
        invariant flag == AnyMatch(vMatch, First(height, pos), p)
      {
        flag := flag || vMatch[p];
        p := p + 1;
      }
    }

    method TraverseAndBuild(height: nat, pos: nat, vTxid: seq<Hash>, vMatch: seq<bool>)
      requires nTransactions == |vTxid| == |vMatch| && pos < Width(|vMatch|, height)
      modifies this`vBits, this`vHash
      ensures vBits == old(vBits) + BuildBits(vMatch, height, pos)
      ensures vHash == old(vHash) + BuildHashes(hash, vTxid, vMatch, height, pos)
      decreases height
    {
      var flag := ParentOfMatch(height, pos, vMatch);
      vBits := vBits + [flag];
      if height == 0 || !flag {
        vHash := vHash + [CalcHash(hash, vTxid, height, pos)];
      } else {
        TraverseAndBuild(height - 1, 2 * pos, vTxid, vMatch);
        WidthFormula(nTransactions, height - 1);
        if 2 * pos + 1 < CalcTreeWidth(nTransactions, height - 1) {
          TraverseAndBuild(height - 1, 2 * pos + 1, vTxid, vMatch);
        }
        AppendChildren(old(vBits), flag, BuildBits(vMatch, height - 1, 2 * pos), RightBits(vMatch, height - 1, 2 * pos + 1));
        AppendTwo(old(vHash), BuildHashes(hash, vTxid, vMatch, height - 1, 2 * pos),
                  RightHashes(hash, vTxid, vMatch, height - 1, 2 * pos + 1));
      }
    }

    /** The reference parameters nBitsUsed, nHashUsed and vMatch are passed in and returned. */
    method TraverseAndExtract(height: nat, pos: nat, bitsUsed: nat, hashUsed: nat, matches: seq<Hash>)
      returns (node: Hash, nBitsUsed: nat, nHashUsed: nat, vMatch: seq<Hash>)
      modifies this`fBad
      ensures (node, Cursor(nBitsUsed, nHashUsed, vMatch, fBad))
           == Extract(hash, Tree(), height, pos, Cursor(bitsUsed, hashUsed, matches, old(fBad)))
      decreases height
    {
      nBitsUsed, nHashUsed, vMatch := bitsUsed, hashUsed, matches;
      if nBitsUsed >= |vBits| {
        fBad := true;
        return 0, nBitsUsed, nHashUsed, vMatch;
      }
      var flag := vBits[nBitsUsed];
      nBitsUsed := nBitsUsed + 1;
      if height == 0 || !flag {
        if nHashUsed >= |vHash| {
          fBad := true;
          return 0, nBitsUsed, nHashUsed, vMatch;
        }
        node := vHash[nHashUsed];
        nHashUsed := nHashUsed + 1;
        if height == 0 && flag {
          vMatch := vMatch + [node];
        }
      } else {
        var left, right;
        left, nBitsUsed, nHashUsed, vMatch := TraverseAndExtract(height - 1, 2 * pos, nBitsUsed, nHashUsed, vMatch);
        WidthFormula(nTransactions, height - 1);
        if 2 * pos + 1 < CalcTreeWidth(nTransactions, height - 1) {
          right, nBitsUsed, nHashUsed, vMatch := TraverseAndExtract(height - 1, 2 * pos + 1, nBitsUsed, nHashUsed, vMatch);
        } else {
          right := left;
        }
        node := hash(left, right);
      }
    }

    method ExtractMatches() returns (root: Hash, vMatch: seq<Hash>)
      modifies this`fBad
      ensures var v := Judge(hash, Tree(), old(fBad)); root == v.root && vMatch == v.matches && fBad == v.bad
    {
      vMatch := [];
      if nTransactions == 0 || nTransactions > MAX_TRANSACTIONS || |vHash| > nTransactions || |vBits| < |vHash| {
        return 0, vMatch;
      }
      var height := ComputeHeight(nTransactions);
      var nBitsUsed, nHashUsed;
      root, nBitsUsed, nHashUsed, vMatch := TraverseAndExtract(height, 0, 0, 0, vMatch);
      if fBad || (nBitsUsed + 7) / 8 != (|vBits| + 7) / 8 || nHashUsed != |vHash| {
        root := 0;
      }
    }
  }

  lemma {:induction false} AppendTwo<T>(s: seq<T>, a: seq<T>, b: seq<T>)
    ensures (s + a) + b == s + (a + b)
    ensures s + [] == s
  {
  }

  lemma {:induction false} AppendChildren<T>(s: seq<T>, x: T, a: seq<T>, b: seq<T>)
    ensures ((s + [x]) + a) + b == s + ([x] + (a + b))
    ensures ((s + [x]) + a) + [] == (s + [x]) + a
  {
  }

  /** From sender to receiver: build, pack, unpack, extract. */
  method RelayMatches(hash: PairHash, vTxid: seq<Hash>, vMatch: seq<bool>) returns (root: Hash, matches: seq<Hash>)
    requires 0 < |vTxid| == |vMatch| && |vTxid| <= MAX_TRANSACTIONS
    ensures root == MerkleRoot(hash, vTxid)
    ensures matches == Selected(vTxid, vMatch, 0, |vTxid|)
  {
    var sent := new PartialMerkleTree.FromMatches(hash, vTxid, vMatch);
    var bytes := PackBits(sent.vBits);
    var received := new PartialMerkleTree.Unserialize(hash, sent.nTransactions, sent.vHash, bytes);
    RoundTrip(hash, vTxid, vMatch, received.Tree());
    root, matches := received.ExtractMatches();
  }
}
