/** The Merkle tree of a block in its two complete forms: the level-order array that
    `BuildMerkleTree` fills, and the recursive `CalcHash` over (height, position).
    The hash of a pair is a parameter, so every statement holds for any pair hash. */
module Merkle {
  import opened Arith
  import opened Common

  /** A 256-bit hash. Zero is the null hash. */
  type Hash = nat

  type PairHash = (Hash, Hash) -> Hash

  //////////////////////////////////////////////////////////////////////////////
  // Shape: width and height
  //////////////////////////////////////////////////////////////////////////////

  /** Number of nodes at a height: every level halves the one below, rounding up. */
  function Width(n: nat, height: nat): nat {
    if height == 0 then n else (Width(n, height - 1) + 1) / 2
  }

  /** The closed formula of the source for the same number. */
  function CalcTreeWidth(n: nat, height: nat): nat {
    (n + Pow2(height) - 1) / Pow2(height)
  }

  lemma {:induction false} Doubling(a: nat, p: nat)
    ensures 2 * a * p == a * (2 * p)
  {
  }

  /** A position is inside its level exactly when its first leaf exists. */
  lemma {:induction false} NodeExists(n: nat, height: nat, pos: nat)
    ensures pos < Width(n, height) <==> pos * Pow2(height) < n
  {
    if height > 0 {
      NodeExists(n, height - 1, 2 * pos);
      Doubling(pos, Pow2(height - 1));
    }
  }

  lemma {:induction false} CeilDiv(n: nat, p: nat, pos: nat)
    requires p > 0
    ensures pos < (n + p - 1) / p <==> pos * p < n
  {
    var q, r := (n + p - 1) / p, (n + p - 1) % p;
    assert n + p - 1 == q * p + r;
    if pos < q {
      assert pos * p <= (q - 1) * p;
    } else {
      assert pos * p >= q * p;
    }
  }

  /** The source's formula computes the width of a level. */
  lemma {:induction false} WidthFormula(n: nat, height: nat)
    ensures CalcTreeWidth(n, height) == Width(n, height)
  {
    var w, v := Width(n, height), CalcTreeWidth(n, height);
    NodeExists(n, height, v);
    CeilDiv(n, Pow2(height), v);
    NodeExists(n, height, w);
    CeilDiv(n, Pow2(height), w);
  }

  /** The height the source computes: the first one whose width is at most 1. */
  function HeightFrom(n: nat, height: nat): (h: nat)
    decreases Width(n, height)
  {
    if Width(n, height) > 1 then HeightFrom(n, height + 1) else height
  }

  function TreeHeight(n: nat): nat {
    HeightFrom(n, 0)
  }

  lemma {:induction false} WidthPositive(n: nat, height: nat)
    requires n > 0
    ensures Width(n, height) > 0
  {
    if height > 0 {
      WidthPositive(n, height - 1);
    }
  }

  lemma {:induction false} HeightFromBounds(n: nat, height: nat)
    ensures HeightFrom(n, height) >= height
    ensures Width(n, HeightFrom(n, height)) <= 1
    ensures n > 0 ==> Width(n, HeightFrom(n, height)) == 1
    decreases Width(n, height)
  {
    if Width(n, height) > 1 {
      HeightFromBounds(n, height + 1);
    } else if n > 0 {
      WidthPositive(n, height);
    }
  }

  /** The counting loop shared by the constructor and `ExtractMatches`. */
  method ComputeHeight(n: nat) returns (height: nat)
    ensures height == TreeHeight(n)
    ensures n > 0 ==> Width(n, height) == 1
  {
    height := 0;
    WidthFormula(n, 0);
    while CalcTreeWidth(n, height) > 1
      invariant HeightFrom(n, height) == TreeHeight(n)
      invariant CalcTreeWidth(n, height) == Width(n, height)
      decreases Width(n, height)
    {
      height := height + 1;
      WidthFormula(n, height);
    }
    HeightFromBounds(n, height);
  }

  //////////////////////////////////////////////////////////////////////////////
  // The recursive form
  //////////////////////////////////////////////////////////////////////////////

  function CalcHash(hash: PairHash, txids: seq<Hash>, height: nat, pos: nat): Hash
    requires pos < Width(|txids|, height)
    decreases height
  {
    if height == 0 then txids[pos]
    else
      var left := CalcHash(hash, txids, height - 1, 2 * pos);
      var right := if 2 * pos + 1 < Width(|txids|, height - 1)
                   then CalcHash(hash, txids, height - 1, 2 * pos + 1)
                   else left;
      hash(left, right)
  }

  /** The Merkle root of a block, by the recursive form; 0 for an empty block. */
  function MerkleRoot(hash: PairHash, txids: seq<Hash>): Hash {
    if txids == [] then 0
    else
      HeightFromBounds(|txids|, 0);
      CalcHash(hash, txids, TreeHeight(|txids|), 0)
  }

  //////////////////////////////////////////////////////////////////////////////
  // The level-order form
  //////////////////////////////////////////////////////////////////////////////

  /** The level above: pairs are hashed, a lone last node is paired with itself. */
  function NextLevel(hash: PairHash, level: seq<Hash>): (next: seq<Hash>)
    ensures |next| == (|level| + 1) / 2
  {
    if level == [] then []
    else if |level| == 1 then [hash(level[0], level[0])]
    else [hash(level[0], level[1])] + NextLevel(hash, level[2..])
  }

  lemma {:induction false} NextLevelAt(hash: PairHash, level: seq<Hash>, i: nat)
    requires 2 * i < |level|
    ensures NextLevel(hash, level)[i] == hash(level[2 * i], level[Min(2 * i + 1, |level| - 1)])
  {
    if i > 0 {
      NextLevelAt(hash, level[2..], i - 1);
    }
  }

  function LevelAt(hash: PairHash, txids: seq<Hash>, height: nat): seq<Hash> {
    if height == 0 then txids else NextLevel(hash, LevelAt(hash, txids, height - 1))
  }

  /** All levels from `level` to the root, one after the other. */
  function LevelOrder(hash: PairHash, level: seq<Hash>): (tree: seq<Hash>)
    ensures |tree| >= |level|
    decreases |level|
  {
    if |level| <= 1 then level else level + LevelOrder(hash, NextLevel(hash, level))
  }

  lemma {:induction false} LevelOrderParts(hash: PairHash, level: seq<Hash>)
    requires |level| > 1
    ensures LevelOrder(hash, level)[..|level|] == level
    ensures LevelOrder(hash, level)[|level|..] == LevelOrder(hash, NextLevel(hash, level))
    ensures forall i :: 0 <= i < |level| ==> LevelOrder(hash, level)[i] == level[i]
  {
  }

  lemma {:induction false} PrefixStep(hash: PairHash, done: seq<Hash>, level: seq<Hash>)
    requires |level| > 1
    ensures done + LevelOrder(hash, level) == (done + level) + LevelOrder(hash, NextLevel(hash, level))
  {
  }

  lemma {:induction false} LevelWidth(hash: PairHash, txids: seq<Hash>, height: nat)
    ensures |LevelAt(hash, txids, height)| == Width(|txids|, height)
  {
    if height > 0 {
      LevelWidth(hash, txids, height - 1);
    }
  }

  /** Every level of the array form holds the recursive hashes of its nodes. */
  lemma {:induction false} LevelIsCalcHash(hash: PairHash, txids: seq<Hash>, height: nat, pos: nat)
    requires pos < Width(|txids|, height)
    ensures |LevelAt(hash, txids, height)| == Width(|txids|, height)
    ensures LevelAt(hash, txids, height)[pos] == CalcHash(hash, txids, height, pos)
  {
    LevelWidth(hash, txids, height);
    if height > 0 {
      LevelIsCalcHash(hash, txids, height - 1, 2 * pos);
      if 2 * pos + 1 < Width(|txids|, height - 1) {
        LevelIsCalcHash(hash, txids, height - 1, 2 * pos + 1);
      }
      NextLevelAt(hash, LevelAt(hash, txids, height - 1), pos);
    }
  }

  /** The single node that a level reduces to. */
  function Top(hash: PairHash, level: seq<Hash>): Hash
    requires level != []
    decreases |level|
  {
    if |level| == 1 then level[0] else Top(hash, NextLevel(hash, level))
  }

  lemma {:induction false} TopIsLast(hash: PairHash, level: seq<Hash>)
    requires level != []
    ensures var tree := LevelOrder(hash, level); tree[|tree| - 1] == Top(hash, level)
    decreases |level|
  {
    if |level| > 1 {
      TopIsLast(hash, NextLevel(hash, level));
    }
  }

  lemma {:induction false} TopIsCalcHash(hash: PairHash, txids: seq<Hash>, height: nat)
    requires txids != []
    ensures LevelAt(hash, txids, height) != []
    ensures Width(|txids|, HeightFrom(|txids|, height)) == 1
    ensures Top(hash, LevelAt(hash, txids, height)) == CalcHash(hash, txids, HeightFrom(|txids|, height), 0)
    decreases Width(|txids|, height)
  {
    var n := |txids|;
    HeightFromBounds(n, height);
    WidthPositive(n, height);
    LevelIsCalcHash(hash, txids, height, 0);
    if Width(n, height) > 1 {
      TopIsCalcHash(hash, txids, height + 1);
    }
  }

  /** The last cell of the level-order array is the recursive root. */
  lemma {:induction false} LevelOrderRoot(hash: PairHash, txids: seq<Hash>)
    requires txids != []
    ensures var tree := LevelOrder(hash, txids);
            tree != [] && tree[|tree| - 1] == MerkleRoot(hash, txids)
    ensures Top(hash, txids) == MerkleRoot(hash, txids)
  {
    TopIsLast(hash, txids);
    TopIsCalcHash(hash, txids, 0);
  }

  //////////////////////////////////////////////////////////////////////////////
  // Branches
  //////////////////////////////////////////////////////////////////////////////

  /** Index of the sibling: `index ^ 1`. */
  function Sibling(index: nat): nat {
    if index % 2 == 0 then index + 1 else index - 1
  }

  function BranchOf(hash: PairHash, level: seq<Hash>, index: nat): (branch: seq<Hash>)
    decreases |level|
  {
    if |level| <= 1 then []
    else [level[Min(Sibling(index), |level| - 1)]] + BranchOf(hash, NextLevel(hash, level), index / 2)
  }

  function FoldBranch(hash: PairHash, node: Hash, branch: seq<Hash>, index: int): Hash
    decreases |branch|
  {
    if branch == [] then node
    else
      var up := if index % 2 == 1 then hash(branch[0], node) else hash(node, branch[0]);
      FoldBranch(hash, up, branch[1..], index / 2)
  }

  lemma {:induction false} NoBranch(hash: PairHash, level: seq<Hash>, index: nat)
    requires |level| <= 1
    ensures BranchOf(hash, level, index) == []
  {
  }

  lemma {:induction false} BranchStep(hash: PairHash, level: seq<Hash>, prefix: seq<Hash>, index: nat)
    requires |level| > 1
    ensures prefix + BranchOf(hash, level, index)
         == (prefix + [level[Min(Sibling(index), |level| - 1)]]) + BranchOf(hash, NextLevel(hash, level), index / 2)
  {
  }

  /** The leaf that an index leads to, in a level of the given width. Where a level is odd its last node stands for the
      missing one too, and only as many bits of the index count as the tree is high. */
  function Place(width: nat, index: int): (pos: nat)
    requires width > 0
    ensures pos < width
    decreases width
  {
    if width == 1 then 0 else Min(2 * Place((width + 1) / 2, index / 2) + index % 2, width - 1)
  }

  lemma {:induction false} PlaceInside(width: nat, index: nat)
    requires index < width
    ensures Place(width, index) == index
    decreases width
  {
    if width > 1 {
      PlaceInside((width + 1) / 2, index / 2);
    }
  }

  lemma {:induction false} PlaceStep(width: nat, index: int)
    requires width > 1
    ensures var pos, up := Place(width, index), Place((width + 1) / 2, index / 2);
            && pos / 2 == up && 2 * up < width
            && pos == (if index % 2 == 1 then Min(2 * up + 1, width - 1) else 2 * up)
            && Min(Sibling(pos), width - 1) == if index % 2 == 1 then 2 * up else Min(2 * up + 1, width - 1)
  {
  }

  /** The pair of nodes above the place of an index. */
  lemma {:induction false} PairAbove(hash: PairHash, level: seq<Hash>, index: int)
    requires |level| > 1
    ensures var pos, up := Place(|level|, index), Place((|level| + 1) / 2, index / 2);
            var left, right := level[2 * up], level[Min(2 * up + 1, |level| - 1)];
            && NextLevel(hash, level)[up] == hash(left, right)
            && BranchOf(hash, level, pos) == [if index % 2 == 1 then left else right] + BranchOf(hash, NextLevel(hash, level), up)
            && level[pos] == if index % 2 == 1 then right else left
  {
    hide Place, NextLevel;
    PlaceStep(|level|, index);
    NextLevelAt(hash, level, Place((|level| + 1) / 2, index / 2));
  }

  /** Folding the branch of the place of an index, from any level, leads to the top of that level's tree. */
  lemma {:induction false} BranchLeadsUp(hash: PairHash, level: seq<Hash>, index: int)
    requires level != []
    ensures var pos := Place(|level|, index);
            FoldBranch(hash, level[pos], BranchOf(hash, level, pos), index) == Top(hash, level)
    decreases |level|
  {
    if |level| > 1 {
      BranchLeadsUp(hash, NextLevel(hash, level), index / 2);
      PairAbove(hash, level, index);
    }
  }

  /** For every index, checking the branch of a transaction gives the block's root. */
  lemma {:induction false} BranchChecks(hash: PairHash, txids: seq<Hash>, index: nat)
    requires index < |txids|
    ensures FoldBranch(hash, txids[index], BranchOf(hash, txids, index), index) == MerkleRoot(hash, txids)
    ensures |BranchOf(hash, txids, index)| == TreeHeight(|txids|)
  {
    hide BranchOf, FoldBranch, LevelOrder;
    PlaceInside(|txids|, index);
    BranchLeadsUp(hash, txids, index);
    LevelOrderRoot(hash, txids);
    BranchLength(hash, txids, 0, index);
  }

  lemma {:induction false} BranchLength(hash: PairHash, txids: seq<Hash>, height: nat, index: nat)
    ensures |BranchOf(hash, LevelAt(hash, txids, height), index)| == HeightFrom(|txids|, height) - height
    decreases Width(|txids|, height)
  {
    LevelWidth(hash, txids, height);
    if Width(|txids|, height) > 1 {
      BranchLength(hash, txids, height + 1, index / 2);
      assert LevelAt(hash, txids, height + 1) == NextLevel(hash, LevelAt(hash, txids, height));
    }
  }

  /** The only pairs that matter for one branch: at each level the folded pair either
      is the tree's own pair or does not hash to the same node. */
  ghost predicate BranchCollisionFree(hash: PairHash, level: seq<Hash>, node: Hash, branch: seq<Hash>, index: int)
    requires level != []
    decreases |level|
  {
    |level| > 1 && branch != [] ==>
      var up := Place((|level| + 1) / 2, index / 2);
      var mine := if index % 2 == 1 then (branch[0], node) else (node, branch[0]);
      var stored := (level[2 * up], level[Min(2 * up + 1, |level| - 1)]);
      && (hash(mine.0, mine.1) == hash(stored.0, stored.1) ==> mine == stored)
      && BranchCollisionFree(hash, NextLevel(hash, level), hash(mine.0, mine.1), branch[1..], index / 2)
  }

  lemma {:induction false} FoldBinds(hash: PairHash, level: seq<Hash>, node: Hash, branch: seq<Hash>, index: int)
    requires level != [] && |branch| == |BranchOf(hash, level, Place(|level|, index))|
    requires BranchCollisionFree(hash, level, node, branch, index)
    requires FoldBranch(hash, node, branch, index) == Top(hash, level)
    ensures node == level[Place(|level|, index)]
    ensures branch == BranchOf(hash, level, Place(|level|, index))
    decreases |level|
  {
    if |level| > 1 {
      PairAbove(hash, level, index);
      var mine := if index % 2 == 1 then (branch[0], node) else (node, branch[0]);
      FoldBinds(hash, NextLevel(hash, level), hash(mine.0, mine.1), branch[1..], index / 2);
      assert branch == [branch[0]] + branch[1..];
    }
  }

  /** Whatever the index, a branch of the tree's height folds to the block's root exactly for the transaction at the
      place of the index and that place's own branch, unless it exhibits a hash collision. */
  lemma {:induction false} BranchBinds(hash: PairHash, txids: seq<Hash>, txid: Hash, branch: seq<Hash>, index: int)
    requires txids != [] && |branch| == TreeHeight(|txids|)
    requires BranchCollisionFree(hash, txids, txid, branch, index)
    ensures var pos := Place(|txids|, index);
            FoldBranch(hash, txid, branch, index) == MerkleRoot(hash, txids) <==>
            txid == txids[pos] && branch == BranchOf(hash, txids, pos)
    ensures Place(|txids|, index) == index <==> 0 <= index < |txids|
  {
    hide BranchOf, FoldBranch, LevelOrder, BranchCollisionFree, Place;
    var pos := Place(|txids|, index);
    BranchChecks(hash, txids, pos);
    BranchLeadsUp(hash, txids, index);
    LevelOrderRoot(hash, txids);
    if 0 <= index < |txids| {
      PlaceInside(|txids|, index);
    }
    if FoldBranch(hash, txid, branch, index) == MerkleRoot(hash, txids) {
      FoldBinds(hash, txids, txid, branch, index);
    }
  }

  lemma {:induction false} SameNextLevel(hash: PairHash, level: seq<Hash>)
    requires |level| % 2 == 1
    ensures NextLevel(hash, level + [level[|level| - 1]]) == NextLevel(hash, level)
  {
    if |level| > 1 {
      SameNextLevel(hash, level[2..]);
      assert (level + [level[|level| - 1]])[2..] == level[2..] + [level[|level| - 1]];
    }
  }

  /** A block with an odd number of transactions, more than one, has the root of the block that repeats the last one; and
      the first index past its end passes for the last transaction. */
  lemma {:induction false} DuplicateTail(hash: PairHash, txids: seq<Hash>)
    requires |txids| % 2 == 1 && |txids| > 1
    ensures var n := |txids|;
            && MerkleRoot(hash, txids + [txids[n - 1]]) == MerkleRoot(hash, txids)
            && FoldBranch(hash, txids[n - 1], BranchOf(hash, txids, n - 1), n) == MerkleRoot(hash, txids)
  {
    hide FoldBranch, BranchOf, LevelOrder;
    var n := |txids|;
    SameNextLevel(hash, txids);
    LevelOrderRoot(hash, txids);
    LevelOrderRoot(hash, txids + [txids[n - 1]]);
    PlaceInside((n + 1) / 2, n / 2);
    assert Place(n, n) == n - 1;
    BranchLeadsUp(hash, txids, n);
  }

  //////////////////////////////////////////////////////////////////////////////
  // The block's cached tree
  //////////////////////////////////////////////////////////////////////////////

  /** The part of a block that the Merkle functions use: its transaction ids and the
      cached level-order array. */
  class Block {
    const hash: PairHash
    const txids: seq<Hash>
    var vMerkleTree: seq<Hash>

    /** The cache is empty or up to date. */
    ghost predicate Valid()
      reads this
    {
      vMerkleTree == [] || vMerkleTree == LevelOrder(hash, txids)
    }

    constructor (hash: PairHash, txids: seq<Hash>)
      ensures Valid() && vMerkleTree == [] && this.hash == hash && this.txids == txids
    {
      this.hash := hash;
      this.txids := txids;
      vMerkleTree := [];
    }

    /** The inner loop of `BuildMerkleTree`: append the level above the last one. */
    method PushNextLevel(j: nat, size: nat)
      requires j + size == |vMerkleTree|
      modifies this
      ensures vMerkleTree == old(vMerkleTree) + NextLevel(hash, old(vMerkleTree)[j..])
    {
      ghost var before := vMerkleTree;
      ghost var next := NextLevel(hash, before[j..]);
      var i := 0;
      while i < size
        invariant 0 <= i && i / 2 <= |next| && i % 2 == 0 && i <= size + 1
        invariant vMerkleTree == before + next[..i / 2]
      {
        var i2 := Min(i + 1, size - 1);
        NextLevelAt(hash, before[j..], i / 2);
        vMerkleTree := vMerkleTree + [hash(vMerkleTree[j + i], vMerkleTree[j + i2])];
        i := i + 2;
      }
      assert next[..i / 2] == next;
    }

    method BuildMerkleTree() returns (root: Hash)
      modifies this
      ensures Valid() && vMerkleTree == LevelOrder(hash, txids)
      ensures root == MerkleRoot(hash, txids)
    {
      vMerkleTree := txids;
      var j := 0;
      var size := |txids|;
      ghost var done, level := [], txids;
      while size > 1
        invariant |done| == j && |level| == size
        invariant vMerkleTree == done + level
        invariant done + LevelOrder(hash, level) == LevelOrder(hash, txids)
        decreases size
      {
        assert vMerkleTree[j..] == level;
        PushNextLevel(j, size);
        PrefixStep(hash, done, level);
        j := j + size;
        size := (size + 1) / 2;
        done, level := done + level, NextLevel(hash, level);
      }
      if txids != [] {
        LevelOrderRoot(hash, txids);
      }
      root := if vMerkleTree == [] then 0 else vMerkleTree[|vMerkleTree| - 1];
    }

    method GetMerkleBranch(index: nat) returns (branch: seq<Hash>)
      requires Valid()
      modifies this
      ensures Valid()
      ensures branch == BranchOf(hash, txids, index)
    {
      hide BranchOf, LevelOrder, NextLevel, Sibling;
      if vMerkleTree == [] {
        var _ := BuildMerkleTree();
      }
      branch := [];
      var k := index;
      var j := 0;
      var size := |txids|;
      ghost var level := txids;
      while size > 1
        invariant Valid() && 0 <= j <= |vMerkleTree| && size == |level|
        invariant vMerkleTree[j..] == LevelOrder(hash, level)
        invariant branch + BranchOf(hash, level, k) == BranchOf(hash, txids, index)
        decreases size
      {
        var i := Min(Sibling(k), size - 1);
        LevelOrderParts(hash, level);
        BranchStep(hash, level, branch, k);
        assert vMerkleTree[j + i] == vMerkleTree[j..][i];
        assert vMerkleTree[j + size..] == vMerkleTree[j..][size..];
        branch := branch + [vMerkleTree[j + i]];
        k := k / 2;
        j := j + size;
        size := (size + 1) / 2;
        level := NextLevel(hash, level);
      }
      NoBranch(hash, level, k);
    }
  }

  /** `CheckMerkleBranch`: index -1 stands for "not in a block" and gives the null hash. */
  method CheckMerkleBranch(hash: PairHash, txid: Hash, branch: seq<Hash>, index: int) returns (root: Hash)
    ensures root == if index == -1 then 0 else FoldBranch(hash, txid, branch, index)
  {
    if index == -1 {
      return 0;
    }
    root := txid;
    var k := index;
    var i := 0;
    while i < |branch|
      invariant 0 <= i <= |branch|
      invariant FoldBranch(hash, root, branch[i..], k) == FoldBranch(hash, txid, branch, index)
    {
      assert branch[i..][1..] == branch[i + 1..];
      root := if k % 2 == 1 then hash(branch[i], root) else hash(root, branch[i]);
      k := k / 2;
      i := i + 1;
    }
  }
}
