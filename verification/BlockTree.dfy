/** The block tree: ancestors, forks, and the forward links along the path to a tip. */
module BlockTree {

  /** An entry of the block index. Parents and trust never change, so entries are values; a block
      without a parent is a root (the genesis block is one). */
  datatype Node =
    | Root(hash: nat, nChainTrust: int)
    | Child(hash: nat, pprev: Node, nChainTrust: int)

  /** A pointer that may be null. */
  datatype Pointer = Null | To(node: Node)

  function Height(n: Node): nat {
    match n
    case Root(_, _) => 0
    case Child(_, p, _) => Height(p) + 1
  }

  /** `a` is `n` or one of its ancestors. */
  predicate IsAncestor(a: Node, n: Node) {
    a == n || (n.Child? && IsAncestor(a, n.pprev))
  }

  //////////////////////////////////////////////////////////////////////////////
  // Ancestors
  //////////////////////////////////////////////////////////////////////////////

  lemma {:induction false} AncestorHeight(a: Node, n: Node)
    requires IsAncestor(a, n)
    ensures Height(a) <= Height(n)
    ensures Height(a) == Height(n) ==> a == n
  {
    if a != n {
      AncestorHeight(a, n.pprev);
    }
  }

  lemma {:induction false} AncestorTrans(a: Node, b: Node, c: Node)
    requires IsAncestor(a, b) && IsAncestor(b, c)
    ensures IsAncestor(a, c)
  {
    if b != c {
      AncestorTrans(a, b, c.pprev);
    }
  }

  /** The ancestors of one block lie on a line. */
  lemma {:induction false} AncestorsAreOrdered(a: Node, b: Node, n: Node)
    requires IsAncestor(a, n) && IsAncestor(b, n)
    ensures Height(a) <= Height(b) ==> IsAncestor(a, b)
  {
    if b != n {
      AncestorHeight(b, n.pprev);
      if a != n {
        AncestorsAreOrdered(a, b, n.pprev);
      }
    }
  }

  /** The blocks from `from` back to `stop`, `stop` excluded. */
  function Branch(from: Node, stop: Node): seq<Node>
    requires IsAncestor(stop, from)
  {
    if from == stop then [] else [from] + Branch(from.pprev, stop)
  }

  lemma {:induction false} InBranch(from: Node, stop: Node, n: Node)
    requires IsAncestor(stop, from)
    ensures n in Branch(from, stop) <==> IsAncestor(n, from) && !IsAncestor(n, stop)
  {
    if from == stop {
    } else {
      InBranch(from.pprev, stop, n);
      AncestorHeight(stop, from.pprev);
      if IsAncestor(from, stop) {
        AncestorHeight(from, stop);
      }
    }
  }

  /** Where two branches split: the last block they share. */
  ghost predicate IsFork(f: Node, a: Node, b: Node) {
    && IsAncestor(f, a) && IsAncestor(f, b)
    && forall n :: IsAncestor(n, a) && IsAncestor(n, b) ==> IsAncestor(n, f)
  }

  ghost predicate Unrelated(a: Node, b: Node) {
    forall n :: !(IsAncestor(n, a) && IsAncestor(n, b))
  }

  /** Every common ancestor of the two blocks is still above both walkers. */
  ghost predicate Walking(a: Node, b: Node, x: Node, y: Node) {
    && IsAncestor(x, a) && IsAncestor(y, b)
    && forall n :: IsAncestor(n, a) && IsAncestor(n, b) ==> IsAncestor(n, x) && IsAncestor(n, y)
  }

  lemma {:induction false} WalkHigher(a: Node, b: Node, x: Node, y: Node)
    requires Walking(a, b, x, y) && x != y && y.Child?
    requires Height(y) >= Height(x)
    ensures Walking(a, b, x, y.pprev)
  {
    AncestorTrans(y.pprev, y, b);
    forall n | IsAncestor(n, a) && IsAncestor(n, b) ensures IsAncestor(n, y.pprev) {
      AncestorHeight(n, x);
    }
  }

  lemma {:induction false} WalkSwap(a: Node, b: Node, x: Node, y: Node)
    requires Walking(a, b, x, y)
    ensures Walking(b, a, y, x)
  {
  }

  /** The search for the fork in `Reorganize`. */
  method FindFork(best: Node, pindexNew: Node) returns (ok: bool, pfork: Node)
    ensures ok ==> IsFork(pfork, best, pindexNew)
    ensures !ok ==> Unrelated(best, pindexNew)
  {
    pfork := best;
    var plonger := pindexNew;
    assert Walking(best, pindexNew, pfork, plonger);
    while pfork != plonger
      invariant Walking(best, pindexNew, pfork, plonger)
      decreases Height(pfork) + Height(plonger)
    {
      while Height(plonger) > Height(pfork)
        invariant Walking(best, pindexNew, pfork, plonger)
        invariant Height(plonger) >= Height(pfork) || pfork != plonger
        decreases Height(plonger)
      {
        WalkHigher(best, pindexNew, pfork, plonger);
        plonger := plonger.pprev;
      }
      if pfork == plonger {
        break;
      }
      if pfork.Root? {
        NoCommonRoot(best, pindexNew, pfork, plonger);
        return false, pfork;
      }
      WalkSwap(best, pindexNew, pfork, plonger);
      WalkHigher(pindexNew, best, plonger, pfork);
      pfork := pfork.pprev;
      WalkSwap(pindexNew, best, plonger, pfork);
    }
    ok := true;
  }

  lemma {:induction false} NoCommonRoot(a: Node, b: Node, x: Node, y: Node)
    requires Walking(a, b, x, y) && x != y && x.Root? && Height(y) <= Height(x)
    ensures Unrelated(a, b)
  {
    forall n ensures !(IsAncestor(n, a) && IsAncestor(n, b)) {
      if IsAncestor(n, a) && IsAncestor(n, b) {
        AncestorHeight(n, y);
      }
    }
  }

  /** The same blocks in the order in which they are connected. */
  function Ascent(from: Node, stop: Node): seq<Node>
    requires IsAncestor(stop, from)
  {
    if from == stop then [] else Ascent(from.pprev, stop) + [from]
  }

  lemma {:induction false} BranchStep(from: Node, stop: Node, i: nat)
    requires IsAncestor(stop, from) && i < |Branch(from, stop)|
    ensures var v := Branch(from, stop);
      v[0] == from && v[i].Child? && v[i].pprev == if i + 1 < |v| then v[i + 1] else stop
  {
    if i > 0 {
      BranchStep(from.pprev, stop, i - 1);
    }
  }

  lemma {:induction false} AscentStep(from: Node, stop: Node, i: nat)
    requires IsAncestor(stop, from) && i < |Ascent(from, stop)|
    ensures var v := Ascent(from, stop);
      v[|v| - 1] == from && v[i].Child? && v[i].pprev == if i > 0 then v[i - 1] else stop
  {
    if i < |Ascent(from, stop)| - 1 {
      AscentStep(from.pprev, stop, i);
    } else if i > 0 {
      AscentStep(from.pprev, stop, i - 1);
    }
  }

  lemma {:induction false} NoBranch(from: Node, stop: Node)
    requires IsAncestor(stop, from)
    ensures Branch(from, stop) == [] <==> from == stop
    ensures Ascent(from, stop) == [] <==> from == stop
  {
  }

  lemma {:induction false} OnThePath(from: Node, stop: Node, i: nat)
    requires IsAncestor(stop, from) && i < |Ascent(from, stop)|
    ensures IsAncestor(stop, Ascent(from, stop)[i]) && IsAncestor(Ascent(from, stop)[i], from)
  {
    if i < |Ascent(from, stop)| - 1 {
      OnThePath(from.pprev, stop, i);
    }
  }

  lemma {:induction false} InAscent(from: Node, stop: Node, n: Node)
    requires IsAncestor(stop, from)
    ensures n in Ascent(from, stop) <==> n in Branch(from, stop)
  {
    if from != stop {
      InAscent(from.pprev, stop, n);
    }
  }

  //////////////////////////////////////////////////////////////////////////////
  // Forward links
  //////////////////////////////////////////////////////////////////////////////

  /** The forward links are exactly the path from the root to the tip. */
  ghost predicate Linked(pnext: map<Node, Node>, tip: Node) {
    && (forall n :: n in pnext <==> IsAncestor(n, tip) && n != tip)
    && (forall n :: n in pnext ==> pnext[n].Child? && pnext[n].pprev == n && IsAncestor(pnext[n], tip))
  }

  lemma {:induction false} Retreat(pnext: map<Node, Node>, tip: Node)
    requires Linked(pnext, tip) && tip.Child?
    ensures Linked(pnext - {tip.pprev}, tip.pprev)
  {
    var links := pnext - {tip.pprev};
    forall n ensures n in links <==> IsAncestor(n, tip.pprev) && n != tip.pprev {
      if n == tip && IsAncestor(tip, tip.pprev) {
        AncestorHeight(tip, tip.pprev);
      }
    }
    forall n | n in links ensures IsAncestor(links[n], tip.pprev) {
      AncestorHeight(n, tip.pprev);
    }
  }

  lemma {:induction false} Advance(pnext: map<Node, Node>, tip: Node, child: Node)
    requires Linked(pnext, tip) && child.Child? && child.pprev == tip
    ensures Linked(pnext[tip := child], child)
  {
    forall n ensures n in pnext[tip := child] <==> IsAncestor(n, child) && n != child {
      if IsAncestor(n, tip) {
        AncestorHeight(n, tip);
      }
    }
  }

  /** The block of the path to `tip` at a height. */
  function AncestorAt(tip: Node, h: nat): (a: Node)
    requires h <= Height(tip)
    ensures IsAncestor(a, tip) && Height(a) == h
  {
    if Height(tip) == h then tip else AncestorAt(tip.pprev, h)
  }

  function Abs(x: int): nat {
    if x < 0 then -x else x
  }

  lemma {:induction false} SameHeight(a: Node, b: Node, n: Node)
    requires IsAncestor(a, n) && IsAncestor(b, n) && Height(a) == Height(b)
    ensures a == b
  {
    AncestorsAreOrdered(a, b, n);
    AncestorHeight(a, b);
  }

  lemma {:induction false} BranchMore(from: Node, stop: Node)
    requires IsAncestor(stop, from) && stop.Child?
    ensures IsAncestor(stop.pprev, from) && Branch(from, stop.pprev) == Branch(from, stop) + [stop]
  {
    AncestorTrans(stop.pprev, stop, from);
    if from == stop.pprev {
      AncestorHeight(stop, from);
    } else if from != stop {
      BranchMore(from.pprev, stop);
    }
  }

  /** Two blocks with a common ancestor have the same root. */
  lemma {:induction false} SameRoot(root: Node, a: Node, b: Node)
    requires root.Root? && IsAncestor(root, a) && !Unrelated(a, b)
    ensures IsAncestor(root, b)
  {
    var n :| IsAncestor(n, a) && IsAncestor(n, b);
    AncestorsAreOrdered(root, n, a);
    AncestorTrans(root, n, b);
  }

  /** The two branches below the fork are what the tips do not share. */
  lemma {:induction false} ForkSplits(f: Node, a: Node, b: Node)
    requires IsFork(f, a, b)
    ensures IsAncestor(f, a) && IsAncestor(f, b)
    ensures !Unrelated(a, b)
    ensures forall n :: n in Branch(a, f) <==> IsAncestor(n, a) && !IsAncestor(n, b)
    ensures forall n :: n in Ascent(b, f) <==> IsAncestor(n, b) && !IsAncestor(n, a)
  {
    forall n ensures n in Branch(a, f) <==> IsAncestor(n, a) && !IsAncestor(n, b) {
      InBranch(a, f, n);
      if IsAncestor(n, f) {
        AncestorTrans(n, f, b);
      }
    }
    forall n ensures n in Ascent(b, f) <==> IsAncestor(n, b) && !IsAncestor(n, a) {
      InAscent(b, f, n);
      InBranch(b, f, n);
      if IsAncestor(n, f) {
        AncestorTrans(n, f, a);
      }
    }
  }

  method ListDisconnect(from: Node, pfork: Node) returns (v: seq<Node>)
    requires IsAncestor(pfork, from)
    ensures v == Branch(from, pfork)
  {
    v := [];
    var pindex := from;
    while pindex != pfork
      invariant IsAncestor(pfork, pindex) && v + Branch(pindex, pfork) == Branch(from, pfork)
      decreases pindex
    {
      assert v + Branch(pindex, pfork) == (v + [pindex]) + Branch(pindex.pprev, pfork);
      v := v + [pindex];
      pindex := pindex.pprev;
    }
  }

  /** Collected backwards and reversed, that is, each block put in front. */
  method ListConnect(from: Node, pfork: Node) returns (v: seq<Node>)
    requires IsAncestor(pfork, from)
    ensures v == Ascent(from, pfork)
  {
    v := [];
    var pindex := from;
    while pindex != pfork
      invariant IsAncestor(pfork, pindex) && Ascent(pindex, pfork) + v == Ascent(from, pfork)
      decreases pindex
    {
      assert Ascent(pindex, pfork) + v == Ascent(pindex.pprev, pfork) + ([pindex] + v);
      v := [pindex] + v;
      pindex := pindex.pprev;
    }
  }
}
