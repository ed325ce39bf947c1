/** The choice of the best chain: the index and the forward links follow the path to the tip. */
module Reorganisation {
  import opened TxIndexing
  import opened MoneySupply
  import opened ChainState
  import opened BlockChain
  import opened FreshIds
  import opened BlockTree

  /** What belongs to the entries of the block index: the block and what the rules know of its place. The ids identify
      transactions, and coinbases start with their heights. */
  datatype Tree = Tree(blockOf: Node -> Block, contextOf: Node -> Context, rules: Rules, disk: Disk, ids: Ids)

  //////////////////////////////////////////////////////////////////////////////
  // Paths
  //////////////////////////////////////////////////////////////////////////////

  /** The chain that connecting the path to a block gives; the root is not connected. */
  ghost function LinksOf(t: Tree, n: Node): (links: seq<Link>)
    ensures |links| == Height(n)
  {
    match n
    case Root(_, _) => []
    case Child(_, p, _) =>
      var links := LinksOf(t, p);
      links + [LinkOnto(t, links, n)]
  }

  ghost function LinkOnto(t: Tree, links: seq<Link>, n: Node): Link {
    var b := t.blockOf(n);
    Link(b, Total(ConnectTxs(Replay(links, |links|), b, |b.vtx|), t.disk))
  }

  /** Every block of the path is accepted onto the path below it. */
  ghost predicate Accepted(t: Tree, n: Node) {
    match n
    case Root(_, _) => true
    case Child(_, p, _) => Accepted(t, p) && AcceptedOnto(t, LinksOf(t, p), n)
  }

  ghost predicate AcceptedOnto(t: Tree, links: seq<Link>, n: Node) {
    Accepts(t.rules, Replay(links, |links|), t.disk, t.blockOf(n), t.contextOf(n), TipSupply(links))
  }

  /** The last block of the path that is accepted with everything below it. */
  ghost function LastAccepted(t: Tree, n: Node): (a: Node)
    ensures IsAncestor(a, n) && Accepted(t, a)
    ensures a == n <==> Accepted(t, n)
  {
    if Accepted(t, n) then n else LastAccepted(t, n.pprev)
  }

  /** What `AcceptBlock` has seen to for every block of the tree: it is stored, and keeps the rule for coinbases. */
  ghost predicate Placed(t: Tree, n: Node) {
    match n
    case Root(_, _) => true
    case Child(_, p, _) => Placed(t, p) && OnDisk(t.blockOf(n), t.disk) && Ruled(t.ids, t.blockOf(n), Height(n))
  }

  lemma {:induction false} AcceptedBelow(t: Tree, a: Node, n: Node)
    requires IsAncestor(a, n)
    ensures Accepted(t, n) ==> Accepted(t, a)
    ensures Placed(t, n) ==> Placed(t, a)
  {
    if a != n {
      AcceptedBelow(t, a, n.pprev);
    }
  }

  /** Every accepted ancestor lies at or before the last one. */
  lemma {:induction false} AcceptedUpTo(t: Tree, a: Node, n: Node)
    requires IsAncestor(a, n) && Accepted(t, a)
    ensures IsAncestor(a, LastAccepted(t, n))
  {
    if !Accepted(t, n) {
      AcceptedUpTo(t, a, n.pprev);
    }
  }

  /** The first block of the new branch that has to be connected at once: from the new block back while the parent alone
      outweighs the best chain. */
  function Intermediate(best: Node, n: Node): (m: Node)
    ensures IsAncestor(m, n)
    ensures m.Root? || m.pprev.nChainTrust <= best.nChainTrust
    ensures forall a :: IsAncestor(a, n) && !IsAncestor(a, m) ==> a.Child? && a.pprev.nChainTrust > best.nChainTrust
  {
    if n.Child? && n.pprev.nChainTrust > best.nChainTrust then Intermediate(best, n.pprev) else n
  }

  /** The block whose connection decides: a direct child itself. */
  function Urgent(best: Node, n: Node): (m: Node)
    requires n.Child?
    ensures IsAncestor(m, n)
  {
    if n.pprev == best then n else Intermediate(best, n)
  }

  //////////////////////////////////////////////////////////////////////////////
  // The index along a path
  //////////////////////////////////////////////////////////////////////////////

  /** The chain has connected exactly the path to a block. */
  ghost predicate At(t: Tree, c: Chain, n: Node)
    reads c
  {
    && c.Valid() && c.disk == t.disk && c.rules == t.rules
    && c.links == LinksOf(t, n) && Accepted(t, n) && Placed(t, n)
  }

  /** The index is then the replay of the path, and the recorded supply its total. */
  lemma {:induction false} IndexAt(t: Tree, c: Chain, n: Node)
    requires At(t, c, n)
    ensures c.txdb == Replay(LinksOf(t, n), Height(n))
    ensures TipSupply(LinksOf(t, n)) == Total(c.txdb, t.disk)
  {
    hide Total, Replay, LinksOf;
    IndexIsReplay(c, |c.links|);
    TipIsSound(c);
  }

  lemma {:induction false} BlocksRuled(t: Tree, n: Node, i: nat)
    requires Placed(t, n) && i < Height(n)
    ensures Ruled(t.ids, LinksOf(t, n)[i].block, i + 1)
  {
    hide Ruled, LinkOnto;
    if i < Height(n) - 1 {
      BlocksRuled(t, n.pprev, i);
    } else {
      SameBlock(t, LinksOf(t, n.pprev), n);
    }
  }

  lemma {:induction false} SameBlock(t: Tree, links: seq<Link>, n: Node)
    ensures LinkOnto(t, links, n).block == t.blockOf(n)
  {
  }

  lemma {:induction false} PathIsRuled(t: Tree, c: Chain, n: Node)
    requires At(t, c, n)
    ensures RuledChain(t.ids, c.links)
  {
    hide Ruled, LinksOf, Replay, Connected, Sound, Accepted, Placed;
    forall i | 0 <= i < |c.links|
      ensures Ruled(t.ids, c.links[i].block, i + 1) && Connected(c.links[i].block, Replay(c.links, i), Replay(c.links, i + 1))
    {
      BlocksRuled(t, n, i);
      IndexIsReplay(c, i);
      IndexIsReplay(c, i + 1);
    }
  }

  method StepBack(c: Chain, ghost t: Tree, ghost n: Node)
    requires At(t, c, n) && n.Child?
    modifies c
    ensures At(t, c, n.pprev)
  {
    hide Total, Replay, Accepts, Connected, Sound, LinkOnto;
    assert LinksOf(t, n)[..Height(n) - 1] == LinksOf(t, n.pprev);
    var ok := c.DisconnectTip();
  }

  /** The next block is connected exactly when its whole path is accepted; its ids are then fresh. */
  method StepForward(c: Chain, t: Tree, n: Node) returns (ok: bool)
    requires n.Child? && At(t, c, n.pprev) && Placed(t, n)
    modifies c
    ensures ok <==> Accepted(t, n)
    ensures if ok then At(t, c, n) else At(t, c, n.pprev) && c.txdb == old(c.txdb)
  {
    hide Total, Replay, Accepts, Connected, Sound, Fresh, Ruled, OnDisk;
    IndexAt(t, c, n.pprev);
    PathIsRuled(t, c, n.pprev);
    assert c.Supply(|c.links|) == TipSupply(c.links);
    ghost var links := c.links;
    ok := c.ConnectTip(t.blockOf(n), t.contextOf(n));
    if ok {
      AcceptedIsFresh(t.ids, links, t.rules, t.disk, t.blockOf(n), t.contextOf(n), TipSupply(links));
    }
  }

  /** Everything down to the fork is disconnected and everything up to the new block connected, until one fails. */
  method TrySwitch(c: Chain, t: Tree, best: Node, pfork: Node, pindexNew: Node) returns (ok: bool)
    requires At(t, c, best) && IsAncestor(pfork, best) && IsAncestor(pfork, pindexNew) && Placed(t, pindexNew)
    modifies c
    ensures ok <==> Accepted(t, pindexNew)
    ensures ok ==> At(t, c, pindexNew)
  {
    hide At, Accepted, Placed, Branch, Ascent;
    var vDisconnect := ListDisconnect(best, pfork);
    var vConnect := ListConnect(pindexNew, pfork);
    NoBranch(best, pfork);
    NoBranch(pindexNew, pfork);
    var i := 0;
    if |vDisconnect| > 0 {
      BranchStep(best, pfork, 0);
    }
    while i < |vDisconnect|
      invariant 0 <= i <= |vDisconnect|
      invariant At(t, c, if i < |vDisconnect| then vDisconnect[i] else pfork)
    {
      BranchStep(best, pfork, i);
      StepBack(c, t, vDisconnect[i]);
      i := i + 1;
    }
    i := 0;
    while i < |vConnect|
      invariant 0 <= i <= |vConnect|
      invariant At(t, c, if i > 0 then vConnect[i - 1] else pfork)
    {
      AscentStep(pindexNew, pfork, i);
      OnThePath(pindexNew, pfork, i);
      AcceptedBelow(t, vConnect[i], pindexNew);
      ok := StepForward(c, t, vConnect[i]);
      if !ok {
        return;
      }
      i := i + 1;
    }
    if |vConnect| > 0 {
      AscentStep(pindexNew, pfork, 0);
    }
    AtIsAccepted(t, c, pindexNew);
    ok := true;
  }

  lemma {:induction false} AtIsAccepted(t: Tree, c: Chain, n: Node)
    requires At(t, c, n)
    ensures Accepted(t, n)
  {
  }

  /** The database side of a reorganisation: all of it, or the transaction is aborted. */
  method Switch(c: Chain, t: Tree, best: Node, pfork: Node, pindexNew: Node) returns (ok: bool)
    requires At(t, c, best) && IsAncestor(pfork, best) && IsAncestor(pfork, pindexNew) && Placed(t, pindexNew)
    modifies c
    ensures ok <==> Accepted(t, pindexNew)
    ensures if ok then At(t, c, pindexNew) else At(t, c, best) && c.txdb == old(c.txdb)
  {
    hide LinksOf, Accepted, Placed, Connected, Sound;
    var txdb, links := c.txdb, c.links;
    ghost var before := c.before;
    ok := TrySwitch(c, t, best, pfork, pindexNew);
    if !ok {
      c.Abort(txdb, links, before);
      assert forall i :: 0 <= i <= |c.links| ==> c.After(i) == old(c.After(i)) && c.Supply(i) == old(c.Supply(i));
    }
  }

  lemma {:induction false} Related(best: Node, child: Node)
    requires child.Child? && child.pprev == best
    ensures !Unrelated(best, child)
  {
    assert IsAncestor(best, best) && IsAncestor(best, child);
  }

  /** When a block on the way is not accepted, the one before it is the last that is. */
  lemma {:induction false} StopsHere(t: Tree, c: Chain, n: Node, tip: Node)
    requires n.Child? && IsAncestor(n, tip) && At(t, c, n.pprev) && !Accepted(t, n)
    ensures LastAccepted(t, tip) == n.pprev
  {
    AcceptedBelow(t, n, tip);
    if n != tip {
      StopsHere(t, c, n, tip.pprev);
    }
  }

  /** Links and index belong to the tip exactly when the path to the tip is accepted. */
  lemma {:induction false} OneTip(t: Tree, c: Chain, pnext: map<Node, Node>, tip: Node)
    requires Linked(pnext, LastAccepted(t, tip)) && At(t, c, LastAccepted(t, tip))
    ensures Linked(pnext, tip) && At(t, c, tip) <==> Accepted(t, tip)
  {
  }

  lemma {:induction false} ReadyAt(t: Tree, c: Chain, n: Node)
    requires At(t, c, n)
    ensures c.disk == t.disk && c.rules == t.rules && AllStored(c.txdb, c.disk)
    ensures c.txdb == Replay(LinksOf(t, n), Height(n))
  {
    hide Total, Replay, LinksOf, AllStored;
    IndexAt(t, c, n);
    assert Sound(c.After(|c.links|), c.Supply(|c.links|), c.disk);
  }

  /** A link from a later block, while the links end before it, leaves a gap. */
  lemma {:induction false} LinksBreak(pnext: map<Node, Node>, last: Node, n: Node, links: map<Node, Node>)
    requires Linked(pnext, last) && n.Child? && IsAncestor(last, n.pprev) && last != n.pprev
    requires links == pnext[n.pprev := n]
    ensures forall m :: !Linked(links, m)
  {
    assert n.pprev in links && last !in links;
    forall m ensures !Linked(links, m) {
      if Linked(links, m) {
        AncestorTrans(last, n.pprev, m);
        AncestorHeight(last, n.pprev);
        AncestorHeight(n.pprev, m);
      }
    }
  }

  class ChainTip {
    const tree: Tree
    const genesis: Node
    const chain: Chain

    var pindexBest: Node
    var pnext: map<Node, Node>
    /** The last block found by height; dropped whenever the best chain changes. */
    var lastFound: Pointer

    /** Links, index and tip agree. */
    ghost predicate Valid()
      reads this, chain
    {
      && Linked(pnext, pindexBest) && At(tree, chain, pindexBest)
      && genesis.Root? && IsAncestor(genesis, pindexBest)
      && (lastFound.To? ==> IsAncestor(lastFound.node, pindexBest))
    }

    /** The chain once the genesis block has been accepted. */
    constructor (tree: Tree, genesis: Node)
      requires genesis.Root?
      ensures Valid() && pindexBest == genesis && fresh(chain)
      ensures this.genesis == genesis && this.tree == tree
    {
      this.tree := tree;
      this.genesis := genesis;
      chain := new Chain(tree.disk, tree.rules);
      pindexBest := genesis;
      pnext := map[];
      lastFound := Null;
    }

    predicate IsInMainChain(n: Node)
      reads this
    {
      n in pnext || n == pindexBest
    }

    lemma {:induction false} InMainChain(n: Node)
      requires Valid()
      ensures IsInMainChain(n) <==> IsAncestor(n, pindexBest)
    {
    }

    /** The links change only after the whole switch has been committed: the new path is linked and connected exactly
        when it shares a block with the old one and is accepted, and otherwise nothing has changed. */
    method Reorganize(pindexNew: Node) returns (ok: bool)
      requires Linked(pnext, pindexBest) && At(tree, chain, pindexBest) && Placed(tree, pindexNew)
      modifies this`pnext, chain
      ensures ok <==> !Unrelated(pindexBest, pindexNew) && Accepted(tree, pindexNew)
      ensures ok ==> Linked(pnext, pindexNew) && At(tree, chain, pindexNew)
      ensures !ok ==> pnext == old(pnext) && At(tree, chain, pindexBest) && chain.txdb == old(chain.txdb)
    {
      hide Linked, At, Accepted, Placed, Branch, Ascent;
      var pfork;
      ok, pfork := FindFork(pindexBest, pindexNew);
      if !ok {
        return;
      }
      ForkSplits(pfork, pindexBest, pindexNew);
      ok := Switch(chain, tree, pindexBest, pfork, pindexNew);
      if ok {
        Relink(pfork, pindexNew);
      }
    }

    /** The forward links are taken from the shorter branch and set along the longer one. */
    method Relink(pfork: Node, pindexNew: Node)
      requires Linked(pnext, pindexBest) && IsAncestor(pfork, pindexBest) && IsAncestor(pfork, pindexNew)
      modifies this`pnext
      ensures Linked(pnext, pindexNew)
    {
      hide Linked;
      var vDisconnect := ListDisconnect(pindexBest, pfork);
      var vConnect := ListConnect(pindexNew, pfork);
      var i := 0;
      while i < |vDisconnect|
        invariant 0 <= i <= |vDisconnect|
        invariant Linked(pnext, if i < |vDisconnect| then vDisconnect[i] else pfork)
      {
        BranchStep(pindexBest, pfork, i);
        Retreat(pnext, vDisconnect[i]);
        pnext := pnext - {vDisconnect[i].pprev};
        i := i + 1;
      }
      i := 0;
      while i < |vConnect|
        invariant 0 <= i <= |vConnect|
        invariant Linked(pnext, if i > 0 then vConnect[i - 1] else pfork)
      {
        AscentStep(pindexNew, pfork, i);
        Advance(pnext, vConnect[i].pprev, vConnect[i]);
        pnext := pnext[vConnect[i].pprev := vConnect[i]];
        i := i + 1;
      }
      if |vConnect| > 0 {
        AscentStep(pindexNew, pfork, 0);
      }
    }

    /** One block on top of the path that is connected: links and index move on together exactly when its path is
        accepted, or stay together. */
    method SetBestChainInner(pindexNew: Node) returns (ok: bool)
      requires pindexNew.Child? && Placed(tree, pindexNew)
      requires Linked(pnext, pindexNew.pprev) && At(tree, chain, pindexNew.pprev)
      modifies this`pnext, chain
      ensures ok <==> Accepted(tree, pindexNew)
      ensures ok ==> Linked(pnext, pindexNew) && At(tree, chain, pindexNew)
      ensures !ok ==> pnext == old(pnext) && At(tree, chain, pindexNew.pprev) && chain.txdb == old(chain.txdb)
    {
      hide Linked, At, Accepted, Placed;
      ok := StepForward(chain, tree, pindexNew);
      if ok {
        Advance(pnext, pindexNew.pprev, pindexNew);
        pnext := pnext[pindexNew.pprev := pindexNew];
      }
    }

    /** The blocks left for later: those whose parent alone already outweighs the best chain. */
    method Postpone(pindexNew: Node) returns (pindexIntermediate: Node, vpindexSecondary: seq<Node>)
      ensures pindexIntermediate == Intermediate(pindexBest, pindexNew)
      ensures vpindexSecondary == Branch(pindexNew, pindexIntermediate)
    {
      pindexIntermediate := pindexNew;
      vpindexSecondary := [];
      while pindexIntermediate.Child? && pindexIntermediate.pprev.nChainTrust > pindexBest.nChainTrust
        invariant IsAncestor(pindexIntermediate, pindexNew)
        invariant Intermediate(pindexBest, pindexIntermediate) == Intermediate(pindexBest, pindexNew)
        invariant vpindexSecondary == Branch(pindexNew, pindexIntermediate)
        decreases pindexIntermediate
      {
        BranchMore(pindexNew, pindexIntermediate);
        vpindexSecondary := vpindexSecondary + [pindexIntermediate];
        pindexIntermediate := pindexIntermediate.pprev;
      }
    }

    /** Connect the postponed blocks, oldest first, until one fails: links and index reach the last block whose path is
        accepted. */
    method ConnectFurther(pindexNew: Node, pindexIntermediate: Node, vpindexSecondary: seq<Node>)
      requires IsAncestor(pindexIntermediate, pindexNew) && vpindexSecondary == Branch(pindexNew, pindexIntermediate)
      requires Linked(pnext, pindexIntermediate) && At(tree, chain, pindexIntermediate) && Placed(tree, pindexNew)
      modifies this`pnext, chain
      ensures Linked(pnext, LastAccepted(tree, pindexNew)) && At(tree, chain, LastAccepted(tree, pindexNew))
    {
      hide Linked, At, Accepted, Placed, Branch, LastAccepted;
      NoBranch(pindexNew, pindexIntermediate);
      ghost var reached := pindexIntermediate;
      var i := |vpindexSecondary|;
      while i > 0
        invariant 0 <= i <= |vpindexSecondary|
        invariant reached == if i < |vpindexSecondary| then vpindexSecondary[i] else pindexIntermediate
        invariant IsAncestor(reached, pindexNew) && Linked(pnext, reached) && At(tree, chain, reached)
      {
        var pindex := vpindexSecondary[i - 1];
        BranchStep(pindexNew, pindexIntermediate, i - 1);
        InBranch(pindexNew, pindexIntermediate, pindex);
        assert pindex in vpindexSecondary;
        AcceptedBelow(tree, pindex, pindexNew);
        var ok := SetBestChainInner(pindex);
        if !ok {
          StopsHere(tree, chain, pindex, pindexNew);
          return;
        }
        reached := pindex;
        i := i - 1;
      }
      if |vpindexSecondary| > 0 {
        BranchStep(pindexNew, pindexIntermediate, 0);
      }
      AtIsAccepted(tree, chain, pindexNew);
    }

    /** `SetBestChain` for a block other than the genesis block. It succeeds exactly when the block that has to connect at
        once belongs to an accepted path that meets the old one. Then the tip is the new block, while links and index
        have reached the last block whose path is accepted: all three agree exactly when the whole path is accepted.
        Otherwise nothing has changed. */
    method SetBestChain(pindexNew: Node) returns (ok: bool)
      requires Valid() && pindexNew.Child? && Placed(tree, pindexNew)
      modifies this`pindexBest, this`pnext, this`lastFound, chain
      ensures ok <==> !Unrelated(old(pindexBest), Urgent(old(pindexBest), pindexNew)) && Accepted(tree, Urgent(old(pindexBest), pindexNew))
      ensures !ok ==> Valid() && pindexBest == old(pindexBest) && pnext == old(pnext) && chain.txdb == old(chain.txdb)
      ensures ok ==> pindexBest == pindexNew && lastFound == Null
      ensures ok ==> Linked(pnext, LastAccepted(tree, pindexNew)) && At(tree, chain, LastAccepted(tree, pindexNew))
      ensures ok ==> (Valid() <==> Accepted(tree, pindexNew))
    {
      hide Linked, At, Accepted, Placed, LastAccepted, Unrelated;
      if pindexNew.pprev == pindexBest {
        ok := SetBestChainInner(pindexNew);
        Related(pindexBest, pindexNew);
        if !ok {
          return;
        }
        AtIsAccepted(tree, chain, pindexNew);
      } else {
        var pindexIntermediate, vpindexSecondary := Postpone(pindexNew);
        AcceptedBelow(tree, pindexIntermediate, pindexNew);
        ok := Reorganize(pindexIntermediate);
        if !ok {
          return;
        }
        SameRoot(genesis, pindexBest, pindexIntermediate);
        AncestorTrans(genesis, pindexIntermediate, pindexNew);
        ConnectFurther(pindexNew, pindexIntermediate, vpindexSecondary);
      }
      pindexBest := pindexNew;
      lastFound := Null;
      OneTip(tree, chain, pnext, pindexNew);
      ok := true;
    }

    /** `SetBestChain` for a child of a tip that was refused, so that links and index stand at an earlier block. The child
        is judged against that earlier index and the supply that its parent's entry happens to record. Once accepted it
        is connected with the refused block skipped, the links are no path to any block, and the recorded supply is the
        total exactly when the parent's record was the total before. */
    method ExtendRefused(pindexNew: Node, nPrevSupply: int) returns (ok: bool, nMoneySupply: int)
      requires pindexNew.Child? && pindexNew.pprev == pindexBest && !Accepted(tree, pindexBest)
      requires Linked(pnext, LastAccepted(tree, pindexBest)) && At(tree, chain, LastAccepted(tree, pindexBest))
      requires OnDisk(tree.blockOf(pindexNew), tree.disk)
      modifies this`pindexBest, this`pnext, this`lastFound, chain`txdb
      ensures ok <==> Accepts(tree.rules, Replay(LinksOf(tree, LastAccepted(tree, old(pindexBest))), Height(LastAccepted(tree, old(pindexBest)))),
                              tree.disk, tree.blockOf(pindexNew), tree.contextOf(pindexNew), nPrevSupply)
      ensures !ok ==> pindexBest == old(pindexBest) && pnext == old(pnext) && chain.txdb == old(chain.txdb)
      ensures ok ==> pindexBest == pindexNew && pnext == old(pnext)[pindexNew.pprev := pindexNew]
      ensures ok ==> chain.txdb == ConnectTxs(old(chain.txdb), tree.blockOf(pindexNew), |tree.blockOf(pindexNew).vtx|)
      ensures ok ==> forall m :: !Linked(pnext, m)
      ensures ok ==> (nMoneySupply == Total(chain.txdb, tree.disk) <==> nPrevSupply == Total(old(chain.txdb), tree.disk))
    {
      hide Linked, At, Accepted, LastAccepted, Accepts, Replay, LinksOf, ConnectTxs, Total, AllStored, OnDisk;
      ghost var last := LastAccepted(tree, pindexBest);
      ReadyAt(tree, chain, last);
      ok, nMoneySupply := chain.ConnectBlock(tree.blockOf(pindexNew), tree.contextOf(pindexNew), nPrevSupply);
      if !ok {
        return;
      }
      LinksBreak(pnext, last, pindexNew, pnext[pindexNew.pprev := pindexNew]);
      pnext := pnext[pindexNew.pprev := pindexNew];
      pindexBest := pindexNew;
      lastFound := Null;
    }

    /** Walk from the genesis block, the tip or the block found last, whichever is nearest: the
        block of the main chain at that height, or nothing. */
    method FindBlockByHeight(nHeight: int) returns (found: Pointer)
      requires Valid()
      modifies this`lastFound
      ensures Valid()
      ensures found == if 0 <= nHeight <= Height(pindexBest) then To(AncestorAt(pindexBest, nHeight)) else Null
    {
      hide At, Accepted, Placed;
      var pblockindex := if nHeight < Height(pindexBest) / 2 then genesis else pindexBest;
      if lastFound.To? && Abs(nHeight - Height(pblockindex)) > Abs(nHeight - Height(lastFound.node)) {
        pblockindex := lastFound.node;
      }
      while pblockindex.Child? && Height(pblockindex) > nHeight
        invariant lastFound == old(lastFound) && IsAncestor(pblockindex, pindexBest)
        decreases pblockindex
      {
        AncestorTrans(pblockindex.pprev, pblockindex, pindexBest);
        pblockindex := pblockindex.pprev;
      }
      while pblockindex in pnext && Height(pblockindex) < nHeight
        invariant lastFound == old(lastFound) && IsAncestor(pblockindex, pindexBest)
        invariant Height(pblockindex) <= nHeight || pblockindex.Root?
        decreases nHeight - Height(pblockindex)
      {
        pblockindex := pnext[pblockindex];
      }
      AncestorHeight(pblockindex, pindexBest);
      if Height(pblockindex) != nHeight {
        return Null;
      }
      SameHeight(pblockindex, AncestorAt(pindexBest, nHeight), pindexBest);
      lastFound := To(pblockindex);
      found := lastFound;
    }
  }

  //////////////////////////////////////////////////////////////////////////////
  // A tip that the links do not reach
  //////////////////////////////////////////////////////////////////////////////

  /** Blocks that hold a coinbase only; the one with id 3 breaks a rule. */
  function LoneBlocks(): Tree {
    Tree((n: Node) => Lone(n.hash, n.hash),
         n => Context(1, false, 0, (_, _, _) => true),
         Rules(_ => 0, b => b != Lone(3, 3)),
         map[TxPos(1, 1, 1) := Lone(1, 1).vtx[0], TxPos(1, 2, 2) := Lone(2, 2).vtx[0], TxPos(1, 3, 3) := Lone(3, 3).vtx[0],
             TxPos(1, 4, 4) := Lone(4, 4).vtx[0]],
         Ids((h: Hash) => Lone(h, h).vtx[0], (tx: Tx) => if tx.hash == 3 then 2 else if tx.hash == 4 then 3 else 1))
  }

  lemma {:induction false} LonePlaced(n: Node)
    requires n.Child? && 1 <= n.hash <= 3 && Height(n) == (if n.hash == 3 then 2 else 1) && Placed(LoneBlocks(), n.pprev)
    ensures Placed(LoneBlocks(), n)
  {
    var b := Lone(n.hash, n.hash);
    assert PosOf(b, 0) == TxPos(1, n.hash, n.hash);
  }

  lemma {:induction false} LoneOnto(n: Node)
    requires n.Child? && Accepted(LoneBlocks(), n.pprev)
    requires n.hash !in Replay(LinksOf(LoneBlocks(), n.pprev), Height(n.pprev))
    ensures Accepted(LoneBlocks(), n) <==> n.hash != 3
  {
    var t := LoneBlocks();
    var links := LinksOf(t, n.pprev);
    LoneIsAccepted(t.rules, Replay(links, |links|), t.disk, n.hash, n.hash, t.contextOf(n), TipSupply(links));
    assert Lone(n.hash, n.hash) == Lone(3, 3) <==> n.hash == 3;
  }

  lemma {:induction false} OneLink(hash: nat, r: Node, nChainTrust: int, h: Hash)
    requires r.Root?
    ensures h in Replay(LinksOf(LoneBlocks(), Child(hash, r, nChainTrust)), 1) <==> h == hash
  {
    var t, n := LoneBlocks(), Child(hash, r, nChainTrust);
    var links := LinksOf(t, n);
    assert LinksOf(t, r) == [] && links == [LinkOnto(t, [], n)];
    assert Replay(links, 0) == map[];
    ConnectKeys(map[], Lone(hash, hash), 1, h);
  }

  function Genesis(): Node {
    Root(0, 0)
  }

  function OldTip(): Node {
    Child(1, Genesis(), 5)
  }

  function First(): Node {
    Child(2, Genesis(), 6)
  }

  function Second(): Node {
    Child(3, First(), 9)
  }

  /** A new branch of two blocks whose first one already outweighs the best chain and whose second one is refused: the
      change succeeds and moves the tip, but links and index stop at the first. */
  lemma {:induction false} TipOutrunsLinks()
    ensures Placed(LoneBlocks(), OldTip()) && Accepted(LoneBlocks(), OldTip()) && Placed(LoneBlocks(), Second())
    ensures Urgent(OldTip(), Second()) == First() && !Unrelated(OldTip(), First()) && Accepted(LoneBlocks(), First())
    ensures !Accepted(LoneBlocks(), Second()) && LastAccepted(LoneBlocks(), Second()) == First()
  {
    AllPlaced();
    OnlySecondRefused();
    hide Placed, Accepted, LoneBlocks;
    assert IsAncestor(Genesis(), OldTip()) && IsAncestor(Genesis(), First());
    assert Intermediate(OldTip(), First()) == First();
  }

  function Third(): Node {
    Child(4, Second(), 12)
  }

  /** A child of that refused tip is accepted onto the index at the first block: the second one is skipped. */
  lemma {:induction false} RefusedIsSkipped(nPrevSupply: int)
    ensures !Accepted(LoneBlocks(), Third().pprev) && LastAccepted(LoneBlocks(), Third().pprev) == First()
    ensures OnDisk(LoneBlocks().blockOf(Third()), LoneBlocks().disk)
    ensures Accepts(LoneBlocks().rules, Replay(LinksOf(LoneBlocks(), First()), Height(First())), LoneBlocks().disk,
                    LoneBlocks().blockOf(Third()), LoneBlocks().contextOf(Third()), nPrevSupply)
  {
    hide *;
    TipOutrunsLinks();
    Shapes();
    ThirdShape();
    OneLink(2, Genesis(), 6, 4);
    ThirdOnDisk();
    ThirdAccepted(Replay(LinksOf(LoneBlocks(), First()), 1), nPrevSupply);
  }

  lemma {:induction false} ThirdShape()
    ensures Third().Child? && Third().pprev == Second() && First() == Child(2, Genesis(), 6)
  {
  }

  lemma {:induction false} ThirdOnDisk()
    ensures OnDisk(LoneBlocks().blockOf(Third()), LoneBlocks().disk)
  {
    assert PosOf(Lone(4, 4), 0) == TxPos(1, 4, 4);
  }

  lemma {:induction false} ThirdAccepted(ix: Index, nPrevSupply: int)
    requires 4 !in ix
    ensures Accepts(LoneBlocks().rules, ix, LoneBlocks().disk, LoneBlocks().blockOf(Third()), LoneBlocks().contextOf(Third()), nPrevSupply)
  {
    var t := LoneBlocks();
    LoneIsAccepted(t.rules, ix, t.disk, 4, 4, t.contextOf(Third()), nPrevSupply);
    assert Lone(4, 4).vtx[0].hash != Lone(3, 3).vtx[0].hash;
  }

  lemma {:induction false} AllPlaced()
    ensures Placed(LoneBlocks(), OldTip()) && Placed(LoneBlocks(), First()) && Placed(LoneBlocks(), Second())
  {
    hide *;
    Shapes();
    RootPlaced(LoneBlocks(), Genesis());
    LonePlaced(OldTip());
    LonePlaced(First());
    LonePlaced(Second());
  }

  lemma {:induction false} Shapes()
    ensures Genesis().Root? && OldTip().Child? && OldTip().pprev == Genesis() && OldTip().hash == 1
    ensures First().Child? && First().pprev == Genesis() && First().hash == 2
    ensures Second().Child? && Second().pprev == First() && Second().hash == 3
    ensures Height(OldTip()) == 1 && Height(First()) == 1 && Height(Second()) == 2
  {
    assert Height(Genesis()) == 0;
  }

  lemma {:induction false} RootPlaced(t: Tree, r: Node)
    requires r.Root?
    ensures Placed(t, r)
  {
  }

  lemma {:induction false} OnlySecondRefused()
    ensures Accepted(LoneBlocks(), OldTip()) && Accepted(LoneBlocks(), First()) && !Accepted(LoneBlocks(), Second())
  {
    RootFine(LoneBlocks(), Genesis());
    OneLink(2, Genesis(), 6, 3);
    hide Accepted, LoneBlocks, LinksOf, Replay;
    LoneOnto(OldTip());
    LoneOnto(First());
    LoneOnto(Second());
  }

  lemma {:induction false} RootFine(t: Tree, r: Node)
    requires r.Root?
    ensures Placed(t, r) && Accepted(t, r) && LinksOf(t, r) == [] && Replay([], 0) == map[]
  {
  }
}
