/** Why transaction ids do not come back: a coinbase starts with its height, and any other transaction spends outputs
    that are gone once it has been connected. */
module FreshIds {
  import opened TxIndexing
  import opened MoneySupply
  import opened ChainState
  import opened BlockChain

  /** What each id stands for, and the height that a coinbase starts with. */
  datatype Ids = Ids(txOf: Hash -> Tx, heightOf: Tx -> nat)

  /** The ids of a block identify its transactions, and its coinbase starts with its height. */
  ghost predicate Ruled(ids: Ids, b: Block, nHeight: nat) {
    && b.vtx != [] && ids.heightOf(b.vtx[0]) == nHeight
    && forall k :: 0 <= k < |b.vtx| ==> b.vtx[k] == ids.txOf(b.vtx[k].hash)
  }

  /** A chain of connected blocks, each accepted at its height; the genesis block has height 0 and is not connected. */
  ghost predicate RuledChain(ids: Ids, links: seq<Link>) {
    forall i :: 0 <= i < |links| ==>
      Ruled(ids, links[i].block, i + 1) && Connected(links[i].block, Replay(links, i), Replay(links, i + 1))
  }

  lemma {:induction false} KnownFrom(links: seq<Link>, n: nat, h: Hash) returns (i: nat, k: nat)
    requires n <= |links| && h in Replay(links, n)
    ensures i < n && k < |links[i].block.vtx| && links[i].block.vtx[k].hash == h
    decreases n
  {
    var b, ix := links[n - 1].block, Replay(links, n - 1);
    ConnectKeys(ix, b, |b.vtx|, h);
    if h in ix {
      i, k := KnownFrom(links, n - 1, h);
    } else {
      i := n - 1;
      k :| 0 <= k < |b.vtx| && b.vtx[k].hash == h;
    }
  }

  lemma {:induction false} ChainSpends(ids: Ids, links: seq<Link>, n: nat, i: nat, k: nat, o: OutPoint)
    requires RuledChain(ids, links) && i < n <= |links| && k < |links[i].block.vtx| && o in Spends(links[i].block.vtx[k])
    ensures IsSpent(Replay(links, n), o)
    decreases n
  {
    hide IsSpent, Ruled, ConnectTxs, AllSpendable;
    var b := links[n - 1].block;
    assert Connected(b, Replay(links, n - 1), Replay(links, n));
    if i == n - 1 {
      BlockSpends(Replay(links, n - 1), b, |b.vtx|, k, o);
    } else {
      ChainSpends(ids, links, n - 1, i, k, o);
      SpentThrough(Replay(links, n - 1), b, |b.vtx|, o);
    }
  }

  /** A transaction of an accepted block whose id is known cannot be a coinbase, and spends what is spent. */
  lemma {:induction false} NotKnown(ids: Ids, links: seq<Link>, r: Rules, disk: Disk, b: Block, ctx: Context, nPrevSupply: int, k: nat)
    requires RuledChain(ids, links) && Ruled(ids, b, |links| + 1) && k < |b.vtx|
    requires Accepts(r, Replay(links, |links|), disk, b, ctx, nPrevSupply) && FreshUpTo(Replay(links, |links|), b, k)
    ensures b.vtx[k].hash !in Replay(links, |links|)
  {
    hide IsSpent, RewardOk, TxsOk, ConnectTxs;
    var ix, tx := Replay(links, |links|), b.vtx[k];
    if tx.hash in ix {
      var i, j := KnownFrom(links, |links|, tx.hash);
      assert Ruled(ids, links[i].block, i + 1) && Connected(links[i].block, Replay(links, i), Replay(links, i + 1));
      assert links[i].block.vtx[j] == tx;
      if k > 0 {
        ChainSpends(ids, links, |links|, i, j, tx.vin[0]);
        SpentThrough(ix, b, k, tx.vin[0]);
        UnspentAt(ix, disk, b, ctx.policy, r.minFee, |b.vtx|, k);
        NotBoth(ConnectTxs(ix, b, k), tx.vin[0]);
      }
    }
  }

  lemma {:induction false} NotBoth(ix: Index, o: OutPoint)
    requires IsSpent(ix, o)
    ensures !IsUnspent(ix, o)
  {
  }

  lemma {:induction false} UnspentAt(ix: Index, disk: Disk, b: Block, policy: InputPolicy, minFee: Tx -> int, n: nat, k: nat)
    requires k < n <= |b.vtx| && TxsOk(ix, disk, b, policy, minFee, n) && !IsCoinBase(b.vtx[k])
    ensures forall i :: 0 <= i < |b.vtx[k].vin| ==> IsUnspent(ConnectTxs(ix, b, k), b.vtx[k].vin[i])
    decreases n
  {
    hide ConnectTxs;
    if k < n - 1 {
      UnspentAt(ix, disk, b, policy, minFee, n - 1, k);
    } else {
      assert TxOk(ix, ConnectTxs(ix, b, k), disk, b.vtx[k], policy, minFee(b.vtx[k]));
      assert Spends(b.vtx[k]) == b.vtx[k].vin;
    }
  }

  /** Along a chain that keeps the rule for coinbases, every accepted block has fresh ids. */
  lemma {:induction false} AcceptedIsFresh(ids: Ids, links: seq<Link>, r: Rules, disk: Disk, b: Block, ctx: Context, nPrevSupply: int)
    requires RuledChain(ids, links) && Ruled(ids, b, |links| + 1)
    requires Accepts(r, Replay(links, |links|), disk, b, ctx, nPrevSupply)
    ensures Fresh(Replay(links, |links|), b)
  {
    hide Accepts, RuledChain, Ruled, Replay;
    var k := 0;
    while k < |b.vtx|
      invariant 0 <= k <= |b.vtx| && FreshUpTo(Replay(links, |links|), b, k)
    {
      NotKnown(ids, links, r, disk, b, ctx, nPrevSupply, k);
      k := k + 1;
    }
  }

  //////////////////////////////////////////////////////////////////////////////
  // Runs that offer any block
  //////////////////////////////////////////////////////////////////////////////

  /** The chain after one step, whatever the ids of the block. */
  ghost function NextOf(r: Rules, disk: Disk, links: seq<Link>, step: Step): seq<Link> {
    match step
    case Connect(b, ctx) =>
      var ix := Replay(links, |links|);
      if OnDisk(b, disk) && Accepts(r, ix, disk, b, ctx, TipSupply(links))
      then links + [Link(b, Total(ConnectTxs(ix, b, |b.vtx|), disk))]
      else links
    case Disconnect => if links == [] then [] else links[..|links| - 1]
  }

  ghost function Reached(r: Rules, disk: Disk, steps: seq<Step>): seq<Link> {
    if steps == [] then []
    else NextOf(r, disk, Reached(r, disk, steps[..|steps| - 1]), steps[|steps| - 1])
  }

  /** Every block is offered with ids that identify its transactions and a coinbase that starts with the height it is
      offered at. */
  ghost predicate RuledSteps(ids: Ids, r: Rules, disk: Disk, steps: seq<Step>) {
    steps == [] ||
    var rest := steps[..|steps| - 1];
    && RuledSteps(ids, r, disk, rest)
    && RuledStep(ids, |Reached(r, disk, rest)| + 1, steps[|steps| - 1])
  }

  ghost predicate RuledStep(ids: Ids, nHeight: nat, step: Step) {
    step.Connect? ==> Ruled(ids, step.b, nHeight)
  }

  lemma {:induction false} OkIsSpendable(ix: Index, disk: Disk, b: Block, policy: InputPolicy, minFee: Tx -> int, k: nat)
    requires k <= |b.vtx| && TxsOk(ix, disk, b, policy, minFee, k)
    ensures AllSpendable(ix, b, k)
  {
    hide ConnectTxs, InputsGood, PaysEnough, Settled;
    if k > 0 {
      OkIsSpendable(ix, disk, b, policy, minFee, k - 1);
    }
  }

  lemma {:induction false} SameReplay(a: seq<Link>, b: seq<Link>, k: nat)
    requires k <= |a| <= |b| && b[..|a|] == a
    ensures Replay(a, k) == Replay(b, k)
  {
    hide ConnectTxs;
    if k > 0 {
      SameReplay(a, b, k - 1);
      assert b[..|a|][k - 1] == b[k - 1];
    }
  }

  lemma {:induction false} RuledTakenBack(ids: Ids, links: seq<Link>, n: nat)
    requires RuledChain(ids, links) && n <= |links|
    ensures RuledChain(ids, links[..n])
  {
    hide Replay, Ruled, Connected;
    forall i | 0 <= i < n
      ensures Ruled(ids, links[..n][i].block, i + 1) && Connected(links[..n][i].block, Replay(links[..n], i), Replay(links[..n], i + 1))
    {
      SameReplay(links[..n], links, i);
      SameReplay(links[..n], links, i + 1);
      assert Ruled(ids, links[i].block, i + 1) && Connected(links[i].block, Replay(links, i), Replay(links, i + 1));
    }
  }

  lemma {:induction false} RuledLonger(ids: Ids, links: seq<Link>, link: Link)
    requires RuledChain(ids, links) && Ruled(ids, link.block, |links| + 1)
    requires Connected(link.block, Replay(links, |links|), ConnectTxs(Replay(links, |links|), link.block, |link.block.vtx|))
    ensures RuledChain(ids, links + [link])
  {
    hide Ruled, Connected, ConnectTxs;
    var n, longer := |links|, links + [link];
    SameReplay(links, longer, n);
    assert Replay(longer, n + 1) == ConnectTxs(Replay(longer, n), link.block, |link.block.vtx|);
    hide Replay;
    forall i | 0 <= i <= n
      ensures Ruled(ids, longer[i].block, i + 1) && Connected(longer[i].block, Replay(longer, i), Replay(longer, i + 1))
    {
      if i < n {
        SameReplay(links, longer, i);
        SameReplay(links, longer, i + 1);
        assert Ruled(ids, links[i].block, i + 1) && Connected(links[i].block, Replay(links, i), Replay(links, i + 1));
      }
    }
  }

  lemma {:induction false} AcceptedConnects(ids: Ids, links: seq<Link>, r: Rules, disk: Disk, b: Block, ctx: Context, nPrevSupply: int)
    requires RuledChain(ids, links) && Ruled(ids, b, |links| + 1)
    requires Accepts(r, Replay(links, |links|), disk, b, ctx, nPrevSupply)
    ensures Fresh(Replay(links, |links|), b)
    ensures Connected(b, Replay(links, |links|), ConnectTxs(Replay(links, |links|), b, |b.vtx|))
  {
    hide RuledChain, Ruled, Replay, TxsOk, AllSpendable, ConnectTxs, RewardOk, Fresh;
    AcceptedIsFresh(ids, links, r, disk, b, ctx, nPrevSupply);
    OkIsSpendable(Replay(links, |links|), disk, b, ctx.policy, r.minFee, |b.vtx|);
    AreDistinct(b);
  }

  /** One step of either kind of run. */
  lemma {:induction false} StepsAgree(ids: Ids, r: Rules, disk: Disk, links: seq<Link>, step: Step)
    requires RuledChain(ids, links) && RuledStep(ids, |links| + 1, step)
    ensures Next(r, disk, links, step) == NextOf(r, disk, links, step)
    ensures RuledChain(ids, NextOf(r, disk, links, step))
  {
    hide RuledChain, Ruled, Replay, Accepts, Connected, ConnectTxs, OnDisk, Fresh, Total;
    match step {
      case Connect(b, ctx) =>
        var ix := Replay(links, |links|);
        if OnDisk(b, disk) && Accepts(r, ix, disk, b, ctx, TipSupply(links)) {
          AcceptedConnects(ids, links, r, disk, b, ctx, TipSupply(links));
          RuledLonger(ids, links, Link(b, Total(ConnectTxs(ix, b, |b.vtx|), disk)));
        }
      case Disconnect =>
        if links != [] {
          RuledTakenBack(ids, links, |links| - 1);
        }
    }
  }

  /** Where the rule for coinbases is kept, offering only blocks with fresh ids is no restriction. */
  lemma {:induction false} RunsAgree(ids: Ids, r: Rules, disk: Disk, steps: seq<Step>)
    requires RuledSteps(ids, r, disk, steps)
    ensures Outcome(r, disk, steps) == Reached(r, disk, steps) && RuledChain(ids, Reached(r, disk, steps))
  {
    hide RuledChain, RuledStep, Next, NextOf;
    if steps == [] {
      NothingRuled(ids);
    } else {
      var rest := steps[..|steps| - 1];
      RunsAgree(ids, r, disk, rest);
      StepsAgree(ids, r, disk, Reached(r, disk, rest), steps[|steps| - 1]);
    }
  }

  lemma {:induction false} NothingRuled(ids: Ids)
    ensures RuledChain(ids, [])
  {
  }

  /** One step that offers any block. */
  method TakeAnyStep(c: Chain, ghost ids: Ids, step: Step)
    requires c.Valid() && RuledChain(ids, c.links) && RuledStep(ids, |c.links| + 1, step)
    modifies c
    ensures c.Valid() && c.links == NextOf(c.rules, c.disk, old(c.links), step)
  {
    hide Total, AllStored, Sound, Connected, OnDisk, Fresh, Accepts, ConnectTxs, Replay, RuledChain, Ruled;
    IndexIsReplay(c, |c.links|);
    assert c.Supply(|c.links|) == TipSupply(c.links);
    match step {
      case Connect(b, ctx) =>
        if OnDisk(b, c.disk) {
          ghost var links := c.links;
          var ok := c.ConnectTip(b, ctx);
          if ok {
            AcceptedIsFresh(ids, links, c.rules, c.disk, b, ctx, TipSupply(links));
          }
        }
      case Disconnect =>
        if |c.links| > 0 {
          var ok := c.DisconnectTip();
        }
    }
  }

  /** Over every sequence of connects and disconnects of blocks that keep the rule for coinbases, the chain is the one
      specified, its index depends on its blocks alone, and the supply recorded for the tip is the total value of all
      outputs with a null spent pointer. */
  method RunAny(disk: Disk, r: Rules, ghost ids: Ids, steps: seq<Step>) returns (c: Chain)
    requires RuledSteps(ids, r, disk, steps)
    ensures c.Valid() && c.links == Reached(r, disk, steps)
    ensures c.txdb == Replay(c.links, |c.links|)
    ensures TipSupply(c.links) == Total(c.txdb, disk)
  {
    hide Total, NextOf, RuledChain, RuledStep, Replay;
    c := new Chain(disk, r);
    var i := 0;
    while i < |steps|
      invariant 0 <= i <= |steps| && fresh(c) && c.Valid()
      invariant c.disk == disk && r == c.rules
      invariant c.links == Reached(r, disk, steps[..i])
    {
      RuledBefore(ids, r, disk, steps, i);
      RunsAgree(ids, r, disk, steps[..i]);
      assert steps[..i + 1][..i] == steps[..i];
      TakeAnyStep(c, ids, steps[i]);
      i := i + 1;
    }
    assert steps[..|steps|] == steps;
    TipIsSound(c);
    IndexIsReplay(c, |c.links|);
  }

  lemma {:induction false} RuledBefore(ids: Ids, r: Rules, disk: Disk, steps: seq<Step>, i: nat)
    requires RuledSteps(ids, r, disk, steps) && i < |steps|
    ensures RuledSteps(ids, r, disk, steps[..i]) && RuledStep(ids, |Reached(r, disk, steps[..i])| + 1, steps[i])
  {
    hide RuledStep, Reached;
    var rest := steps[..|steps| - 1];
    if i < |rest| {
      RuledBefore(ids, r, disk, rest, i);
      assert rest[..i] == steps[..i];
    }
  }

  //////////////////////////////////////////////////////////////////////////////
  // Ids that come back
  //////////////////////////////////////////////////////////////////////////////

  /** A block with nothing but a coinbase that pays nothing. */
  function Lone(hash: Hash, at: nat): Block {
    Block([Tx(hash, 0, 100, [NULL_OUTPOINT], [TxOut(0, true)])], 1, at, at)
  }

  lemma {:induction false} LoneIsAccepted(r: Rules, ix: Index, disk: Disk, hash: Hash, at: nat, ctx: Context, nPrevSupply: int)
    requires Settled(ix, hash) && ctx.nHeight >= 0
    ensures Accepts(r, ix, disk, Lone(hash, at), ctx, nPrevSupply) <==> r.otherRules(Lone(hash, at))
  {
    var b := Lone(hash, at);
    assert ConnectTxs(ix, b, 0) == ix;
    assert TxOk(ix, ix, disk, b.vtx[0], ctx.policy, r.minFee(b.vtx[0]));
    assert TxsOk(ix, disk, b, ctx.policy, r.minFee, 0);
    assert b.vtx[0].vout[..0] == [];
    assert ValueOut(b.vtx[0].vout) == 0;
  }

  /** Without that rule an id can come back: connecting accepts a coinbase with the id of a transaction that is
      completely spent, and disconnecting it loses the old entry. */
  lemma {:induction false} ReusedIdIsLost(r: Rules, disk: Disk, ctx: Context, nPrevSupply: int)
    requires r.otherRules(Lone(7, 9)) && ctx.nHeight >= 0
    ensures
      var ix: Index, b := map[7 := TxIndex(TxPos(1, 2, 3), [TxPos(1, 2, 4)])], Lone(7, 9);
      && Settled(ix, 7) && Accepts(r, ix, disk, b, ctx, nPrevSupply)
      && DisconnectTxs(ConnectTxs(ix, b, 1), b, 1) != ix
  {
    var ix: Index, b := map[7 := TxIndex(TxPos(1, 2, 3), [TxPos(1, 2, 4)])], Lone(7, 9);
    LoneIsAccepted(r, ix, disk, 7, 9, ctx, nPrevSupply);
    DisconnectErases(ConnectTxs(ix, b, 1), b, 1);
    assert 7 in ix && b.vtx[0].hash == 7;
  }
}
