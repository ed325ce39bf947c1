/** Blocks on top of one another: connecting and disconnecting, and the money supply of the tip. */
module BlockChain {
  import opened TxIndexing
  import opened MoneySupply
  import opened ChainState

  /** A connected block and the supply recorded in its index entry. */
  datatype Link = Link(block: Block, nMoneySupply: int)

  /** What the rules know besides the block itself: its height, the protocol, the age of the staked coins, and the
      checks of inputs that are not modelled, which may look at the chain below the block. */
  datatype Context = Context(nHeight: int, fV3: bool, nCoinAge: nat, policy: InputPolicy)

  predicate NoCoinStake(b: Block) {
    forall i :: 0 <= i < |b.vtx| ==> !IsCoinStake(b.vtx[i])
  }

  /** Each of the first k transactions is accepted when its turn comes. */
  ghost predicate TxsOk(txdb: Index, disk: Disk, b: Block, policy: InputPolicy, minFee: Tx -> int, k: nat)
    requires k <= |b.vtx|
  {
    k > 0 ==>
      && TxsOk(txdb, disk, b, policy, minFee, k - 1)
      && TxOk(txdb, ConnectTxs(txdb, b, k - 1), disk, b.vtx[k - 1], policy, minFee(b.vtx[k - 1]))
  }

  lemma {:induction false} NotAllOk(txdb: Index, disk: Disk, b: Block, policy: InputPolicy, minFee: Tx -> int, k: nat, n: nat)
    requires k < n <= |b.vtx| && !TxOk(txdb, ConnectTxs(txdb, b, k), disk, b.vtx[k], policy, minFee(b.vtx[k]))
    ensures !TxsOk(txdb, disk, b, policy, minFee, n)
  {
    hide TxOk, ConnectTxs;
    if k < n - 1 {
      NotAllOk(txdb, disk, b, policy, minFee, k, n - 1);
    }
  }

  /** How much the coinstakes among the first k transactions add to the value of the unspent outputs. */
  ghost function StakeGain(txdb: Index, disk: Disk, b: Block, k: nat): int
    requires k <= |b.vtx|
  {
    if k == 0 then 0
    else
      StakeGain(txdb, disk, b, k - 1) +
      if IsCoinStake(b.vtx[k - 1]) then Total(ConnectTxs(txdb, b, k), disk) - Total(ConnectTxs(txdb, b, k - 1), disk) else 0
  }

  /** The fees of the first k transactions: what those that are neither coinbase nor coinstake take from the value of the
      unspent outputs. */
  ghost function FeesPaid(txdb: Index, disk: Disk, b: Block, k: nat): int
    requires k <= |b.vtx|
  {
    if k == 0 then 0
    else
      FeesPaid(txdb, disk, b, k - 1) +
      if IsCoinBase(b.vtx[k - 1]) || IsCoinStake(b.vtx[k - 1]) then 0
      else Total(ConnectTxs(txdb, b, k - 1), disk) - Total(ConnectTxs(txdb, b, k), disk)
  }

  /** How much the block adds to the value of the unspent outputs. */
  ghost function Rise(txdb: Index, disk: Disk, b: Block): int
    requires b.vtx != []
  {
    ValueOut(b.vtx[0].vout) + StakeGain(txdb, disk, b, |b.vtx|) - FeesPaid(txdb, disk, b, |b.vtx|)
  }

  lemma {:induction false} NoStakeGain(txdb: Index, disk: Disk, b: Block, k: nat)
    requires k <= |b.vtx| && NoCoinStake(b)
    ensures StakeGain(txdb, disk, b, k) == 0
  {
    hide Total, ConnectTxs;
    if k > 0 {
      NoStakeGain(txdb, disk, b, k - 1);
    }
  }

  lemma {:induction false} OneMoreTx(txdb: Index, disk: Disk, b: Block, policy: InputPolicy, minFee: Tx -> int, k: nat)
    requires k < |b.vtx|
    ensures StakeGain(txdb, disk, b, 0) == 0 && FeesPaid(txdb, disk, b, 0) == 0 && TxsOk(txdb, disk, b, policy, minFee, 0)
    ensures StakeGain(txdb, disk, b, k + 1) == StakeGain(txdb, disk, b, k) +
            if IsCoinStake(b.vtx[k]) then Total(ConnectTxs(txdb, b, k + 1), disk) - Total(ConnectTxs(txdb, b, k), disk) else 0
    ensures FeesPaid(txdb, disk, b, k + 1) == FeesPaid(txdb, disk, b, k) +
            if IsCoinBase(b.vtx[k]) || IsCoinStake(b.vtx[k]) then 0
            else Total(ConnectTxs(txdb, b, k), disk) - Total(ConnectTxs(txdb, b, k + 1), disk)
    ensures TxsOk(txdb, disk, b, policy, minFee, k) && TxOk(txdb, ConnectTxs(txdb, b, k), disk, b.vtx[k], policy, minFee(b.vtx[k])) ==>
      TxsOk(txdb, disk, b, policy, minFee, k + 1)
  {
    hide Total, ConnectTxs, TxOk;
  }

  /** The reward is not exceeded. For proof of stake the fees telescope away: what counts is how much the unspent
      outputs gain in value. */
  ghost predicate RewardOk(txdb: Index, disk: Disk, b: Block, ctx: Context, nPrevSupply: int)
    requires b.vtx != []
  {
    if IsProofOfStake(b) then
      Total(ConnectTxs(txdb, b, |b.vtx|), disk) - Total(txdb, disk) <= StakeSubsidy(ctx.fV3, nPrevSupply, ctx.nCoinAge)
    else ValueOut(b.vtx[0].vout) <= GetProofOfWorkReward(ctx.nHeight)
  }

  /** The reward in figures. */
  lemma {:induction false} RewardIs(txdb: Index, disk: Disk, b: Block, ctx: Context, nPrevSupply: int)
    requires b.vtx != []
    ensures var rise := Total(ConnectTxs(txdb, b, |b.vtx|), disk) - Total(txdb, disk);
            RewardOk(txdb, disk, b, ctx, nPrevSupply) <==>
            if |b.vtx| <= 1 || !IsCoinStake(b.vtx[1]) then
              ValueOut(b.vtx[0].vout) <= if ctx.nHeight == 1 then 18_750_000 * 100_000_000 else 0
            else if !ctx.fV3 then rise * 12053 <= ctx.nCoinAge * 33 * 5_000_000
            else if nPrevSupply >= 0 then rise * (365 * 24 * 56) <= nPrevSupply / 100_000_000 * 5_000_000
            else (rise - 1) * (365 * 24 * 56) < -(-nPrevSupply / 100_000_000 * 5_000_000)
  {
    hide Total, ConnectTxs, ValueOut, StakeSubsidy;
    var rise := Total(ConnectTxs(txdb, b, |b.vtx|), disk) - Total(txdb, disk);
    SubsidyIs(ctx.fV3, nPrevSupply, ctx.nCoinAge, rise);
  }

  /** What the reward bounds in the end: a twentieth of the supply in a year of such blocks, or of the coins' age. */
  lemma {:induction false} RiseBound(fV3: bool, nPrevSupply: int, nCoinAge: nat, rise: int)
    requires rise <= StakeSubsidy(fV3, nPrevSupply, nCoinAge)
    ensures fV3 && nPrevSupply >= 0 ==> 20 * (rise * (365 * 24 * 56)) <= nPrevSupply
    ensures !fV3 ==> rise * 12053 <= nCoinAge * 33 * 5_000_000
  {
    hide StakeSubsidy;
    SubsidyIs(fV3, nPrevSupply, nCoinAge, rise);
  }

  /** The rules that are parameters: the fee that connecting demands, and the rules for a block that are not modelled
      (size, proof, signatures, signature operations). */
  datatype Rules = Rules(minFee: Tx -> int, otherRules: Block -> bool)

  /** When a block is accepted onto an index. */
  ghost predicate Accepts(r: Rules, txdb: Index, disk: Disk, b: Block, ctx: Context, nPrevSupply: int) {
    && WellFormed(b) && r.otherRules(b)
    && TxsOk(txdb, disk, b, ctx.policy, r.minFee, |b.vtx|)
    && RewardOk(txdb, disk, b, ctx, nPrevSupply)
  }

  /** The shape of an accepted block: the first transaction and no other has a single null input; every one has inputs and
      outputs, none negative; ids differ; and when the second one is a coinstake, no later one is, and the first pays one empty
      output. */
  lemma {:induction false} AcceptedShape(b: Block, k: nat)
    requires WellFormed(b) && k < |b.vtx|
    ensures |b.vtx[k].vin| == 1 && b.vtx[k].vin[0] == NULL_OUTPOINT <==> k == 0
    ensures b.vtx[k].vin != [] && b.vtx[k].vout != [] && forall n :: 0 <= n < |b.vtx[k].vout| ==> b.vtx[k].vout[n].nValue >= 0
    ensures forall j :: 0 <= j < k ==> b.vtx[j].hash != b.vtx[k].hash
    ensures k > 1 && IsCoinStake(b.vtx[k]) ==> !IsCoinStake(b.vtx[1])
    ensures k == 1 && IsCoinStake(b.vtx[1]) ==>
      |b.vtx[0].vout| == 1 && b.vtx[0].vout[0].nValue == 0 && !b.vtx[0].vout[0].hasScript
  {
    hide IsCoinStake;
  }

  lemma {:induction false} OkAt(txdb: Index, disk: Disk, b: Block, policy: InputPolicy, minFee: Tx -> int, n: nat, k: nat)
    requires k < n <= |b.vtx| && TxsOk(txdb, disk, b, policy, minFee, n)
    ensures TxOk(txdb, ConnectTxs(txdb, b, k), disk, b.vtx[k], policy, minFee(b.vtx[k]))
    decreases n
  {
    hide TxOk, ConnectTxs;
    if k < n - 1 {
      OkAt(txdb, disk, b, policy, minFee, n - 1, k);
    }
  }

  /** What an accepted block guarantees of each of its transactions behind the coinbase: every input is an output of an older or
      equally old transaction that is stored, is not negative, passes the other checks, and is unspent when its turn comes; no
      input is used twice; and a transaction that is not a coinstake takes in what it pays out and the fee. */
  lemma {:induction false} AcceptedTx(r: Rules, txdb: Index, disk: Disk, b: Block, ctx: Context, nPrevSupply: int, k: nat)
    requires Accepts(r, txdb, disk, b, ctx, nPrevSupply) && 0 < k < |b.vtx|
    ensures var view, tx := ConnectTxs(txdb, b, k), b.vtx[k];
            && tx.vin != []
            && (forall i :: 0 <= i < |tx.vin| ==>
                  var o := tx.vin[i];
                  && o.hash in view && view[o.hash].pos in disk && o.n < |view[o.hash].vSpent| && view[o.hash].vSpent[o.n] == NoPos
                  && var prev := disk[view[o.hash].pos];
                     && o.n < |prev.vout| && prev.vout[o.n].nValue >= 0
                     && prev.nTime <= tx.nTime && ctx.policy(tx, prev, i))
            && (forall i, j :: 0 <= i < j < |tx.vin| ==> tx.vin[i] != tx.vin[j])
            && (tx.hash in txdb ==> forall i :: 0 <= i < |txdb[tx.hash].vSpent| ==> txdb[tx.hash].vSpent[i] != NoPos)
  {
    hide ConnectTxs, TxsOk, RewardOk, PaysEnough, IsCoinStake;
    OkAt(txdb, disk, b, ctx.policy, r.minFee, |b.vtx|, k);
    assert !IsCoinBase(b.vtx[k]) && Spends(b.vtx[k]) == b.vtx[k].vin;
    var view, tx := ConnectTxs(txdb, b, k), b.vtx[k];
    forall i | 0 <= i < |tx.vin| ensures IsUnspent(view, tx.vin[i]) && InRange(view, disk, tx.vin[i]) {
      assert IsUnspent(view, Spends(tx)[i]);
    }
  }

  /** And of its fee. */
  lemma {:induction false} AcceptedPays(r: Rules, txdb: Index, disk: Disk, b: Block, ctx: Context, nPrevSupply: int, k: nat)
    requires Accepts(r, txdb, disk, b, ctx, nPrevSupply) && 0 < k < |b.vtx| && !IsCoinStake(b.vtx[k])
    ensures var view, tx := ConnectTxs(txdb, b, k), b.vtx[k];
            && AllStored(view, disk) && (forall i :: 0 <= i < |Spends(tx)| ==> Exists(view, Spends(tx)[i]))
            && ValueIn(view, Spends(tx), |Spends(tx)|, disk) >= ValueOut(tx.vout)
            && ValueIn(view, Spends(tx), |Spends(tx)|, disk) >= ValueOut(tx.vout) + r.minFee(tx)
  {
    hide ConnectTxs, TxsOk, RewardOk, InputsGood, Spendable, Settled, ValueIn, ValueOut, AllStored;
    OkAt(txdb, disk, b, ctx.policy, r.minFee, |b.vtx|, k);
    assert !IsCoinBase(b.vtx[k]);
  }

  class Chain {
    const disk: Disk
    const rules: Rules

    var txdb: Index
    var links: seq<Link>
    /** The index as it was before each block was connected. */
    ghost var before: seq<Index>

    constructor (disk: Disk, rules: Rules)
      ensures Valid() && txdb == map[] && links == []
      ensures this.disk == disk && this.rules == rules
    {
      this.disk := disk;
      this.rules := rules;
      txdb := map[];
      links := [];
      before := [];
    }

    /** The index after the first i blocks. */
    ghost function After(i: nat): Index
      requires i <= |before|
      reads this
    {
      if i < |before| then before[i] else txdb
    }

    function Supply(i: nat): int
      requires i <= |links|
      reads this
    {
      if i == 0 then 0 else links[i - 1].nMoneySupply
    }

    /** Every block was connected onto the index before it with fresh ids, and every recorded
        supply is the total of the unspent outputs at that block. */
    ghost predicate Valid()
      reads this
    {
      && |before| == |links|
      && After(0) == map[]
      && (forall i :: 0 <= i < |links| ==> Connected(links[i].block, After(i), After(i + 1)))
      && (forall i :: 0 <= i <= |links| ==> Sound(After(i), Supply(i), disk))
    }

    /** When a block is accepted. */
    ghost predicate Acceptable(b: Block, ctx: Context, nPrevSupply: int)
      reads this
    {
      Accepts(rules, txdb, disk, b, ctx, nPrevSupply)
    }

    /** All or nothing: the block is checked against the queued changes, and the index is written
        only when everything passed. Returns the supply for the block's index entry. */
    method ConnectBlock(b: Block, ctx: Context, nPrevSupply: int) returns (ok: bool, nMoneySupply: int)
      requires OnDisk(b, disk) && AllStored(txdb, disk)
      modifies this`txdb
      ensures ok <==> old(Acceptable(b, ctx, nPrevSupply))
      ensures !ok ==> txdb == old(txdb)
      ensures ok ==> WellFormed(b) && AllSpendable(old(txdb), b, |b.vtx|)
      ensures ok ==> txdb == ConnectTxs(old(txdb), b, |b.vtx|) && AllStored(txdb, disk)
      ensures ok ==> nMoneySupply - nPrevSupply == Total(txdb, disk) - Total(old(txdb), disk)
      ensures ok && IsProofOfStake(b) ==> nMoneySupply - nPrevSupply <= StakeSubsidy(ctx.fV3, nPrevSupply, ctx.nCoinAge)
      ensures ok && IsProofOfStake(b) && ctx.fV3 && nPrevSupply >= 0 ==>
        20 * ((nMoneySupply - nPrevSupply) * (365 * 24 * 56)) <= nPrevSupply
      ensures ok && IsProofOfStake(b) && !ctx.fV3 ==> (nMoneySupply - nPrevSupply) * 12053 <= ctx.nCoinAge * 33 * 5_000_000
      ensures ok ==> nMoneySupply - nPrevSupply == Rise(old(txdb), disk, b) && FeesPaid(old(txdb), disk, b, |b.vtx|) >= 0
      ensures ok ==>
        (nMoneySupply - nPrevSupply <= GetProofOfWorkReward(ctx.nHeight)
         <==> ValueOut(b.vtx[0].vout) + StakeGain(old(txdb), disk, b, |b.vtx|)
              <= GetProofOfWorkReward(ctx.nHeight) + FeesPaid(old(txdb), disk, b, |b.vtx|))
      ensures ok && NoCoinStake(b) ==> nMoneySupply - nPrevSupply <= GetProofOfWorkReward(ctx.nHeight)
    {
      hide Total, ConnectTx, AllStored, OnDisk, ValueOut, Spendable, StakeSubsidy, View, TxOk, StakeGain, FeesPaid, TxsOk;
      hide IsCoinBase, IsCoinStake, IsProofOfStake;
      nMoneySupply := nPrevSupply;
      if !WellFormed(b) || !rules.otherRules(b) {
        return false, nMoneySupply;
      }
      var queued: Index := map[];
      NothingQueued(txdb);
      OneMoreTx(txdb, disk, b, ctx.policy, rules.minFee, 0);
      var nFees, nValueIn, nValueOut, nStakeReward := 0, 0, 0, 0;
      ghost var minted := 0;
      var k := 0;
      while k < |b.vtx|
        invariant 0 <= k <= |b.vtx| && txdb == old(txdb)
        invariant View(txdb, queued) == ConnectTxs(txdb, b, k) && AllSpendable(txdb, b, k)
        invariant AllStored(View(txdb, queued), disk) && TxsOk(txdb, disk, b, ctx.policy, rules.minFee, k)
        invariant nValueOut - nValueIn == Total(View(txdb, queued), disk) - Total(txdb, disk)
        invariant k >= 1 ==> nValueOut - nValueIn + nFees == ValueOut(b.vtx[0].vout) + minted
        invariant k == 0 ==> nValueOut == nValueIn == nFees == 0
        invariant nFees >= 0 && nFees == FeesPaid(txdb, disk, b, k)
        invariant IsProofOfStake(b) ==> minted == if k >= 2 then nStakeReward else 0
        invariant minted == StakeGain(txdb, disk, b, k)
        invariant k <= 1 ==> minted == 0
      {
        var tx := b.vtx[k];
        var nTxValueIn, nTxValueOut;
        KindOf(b, k);
        OneMoreTx(txdb, disk, b, ctx.policy, rules.minFee, k);
        ok, queued, nTxValueIn, nTxValueOut := ConnectOne(txdb, queued, disk, b, k, ctx.policy, rules.minFee(tx));
        if !ok {
          NotAllOk(txdb, disk, b, ctx.policy, rules.minFee, k, |b.vtx|);
          return false, nMoneySupply;
        }
        nValueIn := nValueIn + nTxValueIn;
        nValueOut := nValueOut + nTxValueOut;
        if !IsCoinBase(tx) {
          if IsCoinStake(tx) {
            nStakeReward := nTxValueOut - nTxValueIn;
            minted := minted + nStakeReward;
          } else {
            nFees := nFees + (nTxValueIn - nTxValueOut);
          }
        }
        k := k + 1;
      }
      EmptyCoinBase(b);
      KindOf(b, 0);
      if NoCoinStake(b) {
        NoStakeGain(txdb, disk, b, |b.vtx|);
      }
      var nCoinBaseOut := GetValueOut(b.vtx[0].vout);
      if !IsProofOfStake(b) && nCoinBaseOut > GetProofOfWorkReward(ctx.nHeight) {
        return false, nMoneySupply;
      }
      if IsProofOfStake(b) && nStakeReward > GetProofOfStakeReward(ctx.fV3, nPrevSupply, ctx.nCoinAge, nFees) {
        return false, nMoneySupply;
      }
      nMoneySupply := nPrevSupply + nValueOut - nValueIn;
      if IsProofOfStake(b) {
        RiseBound(ctx.fV3, nPrevSupply, ctx.nCoinAge, nMoneySupply - nPrevSupply);
      }
      WriteQueued(txdb, queued);
      txdb := txdb + queued;
      ok := true;
    }

    /** `DisconnectInputs`: relinquish the spent pointers, then remove the transaction. */
    method DisconnectInputs(tx: Tx) returns (ok: bool)
      modifies this`txdb
      ensures ok <==> InRangeOrGone(old(txdb), Spends(tx))
      ensures ok ==> txdb == DisconnectTx(old(txdb), tx)
    {
      hide Mark, MarkEntry;
      MarkNothing(txdb, NoPos);
      var ops := Spends(tx);
      var i := 0;
      assert ops[..0] == [];
      while i < |ops|
        invariant 0 <= i <= |ops|
        invariant txdb == Mark(old(txdb), ops[..i], NoPos)
        invariant forall j :: 0 <= j < i && ops[j].hash in old(txdb) ==> Exists(old(txdb), ops[j])
      {
        var o := ops[i];
        assert ops[..i + 1] == ops[..i] + [o];
        MarkMore(old(txdb), ops[..i], o, NoPos);
        MarkShape(old(txdb), ops[..i], NoPos, o.hash);
        if o.hash in txdb {
          if o.n >= |txdb[o.hash].vSpent| {
            return false;
          }
          var txindex := txdb[o.hash];
          txdb := txdb[o.hash := txindex.(vSpent := txindex.vSpent[o.n := NoPos])];
        }
        i := i + 1;
      }
      assert ops[..|ops|] == ops;
      txdb := txdb - {tx.hash};
      ok := true;
    }

    method DisconnectBlock(b: Block) returns (ok: bool)
      modifies this`txdb
      ensures ok ==> txdb == DisconnectTxs(old(txdb), b, |b.vtx|)
      ensures Undoable(old(txdb), b, |b.vtx|) ==> ok
    {
      hide DisconnectTx;
      var k := |b.vtx|;
      while k > 0
        invariant 0 <= k <= |b.vtx|
        invariant DisconnectTxs(txdb, b, k) == DisconnectTxs(old(txdb), b, |b.vtx|)
        invariant Undoable(old(txdb), b, |b.vtx|) ==> Undoable(txdb, b, k)
      {
        k := k - 1;
        ok := DisconnectInputs(b.vtx[k]);
        if !ok {
          return;
        }
      }
      ok := true;
    }

    //////////////////////////////////////////////////////////////////////////
    // The tip
    //////////////////////////////////////////////////////////////////////////

    /** A block on top of the tip. The chain can be taken back later when the ids of the block are fresh. */
    method ConnectTip(b: Block, ctx: Context) returns (ok: bool)
      requires Valid() && OnDisk(b, disk)
      modifies this
      ensures !ok || old(Fresh(txdb, b)) ==> Valid()
      ensures Supply(|links|) == Total(txdb, disk)
      ensures ok <==> old(Acceptable(b, ctx, Supply(|links|)))
      ensures links == if ok then old(links) + [Link(b, Supply(|links|))] else old(links)
      ensures txdb == if ok then ConnectTxs(old(txdb), b, |b.vtx|) else old(txdb)
      ensures ok && IsProofOfStake(b) ==>
        Supply(|links|) <= old(Supply(|links|)) + StakeSubsidy(ctx.fV3, old(Supply(|links|)), ctx.nCoinAge)
    {
      hide Total, ConnectTxs, AllStored, OnDisk, AllSpendable, Fresh, WellFormed, StakeSubsidy, DistinctTxs, NoCoinStake;
      assert Sound(After(|links|), Supply(|links|), disk);
      ghost var was := txdb;
      var nPrev := Supply(|links|);
      var nMoneySupply;
      ok, nMoneySupply := ConnectBlock(b, ctx, nPrev);
      if !ok {
        assert forall i :: 0 <= i <= |links| ==> After(i) == old(After(i));
        return;
      }
      AreDistinct(b);
      links := links + [Link(b, nMoneySupply)];
      before := before + [was];
      assert forall i :: 0 <= i < |links| ==> After(i) == old(After(i)) && Supply(i) == old(Supply(i));
      assert forall i :: 0 <= i < |links| - 1 ==> links[i] == old(links)[i];
      assert old(Fresh(txdb, b)) ==> Connected(b, After(|links| - 1), After(|links|));
      assert Sound(After(|links|), Supply(|links|), disk);
    }

    /** Aborting a database transaction: everything is as it was saved. */
    method Abort(txdb: Index, links: seq<Link>, ghost before: seq<Index>)
      modifies this
      ensures this.txdb == txdb && this.links == links && this.before == before
    {
      this.txdb, this.links := txdb, links;
      this.before := before;
    }

    method DisconnectTip() returns (ok: bool)
      requires Valid() && |links| > 0
      modifies this
      ensures ok && Valid()
      ensures links == old(links)[..|old(links)| - 1]
      ensures txdb == old(before)[|old(links)| - 1]
    {
      hide Total, AllStored, ConnectTxs, DisconnectTxs, AllSpendable, Fresh, DistinctTxs, Undoable;
      var last := |links| - 1;
      ghost var was := before[last];
      var b := links[last].block;
      assert Connected(b, After(last), After(last + 1));
      assert Sound(After(last), Supply(last), disk);
      DisconnectRestores(was, b);
      ConnectedIsUndoable(was, b, |b.vtx|);
      ok := DisconnectBlock(b);
      links := links[..last];
      before := before[..last];
      assert forall i :: 0 <= i <= |links| ==> After(i) == old(After(i)) && Supply(i) == old(Supply(i));
    }
  }

  ghost predicate Connected(b: Block, ix: Index, ix': Index) {
    && WellFormed(b) && AllSpendable(ix, b, |b.vtx|) && DistinctTxs(b) && Fresh(ix, b)
    && ix' == ConnectTxs(ix, b, |b.vtx|)
  }

  ghost predicate Sound(ix: Index, nMoneySupply: int, disk: Disk) {
    AllStored(ix, disk) && nMoneySupply == Total(ix, disk)
  }

  /** Every listed output whose transaction is indexed exists. */
  ghost predicate InRangeOrGone(ix: Index, ops: seq<OutPoint>) {
    forall i :: 0 <= i < |ops| && ops[i].hash in ix ==> Exists(ix, ops[i])
  }

  /** No spent pointer is out of range while the block is taken back. */
  ghost predicate Undoable(ix: Index, b: Block, k: nat)
    requires k <= |b.vtx|
  {
    k > 0 ==>
      && InRangeOrGone(ix, Spends(b.vtx[k - 1]))
      && Undoable(DisconnectTx(ix, b.vtx[k - 1]), b, k - 1)
  }

  lemma {:induction false} ConnectedIsUndoable(ix: Index, b: Block, k: nat)
    requires k <= |b.vtx| && AllSpendable(ix, b, k) && DistinctTxs(b) && Fresh(ix, b)
    ensures Undoable(ConnectTxs(ix, b, k), b, k)
  {
    hide ConnectTx, DisconnectTx;
    if k > 0 {
      var view := ConnectTxs(ix, b, k - 1);
      var tx := b.vtx[k - 1];
      ConnectKeys(ix, b, k - 1, tx.hash);
      DisconnectUndoesTx(view, tx, PosOf(b, k - 1));
      ConnectedIsUndoable(ix, b, k - 1);
      SpentExist(view, tx, PosOf(b, k - 1));
    }
  }

  lemma {:induction false} SpentExist(ix: Index, tx: Tx, pos: TxPos)
    requires Spendable(ix, tx) && tx.hash !in ix
    ensures forall i :: 0 <= i < |Spends(tx)| ==> Exists(ConnectTx(ix, tx, pos), Spends(tx)[i])
  {
    forall i | 0 <= i < |Spends(tx)| ensures Exists(ConnectTx(ix, tx, pos), Spends(tx)[i]) {
      assert IsUnspent(ix, Spends(tx)[i]);
    }
  }

  /** The index that connecting the first k blocks to an empty one gives. */
  ghost function Replay(links: seq<Link>, k: nat): Index
    requires k <= |links|
  {
    if k == 0 then map[] else ConnectTxs(Replay(links, k - 1), links[k - 1].block, |links[k - 1].block.vtx|)
  }

  /** Whatever was connected and disconnected on the way, the index depends only on the blocks of
      the chain: it is what connecting them to an empty index gives. */
  lemma {:induction false} IndexIsReplay(c: Chain, k: nat)
    requires c.Valid() && k <= |c.links|
    ensures c.After(k) == Replay(c.links, k)
  {
    hide ConnectTxs, Sound, Total;
    if k > 0 {
      IndexIsReplay(c, k - 1);
      assert Connected(c.links[k - 1].block, c.After(k - 1), c.After(k));
    }
  }

  lemma {:induction false} NothingQueued(txdb: Index)
    ensures View(txdb, map[]) == txdb
  {
  }

  lemma {:induction false} WriteQueued(txdb: Index, queued: Index)
    ensures View(txdb, queued) == txdb + queued
  {
  }

  lemma {:induction false} KindOf(b: Block, k: nat)
    requires WellFormed(b) && k < |b.vtx|
    ensures IsCoinBase(b.vtx[k]) <==> k == 0
    ensures IsCoinBase(b.vtx[k]) ==> !IsCoinStake(b.vtx[k])
    ensures IsProofOfStake(b) ==> |b.vtx| > 1 && (IsCoinStake(b.vtx[k]) <==> k == 1)
  {
  }

  lemma {:induction false} EmptyCoinBase(b: Block)
    requires WellFormed(b)
    ensures IsProofOfStake(b) ==> ValueOut(b.vtx[0].vout) == 0
  {
    if IsProofOfStake(b) {
      var vout := b.vtx[0].vout;
      assert ValueOut(vout[..0]) == 0;
    }
  }

  lemma {:induction false} MarkShape(ix: Index, ops: seq<OutPoint>, v: TxPos, h: Hash)
    ensures h in Mark(ix, ops, v) <==> h in ix
    ensures h in ix ==> |Mark(ix, ops, v)[h].vSpent| == |ix[h].vSpent|
  {
  }

  lemma {:induction false} AreDistinct(b: Block)
    requires WellFormed(b)
    ensures DistinctTxs(b)
  {
  }

  //////////////////////////////////////////////////////////////////////////////
  // Runs
  //////////////////////////////////////////////////////////////////////////////

  datatype Step = Connect(b: Block, ctx: Context) | Disconnect

  function TipSupply(links: seq<Link>): int {
    if links == [] then 0 else links[|links| - 1].nMoneySupply
  }

  /** The chain after one step; a block that is not stored or has an id of the chain is not offered. */
  ghost function Next(r: Rules, disk: Disk, links: seq<Link>, step: Step): seq<Link> {
    match step
    case Connect(b, ctx) =>
      var ix := Replay(links, |links|);
      if OnDisk(b, disk) && Fresh(ix, b) && Accepts(r, ix, disk, b, ctx, TipSupply(links))
      then links + [Link(b, Total(ConnectTxs(ix, b, |b.vtx|), disk))]
      else links
    case Disconnect => if links == [] then [] else links[..|links| - 1]
  }

  /** The chain that a sequence of steps leads to, and what each block on it recorded. */
  ghost function Outcome(r: Rules, disk: Disk, steps: seq<Step>): seq<Link> {
    if steps == [] then []
    else Next(r, disk, Outcome(r, disk, steps[..|steps| - 1]), steps[|steps| - 1])
  }

  method TakeStep(c: Chain, step: Step)
    requires c.Valid()
    modifies c
    ensures c.Valid() && c.links == Next(c.rules, c.disk, old(c.links), step)
  {
    hide Total, AllStored, Sound, Connected, OnDisk, Fresh, Accepts, ConnectTxs, Replay;
    IndexIsReplay(c, |c.links|);
    assert c.Supply(|c.links|) == TipSupply(c.links);
    match step {
      case Connect(b, ctx) =>
        if OnDisk(b, c.disk) && Fresh(c.txdb, b) {
          var ok := c.ConnectTip(b, ctx);
        }
      case Disconnect =>
        if |c.links| > 0 {
          var ok := c.DisconnectTip();
        }
    }
  }

  lemma {:induction false} TipIsSound(c: Chain)
    requires c.Valid()
    ensures c.Supply(|c.links|) == Total(c.txdb, c.disk)
  {
    hide Total, AllStored, Connected;
    assert Sound(c.After(|c.links|), c.Supply(|c.links|), c.disk);
  }

  /** Over every sequence of connects and disconnects of blocks with fresh ids, the chain is the one specified, its
      index depends on its blocks alone, and the supply recorded for the tip is the total value of all outputs with
      a null spent pointer. */
  method Run(disk: Disk, r: Rules, steps: seq<Step>) returns (c: Chain)
    ensures c.Valid() && c.links == Outcome(r, disk, steps)
    ensures c.txdb == Replay(c.links, |c.links|)
    ensures TipSupply(c.links) == Total(c.txdb, disk)
  {
    hide Total, Next;
    c := new Chain(disk, r);
    var i := 0;
    while i < |steps|
      invariant 0 <= i <= |steps| && fresh(c) && c.Valid()
      invariant c.disk == disk && r == c.rules
      invariant c.links == Outcome(r, disk, steps[..i])
    {
      assert steps[..i + 1][..i] == steps[..i];
      TakeStep(c, steps[i]);
      i := i + 1;
    }
    assert steps[..|steps|] == steps;
    TipIsSound(c);
    IndexIsReplay(c, |c.links|);
  }
}
