/** A proof-of-work block may carry a coinstake behind its second transaction. Nothing bounds what that mints. */
module CoinStakes {
  import opened TxIndexing
  import opened MoneySupply
  import opened ChainState
  import opened BlockChain

  /** No proof of work is accepted above this height. */
  const LAST_POW_BLOCK: int := 20000

  /** An earlier coinbase with an output worth a fee and a worthless one. */
  function Earlier(fee: nat): Tx {
    Tx(1, 0, 10, [NULL_OUTPOINT], [TxOut(fee, true), TxOut(0, true)])
  }

  function Funds(): Index {
    map[1 := TxIndex(TxPos(1, 5, 5), [NoPos, NoPos])]
  }

  function CoinBase(): Tx {
    Tx(2, 0, 10, [NULL_OUTPOINT], [TxOut(0, true)])
  }

  /** A transaction that pays the fee. */
  function Ordinary(): Tx {
    Tx(3, 0, 10, [OutPoint(1, 0)], [TxOut(0, true)])
  }

  function Stake(m: nat): Tx {
    Tx(4, 0, 10, [OutPoint(1, 1)], [TxOut(0, false), TxOut(m, true)])
  }

  function Minting(m: nat): Block {
    Block([CoinBase(), Ordinary(), Stake(m)], 1, 100, 100)
  }

  function Files(fee: nat, m: nat): Disk {
    map[TxPos(1, 5, 5) := Earlier(fee), TxPos(1, 100, 100) := CoinBase(), TxPos(1, 100, 110) := Ordinary(), TxPos(1, 100, 120) := Stake(m)]
  }

  /** Every transaction has to pay the fee. */
  function Charging(fee: nat): Rules {
    Rules(_ => fee, _ => true)
  }

  function AnyInput(nHeight: int): Context {
    Context(nHeight, false, 0, (_, _, _) => true)
  }

  lemma {:induction false} Shape(fee: nat, m: nat)
    ensures WellFormed(Minting(m)) && !IsProofOfStake(Minting(m)) && IsCoinStake(Minting(m).vtx[2])
    ensures PosOf(Minting(m), 0) == TxPos(1, 100, 100) && PosOf(Minting(m), 1) == TxPos(1, 100, 110)
    ensures PosOf(Minting(m), 2) == TxPos(1, 100, 120)
    ensures OnDisk(Minting(m), Files(fee, m)) && AllStored(Funds(), Files(fee, m)) && Fresh(Funds(), Minting(m))
  {
    var b := Minting(m);
    assert TxOffset(b, 0) == 100 && TxOffset(b, 1) == 110 && TxOffset(b, 2) == 120;
  }

  /** Connecting one more transaction of a stored block with fresh ids. */
  lemma {:induction false} StepGain(ix: Index, b: Block, k: nat, disk: Disk)
    requires k < |b.vtx| && OnDisk(b, disk) && Fresh(ix, b) && DistinctTxs(b)
    requires AllStored(ConnectTxs(ix, b, k), disk) && Spendable(ConnectTxs(ix, b, k), b.vtx[k])
    ensures AllStored(ConnectTxs(ix, b, k + 1), disk)
    ensures var view, ops := ConnectTxs(ix, b, k), Spends(b.vtx[k]);
            && (forall i :: 0 <= i < |ops| ==> Exists(view, ops[i]))
            && Total(ConnectTxs(ix, b, k + 1), disk) == Total(view, disk) + ValueOut(b.vtx[k].vout) - ValueIn(view, ops, |ops|, disk)
  {
    hide Total, ValueOut, ConnectTx;
    ConnectKeys(ix, b, k, b.vtx[k].hash);
    StoredThere(b, disk, k);
    TotalAfterConnect(ConnectTxs(ix, b, k), b.vtx[k], PosOf(b, k), disk);
  }

  lemma {:induction false} OneOut(out: TxOut)
    ensures ValueOut([out]) == out.nValue
  {
    assert [out][..0] == [];
  }

  lemma {:induction false} TwoOuts(a: TxOut, b: TxOut)
    ensures ValueOut([a, b]) == a.nValue + b.nValue
  {
    assert [a, b][..1] == [a];
    OneOut(a);
  }

  /** The two outputs on the way: the second one is not touched before the coinstake. */
  ghost predicate Untouched(ix: Index, n: nat) {
    && 1 in ix && ix[1].pos == TxPos(1, 5, 5) && |ix[1].vSpent| == 2
    && forall i :: n <= i < 2 ==> ix[1].vSpent[i] == NoPos
  }

  lemma {:induction false} Views(fee: nat, m: nat)
    ensures var b, ix := Minting(m), Funds();
            && ConnectTxs(ix, b, 0) == ix && Untouched(ix, 0)
            && Untouched(ConnectTxs(ix, b, 1), 0) && Untouched(ConnectTxs(ix, b, 2), 1)
  {
    var b, ix := Minting(m), Funds();
    Shape(fee, m);
    hide MarkEntry, PosOf, ConnectTxs;
    Unfolds(ix, b, 0);
    Unfolds(ix, b, 1);
    NothingYet(ix, b);
    assert Spends(b.vtx[0]) == [] && Spends(b.vtx[1]) == [OutPoint(1, 0)];
  }

  lemma {:induction false} NothingYet(ix: Index, b: Block)
    ensures ConnectTxs(ix, b, 0) == ix
  {
  }

  lemma {:induction false} Unfolds(ix: Index, b: Block, k: nat)
    requires k < |b.vtx|
    ensures ConnectTxs(ix, b, k + 1) == ConnectTx(ConnectTxs(ix, b, k), b.vtx[k], PosOf(b, k))
  {
  }

  /** A transaction that spends one output of the earlier one and keeps nothing, or is a coinstake. */
  lemma {:induction false} SpendsEarlier(fee: nat, m: nat, ix: Index, tx: Tx, n: nat)
    requires n < 2 && Untouched(ix, n) && tx.vin == [OutPoint(1, n)] && tx.nTime == 0
    requires AllStored(ix, Files(fee, m)) && Settled(Funds(), tx.hash)
    ensures Spendable(ix, tx) && Exists(ix, Spends(tx)[0])
    ensures ValueIn(ix, Spends(tx), 1, Files(fee, m)) == if n == 0 then fee else 0
    ensures IsCoinStake(tx) || (n == 0 && ValueOut(tx.vout) == 0) ==>
      TxOk(Funds(), ix, Files(fee, m), tx, AnyInput(0).policy, Charging(fee).minFee(tx))
  {
    assert Spends(tx) == tx.vin;
    assert ValueIn(ix, Spends(tx), 0, Files(fee, m)) == 0;
    assert InputsGood(ix, Files(fee, m), tx, AnyInput(0).policy);
  }

  /** For every fee and every amount there is an accepted proof-of-work block, at every height between the first and the
      last one for proof of work, that adds the amount without the fee to the value of the unspent outputs, where the
      reward is nothing: what its coinstake mints and the fee it collects decide alone. */
  lemma {:induction false} CoinStakeMints(fee: nat, m: nat, nHeight: nat)
    requires 1 < nHeight <= LAST_POW_BLOCK
    ensures var b, ix, disk := Minting(m), Funds(), Files(fee, m);
            && !IsProofOfStake(b) && OnDisk(b, disk) && AllStored(ix, disk) && Fresh(ix, b)
            && Accepts(Charging(fee), ix, disk, b, AnyInput(nHeight), fee)
            && GetProofOfWorkReward(nHeight) == 0
            && StakeGain(ix, disk, b, 3) == m && FeesPaid(ix, disk, b, 3) == fee
            && Total(ConnectTxs(ix, b, 3), disk) - Total(ix, disk) == Rise(ix, disk, b) == m - fee
  {
    var b, ix, disk := Minting(m), Funds(), Files(fee, m);
    hide Total, ConnectTxs, Spendable, OnDisk, AllStored, ValueIn, PosOf, StakeGain, FeesPaid;
    Shape(fee, m);
    Views(fee, m);
    OneOut(TxOut(0, true));
    TwoOuts(TxOut(0, false), TxOut(m, true));
    NoInputs(ix, b.vtx[0]);
    StepGain(ix, b, 0, disk);
    SpendsEarlier(fee, m, ConnectTxs(ix, b, 1), b.vtx[1], 0);
    StepGain(ix, b, 1, disk);
    SpendsEarlier(fee, m, ConnectTxs(ix, b, 2), b.vtx[2], 1);
    StepGain(ix, b, 2, disk);
    ThreeOk(ix, disk, b, AnyInput(nHeight).policy, Charging(fee).minFee);
    NothingSpent(ix, disk);
    Sums(ix, disk, b, Charging(fee).minFee);
  }

  lemma {:induction false} Sums(ix: Index, disk: Disk, b: Block, minFee: Tx -> int)
    requires |b.vtx| == 3 && IsCoinBase(b.vtx[0]) && !IsCoinStake(b.vtx[0])
    requires !IsCoinBase(b.vtx[1]) && !IsCoinStake(b.vtx[1]) && IsCoinStake(b.vtx[2])
    ensures StakeGain(ix, disk, b, 3) == Total(ConnectTxs(ix, b, 3), disk) - Total(ConnectTxs(ix, b, 2), disk)
    ensures FeesPaid(ix, disk, b, 3) == Total(ConnectTxs(ix, b, 1), disk) - Total(ConnectTxs(ix, b, 2), disk)
  {
    hide Total, ConnectTxs;
    OneMoreTx(ix, disk, b, AnyInput(0).policy, minFee, 0);
    OneMoreTx(ix, disk, b, AnyInput(0).policy, minFee, 1);
    OneMoreTx(ix, disk, b, AnyInput(0).policy, minFee, 2);
  }

  lemma {:induction false} NoInputs(ix: Index, tx: Tx)
    requires IsCoinBase(tx)
    ensures Spendable(ix, tx) && Spends(tx) == []
  {
  }

  lemma {:induction false} NothingSpent(ix: Index, disk: Disk)
    requires AllStored(ix, disk)
    ensures ValueIn(ix, [], 0, disk) == 0
  {
  }

  lemma {:induction false} ThreeOk(ix: Index, disk: Disk, b: Block, policy: InputPolicy, minFee: Tx -> int)
    requires |b.vtx| == 3
    requires forall k :: 0 <= k < 3 ==> TxOk(ix, ConnectTxs(ix, b, k), disk, b.vtx[k], policy, minFee(b.vtx[k]))
    ensures TxsOk(ix, disk, b, policy, minFee, 3)
  {
    hide TxOk, ConnectTxs;
    assert TxsOk(ix, disk, b, policy, minFee, 0);
    assert TxsOk(ix, disk, b, policy, minFee, 1);
    assert TxsOk(ix, disk, b, policy, minFee, 2);
  }
}
