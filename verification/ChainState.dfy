/** Connecting and disconnecting blocks: inputs are looked up through the queued changes, and the
    transaction index is written once the whole block has passed. */
module ChainState {
  import Arith
  import opened TxIndexing
  import opened MoneySupply

  const COIN: int := 100000000
  const COIN_YEAR_REWARD: int := 5 * 1000000

  /** What `FetchInputs` found for each previous transaction. */
  type Inputs = map<Hash, (TxIndex, Tx)>

  /** The checks of a spend that are not modelled: maturity, special marker, signature. */
  type InputPolicy = (Tx, Tx, nat) -> bool

  function View(txdb: Index, queued: Index): Index {
    txdb + queued
  }

  //////////////////////////////////////////////////////////////////////////////
  // Inputs
  //////////////////////////////////////////////////////////////////////////////

  predicate Readable(view: Index, disk: Disk, h: Hash) {
    h in view && view[h].pos in disk
  }

  /** A previous output that `FetchInputs` accepts. */
  predicate InRange(view: Index, disk: Disk, o: OutPoint) {
    Readable(view, disk, o.hash) && o.n < |disk[view[o.hash].pos].vout| && o.n < |view[o.hash].vSpent|
  }

  ghost predicate Faithful(view: Index, disk: Disk, inputs: Inputs) {
    forall h :: h in inputs ==> Readable(view, disk, h) && inputs[h] == (view[h], disk[view[h].pos])
  }

  method FetchInputs(txdb: Index, queued: Index, disk: Disk, tx: Tx) returns (ok: bool, inputs: Inputs)
    ensures ok <==> forall i :: 0 <= i < |Spends(tx)| ==> InRange(View(txdb, queued), disk, Spends(tx)[i])
    ensures ok ==> Faithful(View(txdb, queued), disk, inputs)
    ensures ok ==> forall i :: 0 <= i < |Spends(tx)| ==> Spends(tx)[i].hash in inputs
  {
    inputs := map[];
    if IsCoinBase(tx) {
      return true, inputs;
    }
    ghost var view := View(txdb, queued);
    var i := 0;
    while i < |tx.vin|
      invariant 0 <= i <= |tx.vin| && Faithful(view, disk, inputs)
      invariant forall j :: 0 <= j < i ==> tx.vin[j].hash in inputs
    {
      var h := tx.vin[i].hash;
      if h !in inputs {
        if h !in queued && h !in txdb {
          assert !InRange(view, disk, Spends(tx)[i]);
          return false, inputs;
        }
        var txindex := if h in queued then queued[h] else txdb[h];
        if txindex.pos !in disk {
          assert !InRange(view, disk, Spends(tx)[i]);
          return false, inputs;
        }
        inputs := inputs[h := (txindex, disk[txindex.pos])];
      }
      i := i + 1;
    }
    i := 0;
    while i < |tx.vin|
      invariant 0 <= i <= |tx.vin|
      invariant forall j :: 0 <= j < i ==> InRange(view, disk, tx.vin[j])
    {
      var o := tx.vin[i];
      if o.n >= |inputs[o.hash].1.vout| || o.n >= |inputs[o.hash].0.vSpent| {
        assert !InRange(view, disk, Spends(tx)[i]);
        return false, inputs;
      }
      i := i + 1;
    }
    ok := true;
  }

  /** `GetValueIn`: the value of the fetched outputs. */
  method GetValueIn(tx: Tx, inputs: Inputs, ghost view: Index, ghost disk: Disk) returns (value: int)
    requires AllStored(view, disk) && Faithful(view, disk, inputs)
    requires forall i :: 0 <= i < |Spends(tx)| ==> Spends(tx)[i].hash in inputs && Exists(view, Spends(tx)[i])
    ensures value == ValueIn(view, Spends(tx), |Spends(tx)|, disk)
  {
    value := 0;
    if IsCoinBase(tx) {
      return;
    }
    assert Spends(tx) == tx.vin;
    var i := 0;
    while i < |tx.vin|
      invariant 0 <= i <= |tx.vin| && value == ValueIn(view, tx.vin, i, disk)
    {
      var o := tx.vin[i];
      assert Exists(view, Spends(tx)[i]);
      assert Stored(view[o.hash], disk);
      value := value + inputs[o.hash].1.vout[o.n].nValue;
      i := i + 1;
    }
  }

  /** Every input is older than the transaction, is not negative and passes the checks not modelled. */
  predicate InputsPass(tx: Tx, inputs: Inputs, policy: InputPolicy) {
    forall i :: 0 <= i < |tx.vin| ==>
      && tx.vin[i].hash in inputs
      && var prev := inputs[tx.vin[i].hash].1;
         && prev.nTime <= tx.nTime && tx.vin[i].n < |prev.vout|
         && prev.vout[tx.vin[i].n].nValue >= 0 && policy(tx, prev, i)
  }

  /** The first loop of `ConnectInputs`: the cheap checks of every input. */
  method CheckInputs(tx: Tx, inputs: Inputs, policy: InputPolicy) returns (ok: bool)
    requires forall i :: 0 <= i < |tx.vin| ==> tx.vin[i].hash in inputs && tx.vin[i].n < |inputs[tx.vin[i].hash].1.vout|
    ensures ok <==> InputsPass(tx, inputs, policy)
  {
    var i := 0;
    while i < |tx.vin|
      invariant 0 <= i <= |tx.vin|
      invariant forall j :: 0 <= j < i ==>
        var prev := inputs[tx.vin[j].hash].1;
        prev.nTime <= tx.nTime && prev.vout[tx.vin[j].n].nValue >= 0 && policy(tx, prev, j)
    {
      var prev := inputs[tx.vin[i].hash].1;
      if prev.nTime > tx.nTime || prev.vout[tx.vin[i].n].nValue < 0 || !policy(tx, prev, i) {
        return false;
      }
      i := i + 1;
    }
    ok := true;
  }

  /** Inputs as they are after the first `i` outputs have been marked. */
  ghost predicate Marking(view: Index, marked: Index, inputs: Inputs, tx: Tx, i: nat, pos: TxPos)
    requires i <= |tx.vin|
  {
    && marked == Mark(view, tx.vin[..i], pos)
    && (forall h :: h in inputs ==> h in marked && inputs[h].0 == marked[h])
    && (forall j :: 0 <= j < |tx.vin| ==> tx.vin[j].hash in inputs && Exists(view, tx.vin[j]))
    && (forall j :: 0 <= j < i ==> IsUnspent(view, tx.vin[j]))
    && (forall j, k :: 0 <= j < k < i ==> tx.vin[j] != tx.vin[k])
  }

  lemma {:induction false} MarkingStep(view: Index, marked: Index, inputs: Inputs, tx: Tx, i: nat, pos: TxPos)
    requires i < |tx.vin| && pos != NoPos && Marking(view, marked, inputs, tx, i, pos)
    ensures
      var o := tx.vin[i];
      && Exists(marked, o) && marked[o.hash] == inputs[o.hash].0
      && (IsUnspent(marked, o) ==>
            var entry := inputs[o.hash].0.(vSpent := inputs[o.hash].0.vSpent[o.n := pos]);
            Marking(view, marked[o.hash := entry], inputs[o.hash := (entry, inputs[o.hash].1)], tx, i + 1, pos))
  {
    hide MarkEntry;
    var o, done := tx.vin[i], tx.vin[..i];
    assert tx.vin[..i + 1] == done + [o];
    MarkMore(view, done, o, pos);
    if IsUnspent(marked, o) {
      MarkedOnce(view, done, o, pos);
      assert forall j :: 0 <= j < i ==> tx.vin[j] == done[j];
    }
  }

  lemma {:induction false} MarkedOnce(view: Index, done: seq<OutPoint>, o: OutPoint, pos: TxPos)
    requires Exists(view, o) && pos != NoPos && IsUnspent(Mark(view, done, pos), o)
    ensures o !in done && IsUnspent(view, o)
  {
  }

  lemma {:induction false} StillFetched(view: Index, marked: Index, inputs: Inputs, tx: Tx, i: nat, pos: TxPos)
    requires i < |tx.vin| && Marking(view, marked, inputs, tx, i, pos)
    ensures tx.vin[i].hash in inputs
  {
  }

  /** The second loop of `ConnectInputs`: every output must be unspent, also among the queued
      changes and among the inputs before it; the marks go into the queue. */
  method MarkInputs(txdb: Index, queued: Index, tx: Tx, fetched: Inputs, pos: TxPos) returns (ok: bool, changed: Index)
    requires pos != NoPos && Marking(View(txdb, queued), View(txdb, queued), fetched, tx, 0, pos)
    ensures ok <==> && (forall i :: 0 <= i < |tx.vin| ==> IsUnspent(View(txdb, queued), tx.vin[i]))
                    && (forall i, j :: 0 <= i < j < |tx.vin| ==> tx.vin[i] != tx.vin[j])
    ensures ok ==> View(txdb, changed) == Mark(View(txdb, queued), tx.vin, pos)
  {
    hide Marking, Mark, MarkEntry, View;
    changed := queued;
    ghost var view := View(txdb, queued);
    var inputs: Inputs := fetched;
    var i := 0;
    while i < |tx.vin|
      invariant 0 <= i <= |tx.vin|
      invariant Marking(view, View(txdb, changed), inputs, tx, i, pos)
    {
      var o := tx.vin[i];
      MarkingStep(view, View(txdb, changed), inputs, tx, i, pos);
      StillFetched(view, View(txdb, changed), inputs, tx, i, pos);
      if inputs[o.hash].0.vSpent[o.n] != NoPos {
        SpentTwice(view, View(txdb, changed), inputs, tx, i, pos);
        return false, changed;
      }
      var entry := inputs[o.hash].0.(vSpent := inputs[o.hash].0.vSpent[o.n := pos]);
      QueueOne(txdb, changed, o.hash, entry);
      inputs := inputs[o.hash := (entry, inputs[o.hash].1)];
      changed := changed[o.hash := entry];
      i := i + 1;
    }
    MarkingDone(view, View(txdb, changed), inputs, tx, pos);
    ok := true;
  }

  lemma {:induction false} QueueOne(txdb: Index, queued: Index, h: Hash, e: TxIndex)
    ensures View(txdb, queued)[h := e] == View(txdb, queued[h := e])
  {
  }

  lemma {:induction false} MarkingDone(view: Index, marked: Index, inputs: Inputs, tx: Tx, pos: TxPos)
    requires Marking(view, marked, inputs, tx, |tx.vin|, pos)
    ensures marked == Mark(view, tx.vin, pos)
    ensures forall i :: 0 <= i < |tx.vin| ==> IsUnspent(view, tx.vin[i])
    ensures forall i, j :: 0 <= i < j < |tx.vin| ==> tx.vin[i] != tx.vin[j]
  {
    assert tx.vin[..|tx.vin|] == tx.vin;
  }

  /** A pointer already set is either an earlier spend or the same output listed twice. */
  lemma {:induction false} SpentTwice(view: Index, marked: Index, inputs: Inputs, tx: Tx, i: nat, pos: TxPos)
    requires i < |tx.vin| && Marking(view, marked, inputs, tx, i, pos)
    requires Exists(marked, tx.vin[i]) && marked[tx.vin[i].hash].vSpent[tx.vin[i].n] != NoPos
    ensures !IsUnspent(view, tx.vin[i]) || exists j :: 0 <= j < i && tx.vin[j] == tx.vin[i]
  {
    var o := tx.vin[i];
    if IsUnspent(view, o) {
      assert o in tx.vin[..i];
      var j :| 0 <= j < |tx.vin[..i]| && tx.vin[..i][j] == o;
    }
  }

  /** The fetched entries are those of the view, and every output the transaction spends is among them. */
  ghost predicate Fetched(view: Index, tx: Tx, fetched: Inputs) {
    && (forall h :: h in fetched ==> h in view && fetched[h].0 == view[h])
    && (forall i :: 0 <= i < |Spends(tx)| ==>
          && Spends(tx)[i].hash in fetched && Exists(view, Spends(tx)[i])
          && Spends(tx)[i].n < |fetched[Spends(tx)[i].hash].1.vout|)
  }

  /** `ConnectInputs` for a block or for the block assembler. */
  method ConnectInputs(txdb: Index, queued: Index, tx: Tx, fetched: Inputs, pos: TxPos, policy: InputPolicy, minFee: int,
                       nValueIn: int, nValueOut: int) returns (ok: bool, changed: Index)
    requires pos != NoPos && Fetched(View(txdb, queued), tx, fetched)
    ensures ok <==> IsCoinBase(tx) || (InputsPass(tx, fetched, policy) && Spendable(View(txdb, queued), tx)
                                       && (IsCoinStake(tx) || nValueIn - nValueOut >= (if minFee > 0 then minFee else 0)))
    ensures ok ==> Spendable(View(txdb, queued), tx)
    ensures ok ==> View(txdb, changed) == Mark(View(txdb, queued), Spends(tx), pos)
  {
    changed := queued;
    ghost var view := View(txdb, queued);
    MarkNothing(view, pos);
    if IsCoinBase(tx) {
      return true, changed;
    }
    assert Spends(tx) == tx.vin;
    ok := CheckInputs(tx, fetched, policy);
    if ok {
      assert tx.vin[..0] == [];
      ok, changed := MarkInputs(txdb, queued, tx, fetched, pos);
    }
    if ok && !IsCoinStake(tx) {
      ok := nValueIn >= nValueOut && nValueIn - nValueOut >= minFee;
    }
  }

  //////////////////////////////////////////////////////////////////////////////
  // Rewards
  //////////////////////////////////////////////////////////////////////////////

  predicate IsProofOfStake(b: Block) {
    |b.vtx| > 1 && IsCoinStake(b.vtx[1])
  }

  function GetProofOfWorkReward(nHeight: int): int {
    if nHeight == 1 then 18750000 * COIN else 0
  }

  /** Integer division that truncates toward zero. */
  function CDiv(a: int, b: int): int
    requires b > 0
  {
    if a >= 0 then a / b else -((-a) / b)
  }

  /** The part of the stake reward that is new money. */
  function StakeSubsidy(fV3: bool, nMoneySupply: int, nCoinAge: nat): int {
    if fV3 then CDiv(CDiv(nMoneySupply, COIN) * COIN_YEAR_REWARD, 365 * 24 * (60 * 60 / 64))
    else CDiv(nCoinAge * COIN_YEAR_REWARD * 33, 365 * 33 + 8)
  }

  function GetProofOfStakeReward(fV3: bool, nMoneySupply: int, nCoinAge: nat, nFees: int): int {
    StakeSubsidy(fV3, nMoneySupply, nCoinAge) + nFees
  }

  lemma {:induction false} AtMostQuotient(r: int, n: int, d: int)
    requires d > 0
    ensures r <= n / d <==> r * d <= n
  {
    var q := n / d;
    assert n == q * d + n % d;
    assert (q - r) * d == q * d - r * d;
    assert (q + 1 - r) * d == q * d + d - r * d;
    Arith.SignOfProduct(q + 1 - r, d);
    Arith.SignOfProduct(q - r, d);
  }

  /** What may be minted. From V3 on, in a time of which 365 * 24 * 56 make a year, a twentieth of the supply in a year,
      counted in whole coins; before, a twentieth of a coin for each coin that is a year of 365 8/33 days old. */
  lemma {:induction false} SubsidyIs(fV3: bool, nMoneySupply: int, nCoinAge: nat, r: int)
    ensures fV3 && nMoneySupply >= 0 ==>
      (r <= StakeSubsidy(fV3, nMoneySupply, nCoinAge) <==> r * (365 * 24 * 56) <= nMoneySupply / 100_000_000 * 5_000_000)
    ensures fV3 && nMoneySupply < 0 ==>
      (r <= StakeSubsidy(fV3, nMoneySupply, nCoinAge) <==> (r - 1) * (365 * 24 * 56) < -(-nMoneySupply / 100_000_000 * 5_000_000))
    ensures !fV3 ==>
      (r <= StakeSubsidy(fV3, nMoneySupply, nCoinAge) <==> r * 12053 <= nCoinAge * 33 * 5_000_000)
  {
    if !fV3 {
      AtMostQuotient(r, nCoinAge * COIN_YEAR_REWARD * 33, 12053);
    } else if nMoneySupply >= 0 {
      AtMostQuotient(r, nMoneySupply / COIN * COIN_YEAR_REWARD, 365 * 24 * 56);
    } else {
      AtMostQuotient(1 - r, -nMoneySupply / COIN * COIN_YEAR_REWARD, 365 * 24 * 56);
    }
  }

  /** The structural rules of `CheckBlock` that the accounting rests on. */
  predicate WellFormed(b: Block) {
    && b.vtx != [] && IsCoinBase(b.vtx[0])
    && (forall i :: 1 <= i < |b.vtx| ==> !IsCoinBase(b.vtx[i]))
    && (IsProofOfStake(b) ==>
          && |b.vtx[0].vout| == 1 && IsEmpty(b.vtx[0].vout[0])
          && forall i :: 2 <= i < |b.vtx| ==> !IsCoinStake(b.vtx[i]))
    && (forall i :: 0 <= i < |b.vtx| ==> b.vtx[i].vin != [] && b.vtx[i].vout != [])
    && (forall i, n :: 0 <= i < |b.vtx| && 0 <= n < |b.vtx[i].vout| ==> b.vtx[i].vout[n].nValue >= 0)
    && DistinctTxs(b)
  }

  //////////////////////////////////////////////////////////////////////////////
  // Blocks
  //////////////////////////////////////////////////////////////////////////////

  predicate OnDisk(b: Block, disk: Disk) {
    forall k :: 0 <= k < |b.vtx| ==> PosOf(b, k) in disk && disk[PosOf(b, k)] == b.vtx[k]
  }

  method GetValueOut(vout: seq<TxOut>) returns (value: int)
    ensures value == ValueOut(vout)
  {
    value := 0;
    var i := 0;
    while i < |vout|
      invariant 0 <= i <= |vout| && value == ValueOut(vout[..i])
    {
      assert vout[..i + 1][..i] == vout[..i];
      value := value + vout[i].nValue;
      i := i + 1;
    }
    assert vout[..|vout|] == vout;
  }

  /** Whether a new transaction of this id would overwrite an older one that still has an unspent output. */
  method OverwritesUnspent(txdb: Index, h: Hash) returns (r: bool)
    ensures r <==> !Settled(txdb, h)
  {
    if h in txdb {
      var vSpent := txdb[h].vSpent;
      var i := 0;
      while i < |vSpent|
        invariant 0 <= i <= |vSpent| && forall j :: 0 <= j < i ==> vSpent[j] != NoPos
      {
        if vSpent[i] == NoPos {
          return true;
        }
        i := i + 1;
      }
    }
    r := false;
  }

  /** Every input of a transaction that is not a coinbase is older than it, is not negative and passes the checks
      not modelled. */
  ghost predicate InputsGood(view: Index, disk: Disk, tx: Tx, policy: InputPolicy) {
    forall i :: 0 <= i < |tx.vin| ==>
      && InRange(view, disk, tx.vin[i])
      && var prev := disk[view[tx.vin[i].hash].pos];
         prev.nTime <= tx.nTime && prev.vout[tx.vin[i].n].nValue >= 0 && policy(tx, prev, i)
  }

  ghost predicate PaysEnough(view: Index, disk: Disk, tx: Tx, minFee: int) {
    && AllStored(view, disk) && (forall i :: 0 <= i < |Spends(tx)| ==> Exists(view, Spends(tx)[i]))
    && ValueIn(view, Spends(tx), |Spends(tx)|, disk) - ValueOut(tx.vout) >= if minFee > 0 then minFee else 0
  }

  /** When a transaction of a block is accepted: it overwrites nothing that is unspent, and it is a coinbase, or its
      inputs are good, exist and are unspent, and it pays enough. */
  ghost predicate TxOk(txdb: Index, view: Index, disk: Disk, tx: Tx, policy: InputPolicy, minFee: int) {
    && Settled(txdb, tx.hash)
    && (IsCoinBase(tx) ||
        (InputsGood(view, disk, tx, policy) && Spendable(view, tx) && (IsCoinStake(tx) || PaysEnough(view, disk, tx, minFee))))
  }

  lemma {:induction false} PassIsGood(view: Index, disk: Disk, tx: Tx, inputs: Inputs, policy: InputPolicy)
    requires !IsCoinBase(tx) && Faithful(view, disk, inputs)
    requires forall i :: 0 <= i < |Spends(tx)| ==> Spends(tx)[i].hash in inputs && InRange(view, disk, Spends(tx)[i])
    ensures InputsPass(tx, inputs, policy) <==> InputsGood(view, disk, tx, policy)
  {
    assert Spends(tx) == tx.vin;
  }

  lemma {:induction false} NotInRange(view: Index, disk: Disk, tx: Tx, policy: InputPolicy)
    requires !IsCoinBase(tx) && exists i :: 0 <= i < |Spends(tx)| && !InRange(view, disk, Spends(tx)[i])
    ensures !InputsGood(view, disk, tx, policy)
  {
  }

  /** The body of `ConnectBlock`'s loop: one transaction, on the queued changes. */
  method ConnectOne(txdb: Index, queued: Index, disk: Disk, b: Block, k: nat, policy: InputPolicy, minFee: int)
    returns (ok: bool, changed: Index, nTxValueIn: int, nTxValueOut: int)
    requires k < |b.vtx| && OnDisk(b, disk) && DistinctTxs(b)
    requires View(txdb, queued) == ConnectTxs(txdb, b, k) && AllStored(View(txdb, queued), disk)
    ensures ok <==> TxOk(txdb, View(txdb, queued), disk, b.vtx[k], policy, minFee)
    ensures ok ==> Spendable(View(txdb, queued), b.vtx[k])
    ensures ok ==> View(txdb, changed) == ConnectTxs(txdb, b, k + 1) && AllStored(View(txdb, changed), disk)
    ensures ok ==> nTxValueOut == ValueOut(b.vtx[k].vout) && (IsCoinBase(b.vtx[k]) ==> nTxValueIn == 0)
    ensures ok ==> Total(View(txdb, changed), disk) == Total(View(txdb, queued), disk) + nTxValueOut - nTxValueIn
    ensures ok && !IsCoinBase(b.vtx[k]) && !IsCoinStake(b.vtx[k]) ==> nTxValueIn >= nTxValueOut
  {
    hide Total, ConnectTx, Mark, MarkEntry, View, AllStored, Stored, ValueIn, OnDisk, PosOf, Settled, Spendable, InRange, Faithful, ValueOut, Fetched, InputsPass, InputsGood;
    var tx := b.vtx[k];
    var pos := PosOf(b, k);
    ghost var view := View(txdb, queued);
    changed, nTxValueIn, nTxValueOut := queued, 0, 0;
    var overwrites := OverwritesUnspent(txdb, tx.hash);
    if overwrites {
      return false, changed, nTxValueIn, nTxValueOut;
    }
    StoredThere(b, disk, k);
    SettledStays(txdb, b, k, tx.hash);
    var inputs;
    ok, inputs := FetchInputs(txdb, queued, disk, tx);
    if !ok {
      NotInRange(view, disk, tx, policy);
      return;
    }
    RangesExist(view, disk, tx);
    if !IsCoinBase(tx) {
      PassIsGood(view, disk, tx, inputs, policy);
    }
    FetchedThere(view, disk, tx, inputs);
    nTxValueIn := GetValueIn(tx, inputs, view, disk);
    nTxValueOut := GetValueOut(tx.vout);
    ok, changed := ConnectInputs(txdb, queued, tx, inputs, pos, policy, minFee, nTxValueIn, nTxValueOut);
    if !ok {
      return;
    }
    TotalAfterConnect(view, tx, pos, disk);
    var entry := TxIndex(pos, NoneSpent(|tx.vout|));
    QueueOne(txdb, changed, tx.hash, entry);
    ConnectTxIs(view, tx, pos);
    changed := changed[tx.hash := entry];
    NothingIn(view, tx, disk);
  }

  lemma {:induction false} StoredThere(b: Block, disk: Disk, k: nat)
    requires k < |b.vtx| && OnDisk(b, disk)
    ensures PosOf(b, k) != NoPos && PosOf(b, k) in disk && disk[PosOf(b, k)] == b.vtx[k]
  {
  }

  lemma {:induction false} FetchedThere(view: Index, disk: Disk, tx: Tx, inputs: Inputs)
    requires Faithful(view, disk, inputs)
    requires forall i :: 0 <= i < |Spends(tx)| ==> Spends(tx)[i].hash in inputs && InRange(view, disk, Spends(tx)[i])
    ensures Fetched(view, tx, inputs)
  {
  }

  lemma {:induction false} RangesExist(view: Index, disk: Disk, tx: Tx)
    requires forall i :: 0 <= i < |Spends(tx)| ==> InRange(view, disk, Spends(tx)[i])
    ensures forall i :: 0 <= i < |Spends(tx)| ==> Exists(view, Spends(tx)[i])
  {
    forall i | 0 <= i < |Spends(tx)| ensures Exists(view, Spends(tx)[i]) {
      assert InRange(view, disk, Spends(tx)[i]);
    }
  }

  lemma {:induction false} ConnectTxIs(view: Index, tx: Tx, pos: TxPos)
    ensures ConnectTx(view, tx, pos) == Mark(view, Spends(tx), pos)[tx.hash := TxIndex(pos, NoneSpent(|tx.vout|))]
  {
  }

  lemma {:induction false} NothingIn(view: Index, tx: Tx, disk: Disk)
    requires AllStored(view, disk) && forall i :: 0 <= i < |Spends(tx)| ==> Exists(view, Spends(tx)[i])
    ensures IsCoinBase(tx) ==> ValueIn(view, Spends(tx), |Spends(tx)|, disk) == 0
  {
  }
}
