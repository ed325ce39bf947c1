/** Assembling a block from the memory pool: `CreateNewBlock`. */
module Assembly {
  import opened TxIndexing
  import opened MoneySupply
  import opened ChainState
  import opened Scheduling

  /** The position that stands for "in the block being assembled". */
  const POOL_POS: TxPos := TxPos(1, 1, 1)

  const MAX_BLOCK_SIGOPS: nat := 2000000 / 50

  /** The chain and the memory pool. */
  datatype Env = Env(txdb: Index, disk: Disk, pool: map<Hash, Tx>)

  /** The limits of the assembler, and the judgements of transactions that are not modelled. */
  datatype Policy = Policy(nBlockMaxSize: nat, nBlockMinSize: nat, nBlockPrioritySize: int, nMinTxFee: real,
                           nAdjustedTime: int, fProofOfStake: bool, nCoinbaseTime: int,
                           isFinal: Tx -> bool, legacySigOps: Tx -> nat, p2shSigOps: Tx -> nat,
                           minFee: (Tx, nat) -> int, connectFee: Tx -> int, depth: TxPos -> int, inputOk: InputPolicy)

  /** The index and the block files agree, and the pool holds no transaction of the chain. */
  predicate EnvOk(env: Env) {
    && AllStored(env.txdb, env.disk)
    && (forall h :: h in env.txdb ==> env.txdb[h].pos != POOL_POS)
    && (forall h :: h in env.pool ==> h !in env.txdb && env.pool[h].hash == h && env.pool[h].nSize > 0)
  }

  //////////////////////////////////////////////////////////////////////////////
  // Inputs of a pool transaction
  //////////////////////////////////////////////////////////////////////////////

  /** The transaction with a hash, from the chain or from the pool. */
  function Origin(env: Env, h: Hash): Tx
    requires EnvOk(env) && (h in env.txdb || h in env.pool)
  {
    if h in env.txdb then env.disk[env.txdb[h].pos] else env.pool[h]
  }

  predicate IsKnown(env: Env, o: OutPoint)
    requires EnvOk(env)
  {
    (o.hash in env.txdb || o.hash in env.pool) && o.n < |Origin(env, o.hash).vout|
  }

  predicate AllKnown(env: Env, vin: seq<OutPoint>)
    requires EnvOk(env)
  {
    forall i :: 0 <= i < |vin| ==> IsKnown(env, vin[i])
  }

  /** The value of some inputs, wherever they are. */
  function InValue(env: Env, vin: seq<OutPoint>): int
    requires EnvOk(env) && AllKnown(env, vin)
  {
    if vin == [] then 0
    else
      var n := |vin| - 1;
      InValue(env, vin[..n]) + Origin(env, vin[n].hash).vout[vin[n].n].nValue
  }

  /** The fee of a transaction. */
  function Fee(env: Env, tx: Tx): int
    requires EnvOk(env) && AllKnown(env, tx.vin)
  {
    InValue(env, tx.vin) - ValueOut(tx.vout)
  }

  /** Value times depth of the inputs that are in the chain. */
  function Ages(env: Env, p: Policy, vin: seq<OutPoint>): real
    requires EnvOk(env) && AllKnown(env, vin)
  {
    if vin == [] then 0.0
    else
      var n := |vin| - 1;
      var o := vin[n];
      assert IsKnown(env, o);
      Ages(env, p, vin[..n]) +
      if o.hash in env.txdb then
        (Origin(env, o.hash).vout[o.n].nValue as real) * (p.depth(env.txdb[o.hash].pos) as real)
      else 0.0
  }

  /** A transaction's place in the queue: its priority and its fee for a thousand bytes. */
  function RankOf(env: Env, p: Policy, tx: Tx): TxPriority
    requires EnvOk(env) && AllKnown(env, tx.vin) && tx.nSize > 0
  {
    var nTxSize := tx.nSize as real;
    TxPriority(Ages(env, p, tx.vin) / nTxSize, (Fee(env, tx) as real) / (nTxSize / 1000.0), 0, tx)
  }

  /** Inputs count one by one: for their value wherever they are, for their age only when they are in the chain. */
  lemma {:induction false} InputsAddUp(env: Env, p: Policy, a: seq<OutPoint>, b: seq<OutPoint>)
    requires EnvOk(env) && AllKnown(env, a) && AllKnown(env, b) && AllKnown(env, a + b)
    ensures InValue(env, a + b) == InValue(env, a) + InValue(env, b)
    ensures Ages(env, p, a + b) == Ages(env, p, a) + Ages(env, p, b)
  {
    hide EnvOk;
    if b == [] {
      assert a + b == a;
    } else {
      var n := |b| - 1;
      assert (a + b)[..|a| + n] == a + b[..n];
      InputsAddUp(env, p, a, b[..n]);
    }
  }

  lemma {:induction false} OneInput(env: Env, p: Policy, o: OutPoint)
    requires EnvOk(env) && IsKnown(env, o) && AllKnown(env, [o])
    ensures o.hash in env.txdb ==>
      && var value := env.disk[env.txdb[o.hash].pos].vout[o.n].nValue;
         && InValue(env, [o]) == value
         && Ages(env, p, [o]) == (value as real) * (p.depth(env.txdb[o.hash].pos) as real)
    ensures o.hash in env.pool ==> InValue(env, [o]) == env.pool[o.hash].vout[o.n].nValue && Ages(env, p, [o]) == 0.0
  {
    assert [o][..0] == [];
  }

  /** The inputs that are outputs of pool transactions. */
  function Parents(env: Env, vin: seq<OutPoint>): seq<Hash> {
    if vin == [] then []
    else
      var n := |vin| - 1;
      Parents(env, vin[..n]) + if vin[n].hash in env.pool then [vin[n].hash] else []
  }

  lemma {:induction false} ParentsAre(env: Env, vin: seq<OutPoint>, h: Hash)
    ensures h in Parents(env, vin) <==> h in env.pool && exists i :: 0 <= i < |vin| && vin[i].hash == h
  {
    if vin != [] {
      var n := |vin| - 1;
      ParentsAre(env, vin[..n], h);
      if exists i :: 0 <= i < |vin| && vin[i].hash == h {
        var i :| 0 <= i < |vin| && vin[i].hash == h;
        assert i < n ==> vin[..n][i].hash == h;
      }
    }
  }

  /** An output that neither the chain nor the pool has. */
  predicate IsMissing(env: Env, o: OutPoint)
    requires EnvOk(env)
  {
    !(o.hash in env.txdb && o.n < |Origin(env, o.hash).vout|) && o.hash !in env.pool
  }

  /** What the scan needs: an output of a pool transaction exists, and when an input is missing, none
      before it comes from the pool. The first is what the pool promises; without the second the source is
      left with a pointer to an orphan that it has deleted. */
  predicate Scannable(env: Env, tx: Tx)
    requires EnvOk(env)
  {
    && (forall i :: 0 <= i < |tx.vin| && tx.vin[i].hash in env.pool ==> tx.vin[i].n < |env.pool[tx.vin[i].hash].vout|)
    && (forall i, j :: 0 <= i < j < |tx.vin| && tx.vin[i].hash in env.pool ==> !IsMissing(env, tx.vin[j]))
  }

  /** The scan of one transaction's inputs: their value, and the parents to wait for. */
  method Scan(env: Env, p: Policy, tx: Tx) returns (fMissingInputs: bool, nTotalIn: int, dPriority: real, waits: seq<Hash>)
    requires EnvOk(env) && Scannable(env, tx)
    ensures fMissingInputs <==> !AllKnown(env, tx.vin)
    ensures !fMissingInputs ==> nTotalIn == InValue(env, tx.vin) && waits == Parents(env, tx.vin)
    ensures !fMissingInputs ==> dPriority == Ages(env, p, tx.vin)
  {
    fMissingInputs, nTotalIn, dPriority, waits := false, 0, 0.0, [];
    var i := 0;
    while i < |tx.vin|
      invariant 0 <= i <= |tx.vin| && AllKnown(env, tx.vin[..i])
      invariant nTotalIn == InValue(env, tx.vin[..i]) && waits == Parents(env, tx.vin[..i])
      invariant dPriority == Ages(env, p, tx.vin[..i])
    {
      var o := tx.vin[i];
      assert tx.vin[..i + 1][..i] == tx.vin[..i];
      if o.hash in env.txdb && o.n < |env.disk[env.txdb[o.hash].pos].vout| {
        var txindex := env.txdb[o.hash];
        var nValueIn := env.disk[txindex.pos].vout[o.n].nValue;
        nTotalIn := nTotalIn + nValueIn;
        dPriority := dPriority + (nValueIn as real) * (p.depth(txindex.pos) as real);
      } else {
        if o.hash !in env.pool {
          assert !IsKnown(env, tx.vin[i]);
          return true, nTotalIn, dPriority, waits;
        }
        waits := waits + [o.hash];
        nTotalIn := nTotalIn + env.pool[o.hash].vout[o.n].nValue;
      }
      assert IsKnown(env, o);
      assert forall j :: 0 <= j < i + 1 ==> tx.vin[..i + 1][j] == tx.vin[j];
      assert forall j :: 0 <= j < i ==> tx.vin[..i][j] == tx.vin[j];
      i := i + 1;
    }
    assert tx.vin[..|tx.vin|] == tx.vin;
  }

  //////////////////////////////////////////////////////////////////////////////
  // Candidates
  //////////////////////////////////////////////////////////////////////////////

  predicate IsCandidate(env: Env, p: Policy, tx: Tx)
    requires EnvOk(env)
  {
    !IsCoinBase(tx) && !IsCoinStake(tx) && p.isFinal(tx) && AllKnown(env, tx.vin)
  }

  ghost predicate EntryOk(env: Env, p: Policy, e: TxPriority)
    requires EnvOk(env)
  {
    && e.tx.hash in env.pool && e.tx == env.pool[e.tx.hash] && IsCandidate(env, p, e.tx)
    && e.(nFee := 0) == RankOf(env, p, e.tx)
    && (e.nFee == 0 || e.nFee == Fee(env, e.tx))
  }

  ghost predicate EntriesOk(env: Env, p: Policy, queue: seq<TxPriority>)
    requires EnvOk(env)
  {
    forall i :: 0 <= i < |queue| ==> EntryOk(env, p, queue[i])
  }

  ghost predicate OrphanTxsOk(env: Env, p: Policy, orphans: seq<Orphan>)
    requires EnvOk(env)
  {
    forall k :: 0 <= k < |orphans| ==>
      var tx := orphans[k].tx;
      && tx.hash in env.pool && tx == env.pool[tx.hash] && IsCandidate(env, p, tx)
      && Entry(orphans[k]) == RankOf(env, p, tx)
  }

  /** The candidates among some pool transactions and what they wait for. */
  ghost predicate Collected(env: Env, p: Policy, hs: seq<Hash>, waits: Waits)
    requires EnvOk(env)
  {
    && (forall h :: h in waits <==> h in hs && h in env.pool && IsCandidate(env, p, env.pool[h]))
    && (forall h :: h in waits ==> waits[h] == Parents(env, env.pool[h].vin))
  }

  /** The pool in its own order. */
  ghost predicate Enumerates(order: seq<Hash>, pool: map<Hash, Tx>) {
    && (forall h :: h in pool <==> h in order)
    && (forall i, j :: 0 <= i < j < |order| ==> order[i] != order[j])
  }

  /** The first pass over the pool: candidates go to the queue or become orphans. */
  method Collect(env: Env, p: Policy, order: seq<Hash>)
    returns (orphans: seq<Orphan>, dependers: Dependers, queue: seq<TxPriority>, ghost waits: Waits)
    requires EnvOk(env) && Enumerates(order, env.pool)
    requires forall h :: h in env.pool ==> Scannable(env, env.pool[h])
    ensures Scheduled(waits, orphans, dependers, queue, {}, {})
    ensures EntriesOk(env, p, queue) && OrphanTxsOk(env, p, orphans) && Collected(env, p, order, waits)
  {
    orphans, dependers, queue, waits := [], map[], [], map[];
    var i := 0;
    while i < |order|
      invariant 0 <= i <= |order|
      invariant Scheduled(waits, orphans, dependers, queue, {}, {})
      invariant EntriesOk(env, p, queue) && OrphanTxsOk(env, p, orphans) && Collected(env, p, order[..i], waits)
    {
      hide Scheduled, IsCandidate, AllKnown, Fee, Collected, EntriesOk, OrphanTxsOk, EnvOk, Scannable, Parents, EntryOk;
      orphans, dependers, queue, waits := CollectOne(env, p, order, i, orphans, dependers, queue, waits);
      i := i + 1;
    }
    assert order[..|order|] == order;
  }

  method CollectOne(env: Env, p: Policy, order: seq<Hash>, i: nat, orphans: seq<Orphan>, dependers: Dependers,
                    queue: seq<TxPriority>, ghost waits: Waits)
    returns (orphans': seq<Orphan>, dependers': Dependers, queue': seq<TxPriority>, ghost waits': Waits)
    requires EnvOk(env) && Enumerates(order, env.pool) && i < |order|
    requires forall h :: h in env.pool ==> Scannable(env, env.pool[h])
    requires Scheduled(waits, orphans, dependers, queue, {}, {})
    requires EntriesOk(env, p, queue) && OrphanTxsOk(env, p, orphans) && Collected(env, p, order[..i], waits)
    ensures Scheduled(waits', orphans', dependers', queue', {}, {})
    ensures EntriesOk(env, p, queue') && OrphanTxsOk(env, p, orphans') && Collected(env, p, order[..i + 1], waits')
  {
    hide Scheduled, AllKnown, Collected, Scannable, Parents, Remaining, Depends;
    orphans', dependers', queue', waits' := orphans, dependers, queue, waits;
    var h := order[i];
    var tx := env.pool[h];
    NextCollected(env, p, order, i, waits);
    if IsCoinBase(tx) || IsCoinStake(tx) || !p.isFinal(tx) {
      return;
    }
    var fMissingInputs, nTotalIn, dPriority, w := Scan(env, p, tx);
    if fMissingInputs {
      return;
    }
    var nTxSize := tx.nSize as real;
    dPriority := dPriority / nTxSize;
    var nValueOut := GetValueOut(tx.vout);
    var nFee := nTotalIn - nValueOut;
    var dFeePerKb := (nFee as real) / (nTxSize / 1000.0);
    waits' := waits[h := w];
    if w != [] {
      var s;
      dependers', s := Enlist(dependers, w, |orphans|);
      var o := Orphan(tx, s, dPriority, dFeePerKb);
      AddOrphan(waits, orphans, dependers, queue, o, w, dependers');
      orphans' := orphans + [o];
    } else {
      var e := TxPriority(dPriority, dFeePerKb, nFee, tx);
      AddReady(waits, orphans, dependers, queue, e);
      queue' := queue + [e];
    }
  }

  lemma {:induction false} NextCollected(env: Env, p: Policy, order: seq<Hash>, i: nat, waits: Waits)
    requires EnvOk(env) && Enumerates(order, env.pool) && i < |order| && Collected(env, p, order[..i], waits)
    ensures order[i] in env.pool && order[i] !in waits
    ensures var tx := env.pool[order[i]];
            if IsCandidate(env, p, tx) then Collected(env, p, order[..i + 1], waits[order[i] := Parents(env, tx.vin)])
            else Collected(env, p, order[..i + 1], waits)
  {
    var h := order[i];
    assert h in order;
    hide IsCandidate, Parents, EnvOk;
    forall g ensures g in order[..i + 1] <==> g in order[..i] || g == h {
      assert order[..i + 1] == order[..i] + [h];
    }
    NotBefore(order, i);
  }

  lemma {:induction false} NotBefore(order: seq<Hash>, i: nat)
    requires i < |order| && forall i, j :: 0 <= i < j < |order| ==> order[i] != order[j]
    ensures order[i] !in order[..i]
  {
  }

  //////////////////////////////////////////////////////////////////////////////
  // The block being assembled
  //////////////////////////////////////////////////////////////////////////////

  /** The index after the assembled transactions. */
  function Replay(env: Env, vtx: seq<Tx>): Index {
    if vtx == [] then env.txdb else ConnectTx(Replay(env, vtx[..|vtx| - 1]), vtx[|vtx| - 1], POOL_POS)
  }

  /** Each transaction spends outputs that exist and are unspent when its turn comes. */
  predicate Chained(env: Env, vtx: seq<Tx>) {
    vtx != [] ==>
      var n := |vtx| - 1;
      Chained(env, vtx[..n]) && Spendable(Replay(env, vtx[..n]), vtx[n])
  }

  function TotalSize(vtx: seq<Tx>): nat {
    if vtx == [] then 0 else TotalSize(vtx[..|vtx| - 1]) + vtx[|vtx| - 1].nSize
  }

  function TotalSigOps(p: Policy, vtx: seq<Tx>): nat {
    if vtx == [] then 0
    else
      var n := |vtx| - 1;
      TotalSigOps(p, vtx[..n]) + p.legacySigOps(vtx[n]) + p.p2shSigOps(vtx[n])
  }

  function TotalFees(env: Env, vtx: seq<Tx>): int
    requires EnvOk(env) && forall i :: 0 <= i < |vtx| ==> AllKnown(env, vtx[i].vin)
  {
    if vtx == [] then 0
    else
      var n := |vtx| - 1;
      TotalFees(env, vtx[..n]) + Fee(env, vtx[n])
  }

  /** Entries of the view are those of the chain and of the assembled pool transactions. */
  ghost predicate Sourced(env: Env, view: Index)
    requires EnvOk(env)
  {
    forall h :: h in view ==>
      && (h in env.txdb || h in env.pool)
      && view[h].pos == (if h in env.txdb then env.txdb[h].pos else POOL_POS)
      && |view[h].vSpent| == |Origin(env, h).vout|
  }

  lemma {:induction false} SourcedAfter(env: Env, view: Index, tx: Tx)
    requires EnvOk(env) && Sourced(env, view) && tx.hash in env.pool && tx == env.pool[tx.hash]
    ensures Sourced(env, ConnectTx(view, tx, POOL_POS))
  {
    var r := ConnectTx(view, tx, POOL_POS);
    forall h | h in r && h != tx.hash
      ensures h in view && r[h].pos == view[h].pos && |r[h].vSpent| == |view[h].vSpent|
    {
    }
  }

  /** `FetchInputs` for the assembler: previous transactions are looked up in the proposed changes first, and
      those marked as being in the block are read from the pool. */
  method FetchFromPool(env: Env, testPool: Index, tx: Tx) returns (ok: bool, inputs: Inputs)
    requires EnvOk(env) && Sourced(env, View(env.txdb, testPool)) && !IsCoinBase(tx)
    ensures ok <==> forall i :: 0 <= i < |tx.vin| ==> Exists(View(env.txdb, testPool), tx.vin[i])
    ensures ok ==> Fetched(View(env.txdb, testPool), tx, inputs)
    ensures ok ==> forall i :: 0 <= i < |tx.vin| ==>
      tx.vin[i].hash in inputs && IsKnown(env, tx.vin[i]) && inputs[tx.vin[i].hash].1 == Origin(env, tx.vin[i].hash)
  {
    ghost var view := View(env.txdb, testPool);
    inputs := map[];
    var i := 0;
    while i < |tx.vin|
      invariant 0 <= i <= |tx.vin|
      invariant forall h :: h in inputs ==> h in view && inputs[h] == (view[h], Origin(env, h))
      invariant forall j :: 0 <= j < i ==> tx.vin[j].hash in inputs
    {
      var h := tx.vin[i].hash;
      if h !in inputs {
        if h !in testPool && h !in env.txdb {
          assert !Exists(view, tx.vin[i]);
          return false, inputs;
        }
        var txindex := if h in testPool then testPool[h] else env.txdb[h];
        assert txindex == view[h];
        var txPrev := if txindex.pos == POOL_POS then env.pool[h] else env.disk[txindex.pos];
        inputs := inputs[h := (txindex, txPrev)];
      }
      i := i + 1;
    }
    i := 0;
    while i < |tx.vin|
      invariant 0 <= i <= |tx.vin|
      invariant forall j :: 0 <= j < i ==> Exists(view, tx.vin[j])
    {
      var o := tx.vin[i];
      if o.n >= |inputs[o.hash].1.vout| || o.n >= |inputs[o.hash].0.vSpent| {
        assert !Exists(view, tx.vin[i]);
        return false, inputs;
      }
      i := i + 1;
    }
    ok := true;
  }

  method ValueOfInputs(env: Env, tx: Tx, inputs: Inputs) returns (value: int)
    requires EnvOk(env) && AllKnown(env, tx.vin)
    requires forall i :: 0 <= i < |tx.vin| ==>
      tx.vin[i].hash in inputs && inputs[tx.vin[i].hash].1 == Origin(env, tx.vin[i].hash)
    ensures value == InValue(env, tx.vin)
  {
    value := 0;
    var i := 0;
    while i < |tx.vin|
      invariant 0 <= i <= |tx.vin| && value == InValue(env, tx.vin[..i])
    {
      assert tx.vin[..i + 1][..i] == tx.vin[..i];
      assert IsKnown(env, tx.vin[i]);
      value := value + inputs[tx.vin[i].hash].1.vout[tx.vin[i].n].nValue;
      i := i + 1;
    }
    assert tx.vin[..|tx.vin|] == tx.vin;
  }

  //////////////////////////////////////////////////////////////////////////////
  // One turn
  //////////////////////////////////////////////////////////////////////////////

  predicate InputsOk(env: Env, p: Policy, tx: Tx)
    requires EnvOk(env) && AllKnown(env, tx.vin)
  {
    forall i :: 0 <= i < |tx.vin| ==>
      var prev := Origin(env, tx.vin[i].hash);
      IsKnown(env, tx.vin[i]) && prev.nTime <= tx.nTime && prev.vout[tx.vin[i].n].nValue >= 0 && p.inputOk(tx, prev, i)
  }

  /** The entry passes the first checks: size, legacy signature operations, time, and no free transaction past the
      minimum size once the order is by fee. */
  predicate PassesFirst(p: Policy, vtx: seq<Tx>, e: TxPriority, byFee: bool) {
    var tx, nBlockSize := e.tx, 1000 + TotalSize(vtx);
    && nBlockSize + tx.nSize < p.nBlockMaxSize
    && 100 + TotalSigOps(p, vtx) + p.legacySigOps(tx) < MAX_BLOCK_SIGOPS
    && tx.nTime <= p.nAdjustedTime && (p.fProofOfStake ==> tx.nTime <= p.nCoinbaseTime)
    && !(byFee && e.dFeePerKb < p.nMinTxFee && nBlockSize + tx.nSize >= p.nBlockMinSize)
  }

  /** The entry fits the limits of the block. */
  predicate Fits(p: Policy, vtx: seq<Tx>, e: TxPriority, byFee: bool) {
    && PassesFirst(p, vtx, e, byFee)
    && 100 + TotalSigOps(p, vtx) + p.legacySigOps(e.tx) + p.p2shSigOps(e.tx) < MAX_BLOCK_SIGOPS
  }

  /** The order after an entry has had its turn: by fee once an entry that passed the first checks reaches past the size
      kept for priority, or has too little priority. */
  predicate ByFeeAfter(p: Policy, vtx: seq<Tx>, e: TxPriority, byFee: bool) {
    || byFee
    || (&& PassesFirst(p, vtx, e, byFee)
        && (1000 + TotalSize(vtx) + e.tx.nSize >= p.nBlockPrioritySize || e.dPriority < (COIN * 144 / 250) as real))
  }

  /** The fee that connecting demands. */
  predicate FeeOk(env: Env, p: Policy, tx: Tx)
    requires EnvOk(env) && AllKnown(env, tx.vin)
  {
    Fee(env, tx) >= 0 && Fee(env, tx) >= p.connectFee(tx)
  }

  predicate Pays(env: Env, p: Policy, vtx: seq<Tx>, tx: Tx)
    requires EnvOk(env) && AllKnown(env, tx.vin)
  {
    Fee(env, tx) >= p.minFee(tx, 1000 + TotalSize(vtx)) && FeeOk(env, p, tx)
  }

  /** When an entry is added to a block. */
  predicate Addable(env: Env, p: Policy, vtx: seq<Tx>, e: TxPriority, byFee: bool)
    requires EnvOk(env) && AllKnown(env, e.tx.vin)
  {
    && Fits(p, vtx, e, byFee) && Pays(env, p, vtx, e.tx)
    && InputsOk(env, p, e.tx) && Spendable(Replay(env, vtx), e.tx)
  }

  method TryConnect(env: Env, p: Policy, testPool: Index, e: TxPriority, nBlockSize: nat, nBlockSigOps: nat, ghost vtx: seq<Tx>)
    returns (ok: bool, testPool': Index, nFee: int, nTxSigOps: nat)
    requires EnvOk(env) && EntryOk(env, p, e) && nBlockSize == 1000 + TotalSize(vtx)
    requires View(env.txdb, testPool) == Replay(env, vtx) && Sourced(env, Replay(env, vtx))
    ensures ok <==> && nBlockSigOps + p.legacySigOps(e.tx) + p.p2shSigOps(e.tx) < MAX_BLOCK_SIGOPS
                    && Pays(env, p, vtx, e.tx) && InputsOk(env, p, e.tx) && Spendable(Replay(env, vtx), e.tx)
    ensures ok ==> nTxSigOps == p.legacySigOps(e.tx) + p.p2shSigOps(e.tx)
    ensures ok ==> nFee == Fee(env, e.tx) && View(env.txdb, testPool') == Replay(env, vtx + [e.tx])
    ensures !ok ==> testPool' == testPool
  {
    hide Sourced, View, Mark, Spendable, Replay, TotalSize, InValue, IsKnown, Origin, ValueOut, Fetched, Exists, EnvOk;
    var tx := e.tx;
    testPool', nFee, nTxSigOps := testPool, e.nFee, p.legacySigOps(tx);
    var inputs;
    ok, inputs := FetchFromPool(env, testPool, tx);
    if !ok {
      NotThere(env, Replay(env, vtx), tx);
      return;
    }
    PassIsOk(env, p, tx, inputs);
    hide InputsPass, InputsOk;
    var nValueIn := ValueOfInputs(env, tx, inputs);
    var nValueOut := GetValueOut(tx.vout);
    if nFee == 0 {
      nFee := nValueIn - nValueOut;
    }
    if nFee < p.minFee(tx, nBlockSize) {
      return false, testPool, nFee, nTxSigOps;
    }
    nTxSigOps := nTxSigOps + p.p2shSigOps(tx);
    if nBlockSigOps + nTxSigOps >= MAX_BLOCK_SIGOPS {
      return false, testPool, nFee, nTxSigOps;
    }
    var changed;
    ok, changed := ConnectInputs(env.txdb, testPool, tx, inputs, POOL_POS, p.inputOk, p.connectFee(tx), nValueIn, nValueOut);
    if ok {
      var entry := TxIndex(POOL_POS, NoneSpent(|tx.vout|));
      QueueOne(env.txdb, changed, tx.hash, entry);
      testPool' := changed[tx.hash := entry];
      ReplayMore(env, vtx, tx);
    }
  }

  lemma {:induction false} PassIsOk(env: Env, p: Policy, tx: Tx, inputs: Inputs)
    requires EnvOk(env) && AllKnown(env, tx.vin)
    requires forall i :: 0 <= i < |tx.vin| ==>
      tx.vin[i].hash in inputs && IsKnown(env, tx.vin[i]) && inputs[tx.vin[i].hash].1 == Origin(env, tx.vin[i].hash)
    ensures InputsPass(tx, inputs, p.inputOk) <==> InputsOk(env, p, tx)
  {
  }

  lemma {:induction false} NotThere(env: Env, view: Index, tx: Tx)
    requires !IsCoinBase(tx) && !forall i :: 0 <= i < |tx.vin| ==> Exists(view, tx.vin[i])
    ensures !Spendable(view, tx)
  {
    var i :| 0 <= i < |tx.vin| && !Exists(view, tx.vin[i]);
    assert !IsUnspent(view, Spends(tx)[i]);
  }

  lemma {:induction false} ReplayMore(env: Env, vtx: seq<Tx>, tx: Tx)
    ensures Replay(env, vtx + [tx]) == Mark(Replay(env, vtx), Spends(tx), POOL_POS)[tx.hash := TxIndex(POOL_POS, NoneSpent(|tx.vout|))]
    ensures Chained(env, vtx) && Spendable(Replay(env, vtx), tx) ==> Chained(env, vtx + [tx])
  {
    assert (vtx + [tx])[..|vtx|] == vtx;
  }

  //////////////////////////////////////////////////////////////////////////////
  // The whole run
  //////////////////////////////////////////////////////////////////////////////

  /** A turn of the main loop: which entry was taken, whether the order was by fee, and whether it was added. */
  datatype Turn = Turn(e: TxPriority, byFee: bool, added: bool)

  /** The entry is ready, has not been considered, and no other such entry comes before it. */
  ghost predicate IsNext(env: Env, p: Policy, vtx: seq<Tx>, turns: seq<Turn>, byFee: bool, e: TxPriority)
    requires EnvOk(env)
  {
    && EntryOk(env, p, e) && IsReady(env, p, vtx, e.tx.hash) && !Considered(turns, e.tx.hash)
    && forall h :: IsReady(env, p, vtx, h) && !Considered(turns, h) ==> !Less(byFee, e, RankOf(env, p, env.pool[h]))
  }

  /** The turns are a run of the assembler that ends with this block and this order: each takes the next entry, and adds
      it exactly when it is addable to the block as it is then. */
  ghost predicate IsRun(env: Env, p: Policy, turns: seq<Turn>, vtx: seq<Tx>, byFee: bool)
    requires EnvOk(env)
    decreases |turns|
  {
    if turns == [] then vtx == [] && byFee == (p.nBlockPrioritySize <= 0)
    else
      var rest, t := turns[..|turns| - 1], turns[|turns| - 1];
      && (t.added ==> vtx != [] && vtx[|vtx| - 1] == t.e.tx)
      && var vtx0 := if t.added then vtx[..|vtx| - 1] else vtx;
         && IsRun(env, p, rest, vtx0, t.byFee) && IsNext(env, p, vtx0, rest, t.byFee, t.e)
         && (t.added <==> Addable(env, p, vtx0, t.e, t.byFee))
         && byFee == ByFeeAfter(p, vtx0, t.e, t.byFee)
  }

  /** The transactions that some turns added, in order. */
  ghost function AddedBy(turns: seq<Turn>): seq<Tx> {
    if turns == [] then []
    else
      var rest, t := turns[..|turns| - 1], turns[|turns| - 1];
      AddedBy(rest) + if t.added then [t.e.tx] else []
  }

  /** A run ends with what its turns added, and every turn is one of the block and the order so far. */
  lemma {:induction false} RunTurn(env: Env, p: Policy, turns: seq<Turn>, vtx: seq<Tx>, byFee: bool, i: nat)
    requires EnvOk(env) && IsRun(env, p, turns, vtx, byFee) && i <= |turns|
    ensures vtx == AddedBy(turns)
    ensures i < |turns| ==>
      && var before, t := AddedBy(turns[..i]), turns[i];
         && IsNext(env, p, before, turns[..i], t.byFee, t.e)
         && (t.added <==> Addable(env, p, before, t.e, t.byFee))
         && OrderAt(turns, byFee, i + 1) == ByFeeAfter(p, before, t.e, t.byFee)
    ensures OrderAt(turns, byFee, 0) == (p.nBlockPrioritySize <= 0)
  {
    hide EnvOk, IsNext, Addable, ByFeeAfter;
    if turns != [] {
      var n := |turns| - 1;
      var rest, t := turns[..n], turns[n];
      var vtx0 := if t.added then vtx[..|vtx| - 1] else vtx;
      RunTurn(env, p, rest, vtx0, t.byFee, if i < n then i else n);
      assert i < n ==> rest[..i] == turns[..i] && rest[i] == turns[i];
    }
  }

  /** The order before turn i, or after the last one. */
  ghost function OrderAt(turns: seq<Turn>, byFee: bool, i: nat): bool {
    if i < |turns| then turns[i].byFee else byFee
  }

  /** Comparing two ratios. */
  lemma {:induction false} RatioOrder(x: real, s: real, y: real, t: real)
    requires s > 0.0 && t > 0.0
    ensures x / s < y / t <==> x * t < y * s
    ensures x / s == y / t <==> x * t == y * s
  {
    var a, b, m := x / s, y / t, s * t;
    assert x == a * s && y == b * t;
    assert x * t == a * m && y * s == b * m;
    assert m > 0.0;
    RealScale(a, b, m);
  }

  lemma {:induction false} RealScale(a: real, b: real, m: real)
    requires m > 0.0
    ensures a < b <==> a * m < b * m
    ensures a == b <==> a * m == b * m
  {
    assert (b - a) * m == b * m - a * m;
  }

  /** Per thousand bytes, and then as whole numbers. */
  lemma {:induction false} FeeOrder(x: int, s: nat, y: int, t: nat)
    requires s > 0 && t > 0
    ensures x as real / (s as real / 1000.0) < y as real / (t as real / 1000.0) <==> x * t < y * s
    ensures x as real / (s as real / 1000.0) == y as real / (t as real / 1000.0) <==> x * t == y * s
  {
    var xr, sr, yr, tr := x as real, s as real, y as real, t as real;
    RatioOrder(xr, sr / 1000.0, yr, tr / 1000.0);
    assert xr * (tr / 1000.0) == xr * tr / 1000.0 && yr * (sr / 1000.0) == yr * sr / 1000.0;
    assert (x * t) as real == xr * tr && (y * s) as real == yr * sr;
  }

  /** In every turn the transaction that is taken pays at least as much for its size as every other one that is ready and
      not considered, and of those that pay as much has at least their priority; or the other way round while the order is by
      priority. Priority is value times depth for its size. */
  lemma {:induction false} TakesBest(env: Env, p: Policy, turns: seq<Turn>, vtx: seq<Tx>, byFee: bool, i: nat, h: Hash)
    requires EnvOk(env) && IsRun(env, p, turns, vtx, byFee) && i < |turns|
    requires IsReady(env, p, AddedBy(turns[..i]), h) && !Considered(turns[..i], h)
    ensures vtx == AddedBy(turns)
    ensures var a, b := turns[i].e.tx, env.pool[h];
            && AllKnown(env, a.vin) && AllKnown(env, b.vin)
            && var feeA, feeB := Fee(env, a) * b.nSize, Fee(env, b) * a.nSize;
               var ageA, ageB := Ages(env, p, a.vin) * (b.nSize as real), Ages(env, p, b.vin) * (a.nSize as real);
               if turns[i].byFee then feeA > feeB || (feeA == feeB && ageA >= ageB)
               else ageA > ageB || (ageA == ageB && feeA >= feeB)
  {
    hide IsRun, Ages, Fee, AllKnown, IsReady, Considered, AddedBy;
    RunTurn(env, p, turns, vtx, byFee, i);
    ReadyIsKnown(env, p, AddedBy(turns[..i]), h);
    var a, b := turns[i].e.tx, env.pool[h];
    assert EntryOk(env, p, turns[i].e);
    CandidateIsKnown(env, p, a);
    FeeOrder(Fee(env, a), a.nSize, Fee(env, b), b.nSize);
    RatioOrder(Ages(env, p, a.vin), a.nSize as real, Ages(env, p, b.vin), b.nSize as real);
  }

  /** In figures, when a turn adds its transaction: the block stays below its maximum size and below 40000 signature operations;
      the transaction is not from the future, nor later than the coinbase in a block to be staked; past the minimum size and by
      fee it is not a free one; it pays what the assembler and connecting ask for; its inputs pass, and are unspent in the
      block so far. */
  lemma {:induction false} TurnIs(env: Env, p: Policy, turns: seq<Turn>, vtx: seq<Tx>, byFee: bool, i: nat)
    requires EnvOk(env) && IsRun(env, p, turns, vtx, byFee) && i < |turns|
    ensures var tx, before := turns[i].e.tx, AddedBy(turns[..i]);
            var size, ops := 1000 + TotalSize(before), 100 + TotalSigOps(p, before);
            && AllKnown(env, tx.vin)
            && (turns[i].added <==>
                && size + tx.nSize < p.nBlockMaxSize && ops + p.legacySigOps(tx) + p.p2shSigOps(tx) < 40_000
                && tx.nTime <= p.nAdjustedTime && (p.fProofOfStake ==> tx.nTime <= p.nCoinbaseTime)
                && (turns[i].byFee && size + tx.nSize >= p.nBlockMinSize ==>
                      Fee(env, tx) as real * 1000.0 >= p.nMinTxFee * (tx.nSize as real))
                && Fee(env, tx) >= 0 && Fee(env, tx) >= p.minFee(tx, size) && Fee(env, tx) >= p.connectFee(tx)
                && (forall j :: 0 <= j < |tx.vin| ==>
                      var prev := Origin(env, tx.vin[j].hash);
                      p.inputOk(tx, prev, j) && prev.nTime <= tx.nTime && prev.vout[tx.vin[j].n].nValue >= 0)
                && Spendable(Replay(env, before), tx))
  {
    hide IsRun, Fee, AddedBy, Spendable, Replay, TotalSize, TotalSigOps, Ages;
    RunTurn(env, p, turns, vtx, byFee, i);
    var e := turns[i].e;
    assert EntryOk(env, p, e);
    CandidateIsKnown(env, p, e.tx);
    PerKb(Fee(env, e.tx) as real, e.tx.nSize as real, p.nMinTxFee);
  }

  lemma {:induction false} PerKb(x: real, s: real, y: real)
    requires s > 0.0
    ensures x / (s / 1000.0) < y <==> x * 1000.0 < y * s
  {
    RatioOrder(x, s / 1000.0, y, 1.0);
    assert y / 1.0 == y && x * 1.0 == x && y * (s / 1000.0) == y * s / 1000.0;
  }

  /** The order starts by fee when nothing is kept for priority; it stays by fee; and it becomes so with the first transaction
      that fits, is in time, and reaches past the size kept for priority or has a priority below 57600000. */
  lemma {:induction false} OrderIs(env: Env, p: Policy, turns: seq<Turn>, vtx: seq<Tx>, byFee: bool, i: nat)
    requires EnvOk(env) && IsRun(env, p, turns, vtx, byFee) && i < |turns|
    ensures OrderAt(turns, byFee, 0) <==> p.nBlockPrioritySize <= 0
    ensures var tx, before := turns[i].e.tx, AddedBy(turns[..i]);
            var size, ops := 1000 + TotalSize(before), 100 + TotalSigOps(p, before);
            && AllKnown(env, tx.vin)
            && (OrderAt(turns, byFee, i + 1) <==>
                || turns[i].byFee
                || (&& size + tx.nSize < p.nBlockMaxSize && ops + p.legacySigOps(tx) < 40_000
                    && tx.nTime <= p.nAdjustedTime && (p.fProofOfStake ==> tx.nTime <= p.nCoinbaseTime)
                    && (size + tx.nSize >= p.nBlockPrioritySize || Ages(env, p, tx.vin) < 57_600_000.0 * (tx.nSize as real))))
  {
    hide IsRun, Fee, AllKnown, AddedBy, TotalSize, TotalSigOps, Ages, Addable;
    RunTurn(env, p, turns, vtx, byFee, i);
    var e := turns[i].e;
    assert EntryOk(env, p, e);
    CandidateIsKnown(env, p, e.tx);
    RatioOrder(Ages(env, p, e.tx.vin), e.tx.nSize as real, 57_600_000.0, 1.0);
    assert 57_600_000.0 / 1.0 == 57_600_000.0 && (COIN * 144 / 250) as real == 57_600_000.0;
  }

  /** Sizes and signature operations of a block are those of its parts. */
  lemma {:induction false} TotalsAddUp(p: Policy, a: seq<Tx>, b: seq<Tx>)
    ensures TotalSize(a + b) == TotalSize(a) + TotalSize(b)
    ensures TotalSigOps(p, a + b) == TotalSigOps(p, a) + TotalSigOps(p, b)
    ensures |a| == 1 ==> TotalSize(a) == a[0].nSize && TotalSigOps(p, a) == p.legacySigOps(a[0]) + p.p2shSigOps(a[0])
  {
    if b == [] {
      assert a + b == a;
      assert |a| == 1 ==> a[..0] == [];
    } else {
      var n := |b| - 1;
      assert (a + b)[..|a| + n] == a + b[..n];
      TotalsAddUp(p, a, b[..n]);
    }
  }

  lemma {:induction false} CandidateIsKnown(env: Env, p: Policy, tx: Tx)
    requires EnvOk(env) && IsCandidate(env, p, tx) && tx.hash in env.pool && tx == env.pool[tx.hash]
    ensures AllKnown(env, tx.vin) && tx.nSize > 0
  {
  }

  lemma {:induction false} ReadyIsKnown(env: Env, p: Policy, vtx: seq<Tx>, h: Hash)
    requires EnvOk(env) && IsReady(env, p, vtx, h)
    ensures h in env.pool && AllKnown(env, env.pool[h].vin) && env.pool[h].nSize > 0
  {
  }

  ghost predicate Considered(turns: seq<Turn>, h: Hash) {
    exists i :: 0 <= i < |turns| && turns[i].e.tx.hash == h
  }

  ghost predicate InBlock(vtx: seq<Tx>, h: Hash) {
    exists i :: 0 <= i < |vtx| && vtx[i].hash == h
  }

  predicate DistinctHashes(vtx: seq<Tx>) {
    forall i, j :: 0 <= i < j < |vtx| ==> vtx[i].hash != vtx[j].hash
  }

  /** The block so far: pool transactions, each once, that connect in order and stay within the limits. */
  ghost predicate BlockOk(env: Env, p: Policy, vtx: seq<Tx>, nFees: int, nBlockSize: nat, nBlockSigOps: nat)
    requires EnvOk(env)
  {
    && (forall i :: 0 <= i < |vtx| ==> vtx[i].hash in env.pool && vtx[i] == env.pool[vtx[i].hash] && IsCandidate(env, p, vtx[i]))
    && (forall i :: 0 <= i < |vtx| ==> InputsOk(env, p, vtx[i]) && FeeOk(env, p, vtx[i]))
    && DistinctHashes(vtx) && Chained(env, vtx)
    && nFees == TotalFees(env, vtx)
    && nBlockSize == 1000 + TotalSize(vtx) && (vtx != [] ==> nBlockSize < p.nBlockMaxSize)
    && nBlockSigOps == 100 + TotalSigOps(p, vtx) && nBlockSigOps < MAX_BLOCK_SIGOPS
  }

  lemma {:induction false} BlockGrows(env: Env, p: Policy, vtx: seq<Tx>, nFees: int, nBlockSize: nat, nBlockSigOps: nat,
                                      e: TxPriority, byFee: bool)
    requires EnvOk(env) && BlockOk(env, p, vtx, nFees, nBlockSize, nBlockSigOps)
    requires EntryOk(env, p, e) && Addable(env, p, vtx, e, byFee) && !InBlock(vtx, e.tx.hash)
    ensures BlockOk(env, p, vtx + [e.tx], nFees + Fee(env, e.tx), nBlockSize + e.tx.nSize,
                    nBlockSigOps + p.legacySigOps(e.tx) + p.p2shSigOps(e.tx))
  {
    hide InputsOk, FeeOk, Spendable, Replay, AllKnown, Fee, IsCandidate, EnvOk;
    hide TotalSize, TotalSigOps, TotalFees, Chained, DistinctHashes;
    DistinctGrows(vtx, e.tx);
    ReplayMore(env, vtx, e.tx);
    SumsGrow(p, vtx, e.tx);
    KnownInputs(env, p, e.tx);
    forall i | 0 <= i < |vtx| ensures AllKnown(env, vtx[i].vin) {
      KnownInputs(env, p, vtx[i]);
    }
    FeesGrow(env, vtx, e.tx);
  }

  lemma {:induction false} KnownInputs(env: Env, p: Policy, tx: Tx)
    requires EnvOk(env) && IsCandidate(env, p, tx)
    ensures AllKnown(env, tx.vin)
  {
  }

  lemma {:induction false} SumsGrow(p: Policy, vtx: seq<Tx>, tx: Tx)
    ensures TotalSize(vtx + [tx]) == TotalSize(vtx) + tx.nSize
    ensures TotalSigOps(p, vtx + [tx]) == TotalSigOps(p, vtx) + p.legacySigOps(tx) + p.p2shSigOps(tx)
  {
    assert (vtx + [tx])[..|vtx|] == vtx;
  }

  lemma {:induction false} FeesGrow(env: Env, vtx: seq<Tx>, tx: Tx)
    requires EnvOk(env) && AllKnown(env, tx.vin) && forall i :: 0 <= i < |vtx| ==> AllKnown(env, vtx[i].vin)
    ensures TotalFees(env, vtx + [tx]) == TotalFees(env, vtx) + Fee(env, tx)
  {
    hide EnvOk, AllKnown, Fee;
    assert (vtx + [tx])[..|vtx|] == vtx;
  }

  lemma {:induction false} DistinctGrows(vtx: seq<Tx>, tx: Tx)
    requires DistinctHashes(vtx) && !InBlock(vtx, tx.hash)
    ensures DistinctHashes(vtx + [tx])
  {
  }

  lemma {:induction false} ConsideredMore(turns: seq<Turn>, t: Turn)
    ensures forall h :: Considered(turns + [t], h) <==> Considered(turns, h) || h == t.e.tx.hash
  {
    var turns' := turns + [t];
    forall h ensures Considered(turns', h) <==> Considered(turns, h) || h == t.e.tx.hash {
      assert turns'[|turns|] == t;
      if Considered(turns, h) {
        var i :| 0 <= i < |turns| && turns[i].e.tx.hash == h;
        assert turns'[i] == turns[i];
      }
    }
  }

  /** One more turn of a run. */
  lemma {:induction false} RunGoesOn(env: Env, p: Policy, turns: seq<Turn>, vtx: seq<Tx>, byFee: bool, e: TxPriority)
    requires EnvOk(env) && IsRun(env, p, turns, vtx, byFee) && IsNext(env, p, vtx, turns, byFee, e)
    ensures AllKnown(env, e.tx.vin)
    ensures var added := Addable(env, p, vtx, e, byFee);
            IsRun(env, p, turns + [Turn(e, byFee, added)], if added then vtx + [e.tx] else vtx, ByFeeAfter(p, vtx, e, byFee))
  {
    hide EnvOk, Addable, ByFeeAfter, IsReady, RankOf;
    var added := Addable(env, p, vtx, e, byFee);
    var turns', vtx' := turns + [Turn(e, byFee, added)], if added then vtx + [e.tx] else vtx;
    assert turns'[..|turns|] == turns;
    assert added ==> vtx'[..|vtx|] == vtx;
  }

  /** The locals of the main loop. */
  datatype State = State(orphans: seq<Orphan>, dependers: Dependers, queue: seq<TxPriority>, testPool: Index, vtx: seq<Tx>,
                         nFees: int, nBlockSize: nat, nBlockSigOps: nat, fSortedByFee: bool)

  /** What has happened so far. */
  datatype History = History(turns: seq<Turn>, popped: set<Hash>, included: set<Hash>)

  ghost predicate Recorded(env: Env, p: Policy, vtx: seq<Tx>, byFee: bool, g: History)
    requires EnvOk(env)
  {
    && IsRun(env, p, g.turns, vtx, byFee)
    && (forall h :: Considered(g.turns, h) <==> h in g.popped)
    && (forall h :: InBlock(vtx, h) <==> h in g.included)
    && g.included <= g.popped
  }

  ghost predicate Running(env: Env, p: Policy, waits: Waits, s: State, g: History)
    requires EnvOk(env)
  {
    && Scheduled(waits, s.orphans, s.dependers, s.queue, g.popped, g.included) && WaitsOk(env, p, waits)
    && EntriesOk(env, p, s.queue) && OrphanTxsOk(env, p, s.orphans)
    && BlockOk(env, p, s.vtx, s.nFees, s.nBlockSize, s.nBlockSigOps)
    && View(env.txdb, s.testPool) == Replay(env, s.vtx) && Sourced(env, Replay(env, s.vtx))
    && Recorded(env, p, s.vtx, s.fSortedByFee, g)
  }

  lemma {:induction false} RestOk(env: Env, p: Policy, queue: seq<TxPriority>, k: nat, best: TxPriority, rest: seq<TxPriority>)
    requires EnvOk(env) && EntriesOk(env, p, queue) && Taken(queue, k, best, rest)
    ensures EntriesOk(env, p, rest) && EntryOk(env, p, best)
  {
    hide EntryOk, EnvOk;
    assert forall i :: 0 <= i < |rest| ==> rest[i] == queue[if i < k then i else i + 1];
  }

  lemma {:induction false} RecordTurn(env: Env, p: Policy, vtx: seq<Tx>, g: History, e: TxPriority, byFee: bool)
    requires EnvOk(env) && Recorded(env, p, vtx, byFee, g) && IsNext(env, p, vtx, g.turns, byFee, e)
    ensures AllKnown(env, e.tx.vin)
    ensures var added := Addable(env, p, vtx, e, byFee);
            Recorded(env, p, if added then vtx + [e.tx] else vtx, ByFeeAfter(p, vtx, e, byFee),
                     History(g.turns + [Turn(e, byFee, added)], g.popped + {e.tx.hash},
                             if added then g.included + {e.tx.hash} else g.included))
  {
    hide IsNext, Addable, EnvOk, IsRun, Considered, InBlock, ByFeeAfter;
    RunGoesOn(env, p, g.turns, vtx, byFee, e);
    ConsideredMore(g.turns, Turn(e, byFee, Addable(env, p, vtx, e, byFee)));
    InBlockGrows(vtx, e.tx);
  }

  /** An entry that is added. */
  lemma {:induction false} Added(env: Env, p: Policy, s: State, g: History, e: TxPriority)
    requires EnvOk(env) && BlockOk(env, p, s.vtx, s.nFees, s.nBlockSize, s.nBlockSigOps)
    requires Sourced(env, Replay(env, s.vtx)) && Recorded(env, p, s.vtx, s.fSortedByFee, g)
    requires EntryOk(env, p, e) && Addable(env, p, s.vtx, e, s.fSortedByFee) && e.tx.hash !in g.popped
    ensures var vtx' := s.vtx + [e.tx];
            && Sourced(env, Replay(env, vtx'))
            && BlockOk(env, p, vtx', s.nFees + Fee(env, e.tx), s.nBlockSize + e.tx.nSize,
                       s.nBlockSigOps + p.legacySigOps(e.tx) + p.p2shSigOps(e.tx))
  {
    hide Sourced, EnvOk, BlockOk, Addable, Replay, InBlock, Recorded, RankOf;
    NotInBlock(env, p, s.vtx, s.fSortedByFee, g, e.tx.hash);
    BlockGrows(env, p, s.vtx, s.nFees, s.nBlockSize, s.nBlockSigOps, e, s.fSortedByFee);
    ReplaySourced(env, s.vtx, e.tx);
  }

  lemma {:induction false} NotInBlock(env: Env, p: Policy, vtx: seq<Tx>, byFee: bool, g: History, h: Hash)
    requires EnvOk(env) && Recorded(env, p, vtx, byFee, g) && h !in g.popped
    ensures !InBlock(vtx, h)
  {
  }

  lemma {:induction false} ReplaySourced(env: Env, vtx: seq<Tx>, tx: Tx)
    requires EnvOk(env) && Sourced(env, Replay(env, vtx)) && tx.hash in env.pool && tx == env.pool[tx.hash]
    ensures Sourced(env, Replay(env, vtx + [tx]))
  {
    hide Sourced, ConnectTx;
    assert (vtx + [tx])[..|vtx|] == vtx;
    SourcedAfter(env, Replay(env, vtx), tx);
  }

  lemma {:induction false} InBlockGrows(vtx: seq<Tx>, tx: Tx)
    ensures forall h :: InBlock(vtx + [tx], h) <==> InBlock(vtx, h) || h == tx.hash
  {
    var r := vtx + [tx];
    forall h ensures InBlock(r, h) <==> InBlock(vtx, h) || h == tx.hash {
      assert r[|vtx|] == tx;
      if InBlock(vtx, h) {
        var i :| 0 <= i < |vtx| && vtx[i].hash == h;
        assert r[i] == vtx[i];
      }
    }
  }

  lemma {:induction false} ReleasedEntries(env: Env, p: Policy, orphans: seq<Orphan>, os: seq<Orphan>,
                                           queue: seq<TxPriority>, q: seq<TxPriority>)
    requires EnvOk(env) && EntriesOk(env, p, queue) && OrphanTxsOk(env, p, orphans)
    requires SameTxs(orphans, os) && Grown(orphans, queue, q)
    ensures EntriesOk(env, p, q) && OrphanTxsOk(env, p, os)
  {
    hide IsCandidate, Fee, EnvOk;
    forall i | 0 <= i < |q| ensures EntryOk(env, p, q[i]) {
      if i < |queue| {
        assert q[i] == q[..|queue|][i];
      } else {
        var k :| 0 <= k < |orphans| && q[i] == Entry(orphans[k]);
      }
    }
  }

  /** The checks of an entry against the limits; also whether the order switches to fees. */
  method CheckLimits(p: Policy, s: State, e: TxPriority) returns (fits: bool, fSortedByFee: bool)
    requires s.nBlockSize == 1000 + TotalSize(s.vtx) && s.nBlockSigOps == 100 + TotalSigOps(p, s.vtx)
    ensures fits <==> PassesFirst(p, s.vtx, e, s.fSortedByFee)
    ensures fSortedByFee <==> ByFeeAfter(p, s.vtx, e, s.fSortedByFee)
  {
    fits, fSortedByFee := false, s.fSortedByFee;
    var tx := e.tx;
    if s.nBlockSize + tx.nSize >= p.nBlockMaxSize {
      return;
    }
    if s.nBlockSigOps + p.legacySigOps(tx) >= MAX_BLOCK_SIGOPS {
      return;
    }
    if tx.nTime > p.nAdjustedTime || (p.fProofOfStake && tx.nTime > p.nCoinbaseTime) {
      return;
    }
    if fSortedByFee && e.dFeePerKb < p.nMinTxFee && s.nBlockSize + tx.nSize >= p.nBlockMinSize {
      return;
    }
    fits := true;
    if !fSortedByFee && (s.nBlockSize + tx.nSize >= p.nBlockPrioritySize || e.dPriority < (COIN * 144 / 250) as real) {
      fSortedByFee := true;
    }
  }

  /** One turn of the main loop. */
  method TakeTurn(env: Env, p: Policy, s: State, ghost waits: Waits, ghost g: History) returns (s': State, ghost g': History)
    requires EnvOk(env) && Running(env, p, waits, s, g) && s.queue != []
    ensures Running(env, p, waits, s', g')
    ensures g.popped < g'.popped <= waits.Keys
  {
    hide *;
    var e, rest := PopBest(s.queue, s.fSortedByFee);
    ghost var h := e.tx.hash;
    Opened(env, p, waits, s, g, e, rest);
    RecordTurn(env, p, s.vtx, g, e, s.fSortedByFee);
    var ok, testPool, nFee, nTxSigOps, byFee := Judge(env, p, s, e);
    if !ok {
      s' := s.(queue := rest, testPool := testPool, fSortedByFee := byFee);
      g' := History(g.turns + [Turn(e, s.fSortedByFee, false)], g.popped + {h}, g.included);
    } else {
      Added(env, p, s, g, e);
      var os, q := Release(s.orphans, s.dependers, rest, e.tx.hash, waits, g.popped + {h}, g.included);
      ReleasedEntries(env, p, s.orphans, os, rest, q);
      s' := State(os, s.dependers, q, testPool, s.vtx + [e.tx], s.nFees + nFee, s.nBlockSize + e.tx.nSize,
                  s.nBlockSigOps + nTxSigOps, byFee);
      g' := History(g.turns + [Turn(e, s.fSortedByFee, true)], g.popped + {h}, g.included + {h});
    }
    Closed(env, p, waits, s', g');
  }

  lemma {:induction false} Opened(env: Env, p: Policy, waits: Waits, s: State, g: History, e: TxPriority, rest: seq<TxPriority>)
    requires EnvOk(env) && Running(env, p, waits, s, g) && exists k :: Taken(s.queue, k, e, rest)
    requires forall i :: 0 <= i < |s.queue| ==> !Less(s.fSortedByFee, e, s.queue[i])
    ensures IsNext(env, p, s.vtx, g.turns, s.fSortedByFee, e) && WaitsOk(env, p, waits)
    ensures EntryOk(env, p, e) && e.tx.hash in waits && e.tx.hash !in g.popped && g.popped + {e.tx.hash} <= waits.Keys
    ensures Scheduled(waits, s.orphans, s.dependers, rest, g.popped + {e.tx.hash}, g.included)
    ensures EntriesOk(env, p, rest) && OrphanTxsOk(env, p, s.orphans)
    ensures BlockOk(env, p, s.vtx, s.nFees, s.nBlockSize, s.nBlockSigOps)
    ensures View(env.txdb, s.testPool) == Replay(env, s.vtx) && Sourced(env, Replay(env, s.vtx))
    ensures Recorded(env, p, s.vtx, s.fSortedByFee, g)
  {
    hide Scheduled, EntriesOk, OrphanTxsOk, BlockOk, Replay, Sourced, Recorded, EnvOk, EntryOk, IsNext, Less, WaitsOk;
    var k :| Taken(s.queue, k, e, rest);
    BestIsNext(env, p, waits, s, g, k, e);
    hide Taken;
    PopKeeps(waits, s.orphans, s.dependers, s.queue, g.popped, g.included, k, e, rest);
    RestOk(env, p, s.queue, k, e, rest);
    PoppedWithin(waits, s.orphans, s.dependers, rest, g.popped + {e.tx.hash}, g.included);
  }

  lemma {:induction false} Closed(env: Env, p: Policy, waits: Waits, s: State, g: History)
    requires EnvOk(env) && Scheduled(waits, s.orphans, s.dependers, s.queue, g.popped, g.included)
    requires EntriesOk(env, p, s.queue) && OrphanTxsOk(env, p, s.orphans)
    requires BlockOk(env, p, s.vtx, s.nFees, s.nBlockSize, s.nBlockSigOps)
    requires View(env.txdb, s.testPool) == Replay(env, s.vtx) && Sourced(env, Replay(env, s.vtx))
    requires Recorded(env, p, s.vtx, s.fSortedByFee, g) && WaitsOk(env, p, waits)
    ensures Running(env, p, waits, s, g)
  {
    hide EnvOk, Scheduled, EntriesOk, OrphanTxsOk, BlockOk, Sourced, Recorded, WaitsOk;
  }

  lemma {:induction false} RankDecides(byFee: bool, a: TxPriority, b: TxPriority)
    ensures Less(byFee, a, b) == Less(byFee, a, b.(nFee := 0))
  {
  }

  /** A greatest entry of the queue comes before everything that is ready and not considered. */
  lemma {:induction false} BestIsNext(env: Env, p: Policy, waits: Waits, s: State, g: History, k: nat, e: TxPriority)
    requires EnvOk(env) && Running(env, p, waits, s, g) && k < |s.queue| && e == s.queue[k]
    requires forall i :: 0 <= i < |s.queue| ==> !Less(s.fSortedByFee, e, s.queue[i])
    ensures IsNext(env, p, s.vtx, g.turns, s.fSortedByFee, e)
  {
    hide EnvOk, BlockOk, Sourced, Replay, IsRun, IsReady, Considered, InBlock, Less, RankOf, IsCandidate, WaitsOk, OrphanTxsOk;
    assert EntryOk(env, p, e) && InQueue(s.queue, e.tx.hash);
    QueuedIsNotPopped(waits, s.orphans, s.dependers, s.queue, g.popped, g.included, e.tx.hash);
    ReadyIffSeen(env, p, waits, s, g, e.tx.hash);
    hide Scheduled;
    forall h | IsReady(env, p, s.vtx, h) && !Considered(g.turns, h)
      ensures h in env.pool && AllKnown(env, env.pool[h].vin) && env.pool[h].nSize > 0
      ensures !Less(s.fSortedByFee, e, RankOf(env, p, env.pool[h]))
    {
      ReadyIffSeen(env, p, waits, s, g, h);
      QueuedRank(env, p, s.queue, s.fSortedByFee, e, h);
    }
  }

  lemma {:induction false} QueuedRank(env: Env, p: Policy, queue: seq<TxPriority>, byFee: bool, e: TxPriority, h: Hash)
    requires EnvOk(env) && EntriesOk(env, p, queue) && InQueue(queue, h)
    requires forall i :: 0 <= i < |queue| ==> !Less(byFee, e, queue[i])
    ensures h in env.pool && AllKnown(env, env.pool[h].vin) && env.pool[h].nSize > 0
    ensures !Less(byFee, e, RankOf(env, p, env.pool[h]))
  {
    hide Less, RankOf;
    var i :| 0 <= i < |queue| && queue[i].tx.hash == h;
    assert EntryOk(env, p, queue[i]);
    RankDecides(byFee, e, queue[i]);
  }

  lemma {:induction false} QueuedIsNotPopped(waits: Waits, orphans: seq<Orphan>, dependers: Dependers, queue: seq<TxPriority>,
                                             popped: set<Hash>, included: set<Hash>, h: Hash)
    requires Scheduled(waits, orphans, dependers, queue, popped, included) && InQueue(queue, h)
    ensures h !in popped
  {
  }

  /** What has been queued is what is ready. */
  lemma {:induction false} ReadyIffSeen(env: Env, p: Policy, waits: Waits, s: State, g: History, h: Hash)
    requires EnvOk(env) && WaitsOk(env, p, waits)
    requires Scheduled(waits, s.orphans, s.dependers, s.queue, g.popped, g.included)
    requires forall h :: InBlock(s.vtx, h) <==> h in g.included
    ensures Seen(s.queue, g.popped, h) <==> IsReady(env, p, s.vtx, h)
  {
    hide EnvOk, InBlock, IsCandidate, Parents, Scheduled;
    if h in waits {
      SeenIffReady(waits, s.orphans, s.dependers, s.queue, g.popped, g.included, h);
      var vin := env.pool[h].vin;
      forall q ensures q in waits[h] <==> q in env.pool && exists i :: 0 <= i < |vin| && vin[i].hash == q {
        ParentsAre(env, vin, q);
      }
    } else {
      SeenIsWaiting(waits, s.orphans, s.dependers, s.queue, g.popped, g.included, h);
    }
  }

  lemma {:induction false} SeenIsWaiting(waits: Waits, orphans: seq<Orphan>, dependers: Dependers, queue: seq<TxPriority>,
                                         popped: set<Hash>, included: set<Hash>, h: Hash)
    requires Scheduled(waits, orphans, dependers, queue, popped, included)
    ensures Seen(queue, popped, h) ==> h in waits
  {
  }

  /** All the checks of one turn. */
  method Judge(env: Env, p: Policy, s: State, e: TxPriority)
    returns (ok: bool, testPool: Index, nFee: int, nTxSigOps: nat, byFee: bool)
    requires EnvOk(env) && EntryOk(env, p, e)
    requires BlockOk(env, p, s.vtx, s.nFees, s.nBlockSize, s.nBlockSigOps)
    requires View(env.txdb, s.testPool) == Replay(env, s.vtx) && Sourced(env, Replay(env, s.vtx))
    ensures ok <==> Addable(env, p, s.vtx, e, s.fSortedByFee)
    ensures ok ==> nFee == Fee(env, e.tx) && nTxSigOps == p.legacySigOps(e.tx) + p.p2shSigOps(e.tx)
    ensures View(env.txdb, testPool) == Replay(env, if ok then s.vtx + [e.tx] else s.vtx)
    ensures byFee <==> ByFeeAfter(p, s.vtx, e, s.fSortedByFee)
  {
    hide Sourced, Replay, EnvOk, InputsOk, Pays, Spendable, PassesFirst, ByFeeAfter, IsCandidate, AllKnown, Fee, RankOf;
    hide TotalSize, TotalSigOps, TotalFees;
    var fits;
    fits, byFee := CheckLimits(p, s, e);
    ok, testPool, nFee, nTxSigOps := false, s.testPool, 0, 0;
    if fits {
      ok, testPool, nFee, nTxSigOps := TryConnect(env, p, s.testPool, e, s.nBlockSize, s.nBlockSigOps, s.vtx);
    }
  }

  lemma {:induction false} PoppedWithin(waits: Waits, orphans: seq<Orphan>, dependers: Dependers, queue: seq<TxPriority>,
                                        popped: set<Hash>, included: set<Hash>)
    requires Scheduled(waits, orphans, dependers, queue, popped, included)
    ensures popped <= waits.Keys
  {
  }

  /** The candidates and what they wait for. */
  ghost predicate WaitsOk(env: Env, p: Policy, waits: Waits)
    requires EnvOk(env)
  {
    && (forall h :: h in waits <==> h in env.pool && IsCandidate(env, p, env.pool[h]))
    && (forall h :: h in waits ==> waits[h] == Parents(env, env.pool[h].vin))
  }

  /** A candidate all of whose pool parents are in the block. */
  ghost predicate IsReady(env: Env, p: Policy, vtx: seq<Tx>, h: Hash)
    requires EnvOk(env)
  {
    && h in env.pool && IsCandidate(env, p, env.pool[h])
    && forall i :: 0 <= i < |env.pool[h].vin| && env.pool[h].vin[i].hash in env.pool ==> InBlock(vtx, env.pool[h].vin[i].hash)
  }

  /** The block is the end of a run that has considered everything whose parents are in the block, each once and in the
      order of the queue, and that starts in the order the policy asks for. */
  method CreateNewBlock(env: Env, p: Policy, order: seq<Hash>)
    returns (vtx: seq<Tx>, nFees: int, nBlockSize: nat, nBlockSigOps: nat, ghost turns: seq<Turn>, ghost byFee: bool)
    requires EnvOk(env) && Enumerates(order, env.pool)
    requires forall h :: h in env.pool ==> Scannable(env, env.pool[h])
    ensures BlockOk(env, p, vtx, nFees, nBlockSize, nBlockSigOps)
    ensures IsRun(env, p, turns, vtx, byFee)
    ensures forall h :: InBlock(vtx, h) ==> Considered(turns, h)
    ensures forall h :: Considered(turns, h) <==> IsReady(env, p, vtx, h)
  {
    var orphans, dependers, queue;
    ghost var waits;
    orphans, dependers, queue, waits := Collect(env, p, order);
    var s := State(orphans, dependers, queue, map[], [], 0, 1000, 100, p.nBlockPrioritySize <= 0);
    ghost var g := History([], {}, {});
    Start(env, p, order, waits, s, g);
    hide Running, EnvOk, Collected, BlockOk, IsRun, IsReady, InBlock, Considered;
    while s.queue != []
      invariant Running(env, p, waits, s, g)
      invariant g.popped <= waits.Keys
      decreases waits.Keys - g.popped
    {
      ghost var before := g.popped;
      s, g := TakeTurn(env, p, s, waits, g);
      FewerLeft(waits.Keys, before, g.popped);
    }
    vtx, nFees, nBlockSize, nBlockSigOps, turns, byFee := s.vtx, s.nFees, s.nBlockSize, s.nBlockSigOps, g.turns, s.fSortedByFee;
    Finish(env, p, waits, s, g);
  }

  lemma {:induction false} FewerLeft(all: set<Hash>, a: set<Hash>, b: set<Hash>)
    requires a < b <= all
    ensures all - b < all - a
  {
    assert all - b <= all - a;
    var h :| h in b && h !in a;
    assert h in all - a && h !in all - b;
  }

  lemma {:induction false} Start(env: Env, p: Policy, order: seq<Hash>, waits: Waits, s: State, g: History)
    requires EnvOk(env) && Scheduled(waits, s.orphans, s.dependers, s.queue, {}, {})
    requires Enumerates(order, env.pool) && Collected(env, p, order, waits)
    requires EntriesOk(env, p, s.queue) && OrphanTxsOk(env, p, s.orphans)
    requires s.testPool == map[] && s.vtx == [] && s.nFees == 0 && s.nBlockSize == 1000 && s.nBlockSigOps == 100
    requires g == History([], {}, {}) && s.fSortedByFee == (p.nBlockPrioritySize <= 0)
    ensures Running(env, p, waits, s, g)
  {
    hide Scheduled, EntriesOk, OrphanTxsOk, IsCandidate, Parents;
    assert View(env.txdb, map[]) == env.txdb;
  }

  lemma {:induction false} Finish(env: Env, p: Policy, waits: Waits, s: State, g: History)
    requires EnvOk(env) && Running(env, p, waits, s, g) && s.queue == []
    ensures BlockOk(env, p, s.vtx, s.nFees, s.nBlockSize, s.nBlockSigOps) && IsRun(env, p, g.turns, s.vtx, s.fSortedByFee)
    ensures forall h :: InBlock(s.vtx, h) ==> Considered(g.turns, h)
    ensures forall h :: Considered(g.turns, h) <==> IsReady(env, p, s.vtx, h)
  {
    hide EnvOk, BlockOk, IsRun, InBlock, Considered, EntriesOk, OrphanTxsOk, Sourced, Replay, IsReady, WaitsOk, Scheduled;
    forall h ensures Considered(g.turns, h) <==> IsReady(env, p, s.vtx, h) {
      ReadyIffSeen(env, p, waits, s, g, h);
      assert !InQueue(s.queue, h);
    }
  }
}
