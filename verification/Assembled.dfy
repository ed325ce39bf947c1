/** What an assembled block is: ordered, free of double spends, and acceptable to the chain. */
module Assembled {
  import opened TxIndexing
  import opened MoneySupply
  import opened ChainState
  import opened Scheduling
  import opened Assembly
  import BlockChain

  /** The transactions of a block that the assembler can return. */
  ghost predicate IsAssembled(env: Env, vtx: seq<Tx>) {
    && EnvOk(env) && DistinctHashes(vtx) && Chained(env, vtx)
    && (forall i :: 0 <= i < |vtx| ==> vtx[i].hash in env.pool && vtx[i] == env.pool[vtx[i].hash] && !IsCoinBase(vtx[i]))
  }

  lemma {:induction false} CreatedIsAssembled(env: Env, p: Policy, vtx: seq<Tx>, nFees: int, nBlockSize: nat, nBlockSigOps: nat)
    requires EnvOk(env) && BlockOk(env, p, vtx, nFees, nBlockSize, nBlockSigOps)
    ensures IsAssembled(env, vtx)
  {
    hide EnvOk, DistinctHashes, Chained;
  }

  lemma {:induction false} Shorter(env: Env, vtx: seq<Tx>)
    requires IsAssembled(env, vtx) && vtx != []
    ensures IsAssembled(env, vtx[..|vtx| - 1])
    ensures Spendable(Replay(env, vtx[..|vtx| - 1]), vtx[|vtx| - 1])
  {
    hide EnvOk, Replay, Spendable;
  }

  /** The entries of the replayed index are those of the chain and of the block. */
  lemma {:induction false} ReplayKeys(env: Env, vtx: seq<Tx>, h: Hash)
    ensures h in Replay(env, vtx) <==> h in env.txdb || InBlock(vtx, h)
  {
    if vtx != [] {
      var n := |vtx| - 1;
      ReplayKeys(env, vtx[..n], h);
      InBlockGrows(vtx[..n], vtx[n]);
      assert vtx[..n] + [vtx[n]] == vtx;
    }
  }

  lemma {:induction false} SpendableAt(env: Env, vtx: seq<Tx>, k: nat)
    requires IsAssembled(env, vtx) && k < |vtx|
    ensures Spendable(Replay(env, vtx[..k]), vtx[k]) && IsAssembled(env, vtx[..k])
    decreases |vtx|
  {
    Shorter(env, vtx);
    hide IsAssembled, Spendable, Replay;
    var n := |vtx| - 1;
    if k < n {
      SpendableAt(env, vtx[..n], k);
      assert vtx[..n][..k] == vtx[..k];
    }
  }

  /** Every pool parent of a transaction stands before it in the block. */
  lemma {:induction false} ParentsFirst(env: Env, vtx: seq<Tx>, k: nat, i: nat)
    requires IsAssembled(env, vtx) && k < |vtx| && i < |vtx[k].vin| && vtx[k].vin[i].hash in env.pool
    ensures exists j :: 0 <= j < k && vtx[j].hash == vtx[k].vin[i].hash
  {
    SpendableAt(env, vtx, k);
    var h := vtx[k].vin[i].hash;
    assert IsUnspent(Replay(env, vtx[..k]), Spends(vtx[k])[i]);
    ReplayKeys(env, vtx[..k], h);
    hide Replay;
    assert InBlock(vtx[..k], h);
    var j :| 0 <= j < |vtx[..k]| && vtx[..k][j].hash == h;
    assert vtx[j].hash == h;
  }

  //////////////////////////////////////////////////////////////////////////////
  // Double spends
  //////////////////////////////////////////////////////////////////////////////

  lemma {:induction false} NewHash(env: Env, vtx: seq<Tx>)
    requires IsAssembled(env, vtx) && vtx != []
    ensures vtx[|vtx| - 1].hash !in Replay(env, vtx[..|vtx| - 1])
  {
    ReplayKeys(env, vtx[..|vtx| - 1], vtx[|vtx| - 1].hash);
  }

  lemma {:induction false} StaysSpent(env: Env, vtx: seq<Tx>, i: nat, o: OutPoint)
    requires IsAssembled(env, vtx) && i < |vtx| && o in Spends(vtx[i])
    ensures IsSpent(Replay(env, vtx), o)
    decreases |vtx|
  {
    var n := |vtx| - 1;
    Shorter(env, vtx);
    NewHash(env, vtx);
    if i < n {
      StaysSpent(env, vtx[..n], i, o);
    } else {
      var a :| 0 <= a < |Spends(vtx[i])| && Spends(vtx[i])[a] == o;
      assert IsUnspent(Replay(env, vtx[..n]), Spends(vtx[i])[a]);
    }
    hide IsSpent, ConnectTx;
    ConnectSpends(Replay(env, vtx[..n]), vtx[n], POOL_POS, o);
  }

  /** No output is spent twice in an assembled block. */
  lemma {:induction false} NoDoubleSpend(env: Env, vtx: seq<Tx>, i: nat, a: nat, j: nat, b: nat)
    requires IsAssembled(env, vtx) && i <= j < |vtx| && a < |vtx[i].vin| && b < |vtx[j].vin|
    requires (i, a) != (j, b)
    ensures vtx[i].vin[a] != vtx[j].vin[b]
  {
    SpendableAt(env, vtx, j);
    if i < j {
      assert Spends(vtx[i])[a] == vtx[i].vin[a];
      StaysSpent(env, vtx[..j], i, vtx[i].vin[a]);
      assert IsUnspent(Replay(env, vtx[..j]), Spends(vtx[j])[b]);
    } else {
      assert a < b ==> Spends(vtx[j])[a] != Spends(vtx[j])[b];
      assert b < a ==> Spends(vtx[j])[b] != Spends(vtx[j])[a];
    }
  }

  //////////////////////////////////////////////////////////////////////////////
  // Acceptance
  //////////////////////////////////////////////////////////////////////////////

  /** The same outputs are unspent in both, the second having one more entry. */
  ghost predicate Alike(x: Index, y: Index, extra: Hash) {
    && extra !in x
    && (forall h :: h in x ==> h in y && |x[h].vSpent| == |y[h].vSpent|)
    && (forall h, n :: h in x && 0 <= n < |x[h].vSpent| ==> (x[h].vSpent[n] == NoPos <==> y[h].vSpent[n] == NoPos))
  }

  lemma {:induction false} AlikeSpendable(x: Index, y: Index, extra: Hash, tx: Tx)
    requires Alike(x, y, extra) && Spendable(x, tx)
    ensures Spendable(y, tx)
  {
    forall i | 0 <= i < |Spends(tx)| ensures IsUnspent(y, Spends(tx)[i]) {
      assert IsUnspent(x, Spends(tx)[i]);
    }
  }

  lemma {:induction false} AlikeConnect(x: Index, y: Index, extra: Hash, tx: Tx, pos: TxPos, pos': TxPos)
    requires Alike(x, y, extra) && tx.hash != extra && pos != NoPos && pos' != NoPos
    ensures Alike(ConnectTx(x, tx, pos), ConnectTx(y, tx, pos'), extra)
  {
    var x', y' := ConnectTx(x, tx, pos), ConnectTx(y, tx, pos');
    forall h, n | h in x' && 0 <= n < |x'[h].vSpent|
      ensures h in y' && |x'[h].vSpent| == |y'[h].vSpent| && (x'[h].vSpent[n] == NoPos <==> y'[h].vSpent[n] == NoPos)
    {
    }
    forall h | h in x' ensures h in y' && |x'[h].vSpent| == |y'[h].vSpent| {
    }
  }

  /** Behind a coinbase of its own, stored wherever the block will be, every transaction is spendable when `ConnectBlock`
      comes to it. */
  lemma {:induction false} AssembledConnects(env: Env, vtx: seq<Tx>, b: Block, k: nat)
    requires IsAssembled(env, vtx) && k <= |vtx|
    requires |b.vtx| == |vtx| + 1 && b.vtx[1..] == vtx && IsCoinBase(b.vtx[0])
    requires b.vtx[0].hash !in env.txdb && b.vtx[0].hash !in env.pool
    ensures AllSpendable(env.txdb, b, k + 1)
    ensures Alike(Replay(env, vtx[..k]), ConnectTxs(env.txdb, b, k + 1), b.vtx[0].hash)
  {
    hide *;
    if k == 0 {
      CoinBaseAdds(env, b);
      assert vtx[..0] == [];
      NothingReplayed(env);
    } else {
      AssembledConnects(env, vtx, b, k - 1);
      SpendableAt(env, vtx, k - 1);
      InPoolNot(env, vtx, k - 1, b.vtx[0].hash);
      assert b.vtx[k] == b.vtx[1..][k - 1] == vtx[k - 1];
      ConnectsNext(env, vtx, b, k);
    }
  }

  lemma {:induction false} ConnectsNext(env: Env, vtx: seq<Tx>, b: Block, k: nat)
    requires 0 < k <= |vtx| && k < |b.vtx| && b.vtx[k] == vtx[k - 1] && vtx[k - 1].hash != b.vtx[0].hash
    requires AllSpendable(env.txdb, b, k) && Spendable(Replay(env, vtx[..k - 1]), vtx[k - 1])
    requires Alike(Replay(env, vtx[..k - 1]), ConnectTxs(env.txdb, b, k), b.vtx[0].hash)
    ensures AllSpendable(env.txdb, b, k + 1)
    ensures Alike(Replay(env, vtx[..k]), ConnectTxs(env.txdb, b, k + 1), b.vtx[0].hash)
  {
    hide AllSpendable, Spendable, Replay, ConnectTxs, ConnectTx, Alike;
    var x, y, c := Replay(env, vtx[..k - 1]), ConnectTxs(env.txdb, b, k), b.vtx[0].hash;
    AlikeSpendable(x, y, c, vtx[k - 1]);
    AlikeConnect(x, y, c, vtx[k - 1], POOL_POS, PosOf(b, k));
    OneFurther(env, vtx, b, k);
  }

  lemma {:induction false} NothingReplayed(env: Env)
    ensures Replay(env, []) == env.txdb
  {
  }

  lemma {:induction false} OneFurther(env: Env, vtx: seq<Tx>, b: Block, k: nat)
    requires 0 < k <= |vtx| && k < |b.vtx|
    ensures Replay(env, vtx[..k]) == ConnectTx(Replay(env, vtx[..k - 1]), vtx[k - 1], POOL_POS)
    ensures ConnectTxs(env.txdb, b, k + 1) == ConnectTx(ConnectTxs(env.txdb, b, k), b.vtx[k], PosOf(b, k))
    ensures AllSpendable(env.txdb, b, k) && Spendable(ConnectTxs(env.txdb, b, k), b.vtx[k]) ==> AllSpendable(env.txdb, b, k + 1)
  {
    hide ConnectTx, Spendable, PosOf;
    assert vtx[..k][..k - 1] == vtx[..k - 1];
  }

  lemma {:induction false} InPoolNot(env: Env, vtx: seq<Tx>, k: nat, c: Hash)
    requires IsAssembled(env, vtx) && k < |vtx| && c !in env.pool
    ensures vtx[k].hash != c
  {
  }

  lemma {:induction false} CoinBaseAdds(env: Env, b: Block)
    requires b.vtx != [] && IsCoinBase(b.vtx[0]) && b.vtx[0].hash !in env.txdb
    ensures AllSpendable(env.txdb, b, 1) && Alike(env.txdb, ConnectTxs(env.txdb, b, 1), b.vtx[0].hash)
  {
    assert Spends(b.vtx[0]) == [];
    assert ConnectTxs(env.txdb, b, 0) == env.txdb;
    MarkNothing(env.txdb, PosOf(b, 0));
  }

  /** The block has been written behind the files of the chain. */
  ghost predicate Written(env: Env, b: Block, disk: Disk)
    requires EnvOk(env)
  {
    OnDisk(b, disk) && forall h :: h in env.txdb ==> env.txdb[h].pos in disk && disk[env.txdb[h].pos] == env.disk[env.txdb[h].pos]
  }

  /** Behind a coinbase of its own. */
  ghost predicate Heads(env: Env, b: Block, vtx: seq<Tx>) {
    && |b.vtx| == |vtx| + 1 && b.vtx[1..] == vtx && IsCoinBase(b.vtx[0])
    && b.vtx[0].hash !in env.txdb && b.vtx[0].hash !in env.pool
  }

  /** Every entry of the index leads to its transaction. */
  ghost predicate ReadsAs(env: Env, b: Block, disk: Disk, view: Index)
    requires EnvOk(env) && b.vtx != []
  {
    forall h :: h in view ==>
      && (h == b.vtx[0].hash || h in env.txdb || h in env.pool)
      && view[h].pos in disk
      && disk[view[h].pos] == (if h == b.vtx[0].hash then b.vtx[0] else Origin(env, h))
      && |view[h].vSpent| == |disk[view[h].pos].vout|
  }

  lemma {:induction false} ReadsAfter(env: Env, b: Block, disk: Disk, view: Index, tx: Tx, pos: TxPos)
    requires EnvOk(env) && b.vtx != [] && ReadsAs(env, b, disk, view) && pos in disk && disk[pos] == tx
    requires tx == b.vtx[0] || (tx.hash != b.vtx[0].hash && tx.hash in env.pool && tx == env.pool[tx.hash])
    ensures ReadsAs(env, b, disk, ConnectTx(view, tx, pos))
  {
    var r := ConnectTx(view, tx, pos);
    forall h | h in r && h != tx.hash
      ensures h in view && r[h].pos == view[h].pos && |r[h].vSpent| == |view[h].vSpent|
    {
    }
  }

  lemma {:induction false} ReadsThroughout(env: Env, vtx: seq<Tx>, b: Block, disk: Disk, k: nat)
    requires IsAssembled(env, vtx) && Heads(env, b, vtx) && Written(env, b, disk) && k <= |b.vtx|
    ensures ReadsAs(env, b, disk, ConnectTxs(env.txdb, b, k))
  {
    hide ConnectTx, Chained, DistinctHashes, PosOf;
    if k == 0 {
      hide OnDisk;
    } else {
      ReadsThroughout(env, vtx, b, disk, k - 1);
      hide ReadsAs;
      StoredThere(b, disk, k - 1);
      assert k > 1 ==> b.vtx[k - 1] == b.vtx[1..][k - 2] == vtx[k - 2];
      ReadsAfter(env, b, disk, ConnectTxs(env.txdb, b, k - 1), b.vtx[k - 1], PosOf(b, k - 1));
    }
  }

  lemma {:induction false} AllAreStored(env: Env, b: Block, disk: Disk, view: Index)
    requires EnvOk(env) && b.vtx != [] && ReadsAs(env, b, disk, view)
    ensures AllStored(view, disk)
  {
  }

  /** The chain reads the same values as the assembler. */
  lemma {:induction false} SameValue(env: Env, b: Block, disk: Disk, view: Index, vin: seq<OutPoint>, k: nat)
    requires EnvOk(env) && b.vtx != [] && ReadsAs(env, b, disk, view) && AllStored(view, disk) && AllKnown(env, vin)
    requires b.vtx[0].hash !in env.txdb && b.vtx[0].hash !in env.pool
    requires k <= |vin| && forall i :: 0 <= i < |vin| ==> Exists(view, vin[i])
    ensures ValueIn(view, vin, k, disk) == InValue(env, vin[..k])
  {
    hide EnvOk, ReadsAs;
    if k > 0 {
      SameValue(env, b, disk, view, vin, k - 1);
      assert vin[..k][..k - 1] == vin[..k - 1];
      assert IsKnown(env, vin[k - 1]) && Exists(view, vin[k - 1]);
      SamePrevious(env, b, disk, view, vin[k - 1]);
    }
  }

  lemma {:induction false} SamePrevious(env: Env, b: Block, disk: Disk, view: Index, o: OutPoint)
    requires EnvOk(env) && b.vtx != [] && ReadsAs(env, b, disk, view) && Exists(view, o) && IsKnown(env, o)
    requires b.vtx[0].hash !in env.txdb && b.vtx[0].hash !in env.pool
    ensures InRange(view, disk, o) && disk[view[o.hash].pos] == Origin(env, o.hash)
  {
  }

  /** The inputs of a transaction pass some other checks than the assembler's: those that the chain makes at the height of the
      block, with its own flags. */
  ghost predicate PassesUnder(env: Env, q: InputPolicy, tx: Tx)
    requires EnvOk(env)
  {
    forall i :: 0 <= i < |tx.vin| ==> IsKnown(env, tx.vin[i]) && q(tx, Origin(env, tx.vin[i].hash), i)
  }

  /** A transaction that the assembler added is accepted by the chain at its turn exactly when its inputs pass the checks
      that the chain makes of them. */
  lemma {:induction false} AddedIsAccepted(env: Env, p: Policy, q: InputPolicy, b: Block, disk: Disk, view: Index, tx: Tx)
    requires EnvOk(env) && b.vtx != [] && ReadsAs(env, b, disk, view) && Spendable(view, tx)
    requires b.vtx[0].hash !in env.txdb && b.vtx[0].hash !in env.pool
    requires IsCandidate(env, p, tx) && InputsOk(env, p, tx) && FeeOk(env, p, tx) && tx.hash !in env.txdb
    ensures TxOk(env.txdb, view, disk, tx, q, p.connectFee(tx)) <==> PassesUnder(env, q, tx)
  {
    hide EnvOk, ReadsAs, InRange;
    assert Spends(tx) == tx.vin;
    AllAreStored(env, b, disk, view);
    forall i | 0 <= i < |tx.vin| ensures Exists(view, tx.vin[i]) && InRange(view, disk, tx.vin[i])
                                         && disk[view[tx.vin[i].hash].pos] == Origin(env, tx.vin[i].hash)
    {
      assert IsUnspent(view, Spends(tx)[i]) && IsKnown(env, tx.vin[i]);
      SamePrevious(env, b, disk, view, tx.vin[i]);
    }
    SameValue(env, b, disk, view, tx.vin, |tx.vin|);
    assert tx.vin[..|tx.vin|] == tx.vin;
    GoodInputs(env, p, q, disk, view, tx);
  }

  lemma {:induction false} GoodInputs(env: Env, p: Policy, q: InputPolicy, disk: Disk, view: Index, tx: Tx)
    requires EnvOk(env) && AllKnown(env, tx.vin) && InputsOk(env, p, tx)
    requires forall i :: 0 <= i < |tx.vin| ==>
      InRange(view, disk, tx.vin[i]) && IsKnown(env, tx.vin[i]) && disk[view[tx.vin[i].hash].pos] == Origin(env, tx.vin[i].hash)
    ensures InputsGood(view, disk, tx, q) <==> PassesUnder(env, q, tx)
  {
    hide EnvOk, InRange;
  }

  lemma {:induction false} SpendableInBlock(ix: Index, b: Block, n: nat, k: nat)
    requires k < n <= |b.vtx| && AllSpendable(ix, b, n)
    ensures Spendable(ConnectTxs(ix, b, k), b.vtx[k])
    decreases n
  {
    hide Spendable, ConnectTxs;
    if k < n - 1 {
      SpendableInBlock(ix, b, n - 1, k);
    }
  }

  lemma {:induction false} TxsAccepted(env: Env, p: Policy, q: InputPolicy, vtx: seq<Tx>, b: Block, disk: Disk, k: nat)
    requires IsAssembled(env, vtx) && Heads(env, b, vtx) && Written(env, b, disk) && k <= |b.vtx|
    requires forall i :: 0 <= i < |vtx| ==> IsCandidate(env, p, vtx[i]) && InputsOk(env, p, vtx[i]) && FeeOk(env, p, vtx[i])
    ensures BlockChain.TxsOk(env.txdb, disk, b, q, p.connectFee, k) <==> forall i :: 0 <= i < k - 1 ==> PassesUnder(env, q, vtx[i])
  {
    hide TxOk, ConnectTxs, Spendable, ReadsAs, Written, IsCandidate, InputsOk, FeeOk, PassesUnder;
    if k > 0 {
      TxsAccepted(env, p, q, vtx, b, disk, k - 1);
      ReadsThroughout(env, vtx, b, disk, k - 1);
      AssembledConnects(env, vtx, b, |vtx|);
      SpendableInBlock(env.txdb, b, |b.vtx|, k - 1);
      if k == 1 {
        CoinBaseIsOk(env.txdb, ConnectTxs(env.txdb, b, 0), disk, b.vtx[0], q, p.connectFee(b.vtx[0]));
      } else {
        assert b.vtx[k - 1] == b.vtx[1..][k - 2] == vtx[k - 2];
        AddedIsAccepted(env, p, q, b, disk, ConnectTxs(env.txdb, b, k - 1), vtx[k - 2]);
      }
    }
  }

  lemma {:induction false} CoinBaseIsOk(ix: Index, view: Index, disk: Disk, tx: Tx, policy: InputPolicy, minFee: int)
    requires IsCoinBase(tx) && tx.hash !in ix
    ensures TxOk(ix, view, disk, tx, policy, minFee)
  {
  }

  /** What the assembler returns, stored behind a fresh coinbase, is accepted by the chain exactly when every input of every
      added transaction passes the checks that the chain makes of it, and the rest of the block is in order: its shape, the
      rules not modelled, and a coinbase within the reward. */
  lemma {:induction false} CreatedIsAccepted(env: Env, p: Policy, vtx: seq<Tx>, nFees: int, nBlockSize: nat, nBlockSigOps: nat,
                                             b: Block, disk: Disk, otherRules: Block -> bool, ctx: BlockChain.Context, nPrevSupply: int)
    requires EnvOk(env) && BlockOk(env, p, vtx, nFees, nBlockSize, nBlockSigOps)
    requires Heads(env, b, vtx) && Written(env, b, disk)
    ensures BlockChain.Accepts(BlockChain.Rules(p.connectFee, otherRules), env.txdb, disk, b, ctx, nPrevSupply)
       <==> && (forall i :: 0 <= i < |vtx| ==> PassesUnder(env, ctx.policy, vtx[i]))
            && WellFormed(b) && otherRules(b) && ValueOut(b.vtx[0].vout) <= GetProofOfWorkReward(ctx.nHeight)
  {
    CreatedIsAssembled(env, p, vtx, nFees, nBlockSize, nBlockSigOps);
    hide EnvOk, Chained, DistinctHashes, Written, InputsOk, FeeOk, ValueOut, Total, PassesUnder, AllKnown;
    TxsAccepted(env, p, ctx.policy, vtx, b, disk, |b.vtx|);
    hide BlockChain.TxsOk;
    assert |vtx| > 0 ==> b.vtx[1] == b.vtx[1..][0] == vtx[0];
  }

  /** Checks of inputs, as from protocol V3 on, that refuse to spend an empty output. */
  ghost predicate RefusesMarkers(q: InputPolicy) {
    forall tx: Tx, prev: Tx, i: nat :: i < |tx.vin| && tx.vin[i].n < |prev.vout| && IsEmpty(prev.vout[tx.vin[i].n]) ==> !q(tx, prev, i)
  }

  /** Whatever the assembler's own checks allowed, the chain then refuses a block in which a transaction spends an empty
      output. */
  lemma {:induction false} MarkerIsRefused(env: Env, p: Policy, vtx: seq<Tx>, nFees: int, nBlockSize: nat, nBlockSigOps: nat,
                                           b: Block, disk: Disk, otherRules: Block -> bool, ctx: BlockChain.Context, nPrevSupply: int,
                                           k: nat, i: nat)
    requires EnvOk(env) && BlockOk(env, p, vtx, nFees, nBlockSize, nBlockSigOps)
    requires Heads(env, b, vtx) && Written(env, b, disk)
    requires RefusesMarkers(ctx.policy) && k < |vtx| && i < |vtx[k].vin|
    requires var o := vtx[k].vin[i]; IsKnown(env, o) && IsEmpty(Origin(env, o.hash).vout[o.n])
    ensures !BlockChain.Accepts(BlockChain.Rules(p.connectFee, otherRules), env.txdb, disk, b, ctx, nPrevSupply)
  {
    CreatedIsAccepted(env, p, vtx, nFees, nBlockSize, nBlockSigOps, b, disk, otherRules, ctx, nPrevSupply);
    assert !PassesUnder(env, ctx.policy, vtx[k]);
  }

  /** With the assembler's own checks nothing else is left to decide. */
  lemma {:induction false} SameChecksPass(env: Env, p: Policy, vtx: seq<Tx>, nFees: int, nBlockSize: nat, nBlockSigOps: nat, i: nat)
    requires EnvOk(env) && BlockOk(env, p, vtx, nFees, nBlockSize, nBlockSigOps) && i < |vtx|
    ensures PassesUnder(env, p.inputOk, vtx[i])
  {
    hide EnvOk, Chained, DistinctHashes, TotalFees;
    assert IsCandidate(env, p, vtx[i]) && InputsOk(env, p, vtx[i]);
  }
}
