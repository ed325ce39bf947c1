/** The transaction index: which outputs exist and where they were spent. Connecting a
    transaction marks the outputs it spends and adds its own; disconnecting undoes both. */
module TxIndexing {

  type Hash = nat

  datatype OutPoint = OutPoint(hash: Hash, n: nat)

  datatype TxOut = TxOut(nValue: int, hasScript: bool)

  /** A transaction, with its hash. None of its inputs is anonymous. */
  datatype Tx = Tx(hash: Hash, nTime: int, nSize: nat, vin: seq<OutPoint>, vout: seq<TxOut>)

  datatype TxPos = NoPos | TxPos(nFile: nat, nBlockPos: nat, nTxPos: nat)

  datatype TxIndex = TxIndex(pos: TxPos, vSpent: seq<TxPos>)

  /** A block as stored: its transactions follow one another on disk from `nTxStart`. */
  datatype Block = Block(vtx: seq<Tx>, nFile: nat, nBlockPos: nat, nTxStart: nat)

  type Index = map<Hash, TxIndex>

  /** The block files: which transaction a position holds. */
  type Disk = map<TxPos, Tx>

  const NULL_OUTPOINT: OutPoint := OutPoint(0, 0xFFFF_FFFF)

  predicate IsEmpty(out: TxOut) {
    out.nValue == 0 && !out.hasScript
  }

  predicate IsCoinBase(tx: Tx) {
    |tx.vin| == 1 && tx.vin[0] == NULL_OUTPOINT && |tx.vout| >= 1
  }

  predicate IsCoinStake(tx: Tx) {
    |tx.vin| > 0 && tx.vin[0] != NULL_OUTPOINT && |tx.vout| >= 2 && IsEmpty(tx.vout[0])
  }

  /** The outputs a transaction spends. */
  function Spends(tx: Tx): seq<OutPoint> {
    if IsCoinBase(tx) then [] else tx.vin
  }

  function NoneSpent(n: nat): (s: seq<TxPos>)
    ensures |s| == n && forall i :: 0 <= i < n ==> s[i] == NoPos
  {
    seq(n, i => NoPos)
  }

  //////////////////////////////////////////////////////////////////////////////
  // Marking outputs
  //////////////////////////////////////////////////////////////////////////////

  predicate Exists(ix: Index, o: OutPoint) {
    o.hash in ix && o.n < |ix[o.hash].vSpent|
  }

  /** Set one spent pointer. */
  function SetSpent(ix: Index, o: OutPoint, v: TxPos): Index
    requires Exists(ix, o)
  {
    ix[o.hash := ix[o.hash].(vSpent := ix[o.hash].vSpent[o.n := v])]
  }

  function MarkEntry(e: TxIndex, h: Hash, ops: seq<OutPoint>, v: TxPos): (r: TxIndex)
    ensures r.pos == e.pos && |r.vSpent| == |e.vSpent|
    ensures forall n :: 0 <= n < |e.vSpent| ==> r.vSpent[n] == if OutPoint(h, n) in ops then v else e.vSpent[n]
  {
    e.(vSpent := seq(|e.vSpent|, n requires 0 <= n < |e.vSpent| => if OutPoint(h, n) in ops then v else e.vSpent[n]))
  }

  /** Set the spent pointers of all the listed outputs; outputs that do not exist are ignored. */
  function Mark(ix: Index, ops: seq<OutPoint>, v: TxPos): (r: Index)
    ensures r.Keys == ix.Keys
    ensures forall h :: h in ix ==> r[h] == MarkEntry(ix[h], h, ops, v)
  {
    map h | h in ix :: MarkEntry(ix[h], h, ops, v)
  }

  lemma {:induction false} EntryEq(a: TxIndex, b: TxIndex)
    requires a.pos == b.pos && |a.vSpent| == |b.vSpent|
    requires forall n :: 0 <= n < |a.vSpent| ==> a.vSpent[n] == b.vSpent[n]
    ensures a == b
  {
    assert a.vSpent == b.vSpent;
  }

  lemma {:induction false} MarkNothing(ix: Index, v: TxPos)
    ensures Mark(ix, [], v) == ix
  {
    forall h | h in ix ensures Mark(ix, [], v)[h] == ix[h] {
      EntryEq(MarkEntry(ix[h], h, [], v), ix[h]);
    }
  }

  lemma {:induction false} MarkMore(ix: Index, ops: seq<OutPoint>, o: OutPoint, v: TxPos)
    ensures Exists(ix, o) ==> Exists(Mark(ix, ops, v), o) && Mark(ix, ops + [o], v) == SetSpent(Mark(ix, ops, v), o, v)
    ensures !Exists(ix, o) ==> Mark(ix, ops + [o], v) == Mark(ix, ops, v)
  {
    var a, b := Mark(ix, ops + [o], v), Mark(ix, ops, v);
    forall h | h in ix ensures a[h] == if Exists(ix, o) && h == o.hash then b[h].(vSpent := b[h].vSpent[o.n := v]) else b[h] {
      var want := if Exists(ix, o) && h == o.hash then b[h].(vSpent := b[h].vSpent[o.n := v]) else b[h];
      forall n | 0 <= n < |ix[h].vSpent| ensures a[h].vSpent[n] == want.vSpent[n] {
        assert OutPoint(h, n) in ops + [o] <==> OutPoint(h, n) in ops || OutPoint(h, n) == o;
      }
      EntryEq(a[h], want);
    }
    if Exists(ix, o) {
      var w := SetSpent(b, o, v);
      assert a.Keys == w.Keys;
      assert forall h :: h in ix ==> a[h] == w[h];
    }
  }

  /** Marking as unspent undoes a spend of unspent outputs. */
  lemma {:induction false} MarkUndone(ix: Index, ops: seq<OutPoint>, v: TxPos)
    requires forall i :: 0 <= i < |ops| ==> Exists(ix, ops[i]) && ix[ops[i].hash].vSpent[ops[i].n] == NoPos
    ensures Mark(Mark(ix, ops, v), ops, NoPos) == ix
  {
    var b := Mark(Mark(ix, ops, v), ops, NoPos);
    forall h | h in ix ensures b[h] == ix[h] {
      forall n | 0 <= n < |ix[h].vSpent| ensures b[h].vSpent[n] == ix[h].vSpent[n] {
        if OutPoint(h, n) in ops {
          var i :| 0 <= i < |ops| && ops[i] == OutPoint(h, n);
        }
      }
      EntryEq(b[h], ix[h]);
    }
  }

  /** Outputs of an entry not mentioned are not touched. */
  lemma {:induction false} MarkBeside(ix: Index, ops: seq<OutPoint>, v: TxPos, h: Hash, e: TxIndex)
    requires forall i :: 0 <= i < |ops| ==> ops[i].hash != h
    ensures Mark(ix[h := e], ops, v) == Mark(ix, ops, v)[h := e]
  {
    var a, b := Mark(ix[h := e], ops, v), Mark(ix, ops, v)[h := e];
    forall n | 0 <= n < |e.vSpent| ensures OutPoint(h, n) !in ops {
    }
    EntryEq(a[h], e);
    assert a.Keys == b.Keys;
    forall k | k in a ensures a[k] == b[k] {
    }
  }

  //////////////////////////////////////////////////////////////////////////////
  // Connecting and disconnecting transactions
  //////////////////////////////////////////////////////////////////////////////

  function ConnectTx(ix: Index, tx: Tx, pos: TxPos): Index {
    Mark(ix, Spends(tx), pos)[tx.hash := TxIndex(pos, NoneSpent(|tx.vout|))]
  }

  function DisconnectTx(ix: Index, tx: Tx): Index {
    Mark(ix, Spends(tx), NoPos) - {tx.hash}
  }

  function TxOffset(b: Block, k: nat): nat
    requires k <= |b.vtx|
  {
    if k == 0 then b.nTxStart else TxOffset(b, k - 1) + b.vtx[k - 1].nSize
  }

  /** Where the k-th transaction of a block is stored. */
  function PosOf(b: Block, k: nat): TxPos
    requires k <= |b.vtx|
  {
    TxPos(b.nFile, b.nBlockPos, TxOffset(b, k))
  }

  /** The index after the first k transactions of a block. */
  function ConnectTxs(ix: Index, b: Block, k: nat): Index
    requires k <= |b.vtx|
  {
    if k == 0 then ix else ConnectTx(ConnectTxs(ix, b, k - 1), b.vtx[k - 1], PosOf(b, k - 1))
  }

  /** Taking back the first k transactions of a block, last one first. */
  function DisconnectTxs(ix: Index, b: Block, k: nat): Index
    requires k <= |b.vtx|
  {
    if k == 0 then ix else DisconnectTxs(DisconnectTx(ix, b.vtx[k - 1]), b, k - 1)
  }

  /** All the outputs a transaction spends are different, exist and are unspent. */
  predicate Spendable(ix: Index, tx: Tx) {
    && (forall i :: 0 <= i < |Spends(tx)| ==> IsUnspent(ix, Spends(tx)[i]))
    && (forall i, j :: 0 <= i < j < |Spends(tx)| ==> Spends(tx)[i] != Spends(tx)[j])
  }

  predicate IsUnspent(ix: Index, o: OutPoint) {
    Exists(ix, o) && ix[o.hash].vSpent[o.n] == NoPos
  }

  /** Each of the first k transactions is spendable when its turn comes. */
  predicate AllSpendable(ix: Index, b: Block, k: nat)
    requires k <= |b.vtx|
  {
    k > 0 ==> AllSpendable(ix, b, k - 1) && Spendable(ConnectTxs(ix, b, k - 1), b.vtx[k - 1])
  }

  predicate DistinctTxs(b: Block) {
    forall i, j :: 0 <= i < j < |b.vtx| ==> b.vtx[i].hash != b.vtx[j].hash
  }

  predicate Fresh(ix: Index, b: Block) {
    forall i :: 0 <= i < |b.vtx| ==> b.vtx[i].hash !in ix
  }

  lemma {:induction false} DisconnectUndoesTx(ix: Index, tx: Tx, pos: TxPos)
    requires Spendable(ix, tx) && tx.hash !in ix
    ensures DisconnectTx(ConnectTx(ix, tx, pos), tx) == ix
  {
    var ops := Spends(tx);
    var e := TxIndex(pos, NoneSpent(|tx.vout|));
    forall i | 0 <= i < |ops| ensures ops[i].hash != tx.hash {
    }
    MarkBeside(Mark(ix, ops, pos), ops, NoPos, tx.hash, e);
    MarkUndone(ix, ops, pos);
  }

  lemma {:induction false} ConnectKeys(ix: Index, b: Block, k: nat, h: Hash)
    requires k <= |b.vtx|
    ensures h in ConnectTxs(ix, b, k) <==> h in ix || exists i :: 0 <= i < k && b.vtx[i].hash == h
  {
    if k > 0 {
      ConnectKeys(ix, b, k - 1, h);
    }
  }

  lemma {:induction false} DisconnectUndoesTxs(ix: Index, b: Block, k: nat)
    requires k <= |b.vtx| && AllSpendable(ix, b, k) && DistinctTxs(b) && Fresh(ix, b)
    ensures DisconnectTxs(ConnectTxs(ix, b, k), b, k) == ix
  {
    hide ConnectTx, DisconnectTx, Spendable, PosOf;
    if k > 0 {
      ConnectKeys(ix, b, k - 1, b.vtx[k - 1].hash);
      DisconnectUndoesTx(ConnectTxs(ix, b, k - 1), b.vtx[k - 1], PosOf(b, k - 1));
      DisconnectUndoesTxs(ix, b, k - 1);
    }
  }

  lemma {:induction false} DisconnectErases(ix: Index, b: Block, k: nat)
    requires k <= |b.vtx|
    ensures DisconnectTxs(ix, b, k).Keys <= ix.Keys
    ensures forall i :: 0 <= i < k ==> b.vtx[i].hash !in DisconnectTxs(ix, b, k)
  {
    if k > 0 {
      DisconnectErases(DisconnectTx(ix, b.vtx[k - 1]), b, k - 1);
    }
  }

  /** Disconnecting a block restores the index exactly when none of its transaction ids was in
      the index before, whether or not its transactions spend one another. */
  lemma {:induction false} DisconnectRestores(ix: Index, b: Block)
    requires AllSpendable(ix, b, |b.vtx|) && DistinctTxs(b)
    ensures DisconnectTxs(ConnectTxs(ix, b, |b.vtx|), b, |b.vtx|) == ix <==> Fresh(ix, b)
  {
    DisconnectErases(ConnectTxs(ix, b, |b.vtx|), b, |b.vtx|);
    if Fresh(ix, b) {
      DisconnectUndoesTxs(ix, b, |b.vtx|);
    }
  }

  //////////////////////////////////////////////////////////////////////////////
  // Spent outputs
  //////////////////////////////////////////////////////////////////////////////

  ghost predicate IsSpent(ix: Index, o: OutPoint) {
    Exists(ix, o) && ix[o.hash].vSpent[o.n] != NoPos
  }

  /** What is spent stays spent, and what a transaction spends is spent afterwards, unless its own id is reused. */
  lemma {:induction false} ConnectSpends(ix: Index, tx: Tx, pos: TxPos, o: OutPoint)
    requires tx.hash !in ix && pos != NoPos && Exists(ix, o)
    ensures IsSpent(ix, o) || o in Spends(tx) ==> IsSpent(ConnectTx(ix, tx, pos), o)
  {
  }

  predicate FreshUpTo(ix: Index, b: Block, k: nat)
    requires k <= |b.vtx|
  {
    forall i :: 0 <= i < k ==> b.vtx[i].hash !in ix
  }

  lemma {:induction false} SpentThrough(ix: Index, b: Block, k: nat, o: OutPoint)
    requires k <= |b.vtx| && FreshUpTo(ix, b, k) && DistinctTxs(b) && IsSpent(ix, o)
    ensures IsSpent(ConnectTxs(ix, b, k), o)
  {
    hide ConnectTx, IsSpent;
    if k > 0 {
      SpentThrough(ix, b, k - 1, o);
      ConnectKeys(ix, b, k - 1, b.vtx[k - 1].hash);
      SpentExists(ConnectTxs(ix, b, k - 1), o);
      ConnectSpends(ConnectTxs(ix, b, k - 1), b.vtx[k - 1], PosOf(b, k - 1), o);
    }
  }

  lemma {:induction false} SpentExists(ix: Index, o: OutPoint)
    requires IsSpent(ix, o)
    ensures Exists(ix, o)
  {
  }

  /** After a block with fresh ids, everything that its first transactions spend is spent. */
  lemma {:induction false} BlockSpends(ix: Index, b: Block, k: nat, i: nat, o: OutPoint)
    requires i < k <= |b.vtx| && AllSpendable(ix, b, k) && Fresh(ix, b) && DistinctTxs(b) && o in Spends(b.vtx[i])
    ensures IsSpent(ConnectTxs(ix, b, k), o)
    decreases k
  {
    hide ConnectTx, IsSpent;
    var before := ConnectTxs(ix, b, k - 1);
    ConnectKeys(ix, b, k - 1, b.vtx[k - 1].hash);
    if i < k - 1 {
      BlockSpends(ix, b, k - 1, i, o);
      SpentExists(before, o);
    } else {
      var a :| 0 <= a < |Spends(b.vtx[i])| && Spends(b.vtx[i])[a] == o;
      assert IsUnspent(before, Spends(b.vtx[i])[a]);
    }
    ConnectSpends(before, b.vtx[k - 1], PosOf(b, k - 1), o);
  }
}
