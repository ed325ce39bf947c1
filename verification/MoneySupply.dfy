/** The total value of all unspent outputs, and how connecting transactions changes it. */
module MoneySupply {
  import opened TxIndexing

  function ValueOut(vout: seq<TxOut>): int {
    if vout == [] then 0 else ValueOut(vout[..|vout| - 1]) + vout[|vout| - 1].nValue
  }

  /** The index entry of a transaction on disk. */
  predicate Stored(e: TxIndex, disk: Disk) {
    e.pos in disk && |disk[e.pos].vout| == |e.vSpent|
  }

  predicate AllStored(ix: Index, disk: Disk) {
    forall h :: h in ix ==> Stored(ix[h], disk)
  }

  ghost function UnspentValue(vSpent: seq<TxPos>, vout: seq<TxOut>, k: nat): int
    requires k <= |vSpent| == |vout|
  {
    if k == 0 then 0
    else UnspentValue(vSpent, vout, k - 1) + (if vSpent[k - 1] == NoPos then vout[k - 1].nValue else 0)
  }

  /** Value of the outputs of one entry that have a null spent pointer. */
  ghost function EntryValue(e: TxIndex, disk: Disk): int {
    if Stored(e, disk) then UnspentValue(e.vSpent, disk[e.pos].vout, |e.vSpent|) else 0
  }

  ghost function TotalOver(ix: Index, keys: set<Hash>, disk: Disk): int
    requires keys <= ix.Keys
  {
    if keys == {} then 0
    else
      var h :| h in keys;
      EntryValue(ix[h], disk) + TotalOver(ix, keys - {h}, disk)
  }

  /** The total value of all outputs with a null spent pointer. */
  ghost function Total(ix: Index, disk: Disk): int {
    TotalOver(ix, ix.Keys, disk)
  }

  /** Value of an output, read through the index. */
  function OutputValue(ix: Index, o: OutPoint, disk: Disk): int
    requires Exists(ix, o) && Stored(ix[o.hash], disk)
  {
    disk[ix[o.hash].pos].vout[o.n].nValue
  }

  /** Value of the first k outputs a transaction spends. */
  function ValueIn(ix: Index, ops: seq<OutPoint>, k: nat, disk: Disk): int
    requires k <= |ops| && AllStored(ix, disk)
    requires forall i :: 0 <= i < |ops| ==> Exists(ix, ops[i])
  {
    if k == 0 then 0 else ValueIn(ix, ops, k - 1, disk) + OutputValue(ix, ops[k - 1], disk)
  }

  //////////////////////////////////////////////////////////////////////////////
  // Totals
  //////////////////////////////////////////////////////////////////////////////

  lemma {:induction false} TotalPick(ix: Index, keys: set<Hash>, disk: Disk, h: Hash)
    requires keys <= ix.Keys && h in keys
    ensures TotalOver(ix, keys, disk) == EntryValue(ix[h], disk) + TotalOver(ix, keys - {h}, disk)
    decreases |keys|
  {
    hide EntryValue;
    var g :| g in keys && TotalOver(ix, keys, disk) == EntryValue(ix[g], disk) + TotalOver(ix, keys - {g}, disk);
    if g != h {
      TotalPick(ix, keys - {g}, disk, h);
      TotalPick(ix, keys - {h}, disk, g);
      assert keys - {g} - {h} == keys - {h} - {g};
    }
  }

  lemma {:induction false} TotalAgrees(ix: Index, ix': Index, keys: set<Hash>, disk: Disk)
    requires keys <= ix.Keys && keys <= ix'.Keys
    requires forall h :: h in keys ==> EntryValue(ix[h], disk) == EntryValue(ix'[h], disk)
    ensures TotalOver(ix, keys, disk) == TotalOver(ix', keys, disk)
    decreases |keys|
  {
    hide EntryValue;
    if keys != {} {
      var h :| h in keys;
      TotalPick(ix, keys, disk, h);
      TotalPick(ix', keys, disk, h);
      TotalAgrees(ix, ix', keys - {h}, disk);
    }
  }

  /** Replacing an entry, or adding one, changes the total by the difference of the entries. */
  lemma {:induction false} TotalReplaced(ix: Index, h: Hash, e: TxIndex, disk: Disk)
    ensures Total(ix[h := e], disk)
         == Total(ix, disk) + EntryValue(e, disk) - (if h in ix then EntryValue(ix[h], disk) else 0)
  {
    hide EntryValue;
    var ix' := ix[h := e];
    TotalPick(ix', ix'.Keys, disk, h);
    assert ix'.Keys - {h} == ix.Keys - {h};
    TotalAgrees(ix', ix, ix.Keys - {h}, disk);
    if h in ix {
      TotalPick(ix, ix.Keys, disk, h);
    } else {
      assert ix.Keys - {h} == ix.Keys;
    }
  }

  lemma {:induction false} UnspentAfterSpend(vSpent: seq<TxPos>, vout: seq<TxOut>, n: nat, v: TxPos, k: nat)
    requires k <= |vSpent| == |vout| && n < |vSpent| && vSpent[n] == NoPos && v != NoPos
    ensures UnspentValue(vSpent[n := v], vout, k) == UnspentValue(vSpent, vout, k) - (if n < k then vout[n].nValue else 0)
  {
    if k > 0 {
      UnspentAfterSpend(vSpent, vout, n, v, k - 1);
    }
  }

  lemma {:induction false} AllUnspent(vSpent: seq<TxPos>, vout: seq<TxOut>, k: nat)
    requires k <= |vSpent| == |vout| && forall i :: 0 <= i < |vSpent| ==> vSpent[i] == NoPos
    ensures UnspentValue(vSpent, vout, k) == ValueOut(vout[..k])
  {
    if k > 0 {
      AllUnspent(vSpent, vout, k - 1);
      assert vout[..k][..k - 1] == vout[..k - 1];
    }
  }

  lemma {:induction false} NothingUnspent(vSpent: seq<TxPos>, vout: seq<TxOut>, k: nat)
    requires k <= |vSpent| == |vout| && forall i :: 0 <= i < |vSpent| ==> vSpent[i] != NoPos
    ensures UnspentValue(vSpent, vout, k) == 0
  {
    if k > 0 {
      NothingUnspent(vSpent, vout, k - 1);
    }
  }

  /** Spending an output takes its value out of the total. */
  lemma {:induction false} TotalAfterSpend(ix: Index, o: OutPoint, v: TxPos, disk: Disk)
    requires IsUnspent(ix, o) && Stored(ix[o.hash], disk) && v != NoPos
    ensures Total(SetSpent(ix, o, v), disk) == Total(ix, disk) - OutputValue(ix, o, disk)
  {
    var e := ix[o.hash];
    TotalReplaced(ix, o.hash, e.(vSpent := e.vSpent[o.n := v]), disk);
    UnspentAfterSpend(e.vSpent, disk[e.pos].vout, o.n, v, |e.vSpent|);
  }

  lemma {:induction false} MarkKeeps(ix: Index, ops: seq<OutPoint>, v: TxPos, o: OutPoint, disk: Disk)
    requires Exists(ix, o) && o !in ops && AllStored(ix, disk)
    ensures Exists(Mark(ix, ops, v), o) && AllStored(Mark(ix, ops, v), disk)
    ensures Mark(ix, ops, v)[o.hash].vSpent[o.n] == ix[o.hash].vSpent[o.n]
    ensures OutputValue(Mark(ix, ops, v), o, disk) == OutputValue(ix, o, disk)
  {
  }

  /** Spending different unspent outputs takes their values out of the total. */
  lemma {:induction false} TotalAfterMark(ix: Index, ops: seq<OutPoint>, k: nat, v: TxPos, disk: Disk)
    requires k <= |ops| && v != NoPos && AllStored(ix, disk)
    requires forall i :: 0 <= i < |ops| ==> Exists(ix, ops[i]) && IsUnspent(ix, ops[i])
    requires forall i, j :: 0 <= i < j < |ops| ==> ops[i] != ops[j]
    ensures Total(Mark(ix, ops[..k], v), disk) == Total(ix, disk) - ValueIn(ix, ops, k, disk)
  {
    hide Mark, Total, OutputValue, AllStored;
    if k == 0 {
      MarkNothing(ix, v);
      assert ops[..0] == [];
    } else {
      var o, done := ops[k - 1], ops[..k - 1];
      TotalAfterMark(ix, ops, k - 1, v, disk);
      assert o !in done;
      assert ops[..k] == done + [o];
      MarkMore(ix, done, o, v);
      MarkKeeps(ix, done, v, o, disk);
      StoredAt(Mark(ix, done, v), disk, o.hash);
      TotalAfterSpend(Mark(ix, done, v), o, v, disk);
    }
  }

  lemma {:induction false} StoredAt(ix: Index, disk: Disk, h: Hash)
    requires AllStored(ix, disk) && h in ix
    ensures Stored(ix[h], disk)
  {
  }

  /** An old transaction of the same id has nothing left to spend. */
  predicate Settled(ix: Index, h: Hash) {
    h in ix ==> forall i :: 0 <= i < |ix[h].vSpent| ==> ix[h].vSpent[i] != NoPos
  }

  /** Connecting a transaction changes the total by what it creates minus what it spends. */
  lemma {:induction false} TotalAfterConnect(ix: Index, tx: Tx, pos: TxPos, disk: Disk)
    requires Spendable(ix, tx) && AllStored(ix, disk) && Settled(ix, tx.hash)
    requires pos != NoPos && pos in disk && disk[pos] == tx
    ensures AllStored(ConnectTx(ix, tx, pos), disk)
    ensures Total(ConnectTx(ix, tx, pos), disk)
         == Total(ix, disk) + ValueOut(tx.vout) - ValueIn(ix, Spends(tx), |Spends(tx)|, disk)
  {
    var ops := Spends(tx);
    var e := TxIndex(pos, NoneSpent(|tx.vout|));
    var marked := Mark(ix, ops, pos);
    assert ops[..|ops|] == ops;
    TotalAfterMark(ix, ops, |ops|, pos, disk);
    TotalReplaced(marked, tx.hash, e, disk);
    AllUnspent(e.vSpent, tx.vout, |tx.vout|);
    assert tx.vout[..|tx.vout|] == tx.vout;
    if tx.hash in ix {
      OldIsWorthless(ix, ops, pos, tx.hash, disk);
    }
  }

  lemma {:induction false} OldIsWorthless(ix: Index, ops: seq<OutPoint>, pos: TxPos, h: Hash, disk: Disk)
    requires h in ix && Settled(ix, h) && pos != NoPos
    ensures h in Mark(ix, ops, pos) && EntryValue(Mark(ix, ops, pos)[h], disk) == 0
  {
    var e := Mark(ix, ops, pos)[h];
    if Stored(e, disk) {
      NothingUnspent(e.vSpent, disk[e.pos].vout, |e.vSpent|);
    }
  }

  /** Settled entries stay settled while a block is connected. */
  lemma {:induction false} SettledStays(ix: Index, b: Block, k: nat, h: Hash)
    requires k <= |b.vtx| && Settled(ix, h) && forall i :: 0 <= i < k ==> b.vtx[i].hash != h
    ensures Settled(ConnectTxs(ix, b, k), h)
  {
    if k > 0 {
      SettledStays(ix, b, k - 1, h);
    }
  }
}
