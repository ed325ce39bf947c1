/** The priority queue of the block assembler and the transactions that wait for their parents. */
module Scheduling {
  import opened TxIndexing

  datatype TxPriority = TxPriority(dPriority: real, dFeePerKb: real, nFee: int, tx: Tx)

  /** `COrphan`: a transaction and the pool transactions it still waits for. */
  datatype Orphan = Orphan(tx: Tx, setDependsOn: set<Hash>, dPriority: real, dFeePerKb: real)

  /** `mapDependers`: the orphans that wait for a transaction, as places in the list of orphans. */
  type Dependers = map<Hash, seq<nat>>

  /** What each candidate waits for: its inputs that are not in the chain, with repetitions. */
  type Waits = map<Hash, seq<Hash>>

  //////////////////////////////////////////////////////////////////////////////
  // The priority queue
  //////////////////////////////////////////////////////////////////////////////

  /** `TxPriorityCompare`: a comes after b. */
  predicate Less(byFee: bool, a: TxPriority, b: TxPriority) {
    if byFee then
      if a.dFeePerKb == b.dFeePerKb then a.dPriority < b.dPriority else a.dFeePerKb < b.dFeePerKb
    else
      if a.dPriority == b.dPriority then a.dFeePerKb < b.dFeePerKb else a.dPriority < b.dPriority
  }

  predicate Taken(queue: seq<TxPriority>, k: nat, best: TxPriority, rest: seq<TxPriority>) {
    k < |queue| && best == queue[k] && rest == queue[..k] + queue[k + 1..]
  }

  /** The heap operations: a greatest entry is taken off, the others stay. */
  method PopBest(queue: seq<TxPriority>, byFee: bool) returns (best: TxPriority, rest: seq<TxPriority>)
    requires queue != []
    ensures exists k :: Taken(queue, k, best, rest)
    ensures forall i :: 0 <= i < |queue| ==> !Less(byFee, best, queue[i])
    ensures byFee ==> forall i :: 0 <= i < |queue| ==>
      best.dFeePerKb > queue[i].dFeePerKb || (best.dFeePerKb == queue[i].dFeePerKb && best.dPriority >= queue[i].dPriority)
    ensures !byFee ==> forall i :: 0 <= i < |queue| ==>
      best.dPriority > queue[i].dPriority || (best.dPriority == queue[i].dPriority && best.dFeePerKb >= queue[i].dFeePerKb)
  {
    var k, i := 0, 1;
    while i < |queue|
      invariant 0 <= k < i <= |queue|
      invariant forall j :: 0 <= j < i ==> !Less(byFee, queue[k], queue[j])
    {
      if Less(byFee, queue[k], queue[i]) {
        k := i;
      }
      i := i + 1;
    }
    best, rest := queue[k], queue[..k] + queue[k + 1..];
    assert Taken(queue, k, best, rest);
  }

  predicate InQueue(queue: seq<TxPriority>, h: Hash) {
    exists i :: 0 <= i < |queue| && queue[i].tx.hash == h
  }

  predicate DistinctQueue(queue: seq<TxPriority>) {
    forall i, j :: 0 <= i < j < |queue| ==> queue[i].tx.hash != queue[j].tx.hash
  }

  lemma {:induction false} QueuePush(queue: seq<TxPriority>, e: TxPriority, h: Hash)
    ensures InQueue(queue + [e], h) <==> InQueue(queue, h) || h == e.tx.hash
    ensures DistinctQueue(queue) && !InQueue(queue, e.tx.hash) ==> DistinctQueue(queue + [e])
  {
    var r := queue + [e];
    assert r[|queue|] == e;
    if InQueue(queue, h) {
      var i :| 0 <= i < |queue| && queue[i].tx.hash == h;
      assert r[i] == queue[i];
    }
  }

  lemma {:induction false} QueueTake(queue: seq<TxPriority>, k: nat, best: TxPriority, rest: seq<TxPriority>, h: Hash)
    requires DistinctQueue(queue) && Taken(queue, k, best, rest)
    ensures InQueue(queue, h) <==> InQueue(rest, h) || h == best.tx.hash
    ensures !InQueue(rest, best.tx.hash) && DistinctQueue(rest)
  {
    assert forall i :: 0 <= i < |rest| ==> rest[i] == queue[if i < k then i else i + 1];
    if InQueue(queue, h) && h != best.tx.hash {
      var i :| 0 <= i < |queue| && queue[i].tx.hash == h;
      assert rest[if i < k then i else i - 1] == queue[i];
    }
  }

  //////////////////////////////////////////////////////////////////////////////
  // Waiting
  //////////////////////////////////////////////////////////////////////////////

  /** s holds what of w is not included yet. */
  ghost predicate Remaining(w: seq<Hash>, included: set<Hash>, s: set<Hash>) {
    forall h :: h in s <==> h in w && h !in included
  }

  ghost predicate OrphanOk(waits: Waits, o: Orphan, included: set<Hash>) {
    o.tx.hash in waits && waits[o.tx.hash] != [] && Remaining(waits[o.tx.hash], included, o.setDependsOn)
  }

  ghost predicate OrphansOk(waits: Waits, orphans: seq<Orphan>, included: set<Hash>) {
    && (forall k :: 0 <= k < |orphans| ==> OrphanOk(waits, orphans[k], included))
    && (forall k, l :: 0 <= k < l < |orphans| ==> orphans[k].tx.hash != orphans[l].tx.hash)
  }

  ghost predicate Depends(dependers: Dependers, h: Hash, k: nat) {
    h in dependers && k in dependers[h]
  }

  ghost predicate DependersOk(waits: Waits, orphans: seq<Orphan>, dependers: Dependers) {
    forall h, k: nat :: Depends(dependers, h, k) <==>
      k < |orphans| && orphans[k].tx.hash in waits && h in waits[orphans[k].tx.hash]
  }

  ghost predicate IsOrphan(orphans: seq<Orphan>, h: Hash) {
    exists k :: 0 <= k < |orphans| && orphans[k].tx.hash == h
  }

  ghost predicate Seen(queue: seq<TxPriority>, popped: set<Hash>, h: Hash) {
    InQueue(queue, h) || h in popped
  }

  /** An orphan that waits for nothing any more has been released, and only such an orphan. */
  ghost predicate ReleasedOk(orphans: seq<Orphan>, queue: seq<TxPriority>, popped: set<Hash>) {
    forall k :: 0 <= k < |orphans| ==> (orphans[k].setDependsOn == {} <==> Seen(queue, popped, orphans[k].tx.hash))
  }

  ghost predicate QueueOk(waits: Waits, queue: seq<TxPriority>, popped: set<Hash>) {
    && DistinctQueue(queue)
    && (forall h :: InQueue(queue, h) ==> h in waits && h !in popped)
    && (forall h :: h in popped ==> h in waits)
  }

  /** What the assembler keeps between turns. */
  ghost predicate Scheduled(waits: Waits, orphans: seq<Orphan>, dependers: Dependers, queue: seq<TxPriority>,
                            popped: set<Hash>, included: set<Hash>)
  {
    && OrphansOk(waits, orphans, included) && DependersOk(waits, orphans, dependers)
    && ReleasedOk(orphans, queue, popped) && QueueOk(waits, queue, popped)
    && (forall h :: h in waits ==> waits[h] == [] || IsOrphan(orphans, h))
    && (forall h :: h in waits && waits[h] == [] ==> Seen(queue, popped, h))
  }

  /** A candidate has been queued exactly when everything it waits for is in the block. */
  lemma {:induction false} SeenIffReady(waits: Waits, orphans: seq<Orphan>, dependers: Dependers, queue: seq<TxPriority>,
                                        popped: set<Hash>, included: set<Hash>, h: Hash)
    requires Scheduled(waits, orphans, dependers, queue, popped, included) && h in waits
    ensures Seen(queue, popped, h) <==> forall p <- waits[h] :: p in included
  {
    hide Seen, DependersOk, QueueOk;
    if waits[h] != [] {
      var k :| 0 <= k < |orphans| && orphans[k].tx.hash == h;
      assert OrphanOk(waits, orphans[k], included);
      var s := orphans[k].setDependsOn;
      if s == {} {
        forall p | p in waits[h] ensures p in included {
          assert p !in s;
        }
      } else {
        var p :| p in s;
      }
    }
  }

  /** Taking an entry off the queue. */
  lemma {:induction false} PopKeeps(waits: Waits, orphans: seq<Orphan>, dependers: Dependers, queue: seq<TxPriority>,
                                    popped: set<Hash>, included: set<Hash>, k: nat, best: TxPriority, rest: seq<TxPriority>)
    requires Scheduled(waits, orphans, dependers, queue, popped, included) && Taken(queue, k, best, rest)
    ensures best.tx.hash in waits && best.tx.hash !in popped
    ensures Scheduled(waits, orphans, dependers, rest, popped + {best.tx.hash}, included)
  {
    var h := best.tx.hash;
    forall g ensures Seen(queue, popped, g) <==> Seen(rest, popped + {h}, g) {
      QueueTake(queue, k, best, rest, g);
    }
    forall g ensures InQueue(rest, g) <==> InQueue(queue, g) && g != h {
      QueueTake(queue, k, best, rest, g);
    }
    QueueTake(queue, k, best, rest, h);
    hide Seen, InQueue, DistinctQueue, DependersOk, OrphansOk, Taken;
  }

  //////////////////////////////////////////////////////////////////////////////
  // Release
  //////////////////////////////////////////////////////////////////////////////

  function Entry(o: Orphan): TxPriority {
    TxPriority(o.dPriority, o.dFeePerKb, 0, o.tx)
  }

  /** Only what an orphan waits for has changed. */
  ghost predicate SameTxs(orphans: seq<Orphan>, os: seq<Orphan>) {
    |os| == |orphans| && forall k :: 0 <= k < |os| ==> Entry(os[k]) == Entry(orphans[k])
  }

  ghost predicate Erased(orphans: seq<Orphan>, os: seq<Orphan>, hash: Hash) {
    && SameTxs(orphans, os)
    && forall k :: 0 <= k < |os| ==>
         os[k].setDependsOn == orphans[k].setDependsOn || os[k].setDependsOn == orphans[k].setDependsOn - {hash}
  }

  ghost predicate HashesOk(waits: Waits, orphans: seq<Orphan>) {
    && (forall k :: 0 <= k < |orphans| ==> orphans[k].tx.hash in waits)
    && (forall k, l :: 0 <= k < l < |orphans| ==> orphans[k].tx.hash != orphans[l].tx.hash)
  }

  /** Entries are only added at the end, with no fee yet, for orphans. */
  ghost predicate Grown(orphans: seq<Orphan>, queue: seq<TxPriority>, q: seq<TxPriority>) {
    && |queue| <= |q| && q[..|queue|] == queue
    && forall i :: |queue| <= i < |q| ==> exists k :: 0 <= k < |orphans| && q[i] == Entry(orphans[k])
  }

  /** The orphans and the queue after one depender has been told that a parent is in the block. */
  function TellOrphans(os: seq<Orphan>, k: nat, hash: Hash): seq<Orphan>
    requires k < |os|
  {
    if os[k].setDependsOn == {} then os else os[k := os[k].(setDependsOn := os[k].setDependsOn - {hash})]
  }

  function TellQueue(os: seq<Orphan>, k: nat, hash: Hash, queue: seq<TxPriority>): seq<TxPriority>
    requires k < |os|
  {
    if os[k].setDependsOn != {} && os[k].setDependsOn - {hash} == {} then queue + [Entry(os[k])] else queue
  }

  lemma {:induction false} TellKeeps(waits: Waits, os: seq<Orphan>, queue: seq<TxPriority>, popped: set<Hash>, k: nat, hash: Hash)
    requires HashesOk(waits, os) && ReleasedOk(os, queue, popped) && QueueOk(waits, queue, popped) && k < |os|
    ensures var os', q' := TellOrphans(os, k, hash), TellQueue(os, k, hash, queue);
            ReleasedOk(os', q', popped) && QueueOk(waits, q', popped)
    ensures forall h :: Seen(queue, popped, h) ==> Seen(TellQueue(os, k, hash, queue), popped, h)
  {
    if os[k].setDependsOn != {} && os[k].setDependsOn - {hash} == {} {
      var e := Entry(os[k]);
      assert !Seen(queue, popped, os[k].tx.hash);
      forall h ensures InQueue(queue + [e], h) <==> InQueue(queue, h) || h == e.tx.hash {
        QueuePush(queue, e, h);
      }
      QueuePush(queue, e, e.tx.hash);
      hide InQueue, DistinctQueue;
    }
  }

  lemma {:induction false} TellErases(orphans: seq<Orphan>, os: seq<Orphan>, k: nat, hash: Hash)
    requires Erased(orphans, os, hash) && k < |os|
    ensures var os' := TellOrphans(os, k, hash);
            && Erased(orphans, os', hash) && hash !in os'[k].setDependsOn
            && forall l :: 0 <= l < |os| && hash !in os[l].setDependsOn ==> hash !in os'[l].setDependsOn
  {
    var s := orphans[k].setDependsOn;
    assert s - {hash} - {hash} == s - {hash};
  }

  lemma {:induction false} TellGrows(orphans: seq<Orphan>, os: seq<Orphan>, queue: seq<TxPriority>, q: seq<TxPriority>,
                                     k: nat, hash: Hash)
    requires SameTxs(orphans, os) && Grown(orphans, queue, q) && k < |os|
    ensures Grown(orphans, queue, TellQueue(os, k, hash, q))
  {
    var q' := TellQueue(os, k, hash, q);
    assert q'[..|queue|] == queue;
    assert Entry(os[k]) == Entry(orphans[k]);
  }

  /** Every orphan that waited for the new transaction has been told. */
  lemma {:induction false} AllTold(waits: Waits, orphans: seq<Orphan>, dependers: Dependers, os: seq<Orphan>,
                                   included: set<Hash>, hash: Hash)
    requires OrphansOk(waits, orphans, included) && DependersOk(waits, orphans, dependers) && Erased(orphans, os, hash)
    requires forall k: nat :: k < |os| && Depends(dependers, hash, k) ==> hash !in os[k].setDependsOn
    ensures OrphansOk(waits, os, included + {hash}) && DependersOk(waits, os, dependers)
  {
    forall k: nat | k < |os| ensures OrphanOk(waits, os[k], included + {hash}) {
      assert OrphanOk(waits, orphans[k], included);
      assert hash in waits[orphans[k].tx.hash] <==> Depends(dependers, hash, k);
    }
  }

  lemma {:induction false} StillOrphan(orphans: seq<Orphan>, os: seq<Orphan>, h: Hash)
    requires SameTxs(orphans, os) && IsOrphan(orphans, h)
    ensures IsOrphan(os, h)
  {
    var k :| 0 <= k < |orphans| && orphans[k].tx.hash == h;
    assert Entry(os[k]).tx.hash == h;
  }

  /** After the first i dependers have been told. */
  ghost predicate Telling(waits: Waits, orphans: seq<Orphan>, queue: seq<TxPriority>, popped: set<Hash>,
                          os: seq<Orphan>, q: seq<TxPriority>, list: seq<nat>, i: nat, hash: Hash)
  {
    && i <= |list| && Erased(orphans, os, hash) && HashesOk(waits, os)
    && Grown(orphans, queue, q) && ReleasedOk(os, q, popped) && QueueOk(waits, q, popped)
    && (forall j :: 0 <= j < |list| ==> list[j] < |orphans|)
    && (forall j :: 0 <= j < i ==> list[j] < |os| && hash !in os[list[j]].setDependsOn)
    && (forall h :: Seen(queue, popped, h) ==> Seen(q, popped, h))
  }

  lemma {:induction false} TellingNext(waits: Waits, orphans: seq<Orphan>, queue: seq<TxPriority>, popped: set<Hash>,
                                       os: seq<Orphan>, q: seq<TxPriority>, list: seq<nat>, i: nat, hash: Hash)
    requires Telling(waits, orphans, queue, popped, os, q, list, i, hash) && i < |list|
    ensures list[i] < |os|
    ensures Telling(waits, orphans, queue, popped, TellOrphans(os, list[i], hash), TellQueue(os, list[i], hash, q), list, i + 1, hash)
  {
    var k := list[i];
    TellKeeps(waits, os, q, popped, k, hash);
    TellErases(orphans, os, k, hash);
    TellGrows(orphans, os, queue, q, k, hash);
    TellSame(waits, orphans, os, k, hash);
    hide TellOrphans, TellQueue, Grown, ReleasedOk, QueueOk, Seen, HashesOk;
  }

  lemma {:induction false} TellingDone(waits: Waits, orphans: seq<Orphan>, dependers: Dependers, queue: seq<TxPriority>,
                                       popped: set<Hash>, included: set<Hash>, os: seq<Orphan>, q: seq<TxPriority>,
                                       list: seq<nat>, hash: Hash)
    requires Scheduled(waits, orphans, dependers, queue, popped, included)
    requires Telling(waits, orphans, queue, popped, os, q, list, |list|, hash)
    requires list == if hash in dependers then dependers[hash] else []
    ensures Scheduled(waits, os, dependers, q, popped, included + {hash})
    ensures SameTxs(orphans, os) && Grown(orphans, queue, q)
  {
    hide OrphansOk, DependersOk, ReleasedOk, QueueOk, Seen, Grown, HashesOk, IsOrphan;
    AllTold(waits, orphans, dependers, os, included, hash);
    forall h | h in waits && waits[h] != [] ensures IsOrphan(os, h) {
      StillOrphan(orphans, os, h);
    }
  }

  /** The end of a turn: the dependers of an added transaction are told, and released when they wait for
      nothing more. */
  method Release(orphans: seq<Orphan>, dependers: Dependers, queue: seq<TxPriority>, hash: Hash,
                 ghost waits: Waits, ghost popped: set<Hash>, ghost included: set<Hash>)
    returns (os: seq<Orphan>, q: seq<TxPriority>)
    requires Scheduled(waits, orphans, dependers, queue, popped, included)
    ensures Scheduled(waits, os, dependers, q, popped, included + {hash})
    ensures SameTxs(orphans, os) && Grown(orphans, queue, q)
  {
    os, q := orphans, queue;
    var list := if hash in dependers then dependers[hash] else [];
    TellAll(waits, orphans, dependers, queue, popped, included, hash);
    hide Telling, Scheduled, Grown;
    var i := 0;
    while i < |list|
      invariant 0 <= i <= |list| && Telling(waits, orphans, queue, popped, os, q, list, i, hash)
    {
      var k := list[i];
      TellingNext(waits, orphans, queue, popped, os, q, list, i, hash);
      if os[k].setDependsOn != {} {
        var o := os[k].(setDependsOn := os[k].setDependsOn - {hash});
        if o.setDependsOn == {} {
          q := q + [Entry(o)];
        }
        os := os[k := o];
      }
      i := i + 1;
    }
    TellingDone(waits, orphans, dependers, queue, popped, included, os, q, list, hash);
  }

  lemma {:induction false} TellSame(waits: Waits, orphans: seq<Orphan>, os: seq<Orphan>, k: nat, hash: Hash)
    requires SameTxs(orphans, os) && HashesOk(waits, os) && k < |os|
    ensures SameTxs(orphans, TellOrphans(os, k, hash)) && HashesOk(waits, TellOrphans(os, k, hash))
  {
  }

  lemma {:induction false} TellAll(waits: Waits, orphans: seq<Orphan>, dependers: Dependers, queue: seq<TxPriority>,
                                   popped: set<Hash>, included: set<Hash>, hash: Hash)
    requires Scheduled(waits, orphans, dependers, queue, popped, included)
    ensures Telling(waits, orphans, queue, popped, orphans, queue, if hash in dependers then dependers[hash] else [], 0, hash)
  {
    hide ReleasedOk, QueueOk, Seen, IsOrphan;
    var list := if hash in dependers then dependers[hash] else [];
    forall j | 0 <= j < |list| ensures list[j] < |orphans| {
      assert Depends(dependers, hash, list[j]);
    }
  }

  //////////////////////////////////////////////////////////////////////////////
  // Filling the queue
  //////////////////////////////////////////////////////////////////////////////

  /** A candidate with all its inputs in the chain goes straight to the queue. */
  lemma {:induction false} AddReady(waits: Waits, orphans: seq<Orphan>, dependers: Dependers, queue: seq<TxPriority>, e: TxPriority)
    requires Scheduled(waits, orphans, dependers, queue, {}, {}) && e.tx.hash !in waits
    ensures Scheduled(waits[e.tx.hash := []], orphans, dependers, queue + [e], {}, {})
  {
    var h := e.tx.hash;
    forall g ensures InQueue(queue + [e], g) <==> InQueue(queue, g) || g == h {
      QueuePush(queue, e, g);
    }
    QueuePush(queue, e, h);
    OtherWaits(waits, orphans, dependers, {}, h, []);
    hide InQueue, DistinctQueue, DependersOk;
  }

  lemma {:induction false} OtherWaits(waits: Waits, orphans: seq<Orphan>, dependers: Dependers, included: set<Hash>, h: Hash, w: seq<Hash>)
    requires OrphansOk(waits, orphans, included) && DependersOk(waits, orphans, dependers) && h !in waits
    ensures OrphansOk(waits[h := w], orphans, included) && DependersOk(waits[h := w], orphans, dependers)
  {
    forall k | 0 <= k < |orphans| ensures OrphanOk(waits[h := w], orphans[k], included) && orphans[k].tx.hash != h {
      assert OrphanOk(waits, orphans[k], included);
    }
  }

  /** A candidate with parents in the pool becomes an orphan. */
  method Enlist(dependers: Dependers, w: seq<Hash>, k: nat) returns (d: Dependers, s: set<Hash>)
    ensures forall h, j: nat :: Depends(d, h, j) <==> Depends(dependers, h, j) || (j == k && h in w)
    ensures Remaining(w, {}, s)
  {
    d, s := dependers, {};
    var i := 0;
    while i < |w|
      invariant 0 <= i <= |w|
      invariant forall h, j: nat :: Depends(d, h, j) <==> Depends(dependers, h, j) || (j == k && h in w[..i])
      invariant forall h :: h in s <==> h in w[..i]
    {
      ghost var d0 := d;
      var list := if w[i] in d then d[w[i]] else [];
      d := d[w[i] := list + [k]];
      s := s + {w[i]};
      forall h, j: nat ensures Depends(d, h, j) <==> Depends(d0, h, j) || (j == k && h == w[i]) {
      }
      assert w[..i + 1] == w[..i] + [w[i]];
      i := i + 1;
    }
    assert w[..|w|] == w;
  }

  lemma {:induction false} OneMoreOrphan(waits: Waits, orphans: seq<Orphan>, o: Orphan, w: seq<Hash>)
    requires OrphansOk(waits, orphans, {}) && o.tx.hash !in waits && w != [] && Remaining(w, {}, o.setDependsOn)
    ensures OrphansOk(waits[o.tx.hash := w], orphans + [o], {})
  {
    hide Remaining;
    var os, waits' := orphans + [o], waits[o.tx.hash := w];
    forall k | 0 <= k < |os| ensures OrphanOk(waits', os[k], {}) && (k < |orphans| ==> os[k].tx.hash != o.tx.hash) {
      if k < |orphans| {
        assert OrphanOk(waits, orphans[k], {});
      }
    }
  }

  lemma {:induction false} OneMoreDepender(waits: Waits, orphans: seq<Orphan>, dependers: Dependers, o: Orphan, w: seq<Hash>, d: Dependers)
    requires OrphansOk(waits, orphans, {}) && DependersOk(waits, orphans, dependers) && o.tx.hash !in waits
    requires forall h, j: nat :: Depends(d, h, j) <==> Depends(dependers, h, j) || (j == |orphans| && h in w)
    ensures DependersOk(waits[o.tx.hash := w], orphans + [o], d)
  {
    hide Depends, Remaining;
    var os, waits' := orphans + [o], waits[o.tx.hash := w];
    forall h, k: nat ensures Depends(d, h, k) <==> k < |os| && os[k].tx.hash in waits' && h in waits'[os[k].tx.hash] {
      if k < |orphans| {
        assert OrphanOk(waits, orphans[k], {});
      }
    }
  }

  lemma {:induction false} OneMoreWaiting(waits: Waits, orphans: seq<Orphan>, dependers: Dependers, queue: seq<TxPriority>, o: Orphan, w: seq<Hash>)
    requires Scheduled(waits, orphans, dependers, queue, {}, {}) && o.tx.hash !in waits && w != [] && Remaining(w, {}, o.setDependsOn)
    ensures ReleasedOk(orphans + [o], queue, {}) && QueueOk(waits[o.tx.hash := w], queue, {})
    ensures var waits' := waits[o.tx.hash := w];
            && (forall h :: h in waits' ==> waits'[h] == [] || IsOrphan(orphans + [o], h))
            && (forall h :: h in waits' && waits'[h] == [] ==> Seen(queue, {}, h))
  {
    hide OrphansOk, DependersOk, InQueue, DistinctQueue;
    var os, waits' := orphans + [o], waits[o.tx.hash := w];
    assert w[0] in o.setDependsOn;
    forall g | g in waits' && waits'[g] != [] ensures IsOrphan(os, g) {
      if g == o.tx.hash {
        assert os[|orphans|].tx.hash == g;
      } else {
        var k :| 0 <= k < |orphans| && orphans[k].tx.hash == g;
        assert os[k].tx.hash == g;
      }
    }
  }

  lemma {:induction false} AddOrphan(waits: Waits, orphans: seq<Orphan>, dependers: Dependers, queue: seq<TxPriority>,
                                     o: Orphan, w: seq<Hash>, d: Dependers)
    requires Scheduled(waits, orphans, dependers, queue, {}, {}) && o.tx.hash !in waits
    requires w != [] && Remaining(w, {}, o.setDependsOn)
    requires forall h, j: nat :: Depends(d, h, j) <==> Depends(dependers, h, j) || (j == |orphans| && h in w)
    ensures Scheduled(waits[o.tx.hash := w], orphans + [o], d, queue, {}, {})
  {
    hide OrphansOk, DependersOk, ReleasedOk, QueueOk, IsOrphan, Seen, Remaining, Depends;
    OneMoreOrphan(waits, orphans, o, w);
    OneMoreDepender(waits, orphans, dependers, o, w, d);
    OneMoreWaiting(waits, orphans, dependers, queue, o, w);
  }
}
