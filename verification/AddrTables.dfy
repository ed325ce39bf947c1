/** The linked tables of the address manager as values, the invariants that tie them together
    (the conditions of the debug oracle `Check_`, and the bucket limits), and what each
    elementary change does to them. */
module AddrTables {

  /** A network address without port; the key of `mapAddr`. */
  type NetAddr = nat

  datatype Service = Service(ip: NetAddr, port: nat)

  /** The service bits are a set of bit numbers; times are 32-bit seconds. */
  datatype Address = Address(service: Service, nServices: set<nat>, nTime: int)

  datatype AddrInfo = AddrInfo(
    addr: Address,
    source: NetAddr,
    nLastSuccess: int,
    nLastTry: int,
    nAttempts: int,
    nRefCount: int,
    fInTried: bool,
    nRandomPos: int)

  type Table = map<int, AddrInfo>

  const TRIED_BUCKET_COUNT: nat := 64
  const TRIED_BUCKET_SIZE: nat := 64
  const NEW_BUCKET_COUNT: nat := 256
  const NEW_BUCKET_SIZE: nat := 64
  const NEW_BUCKETS_PER_ADDRESS: nat := 4

  /** No entry is pending: ids are never negative. */
  const NONE: int := -1

  //////////////////////////////////////////////////////////////////////////////
  // Invariants
  //////////////////////////////////////////////////////////////////////////////

  /** `vRandom` and the positions stored in the entries are mutual inverses. */
  ghost predicate RandomOk(info: Table, vRandom: seq<int>) {
    && (forall i :: 0 <= i < |vRandom| ==> vRandom[i] in info && info[vRandom[i]].nRandomPos == i)
    && (forall id :: id in info ==> 0 <= info[id].nRandomPos < |vRandom| && vRandom[info[id].nRandomPos] == id)
  }

  /** `mapAddr` is the inverse of "address of an entry". */
  ghost predicate AddrOk(info: Table, mapAddr: map<NetAddr, int>) {
    && (forall id :: id in info ==> info[id].addr.service.ip in mapAddr && mapAddr[info[id].addr.service.ip] == id)
    && (forall a :: a in mapAddr ==> mapAddr[a] in info && info[mapAddr[a]].addr.service.ip == a)
  }

  ghost predicate IdsOk(info: Table, nIdCount: int) {
    && 0 <= nIdCount
    && forall id :: id in info ==> 0 <= id < nIdCount
  }

  /** How many of the first `k` new buckets hold an id. */
  ghost function Holders(vvNew: seq<set<int>>, id: int, k: nat): nat
    requires k <= |vvNew|
  {
    if k == 0 then 0 else Holders(vvNew, id, k - 1) + (if id in vvNew[k - 1] then 1 else 0)
  }

  /** An entry's reference count is 0 in the tried table and otherwise the number of new buckets
      holding it, between 1 and 4. */
  ghost predicate RefOk(info: AddrInfo, holders: int) {
    if info.fInTried then info.nRefCount == 0 && holders == 0
    else info.nRefCount == holders && 1 <= holders <= NEW_BUCKETS_PER_ADDRESS
  }

  /** The new buckets. The pending entry, if any, is counted once more than it is held: it is
      about to be inserted. */
  ghost predicate NewOk(info: Table, vvNew: seq<set<int>>, pending: int) {
    && |vvNew| == NEW_BUCKET_COUNT
    && (forall b :: 0 <= b < |vvNew| ==> |vvNew[b]| <= NEW_BUCKET_SIZE)
    && NONE !in info
    && (forall b, id :: 0 <= b < |vvNew| && id in vvNew[b] ==> id in info)
    && (forall id :: id in info ==> RefOk(info[id], Holders(vvNew, id, |vvNew|) + (if id == pending then 1 else 0)))
  }

  /** The tried buckets: every tried entry sits once, in the bucket of its service. */
  ghost predicate TriedOk(info: Table, vvTried: seq<seq<int>>, bucketOf: Service -> nat) {
    && |vvTried| == TRIED_BUCKET_COUNT
    && (forall k :: 0 <= k < |vvTried| ==> TriedBucketOk(info, vvTried[k], bucketOf, k))
    && (forall id :: id in info && info[id].fInTried ==> id in vvTried[bucketOf(info[id].addr.service) % TRIED_BUCKET_COUNT])
  }

  ghost predicate TriedBucketOk(info: Table, bucket: seq<int>, bucketOf: Service -> nat, k: nat) {
    && |bucket| <= TRIED_BUCKET_SIZE
    && (forall i :: 0 <= i < |bucket| ==> InBucket(info, bucket[i], bucketOf, k))
    && (forall i, j :: 0 <= i < j < |bucket| ==> bucket[i] != bucket[j])
  }

  ghost predicate InBucket(info: Table, id: int, bucketOf: Service -> nat, k: nat) {
    id in info && info[id].fInTried && bucketOf(info[id].addr.service) % TRIED_BUCKET_COUNT == k
  }

  ghost function TriedIds(info: Table): set<int> {
    set id | id in info && info[id].fInTried
  }

  ghost function NewIds(info: Table): set<int> {
    set id | id in info && !info[id].fInTried
  }

  ghost predicate CountersOk(info: Table, nTried: int, nNew: int) {
    nTried == |TriedIds(info)| && nNew == |NewIds(info)|
  }

  /** What `Check_` asks of the times. */
  ghost predicate TimesOk(info: Table) {
    forall id :: id in info ==>
      (info[id].fInTried ==> info[id].nLastSuccess != 0) && info[id].nLastTry >= 0 && info[id].nLastSuccess >= 0
  }

  /** Two entries that differ at most in their position in `vRandom`. */
  ghost predicate SameEntry(a: AddrInfo, b: AddrInfo) {
    a.(nRandomPos := 0) == b.(nRandomPos := 0)
  }

  /** Two entries that the tables cannot tell apart: only times, services and attempts differ. */
  ghost predicate SameLinks(a: AddrInfo, b: AddrInfo) {
    && a.addr.service == b.addr.service
    && a.nRefCount == b.nRefCount && a.fInTried == b.fInTried && a.nRandomPos == b.nRandomPos
  }

  function Put(s: seq<int>, i: nat, x: int): (r: seq<int>)
    requires i < |s|
    ensures |r| == |s|
  {
    s[i := x]
  }

  function SwapAt(s: seq<int>, i: nat, j: nat): (r: seq<int>)
    requires i < |s| && j < |s|
    ensures |r| == |s|
  {
    Put(Put(s, i, s[j]), j, s[i])
  }

  //////////////////////////////////////////////////////////////////////////////
  // Counting holders
  //////////////////////////////////////////////////////////////////////////////

  lemma {:induction false} HoldersUpdate(v: seq<set<int>>, b: nat, s: set<int>, id: int, k: nat)
    requires b < |v| && k <= |v|
    ensures Holders(v[b := s], id, k)
         == Holders(v, id, k) + (if b < k then (if id in s then 1 else 0) - (if id in v[b] then 1 else 0) else 0)
  {
    if k > 0 {
      HoldersUpdate(v, b, s, id, k - 1);
    }
  }

  lemma {:induction false} HoldersSame(v: seq<set<int>>, w: seq<set<int>>, id: int, k: nat)
    requires |v| == |w| && k <= |v|
    requires forall b :: 0 <= b < k ==> (id in v[b] <==> id in w[b])
    ensures Holders(v, id, k) == Holders(w, id, k)
  {
    if k > 0 {
      HoldersSame(v, w, id, k - 1);
    }
  }

  lemma {:induction false} HoldersZero(v: seq<set<int>>, id: int, k: nat)
    requires k <= |v|
    ensures Holders(v, id, k) == 0 <==> forall b :: 0 <= b < k ==> id !in v[b]
  {
    if k > 0 {
      HoldersZero(v, id, k - 1);
    }
  }

  //////////////////////////////////////////////////////////////////////////////
  // Changes of the index structures
  //////////////////////////////////////////////////////////////////////////////

  lemma {:induction false} RandomSwapped(info: Table, vRandom: seq<int>, i: nat, j: nat)
    requires RandomOk(info, vRandom) && i < |vRandom| && j < |vRandom|
    ensures vRandom[i] in info && vRandom[j] in info
    ensures i != j ==>
      var a, b := vRandom[i], vRandom[j];
      RandomOk(info[a := info[a].(nRandomPos := j)][b := info[b].(nRandomPos := i)], SwapAt(vRandom, i, j))
  {
  }

  lemma {:induction false} RandomPushed(info: Table, vRandom: seq<int>, id: int, e: AddrInfo)
    requires RandomOk(info, vRandom) && id !in info && e.nRandomPos == |vRandom|
    ensures RandomOk(info[id := e], vRandom + [id])
  {
  }

  lemma {:induction false} RandomPopped(info: Table, vRandom: seq<int>, id: int)
    requires RandomOk(info, vRandom) && id in info && info[id].nRandomPos == |vRandom| - 1
    ensures RandomOk(info - {id}, vRandom[..|vRandom| - 1])
  {
  }

  lemma {:induction false} AddrAdded(info: Table, mapAddr: map<NetAddr, int>, id: int, e: AddrInfo)
    requires AddrOk(info, mapAddr) && id !in info && e.addr.service.ip !in mapAddr
    ensures AddrOk(info[id := e], mapAddr[e.addr.service.ip := id])
  {
  }

  lemma {:induction false} AddrRemoved(info: Table, mapAddr: map<NetAddr, int>, id: int)
    requires AddrOk(info, mapAddr) && id in info
    ensures AddrOk(info - {id}, mapAddr - {info[id].addr.service.ip})
  {
  }

  /** Changing an entry in a way the tables cannot see keeps every invariant. */
  lemma {:induction false} StatsChanged(info: Table, id: int, e: AddrInfo, vRandom: seq<int>, mapAddr: map<NetAddr, int>, nIdCount: int,
                     vvNew: seq<set<int>>, pending: int, vvTried: seq<seq<int>>, bucketOf: Service -> nat,
                     nTried: int, nNew: int)
    requires id in info && SameLinks(info[id], e)
    ensures RandomOk(info, vRandom) ==> RandomOk(info[id := e], vRandom)
    ensures AddrOk(info, mapAddr) ==> AddrOk(info[id := e], mapAddr)
    ensures IdsOk(info, nIdCount) ==> IdsOk(info[id := e], nIdCount)
    ensures NewOk(info, vvNew, pending) ==> NewOk(info[id := e], vvNew, pending)
    ensures TriedOk(info, vvTried, bucketOf) ==> TriedOk(info[id := e], vvTried, bucketOf)
    ensures CountersOk(info, nTried, nNew) ==> CountersOk(info[id := e], nTried, nNew)
  {
    assert TriedIds(info[id := e]) == TriedIds(info);
    assert NewIds(info[id := e]) == NewIds(info);
  }

  //////////////////////////////////////////////////////////////////////////////
  // Changes of the new table
  //////////////////////////////////////////////////////////////////////////////

  lemma {:induction false} NewCreated(info: Table, v: seq<set<int>>, id: int, e: AddrInfo)
    requires NewOk(info, v, NONE) && id !in info && id >= 0
    requires !e.fInTried && e.nRefCount == 1
    ensures NewOk(info[id := e], v, id)
  {
    HoldersZero(v, id, |v|);
  }

  lemma {:induction false} NewRaised(info: Table, v: seq<set<int>>, id: int)
    requires NewOk(info, v, NONE) && id in info
    requires !info[id].fInTried && info[id].nRefCount < NEW_BUCKETS_PER_ADDRESS
    ensures NewOk(info[id := info[id].(nRefCount := info[id].nRefCount + 1)], v, id)
  {
  }

  lemma {:induction false} NewInserted(info: Table, v: seq<set<int>>, b: nat, id: int)
    requires NewOk(info, v, id) && id in info && b < |v| && id !in v[b] && |v[b]| < NEW_BUCKET_SIZE
    ensures NewOk(info, v[b := v[b] + {id}], NONE)
  {
    var w := v[b := v[b] + {id}];
    forall x | x in info ensures RefOk(info[x], Holders(w, x, |w|)) {
      HoldersUpdate(v, b, v[b] + {id}, x, |v|);
    }
  }

  lemma {:induction false} NewDropped(info: Table, v: seq<set<int>>, pending: int, b: nat, x: int)
    requires NewOk(info, v, pending) && b < |v| && x in v[b] && x != pending && x in info
    ensures !info[x].fInTried && info[x].nRefCount >= 1
    ensures info[x].nRefCount == 1 ==> NewOk(info - {x}, v[b := v[b] - {x}], pending)
    ensures info[x].nRefCount > 1 ==>
      NewOk(info[x := info[x].(nRefCount := info[x].nRefCount - 1)], v[b := v[b] - {x}], pending)
  {
    var w := v[b := v[b] - {x}];
    HoldersZero(v, x, |v|);
    HoldersUpdate(v, b, v[b] - {x}, x, |v|);
    HoldersZero(w, x, |w|);
    forall y | y in info && y != x ensures Holders(w, y, |w|) == Holders(v, y, |v|) {
      HoldersUpdate(v, b, v[b] - {x}, y, |v|);
    }
  }

  /** Taking an entry out of every new bucket, and marking it tried. */
  lemma {:induction false} NewToTried(info: Table, v: seq<set<int>>, w: seq<set<int>>, id: int, e: AddrInfo)
    requires NewOk(info, v, NONE) && id in info
    requires |w| == |v| && forall b :: 0 <= b < |v| ==> w[b] == v[b] - {id}
    requires e.fInTried && e.nRefCount == 0
    ensures NewOk(info[id := e], w, NONE)
  {
    HoldersZero(w, id, |w|);
    forall y | y in info && y != id ensures Holders(w, y, |w|) == Holders(v, y, |v|) {
      HoldersSame(v, w, y, |v|);
    }
  }

  /** Putting an evicted tried entry back into one new bucket. */
  lemma {:induction false} NewFromTried(info: Table, v: seq<set<int>>, b: nat, x: int, e: AddrInfo)
    requires NewOk(info, v, NONE) && x in info && info[x].fInTried
    requires b < |v| && |v[b]| < NEW_BUCKET_SIZE
    requires !e.fInTried && e.nRefCount == 1
    ensures NewOk(info[x := e], v[b := v[b] + {x}], NONE)
  {
    var w := v[b := v[b] + {x}];
    HoldersZero(v, x, |v|);
    forall y | y in info ensures Holders(w, y, |w|) == Holders(v, y, |v|) + (if y == x then 1 else 0) {
      HoldersUpdate(v, b, v[b] + {x}, y, |v|);
    }
  }

  /** A known entry that is not tried is in some new bucket. */
  lemma {:induction false} NewIsHeld(info: Table, v: seq<set<int>>, id: int)
    requires NewOk(info, v, NONE) && id in info && !info[id].fInTried
    ensures exists b :: 0 <= b < |v| && id in v[b]
  {
    HoldersZero(v, id, |v|);
  }

  //////////////////////////////////////////////////////////////////////////////
  // Changes of the tried table
  //////////////////////////////////////////////////////////////////////////////

  /** Tried buckets do not see entries outside the tried table. */
  lemma {:induction false} TriedUnaffected(info: Table, info': Table, vv: seq<seq<int>>, bucketOf: Service -> nat)
    requires TriedOk(info, vv, bucketOf)
    requires forall id :: id in info && info[id].fInTried ==>
      id in info' && info'[id].fInTried && info'[id].addr.service == info[id].addr.service
    requires forall id :: id in info' && info'[id].fInTried ==> id in info && info[id].fInTried
    ensures TriedOk(info', vv, bucketOf)
  {
    forall k | 0 <= k < |vv| ensures TriedBucketOk(info', vv[k], bucketOf, k) {
      assert TriedBucketOk(info, vv[k], bucketOf, k);
    }
  }

  lemma {:induction false} TriedPushed(info: Table, vv: seq<seq<int>>, bucketOf: Service -> nat, id: int, e: AddrInfo, k: nat)
    requires TriedOk(info, vv, bucketOf) && id in info && !info[id].fInTried
    requires e.fInTried && k == bucketOf(e.addr.service) % TRIED_BUCKET_COUNT && |vv[k]| < TRIED_BUCKET_SIZE
    ensures TriedOk(info[id := e], vv[k := vv[k] + [id]], bucketOf)
  {
    var w := vv[k := vv[k] + [id]];
    forall j | 0 <= j < |vv| ensures TriedBucketOk(info[id := e], w[j], bucketOf, j) {
      assert TriedBucketOk(info, vv[j], bucketOf, j);
      assert id !in vv[j];
    }
  }

  /** A tried entry gives up its place to another of the same bucket. */
  lemma {:induction false} TriedReplaced(info: Table, vv: seq<seq<int>>, bucketOf: Service -> nat,
                      id: int, e: AddrInfo, k: nat, pos: nat, out: AddrInfo)
    requires TriedOk(info, vv, bucketOf) && id in info && !info[id].fInTried
    requires e.fInTried && k == bucketOf(e.addr.service) % TRIED_BUCKET_COUNT && pos < |vv[k]|
    requires !out.fInTried
    ensures vv[k][pos] in info && info[vv[k][pos]].fInTried && vv[k][pos] != id
    ensures TriedOk(info[vv[k][pos] := out][id := e], vv[k := Put(vv[k], pos, id)], bucketOf)
  {
    assert TriedBucketOk(info, vv[k], bucketOf, k);
    assert InBucket(info, vv[k][pos], bucketOf, k);
    var x := vv[k][pos];
    var info' := info[x := out][id := e];
    var w := vv[k := Put(vv[k], pos, id)];
    forall j | 0 <= j < |vv| ensures TriedBucketOk(info', w[j], bucketOf, j) {
      assert TriedBucketOk(info, vv[j], bucketOf, j);
      if j != k {
        assert forall i :: 0 <= i < |vv[j]| ==> InBucket(info, vv[j][i], bucketOf, j);
      }
    }
    forall y | y in info' && info'[y].fInTried
      ensures y in w[bucketOf(info'[y].addr.service) % TRIED_BUCKET_COUNT]
    {
      if y == id {
        assert w[k][pos] == id;
      } else {
        var j := bucketOf(info[y].addr.service) % TRIED_BUCKET_COUNT;
        var i :| 0 <= i < |vv[j]| && vv[j][i] == y;
        assert w[j][i] == y;
      }
    }
  }

  lemma {:induction false} TriedSwapped(info: Table, vv: seq<seq<int>>, bucketOf: Service -> nat, k: nat, i: nat, j: nat)
    requires TriedOk(info, vv, bucketOf) && k < |vv| && i < |vv[k]| && j < |vv[k]|
    ensures TriedOk(info, vv[k := SwapAt(vv[k], i, j)], bucketOf)
    ensures multiset(SwapAt(vv[k], i, j)) == multiset(vv[k])
  {
    var s := vv[k];
    var t := SwapAt(s, i, j);
    assert TriedBucketOk(info, s, bucketOf, k);
    assert TriedBucketOk(info, t, bucketOf, k);
    assert multiset(t) == multiset(s);
    forall x | x in s ensures x in t {
      assert x in multiset(s);
    }
  }

  //////////////////////////////////////////////////////////////////////////////
  // Changes of the counters
  //////////////////////////////////////////////////////////////////////////////

  lemma {:induction false} CountCreated(info: Table, id: int, e: AddrInfo, nTried: int, nNew: int)
    requires CountersOk(info, nTried, nNew) && id !in info && !e.fInTried
    ensures CountersOk(info[id := e], nTried, nNew + 1)
  {
    assert TriedIds(info[id := e]) == TriedIds(info);
    assert NewIds(info[id := e]) == NewIds(info) + {id};
  }

  lemma {:induction false} CountRemoved(info: Table, id: int, nTried: int, nNew: int)
    requires CountersOk(info, nTried, nNew) && id in info && !info[id].fInTried
    ensures CountersOk(info - {id}, nTried, nNew - 1)
  {
    assert TriedIds(info - {id}) == TriedIds(info);
    assert NewIds(info - {id}) == NewIds(info) - {id};
  }

  lemma {:induction false} CountToTried(info: Table, id: int, e: AddrInfo, nTried: int, nNew: int)
    requires CountersOk(info, nTried, nNew) && id in info && !info[id].fInTried && e.fInTried
    ensures CountersOk(info[id := e], nTried + 1, nNew - 1)
  {
    assert TriedIds(info[id := e]) == TriedIds(info) + {id};
    assert NewIds(info[id := e]) == NewIds(info) - {id};
  }

  lemma {:induction false} CountToNew(info: Table, id: int, e: AddrInfo, nTried: int, nNew: int)
    requires CountersOk(info, nTried, nNew) && id in info && info[id].fInTried && !e.fInTried
    ensures CountersOk(info[id := e], nTried - 1, nNew + 1)
  {
    assert TriedIds(info[id := e]) == TriedIds(info) - {id};
    assert NewIds(info[id := e]) == NewIds(info) + {id};
  }

  lemma {:induction false} CountSame(info: Table, id: int, e: AddrInfo, nTried: int, nNew: int)
    requires CountersOk(info, nTried, nNew) && id in info && info[id].fInTried == e.fInTried
    ensures CountersOk(info[id := e], nTried, nNew)
  {
    assert TriedIds(info[id := e]) == TriedIds(info);
    assert NewIds(info[id := e]) == NewIds(info);
  }

  /** The counters together give the length of `vRandom`. */
  lemma {:induction false} CountersGiveSize(info: Table, vRandom: seq<int>, nTried: int, nNew: int)
    requires RandomOk(info, vRandom) && CountersOk(info, nTried, nNew)
    ensures |vRandom| == nTried + nNew
  {
    assert info.Keys == TriedIds(info) + NewIds(info);
    var ids := set x | x in vRandom;
    forall x | x in info.Keys ensures x in ids {
      assert vRandom[info[x].nRandomPos] == x;
    }
    assert info.Keys == ids;
    DistinctLength(vRandom, info.Keys);
  }

  lemma {:induction false} DistinctLength(s: seq<int>, keys: set<int>)
    requires forall i, j :: 0 <= i < j < |s| ==> s[i] != s[j]
    requires keys == set x | x in s
    ensures |s| == |keys|
  {
    if s != [] {
      var last := |s| - 1;
      assert s[last] in s;
      assert s[last] !in s[..last];
      DistinctLength(s[..last], keys - {s[last]});
    }
  }

  //////////////////////////////////////////////////////////////////////////////
  // Capacity
  //////////////////////////////////////////////////////////////////////////////

  ghost function HeldBy(vvNew: seq<set<int>>, k: nat): set<int>
    requires k <= |vvNew|
  {
    if k == 0 then {} else HeldBy(vvNew, k - 1) + vvNew[k - 1]
  }

  lemma {:induction false} UnionSize(a: set<int>, b: set<int>)
    ensures |a + b| <= |a| + |b|
  {
    assert a + b == a + (b - a);
    assert b == (b - a) + (b * a);
  }

  lemma {:induction false} HeldSize(vvNew: seq<set<int>>, k: nat, size: nat)
    requires k <= |vvNew| && forall b :: 0 <= b < |vvNew| ==> |vvNew[b]| <= size
    ensures |HeldBy(vvNew, k)| <= k * size
  {
    if k > 0 {
      HeldSize(vvNew, k - 1, size);
      UnionSize(HeldBy(vvNew, k - 1), vvNew[k - 1]);
      assert k * size == (k - 1) * size + size;
    }
  }

  lemma {:induction false} HeldIs(vvNew: seq<set<int>>, k: nat, b: nat, id: int)
    requires b < k <= |vvNew| && id in vvNew[b]
    ensures id in HeldBy(vvNew, k)
  {
    if b < k - 1 {
      HeldIs(vvNew, k - 1, b, id);
    }
  }

  ghost function Stands(bucket: seq<int>): set<int> {
    set x | x in bucket
  }

  lemma {:induction false} StandsSize(bucket: seq<int>)
    ensures |Stands(bucket)| <= |bucket|
  {
    if bucket == [] {
      assert Stands(bucket) == {};
    } else {
      var n := |bucket| - 1;
      StandsSize(bucket[..n]);
      assert Stands(bucket) == Stands(bucket[..n]) + {bucket[n]};
      UnionSize(Stands(bucket[..n]), {bucket[n]});
    }
  }

  lemma {:induction false} SubsetFits(a: set<int>, b: set<int>)
    requires a <= b
    ensures |a| <= |b|
  {
    assert b == a + (b - a);
  }

  /** There are at most 256 * 64 new and 64 * 64 tried entries, and each new one has one to four references. */
  lemma {:induction false} Capacity(info: Table, vvNew: seq<set<int>>, vvTried: seq<seq<int>>, bucketOf: Service -> nat, nTried: int, nNew: int)
    requires NewOk(info, vvNew, NONE) && TriedOk(info, vvTried, bucketOf) && CountersOk(info, nTried, nNew)
    ensures nNew <= 256 * 64 && nTried <= 64 * 64
    ensures forall id :: id in info && !info[id].fInTried ==> 1 <= info[id].nRefCount <= 4
  {
    NewWithin(info, vvNew);
    TriedWithin(info, vvTried, bucketOf);
  }

  lemma {:induction false} NewWithin(info: Table, vvNew: seq<set<int>>)
    requires NewOk(info, vvNew, NONE)
    ensures |NewIds(info)| <= 256 * 64
  {
    hide Holders;
    HeldSize(vvNew, |vvNew|, NEW_BUCKET_SIZE);
    forall id | id in NewIds(info) ensures id in HeldBy(vvNew, |vvNew|) {
      HoldersZero(vvNew, id, |vvNew|);
      var b :| 0 <= b < |vvNew| && id in vvNew[b];
      HeldIs(vvNew, |vvNew|, b, id);
    }
    SubsetFits(NewIds(info), HeldBy(vvNew, |vvNew|));
  }

  lemma {:induction false} TriedWithin(info: Table, vvTried: seq<seq<int>>, bucketOf: Service -> nat)
    requires TriedOk(info, vvTried, bucketOf)
    ensures |TriedIds(info)| <= 64 * 64
  {
    var sets := seq(|vvTried|, k requires 0 <= k < |vvTried| => Stands(vvTried[k]));
    forall k | 0 <= k < |sets| ensures |sets[k]| <= TRIED_BUCKET_SIZE {
      StandsSize(vvTried[k]);
      assert TriedBucketOk(info, vvTried[k], bucketOf, k);
    }
    HeldSize(sets, |sets|, TRIED_BUCKET_SIZE);
    forall id | id in TriedIds(info) ensures id in HeldBy(sets, |sets|) {
      HeldIs(sets, |sets|, bucketOf(info[id].addr.service) % TRIED_BUCKET_COUNT, id);
    }
    SubsetFits(TriedIds(info), HeldBy(sets, |sets|));
  }
}
