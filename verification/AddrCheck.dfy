/** The debug oracle `Check_` of the address manager: exactly what it accepts, and that the invariant implies it. */
module AddrCheck {
  import opened AddrTables
  import opened AddrManager

  /** The first loop's tests of one entry; 0 when all pass. */
  function CheckEntry(id: int, info: AddrInfo, mapAddr: map<NetAddr, int>, vRandom: seq<int>): int {
    if info.fInTried && info.nLastSuccess == 0 then -1
    else if info.fInTried && info.nRefCount != 0 then -2
    else if !info.fInTried && (info.nRefCount < 0 || info.nRefCount > NEW_BUCKETS_PER_ADDRESS) then -3
    else if !info.fInTried && info.nRefCount == 0 then -4
    else if (if info.addr.service.ip in mapAddr then mapAddr[info.addr.service.ip] else 0) != id then -5
    else if info.nRandomPos < 0 || info.nRandomPos >= |vRandom| || vRandom[info.nRandomPos] != id then -14
    else if info.nLastTry < 0 then -6
    else if info.nLastSuccess < 0 then -8
    else 0
  }

  ghost predicate EntriesPass(am: AddrMan)
    reads am
  {
    forall id :: id in am.mapInfo ==> CheckEntry(id, am.mapInfo[id], am.mapAddr, am.vRandom) == 0
  }

  /** The first loop: every entry is tested, and tried ids and reference counts are collected. */
  method CheckEntries(am: AddrMan) returns (err: int, setTried: set<int>, mapNew: map<int, int>)
    ensures err == 0 <==> EntriesPass(am)
    ensures err == 0 ==> setTried == TriedIds(am.mapInfo)
    ensures err == 0 ==> mapNew.Keys == NewIds(am.mapInfo) && forall id :: id in mapNew ==> mapNew[id] == am.mapInfo[id].nRefCount
    ensures err == 0 ==> forall id :: id in mapNew ==> mapNew[id] > 0
  {
    hide CheckEntry;
    setTried, mapNew := {}, map[];
    var order := Ascending(am.mapInfo.Keys);
    var i := 0;
    while i < |order|
      invariant 0 <= i <= |order|
      invariant forall x :: x in order[..i] ==> x in am.mapInfo && CheckEntry(x, am.mapInfo[x], am.mapAddr, am.vRandom) == 0
      invariant forall x :: x in setTried <==> x in order[..i] && x in TriedIds(am.mapInfo)
      invariant forall x :: x in mapNew <==> x in order[..i] && x in NewIds(am.mapInfo)
      invariant forall x :: x in mapNew ==> mapNew[x] == am.mapInfo[x].nRefCount && mapNew[x] > 0
    {
      var id := order[i];
      assert id in am.mapInfo.Keys;
      err := CheckEntry(id, am.mapInfo[id], am.mapAddr, am.vRandom);
      if err != 0 {
        return;
      }
      EntryIs(id, am.mapInfo[id], am.mapAddr, am.vRandom);
      assert order[..i + 1] == order[..i] + [id];
      if am.mapInfo[id].fInTried {
        setTried := setTried + {id};
      } else {
        mapNew := mapNew[id := am.mapInfo[id].nRefCount];
      }
      i := i + 1;
    }
    assert order[..|order|] == order;
    forall x ensures x in setTried <==> x in TriedIds(am.mapInfo) {
      assert x in am.mapInfo.Keys ==> x in order;
    }
    forall x ensures x in mapNew.Keys <==> x in NewIds(am.mapInfo) {
      assert x in am.mapInfo.Keys ==> x in order;
    }
    forall x | x in am.mapInfo ensures CheckEntry(x, am.mapInfo[x], am.mapAddr, am.vRandom) == 0 {
      assert x in am.mapInfo.Keys;
      assert x in order;
    }
    err := 0;
  }

  lemma {:induction false} EntryPasses(am: AddrMan, id: int)
    requires am.Valid() && TimesOk(am.mapInfo) && id in am.mapInfo
    ensures CheckEntry(id, am.mapInfo[id], am.mapAddr, am.vRandom) == 0
  {
    hide TriedOk, CountersOk, IdsOk, Holders;
    assert RefOk(am.mapInfo[id], Holders(am.vvNew, id, |am.vvNew|));
  }

  //////////////////////////////////////////////////////////////////////////////
  // The walk over the tried buckets
  //////////////////////////////////////////////////////////////////////////////

  /** How often an id stands in the first k buckets. */
  ghost function Occurs(vv: seq<seq<int>>, x: int, k: nat): nat
    requires k <= |vv|
  {
    if k == 0 then 0 else Occurs(vv, x, k - 1) + multiset(vv[k - 1])[x]
  }

  /** And in the first i places of the next one. */
  ghost function OccursTo(vv: seq<seq<int>>, x: int, k: nat, i: nat): nat
    requires k < |vv| && i <= |vv[k]|
  {
    Occurs(vv, x, k) + multiset(vv[k][..i])[x]
  }

  lemma {:induction false} OccursNext(vv: seq<seq<int>>, x: int, k: nat, i: nat)
    requires k < |vv| && i < |vv[k]|
    ensures OccursTo(vv, x, k, 0) == Occurs(vv, x, k)
    ensures OccursTo(vv, x, k, i + 1) == OccursTo(vv, x, k, i) + (if x == vv[k][i] then 1 else 0)
  {
    assert vv[k][..i + 1] == vv[k][..i] + [vv[k][i]];
  }

  lemma {:induction false} OccursAll(vv: seq<seq<int>>, x: int, k: nat)
    requires k < |vv|
    ensures OccursTo(vv, x, k, |vv[k]|) == Occurs(vv, x, k + 1) && OccursTo(vv, x, k, 0) == Occurs(vv, x, k)
  {
    assert vv[k][..|vv[k]|] == vv[k];
  }

  lemma {:induction false} OccursGrow(vv: seq<seq<int>>, x: int, k: nat, i: nat, n: nat)
    requires k < n <= |vv| && i <= |vv[k]|
    ensures OccursTo(vv, x, k, i) <= Occurs(vv, x, n)
    decreases n
  {
    if k < n - 1 {
      OccursGrow(vv, x, k, i, n - 1);
    } else {
      assert vv[k] == vv[k][..i] + vv[k][i..];
    }
  }

  /** What has been crossed off has been seen once, everything else not. */
  ghost predicate Crossed(all: set<int>, left: set<int>, x: int, n: nat) {
    (x in left ==> x in all) && n == if x in all && x !in left then 1 else 0
  }

  method CheckTried(am: AddrMan, setTried: set<int>) returns (err: int, left: set<int>)
    ensures err == 0 && left == {} <==> forall x :: Occurs(am.vvTried, x, |am.vvTried|) == if x in setTried then 1 else 0
  {
    hide Occurs, OccursTo;
    left := setTried;
    ghost var vv := am.vvTried;
    forall x ensures Crossed(setTried, left, x, Occurs(vv, x, 0)) {
      NothingOccurs(vv, x);
    }
    var k := 0;
    while k < |am.vvTried|
      invariant 0 <= k <= |vv| && vv == am.vvTried
      invariant forall x :: Crossed(setTried, left, x, Occurs(vv, x, k))
    {
      var i := 0;
      forall x ensures Crossed(setTried, left, x, OccursTo(vv, x, k, 0)) {
        OccursAll(vv, x, k);
      }
      while i < |am.vvTried[k]|
        invariant 0 <= i <= |vv[k]|
        invariant forall x :: Crossed(setTried, left, x, OccursTo(vv, x, k, i))
      {
        var y := am.vvTried[k][i];
        OccursNext(vv, y, k, i);
        if y !in left {
          OccursGrow(vv, y, k, i + 1, |vv|);
          assert Crossed(setTried, left, y, OccursTo(vv, y, k, i));
          return -11, left;
        }
        ghost var before := left;
        ghost var was := i;
        left := left - {y};
        i := i + 1;
        forall x ensures Crossed(setTried, left, x, OccursTo(vv, x, k, i)) {
          OccursNext(vv, x, k, was);
          assert Crossed(setTried, before, x, OccursTo(vv, x, k, was));
        }
      }
      ghost var was := k;
      k := k + 1;
      forall x ensures Crossed(setTried, left, x, Occurs(vv, x, k)) {
        OccursAll(vv, x, was);
        assert Crossed(setTried, left, x, OccursTo(vv, x, was, |vv[was]|));
      }
    }
    err := 0;
    AllCrossed(vv, setTried, left);
  }

  lemma {:induction false} NothingOccurs(vv: seq<seq<int>>, x: int)
    ensures Occurs(vv, x, 0) == 0
  {
  }

  lemma {:induction false} AllCrossed(vv: seq<seq<int>>, all: set<int>, left: set<int>)
    requires forall x :: Crossed(all, left, x, Occurs(vv, x, |vv|))
    ensures left == {} <==> forall x :: Occurs(vv, x, |vv|) == if x in all then 1 else 0
  {
    hide Occurs;
    if left == {} {
      forall x ensures Occurs(vv, x, |vv|) == if x in all then 1 else 0 {
        assert Crossed(all, left, x, Occurs(vv, x, |vv|));
      }
    } else {
      var x := AnElement(left);
      assert Crossed(all, left, x, Occurs(vv, x, |vv|));
    }
  }

  //////////////////////////////////////////////////////////////////////////////
  // The walk over the new buckets
  //////////////////////////////////////////////////////////////////////////////

  function At(m: map<int, int>, x: int): int {
    if x in m then m[x] else 0
  }

  /** How many of the first b buckets hold an id, one more if it is among those done of the next. */
  ghost function HeldTo(vv: seq<set<int>>, x: int, b: nat, done: seq<int>): nat
    requires b <= |vv|
  {
    Holders(vv, x, b) + if x in done then 1 else 0
  }

  /** The references left are those not yet found. */
  ghost predicate Owed(all: map<int, int>, left: map<int, int>, x: int, n: nat) {
    (x in left ==> x in all && left[x] > 0) && n == At(all, x) - At(left, x)
  }

  ghost predicate AllOwed(all: map<int, int>, left: map<int, int>, vv: seq<set<int>>, b: nat)
    requires b <= |vv|
  {
    forall x :: Owed(all, left, x, Holders(vv, x, b))
  }

  /** A bucket in ascending order. */
  ghost predicate Listed(bucket: set<int>, order: seq<int>) {
    && (forall i, j :: 0 <= i < j < |order| ==> order[i] < order[j])
    && (forall i :: 0 <= i < |order| ==> order[i] in bucket)
    && (forall x :: x in bucket ==> x in order)
  }

  lemma {:induction false} HeldNext(vv: seq<set<int>>, x: int, b: nat, order: seq<int>, i: nat)
    requires b < |vv| && i < |order| && Listed(vv[b], order)
    ensures HeldTo(vv, x, b, order[..i + 1]) == HeldTo(vv, x, b, order[..i]) + (if x == order[i] then 1 else 0)
  {
    assert order[..i + 1] == order[..i] + [order[i]];
    assert order[i] !in order[..i];
  }

  lemma {:induction false} HeldAll(vv: seq<set<int>>, x: int, b: nat, order: seq<int>)
    requires b < |vv| && Listed(vv[b], order)
    ensures HeldTo(vv, x, b, order[..|order|]) == HeldTo(vv, x, b + 1, [])
    ensures HeldTo(vv, x, b, order[..0]) == HeldTo(vv, x, b, []) == Holders(vv, x, b)
  {
    assert order[..|order|] == order;
    if x in order {
      var i :| 0 <= i < |order| && order[i] == x;
      assert order[i] in vv[b];
    }
  }

  lemma {:induction false} HeldGrows(vv: seq<set<int>>, x: int, b: nat, order: seq<int>, i: nat)
    requires b < |vv| && i <= |order| && Listed(vv[b], order)
    ensures HeldTo(vv, x, b, order[..i]) <= Holders(vv, x, |vv|)
  {
    if x in order[..i] {
      var j :| 0 <= j < |order[..i]| && order[..i][j] == x;
      assert order[j] in vv[b];
    }
    HoldersGrow(vv, x, b + 1, |vv|);
  }

  lemma {:induction false} HoldersGrow(v: seq<set<int>>, id: int, a: nat, b: nat)
    requires a <= b <= |v|
    ensures Holders(v, id, a) <= Holders(v, id, b)
    decreases b
  {
    if a < b {
      HoldersGrow(v, id, a, b - 1);
    }
  }

  /** An id in the next bucket for which nothing is owed is held too often. */
  lemma {:induction false} HeldTooOften(vv: seq<set<int>>, all: map<int, int>, left: map<int, int>, b: nat, order: seq<int>, i: nat)
    requires b < |vv| && i < |order| && Listed(vv[b], order) && order[i] !in left
    requires Owed(all, left, order[i], HeldTo(vv, order[i], b, order[..i]))
    ensures Holders(vv, order[i], |vv|) != At(all, order[i])
  {
    hide Listed, HeldTo;
    HeldNext(vv, order[i], b, order, i);
    HeldGrows(vv, order[i], b, order, i + 1);
  }

  method CheckNewBucket(am: AddrMan, mapNew: map<int, int>, b: nat, ghost all: map<int, int>) returns (err: int, left: map<int, int>)
    requires b < |am.vvNew| && AllOwed(all, mapNew, am.vvNew, b)
    ensures err == 0 ==> AllOwed(all, left, am.vvNew, b + 1)
    ensures err != 0 ==> exists x :: Holders(am.vvNew, x, |am.vvNew|) != At(all, x)
  {
    hide Holders, HeldTo, Listed;
    left := mapNew;
    ghost var vv := am.vvNew;
    var order := Ascending(am.vvNew[b]);
    assert Listed(vv[b], order) by {
      IsListed(vv[b], order);
    }
    var i := 0;
    ghost var done := order[..i];
    forall x ensures Owed(all, left, x, HeldTo(vv, x, b, done)) {
      HeldAll(vv, x, b, order);
    }
    while i < |order|
      invariant 0 <= i <= |order| && vv == am.vvNew && done == order[..i]
      invariant forall x :: Owed(all, left, x, HeldTo(vv, x, b, done))
    {
      var id := order[i];
      assert Owed(all, left, id, HeldTo(vv, id, b, done));
      if id !in left {
        HeldTooOften(vv, all, left, b, order, i);
        return -12, left;
      }
      ghost var before, was := left, done;
      left := if left[id] == 1 then left - {id} else left[id := left[id] - 1];
      done := order[..i + 1];
      forall x ensures Owed(all, left, x, HeldTo(vv, x, b, done)) {
        HeldNext(vv, x, b, order, i);
        assert Owed(all, before, x, HeldTo(vv, x, b, was));
      }
      i := i + 1;
    }
    ghost var next := b + 1;
    forall x ensures Owed(all, left, x, Holders(vv, x, next)) {
      HeldAll(vv, x, b, order);
      assert Owed(all, left, x, HeldTo(vv, x, b, done));
      NothingDone(vv, x, next);
    }
    err := 0;
  }

  lemma {:induction false} NothingDone(vv: seq<set<int>>, x: int, b: nat)
    requires b <= |vv|
    ensures HeldTo(vv, x, b, []) == Holders(vv, x, b)
  {
  }

  lemma {:induction false} IsListed(bucket: set<int>, order: seq<int>)
    requires forall i, j :: 0 <= i < j < |order| ==> order[i] < order[j]
    requires forall i :: 0 <= i < |order| ==> order[i] in bucket
    requires forall x :: x in bucket ==> x in order
    ensures Listed(bucket, order)
  {
  }

  method CheckNew(am: AddrMan, mapNew: map<int, int>) returns (err: int, left: map<int, int>)
    requires forall id :: id in mapNew ==> mapNew[id] > 0
    ensures err == 0 && left == map[] <==> forall x :: Holders(am.vvNew, x, |am.vvNew|) == At(mapNew, x)
  {
    left := mapNew;
    ghost var vv := am.vvNew;
    var b := 0;
    while b < |am.vvNew|
      invariant 0 <= b <= |vv| && vv == am.vvNew
      invariant AllOwed(mapNew, left, vv, b)
    {
      hide Holders, AllOwed;
      err, left := CheckNewBucket(am, left, b, mapNew);
      if err != 0 {
        return;
      }
      b := b + 1;
    }
    err := 0;
    AllPaid(vv, mapNew, left);
  }

  lemma {:induction false} AllPaid(vv: seq<set<int>>, all: map<int, int>, left: map<int, int>)
    requires AllOwed(all, left, vv, |vv|)
    ensures left == map[] <==> forall x :: Holders(vv, x, |vv|) == At(all, x)
  {
    hide Holders;
    if left == map[] {
      forall x ensures Holders(vv, x, |vv|) == At(all, x) {
        assert Owed(all, left, x, Holders(vv, x, |vv|));
      }
    } else if left.Keys != {} {
      var x := AnElement(left.Keys);
      assert Owed(all, left, x, Holders(vv, x, |vv|));
    }
  }

  //////////////////////////////////////////////////////////////////////////////
  // The whole check
  //////////////////////////////////////////////////////////////////////////////

  /** What the check accepts: the counters are right, every entry passes, every tried id stands in one place of one tried
      bucket, and every new id in as many new buckets as its references; nothing else stands anywhere. */
  ghost predicate Passes(am: AddrMan)
    reads am
  {
    && |am.vRandom| == am.nTried + am.nNew && CountersOk(am.mapInfo, am.nTried, am.nNew) && EntriesPass(am)
    && (forall x :: Occurs(am.vvTried, x, |am.vvTried|) == if x in TriedIds(am.mapInfo) then 1 else 0)
    && (forall x :: Holders(am.vvNew, x, |am.vvNew|) == if x in NewIds(am.mapInfo) then am.mapInfo[x].nRefCount else 0)
  }

  method Check(am: AddrMan) returns (err: int)
    ensures err == 0 <==> Passes(am)
  {
    hide EntriesPass, Occurs, Holders;
    if |am.vRandom| != am.nTried + am.nNew {
      return -7;
    }
    var setTried, mapNew;
    err, setTried, mapNew := CheckEntries(am);
    if err != 0 {
      return;
    }
    if |setTried| != am.nTried {
      return -9;
    }
    assert |mapNew| == |mapNew.Keys|;
    if |mapNew| != am.nNew {
      return -10;
    }
    ghost var counts := mapNew;
    err, setTried := CheckTried(am, setTried);
    if err != 0 {
      return;
    }
    err, mapNew := CheckNew(am, mapNew);
    CountsAre(am, counts);
    if err != 0 {
      return;
    }
    err := if setTried != {} then -13 else if mapNew != map[] then -15 else 0;
  }

  lemma {:induction false} CountsAre(am: AddrMan, counts: map<int, int>)
    requires counts.Keys == NewIds(am.mapInfo) && forall id :: id in counts ==> counts[id] == am.mapInfo[id].nRefCount
    ensures forall x :: At(counts, x) == if x in NewIds(am.mapInfo) then am.mapInfo[x].nRefCount else 0
  {
    forall x ensures At(counts, x) == if x in NewIds(am.mapInfo) then am.mapInfo[x].nRefCount else 0 {
      assert x in counts <==> x in counts.Keys;
    }
  }

  /** The check finds nothing wrong with any manager that satisfies the invariant. */
  lemma {:induction false} ValidPasses(am: AddrMan)
    requires am.Valid() && TimesOk(am.mapInfo)
    ensures Passes(am)
  {
    hide RandomOk, AddrOk, IdsOk, NewOk, TriedOk, CountersOk, TimesOk, Holders, Occurs;
    CountersGiveSize(am.mapInfo, am.vRandom, am.nTried, am.nNew);
    forall id | id in am.mapInfo ensures CheckEntry(id, am.mapInfo[id], am.mapAddr, am.vRandom) == 0 {
      EntryPasses(am, id);
    }
    SizeOfTried(am.mapInfo, am.vvTried, am.triedHash);
    forall x ensures Occurs(am.vvTried, x, |am.vvTried|) == if x in TriedIds(am.mapInfo) then 1 else 0 {
      TriedOnce(am.mapInfo, am.vvTried, am.triedHash, x, |am.vvTried|);
    }
    forall x ensures Holders(am.vvNew, x, |am.vvNew|) == if x in NewIds(am.mapInfo) then am.mapInfo[x].nRefCount else 0 {
      HeldAsReferenced(am.mapInfo, am.vvNew, x);
    }
  }

  lemma {:induction false} HeldAsReferenced(info: Table, vvNew: seq<set<int>>, x: int)
    requires NewOk(info, vvNew, NONE)
    ensures Holders(vvNew, x, |vvNew|) == if x in NewIds(info) then info[x].nRefCount else 0
  {
    hide Holders;
    if x in info {
      assert RefOk(info[x], Holders(vvNew, x, |vvNew|));
    } else {
      HoldersZero(vvNew, x, |vvNew|);
    }
  }

  lemma {:induction false} TriedOnce(info: Table, vv: seq<seq<int>>, bucketOf: Service -> nat, x: int, k: nat)
    requires TriedOk(info, vv, bucketOf) && k <= |vv|
    ensures Occurs(vv, x, k) ==
            if x in TriedIds(info) && bucketOf(info[x].addr.service) % TRIED_BUCKET_COUNT < k then 1 else 0
  {
    if k > 0 {
      TriedOnce(info, vv, bucketOf, x, k - 1);
      assert TriedBucketOk(info, vv[k - 1], bucketOf, k - 1);
      OnceInBucket(vv[k - 1], x);
      if x in vv[k - 1] {
        var i :| 0 <= i < |vv[k - 1]| && vv[k - 1][i] == x;
        assert InBucket(info, vv[k - 1][i], bucketOf, k - 1);
      }
    }
  }

  lemma {:induction false} OnceInBucket(s: seq<int>, x: int)
    requires forall i, j :: 0 <= i < j < |s| ==> s[i] != s[j]
    ensures multiset(s)[x] == if x in s then 1 else 0
  {
    if s != [] {
      var n := |s| - 1;
      OnceInBucket(s[..n], x);
      assert s == s[..n] + [s[n]];
    }
  }

  //////////////////////////////////////////////////////////////////////////////
  // What the check does not look at
  //////////////////////////////////////////////////////////////////////////////

  /** The rest of the invariant: ids in range, addresses of entries only, and 256 new and 64 tried buckets of at most 64
      entries, tried ones in the bucket of their service. */
  ghost predicate Unchecked(am: AddrMan)
    reads am
  {
    && IdsOk(am.mapInfo, am.nIdCount)
    && (forall id :: id in am.mapInfo ==> am.mapInfo[id].addr.service.ip in am.mapAddr)
    && (forall a :: a in am.mapAddr ==> am.mapAddr[a] in am.mapInfo && am.mapInfo[am.mapAddr[a]].addr.service.ip == a)
    && |am.vvNew| == NEW_BUCKET_COUNT && (forall b :: 0 <= b < |am.vvNew| ==> |am.vvNew[b]| <= NEW_BUCKET_SIZE)
    && |am.vvTried| == TRIED_BUCKET_COUNT && (forall k :: 0 <= k < |am.vvTried| ==> |am.vvTried[k]| <= TRIED_BUCKET_SIZE)
    && (forall k, x :: 0 <= k < |am.vvTried| && x in am.vvTried[k] && x in am.mapInfo ==>
          am.triedHash(am.mapInfo[x].addr.service) % TRIED_BUCKET_COUNT == k)
  }

  /** A passing entry: its kind and its references agree, address and random order lead back to it, and its times are right. */
  lemma {:induction false} EntryIs(id: int, info: AddrInfo, mapAddr: map<NetAddr, int>, vRandom: seq<int>)
    ensures CheckEntry(id, info, mapAddr, vRandom) == 0 <==>
      && (if info.fInTried then info.nRefCount == 0 && info.nLastSuccess != 0 else 1 <= info.nRefCount <= 4)
      && (if info.addr.service.ip in mapAddr then mapAddr[info.addr.service.ip] == id else id == 0)
      && 0 <= info.nRandomPos < |vRandom| && vRandom[info.nRandomPos] == id
      && info.nLastTry >= 0 && info.nLastSuccess >= 0
  {
  }

  ghost function Positions(info: Table, ids: set<int>): set<int>
    requires forall id :: id in ids ==> id in info
  {
    set id | id in ids :: info[id].nRandomPos
  }

  lemma {:induction false} PositionsSize(info: Table, vRandom: seq<int>, ids: set<int>)
    requires forall id :: id in ids ==> id in info && 0 <= info[id].nRandomPos < |vRandom| && vRandom[info[id].nRandomPos] == id
    ensures |Positions(info, ids)| == |ids|
  {
    if ids != {} {
      var x := AnElement(ids);
      PositionsSize(info, vRandom, ids - {x});
      assert Positions(info, ids) == Positions(info, ids - {x}) + {info[x].nRandomPos};
      forall y | y in ids - {x} ensures info[y].nRandomPos != info[x].nRandomPos {
        assert vRandom[info[y].nRandomPos] == y;
      }
    } else {
      assert Positions(info, ids) == {};
    }
  }

  ghost function UpTo(n: nat): (s: set<int>)
    ensures |s| == n && forall i :: i in s <==> 0 <= i < n
  {
    if n == 0 then {} else UpTo(n - 1) + {n - 1}
  }

  lemma {:induction false} SameSize(a: set<int>, b: set<int>)
    requires a <= b && |a| == |b|
    ensures a == b
  {
    assert b == a + (b - a);
  }

  /** As many places as entries, each entry at its own: then each place has its entry. */
  lemma {:induction false} PlacesAreTaken(info: Table, vRandom: seq<int>)
    requires |vRandom| == |info.Keys|
    requires forall id :: id in info ==> 0 <= info[id].nRandomPos < |vRandom| && vRandom[info[id].nRandomPos] == id
    ensures RandomOk(info, vRandom)
  {
    PositionsSize(info, vRandom, info.Keys);
    SameSize(Positions(info, info.Keys), UpTo(|vRandom|));
    forall i | 0 <= i < |vRandom| ensures vRandom[i] in info && info[vRandom[i]].nRandomPos == i {
      assert i in UpTo(|vRandom|);
    }
  }

  lemma {:induction false} OccursHere(vv: seq<seq<int>>, x: int, k: nat, n: nat)
    requires k < n <= |vv|
    ensures multiset(vv[k])[x] <= Occurs(vv, x, n)
    decreases n
  {
    if k < n - 1 {
      OccursHere(vv, x, k, n - 1);
    }
  }

  lemma {:induction false} OccursSomewhere(vv: seq<seq<int>>, x: int, n: nat) returns (k: nat)
    requires n <= |vv| && Occurs(vv, x, n) > 0
    ensures k < n && x in vv[k]
  {
    if multiset(vv[n - 1])[x] > 0 {
      k := n - 1;
    } else {
      k := OccursSomewhere(vv, x, n - 1);
    }
  }

  lemma {:induction false} TwicePlaced(s: seq<int>, i: nat, j: nat)
    requires i < j < |s| && s[i] == s[j]
    ensures multiset(s)[s[i]] >= 2
  {
    assert s == s[..j] + [s[j]] + s[j + 1..];
    assert s[i] in s[..j];
  }

  lemma {:induction false} PassingTried(am: AddrMan)
    requires Passes(am) && Unchecked(am)
    ensures TriedOk(am.mapInfo, am.vvTried, am.triedHash)
  {
    hide EntriesPass, Occurs, Holders, CountersOk, IdsOk;
    var vv := am.vvTried;
    forall k | 0 <= k < |vv| ensures TriedBucketOk(am.mapInfo, vv[k], am.triedHash, k) {
      forall i | 0 <= i < |vv[k]| ensures InBucket(am.mapInfo, vv[k][i], am.triedHash, k) {
        assert multiset(vv[k])[vv[k][i]] > 0;
        OccursHere(vv, vv[k][i], k, |vv|);
      }
      forall i, j | 0 <= i < j < |vv[k]| ensures vv[k][i] != vv[k][j] {
        OccursHere(vv, vv[k][i], k, |vv|);
        if vv[k][i] == vv[k][j] {
          TwicePlaced(vv[k], i, j);
        }
      }
    }
    forall id | id in am.mapInfo && am.mapInfo[id].fInTried
      ensures id in vv[am.triedHash(am.mapInfo[id].addr.service) % TRIED_BUCKET_COUNT]
    {
      assert id in TriedIds(am.mapInfo);
      var k := OccursSomewhere(vv, id, |vv|);
    }
  }

  lemma {:induction false} PassingNew(am: AddrMan)
    requires Passes(am) && Unchecked(am)
    ensures NewOk(am.mapInfo, am.vvNew, NONE)
  {
    hide Occurs, Holders, CountersOk, CheckEntry;
    forall b, id | 0 <= b < |am.vvNew| && id in am.vvNew[b] ensures id in am.mapInfo {
      HoldersZero(am.vvNew, id, |am.vvNew|);
    }
    forall id | id in am.mapInfo ensures RefOk(am.mapInfo[id], Holders(am.vvNew, id, |am.vvNew|)) {
      EntryIs(id, am.mapInfo[id], am.mapAddr, am.vRandom);
      assert id in NewIds(am.mapInfo) <==> !am.mapInfo[id].fInTried;
    }
  }

  lemma {:induction false} PassingOrder(am: AddrMan)
    requires Passes(am) && Unchecked(am)
    ensures RandomOk(am.mapInfo, am.vRandom) && AddrOk(am.mapInfo, am.mapAddr) && TimesOk(am.mapInfo)
  {
    hide Occurs, Holders, CheckEntry;
    forall id | id in am.mapInfo
      ensures CheckEntry(id, am.mapInfo[id], am.mapAddr, am.vRandom) == 0
      ensures 0 <= am.mapInfo[id].nRandomPos < |am.vRandom| && am.vRandom[am.mapInfo[id].nRandomPos] == id
      ensures am.mapAddr[am.mapInfo[id].addr.service.ip] == id
      ensures (am.mapInfo[id].fInTried ==> am.mapInfo[id].nLastSuccess != 0) && am.mapInfo[id].nLastTry >= 0 && am.mapInfo[id].nLastSuccess >= 0
    {
      EntryIs(id, am.mapInfo[id], am.mapAddr, am.vRandom);
    }
    assert am.mapInfo.Keys == TriedIds(am.mapInfo) + NewIds(am.mapInfo);
    PlacesAreTaken(am.mapInfo, am.vRandom);
  }

  /** A manager satisfies the invariant, with right times, exactly when the check passes and the rest of the invariant, which
      the check does not look at, holds. */
  lemma {:induction false} ValidIff(am: AddrMan)
    ensures am.Valid() && TimesOk(am.mapInfo) <==> Passes(am) && Unchecked(am)
  {
    hide Passes, TimesOk, CountersOk;
    if am.Valid() && TimesOk(am.mapInfo) {
      ValidPasses(am);
      ValidUnchecked(am);
    }
    if Passes(am) && Unchecked(am) {
      PassingTried(am);
      PassingNew(am);
      PassingOrder(am);
      PassingCounters(am);
    }
  }

  lemma {:induction false} PassingCounters(am: AddrMan)
    requires Passes(am)
    ensures CountersOk(am.mapInfo, am.nTried, am.nNew)
  {
  }

  lemma {:induction false} ValidUnchecked(am: AddrMan)
    requires am.Valid()
    ensures Unchecked(am)
  {
    hide Holders, RandomOk;
    forall k, x | 0 <= k < |am.vvTried| && x in am.vvTried[k] && x in am.mapInfo
      ensures am.triedHash(am.mapInfo[x].addr.service) % TRIED_BUCKET_COUNT == k
    {
      assert TriedBucketOk(am.mapInfo, am.vvTried[k], am.triedHash, k);
      var i :| 0 <= i < |am.vvTried[k]| && am.vvTried[k][i] == x;
      assert InBucket(am.mapInfo, am.vvTried[k][i], am.triedHash, k);
    }
    forall k | 0 <= k < |am.vvTried| ensures |am.vvTried[k]| <= TRIED_BUCKET_SIZE {
      assert TriedBucketOk(am.mapInfo, am.vvTried[k], am.triedHash, k);
    }
  }
}
