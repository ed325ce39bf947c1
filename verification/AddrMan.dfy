/** The stochastic address manager `CAddrMan`: every operation, under any random choices and any
    clock, keeps the invariants of its debug oracle. */
module AddrManager {
  import opened AddrTables
  import opened AddrEviction
  import opened Arith
  import opened Common

  const HORIZON_DAYS: int := 30
  const RETRIES: int := 3
  const MAX_FAILURES: int := 10
  const MIN_FAIL_DAYS: int := 7
  const GETADDR_MAX_PCT: nat := 23
  const GETADDR_MAX: nat := 2500

  /** An arbitrary number below `n`; 0 when `n` is 0. */
  method GetRandInt(n: nat) returns (r: nat)
    ensures r < n || r == n == 0
  {
    if n == 0 {
      return 0;
    }
    r :| 0 <= r < n;
  }

  /** Storing into the 32-bit time field. */
  function U32(x: int): (y: int)
    ensures 0 <= x <= 0xffff_ffff ==> y == x
  {
    x % 0x1_0000_0000
  }

  predicate IsTerrible(info: AddrInfo, nNow: int) {
    if info.nLastTry != 0 && info.nLastTry >= nNow - 60 then false
    else if info.addr.nTime > nNow + 10 * 60 then true
    else if info.addr.nTime == 0 || nNow - info.addr.nTime > HORIZON_DAYS * 86400 then true
    else if info.nLastSuccess == 0 && info.nAttempts >= RETRIES then true
    else nNow - info.nLastSuccess > MIN_FAIL_DAYS * 86400 && info.nAttempts >= MAX_FAILURES
  }

  /** An entry worth keeping: tried within the last minute, or seen within thirty days and not more than ten minutes ahead,
      with a success or fewer than three attempts, and with a success within seven days or fewer than ten attempts. */
  lemma {:induction false} NotTerribleIs(info: AddrInfo, nNow: int)
    ensures !IsTerrible(info, nNow) <==>
      || (info.nLastTry != 0 && nNow <= info.nLastTry + 60)
      || (&& info.addr.nTime != 0 && nNow - 30 * 24 * 60 * 60 <= info.addr.nTime <= nNow + 600
          && (info.nLastSuccess != 0 || info.nAttempts < 3)
          && (nNow - 7 * 24 * 60 * 60 <= info.nLastSuccess || info.nAttempts < 10))
  {
  }

  /** The iteration order of a `std::set<int>`. */
  method Ascending(s: set<int>) returns (q: seq<int>)
    ensures forall i, j :: 0 <= i < j < |q| ==> q[i] < q[j]
    ensures forall i :: 0 <= i < |q| ==> q[i] in s
    ensures forall x :: x in s ==> x in q
    ensures |q| == |s|
  {
    q := [];
    var rest := s;
    while rest != {}
      invariant rest <= s && |q| + |rest| == |s|
      invariant forall i, j :: 0 <= i < j < |q| ==> q[i] < q[j]
      invariant forall i, x :: 0 <= i < |q| && x in rest ==> q[i] < x
      invariant forall i :: 0 <= i < |q| ==> q[i] in s
      invariant forall x :: x in s ==> x in q || x in rest
      decreases |rest|
    {
      ghost var some := AnElement(rest);
      HasLeast(rest, some);
      var least :| least in rest && forall x :: x in rest ==> least <= x;
      q := q + [least];
      rest := rest - {least};
    }
  }

  lemma {:induction false} AnElement<T>(s: set<T>) returns (x: T)
    requires s != {}
    ensures x in s
  {
    x :| x in s;
  }

  lemma {:induction false} HasLeast(s: set<int>, y: int)
    requires y in s
    ensures exists m :: m in s && forall x :: x in s ==> m <= x
    decreases |s|
  {
    if x :| x in s && x < y {
      var t := s - {y};
      HasLeast(t, x);
      var m :| m in t && forall z :: z in t ==> m <= z;
      forall z | z in s ensures m <= z {
        assert z == y || z in t;
      }
    } else {
      assert y in s && forall x :: x in s ==> y <= x;
    }
  }

  //////////////////////////////////////////////////////////////////////////////
  // Relations between table states
  //////////////////////////////////////////////////////////////////////////////

  /** The same entries, up to their order in `vRandom`. */
  ghost predicate SameTable(info: Table, info': Table) {
    info.Keys == info'.Keys && forall id :: id in info ==> SameEntry(info[id], info'[id])
  }

  lemma {:induction false} PositionsChanged(info: Table, info': Table, mapAddr: map<NetAddr, int>, nIdCount: int,
                         vvNew: seq<set<int>>, pending: int, vvTried: seq<seq<int>>, bucketOf: Service -> nat,
                         nTried: int, nNew: int)
    requires SameTable(info, info')
    ensures AddrOk(info, mapAddr) ==> AddrOk(info', mapAddr)
    ensures IdsOk(info, nIdCount) ==> IdsOk(info', nIdCount)
    ensures NewOk(info, vvNew, pending) ==> NewOk(info', vvNew, pending)
    ensures TriedOk(info, vvTried, bucketOf) ==> TriedOk(info', vvTried, bucketOf)
    ensures CountersOk(info, nTried, nNew) ==> CountersOk(info', nTried, nNew)
    ensures TimesOk(info) ==> TimesOk(info')
  {
    assert forall id :: id in info ==> SameEntry(info[id], info'[id]);
    assert TriedIds(info) == TriedIds(info');
    assert NewIds(info) == NewIds(info');
    if TriedOk(info, vvTried, bucketOf) {
      TriedUnaffected(info, info', vvTried, bucketOf);
    }
  }

  /** An entry lost one reference, and is forgotten if that was the last one. */
  ghost predicate LostReference(info: Table, info': Table, id: int)
    requires id in info
  {
    if info[id].nRefCount == 1 then SameTable(info - {id}, info')
    else SameTable(info[id := info[id].(nRefCount := info[id].nRefCount - 1)], info')
  }

  ghost predicate NoYounger(info: Table, x: int, y: int)
    requires x in info && y in info
  {
    info[x].addr.nTime < info[y].addr.nTime || (info[x].addr.nTime == info[y].addr.nTime && x <= y)
  }

  /** Which entry of a full new bucket makes room. */
  ghost predicate IsVictim(info: Table, bucket: set<int>, nNow: int, r: int, victim: int, sample: set<int>)
    requires forall id :: id in bucket ==> id in info
    requires victim in bucket
  {
    || (&& r == 0
        && IsTerrible(info[victim], nNow)
        && forall x :: x in bucket && IsTerrible(info[x], nNow) ==> victim <= x)
    || (&& r == 1
        && (forall x :: x in bucket ==> !IsTerrible(info[x], nNow))
        && victim in sample && sample <= bucket && |sample| <= 4
        && forall x :: x in sample ==> NoYounger(info, victim, x))
  }

  /** A full bucket gives up an entry that is not worth keeping; or else every entry is, and the one given up was heard of no
      later than the others of a sample. */
  lemma {:induction false} VictimIs(info: Table, bucket: set<int>, nNow: int, r: int, victim: int, sample: set<int>)
    requires (forall id :: id in bucket ==> id in info) && victim in bucket && IsVictim(info, bucket, nNow, r, victim, sample)
    ensures if r == 0 then IsTerrible(info[victim], nNow)
            else
              && (forall x :: x in bucket ==> !IsTerrible(info[x], nNow))
              && victim in sample && sample <= bucket && |sample| <= 4
              && forall x :: x in sample ==> info[victim].addr.nTime <= info[x].addr.nTime
  {
    hide IsTerrible;
  }

  /** The choice made by `ShrinkNew`. */
  method PickVictim(info: Table, bucket: set<int>, nNow: int) returns (r: int, victim: int, ghost sample: set<int>)
    requires |bucket| > 0 && forall id :: id in bucket ==> id in info && id != NONE
    ensures victim in bucket && IsVictim(info, bucket, nNow, r, victim, sample)
  {
    hide IsTerrible;
    var ids := Ascending(bucket);
    forall m | 0 <= m < |ids| ensures ids[m] in info && ids[m] != NONE {
      var id := ids[m];
      assert id in bucket;
    }
    sample := {};
    var i := 0;
    while i < |ids|
      invariant 0 <= i <= |ids|
      invariant forall m :: 0 <= m < i ==> ids[m] in info && !IsTerrible(info[ids[m]], nNow)
    {
      var id := ids[i];
      assert id in bucket;
      if IsTerrible(info[id], nNow) {
        return 0, id, sample;
      }
      i := i + 1;
    }
    r := 1;
    victim, sample := OldestOfFour(info, ids);
    forall x | x in sample ensures x in bucket {
      var m :| 0 <= m < |ids| && ids[m] == x;
    }
    forall x | x in bucket ensures !IsTerrible(info[x], nNow) {
      var m :| 0 <= m < |ids| && ids[m] == x;
    }
  }

  /** The oldest of four random positions in ascending order of ids, the first one on ties. */
  method OldestOfFour(info: Table, ids: seq<int>) returns (nOldest: int, ghost sample: set<int>)
    requires |ids| > 0 && forall i :: 0 <= i < |ids| ==> ids[i] in info && ids[i] != NONE
    requires forall i, j :: 0 <= i < j < |ids| ==> ids[i] < ids[j]
    ensures nOldest in sample && |sample| <= 4
    ensures forall x :: x in sample ==> x in ids && x in info
    ensures nOldest in info && forall x :: x in sample ==> NoYounger(info, nOldest, x)
    ensures forall x :: x in sample ==> info[nOldest].addr.nTime <= info[x].addr.nTime
  {
    var n0 := GetRandInt(|ids|);
    var n1 := GetRandInt(|ids|);
    var n2 := GetRandInt(|ids|);
    var n3 := GetRandInt(|ids|);
    sample := {ids[n0], ids[n1], ids[n2], ids[n3]};
    FourOfThem(ids[n0], ids[n1], ids[n2], ids[n3]);
    nOldest := NONE;
    var nI := 0;
    while nI < |ids|
      invariant 0 <= nI <= |ids|
      invariant nOldest == NONE ==> n0 >= nI && n1 >= nI && n2 >= nI && n3 >= nI
      invariant nOldest != NONE ==> nOldest in sample
      invariant nOldest != NONE ==> forall m :: 0 <= m < nI && (m == n0 || m == n1 || m == n2 || m == n3) ==>
        NoYounger(info, nOldest, ids[m])
      invariant nOldest != NONE ==> forall m :: nI <= m < |ids| ==> nOldest < ids[m]
    {
      if nI == n0 || nI == n1 || nI == n2 || nI == n3 {
        if nOldest == NONE || info[ids[nI]].addr.nTime < info[nOldest].addr.nTime {
          nOldest := ids[nI];
        }
      }
      nI := nI + 1;
    }
  }

  /** A known entry after hearing of its address again: its time moves forward when it is stale,
      and the services are united. */
  function Refreshed(info: AddrInfo, addr: Address, nTimePenalty: int, nNow: int): (r: AddrInfo)
    ensures SameLinks(info, r) && SameButAddress(info, r)
  {
    var fCurrentlyOnline := nNow - addr.nTime < 24 * 60 * 60;
    var nUpdateInterval := if fCurrentlyOnline then 60 * 60 else 24 * 60 * 60;
    var nTime := if addr.nTime != 0 && (info.addr.nTime == 0 || info.addr.nTime < addr.nTime - nUpdateInterval - nTimePenalty)
                 then U32(Max(0, addr.nTime - nTimePenalty))
                 else info.addr.nTime;
    info.(addr := info.addr.(nTime := nTime, nServices := info.addr.nServices + addr.nServices))
  }

  /** What hearing of an address again does to what is stored of it. The services of both are kept and no others. The time
      becomes the address's less the penalty when that is news: the address has a time, and the stored one is zero or behind
      by more than the penalty and a day, or an hour for an address heard of less than a day ago. */
  ghost predicate HeardAgain(was: Address, now: Address, addr: Address, nTimePenalty: int, nNow: int) {
    && now.service == was.service
    && (forall s :: s in now.nServices <==> s in was.nServices || s in addr.nServices)
    && var interval := if addr.nTime > nNow - 86400 then 3600 else 86400;
       if addr.nTime != 0 && (was.nTime == 0 || addr.nTime - was.nTime > nTimePenalty + interval) then
         && (nTimePenalty <= addr.nTime < nTimePenalty + 0x1_0000_0000 ==> now.nTime == addr.nTime - nTimePenalty)
         && (addr.nTime < nTimePenalty ==> now.nTime == 0)
       else now.nTime == was.nTime
  }

  lemma {:induction false} RefreshedIs(info: AddrInfo, addr: Address, nTimePenalty: int, nNow: int)
    ensures HeardAgain(info.addr, Refreshed(info, addr, nTimePenalty, nNow).addr, addr, nTimePenalty, nNow)
  {
  }

  /** Two entries that differ at most in what their address says. */
  ghost predicate SameButAddress(a: AddrInfo, b: AddrInfo) {
    a.(addr := b.addr) == b
  }

  /** Each reference makes a further one twice as unlikely: one of 2^n draws passes. */
  method StochasticTest(nRefCount: nat) returns (passed: bool, ghost draw: nat)
    ensures draw < Pow2(nRefCount) && (passed <==> draw == 0)
  {
    var nFactor := 1;
    var n := 0;
    while n < nRefCount
      invariant 0 <= n <= nRefCount && nFactor == Pow2(n)
    {
      nFactor := nFactor * 2;
      n := n + 1;
    }
    draw := 0;
    if nFactor > 1 {
      var nRnd := GetRandInt(nFactor);
      draw := nRnd;
      if nRnd != 0 {
        return false, draw;
      }
    }
    passed := true;
  }

  /** A refreshed entry that is to be referenced once more if chance agrees: the address brings news, the entry is not
      tried, and it has room for another reference. */
  predicate Welcome(info: AddrInfo, addr: Address) {
    && addr.nTime != 0 && (info.addr.nTime == 0 || addr.nTime > info.addr.nTime)
    && !info.fInTried && info.nRefCount != NEW_BUCKETS_PER_ADDRESS
  }

  /** A full bucket gave up the right entry. */
  ghost predicate MadeRoom(info: Table, bucket: set<int>, nNow: int, victim: int) {
    && (forall id :: id in bucket ==> id in info) && victim in bucket
    && exists r, sample :: IsVictim(info, bucket, nNow, r, victim, sample)
  }

  /** What a bucket that is to take an id loses: nothing when it has room or holds the id already. */
  ghost predicate LosesOnly(info: Table, bucket: set<int>, id: int, nNow: int, victim: int) {
    if |bucket| < NEW_BUCKET_SIZE || id in bucket then victim == NONE else MadeRoom(info, bucket, nNow, victim)
  }

  /** How many steps after the start of a circular search position `b` is reached. */
  ghost function Offset(b: nat, start: nat, size: nat): nat
    requires b < size && start < size
  {
    if b >= start then b - start else b + size - start
  }

  /** A tried bucket gave up the entry at the place of the choice for another one. It is the least recently successful
      of the entries inspected exactly when the turn that found that one drew no offset. */
  ghost predicate GaveUp(info: Table, bucket: seq<int>, draws: seq<nat>, evicted: int, bucket': seq<int>, id: int) {
    && Drawn(draws, |bucket|) && |draws| == Inspected(|bucket|) && AllKnown(info, bucket) && draws != []
    && var c := Choose(info, bucket, draws);
       && FirstOldest(info, c, draws) && evicted == c.bucket[c.pos] && bucket' == Put(c.bucket, c.pos, id)
       && (evicted == c.bucket[c.turn] <==> draws[c.turn] == 0)
  }

  /** The statistics of an entry after a successful connection. */
  function Succeeded(info: AddrInfo, nTime: int): AddrInfo {
    info.(nLastSuccess := nTime, nLastTry := nTime, addr := info.addr.(nTime := U32(nTime)), nAttempts := 0)
  }

  class AddrMan {
    /** The keyed hashes that choose buckets, before reduction to the bucket count. */
    const triedHash: Service -> nat
    const newHash: (NetAddr, NetAddr) -> nat
    const routable: NetAddr -> bool

    var nIdCount: int
    var mapInfo: Table
    var mapAddr: map<NetAddr, int>
    var vRandom: seq<int>
    var nTried: int
    var vvTried: seq<seq<int>>
    var nNew: int
    var vvNew: seq<set<int>>

    /** The invariant, with an entry possibly waiting to be put into a new bucket. */
    ghost predicate ValidBut(pending: int)
      reads this
    {
      && RandomOk(mapInfo, vRandom)
      && AddrOk(mapInfo, mapAddr)
      && IdsOk(mapInfo, nIdCount)
      && NewOk(mapInfo, vvNew, pending)
      && TriedOk(mapInfo, vvTried, triedHash)
      && CountersOk(mapInfo, nTried, nNew)
    }

    ghost predicate Valid()
      reads this
    {
      ValidBut(NONE)
    }

    constructor (triedHash: Service -> nat, newHash: (NetAddr, NetAddr) -> nat, routable: NetAddr -> bool)
      ensures Valid() && TimesOk(mapInfo) && mapInfo == map[]
      ensures this.triedHash == triedHash && this.newHash == newHash && this.routable == routable
    {
      this.triedHash := triedHash;
      this.newHash := newHash;
      this.routable := routable;
      nIdCount := 0;
      mapInfo := map[];
      mapAddr := map[];
      vRandom := [];
      nTried := 0;
      vvTried := seq(TRIED_BUCKET_COUNT, i => []);
      nNew := 0;
      vvNew := seq(NEW_BUCKET_COUNT, i => {});
    }

    function GetTriedBucket(info: AddrInfo): nat {
      triedHash(info.addr.service) % TRIED_BUCKET_COUNT
    }

    function GetNewBucket(info: AddrInfo, source: NetAddr): nat {
      newHash(info.addr.service.ip, source) % NEW_BUCKET_COUNT
    }

    /** The id of a known address. */
    predicate Known(a: NetAddr)
      reads this
    {
      a in mapAddr && mapAddr[a] in mapInfo
    }

    //////////////////////////////////////////////////////////////////////////
    // Elementary steps
    //////////////////////////////////////////////////////////////////////////

    method SwapRandom(nRndPos1: nat, nRndPos2: nat)
      requires RandomOk(mapInfo, vRandom)
      requires nRndPos1 < |vRandom| && nRndPos2 < |vRandom|
      modifies this`mapInfo, this`vRandom
      ensures RandomOk(mapInfo, vRandom)
      ensures SameTable(old(mapInfo), mapInfo)
      ensures vRandom == SwapAt(old(vRandom), nRndPos1, nRndPos2)
    {
      if nRndPos1 == nRndPos2 {
        return;
      }
      RandomSwapped(mapInfo, vRandom, nRndPos1, nRndPos2);
      var nId1 := vRandom[nRndPos1];
      var nId2 := vRandom[nRndPos2];
      assert nId1 != nId2;
      mapInfo := mapInfo[nId1 := mapInfo[nId1].(nRandomPos := nRndPos2)];
      mapInfo := mapInfo[nId2 := mapInfo[nId2].(nRandomPos := nRndPos1)];
      vRandom := vRandom[nRndPos1 := nId2];
      vRandom := vRandom[nRndPos2 := nId1];
    }

    /** Forget an entry: it goes to the end of the random order and off it. */
    method Forget(id: int)
      requires RandomOk(mapInfo, vRandom) && id in mapInfo
      modifies this`mapInfo, this`mapAddr, this`vRandom, this`nNew
      ensures RandomOk(mapInfo, vRandom) && SameTable(old(mapInfo) - {id}, mapInfo)
      ensures mapAddr == old(mapAddr) - {old(mapInfo)[id].addr.service.ip} && nNew == old(nNew) - 1
    {
      hide RandomOk, SameTable;
      ghost var lowered, random := mapInfo, vRandom;
      HasPosition(lowered, vRandom, id);
      SwapRandom(mapInfo[id].nRandomPos, |vRandom| - 1);
      MovedLast(lowered, random, mapInfo, vRandom, id);
      RandomPopped(mapInfo, vRandom, id);
      vRandom := vRandom[..|vRandom| - 1];
      mapAddr := mapAddr - {mapInfo[id].addr.service.ip};
      mapInfo := mapInfo - {id};
      nNew := nNew - 1;
    }

    /** Take an entry out of a new bucket, forgetting it when that was its last reference. */
    method DropFromBucket(nUBucket: nat, id: int, ghost pending: int)
      requires ValidBut(pending)
      requires nUBucket < |vvNew| && id in vvNew[nUBucket] && id != pending && id in mapInfo
      modifies this`mapInfo, this`mapAddr, this`vRandom, this`nNew, this`vvNew
      ensures ValidBut(pending)
      ensures vvNew == old(vvNew)[nUBucket := old(vvNew)[nUBucket] - {id}]
      ensures !old(mapInfo)[id].fInTried && LostReference(old(mapInfo), mapInfo, id)
    {
      hide RandomOk, AddrOk, IdsOk, NewOk, TriedOk, CountersOk, RefOk, SameTable;
      ghost var before := mapInfo;
      NewDropped(before, vvNew, pending, nUBucket, id);
      RefChanged(before, mapAddr, vRandom, id, before[id].nRefCount - 1, nIdCount, vvTried, triedHash, nTried, nNew);
      Forgotten(before, mapAddr, id, nIdCount, vvTried, triedHash, nTried, nNew);
      mapInfo := mapInfo[id := mapInfo[id].(nRefCount := mapInfo[id].nRefCount - 1)];
      vvNew := vvNew[nUBucket := vvNew[nUBucket] - {id}];
      if mapInfo[id].nRefCount == 0 {
        assert mapInfo - {id} == before - {id};
        Forget(id);
        PositionsChanged(before - {id}, mapInfo, mapAddr, nIdCount, vvNew, pending, vvTried, triedHash, nTried, nNew);
      } else {
        SameTableRefl(mapInfo);
      }
    }

    //////////////////////////////////////////////////////////////////////////
    // Evictions
    //////////////////////////////////////////////////////////////////////////

    /** Make room in a new bucket: drop the first terrible entry, or else the oldest of at most
        four random ones. Returns 0 or 1 accordingly. */
    method ShrinkNew(nUBucket: nat, nNow: int, ghost pending: int) returns (r: int, ghost victim: int, ghost sample: set<int>)
      requires ValidBut(pending)
      requires nUBucket < |vvNew| && |vvNew[nUBucket]| > 0 && pending !in vvNew[nUBucket]
      modifies this`mapInfo, this`mapAddr, this`vRandom, this`nNew, this`vvNew
      ensures ValidBut(pending)
      ensures old(BucketKnown(nUBucket)) && victim in old(vvNew)[nUBucket]
      ensures IsVictim(old(mapInfo), old(vvNew)[nUBucket], nNow, r, victim, sample)
      ensures vvNew == old(vvNew)[nUBucket := old(vvNew)[nUBucket] - {victim}]
      ensures !old(mapInfo)[victim].fInTried && LostReference(old(mapInfo), mapInfo, victim)
    {
      hide RandomOk, AddrOk, IdsOk, NewOk, TriedOk, CountersOk, IsVictim, LostReference;
      HeldAreKnown(mapInfo, vvNew, pending, nUBucket);
      var id;
      r, id, sample := PickVictim(mapInfo, vvNew[nUBucket], nNow);
      victim := id;
      DropFromBucket(nUBucket, id, pending);
    }

    ghost predicate BucketKnown(b: nat)
      reads this
    {
      b < |vvNew| && forall id :: id in vvNew[b] ==> id in mapInfo && id != NONE
    }

    /** Shuffle the first few of a tried bucket and name a place in it: the one that the oldest of them was drawn
        from, which still holds it exactly when it was drawn from its own place. */
    method SelectTried(nKBucket: nat) returns (nOldestPos: int, ghost draws: seq<nat>)
      requires TriedOk(mapInfo, vvTried, triedHash) && NONE !in mapInfo
      requires nKBucket < |vvTried| && |vvTried[nKBucket]| > 0
      modifies this`vvTried
      ensures TriedOk(mapInfo, vvTried, triedHash)
      ensures |vvTried| == |old(vvTried)| && vvTried == old(vvTried)[nKBucket := vvTried[nKBucket]]
      ensures |draws| == Inspected(|old(vvTried)[nKBucket]|) && Drawn(draws, |old(vvTried)[nKBucket]|)
      ensures AllKnown(mapInfo, old(vvTried)[nKBucket]) && Different(old(vvTried)[nKBucket])
      ensures
        var c := Choose(mapInfo, old(vvTried)[nKBucket], draws);
        && vvTried[nKBucket] == c.bucket && nOldestPos == c.pos && FirstOldest(mapInfo, c, draws)
        && multiset(c.bucket) == multiset(old(vvTried)[nKBucket])
        && (c.bucket[c.pos] == c.bucket[c.turn] <==> draws[c.turn] == 0)
    {
      hide TriedOk, SwapAt, FirstOldest, Choose, Take, Put;
      draws := [];
      ghost var s := vvTried[nKBucket];
      ghost var c := Choice(s, -1, -1);
      TriedAreKnown(mapInfo, vvTried, triedHash, nKBucket);
      NoChoice(mapInfo, s);
      var nOldest: int := -1;
      nOldestPos := -1;
      var i := 0;
      while i < TRIED_ENTRIES_INSPECT_ON_EVICT && i < |vvTried[nKBucket]|
        invariant 0 <= i <= TRIED_ENTRIES_INSPECT_ON_EVICT && i <= |s|
        invariant |vvTried| == |old(vvTried)| && vvTried == old(vvTried)[nKBucket := c.bucket]
        invariant TriedOk(mapInfo, vvTried, triedHash)
        invariant |draws| == i && Drawn(draws, |s|) && c == Choose(mapInfo, s, draws)
        invariant nOldestPos == c.pos && nOldest == if i == 0 then -1 else c.bucket[c.turn]
        decreases |s| - i
      {
        var nRnd := GetRandInt(|vvTried[nKBucket]| - i);
        var nPos := nRnd + i;
        var nTemp := vvTried[nKBucket][nPos];
        TriedSwapped(mapInfo, vvTried, triedHash, nKBucket, nPos, i);
        NextChoice(mapInfo, s, draws, nRnd);
        TurnIs(mapInfo, c, nPos, i, nOldest);
        vvTried := vvTried[nKBucket := Put(Put(vvTried[nKBucket], nPos, vvTried[nKBucket][i]), i, nTemp)];
        draws := draws + [nRnd];
        if nOldest == -1 || mapInfo[nTemp].nLastSuccess < mapInfo[nOldest].nLastSuccess {
          nOldest := nTemp;
          nOldestPos := nPos;
        }
        c := Choose(mapInfo, s, draws);
        i := i + 1;
      }
      ChoiceIsOldest(mapInfo, s, draws);
      ChoicePermutes(mapInfo, s, draws);
      VictimIsOldest(mapInfo, s, draws);
    }

    //////////////////////////////////////////////////////////////////////////
    // Adding an address
    //////////////////////////////////////////////////////////////////////////

    /** The invariant while an entry waits for one more reference: it is complete once that
        reference is counted. A just created entry is in no new bucket. */
    ghost predicate Waiting(id: int, created: bool)
      reads this
    {
      && RandomOk(mapInfo, vRandom)
      && AddrOk(mapInfo, mapAddr)
      && IdsOk(mapInfo, nIdCount)
      && TriedOk(mapInfo, vvTried, triedHash)
      && CountersOk(mapInfo, nTried, nNew)
      && id in mapInfo && !mapInfo[id].fInTried
      && NewOk(mapInfo[id := mapInfo[id].(nRefCount := mapInfo[id].nRefCount + 1)], vvNew, id)
      && |vvNew| == NEW_BUCKET_COUNT
      && if created then forall b :: 0 <= b < |vvNew| ==> id !in vvNew[b] else NewOk(mapInfo, vvNew, NONE)
    }

    /** `Create`, and the bookkeeping of `Add_` for a new address. */
    method Create(addr: Address, source: NetAddr, nTimePenalty: int) returns (nId: int)
      requires Valid() && addr.service.ip !in mapAddr
      modifies this`nIdCount, this`mapInfo, this`mapAddr, this`vRandom, this`nNew
      ensures Waiting(nId, true)
      ensures nId !in old(mapInfo) && mapInfo.Keys == old(mapInfo).Keys + {nId}
      ensures forall x :: x in old(mapInfo) ==> mapInfo[x] == old(mapInfo)[x]
      ensures mapInfo[nId].addr == addr.(nTime := U32(Max(0, addr.nTime - nTimePenalty)))
      ensures mapInfo[nId].source == source
      ensures mapInfo[nId].nLastTry == mapInfo[nId].nLastSuccess == mapInfo[nId].nAttempts == 0
    {
      hide RandomOk, AddrOk, IdsOk, NewOk, TriedOk, CountersOk;
      ghost var before, addrs, random := mapInfo, mapAddr, vRandom;
      nId := nIdCount;
      nIdCount := nIdCount + 1;
      mapInfo := mapInfo[nId := AddrInfo(addr, source, 0, 0, 0, 0, false, -1)];
      mapAddr := mapAddr[addr.service.ip := nId];
      mapInfo := mapInfo[nId := mapInfo[nId].(nRandomPos := |vRandom|)];
      vRandom := vRandom + [nId];
      mapInfo := mapInfo[nId := mapInfo[nId].(addr := addr.(nTime := U32(Max(0, addr.nTime - nTimePenalty))))];
      nNew := nNew + 1;
      Created(before, addrs, random, nId, mapInfo[nId], vvNew, vvTried, triedHash, nTried, nNew - 1);
      assert mapInfo == before[nId := mapInfo[nId]];
      SizeOfNew(mapInfo[nId := mapInfo[nId].(nRefCount := 1)], vvNew, nId);
    }

    /** The part of `Add_` for an address already known: refresh it, and decide whether it is to
        be referenced once more. */
    method Refresh(nId: int, addr: Address, nTimePenalty: int, nNow: int) returns (more: bool, ghost draw: nat)
      requires Valid() && nId in mapInfo
      modifies this`mapInfo
      ensures Valid()
      ensures more ==> Waiting(nId, false)
      ensures draw < Pow2(Max(0, mapInfo[nId].nRefCount))
      ensures more <==> Welcome(mapInfo[nId], addr) && draw == 0
      ensures more <==>
        && addr.nTime != 0 && (mapInfo[nId].addr.nTime == 0 || addr.nTime > mapInfo[nId].addr.nTime)
        && !mapInfo[nId].fInTried && mapInfo[nId].nRefCount < 4 && draw == 0
      ensures mapInfo == old(mapInfo)[nId := Refreshed(old(mapInfo)[nId], addr, nTimePenalty, nNow)]
      ensures HeardAgain(old(mapInfo)[nId].addr, mapInfo[nId].addr, addr, nTimePenalty, nNow)
    {
      hide RandomOk, AddrOk, IdsOk, NewOk, TriedOk, CountersOk, Refreshed, HeardAgain;
      var info := Refreshed(mapInfo[nId], addr, nTimePenalty, nNow);
      RefreshedIs(mapInfo[nId], addr, nTimePenalty, nNow);
      StatsChanged(mapInfo, nId, info, vRandom, mapAddr, nIdCount, vvNew, NONE, vvTried, triedHash, nTried, nNew);
      mapInfo := mapInfo[nId := info];
      if !info.fInTried {
        CountOfRefs(mapInfo, vvNew, nId);
      }
      more, draw := false, 0;
      if addr.nTime == 0 || (info.addr.nTime != 0 && addr.nTime <= info.addr.nTime) {
        return;
      }
      if info.fInTried || info.nRefCount == NEW_BUCKETS_PER_ADDRESS {
        return;
      }
      more, draw := StochasticTest(info.nRefCount);
      if more {
        NewRaised(mapInfo, vvNew, nId);
        SizeOfNew(mapInfo, vvNew, NONE);
      }
    }

    /** A full bucket gives up an entry before it takes another one. */
    method MakeRoom(nId: int, nUBucket: nat, nNow: int, ghost before: Table) returns (ghost victim: int)
      requires ValidBut(nId) && nUBucket < |vvNew| && nId !in vvNew[nUBucket] && nId in before
      requires mapInfo == before[nId := before[nId].(nRefCount := before[nId].nRefCount + 1)]
      modifies this`mapInfo, this`mapAddr, this`vRandom, this`nNew, this`vvNew
      ensures ValidBut(nId) && victim != nId && |vvNew| == |old(vvNew)| && |vvNew[nUBucket]| < NEW_BUCKET_SIZE
      ensures vvNew == old(vvNew)[nUBucket := old(vvNew)[nUBucket] - {victim}]
      ensures victim != NONE ==> victim in old(vvNew)[nUBucket]
      ensures LosesOnly(before, old(vvNew)[nUBucket], nId, nNow, victim)
      ensures nId in mapInfo && Survives(before, mapInfo, nId, victim)
    {
      hide RandomOk, AddrOk, IdsOk, NewOk, TriedOk, CountersOk, SameEntry, Survives, LostReference, IsVictim, MadeRoom;
      victim := NONE;
      ghost var raised, bucket := mapInfo, vvNew[nUBucket];
      NotNone(raised, vvNew, nId);
      HeldAreKnown(raised, vvNew, nId, nUBucket);
      SizeOfNew(raised, vvNew, nId);
      if |vvNew[nUBucket]| == NEW_BUCKET_SIZE {
        var r; ghost var sample;
        r, victim, sample := ShrinkNew(nUBucket, nNow, nId);
        RoomIsMade(before, raised, bucket, nNow, r, victim, sample, nId);
      } else {
        assert bucket - {NONE} == bucket;
      }
      SurvivesPut(before, raised, mapInfo, nId, victim, before[nId].nRefCount + 1);
    }

    /** One more reference, from a bucket that does not hold the entry. */
    method Reference(nId: int, nUBucket: nat, nNow: int) returns (ghost victim: int)
      requires nId in mapInfo && !mapInfo[nId].fInTried && |vvNew| == NEW_BUCKET_COUNT && nUBucket < |vvNew| && nId !in vvNew[nUBucket]
      requires RandomOk(mapInfo, vRandom) && AddrOk(mapInfo, mapAddr) && IdsOk(mapInfo, nIdCount)
      requires TriedOk(mapInfo, vvTried, triedHash) && CountersOk(mapInfo, nTried, nNew)
      requires NewOk(mapInfo[nId := mapInfo[nId].(nRefCount := mapInfo[nId].nRefCount + 1)], vvNew, nId)
      modifies this`mapInfo, this`mapAddr, this`vRandom, this`nNew, this`vvNew
      ensures Valid()
      ensures nId in mapInfo && victim != nId && (victim != NONE ==> victim in old(vvNew)[nUBucket])
      ensures LosesOnly(old(mapInfo), old(vvNew)[nUBucket], nId, nNow, victim)
      ensures vvNew == old(vvNew)[nUBucket := old(vvNew)[nUBucket] - {victim} + {nId}]
      ensures Survives(old(mapInfo), mapInfo, nId, victim)
    {
      hide RandomOk, AddrOk, IdsOk, NewOk, TriedOk, CountersOk, SameEntry, Survives, LosesOnly;
      ghost var before := mapInfo;
      RefChanged(mapInfo, mapAddr, vRandom, nId, mapInfo[nId].nRefCount + 1, nIdCount, vvTried, triedHash, nTried, nNew);
      mapInfo := mapInfo[nId := mapInfo[nId].(nRefCount := mapInfo[nId].nRefCount + 1)];
      victim := MakeRoom(nId, nUBucket, nNow, before);
      NewInserted(mapInfo, vvNew, nUBucket, nId);
      vvNew := vvNew[nUBucket := vvNew[nUBucket] + {nId}];
    }

    /** The end of `Add_`: reference the entry from a new bucket, making room if it is full. */
    method PutInNew(nId: int, nUBucket: nat, nNow: int, ghost created: bool) returns (ghost victim: int)
      requires Waiting(nId, created) && nUBucket < NEW_BUCKET_COUNT
      modifies this`mapInfo, this`mapAddr, this`vRandom, this`nNew, this`vvNew
      ensures Valid()
      ensures nId in mapInfo && victim != nId && (victim != NONE ==> victim in old(vvNew)[nUBucket])
      ensures LosesOnly(old(mapInfo), old(vvNew)[nUBucket], nId, nNow, victim)
      ensures vvNew == old(vvNew)[nUBucket := old(vvNew)[nUBucket] - {victim} + {nId}]
      ensures Survives(old(mapInfo), mapInfo, nId, victim)
    {
      hide RandomOk, AddrOk, IdsOk, NewOk, TriedOk, CountersOk, SameEntry, Survives, LosesOnly;
      victim := NONE;
      ghost var before, bucket := mapInfo, vvNew[nUBucket];
      ghost var raised := mapInfo[nId := mapInfo[nId].(nRefCount := mapInfo[nId].nRefCount + 1)];
      NotNone(raised, vvNew, nId);
      HeldAreKnown(raised, vvNew, nId, nUBucket);
      if nId !in vvNew[nUBucket] {
        victim := Reference(nId, nUBucket, nNow);
      } else {
        HeldStays(before, bucket, nId, nNow);
      }
    }

    /** Hear of an address. A known one may gain a reference if chance agrees; a full bucket gives up one entry. */
    method Add(addr: Address, source: NetAddr, nTimePenalty: int, nNow: int) returns (fNew: bool, ghost victim: int, ghost draw: nat)
      requires Valid()
      modifies this`nIdCount, this`mapInfo, this`mapAddr, this`vRandom, this`nNew, this`vvNew
      ensures Valid()
      ensures old(TimesOk(mapInfo)) ==> TimesOk(mapInfo)
      ensures fNew <==> routable(addr.service.ip) && addr.service.ip !in old(mapAddr)
      ensures routable(addr.service.ip) ==> addr.service.ip in mapAddr
      ensures !routable(addr.service.ip) ==> mapInfo == old(mapInfo) && mapAddr == old(mapAddr) && vvNew == old(vvNew)
      ensures routable(addr.service.ip) ==> mapAddr[addr.service.ip] in mapInfo
      ensures fNew ==>
        var id := mapAddr[addr.service.ip];
        && mapInfo[id].source == source
        && mapInfo[id].addr == addr.(nTime := U32(Max(0, addr.nTime - nTimePenalty)))
      ensures routable(addr.service.ip) && !fNew ==>
        var id := mapAddr[addr.service.ip];
        id in old(mapInfo) && SameButRefs(Refreshed(old(mapInfo)[id], addr, nTimePenalty, nNow), mapInfo[id])
      ensures routable(addr.service.ip) && !fNew ==>
        var id := mapAddr[addr.service.ip];
        id in old(mapInfo) && HeardAgain(old(mapInfo)[id].addr, mapInfo[id].addr, addr, nTimePenalty, nNow)
      ensures routable(addr.service.ip) ==>
        var id, b := mapAddr[addr.service.ip], newHash(addr.service.ip, source) % NEW_BUCKET_COUNT;
        && b < |old(vvNew)| && (!fNew ==> draw < Pow2(Max(0, old(mapInfo)[id].nRefCount)))
        && if fNew || (Welcome(Refreshed(old(mapInfo)[id], addr, nTimePenalty, nNow), addr) && draw == 0) then
             && vvNew == old(vvNew)[b := old(vvNew)[b] - {victim} + {id}]
             && LosesOnly(old(mapInfo), old(vvNew)[b], id, nNow, victim)
           else vvNew == old(vvNew) && victim == NONE
      ensures forall x :: x in old(mapInfo) && x != victim ==> x in mapInfo
      ensures forall x :: x in old(mapInfo) && old(mapInfo)[x].fInTried ==> x in mapInfo && mapInfo[x].fInTried
      ensures forall x :: x in mapInfo && x !in old(mapInfo) ==> fNew && mapInfo[x].addr.service == addr.service
    {
      hide RandomOk, AddrOk, IdsOk, NewOk, TriedOk, CountersOk, MadeRoom, LosesOnly, Welcome, Refreshed, HeardAgain, Pow2;
      SizeOfNew(mapInfo, vvNew, NONE);
      fNew, victim, draw := false, NONE, 0;
      if !routable(addr.service.ip) {
        return;
      }
      ghost var before := mapInfo;
      var nId;
      if Known(addr.service.ip) {
        nId := mapAddr[addr.service.ip];
        KnownHere(mapInfo, mapAddr, addr.service.ip);
        var more;
        more, draw := Refresh(nId, addr, nTimePenalty, nNow);
        if !more {
          return;
        }
      } else {
        KnownHere(mapInfo, mapAddr, addr.service.ip);
        nId := Create(addr, source, nTimePenalty);
        fNew := true;
      }
      ghost var waiting, b := mapInfo, GetNewBucket(mapInfo[nId], source);
      victim := PutInNew(nId, GetNewBucket(mapInfo[nId], source), nNow, fNew);
      HeldWereKnown(before, waiting, old(vvNew), b, nId, nNow, victim);
      KnownHere(mapInfo, mapAddr, mapInfo[nId].addr.service.ip);
    }

    //////////////////////////////////////////////////////////////////////////
    // Promotion to the tried table
    //////////////////////////////////////////////////////////////////////////

    /** Take an entry out of every new bucket; returns its remaining reference count. */
    method EraseFromNew(nId: int, nRefCount: int) returns (left: int)
      requires |vvNew| == NEW_BUCKET_COUNT
      modifies this`vvNew
      ensures |vvNew| == |old(vvNew)| && forall b :: 0 <= b < |vvNew| ==> vvNew[b] == old(vvNew)[b] - {nId}
      ensures left == nRefCount - Holders(old(vvNew), nId, |old(vvNew)|)
    {
      left := nRefCount;
      var b := 0;
      while b < |vvNew|
        invariant 0 <= b <= |vvNew| == |old(vvNew)|
        invariant forall c :: 0 <= c < |vvNew| ==> vvNew[c] == if c < b then old(vvNew)[c] - {nId} else old(vvNew)[c]
        invariant left == nRefCount - Holders(old(vvNew), nId, b)
      {
        if nId in vvNew[b] {
          vvNew := vvNew[b := vvNew[b] - {nId}];
          left := left - 1;
        }
        b := b + 1;
      }
    }

    /** The new bucket an evicted tried entry goes to: its own, or the origin if that is full. */
    ghost function Refuge(info: AddrInfo, news: seq<set<int>>, nOrigin: nat): (u: nat)
      requires |news| == NEW_BUCKET_COUNT
      ensures |news[newHash(info.addr.service.ip, info.source) % 256]| < 64 ==> u == newHash(info.addr.service.ip, info.source) % 256
      ensures |news[newHash(info.addr.service.ip, info.source) % 256]| >= 64 ==> u == nOrigin
    {
      var u := GetNewBucket(info, info.source);
      if |news[u]| < NEW_BUCKET_SIZE then u else nOrigin
    }

    /** Move an entry to the tried table. A full tried bucket gives one of its entries back to
        the new table; nothing is forgotten. */
    method MakeTried(nId: int, nOrigin: nat) returns (ghost evicted: int, ghost erased: seq<set<int>>, ghost draws: seq<nat>)
      requires Valid()
      requires nId in mapInfo && !mapInfo[nId].fInTried && nOrigin < |vvNew| && nId in vvNew[nOrigin]
      modifies this`mapInfo, this`nTried, this`vvTried, this`nNew, this`vvNew
      ensures Valid()
      ensures |erased| == |old(vvNew)| == NEW_BUCKET_COUNT && forall b :: 0 <= b < |erased| ==> erased[b] == old(vvNew)[b] - {nId}
      ensures |old(vvTried)| == TRIED_BUCKET_COUNT
      ensures
        var k := old(GetTriedBucket(mapInfo[nId]));
        var e := old(mapInfo)[nId].(nRefCount := 0, fInTried := true);
        if |old(vvTried)[k]| < TRIED_BUCKET_SIZE then
          && evicted == NONE && mapInfo == old(mapInfo)[nId := e] && vvNew == erased
          && vvTried == old(vvTried)[k := old(vvTried)[k] + [nId]]
        else
          && evicted in old(mapInfo) && evicted in old(vvTried)[k] && evicted != nId
          && mapInfo == old(mapInfo)[evicted := old(mapInfo)[evicted].(nRefCount := 1, fInTried := false)][nId := e]
          && (var u := Refuge(old(mapInfo)[evicted], erased, nOrigin); vvNew == erased[u := erased[u] + {evicted}])
          && vvTried == old(vvTried)[k := vvTried[k]]
          && multiset(vvTried[k]) == multiset(old(vvTried)[k]) - multiset{evicted} + multiset{nId}
          && GaveUp(old(mapInfo), old(vvTried)[k], draws, evicted, vvTried[k], nId)
    {
      hide RandomOk, AddrOk, IdsOk, NewOk, TriedOk, CountersOk, Holders, GaveUp;
      draws := [];
      ghost var before, buckets := mapInfo, vvNew;
      ghost var e := mapInfo[nId].(nRefCount := 0, fInTried := true);
      SizeOfNew(mapInfo, vvNew, NONE);
      RefsAreHolders(mapInfo, vvNew, nId);
      var left := EraseFromNew(nId, mapInfo[nId].nRefCount);
      mapInfo := mapInfo[nId := mapInfo[nId].(nRefCount := left)];
      nNew := nNew - 1;
      erased := vvNew;
      NewToTried(before, buckets, vvNew, nId, e);
      CountToTried(before, nId, e, nTried, nNew + 1);
      IndexKept(before, nId, e, vRandom, mapAddr, nIdCount);
      SizeOfTried(before, vvTried, triedHash);
      NotNone(before, buckets, NONE);

      var nKBucket := GetTriedBucket(mapInfo[nId]);
      if |vvTried[nKBucket]| < TRIED_BUCKET_SIZE {
        TriedPushed(before, vvTried, triedHash, nId, e, nKBucket);
        vvTried := vvTried[nKBucket := vvTried[nKBucket] + [nId]];
        nTried := nTried + 1;
        mapInfo := mapInfo[nId := mapInfo[nId].(fInTried := true)];
        assert mapInfo == before[nId := e];
        evicted := NONE;
      } else {
        assert mapInfo == before[nId := before[nId].(nRefCount := 0)];
        evicted, draws := Evict(nId, nKBucket, nOrigin, before);
      }
    }

    /** The selection, said of the table before the entry left the new buckets. */
    method SelectFor(nId: int, nKBucket: nat, ghost before: Table) returns (nPos: nat, ghost draws: seq<nat>)
      requires nId in before && !before[nId].fInTried && NONE !in before
      requires mapInfo == before[nId := before[nId].(nRefCount := 0)]
      requires TriedOk(before, vvTried, triedHash) && nKBucket < |vvTried| && |vvTried[nKBucket]| > 0
      modifies this`vvTried
      ensures TriedOk(mapInfo, vvTried, triedHash)
      ensures |vvTried| == |old(vvTried)| && vvTried == old(vvTried)[nKBucket := vvTried[nKBucket]]
      ensures nPos < |vvTried[nKBucket]|
      ensures
        var nOld := vvTried[nKBucket][nPos];
        && nOld in before && before[nOld].fInTried && nOld in old(vvTried)[nKBucket]
        && triedHash(before[nOld].addr.service) % TRIED_BUCKET_COUNT == nKBucket
        && GaveUp(before, old(vvTried)[nKBucket], draws, nOld, Put(vvTried[nKBucket], nPos, nId), nId)
        && multiset(Put(vvTried[nKBucket], nPos, nId)) == multiset(old(vvTried)[nKBucket]) - multiset{nOld} + multiset{nId}
    {
      hide TriedOk, FirstOldest, Choose, GaveUp, Put;
      TriedSame(before, nId, mapInfo[nId], vvTried, triedHash);
      var nOldestPos;
      nOldestPos, draws := SelectTried(nKBucket);
      nPos := nOldestPos;
      TriedAreKnown(before, old(vvTried), triedHash, nKBucket);
      ChoiceAgrees(mapInfo, before, old(vvTried)[nKBucket], draws);
      GivenUp(before, old(vvTried)[nKBucket], draws, nId);
      TriedIsKnown(mapInfo, vvTried, triedHash, nKBucket, nPos);
      InShuffled(old(vvTried)[nKBucket], vvTried[nKBucket], nPos, nId);
    }

    /** The eviction in `MakeTried`, once the entry has left the new table. */
    method Evict(nId: int, nKBucket: nat, nOrigin: nat, ghost before: Table) returns (ghost evicted: int, ghost draws: seq<nat>)
      requires nId in before && !before[nId].fInTried && NONE !in before
      requires mapInfo == before[nId := before[nId].(nRefCount := 0)]
      requires RandomOk(before, vRandom) && AddrOk(before, mapAddr) && IdsOk(before, nIdCount)
      requires TriedOk(before, vvTried, triedHash) && |vvTried| == TRIED_BUCKET_COUNT
      requires nKBucket == GetTriedBucket(before[nId]) && |vvTried[nKBucket]| > 0
      requires NewOk(before[nId := before[nId].(nRefCount := 0, fInTried := true)], vvNew, NONE)
      requires CountersOk(before[nId := before[nId].(nRefCount := 0, fInTried := true)], nTried + 1, nNew)
      requires |vvNew| == NEW_BUCKET_COUNT && nOrigin < |vvNew| && |vvNew[nOrigin]| < NEW_BUCKET_SIZE
      modifies this`mapInfo, this`vvTried, this`nNew, this`vvNew
      ensures Valid()
      ensures evicted in before && evicted in old(vvTried)[nKBucket] && evicted != nId
      ensures mapInfo == before[evicted := before[evicted].(nRefCount := 1, fInTried := false)]
                               [nId := before[nId].(nRefCount := 0, fInTried := true)]
      ensures var u := Refuge(before[evicted], old(vvNew), nOrigin);
        vvNew == old(vvNew)[u := old(vvNew)[u] + {evicted}]
      ensures vvTried == old(vvTried)[nKBucket := vvTried[nKBucket]]
      ensures multiset(vvTried[nKBucket]) == multiset(old(vvTried)[nKBucket]) - multiset{evicted} + multiset{nId}
      ensures GaveUp(before, old(vvTried)[nKBucket], draws, evicted, vvTried[nKBucket], nId)
    {
      hide RandomOk, AddrOk, IdsOk, NewOk, TriedOk, CountersOk, GaveUp;
      ghost var e := before[nId].(nRefCount := 0, fInTried := true);
      var nPos;
      nPos, draws := SelectFor(nId, nKBucket, before);
      var nOld := vvTried[nKBucket][nPos];
      evicted := nOld;
      var nUBucket := GetNewBucket(mapInfo[nOld], mapInfo[nOld].source);
      ghost var out := before[nOld].(nRefCount := 1, fInTried := false);
      TriedReplaced(mapInfo, vvTried, triedHash, nId, e, nKBucket, nPos, out);
      NewFromTried(before[nId := e], vvNew, Refuge(before[nOld], vvNew, nOrigin), nOld, out);
      CountToNew(before[nId := e], nOld, out, nTried + 1, nNew);
      IndexKept(before, nId, e, vRandom, mapAddr, nIdCount);
      IndexKept(before[nId := e], nOld, out, vRandom, mapAddr, nIdCount);

      mapInfo := mapInfo[nOld := mapInfo[nOld].(fInTried := false, nRefCount := 1)];
      if |vvNew[nUBucket]| < NEW_BUCKET_SIZE {
        vvNew := vvNew[nUBucket := vvNew[nUBucket] + {nOld}];
      } else {
        vvNew := vvNew[nOrigin := vvNew[nOrigin] + {nOld}];
      }
      nNew := nNew + 1;
      vvTried := vvTried[nKBucket := Put(vvTried[nKBucket], nPos, nId)];
      mapInfo := mapInfo[nId := mapInfo[nId].(fInTried := true)];
      assert mapInfo == before[nOld := out][nId := e];
      assert mapInfo == before[nId := e][nOld := out];
    }

    /** A new bucket that holds an entry, searched from a random start. */
    method FindNewBucket(nId: int) returns (nUBucket: int)
      requires |vvNew| == NEW_BUCKET_COUNT
      ensures -1 <= nUBucket < |vvNew|
      ensures nUBucket != -1 ==> nId in vvNew[nUBucket]
      ensures nUBucket == -1 ==> forall b :: 0 <= b < |vvNew| ==> nId !in vvNew[b]
    {
      var nRnd := GetRandInt(|vvNew|);
      var n := 0;
      while n < |vvNew|
        invariant 0 <= n <= |vvNew|
        invariant forall b :: 0 <= b < |vvNew| && Offset(b, nRnd, NEW_BUCKET_COUNT) < n ==> nId !in vvNew[b]
      {
        var nB := (n + nRnd) % NEW_BUCKET_COUNT;
        if nId in vvNew[nB] {
          return nB;
        }
        n := n + 1;
      }
      nUBucket := -1;
    }

    /** Mark an address as accessible. The evicted entry, if any, is the only other one to change. */
    method Good(addr: Service, nTime: int) returns (ghost evicted: int)
      requires Valid()
      modifies this`mapInfo, this`nTried, this`vvTried, this`nNew, this`vvNew
      ensures Valid()
      ensures old(TimesOk(mapInfo)) && nTime > 0 ==> TimesOk(mapInfo)
      ensures mapInfo.Keys == old(mapInfo).Keys
      ensures !(addr.ip in mapAddr && old(mapInfo)[mapAddr[addr.ip]].addr.service == addr) ==>
        mapInfo == old(mapInfo) && vvTried == old(vvTried) && vvNew == old(vvNew)
      ensures addr.ip in mapAddr && old(mapInfo)[mapAddr[addr.ip]].addr.service == addr ==>
        var id := mapAddr[addr.ip];
        && mapInfo[id] == Succeeded(old(mapInfo)[id], nTime).(fInTried := true, nRefCount := 0)
        && mapInfo[id].nLastSuccess == mapInfo[id].nLastTry == nTime && mapInfo[id].nAttempts == 0
        && (0 <= nTime < 0x1_0000_0000 ==> mapInfo[id].addr == old(mapInfo)[id].addr.(nTime := nTime))
        && (forall x :: x in mapInfo && x != id && x != evicted ==> mapInfo[x] == old(mapInfo)[x])
        && (evicted in mapInfo ==>
              && evicted != id && old(mapInfo)[evicted].fInTried
              && old(GetTriedBucket(mapInfo[evicted])) == old(GetTriedBucket(mapInfo[id]))
              && mapInfo[evicted] == old(mapInfo)[evicted].(fInTried := false, nRefCount := 1))
    {
      hide RandomOk, AddrOk, IdsOk, NewOk, TriedOk, CountersOk, TimesOk, Refuge, GaveUp;
      evicted := NONE;
      KnownHere(mapInfo, mapAddr, addr.ip);
      NotNone(mapInfo, vvNew, NONE);
      if !Known(addr.ip) {
        return;
      }
      var nId := mapAddr[addr.ip];
      if mapInfo[nId].addr.service != addr {
        return;
      }
      ghost var before := mapInfo;
      var info := Succeeded(mapInfo[nId], nTime);
      StatsChanged(mapInfo, nId, info, vRandom, mapAddr, nIdCount, vvNew, NONE, vvTried, triedHash, nTried, nNew);
      mapInfo := mapInfo[nId := info];
      TimesAfterGood(before, nId, nTime, NONE);
      TriedCountsZero(mapInfo, vvNew, nId);
      if info.fInTried {
        return;
      }
      NewIsHeld(mapInfo, vvNew, nId);
      SizeOfNew(mapInfo, vvNew, NONE);
      var nUBucket := FindNewBucket(nId);
      assert nUBucket != -1;
      ghost var erased;
      BucketsAreRight(mapInfo, vvTried, triedHash);
      ghost var draws;
      evicted, erased, draws := MakeTried(nId, nUBucket);
      TimesAfterGood(before, nId, nTime, evicted);
      assert evicted !in before ==> mapInfo == before[nId := Succeeded(before[nId], nTime).(fInTried := true, nRefCount := 0)];
    }

    method Attempt(addr: Service, nTime: int)
      requires Valid()
      modifies this`mapInfo
      ensures Valid()
      ensures old(TimesOk(mapInfo)) && nTime >= 0 ==> TimesOk(mapInfo)
      ensures mapInfo == if addr.ip in mapAddr && old(mapInfo)[mapAddr[addr.ip]].addr.service == addr
        then (var e := old(mapInfo)[mapAddr[addr.ip]];
              old(mapInfo)[mapAddr[addr.ip] := e.(nLastTry := nTime, nAttempts := e.nAttempts + 1)])
        else old(mapInfo)
    {
      hide RandomOk, AddrOk, IdsOk, NewOk, TriedOk, CountersOk;
      KnownHere(mapInfo, mapAddr, addr.ip);
      if !Known(addr.ip) {
        return;
      }
      var nId := mapAddr[addr.ip];
      if mapInfo[nId].addr.service != addr {
        return;
      }
      var info := mapInfo[nId].(nLastTry := nTime, nAttempts := mapInfo[nId].nAttempts + 1);
      StatsChanged(mapInfo, nId, info, vRandom, mapAddr, nIdCount, vvNew, NONE, vvTried, triedHash, nTried, nNew);
      mapInfo := mapInfo[nId := info];
    }

    method Connected(addr: Service, nTime: int)
      requires Valid()
      modifies this`mapInfo
      ensures Valid()
      ensures old(TimesOk(mapInfo)) ==> TimesOk(mapInfo)
      ensures mapInfo == if addr.ip in mapAddr && old(mapInfo)[mapAddr[addr.ip]].addr.service == addr
                            && nTime - old(mapInfo)[mapAddr[addr.ip]].addr.nTime > 1200
        then (var e := old(mapInfo)[mapAddr[addr.ip]];
              old(mapInfo)[mapAddr[addr.ip] := e.(addr := e.addr.(nTime := U32(nTime)))])
        else old(mapInfo)
    {
      hide RandomOk, AddrOk, IdsOk, NewOk, TriedOk, CountersOk;
      KnownHere(mapInfo, mapAddr, addr.ip);
      if !Known(addr.ip) {
        return;
      }
      var nId := mapAddr[addr.ip];
      if mapInfo[nId].addr.service != addr {
        return;
      }
      var nUpdateInterval := 20 * 60;
      if nTime - mapInfo[nId].addr.nTime > nUpdateInterval {
        var info := mapInfo[nId].(addr := mapInfo[nId].addr.(nTime := U32(nTime)));
        StatsChanged(mapInfo, nId, info, vRandom, mapAddr, nIdCount, vvNew, NONE, vvTried, triedHash, nTried, nNew);
        mapInfo := mapInfo[nId := info];
      }
    }

    /** The first n of the random order, shuffled as they are taken. */
    method Sample(nNodes: nat) returns (vAddr: seq<Address>)
      requires RandomOk(mapInfo, vRandom) && nNodes <= |vRandom|
      modifies this`mapInfo, this`vRandom
      ensures RandomOk(mapInfo, vRandom) && SameTable(old(mapInfo), mapInfo) && |vRandom| == |old(vRandom)|
      ensures |vAddr| == nNodes
      ensures forall i :: 0 <= i < nNodes ==> vRandom[i] in old(mapInfo) && vAddr[i] == old(mapInfo)[vRandom[i]].addr
    {
      hide RandomOk, SameTable;
      ghost var before := mapInfo;
      SameTableRefl(mapInfo);
      vAddr := [];
      var n := 0;
      while n < nNodes
        invariant 0 <= n <= nNodes <= |vRandom| == |old(vRandom)| && |vAddr| == n
        invariant RandomOk(mapInfo, vRandom) && SameTable(before, mapInfo)
        invariant forall i :: 0 <= i < n ==> vRandom[i] in before && vAddr[i] == before[vRandom[i]].addr
      {
        var nRnd := GetRandInt(|vRandom| - n);
        ghost var info := mapInfo;
        SwapRandom(n, nRnd + n);
        SameTableTrans(before, info, mapInfo);
        InOrder(mapInfo, vRandom, n);
        SameAddress(before, mapInfo, vRandom[n]);
        vAddr := vAddr + [mapInfo[vRandom[n]].addr];
        n := n + 1;
      }
    }

    /** A random sample of the known addresses: of the stated size, and without repetition. */
    method GetAddr() returns (vAddr: seq<Address>)
      requires Valid()
      modifies this`mapInfo, this`vRandom
      ensures Valid()
      ensures old(TimesOk(mapInfo)) ==> TimesOk(mapInfo)
      ensures SameTable(old(mapInfo), mapInfo) && |vRandom| == |old(vRandom)|
      ensures |vAddr| == (var share := 23 * |vRandom| / 100; if share > 2500 then 2500 else share)
      ensures forall i :: 0 <= i < |vAddr| ==> vAddr[i].service.ip in mapAddr
      ensures forall i :: 0 <= i < |vAddr| ==> old(mapInfo)[mapAddr[vAddr[i].service.ip]].addr == vAddr[i]
      ensures forall i, j :: 0 <= i < j < |vAddr| ==> vAddr[i].service.ip != vAddr[j].service.ip
    {
      hide RandomOk, AddrOk, IdsOk, NewOk, TriedOk, CountersOk, SameTable, TimesOk;
      ghost var before := mapInfo;
      var nNodes := GETADDR_MAX_PCT * |vRandom| / 100;
      if nNodes > GETADDR_MAX {
        nNodes := GETADDR_MAX;
      }
      vAddr := Sample(nNodes);
      PositionsChanged(before, mapInfo, mapAddr, nIdCount, vvNew, NONE, vvTried, triedHash, nTried, nNew);
      DistinctSample(before, mapInfo, mapAddr, vRandom, vAddr);
    }
  }

  //////////////////////////////////////////////////////////////////////////////
  // Runs
  //////////////////////////////////////////////////////////////////////////////

  datatype Op =
    | OpAdd(addr: Address, source: NetAddr, nTimePenalty: int, nNow: int)
    | OpGood(service: Service, nTime: int)
    | OpAttempt(service: Service, nTime: int)
    | OpConnected(service: Service, nTime: int)
    | OpGetAddr

  /** Times from a clock that is past the epoch. */
  ghost predicate SaneTime(op: Op) {
    (op.OpGood? ==> op.nTime > 0) && (op.OpAttempt? ==> op.nTime >= 0)
  }

  /** Every run of operations from an empty manager keeps the invariant. */
  method Run(triedHash: Service -> nat, newHash: (NetAddr, NetAddr) -> nat, routable: NetAddr -> bool, ops: seq<Op>)
    returns (am: AddrMan)
    ensures am.Valid()
    ensures (forall op :: op in ops ==> SaneTime(op)) ==> TimesOk(am.mapInfo)
  {
    am := new AddrMan(triedHash, newHash, routable);
    var i := 0;
    while i < |ops|
      invariant 0 <= i <= |ops| && fresh(am) && am.Valid()
      invariant (forall op :: op in ops ==> SaneTime(op)) ==> TimesOk(am.mapInfo)
    {
      hide RandomOk, AddrOk, IdsOk, NewOk, TriedOk, CountersOk, TimesOk;
      var op := ops[i];
      assert op in ops;
      match op {
        case OpAdd(addr, source, nTimePenalty, nNow) =>
          ghost var victim, draw;
          var fNew;
          fNew, victim, draw := am.Add(addr, source, nTimePenalty, nNow);
        case OpGood(service, nTime) =>
          ghost var evicted := am.Good(service, nTime);
        case OpAttempt(service, nTime) =>
          am.Attempt(service, nTime);
        case OpConnected(service, nTime) =>
          am.Connected(service, nTime);
        case OpGetAddr =>
          var vAddr := am.GetAddr();
      }
      i := i + 1;
    }
  }

  //////////////////////////////////////////////////////////////////////////////
  // Steps of the proofs above
  //////////////////////////////////////////////////////////////////////////////

  lemma {:induction false} HeldAreKnown(info: Table, vvNew: seq<set<int>>, pending: int, b: nat)
    requires NewOk(info, vvNew, pending) && b < |vvNew|
    ensures forall id :: id in vvNew[b] ==> id in info && id != NONE
  {
  }

  lemma {:induction false} FourOfThem(a: int, b: int, c: int, d: int)
    ensures |{a, b, c, d}| <= 4
  {
    assert {a, b, c, d} == {a} + {b} + {c} + {d};
  }

  lemma {:induction false} TriedIsKnown(info: Table, vv: seq<seq<int>>, bucketOf: Service -> nat, k: nat, i: nat)
    requires TriedOk(info, vv, bucketOf) && k < |vv| && i < |vv[k]|
    ensures vv[k][i] in info && info[vv[k][i]].fInTried
    ensures bucketOf(info[vv[k][i]].addr.service) % TRIED_BUCKET_COUNT == k
  {
    assert TriedBucketOk(info, vv[k], bucketOf, k);
    assert InBucket(info, vv[k][i], bucketOf, k);
  }

  lemma {:induction false} TriedAreKnown(info: Table, vv: seq<seq<int>>, bucketOf: Service -> nat, k: nat)
    requires TriedOk(info, vv, bucketOf) && k < |vv|
    ensures AllKnown(info, vv[k]) && Different(vv[k])
  {
    assert TriedBucketOk(info, vv[k], bucketOf, k);
    forall j | 0 <= j < |vv[k]| ensures vv[k][j] in info {
      assert InBucket(info, vv[k][j], bucketOf, k);
    }
  }

  lemma {:induction false} NoChoice(info: Table, s: seq<int>)
    requires AllKnown(info, s)
    ensures Choose(info, s, []) == Choice(s, -1, -1)
  {
  }

  /** One more draw. */
  lemma {:induction false} NextChoice(info: Table, s: seq<int>, draws: seq<nat>, nRnd: nat)
    requires Drawn(draws, |s|) && AllKnown(info, s) && nRnd < |s| - |draws|
    ensures Drawn(draws + [nRnd], |s|)
    ensures Choose(info, s, draws + [nRnd]) == Take(info, Choose(info, s, draws), nRnd + |draws|, |draws|)
  {
    assert (draws + [nRnd])[..|draws|] == draws;
  }

  /** One turn as the loop makes it. */
  lemma {:induction false} TurnIs(info: Table, c: Choice, nPos: nat, i: nat, nOldest: int)
    requires i <= nPos < |c.bucket| && AllKnown(info, c.bucket) && NONE !in info
    requires if i == 0 then c.turn == -1 && nOldest == -1 else 0 <= c.turn < i && nOldest == c.bucket[c.turn]
    ensures
      var nTemp, d := c.bucket[nPos], Take(info, c, nPos, i);
      && nTemp in info && (nOldest != -1 ==> nOldest in info)
      && SwapAt(c.bucket, nPos, i) == Put(Put(c.bucket, nPos, c.bucket[i]), i, nTemp) == d.bucket
      && var older := nOldest == -1 || info[nTemp].nLastSuccess < info[nOldest].nLastSuccess;
         && d.pos == (if older then nPos else c.pos)
         && 0 <= d.turn <= i && d.bucket[d.turn] == if older then nTemp else nOldest
  {
  }

  lemma {:induction false} GivenUp(info: Table, s: seq<int>, draws: seq<nat>, id: int)
    requires Drawn(draws, |s|) && |draws| == Inspected(|s|) && AllKnown(info, s) && Different(s) && draws != []
    ensures var c := Choose(info, s, draws);
            GaveUp(info, s, draws, c.bucket[c.pos], Put(c.bucket, c.pos, id), id)
  {
    hide Choose, FirstOldest;
    ChoiceIsOldest(info, s, draws);
    VictimIsOldest(info, s, draws);
  }

  /** The choice of the victim does not look at reference counts. */
  lemma {:induction false} RoomIsMade(before: Table, raised: Table, bucket: set<int>, nNow: int, r: int, victim: int, sample: set<int>, id: int)
    requires id in before && raised == before[id := before[id].(nRefCount := before[id].nRefCount + 1)]
    requires (forall x :: x in bucket ==> x in raised) && victim in bucket && id !in bucket
    requires IsVictim(raised, bucket, nNow, r, victim, sample)
    ensures MadeRoom(before, bucket, nNow, victim)
  {
    hide IsTerrible;
    assert IsVictim(before, bucket, nNow, r, victim, sample);
  }

  /** What was lost, said of the table before the entry itself changed. */
  lemma {:induction false} HeldWereKnown(before: Table, waiting: Table, vvNew: seq<set<int>>, b: nat, id: int, nNow: int, victim: int)
    requires NewOk(before, vvNew, NONE) && b < |vvNew| && LosesOnly(waiting, vvNew[b], id, nNow, victim)
    requires forall x :: x in before && x != id ==> x in waiting && waiting[x] == before[x]
    ensures LosesOnly(before, vvNew[b], id, nNow, victim)
  {
    hide MadeRoom;
    HeldAreKnown(before, vvNew, NONE, b);
    if |vvNew[b]| >= NEW_BUCKET_SIZE && id !in vvNew[b] {
      RoomStays(waiting, before, vvNew[b], nNow, victim);
    }
  }

  /** Nor at entries outside the bucket. */
  lemma {:induction false} RoomStays(info: Table, info': Table, bucket: set<int>, nNow: int, victim: int)
    requires MadeRoom(info, bucket, nNow, victim)
    requires forall x :: x in bucket ==> x in info' && info'[x] == info[x]
    ensures MadeRoom(info', bucket, nNow, victim)
  {
    hide IsTerrible;
    var r, sample :| IsVictim(info, bucket, nNow, r, victim, sample);
    assert IsVictim(info', bucket, nNow, r, victim, sample);
  }

  /** Two entries that differ at most in their position and reference count. */
  ghost predicate SameButRefs(a: AddrInfo, b: AddrInfo) {
    a.(nRandomPos := 0, nRefCount := 0) == b.(nRandomPos := 0, nRefCount := 0)
  }

  /** Everything but the victim survives; only the named entry and the victim change references. */
  ghost predicate Survives(info: Table, info': Table, id: int, victim: int) {
    && (forall x :: x in info' ==> x in info && SameButRefs(info[x], info'[x]))
    && (forall x :: x in info && x != victim ==> x in info' && (x != id ==> SameEntry(info[x], info'[x])))
    && (victim in info ==> !info[victim].fInTried)
  }

  /** A bucket that holds the entry already loses nothing. */
  lemma {:induction false} HeldStays(info: Table, bucket: set<int>, id: int, nNow: int)
    requires id in bucket && id in info && NONE !in info
    ensures LosesOnly(info, bucket, id, nNow, NONE) && Survives(info, info, id, NONE)
    ensures NONE !in bucket ==> bucket - {NONE} + {id} == bucket
  {
  }

  lemma {:induction false} SurvivesPut(before: Table, raised: Table, info: Table, id: int, victim: int, n: int)
    requires id in before && raised == before[id := before[id].(nRefCount := n)]
    requires || (victim !in raised && info == raised)
             || (victim != id && victim in raised && !raised[victim].fInTried && LostReference(raised, info, victim))
    ensures Survives(before, info, id, victim) && (victim != id ==> id in info)
  {
    if victim in raised {
      var lost := if raised[victim].nRefCount == 1 then raised - {victim}
                  else raised[victim := raised[victim].(nRefCount := raised[victim].nRefCount - 1)];
      assert SameTable(lost, info);
      forall x | x in info ensures x in before && SameButRefs(before[x], info[x]) {
        assert SameEntry(lost[x], info[x]);
      }
      forall x | x in before && x != victim ensures x in info && (x != id ==> SameEntry(before[x], info[x])) {
        assert x in lost;
      }
    }
  }

  lemma {:induction false} SizeOfNew(info: Table, vvNew: seq<set<int>>, pending: int)
    requires NewOk(info, vvNew, pending)
    ensures |vvNew| == NEW_BUCKET_COUNT && forall b :: 0 <= b < |vvNew| ==> |vvNew[b]| <= NEW_BUCKET_SIZE
  {
  }

  lemma {:induction false} CountOfRefs(info: Table, vvNew: seq<set<int>>, id: int)
    requires NewOk(info, vvNew, NONE) && id in info && !info[id].fInTried
    ensures 1 <= info[id].nRefCount <= NEW_BUCKETS_PER_ADDRESS
  {
  }

  lemma {:induction false} NotNone(info: Table, vvNew: seq<set<int>>, pending: int)
    requires NewOk(info, vvNew, pending)
    ensures NONE !in info
  {
  }

  lemma {:induction false} KnownHere(info: Table, mapAddr: map<NetAddr, int>, a: NetAddr)
    requires AddrOk(info, mapAddr)
    ensures a in mapAddr ==> mapAddr[a] in info && info[mapAddr[a]].addr.service.ip == a
    ensures forall id :: id in info ==> info[id].addr.service.ip in mapAddr && mapAddr[info[id].addr.service.ip] == id
  {
  }

  lemma {:induction false} TimesAfterGood(info: Table, id: int, nTime: int, evicted: int)
    requires id in info
    ensures TimesOk(info) && nTime > 0 ==>
      && TimesOk(info[id := Succeeded(info[id], nTime)])
      && TimesOk(info[id := Succeeded(info[id], nTime).(fInTried := true, nRefCount := 0)])
      && (evicted in info && evicted != id ==>
            TimesOk(info[id := Succeeded(info[id], nTime)]
                        [evicted := info[evicted].(fInTried := false, nRefCount := 1)]
                        [id := Succeeded(info[id], nTime).(fInTried := true, nRefCount := 0)]))
  {
  }

  lemma {:induction false} TriedCountsZero(info: Table, vvNew: seq<set<int>>, id: int)
    requires NewOk(info, vvNew, NONE) && id in info
    ensures info[id].fInTried ==> info[id].nRefCount == 0
  {
  }

  lemma {:induction false} BucketsAreRight(info: Table, vv: seq<seq<int>>, bucketOf: Service -> nat)
    requires TriedOk(info, vv, bucketOf)
    ensures forall k, x :: 0 <= k < |vv| && x in vv[k] ==>
      x in info && info[x].fInTried && bucketOf(info[x].addr.service) % TRIED_BUCKET_COUNT == k
  {
    forall k, x | 0 <= k < |vv| && x in vv[k]
      ensures x in info && info[x].fInTried && bucketOf(info[x].addr.service) % TRIED_BUCKET_COUNT == k
    {
      var i :| 0 <= i < |vv[k]| && vv[k][i] == x;
      TriedIsKnown(info, vv, bucketOf, k, i);
    }
  }

  lemma {:induction false} SameTableTrans(a: Table, b: Table, c: Table)
    requires SameTable(a, b) && SameTable(b, c)
    ensures SameTable(a, c)
  {
    forall id | id in a ensures SameEntry(a[id], c[id]) {
      assert SameEntry(a[id], b[id]) && SameEntry(b[id], c[id]);
    }
  }

  lemma {:induction false} InOrder(info: Table, vRandom: seq<int>, n: nat)
    requires RandomOk(info, vRandom) && n < |vRandom|
    ensures vRandom[n] in info
  {
  }

  lemma {:induction false} SameAddress(a: Table, b: Table, id: int)
    requires SameTable(a, b) && id in b
    ensures id in a && a[id].addr == b[id].addr
  {
    assert SameEntry(a[id], b[id]);
  }

  lemma {:induction false} DistinctSample(before: Table, info: Table, mapAddr: map<NetAddr, int>, vRandom: seq<int>, vAddr: seq<Address>)
    requires RandomOk(info, vRandom) && AddrOk(before, mapAddr) && |vAddr| <= |vRandom|
    requires forall i :: 0 <= i < |vAddr| ==> vRandom[i] in before && vAddr[i] == before[vRandom[i]].addr
    ensures forall i :: 0 <= i < |vAddr| ==> vAddr[i].service.ip in mapAddr && mapAddr[vAddr[i].service.ip] == vRandom[i]
    ensures forall i, j :: 0 <= i < j < |vAddr| ==> vAddr[i].service.ip != vAddr[j].service.ip
  {
    forall i | 0 <= i < |vAddr| ensures vAddr[i].service.ip in mapAddr && mapAddr[vAddr[i].service.ip] == vRandom[i] {
      var id := vRandom[i];
      assert before[id].addr.service.ip in mapAddr;
    }
    forall i, j | 0 <= i < j < |vAddr| ensures vAddr[i].service.ip != vAddr[j].service.ip {
      assert info[vRandom[i]].nRandomPos == i && info[vRandom[j]].nRandomPos == j;
    }
  }

  lemma {:induction false} RefsAreHolders(info: Table, vvNew: seq<set<int>>, id: int)
    requires NewOk(info, vvNew, NONE) && id in info && !info[id].fInTried
    ensures info[id].nRefCount == Holders(vvNew, id, |vvNew|)
  {
  }

  lemma {:induction false} IndexKept(info: Table, id: int, e: AddrInfo, vRandom: seq<int>, mapAddr: map<NetAddr, int>, nIdCount: int)
    requires id in info && e.addr.service == info[id].addr.service && e.nRandomPos == info[id].nRandomPos
    requires RandomOk(info, vRandom) && AddrOk(info, mapAddr) && IdsOk(info, nIdCount)
    ensures RandomOk(info[id := e], vRandom) && AddrOk(info[id := e], mapAddr) && IdsOk(info[id := e], nIdCount)
  {
  }

  lemma {:induction false} SizeOfTried(info: Table, vvTried: seq<seq<int>>, bucketOf: Service -> nat)
    requires TriedOk(info, vvTried, bucketOf)
    ensures |vvTried| == TRIED_BUCKET_COUNT && forall k :: 0 <= k < |vvTried| ==> |vvTried[k]| <= TRIED_BUCKET_SIZE
  {
    forall k | 0 <= k < |vvTried| ensures |vvTried[k]| <= TRIED_BUCKET_SIZE {
      assert TriedBucketOk(info, vvTried[k], bucketOf, k);
    }
  }

  lemma {:induction false} TriedSame(info: Table, id: int, e: AddrInfo, vvTried: seq<seq<int>>, bucketOf: Service -> nat)
    requires TriedOk(info, vvTried, bucketOf) && id in info && !info[id].fInTried && !e.fInTried
    ensures TriedOk(info[id := e], vvTried, bucketOf)
  {
    TriedUnaffected(info, info[id := e], vvTried, bucketOf);
  }

  lemma {:induction false} InShuffled(s: seq<int>, t: seq<int>, pos: nat, id: int)
    requires multiset(s) == multiset(t) && pos < |t|
    ensures t[pos] in s
    ensures multiset(Put(t, pos, id)) == multiset(s) - multiset{t[pos]} + multiset{id}
  {
    assert t[pos] in multiset(t);
    assert t == t[..pos] + [t[pos]] + t[pos + 1..];
    assert Put(t, pos, id) == t[..pos] + [id] + t[pos + 1..];
  }

  lemma {:induction false} SameTableRefl(info: Table)
    ensures SameTable(info, info)
  {
  }

  lemma {:induction false} HasPosition(info: Table, vRandom: seq<int>, id: int)
    requires RandomOk(info, vRandom) && id in info
    ensures 0 <= info[id].nRandomPos < |vRandom| && vRandom[info[id].nRandomPos] == id
  {
  }

  /** Only the new table sees reference counts. */
  lemma {:induction false} RefChanged(info: Table, mapAddr: map<NetAddr, int>, vRandom: seq<int>, id: int, n: int, nIdCount: int,
                   vvTried: seq<seq<int>>, bucketOf: Service -> nat, nTried: int, nNew: int)
    requires RandomOk(info, vRandom) && AddrOk(info, mapAddr) && IdsOk(info, nIdCount)
    requires TriedOk(info, vvTried, bucketOf) && CountersOk(info, nTried, nNew)
    requires id in info
    ensures
      var info' := info[id := info[id].(nRefCount := n)];
      && RandomOk(info', vRandom) && AddrOk(info', mapAddr) && IdsOk(info', nIdCount)
      && TriedOk(info', vvTried, bucketOf) && CountersOk(info', nTried, nNew)
  {
    var e := info[id].(nRefCount := n);
    TriedUnaffected(info, info[id := e], vvTried, bucketOf);
    CountSame(info, id, e, nTried, nNew);
  }

  /** Without a new entry. */
  lemma {:induction false} Forgotten(info: Table, mapAddr: map<NetAddr, int>, id: int, nIdCount: int,
                  vvTried: seq<seq<int>>, bucketOf: Service -> nat, nTried: int, nNew: int)
    requires AddrOk(info, mapAddr) && IdsOk(info, nIdCount)
    requires TriedOk(info, vvTried, bucketOf) && CountersOk(info, nTried, nNew)
    requires id in info && !info[id].fInTried
    ensures
      && AddrOk(info - {id}, mapAddr - {info[id].addr.service.ip}) && IdsOk(info - {id}, nIdCount)
      && TriedOk(info - {id}, vvTried, bucketOf) && CountersOk(info - {id}, nTried, nNew - 1)
  {
    TriedUnaffected(info, info - {id}, vvTried, bucketOf);
    CountRemoved(info, id, nTried, nNew);
    AddrRemoved(info, mapAddr, id);
  }

  /** With a fresh entry that is about to be referenced. */
  lemma {:induction false} Created(info: Table, mapAddr: map<NetAddr, int>, vRandom: seq<int>, id: int, e: AddrInfo,
                vvNew: seq<set<int>>, vvTried: seq<seq<int>>, bucketOf: Service -> nat, nTried: int, nNew: int)
    requires RandomOk(info, vRandom) && AddrOk(info, mapAddr) && IdsOk(info, id) && NewOk(info, vvNew, NONE)
    requires TriedOk(info, vvTried, bucketOf) && CountersOk(info, nTried, nNew)
    requires e.addr.service.ip !in mapAddr && !e.fInTried && e.nRefCount == 0 && e.nRandomPos == |vRandom|
    ensures id !in info
    ensures var info' := info[id := e];
      && RandomOk(info', vRandom + [id]) && AddrOk(info', mapAddr[e.addr.service.ip := id]) && IdsOk(info', id + 1)
      && TriedOk(info', vvTried, bucketOf) && CountersOk(info', nTried, nNew + 1)
      && NewOk(info'[id := e.(nRefCount := 1)], vvNew, id)
    ensures forall b :: 0 <= b < |vvNew| ==> id !in vvNew[b]
  {
    RandomPushed(info, vRandom, id, e);
    AddrAdded(info, mapAddr, id, e);
    NewCreated(info, vvNew, id, e.(nRefCount := 1));
    assert info[id := e][id := e.(nRefCount := 1)] == info[id := e.(nRefCount := 1)];
    TriedUnaffected(info, info[id := e], vvTried, bucketOf);
    CountCreated(info, id, e, nTried, nNew);
  }

  /** After the swap the entry to forget is the last one of `vRandom`. */
  lemma {:induction false} MovedLast(lowered: Table, random: seq<int>, info: Table, vRandom: seq<int>, id: int)
    requires id in lowered
    requires RandomOk(lowered, random) && RandomOk(info, vRandom) && SameTable(lowered, info)
    requires 0 <= lowered[id].nRandomPos < |random| && random[lowered[id].nRandomPos] == id
    requires vRandom == SwapAt(random, lowered[id].nRandomPos, |random| - 1)
    ensures id in info && info[id].nRandomPos == |vRandom| - 1
    ensures info[id].addr == lowered[id].addr
    ensures SameTable(lowered - {id}, info - {id})
  {
    assert vRandom[|random| - 1] == id;
  }
}
