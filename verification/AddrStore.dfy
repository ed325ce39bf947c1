/** Saving the address manager to disk and loading it back. `vvTried`, `mapAddr` and `vRandom`
    are not written; loading rebuilds them. */
module AddrStore {
  import opened Common
  import opened AddrTables
  import opened AddrManager

  /** What the disk keeps of an entry. */
  datatype Record = Record(addr: Address, source: NetAddr, nLastSuccess: int, nAttempts: int)

  /** The file: the new entries, the tried entries, and for each new bucket the positions of its
      entries among the new ones. */
  datatype Saved = Saved(news: seq<Record>, trieds: seq<Record>, buckets: seq<seq<int>>)

  function RecordOf(info: AddrInfo): Record {
    Record(info.addr, info.source, info.nLastSuccess, info.nAttempts)
  }

  function Restored(r: Record, pos: int, tried: bool, refs: int): AddrInfo {
    AddrInfo(r.addr, r.source, r.nLastSuccess, 0, r.nAttempts, refs, tried, pos)
  }

  ghost function Members(s: seq<int>): set<int> {
    set x | x in s
  }

  ghost predicate Ascends(s: seq<int>) {
    forall i, j :: 0 <= i < j < |s| ==> s[i] < s[j]
  }

  //////////////////////////////////////////////////////////////////////////////
  // Saving
  //////////////////////////////////////////////////////////////////////////////

  /** `bucket` lists the positions in `ids` of the elements of `held`. */
  ghost predicate Ranks(held: set<int>, ids: seq<int>, bucket: seq<int>) {
    && |bucket| == |held|
    && (forall i, j :: 0 <= i < j < |bucket| ==> bucket[i] != bucket[j])
    && (forall i :: 0 <= i < |bucket| ==> 0 <= bucket[i] < |ids| && ids[bucket[i]] in held)
    && (forall p :: 0 <= p < |ids| && ids[p] in held ==> p in bucket)
  }

  /** `records` are the entries of `ids`, in ascending order of id. */
  ghost predicate Lists(info: Table, ids: seq<int>, records: seq<Record>, all: set<int>) {
    && Ascends(ids) && Members(ids) == all && |ids| == |records|
    && forall i :: 0 <= i < |ids| ==> ids[i] in info && records[i] == RecordOf(info[ids[i]])
  }

  ghost predicate SavedFrom(s: Saved, am: AddrMan, newIds: seq<int>, triedIds: seq<int>)
    reads am
  {
    && Lists(am.mapInfo, newIds, s.news, NewIds(am.mapInfo))
    && Lists(am.mapInfo, triedIds, s.trieds, TriedIds(am.mapInfo))
    && |s.buckets| == |am.vvNew| == NEW_BUCKET_COUNT
    && forall b :: 0 <= b < |s.buckets| ==> Ranks(am.vvNew[b], newIds, s.buckets[b])
  }

  lemma {:induction false} MembersSize(s: seq<int>)
    requires forall i, j :: 0 <= i < j < |s| ==> s[i] != s[j]
    ensures |Members(s)| == |s|
  {
    DistinctLength(s, Members(s));
  }

  lemma {:induction false} SubsetOfSameSize(a: set<int>, b: set<int>)
    requires a <= b && |a| == |b|
    ensures a == b
  {
    assert b == a + (b - a);
  }

  /** After `i` ids in ascending order, `ids` are those of the wanted kind, with their records and ranks. */
  ghost predicate Written(info: Table, order: seq<int>, all: set<int>, i: nat, ids: seq<int>, records: seq<Record>, ranks: map<int, int>) {
    && i <= |order| && |ids| == |records| && Ascends(ids)
    && (forall p :: 0 <= p < |ids| ==> ids[p] in info && records[p] == RecordOf(info[ids[p]]))
    && (forall p :: 0 <= p < |ids| ==> ids[p] in ranks && ranks[ids[p]] == p)
    && (forall p, m :: 0 <= p < |ids| && i <= m < |order| ==> ids[p] < order[m])
    && (forall p :: 0 <= p < |ids| ==> ids[p] in all)
    && (forall m :: 0 <= m < i && order[m] in all ==> order[m] in ids)
  }

  lemma {:induction false} WrittenMore(info: Table, order: seq<int>, all: set<int>, i: nat, ids: seq<int>, records: seq<Record>, ranks: map<int, int>)
    requires Written(info, order, all, i, ids, records, ranks) && i < |order| && Ascends(order) && order[i] in info
    ensures order[i] !in all ==> Written(info, order, all, i + 1, ids, records, ranks[order[i] := |records|])
    ensures order[i] in all ==>
      Written(info, order, all, i + 1, ids + [order[i]], records + [RecordOf(info[order[i]])], ranks[order[i] := |records|])
  {
    var more := ids + [order[i]];
    assert forall x :: x in ids ==> x in more;
    assert more[|ids|] == order[i];
  }

  lemma {:induction false} WrittenAll(info: Table, order: seq<int>, all: set<int>, i: nat, ids: seq<int>, records: seq<Record>, ranks: map<int, int>)
    requires Written(info, order, all, i, ids, records, ranks)
    requires i == |order| || |records| == |all|
    requires Members(order) >= all
    ensures Lists(info, ids, records, all)
  {
    MembersSize(ids);
    forall x | x in Members(ids) ensures x in all {
      var p :| 0 <= p < |ids| && ids[p] == x;
      assert ids[p] in all;
    }
    if |records| == |all| {
      SubsetOfSameSize(Members(ids), all);
    } else {
      forall x | x in all ensures x in Members(ids) {
        assert x in Members(order);
        var m :| 0 <= m < |order| && order[m] == x;
        assert order[m] in ids;
      }
    }
  }

  /** The loop of the writer over `mapInfo`: records of the entries of one kind, with their ranks.
      It stops once the expected number has been written. */
  method SaveKind(info: Table, order: seq<int>, tried: bool, count: nat, ghost all: set<int>)
    returns (records: seq<Record>, ranks: map<int, int>, ghost ids: seq<int>)
    requires Ascends(order) && Members(order) == info.Keys
    requires forall id :: id in info ==> (info[id].fInTried <==> info[id].nRefCount == 0)
    requires all == (set id | id in info && info[id].fInTried == tried) && count == |all|
    ensures Lists(info, ids, records, all)
    ensures forall p :: 0 <= p < |ids| ==> ids[p] in ranks && ranks[ids[p]] == p
  {
    hide Ascends, Lists, RecordOf;
    records, ranks, ids := [], map[], [];
    var i := 0;
    assert Written(info, order, all, 0, ids, records, ranks) by {
      NothingWritten(info, order, all);
    }
    while i < |order| && |records| != count
      invariant 0 <= i <= |order| && Written(info, order, all, i, ids, records, ranks)
    {
      hide Written;
      var id := order[i];
      assert id in Members(order);
      WrittenMore(info, order, all, i, ids, records, ranks);
      ranks := ranks[id := |records|];
      if (if tried then info[id].fInTried else info[id].nRefCount != 0) {
        records := records + [RecordOf(info[id])];
        ids := ids + [id];
      }
      i := i + 1;
    }
    WrittenAll(info, order, all, i, ids, records, ranks);
  }

  lemma {:induction false} NothingWritten(info: Table, order: seq<int>, all: set<int>)
    ensures Written(info, order, all, 0, [], [], map[])
  {
  }

  /** One new bucket as positions among the written new entries. */
  method SaveBucket(held: set<int>, ranks: map<int, int>, ghost ids: seq<int>) returns (bucket: seq<int>)
    requires held <= Members(ids)
    requires forall p :: 0 <= p < |ids| ==> ids[p] in ranks && ranks[ids[p]] == p
    ensures Ranks(held, ids, bucket)
  {
    var order := Ascending(held);
    bucket := [];
    var i := 0;
    while i < |order|
      invariant 0 <= i <= |order| && |bucket| == i
      invariant forall m :: 0 <= m < i ==> 0 <= bucket[m] < |ids| && ids[bucket[m]] == order[m]
    {
      var id := order[i];
      assert id in held;
      ghost var p :| 0 <= p < |ids| && ids[p] == id;
      bucket := bucket + [ranks[id]];
      i := i + 1;
    }
    forall p | 0 <= p < |ids| && ids[p] in held ensures p in bucket {
      var id := ids[p];
      assert id in order;
      var m :| 0 <= m < |order| && order[m] == id;
      assert ranks[ids[bucket[m]]] == bucket[m];
      assert bucket[m] == p;
    }
  }

  method Save(am: AddrMan) returns (s: Saved, ghost newIds: seq<int>, ghost triedIds: seq<int>)
    requires am.Valid()
    ensures SavedFrom(s, am, newIds, triedIds)
  {
    hide RandomOk, AddrOk, IdsOk, NewOk, TriedOk, Ranks;
    SizeOfNew(am.mapInfo, am.vvNew, NONE);
    var order := Ascending(am.mapInfo.Keys);
    OrderIsKeys(am.mapInfo, order);
    RefsTellKind(am.mapInfo, am.vvNew);
    var news, trieds, ranks, noRanks;
    news, ranks, newIds := SaveKind(am.mapInfo, order, false, am.nNew, NewIds(am.mapInfo));
    trieds, noRanks, triedIds := SaveKind(am.mapInfo, order, true, am.nTried, TriedIds(am.mapInfo));
    var buckets := [];
    var b := 0;
    while b < |am.vvNew|
      invariant 0 <= b <= |am.vvNew| && |buckets| == b
      invariant forall c :: 0 <= c < b ==> Ranks(am.vvNew[c], newIds, buckets[c])
    {
      HeldAreNew(am.mapInfo, am.vvNew, b);
      var bucket := SaveBucket(am.vvNew[b], ranks, newIds);
      buckets := buckets + [bucket];
      b := b + 1;
    }
    s := Saved(news, trieds, buckets);
  }

  lemma {:induction false} OrderIsKeys(info: Table, order: seq<int>)
    requires forall i :: 0 <= i < |order| ==> order[i] in info.Keys
    requires forall x :: x in info.Keys ==> x in order
    ensures Members(order) == info.Keys
  {
    forall x ensures x in Members(order) <==> x in info.Keys {
      if x in order {
        var i :| 0 <= i < |order| && order[i] == x;
        assert order[i] in info.Keys;
      }
    }
  }

  lemma {:induction false} RefsTellKind(info: Table, vvNew: seq<set<int>>)
    requires NewOk(info, vvNew, NONE)
    ensures forall id :: id in info ==> (info[id].fInTried <==> info[id].nRefCount == 0)
  {
  }

  lemma {:induction false} HeldAreNew(info: Table, vvNew: seq<set<int>>, b: nat)
    requires NewOk(info, vvNew, NONE) && b < |vvNew|
    ensures vvNew[b] <= NewIds(info)
  {
    forall id | id in vvNew[b] ensures id in NewIds(info) {
      HoldersZero(vvNew, id, |vvNew|);
    }
  }

  //////////////////////////////////////////////////////////////////////////////
  // What a file must be like to load without loss
  //////////////////////////////////////////////////////////////////////////////

  function All(s: Saved): seq<Record> {
    s.news + s.trieds
  }

  /** The new buckets the file describes. */
  ghost function Goal(s: Saved): seq<set<int>> {
    seq(|s.buckets|, b requires 0 <= b < |s.buckets| => Members(s.buckets[b]))
  }

  /** How many of the first `j` tried records belong to a tried bucket. */
  ghost function CountIn(trieds: seq<Record>, bucketOf: Service -> nat, k: nat, j: nat): nat
    requires j <= |trieds|
  {
    if j == 0 then 0
    else CountIn(trieds, bucketOf, k, j - 1) + (if bucketOf(trieds[j - 1].addr.service) % TRIED_BUCKET_COUNT == k then 1 else 0)
  }

  ghost predicate DistinctAddresses(records: seq<Record>) {
    forall i, j :: 0 <= i < j < |records| ==> records[i].addr.service.ip != records[j].addr.service.ip
  }

  /** Every bucket lists different new entries, and every new entry stands in one to four of them. */
  ghost predicate BucketsSound(s: Saved) {
    && |s.buckets| == NEW_BUCKET_COUNT
    && (forall b :: 0 <= b < |s.buckets| ==>
          && (forall i, j :: 0 <= i < j < |s.buckets[b]| ==> s.buckets[b][i] != s.buckets[b][j])
          && (forall i :: 0 <= i < |s.buckets[b]| ==> 0 <= s.buckets[b][i] < |s.news|))
    && (forall i :: 0 <= i < |s.news| ==> 1 <= Holders(Goal(s), i, |Goal(s)|) <= NEW_BUCKETS_PER_ADDRESS)
  }

  ghost predicate BucketsFit(s: Saved) {
    forall b :: 0 <= b < |s.buckets| ==> |s.buckets[b]| <= NEW_BUCKET_SIZE
  }

  ghost predicate TriedsFit(s: Saved, bucketOf: Service -> nat) {
    forall k :: 0 <= k < TRIED_BUCKET_COUNT ==> CountIn(s.trieds, bucketOf, k, |s.trieds|) <= TRIED_BUCKET_SIZE
  }

  ghost predicate Loadable(s: Saved, bucketOf: Service -> nat) {
    DistinctAddresses(All(s)) && TriedsFit(s, bucketOf) && BucketsSound(s) && BucketsFit(s)
  }

  //////////////////////////////////////////////////////////////////////////////
  // What is left of a file written with other parameters
  //////////////////////////////////////////////////////////////////////////////

  /** Of the first `n` tried records those that find room in their bucket. */
  ghost function Kept(trieds: seq<Record>, bucketOf: Service -> nat, n: nat): (kept: seq<Record>)
    requires n <= |trieds|
    ensures |kept| <= n
  {
    if n == 0 then []
    else
      var kept := Kept(trieds, bucketOf, n - 1);
      if CountIn(kept, bucketOf, bucketOf(trieds[n - 1].addr.service) % TRIED_BUCKET_COUNT, |kept|) < TRIED_BUCKET_SIZE
      then kept + [trieds[n - 1]] else kept
  }

  /** Of the first `n` new entries those that belong to a new bucket by their address and source. */
  ghost function Group(news: seq<Record>, newHash: (NetAddr, NetAddr) -> nat, b: nat, n: nat): (group: seq<int>)
    requires n <= |news|
  {
    if n == 0 then []
    else Group(news, newHash, b, n - 1) + if NewPlace(newHash, news[n - 1]) == b then [n - 1] else []
  }

  function NewPlace(newHash: (NetAddr, NetAddr) -> nat, r: Record): nat {
    newHash(r.addr.service.ip, r.source) % NEW_BUCKET_COUNT
  }

  /** What loading makes of a file: tried buckets keep what fits, and the new buckets are made again when the file has
      another number of them. */
  ghost function Effective(s: Saved, bucketOf: Service -> nat, newHash: (NetAddr, NetAddr) -> nat): Saved {
    Saved(s.news, Kept(s.trieds, bucketOf, |s.trieds|),
          if |s.buckets| == NEW_BUCKET_COUNT then s.buckets
          else seq(NEW_BUCKET_COUNT, b requires 0 <= b < NEW_BUCKET_COUNT => Group(s.news, newHash, b, |s.news|)))
  }

  /** Buckets that are not used still name known entries. */
  ghost predicate Listed(s: Saved, n: nat) {
    forall b, i :: 0 <= b < |s.buckets| && 0 <= i < |s.buckets[b]| ==> 0 <= s.buckets[b][i] < n
  }

  /** What is left has different addresses, and the buckets are those of new entries. */
  ghost predicate Consistent(s: Saved, e: Saved) {
    && DistinctAddresses(All(e))
    && if |s.buckets| == NEW_BUCKET_COUNT then BucketsSound(s) else Listed(s, |All(e)|)
  }

  lemma {:induction false} CountInPrefix(a: seq<Record>, b: seq<Record>, bucketOf: Service -> nat, k: nat, j: nat)
    requires j <= |a| && j <= |b| && a[..j] == b[..j]
    ensures CountIn(a, bucketOf, k, j) == CountIn(b, bucketOf, k, j)
  {
    if j > 0 {
      assert a[j - 1] == a[..j][j - 1] && b[j - 1] == b[..j][j - 1];
      assert a[..j - 1] == a[..j][..j - 1] && b[..j - 1] == b[..j][..j - 1];
      CountInPrefix(a, b, bucketOf, k, j - 1);
    }
  }

  lemma {:induction false} KeptPrefix(trieds: seq<Record>, bucketOf: Service -> nat, m: nat, n: nat)
    requires m <= n <= |trieds|
    ensures Kept(trieds, bucketOf, m) <= Kept(trieds, bucketOf, n)
    decreases n
  {
    if m < n {
      KeptPrefix(trieds, bucketOf, m, n - 1);
    }
  }

  lemma {:induction false} KeptNext(trieds: seq<Record>, bucketOf: Service -> nat, k: nat, n: nat)
    requires n < |trieds|
    ensures var kept, next := Kept(trieds, bucketOf, n), Kept(trieds, bucketOf, n + 1);
            var here := bucketOf(trieds[n].addr.service) % TRIED_BUCKET_COUNT;
            var room := CountIn(kept, bucketOf, here, |kept|) < TRIED_BUCKET_SIZE;
            && next == (if room then kept + [trieds[n]] else kept)
            && CountIn(next, bucketOf, k, |next|) == CountIn(kept, bucketOf, k, |kept|) + if room && k == here then 1 else 0
  {
    var kept := Kept(trieds, bucketOf, n);
    assert (kept + [trieds[n]])[..|kept|] == kept[..|kept|];
    CountInPrefix(kept + [trieds[n]], kept, bucketOf, k, |kept|);
  }

  /** Every tried bucket keeps all its records, or as many as fit. */
  lemma {:induction false} KeptCount(trieds: seq<Record>, bucketOf: Service -> nat, k: nat, n: nat)
    requires n <= |trieds| && k < TRIED_BUCKET_COUNT
    ensures var kept := Kept(trieds, bucketOf, n);
            CountIn(kept, bucketOf, k, |kept|) == Min(CountIn(trieds, bucketOf, k, n), TRIED_BUCKET_SIZE)
  {
    if n > 0 {
      KeptCount(trieds, bucketOf, k, n - 1);
      KeptNext(trieds, bucketOf, k, n - 1);
    }
  }

  lemma {:induction false} KeptAll(s: Saved, bucketOf: Service -> nat, n: nat)
    requires TriedsFit(s, bucketOf) && n <= |s.trieds|
    ensures Kept(s.trieds, bucketOf, n) == s.trieds[..n]
  {
    hide Kept;
    if n == 0 {
      NothingKept(s.trieds, bucketOf);
    } else {
      KeptAll(s, bucketOf, n - 1);
      var k := bucketOf(s.trieds[n - 1].addr.service) % TRIED_BUCKET_COUNT;
      KeptNext(s.trieds, bucketOf, k, n - 1);
      CountInPrefix(s.trieds[..n - 1], s.trieds, bucketOf, k, n - 1);
      CountInGrows(s.trieds, bucketOf, k, n, |s.trieds|);
      assert CountIn(s.trieds, bucketOf, k, n) == CountIn(s.trieds, bucketOf, k, n - 1) + 1;
      assert s.trieds[..n] == s.trieds[..n - 1] + [s.trieds[n - 1]];
    }
  }

  lemma {:induction false} NothingKept(trieds: seq<Record>, bucketOf: Service -> nat)
    ensures Kept(trieds, bucketOf, 0) == []
  {
  }

  /** A file that loads without loss is left as it is. */
  lemma {:induction false} LoadableIsKept(s: Saved, bucketOf: Service -> nat, newHash: (NetAddr, NetAddr) -> nat)
    requires Loadable(s, bucketOf)
    ensures Effective(s, bucketOf, newHash) == s && Consistent(s, s) && BucketsFit(s)
  {
    KeptAll(s, bucketOf, |s.trieds|);
    assert s.trieds[..|s.trieds|] == s.trieds;
  }

  lemma {:induction false} KeptFrom(trieds: seq<Record>, bucketOf: Service -> nat, n: nat, r: Record)
    requires n <= |trieds| && r in Kept(trieds, bucketOf, n)
    ensures r in trieds[..n]
  {
    if n > 0 {
      assert trieds[..n] == trieds[..n - 1] + [trieds[n - 1]];
      if r in Kept(trieds, bucketOf, n - 1) {
        KeptFrom(trieds, bucketOf, n - 1, r);
      }
    }
  }

  lemma {:induction false} KeptDistinct(s: Saved, bucketOf: Service -> nat, n: nat)
    requires DistinctAddresses(All(s)) && n <= |s.trieds|
    ensures DistinctAddresses(s.news + Kept(s.trieds, bucketOf, n))
  {
    hide Kept;
    if n == 0 {
      NothingKept(s.trieds, bucketOf);
      assert forall i :: 0 <= i < |s.news| ==> All(s)[i] == s.news[i];
    } else {
      KeptDistinct(s, bucketOf, n - 1);
      KeptNext(s.trieds, bucketOf, 0, n - 1);
      var r, before := s.trieds[n - 1], s.news + Kept(s.trieds, bucketOf, n - 1);
      forall i | 0 <= i < |before| ensures before[i].addr.service.ip != r.addr.service.ip {
        EarlierDiffers(s, bucketOf, n - 1, i);
      }
      assert s.news + (Kept(s.trieds, bucketOf, n - 1) + [r]) == before + [r];
    }
  }

  lemma {:induction false} EarlierDiffers(s: Saved, bucketOf: Service -> nat, n: nat, i: nat)
    requires DistinctAddresses(All(s)) && n < |s.trieds| && i < |s.news + Kept(s.trieds, bucketOf, n)|
    ensures (s.news + Kept(s.trieds, bucketOf, n))[i].addr.service.ip != s.trieds[n].addr.service.ip
  {
    hide Kept;
    var last := |s.news| + n;
    assert All(s)[last] == s.trieds[n];
    if i < |s.news| {
      assert All(s)[i] == s.news[i];
    } else {
      var r := Kept(s.trieds, bucketOf, n)[i - |s.news|];
      KeptFrom(s.trieds, bucketOf, n, r);
      var j :| 0 <= j < n && s.trieds[j] == r;
      assert All(s)[|s.news| + j] == r;
    }
  }

  /** A file whose addresses differ can be loaded when its buckets are sound or, if they are not used, name kept entries. */
  lemma {:induction false} DifferentIsConsistent(s: Saved, bucketOf: Service -> nat, newHash: (NetAddr, NetAddr) -> nat)
    requires DistinctAddresses(All(s))
    ensures var e := Effective(s, bucketOf, newHash);
            Consistent(s, e) <==> if |s.buckets| == NEW_BUCKET_COUNT then BucketsSound(s) else Listed(s, |All(e)|)
  {
    hide Kept, Group, BucketsSound;
    KeptDistinct(s, bucketOf, |s.trieds|);
  }

  lemma {:induction false} GroupIs(news: seq<Record>, newHash: (NetAddr, NetAddr) -> nat, b: nat, n: nat)
    requires n <= |news|
    ensures var group := Group(news, newHash, b, n);
            && (forall i :: i in group <==> 0 <= i < n && NewPlace(newHash, news[i]) == b)
            && (forall i, j :: 0 <= i < j < |group| ==> group[i] != group[j])
  {
    if n > 0 {
      GroupIs(news, newHash, b, n - 1);
    }
  }

  lemma {:induction false} HoldersOne(vvNew: seq<set<int>>, id: int, p: nat, k: nat)
    requires k <= |vvNew| && forall b :: 0 <= b < |vvNew| ==> (id in vvNew[b] <==> b == p)
    ensures Holders(vvNew, id, k) == if p < k then 1 else 0
  {
    if k > 0 {
      HoldersOne(vvNew, id, p, k - 1);
    }
  }

  lemma {:induction false} RegroupedBucket(s: Saved, e: Saved, bucketOf: Service -> nat, newHash: (NetAddr, NetAddr) -> nat, b: nat)
    requires |s.buckets| != NEW_BUCKET_COUNT && e == Effective(s, bucketOf, newHash) && b < NEW_BUCKET_COUNT
    ensures |e.buckets| == |Goal(e)| == NEW_BUCKET_COUNT && e.news == s.news
    ensures forall i, j :: 0 <= i < j < |e.buckets[b]| ==> e.buckets[b][i] != e.buckets[b][j]
    ensures forall i :: 0 <= i < |e.buckets[b]| ==> 0 <= e.buckets[b][i] < |e.news|
    ensures forall i :: i in Goal(e)[b] <==> 0 <= i < |e.news| && NewPlace(newHash, e.news[i]) == b
  {
    hide Kept;
    var group := Group(s.news, newHash, b, |s.news|);
    GroupIs(s.news, newHash, b, |s.news|);
    assert e.buckets[b] == group && Goal(e)[b] == Members(group);
    forall i, j | 0 <= i < j < |e.buckets[b]| ensures e.buckets[b][i] != e.buckets[b][j] {
      assert group[i] != group[j];
    }
    forall i | 0 <= i < |group| ensures 0 <= group[i] < |e.news| {
      assert group[i] in group;
    }
  }

  /** Buckets that are made again hold every new entry once. */
  lemma {:induction false} RegroupedSound(s: Saved, bucketOf: Service -> nat, newHash: (NetAddr, NetAddr) -> nat)
    requires |s.buckets| != NEW_BUCKET_COUNT
    ensures var e := Effective(s, bucketOf, newHash);
            && BucketsSound(e)
            && forall i :: 0 <= i < |e.news| ==> Holders(Goal(e), i, |Goal(e)|) == 1
  {
    var e := Effective(s, bucketOf, newHash);
    hide Effective, Goal, Holders, NewPlace;
    forall b | 0 <= b < NEW_BUCKET_COUNT
      ensures |e.buckets| == |Goal(e)| == NEW_BUCKET_COUNT
      ensures && (forall i, j :: 0 <= i < j < |e.buckets[b]| ==> e.buckets[b][i] != e.buckets[b][j])
              && (forall i :: 0 <= i < |e.buckets[b]| ==> 0 <= e.buckets[b][i] < |e.news|)
              && (forall i :: i in Goal(e)[b] <==> 0 <= i < |e.news| && NewPlace(newHash, e.news[i]) == b)
    {
      RegroupedBucket(s, e, bucketOf, newHash, b);
    }
    RegroupedBucket(s, e, bucketOf, newHash, 0);
    forall i | 0 <= i < |e.news| ensures Holders(Goal(e), i, |Goal(e)|) == 1 {
      InOneBucket(e, newHash, i);
    }
  }

  lemma {:induction false} InOneBucket(e: Saved, newHash: (NetAddr, NetAddr) -> nat, i: nat)
    requires |Goal(e)| == NEW_BUCKET_COUNT && i < |e.news|
    requires forall b :: 0 <= b < |Goal(e)| ==> (i in Goal(e)[b] <==> NewPlace(newHash, e.news[i]) == b)
    ensures Holders(Goal(e), i, |Goal(e)|) == 1
  {
    hide Goal, Holders;
    HoldersOne(Goal(e), i, NewPlace(newHash, e.news[i]), |Goal(e)|);
  }

  lemma {:induction false} EffectiveSound(s: Saved, e: Saved, bucketOf: Service -> nat, newHash: (NetAddr, NetAddr) -> nat)
    requires e == Effective(s, bucketOf, newHash) && Consistent(s, e)
    ensures BucketsSound(e) && DistinctAddresses(All(e)) && e.news == s.news
  {
    hide Kept, Group, Holders;
    if |s.buckets| != NEW_BUCKET_COUNT {
      RegroupedSound(s, bucketOf, newHash);
    } else {
      assert Goal(e) == Goal(s);
    }
  }

  //////////////////////////////////////////////////////////////////////////////
  // Loading
  //////////////////////////////////////////////////////////////////////////////

  /** The first `m` records have become the entries 0 to m - 1, new ones with the given number of references. */
  ghost predicate Entered(s: Saved, refs: int, m: nat, info: Table, mapAddr: map<NetAddr, int>, vRandom: seq<int>) {
    && m <= |All(s)|
    && (forall i :: i in info <==> 0 <= i < m)
    && (forall i :: 0 <= i < m ==> info[i] == EntryOf(s, refs, i))
    && |vRandom| == m && (forall i :: 0 <= i < m ==> vRandom[i] == i)
    && AddrOk(info, mapAddr)
  }

  ghost function EntryOf(s: Saved, refs: int, i: nat): AddrInfo
    requires i < |All(s)|
  {
    if i < |s.news| then Restored(s.news[i], i, false, refs) else Restored(All(s)[i], i, true, 0)
  }

  lemma {:induction false} EntryAddr(s: Saved, refs: int, i: nat)
    requires i < |All(s)|
    ensures EntryOf(s, refs, i).addr == All(s)[i].addr
  {
  }

  lemma {:induction false} EnteredMore(s: Saved, refs: int, m: nat, info: Table, mapAddr: map<NetAddr, int>, vRandom: seq<int>, e: AddrInfo)
    requires Entered(s, refs, m, info, mapAddr, vRandom) && m < |All(s)| && DistinctAddresses(All(s))
    requires e == EntryOf(s, refs, m)
    ensures m !in info && Entered(s, refs, m + 1, info[m := e], mapAddr[e.addr.service.ip := m], vRandom + [m])
  {
    forall a | a in mapAddr ensures a != e.addr.service.ip {
      var i := mapAddr[a];
      assert info[i] == EntryOf(s, refs, i);
      EntryAddr(s, refs, i);
      EntryAddr(s, refs, m);
    }
    AddrAdded(info, mapAddr, m, e);
  }

  lemma {:induction false} TriedAppended(info: Table, vv: seq<seq<int>>, bucketOf: Service -> nat, id: int, e: AddrInfo, k: nat)
    requires TriedOk(info, vv, bucketOf) && id !in info
    requires e.fInTried && k == bucketOf(e.addr.service) % TRIED_BUCKET_COUNT && |vv[k]| < TRIED_BUCKET_SIZE
    ensures TriedOk(info[id := e], vv[k := vv[k] + [id]], bucketOf)
  {
    var e0 := e.(fInTried := false);
    TriedUnaffected(info, info[id := e0], vv, bucketOf);
    TriedPushed(info[id := e0], vv, bucketOf, id, e, k);
    assert info[id := e0][id := e] == info[id := e];
  }

  ghost predicate TriedSizes(kept: seq<Record>, vv: seq<seq<int>>, bucketOf: Service -> nat) {
    |vv| == TRIED_BUCKET_COUNT && forall k :: 0 <= k < |vv| ==> |vv[k]| == CountIn(kept, bucketOf, k, |kept|)
  }

  lemma {:induction false} CountInGrows(trieds: seq<Record>, bucketOf: Service -> nat, k: nat, i: nat, j: nat)
    requires i <= j <= |trieds|
    ensures CountIn(trieds, bucketOf, k, i) <= CountIn(trieds, bucketOf, k, j)
    decreases j
  {
    if i < j {
      CountInGrows(trieds, bucketOf, k, i, j - 1);
    }
  }

  /** A tried record is kept exactly when its bucket has room. */
  lemma {:induction false} RoomForTried(trieds: seq<Record>, n: nat, vv: seq<seq<int>>, bucketOf: Service -> nat, id: int)
    requires n < |trieds| && TriedSizes(Kept(trieds, bucketOf, n), vv, bucketOf)
    ensures var k, kept, next := bucketOf(trieds[n].addr.service) % TRIED_BUCKET_COUNT, Kept(trieds, bucketOf, n), Kept(trieds, bucketOf, n + 1);
      if |vv[k]| < TRIED_BUCKET_SIZE then next == kept + [trieds[n]] && TriedSizes(next, vv[k := vv[k] + [id]], bucketOf)
      else next == kept
  {
    hide Kept, CountIn;
    var here := bucketOf(trieds[n].addr.service) % TRIED_BUCKET_COUNT;
    forall k | 0 <= k < TRIED_BUCKET_COUNT
      ensures var kept, next := Kept(trieds, bucketOf, n), Kept(trieds, bucketOf, n + 1);
              var room := |vv[here]| < TRIED_BUCKET_SIZE;
              && next == (if room then kept + [trieds[n]] else kept)
              && CountIn(next, bucketOf, k, |next|) == |vv[k]| + if room && k == here then 1 else 0
    {
      KeptNext(trieds, bucketOf, k, n);
    }
  }

  /** Entries with their references counted so far. */
  ghost predicate Referenced(s: Saved, info: Table, vvNew: seq<set<int>>) {
    && |vvNew| == NEW_BUCKET_COUNT
    && (forall i :: i in info <==> 0 <= i < |All(s)|)
    && (forall i :: 0 <= i < |s.news| ==> info[i] == Restored(s.news[i], i, false, Holders(vvNew, i, |vvNew|)))
    && (forall i :: |s.news| <= i < |All(s)| ==> info[i] == Restored(All(s)[i], i, true, 0))
  }

  /** Buckets before `b` are complete, bucket `b` holds its first `n` entries, the others are empty. */
  ghost predicate Filled(s: Saved, vvNew: seq<set<int>>, b: nat, n: nat) {
    && |vvNew| == |s.buckets|
    && (b < |s.buckets| ==> n <= |s.buckets[b]|)
    && forall c :: 0 <= c < |vvNew| ==>
         vvNew[c] == if c < b then Members(s.buckets[c]) else if c == b then Members(s.buckets[c][..n]) else {}
  }

  lemma {:induction false} HoldersFewer(v: seq<set<int>>, w: seq<set<int>>, id: int, b: nat, k: nat)
    requires |v| == |w| && b < |v| && k <= |v|
    requires forall c :: 0 <= c < |v| ==> v[c] <= w[c]
    requires id !in v[b] && id in w[b]
    ensures Holders(v, id, k) + (if b < k then 1 else 0) <= Holders(w, id, k)
  {
    if k > 0 {
      HoldersFewer(v, w, id, b, k - 1);
    }
  }

  lemma {:induction false} FilledMore(s: Saved, info: Table, vvNew: seq<set<int>>, b: nat, n: nat)
    requires BucketsSound(s) && Referenced(s, info, vvNew) && Filled(s, vvNew, b, n)
    requires b < |s.buckets| && n < |s.buckets[b]|
    ensures var x := s.buckets[b][n];
      && x in info && info[x].nRefCount < NEW_BUCKETS_PER_ADDRESS
      && Filled(s, vvNew[b := vvNew[b] + {x}], b, n + 1)
      && Referenced(s, info[x := info[x].(nRefCount := info[x].nRefCount + 1)], vvNew[b := vvNew[b] + {x}])
  {
    var x := s.buckets[b][n];
    var w := vvNew[b := vvNew[b] + {x}];
    var goal := Goal(s);
    assert x !in vvNew[b];
    assert s.buckets[b][..n + 1] == s.buckets[b][..n] + [x];
    assert Members(s.buckets[b][..n + 1]) == vvNew[b] + {x};
    assert x in s.buckets[b];
    forall c | 0 <= c < |goal| ensures vvNew[c] <= goal[c] {
    }
    HoldersFewer(vvNew, goal, x, b, |goal|);
    forall i | 0 <= i < |s.news| ensures Holders(w, i, |w|) == Holders(vvNew, i, |vvNew|) + (if i == x then 1 else 0) {
      HoldersUpdate(vvNew, b, vvNew[b] + {x}, i, |vvNew|);
    }
  }

  lemma {:induction false} NextBucket(s: Saved, vvNew: seq<set<int>>, b: nat)
    requires b < |s.buckets| && Filled(s, vvNew, b, |s.buckets[b]|)
    ensures Filled(s, vvNew, b + 1, 0)
  {
    assert s.buckets[b][..|s.buckets[b]|] == s.buckets[b];
  }

  ghost function Interval(lo: nat, hi: nat): (s: set<int>)
    requires lo <= hi
    ensures |s| == hi - lo
    ensures forall i :: i in s <==> lo <= i < hi
    decreases hi - lo
  {
    if lo == hi then {} else Interval(lo, hi - 1) + {hi - 1}
  }

  lemma {:induction false} SizesOfKinds(s: Saved, info: Table, vvNew: seq<set<int>>)
    requires Referenced(s, info, vvNew)
    ensures CountersOk(info, |s.trieds|, |s.news|)
  {
    forall i | i in info ensures info[i].fInTried <==> i >= |s.news| {
      assert 0 <= i < |All(s)|;
    }
    assert TriedIds(info) == Interval(|s.news|, |All(s)|);
    assert NewIds(info) == Interval(0, |s.news|);
  }

  lemma {:induction false} FilledIsGoal(s: Saved, vvNew: seq<set<int>>)
    requires Filled(s, vvNew, |s.buckets|, 0)
    ensures vvNew == Goal(s)
  {
  }

  /** The new buckets are right, except that they may hold too much. */
  lemma {:induction false} LoadedNewOk(s: Saved, info: Table, vvNew: seq<set<int>>)
    requires BucketsSound(s) && Referenced(s, info, vvNew) && vvNew == Goal(s)
    ensures NewOk(info, vvNew, NONE) <==> BucketsFit(s)
  {
    forall b | 0 <= b < |vvNew| ensures |vvNew[b]| == |s.buckets[b]| {
      MembersSize(s.buckets[b]);
    }
    forall b, id | 0 <= b < |vvNew| && id in vvNew[b] ensures 0 <= id < |s.news| {
      var i :| 0 <= i < |s.buckets[b]| && s.buckets[b][i] == id;
    }
    forall id | id in info && id >= |s.news| ensures Holders(vvNew, id, |vvNew|) == 0 {
      HoldersZero(vvNew, id, |vvNew|);
    }
  }

  /** The new buckets while they are made again. */
  ghost predicate Grouped(news: seq<Record>, newHash: (NetAddr, NetAddr) -> nat, n: nat, vvNew: seq<set<int>>)
    requires n <= |news|
  {
    |vvNew| == NEW_BUCKET_COUNT && forall b :: 0 <= b < |vvNew| ==> vvNew[b] == Members(Group(news, newHash, b, n))
  }

  lemma {:induction false} GroupedMore(news: seq<Record>, newHash: (NetAddr, NetAddr) -> nat, n: nat, vvNew: seq<set<int>>)
    requires n < |news| && Grouped(news, newHash, n, vvNew)
    ensures var b := NewPlace(newHash, news[n]);
            Grouped(news, newHash, n + 1, vvNew[b := vvNew[b] + {n}])
  {
    forall b | 0 <= b < |vvNew|
      ensures Members(Group(news, newHash, b, n + 1)) == vvNew[b] + if b == NewPlace(newHash, news[n]) then {n} else {}
    {
    }
  }

  lemma {:induction false} NothingGrouped(news: seq<Record>, newHash: (NetAddr, NetAddr) -> nat, vvNew: seq<set<int>>)
    requires vvNew == seq(NEW_BUCKET_COUNT, i => {})
    ensures Grouped(news, newHash, 0, vvNew)
  {
  }

  /** The references that a new entry gets with its record. */
  function FirstRefs(s: Saved): int {
    if |s.buckets| == NEW_BUCKET_COUNT then 0 else 1
  }

  method LoadNews(am: AddrMan, s: Saved, ghost e: Saved)
    requires e == Effective(s, am.triedHash, am.newHash)
    modifies am
    ensures DistinctAddresses(All(e)) ==> Entered(e, FirstRefs(s), |s.news|, am.mapInfo, am.mapAddr, am.vRandom)
    ensures if |s.buckets| == NEW_BUCKET_COUNT then am.vvNew == seq(NEW_BUCKET_COUNT, i => {})
            else Grouped(s.news, am.newHash, |s.news|, am.vvNew)
    ensures am.vvTried == seq(TRIED_BUCKET_COUNT, i => [])
  {
    hide Effective, Grouped, NewPlace;
    am.mapInfo := map[];
    am.mapAddr := map[];
    am.vRandom := [];
    am.vvTried := seq(TRIED_BUCKET_COUNT, i => []);
    am.vvNew := seq(NEW_BUCKET_COUNT, i => {});
    NothingGrouped(s.news, am.newHash, am.vvNew);
    ghost var ok := DistinctAddresses(All(e));
    SameNews(s, e, am.triedHash, am.newHash);
    var n := 0;
    while n < |s.news|
      invariant 0 <= n <= |s.news|
      invariant ok ==> Entered(e, FirstRefs(s), n, am.mapInfo, am.mapAddr, am.vRandom)
      invariant am.vvTried == seq(TRIED_BUCKET_COUNT, i => [])
      invariant if |s.buckets| == NEW_BUCKET_COUNT then am.vvNew == seq(NEW_BUCKET_COUNT, i => {})
                else Grouped(s.news, am.newHash, n, am.vvNew)
    {
      hide Entered, AddrOk, DistinctAddresses;
      var info := Restored(s.news[n], |am.vRandom|, false, 0);
      if ok {
        EnteredLength(e, FirstRefs(s), n, am.mapInfo, am.mapAddr, am.vRandom);
        EnteredMore(e, FirstRefs(s), n, am.mapInfo, am.mapAddr, am.vRandom, info.(nRefCount := FirstRefs(s)));
      }
      am.mapAddr := am.mapAddr[info.addr.service.ip := n];
      am.vRandom := am.vRandom + [n];
      if |s.buckets| != NEW_BUCKET_COUNT {
        var b := am.GetNewBucket(info, info.source);
        GroupedSize(s.news, am.newHash, n, am.vvNew);
        GroupedMore(s.news, am.newHash, n, am.vvNew);
        PlaceIs(am, s.news[n], info);
        am.vvNew := am.vvNew[b := am.vvNew[b] + {n}];
        info := info.(nRefCount := info.nRefCount + 1);
      }
      am.mapInfo := am.mapInfo[n := info];
      n := n + 1;
    }
  }

  lemma {:induction false} PlaceIs(am: AddrMan, r: Record, info: AddrInfo)
    requires info.addr == r.addr && info.source == r.source
    ensures am.GetNewBucket(info, info.source) == NewPlace(am.newHash, r)
  {
  }

  lemma {:induction false} GroupedSize(news: seq<Record>, newHash: (NetAddr, NetAddr) -> nat, n: nat, vvNew: seq<set<int>>)
    requires n <= |news| && Grouped(news, newHash, n, vvNew)
    ensures |vvNew| == NEW_BUCKET_COUNT
  {
  }

  lemma {:induction false} SameNews(s: Saved, e: Saved, bucketOf: Service -> nat, newHash: (NetAddr, NetAddr) -> nat)
    requires e == Effective(s, bucketOf, newHash)
    ensures e.news == s.news && e.trieds == Kept(s.trieds, bucketOf, |s.trieds|)
    ensures |s.buckets| == NEW_BUCKET_COUNT ==> e.buckets == s.buckets
  {
  }

  lemma {:induction false} EnteredLength(s: Saved, refs: int, m: nat, info: Table, mapAddr: map<NetAddr, int>, vRandom: seq<int>)
    requires Entered(s, refs, m, info, mapAddr, vRandom)
    ensures |vRandom| == m && m <= |All(s)|
  {
  }

  /** Returns how many tried entries found their bucket full. */
  method LoadTrieds(am: AddrMan, s: Saved, ghost e: Saved) returns (nLost: nat)
    requires e == Effective(s, am.triedHash, am.newHash)
    requires am.vvTried == seq(TRIED_BUCKET_COUNT, i => [])
    modifies am`nIdCount, am`mapInfo, am`mapAddr, am`vRandom, am`vvTried
    ensures |e.trieds| + nLost == |s.trieds| && am.nIdCount == |All(e)|
    ensures DistinctAddresses(All(e)) && old(Entered(e, FirstRefs(s), |s.news|, am.mapInfo, am.mapAddr, am.vRandom)) ==>
      && Entered(e, FirstRefs(s), |All(e)|, am.mapInfo, am.mapAddr, am.vRandom)
      && TriedOk(am.mapInfo, am.vvTried, am.triedHash)
  {
    hide Effective, Kept, Entered, TriedOk, TriedSizes, DistinctAddresses;
    ghost var refs := FirstRefs(s);
    ghost var ok := DistinctAddresses(All(e)) && Entered(e, refs, |s.news|, am.mapInfo, am.mapAddr, am.vRandom);
    SameNews(s, e, am.triedHash, am.newHash);
    am.nIdCount := |s.news|;
    nLost := 0;
    NoTriedYet(s.trieds, am.vvTried, am.triedHash);
    if ok {
      NoTriedEntered(e, refs, am.mapInfo, am.mapAddr, am.vRandom, am.vvTried, am.triedHash);
    }
    var n := 0;
    while n < |s.trieds|
      invariant 0 <= n <= |s.trieds| && |am.vvTried| == TRIED_BUCKET_COUNT
      invariant TriedSizes(Kept(s.trieds, am.triedHash, n), am.vvTried, am.triedHash)
      invariant |Kept(s.trieds, am.triedHash, n)| + nLost == n && am.nIdCount == |s.news| + (n - nLost)
      invariant ok ==> Entered(e, refs, am.nIdCount, am.mapInfo, am.mapAddr, am.vRandom)
      invariant ok ==> TriedOk(am.mapInfo, am.vvTried, am.triedHash)
    {
      var info := Restored(s.trieds[n], |am.vRandom|, true, 0);
      var k := am.GetTriedBucket(info);
      RoomForTried(s.trieds, n, am.vvTried, am.triedHash, am.nIdCount);
      if |am.vvTried[k]| < TRIED_BUCKET_SIZE {
        if ok {
          EnterTried(am, s, e, n, info, k);
        }
        am.vRandom := am.vRandom + [am.nIdCount];
        am.mapInfo := am.mapInfo[am.nIdCount := info];
        am.mapAddr := am.mapAddr[info.addr.service.ip := am.nIdCount];
        am.vvTried := am.vvTried[k := am.vvTried[k] + [am.nIdCount]];
        am.nIdCount := am.nIdCount + 1;
      } else {
        nLost := nLost + 1;
      }
      n := n + 1;
    }
  }

  /** A tried record that is kept becomes the next entry. */
  lemma {:induction false} EnterTried(am: AddrMan, s: Saved, e: Saved, n: nat, info: AddrInfo, k: nat)
    requires e == Effective(s, am.triedHash, am.newHash) && DistinctAddresses(All(e)) && n < |s.trieds|
    requires Kept(s.trieds, am.triedHash, n + 1) == Kept(s.trieds, am.triedHash, n) + [s.trieds[n]]
    requires am.nIdCount == |s.news| + |Kept(s.trieds, am.triedHash, n)|
    requires Entered(e, FirstRefs(s), am.nIdCount, am.mapInfo, am.mapAddr, am.vRandom) && TriedOk(am.mapInfo, am.vvTried, am.triedHash)
    requires info == Restored(s.trieds[n], |am.vRandom|, true, 0)
    requires k == am.GetTriedBucket(info) && k < |am.vvTried| && |am.vvTried[k]| < TRIED_BUCKET_SIZE
    ensures Entered(e, FirstRefs(s), am.nIdCount + 1, am.mapInfo[am.nIdCount := info],
                    am.mapAddr[info.addr.service.ip := am.nIdCount], am.vRandom + [am.nIdCount])
    ensures TriedOk(am.mapInfo[am.nIdCount := info], am.vvTried[k := am.vvTried[k] + [am.nIdCount]], am.triedHash)
  {
    hide Kept, Entered, TriedOk, DistinctAddresses;
    var m := |Kept(s.trieds, am.triedHash, n)|;
    SameNews(s, e, am.triedHash, am.newHash);
    KeptPrefix(s.trieds, am.triedHash, n + 1, |s.trieds|);
    assert e.trieds[m] == s.trieds[n];
    EnteredLength(e, FirstRefs(s), am.nIdCount, am.mapInfo, am.mapAddr, am.vRandom);
    EnteredMore(e, FirstRefs(s), am.nIdCount, am.mapInfo, am.mapAddr, am.vRandom, info);
    TriedAppended(am.mapInfo, am.vvTried, am.triedHash, am.nIdCount, info, k);
  }

  lemma {:induction false} NoTriedYet(trieds: seq<Record>, vv: seq<seq<int>>, bucketOf: Service -> nat)
    requires |vv| == TRIED_BUCKET_COUNT && forall k :: 0 <= k < |vv| ==> vv[k] == []
    ensures Kept(trieds, bucketOf, 0) == [] && TriedSizes([], vv, bucketOf)
  {
  }

  lemma {:induction false} NoTriedEntered(s: Saved, refs: int, info: Table, mapAddr: map<NetAddr, int>, vRandom: seq<int>, vv: seq<seq<int>>, bucketOf: Service -> nat)
    requires Entered(s, refs, |s.news|, info, mapAddr, vRandom)
    requires |vv| == TRIED_BUCKET_COUNT && forall k :: 0 <= k < |vv| ==> vv[k] == []
    ensures TriedOk(info, vv, bucketOf)
  {
    forall id | id in info ensures !info[id].fInTried {
      assert 0 <= id < |s.news|;
    }
  }

  /** An entry that no record described; indexing `mapInfo` creates it. */
  const BLANK: AddrInfo := AddrInfo(Address(Service(0, 0), {}, 100000000), 0, 0, 0, 0, 0, false, -1)

  method LoadBuckets(am: AddrMan, s: Saved, ghost e: Saved)
    requires |am.vvNew| == NEW_BUCKET_COUNT
    requires |s.buckets| == NEW_BUCKET_COUNT ==> am.vvNew == seq(NEW_BUCKET_COUNT, i => {}) && e.buckets == s.buckets
    modifies am`mapInfo, am`vvNew
    ensures |s.buckets| == NEW_BUCKET_COUNT && BucketsSound(e) && old(Referenced(e, am.mapInfo, am.vvNew)) ==>
      Referenced(e, am.mapInfo, am.vvNew) && Filled(e, am.vvNew, |s.buckets|, 0)
    ensures |s.buckets| != NEW_BUCKET_COUNT ==> am.vvNew == old(am.vvNew)
    ensures |s.buckets| != NEW_BUCKET_COUNT && Listed(s, |All(e)|) && old(Referenced(e, am.mapInfo, am.vvNew)) ==>
      am.mapInfo == old(am.mapInfo)
    ensures SameKinds(old(am.mapInfo), am.mapInfo)
  {
    ghost var same := |s.buckets| == NEW_BUCKET_COUNT;
    ghost var ok := same && BucketsSound(e) && Referenced(e, am.mapInfo, am.vvNew);
    ghost var listed := !same && Listed(s, |All(e)|) && Referenced(e, am.mapInfo, am.vvNew);
    ghost var before := am.mapInfo;
    if ok {
      assert Filled(e, am.vvNew, 0, 0);
    }
    var b := 0;
    while b < |s.buckets|
      invariant 0 <= b <= |s.buckets| && |am.vvNew| == NEW_BUCKET_COUNT
      invariant ok ==> Referenced(e, am.mapInfo, am.vvNew) && Filled(e, am.vvNew, b, 0)
      invariant !same ==> am.vvNew == old(am.vvNew)
      invariant listed ==> am.mapInfo == before
      invariant SameKinds(before, am.mapInfo)
    {
      hide Referenced, Filled, BucketsSound;
      var n := 0;
      while n < |s.buckets[b]|
        invariant 0 <= n <= |s.buckets[b]| && |am.vvNew| == NEW_BUCKET_COUNT
        invariant ok ==> Referenced(e, am.mapInfo, am.vvNew) && Filled(e, am.vvNew, b, n)
        invariant !same ==> am.vvNew == old(am.vvNew)
        invariant listed ==> am.mapInfo == before
        invariant SameKinds(before, am.mapInfo)
      {
        var nIndex := s.buckets[b][n];
        if ok {
          FilledMore(e, am.mapInfo, am.vvNew, b, n);
        }
        if listed {
          ReferencedKeys(e, am.mapInfo, am.vvNew);
        }
        if nIndex !in am.mapInfo {
          am.mapInfo := am.mapInfo[nIndex := BLANK];
        }
        var info := am.mapInfo[nIndex];
        if |s.buckets| == NEW_BUCKET_COUNT && info.nRefCount < NEW_BUCKETS_PER_ADDRESS {
          am.mapInfo := am.mapInfo[nIndex := info.(nRefCount := info.nRefCount + 1)];
          am.vvNew := am.vvNew[b := am.vvNew[b] + {nIndex}];
        }
        n := n + 1;
      }
      if ok {
        NextBucket(e, am.vvNew, b);
      }
      b := b + 1;
    }
  }

  lemma {:induction false} ReferencedKeys(s: Saved, info: Table, vvNew: seq<set<int>>)
    requires Referenced(s, info, vvNew)
    ensures forall i :: i in info <==> 0 <= i < |All(s)|
  {
  }

  /** Entries kept everything but their reference counts. */
  ghost predicate SameKinds(info: Table, info': Table) {
    forall id :: id in info ==> id in info' && SameButRefs(info[id], info'[id])
  }

  ghost predicate LoadedFrom(s: Saved, am: AddrMan)
    reads am
  {
    Referenced(s, am.mapInfo, am.vvNew) && am.vvNew == Goal(s)
  }

  /** Once the records are read, the references agree with the new buckets so far: none, or all of them. */
  lemma {:induction false} EnteredIsReferenced(s: Saved, refs: int, info: Table, mapAddr: map<NetAddr, int>, vRandom: seq<int>, vvNew: seq<set<int>>)
    requires Entered(s, refs, |All(s)|, info, mapAddr, vRandom)
    requires |vvNew| == NEW_BUCKET_COUNT && forall i :: 0 <= i < |s.news| ==> Holders(vvNew, i, |vvNew|) == refs
    ensures Referenced(s, info, vvNew)
  {
  }

  lemma {:induction false} StartReferenced(am: AddrMan, s: Saved, e: Saved)
    requires e == Effective(s, am.triedHash, am.newHash)
    requires Entered(e, FirstRefs(s), |All(e)|, am.mapInfo, am.mapAddr, am.vRandom)
    requires if |s.buckets| == NEW_BUCKET_COUNT then am.vvNew == seq(NEW_BUCKET_COUNT, i => {})
             else Grouped(s.news, am.newHash, |s.news|, am.vvNew)
    ensures Referenced(e, am.mapInfo, am.vvNew)
    ensures |s.buckets| != NEW_BUCKET_COUNT ==> am.vvNew == Goal(e)
  {
    hide Entered, Referenced, Kept, Group, Holders;
    if |s.buckets| == NEW_BUCKET_COUNT {
      forall i | 0 <= i < |e.news| ensures Holders(am.vvNew, i, |am.vvNew|) == 0 {
        HoldersZero(am.vvNew, i, |am.vvNew|);
      }
    } else {
      RegroupedSound(s, am.triedHash, am.newHash);
      assert am.vvNew == Goal(e);
    }
    EnteredIsReferenced(e, FirstRefs(s), am.mapInfo, am.mapAddr, am.vRandom, am.vvNew);
  }

  lemma {:induction false} SameButCounted(s: Saved, refs: int, i: nat, info: Table, vvNew: seq<set<int>>)
    requires Referenced(s, info, vvNew) && i < |All(s)|
    ensures i in info && info[i].nRandomPos == i && SameButRefs(EntryOf(s, refs, i), info[i])
  {
    hide Holders;
  }

  /** Counting references disturbs none of the other links. */
  lemma {:induction false} Relinked(s: Saved, refs: int, info: Table, info': Table, mapAddr: map<NetAddr, int>, vRandom: seq<int>,
                 vvNew: seq<set<int>>, vvTried: seq<seq<int>>, bucketOf: Service -> nat)
    requires Entered(s, refs, |All(s)|, info, mapAddr, vRandom) && TriedOk(info, vvTried, bucketOf)
    requires Referenced(s, info', vvNew)
    ensures RandomOk(info', vRandom) && AddrOk(info', mapAddr) && IdsOk(info', |All(s)|)
    ensures TriedOk(info', vvTried, bucketOf)
  {
    hide TriedOk, EntryOf, Holders;
    forall i | 0 <= i < |All(s)|
      ensures i in info && i in info' && info'[i].nRandomPos == i && info'[i].addr == info[i].addr && info'[i].fInTried == info[i].fInTried
    {
      assert info[i] == EntryOf(s, refs, i);
      SameButCounted(s, refs, i, info', vvNew);
    }
    TriedUnaffected(info, info', vvTried, bucketOf);
  }

  /** Loading any file whose kept records have different addresses. The state is that of the file as far as it is
      effective, and satisfies the invariant exactly when no new bucket holds too much. */
  method Load(am: AddrMan, s: Saved)
    modifies am
    ensures var e := Effective(s, am.triedHash, am.newHash);
            Consistent(s, e) ==> LoadedFrom(e, am) && (am.Valid() <==> BucketsFit(e))
  {
    hide Entered, Referenced, Filled, BucketsSound, RandomOk, AddrOk, IdsOk, NewOk, TriedOk, CountersOk, Goal, SameKinds, Effective, BucketsFit,
         Grouped, DistinctAddresses, Listed;
    ghost var e := Effective(s, am.triedHash, am.newHash);
    ghost var ok := Consistent(s, e);
    SameNews(s, e, am.triedHash, am.newHash);
    LoadNews(am, s, e);
    var nLost := LoadTrieds(am, s, e);
    am.nNew := |s.news|;
    am.nTried := |s.trieds| - nLost;
    ghost var entered := am.mapInfo;
    if ok {
      EffectiveSound(s, e, am.triedHash, am.newHash);
      StartReferenced(am, s, e);
    }
    if |s.buckets| != NEW_BUCKET_COUNT {
      GroupedSize(s.news, am.newHash, |s.news|, am.vvNew);
    }
    LoadBuckets(am, s, e);
    if ok {
      if |s.buckets| == NEW_BUCKET_COUNT {
        FilledIsGoal(e, am.vvNew);
      }
      Relinked(e, FirstRefs(s), entered, am.mapInfo, am.mapAddr, am.vRandom, am.vvNew, am.vvTried, am.triedHash);
      SizesOfKinds(e, am.mapInfo, am.vvNew);
      LoadedNewOk(e, am.mapInfo, am.vvNew);
    }
  }

  /** New entries with different addresses. */
  ghost function Crowd(n: nat): seq<Record> {
    seq(n, i requires 0 <= i < n => Record(Address(Service(i, 0), {}, 0), 0, 0, 0))
  }

  lemma {:induction false} WholeGroup(news: seq<Record>, b: nat, n: nat)
    requires n <= |news|
    ensures |Group(news, (x, y) => 0, b, n)| == if b == 0 then n else 0
  {
    if n > 0 {
      WholeGroup(news, b, n - 1);
    }
  }

  /** A file without buckets whose new entries all belong to one bucket fills it beyond its size. */
  lemma {:induction false} CrowdedBucket(bucketOf: Service -> nat, n: nat)
    ensures var s := Saved(Crowd(n), [], []);
            var e := Effective(s, bucketOf, (x, y) => 0);
            Consistent(s, e) && (BucketsFit(e) <==> n <= NEW_BUCKET_SIZE)
  {
    hide Group;
    var s := Saved(Crowd(n), [], []);
    var e := Effective(s, bucketOf, (x, y) => 0);
    DifferentIsConsistent(s, bucketOf, (x, y) => 0);
    forall b | 0 <= b < NEW_BUCKET_COUNT ensures |e.buckets[b]| == if b == 0 then n else 0 {
      WholeGroup(s.news, b, n);
    }
    assert |e.buckets[0]| == n;
  }

  //////////////////////////////////////////////////////////////////////////////
  // Save and load
  //////////////////////////////////////////////////////////////////////////////

  /** The second manager is the first with entry `ids[p]` renamed to `p`: the same stored data,
      kinds and reference counts, the same new buckets and the same tried buckets, with nothing lost. */
  ghost predicate Renamed(a: AddrMan, b: AddrMan, ids: seq<int>)
    reads a, b
  {
    && |a.vvNew| == |b.vvNew| == NEW_BUCKET_COUNT && |a.vvTried| == |b.vvTried| == TRIED_BUCKET_COUNT
    && (forall p, q :: 0 <= p < q < |ids| ==> ids[p] != ids[q])
    && (forall id :: id in a.mapInfo <==> id in ids)
    && (forall p :: p in b.mapInfo <==> 0 <= p < |ids|)
    && (forall p :: 0 <= p < |ids| ==> Matches(a.mapInfo[ids[p]], b.mapInfo[p]))
    && (forall n, p :: 0 <= n < NEW_BUCKET_COUNT && 0 <= p < |ids| ==> (ids[p] in a.vvNew[n] <==> p in b.vvNew[n]))
    && (forall k, p :: 0 <= k < TRIED_BUCKET_COUNT && 0 <= p < |ids| ==> (ids[p] in a.vvTried[k] <==> p in b.vvTried[k]))
  }

  /** The same entry, except that the file does not keep the time of the last try. */
  ghost predicate Matches(a: AddrInfo, b: AddrInfo) {
    && a.addr == b.addr && a.source == b.source && a.nLastSuccess == b.nLastSuccess && a.nAttempts == b.nAttempts
    && a.fInTried == b.fInTried && a.nRefCount == b.nRefCount && b.nLastTry == 0
  }

  lemma {:induction false} SavedAddressesDiffer(s: Saved, info: Table, mapAddr: map<NetAddr, int>, newIds: seq<int>, triedIds: seq<int>)
    requires AddrOk(info, mapAddr)
    requires Lists(info, newIds, s.news, NewIds(info)) && Lists(info, triedIds, s.trieds, TriedIds(info))
    ensures DistinctAddresses(All(s))
  {
    var ids := newIds + triedIds;
    forall i | 0 <= i < |ids| ensures ids[i] in info && All(s)[i] == RecordOf(info[ids[i]]) {
    }
    forall i, j | 0 <= i < j < |ids| ensures ids[i] != ids[j] {
      if i < |newIds| <= j {
        assert ids[i] in Members(newIds) && ids[j] in Members(triedIds);
      }
    }
  }

  lemma {:induction false} CountInIsSet(s: Saved, info: Table, bucketOf: Service -> nat, triedIds: seq<int>, k: nat, j: nat, found: set<int>)
    requires j <= |triedIds| == |s.trieds| && Ascends(triedIds)
    requires forall i :: 0 <= i < |triedIds| ==> triedIds[i] in info && s.trieds[i] == RecordOf(info[triedIds[i]])
    requires found == set x | x in triedIds[..j] && bucketOf(info[x].addr.service) % TRIED_BUCKET_COUNT == k
    ensures CountIn(s.trieds, bucketOf, k, j) == |found|
  {
    if j > 0 {
      var x := triedIds[j - 1];
      assert triedIds[..j] == triedIds[..j - 1] + [x];
      assert x !in triedIds[..j - 1];
      CountInIsSet(s, info, bucketOf, triedIds, k, j - 1, found - {x});
    } else {
      assert found == {};
    }
  }

  lemma {:induction false} InTriedBucket(info: Table, vv: seq<seq<int>>, bucketOf: Service -> nat, k: nat, id: int)
    requires TriedOk(info, vv, bucketOf) && k < |vv|
    ensures id in vv[k] <==> id in info && info[id].fInTried && bucketOf(info[id].addr.service) % TRIED_BUCKET_COUNT == k
  {
    BucketsAreRight(info, vv, bucketOf);
  }

  /** As many tried records per bucket as the bucket had entries. */
  lemma {:induction false} TriedFit(s: Saved, info: Table, bucketOf: Service -> nat, vv: seq<seq<int>>, triedIds: seq<int>, k: nat)
    requires TriedOk(info, vv, bucketOf) && k < TRIED_BUCKET_COUNT
    requires Lists(info, triedIds, s.trieds, TriedIds(info))
    ensures CountIn(s.trieds, bucketOf, k, |s.trieds|) <= TRIED_BUCKET_SIZE
  {
    var found := set x | x in triedIds && bucketOf(info[x].addr.service) % TRIED_BUCKET_COUNT == k;
    assert triedIds[..|triedIds|] == triedIds;
    CountInIsSet(s, info, bucketOf, triedIds, k, |triedIds|, found);
    forall x | x in found ensures x in Members(vv[k]) {
      assert x in Members(triedIds);
      InTriedBucket(info, vv, bucketOf, k, x);
    }
    assert TriedBucketOk(info, vv[k], bucketOf, k);
    MembersSize(vv[k]);
    SubsetSize(found, Members(vv[k]));
  }

  lemma {:induction false} SubsetSize(a: set<int>, b: set<int>)
    requires a <= b
    ensures |a| <= |b|
  {
    assert b == a + (b - a);
  }

  lemma {:induction false} HoldersOfRank(s: Saved, vvNew: seq<set<int>>, newIds: seq<int>, p: nat, k: nat)
    requires k <= |s.buckets| == |vvNew| && p < |newIds|
    requires forall b :: 0 <= b < |s.buckets| ==> Ranks(vvNew[b], newIds, s.buckets[b])
    requires Ascends(newIds)
    ensures Holders(Goal(s), p, k) == Holders(vvNew, newIds[p], k)
  {
    if k > 0 {
      HoldersOfRank(s, vvNew, newIds, p, k - 1);
      RankInBucket(vvNew[k - 1], newIds, s.buckets[k - 1], p);
    }
  }

  lemma {:induction false} RankInBucket(held: set<int>, ids: seq<int>, bucket: seq<int>, p: nat)
    requires Ranks(held, ids, bucket) && p < |ids| && Ascends(ids)
    ensures p in Members(bucket) <==> ids[p] in held
  {
    if p in bucket {
      var i :| 0 <= i < |bucket| && bucket[i] == p;
    }
  }

  /** What is written for any valid manager loads without loss. */
  lemma {:induction false} SavedIsLoadable(s: Saved, am: AddrMan, newIds: seq<int>, triedIds: seq<int>)
    requires am.Valid() && SavedFrom(s, am, newIds, triedIds)
    ensures Loadable(s, am.triedHash)
  {
    hide Goal, RandomOk, AddrOk, TriedOk, Lists, Holders;
    SavedAddressesDiffer(s, am.mapInfo, am.mapAddr, newIds, triedIds);
    forall k | 0 <= k < TRIED_BUCKET_COUNT ensures CountIn(s.trieds, am.triedHash, k, |s.trieds|) <= TRIED_BUCKET_SIZE {
      TriedFit(s, am.mapInfo, am.triedHash, am.vvTried, triedIds, k);
    }
    ListsOnly(am.mapInfo, newIds, s.news, false);
    GoalSize(s);
    forall i | 0 <= i < |s.news| ensures 1 <= Holders(Goal(s), i, |Goal(s)|) <= NEW_BUCKETS_PER_ADDRESS {
      HoldersOfRank(s, am.vvNew, newIds, i, |s.buckets|);
      var id := newIds[i];
      assert RefOk(am.mapInfo[id], Holders(am.vvNew, id, |am.vvNew|));
    }
  }

  lemma {:induction false} GoalSize(s: Saved)
    ensures |Goal(s)| == |s.buckets|
  {
  }

  lemma {:induction false} ListsOnly(info: Table, ids: seq<int>, records: seq<Record>, tried: bool)
    requires Lists(info, ids, records, if tried then TriedIds(info) else NewIds(info))
    ensures Ascends(ids) && |ids| == |records|
    ensures forall i :: 0 <= i < |ids| ==> ids[i] in info && info[ids[i]].fInTried == tried && records[i] == RecordOf(info[ids[i]])
  {
    forall i | 0 <= i < |ids| ensures info[ids[i]].fInTried == tried {
      assert ids[i] in Members(ids);
    }
  }

  /** Save, then load into a fresh manager with the same bucket key. */
  method Reload(am: AddrMan) returns (loaded: AddrMan, ghost ids: seq<int>)
    requires am.Valid()
    ensures fresh(loaded) && loaded.Valid()
    ensures Renamed(am, loaded, ids)
    ensures TimesOk(am.mapInfo) ==> TimesOk(loaded.mapInfo)
  {
    hide RandomOk, AddrOk, IdsOk, NewOk, TriedOk, CountersOk, SavedFrom, Loadable, LoadedFrom, Renamed, TimesOk;
    var s; ghost var newIds, triedIds;
    s, newIds, triedIds := Save(am);
    SavedIsLoadable(s, am, newIds, triedIds);
    loaded := new AddrMan(am.triedHash, am.newHash, am.routable);
    LoadableIsKept(s, loaded.triedHash, loaded.newHash);
    Load(loaded, s);
    ids := newIds + triedIds;
    ReloadedIsRenamed(s, am, loaded, newIds, triedIds);
    TimesKept(am, loaded, ids);
  }

  lemma {:induction false} TimesKept(am: AddrMan, loaded: AddrMan, ids: seq<int>)
    requires Renamed(am, loaded, ids)
    ensures TimesOk(am.mapInfo) ==> TimesOk(loaded.mapInfo)
  {
    if TimesOk(am.mapInfo) {
      forall p | p in loaded.mapInfo
        ensures (loaded.mapInfo[p].fInTried ==> loaded.mapInfo[p].nLastSuccess != 0)
                && loaded.mapInfo[p].nLastTry >= 0 && loaded.mapInfo[p].nLastSuccess >= 0
      {
        var id := ids[p];
        assert id in ids;
        assert id in am.mapInfo && Matches(am.mapInfo[ids[p]], loaded.mapInfo[p]);
      }
    }
  }

  lemma {:induction false} ReloadedIsRenamed(s: Saved, am: AddrMan, loaded: AddrMan, newIds: seq<int>, triedIds: seq<int>)
    requires am.Valid() && loaded.Valid() && am.triedHash == loaded.triedHash
    requires SavedFrom(s, am, newIds, triedIds) && LoadedFrom(s, loaded)
    ensures Renamed(am, loaded, newIds + triedIds)
  {
    hide RandomOk, AddrOk, IdsOk, NewOk, TriedOk, CountersOk;
    var ids := newIds + triedIds;
    SizeOfNew(am.mapInfo, am.vvNew, NONE);
    SizeOfTried(am.mapInfo, am.vvTried, am.triedHash);
    SizeOfTried(loaded.mapInfo, loaded.vvTried, loaded.triedHash);
    IdsEnumerate(s, am.mapInfo, newIds, triedIds);
    assert |All(s)| == |ids|;
    forall p | 0 <= p < |ids| ensures Matches(am.mapInfo[ids[p]], loaded.mapInfo[p]) {
      EntryMatches(s, am, loaded, newIds, triedIds, p);
    }
    forall n, p | 0 <= n < NEW_BUCKET_COUNT && 0 <= p < |ids| ensures ids[p] in am.vvNew[n] <==> p in loaded.vvNew[n] {
      BucketMatches(s, am, loaded, newIds, triedIds, n, p);
    }
    forall k, p | 0 <= k < TRIED_BUCKET_COUNT && 0 <= p < |ids| ensures ids[p] in am.vvTried[k] <==> p in loaded.vvTried[k] {
      EntryMatches(s, am, loaded, newIds, triedIds, p);
      InTriedBucket(am.mapInfo, am.vvTried, am.triedHash, k, ids[p]);
      InTriedBucket(loaded.mapInfo, loaded.vvTried, loaded.triedHash, k, p);
    }
  }

  lemma {:induction false} IdsEnumerate(s: Saved, info: Table, newIds: seq<int>, triedIds: seq<int>)
    requires Lists(info, newIds, s.news, NewIds(info)) && Lists(info, triedIds, s.trieds, TriedIds(info))
    ensures var ids := newIds + triedIds;
      && |ids| == |All(s)|
      && (forall p, q :: 0 <= p < q < |ids| ==> ids[p] != ids[q])
      && (forall id :: id in info <==> id in ids)
  {
    var ids := newIds + triedIds;
    forall p, q | 0 <= p < q < |ids| ensures ids[p] != ids[q] {
      if p < |newIds| <= q {
        assert ids[p] in Members(newIds) && ids[q] in Members(triedIds);
      }
    }
    forall id ensures id in info <==> id in ids {
      if id in info {
        assert id in NewIds(info) || id in TriedIds(info);
        assert id in Members(newIds) || id in Members(triedIds);
      } else {
        assert id !in Members(newIds) && id !in Members(triedIds);
      }
    }
  }

  lemma {:induction false} EntryMatches(s: Saved, am: AddrMan, loaded: AddrMan, newIds: seq<int>, triedIds: seq<int>, p: nat)
    requires am.Valid() && SavedFrom(s, am, newIds, triedIds) && LoadedFrom(s, loaded)
    requires p < |newIds + triedIds|
    ensures (newIds + triedIds)[p] in am.mapInfo && p in loaded.mapInfo
    ensures Matches(am.mapInfo[(newIds + triedIds)[p]], loaded.mapInfo[p])
  {
    hide RandomOk, AddrOk, IdsOk, TriedOk, CountersOk, Holders, Goal, Lists, Ranks;
    ListsOnly(am.mapInfo, newIds, s.news, false);
    ListsOnly(am.mapInfo, triedIds, s.trieds, true);
    var id := (newIds + triedIds)[p];
    assert RefOk(am.mapInfo[id], Holders(am.vvNew, id, |am.vvNew|));
    if p < |newIds| {
      HoldersOfRank(s, am.vvNew, newIds, p, |s.buckets|);
      assert loaded.mapInfo[p] == Restored(s.news[p], p, false, Holders(loaded.vvNew, p, |loaded.vvNew|));
    } else {
      assert loaded.mapInfo[p] == Restored(All(s)[p], p, true, 0);
    }
  }

  lemma {:induction false} BucketMatches(s: Saved, am: AddrMan, loaded: AddrMan, newIds: seq<int>, triedIds: seq<int>, n: nat, p: nat)
    requires am.Valid() && loaded.Valid() && SavedFrom(s, am, newIds, triedIds) && LoadedFrom(s, loaded)
    requires n < NEW_BUCKET_COUNT && p < |newIds + triedIds|
    ensures (newIds + triedIds)[p] in am.vvNew[n] <==> p in loaded.vvNew[n]
  {
    ListsOnly(am.mapInfo, newIds, s.news, false);
    ListsOnly(am.mapInfo, triedIds, s.trieds, true);
    assert loaded.vvNew[n] == Members(s.buckets[n]);
    if p < |newIds| {
      RankInBucket(am.vvNew[n], newIds, s.buckets[n], p);
    } else {
      HeldAreNew(am.mapInfo, am.vvNew, n);
      HeldAreNew(loaded.mapInfo, loaded.vvNew, n);
      assert loaded.mapInfo[p] == Restored(All(s)[p], p, true, 0);
    }
  }
}
