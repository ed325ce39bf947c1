/** The median time past of a block and the timestamp rule of `AcceptBlock`. */
module MedianTime {

  const nMedianTimeSpan: nat := 11

  /** The times of a block and of up to ten blocks before it; block times are listed from genesis on. */
  function Window(times: seq<int>, k: nat): (w: seq<int>)
    requires k < |times|
    ensures |w| == if k < 11 then k + 1 else 11
    ensures forall i :: 0 <= i < |w| ==> w[i] == times[k + 1 - |w| + i]
  {
    if k < nMedianTimeSpan then times[..k + 1] else times[k + 1 - nMedianTimeSpan..k + 1]
  }

  //////////////////////////////////////////////////////////////////////////////
  // Sorting and counting
  //////////////////////////////////////////////////////////////////////////////

  ghost predicate Sorted(s: seq<int>) {
    forall i, j :: 0 <= i < j < |s| ==> s[i] <= s[j]
  }

  /** How many of the times are below v. */
  function Below(s: seq<int>, v: int): (n: nat)
    ensures n <= |s|
  {
    if s == [] then 0 else (if s[0] < v then 1 else 0) + Below(s[1..], v)
  }

  function Insert(s: seq<int>, x: int): (r: seq<int>)
    ensures |r| == |s| + 1
  {
    if s == [] || x <= s[0] then [x] + s else [s[0]] + Insert(s[1..], x)
  }

  /** `std::sort`. */
  function Sort(s: seq<int>): (r: seq<int>)
    ensures |r| == |s|
  {
    if s == [] then [] else Insert(Sort(s[1..]), s[0])
  }

  lemma {:induction false} InsertSorts(s: seq<int>, x: int)
    requires Sorted(s)
    ensures Sorted(Insert(s, x))
    ensures forall i :: 0 <= i < |s| + 1 ==> Insert(s, x)[i] == x || Insert(s, x)[i] in s
  {
    if s != [] && x > s[0] {
      InsertSorts(s[1..], x);
    }
  }

  lemma {:induction false} InsertPermutes(s: seq<int>, x: int)
    ensures multiset(Insert(s, x)) == multiset(s) + multiset{x}
  {
    if s != [] && x > s[0] {
      InsertPermutes(s[1..], x);
      assert s == [s[0]] + s[1..];
    }
  }

  lemma {:induction false} InsertCounts(s: seq<int>, x: int, v: int)
    ensures Below(Insert(s, x), v) == Below(s, v) + (if x < v then 1 else 0)
  {
    if s == [] || x <= s[0] {
      assert ([x] + s)[1..] == s;
    } else {
      InsertCounts(s[1..], x, v);
      assert Insert(s, x)[1..] == Insert(s[1..], x);
    }
  }

  lemma {:induction false} SortSorts(s: seq<int>, v: int)
    ensures Sorted(Sort(s)) && multiset(Sort(s)) == multiset(s)
    ensures Below(Sort(s), v) == Below(s, v)
  {
    if s != [] {
      SortSorts(s[1..], v);
      InsertSorts(Sort(s[1..]), s[0]);
      InsertPermutes(Sort(s[1..]), s[0]);
      InsertCounts(Sort(s[1..]), s[0], v);
      assert s == [s[0]] + s[1..];
    }
  }

  /** In sorted order, place i is at least v exactly when at most i times are below v. */
  lemma {:induction false} SortedCount(s: seq<int>, i: nat, v: int)
    requires Sorted(s) && i < |s|
    ensures s[i] >= v <==> Below(s, v) <= i
  {
    if s[0] >= v {
      NoneBelow(s, v);
    } else if i > 0 {
      SortedCount(s[1..], i - 1, v);
    }
  }

  lemma {:induction false} NoneBelow(s: seq<int>, v: int)
    requires forall i :: 0 <= i < |s| ==> s[i] >= v
    ensures Below(s, v) == 0
  {
    if s != [] {
      NoneBelow(s[1..], v);
    }
  }

  lemma {:induction false} BelowConcat(a: seq<int>, b: seq<int>, v: int)
    ensures Below(a + b, v) == Below(a, v) + Below(b, v)
  {
    if a == [] {
      assert a + b == b;
    } else {
      assert (a + b)[1..] == a[1..] + b;
      BelowConcat(a[1..], b, v);
    }
  }

  //////////////////////////////////////////////////////////////////////////////
  // The median
  //////////////////////////////////////////////////////////////////////////////

  function Median(w: seq<int>): int
    requires w != []
  {
    Sort(w)[|w| / 2]
  }

  /** The median is one of the times and splits them: it is at least v exactly when at most half
      of the times are below v. */
  lemma {:induction false} MedianSplits(w: seq<int>, v: int)
    requires w != []
    ensures Median(w) >= v <==> Below(w, v) <= |w| / 2
    ensures Median(w) in w
  {
    SortSorts(w, v);
    SortedCount(Sort(w), |w| / 2, v);
    assert Median(w) in multiset(Sort(w));
  }

  function MedianTimePast(times: seq<int>, k: nat): int
    requires k < |times|
  {
    Median(Window(times, k))
  }

  /** `CBlockIndex::GetMedianTimePast`. */
  method GetMedianTimePast(times: seq<int>, k: nat) returns (m: int)
    requires k < |times|
    ensures m == MedianTimePast(times, k)
    ensures forall v :: m >= v <==> Below(Window(times, k), v) <= |Window(times, k)| / 2
  {
    var pmedian := new int[nMedianTimeSpan];
    var pbegin := FillWindow(pmedian, times, k);
    var sorted := Sort(pmedian[pbegin..]);
    m := sorted[(nMedianTimeSpan - pbegin) / 2];
    MiddleOf(Window(times, k));
  }

  /** The buffer is filled from its end, walking back. */
  method FillWindow(pmedian: array<int>, times: seq<int>, k: nat) returns (pbegin: nat)
    requires k < |times| && pmedian.Length == nMedianTimeSpan
    modifies pmedian
    ensures pbegin <= nMedianTimeSpan && pmedian[pbegin..] == Window(times, k)
  {
    pbegin := nMedianTimeSpan;
    var pindex: int := k;
    var i := 0;
    while i < nMedianTimeSpan && pindex >= 0
      invariant 0 <= i <= nMedianTimeSpan && pindex == k - i >= -1 && pbegin == nMedianTimeSpan - i
      invariant pmedian[pbegin..] == times[pindex + 1..k + 1]
    {
      ghost var filled := pmedian[pbegin..];
      pbegin := pbegin - 1;
      pmedian[pbegin] := times[pindex];
      assert pmedian[pbegin..] == [times[pindex]] + filled;
      i, pindex := i + 1, pindex - 1;
    }
  }

  lemma {:induction false} MiddleOf(w: seq<int>)
    requires w != []
    ensures forall v :: Median(w) >= v <==> Below(w, v) <= |w| / 2
  {
    forall v ensures Median(w) >= v <==> Below(w, v) <= |w| / 2 {
      MedianSplits(w, v);
    }
  }

  //////////////////////////////////////////////////////////////////////////////
  // The timestamp rule
  //////////////////////////////////////////////////////////////////////////////

  function GetPastTimeLimit(times: seq<int>, k: nat, nFirstPosv2Block: int): int
    requires k < |times|
  {
    if k > nFirstPosv2Block then times[k] else MedianTimePast(times, k)
  }

  function FutureDrift(nTime: int, nHeight: int, nFirstPosv2Block: int): int {
    if nHeight > nFirstPosv2Block then nTime + 15 else nTime + 10 * 60
  }

  /** The check that `AcceptBlock` makes of block k against the block before it. */
  predicate TimeAccepted(times: seq<int>, k: nat, nFirstPosv2Block: int)
    requires 0 < k < |times|
  {
    && times[k] > GetPastTimeLimit(times, k - 1, nFirstPosv2Block)
    && FutureDrift(times[k], k, nFirstPosv2Block) >= times[k - 1]
  }

  ghost predicate Accepted(times: seq<int>, nFirstPosv2Block: int) {
    forall k :: 0 < k < |times| ==> TimeAccepted(times, k, nFirstPosv2Block)
  }

  /** The rule in figures. Under V2 a block is accepted exactly when it is later than the block before it; the first V2 block
      when it is later than the median and at most 15 seconds before; and earlier ones when they are later than the median and
      at most ten minutes before. */
  lemma {:induction false} TimeRule(times: seq<int>, k: nat, nFirstPosv2Block: int)
    requires 0 < k < |times|
    ensures TimeAccepted(times, k, nFirstPosv2Block) <==>
      if k > nFirstPosv2Block + 1 then times[k] > times[k - 1]
      else times[k] > MedianTimePast(times, k - 1) && times[k - 1] - times[k] <= if k == nFirstPosv2Block + 1 then 15 else 600
  {
    hide MedianTimePast;
  }

  /** From the second V2 block on times increase strictly. */
  lemma {:induction false} TimesIncrease(times: seq<int>, nFirstPosv2Block: int, i: nat, j: nat)
    requires Accepted(times, nFirstPosv2Block) && nFirstPosv2Block < i < j < |times|
    ensures times[i] < times[j]
    decreases j
  {
    hide MedianTimePast;
    assert TimeAccepted(times, j, nFirstPosv2Block);
    if i < j - 1 {
      TimesIncrease(times, nFirstPosv2Block, i, j - 1);
    }
  }

  /** A time above the median, pushed into the window, neither lowers the median nor falls below it. */
  lemma {:induction false} MedianStep(w: seq<int>, w': seq<int>, t: int)
    requires w != [] && |w| <= nMedianTimeSpan && t > Median(w)
    requires w' == (if |w| < nMedianTimeSpan then w else w[1..]) + [t]
    ensures Median(w) <= Median(w') <= t
  {
    var m := Median(w);
    MedianSplits(w, m);
    MedianSplits(w, m + 1);
    MedianSplits(w', m);
    MedianSplits(w', t + 1);
    PushCounts(w, w', t, m);
    PushCounts(w, w', t, t + 1);
    BelowMonotone(w, m + 1, t + 1);
  }

  lemma {:induction false} PushCounts(w: seq<int>, w': seq<int>, t: int, v: int)
    requires w != [] && |w| <= nMedianTimeSpan
    requires w' == (if |w| < nMedianTimeSpan then w else w[1..]) + [t]
    ensures var dropped := if |w| < nMedianTimeSpan then 0 else if w[0] < v then 1 else 0;
            Below(w', v) == Below(w, v) - dropped + (if t < v then 1 else 0)
  {
    assert Below([t], v) == if t < v then 1 else 0;
    BelowConcat(if |w| < nMedianTimeSpan then w else w[1..], [t], v);
  }

  lemma {:induction false} BelowMonotone(s: seq<int>, u: int, v: int)
    requires u <= v
    ensures Below(s, u) <= Below(s, v)
  {
    if s != [] {
      BelowMonotone(s[1..], u, v);
    }
  }

  lemma {:induction false} NextWindow(times: seq<int>, k: nat)
    requires k + 1 < |times|
    ensures var w := Window(times, k);
            Window(times, k + 1) == (if |w| < nMedianTimeSpan then w else w[1..]) + [times[k + 1]]
  {
  }

  /** No block of an accepted chain is older than its own median time past, under either protocol and
      across the switch. */
  lemma {:induction false} TimeAtLeastMedian(times: seq<int>, nFirstPosv2Block: int, k: nat)
    requires Accepted(times, nFirstPosv2Block) && k < |times|
    ensures MedianTimePast(times, k) <= times[k]
    ensures k > 0 ==> MedianTimePast(times, k - 1) <= MedianTimePast(times, k)
    ensures k > 0 ==> MedianTimePast(times, k - 1) < times[k]
  {
    if k == 0 {
      MedianSplits(Window(times, 0), 0);
    } else {
      TimeAtLeastMedian(times, nFirstPosv2Block, k - 1);
      assert TimeAccepted(times, k, nFirstPosv2Block);
      NextWindow(times, k - 1);
      MedianStep(Window(times, k - 1), Window(times, k), times[k]);
    }
  }

  /** Median time past never decreases along an accepted chain, and every block is younger than the median
      of every block before it. */
  lemma {:induction false} MedianNeverDecreases(times: seq<int>, nFirstPosv2Block: int, i: nat, j: nat)
    requires Accepted(times, nFirstPosv2Block) && i <= j < |times|
    ensures MedianTimePast(times, i) <= MedianTimePast(times, j)
    ensures i < j ==> MedianTimePast(times, i) < times[j]
    decreases j
  {
    hide MedianTimePast, Accepted;
    TimeAtLeastMedian(times, nFirstPosv2Block, j);
    if i < j {
      MedianNeverDecreases(times, nFirstPosv2Block, i, j - 1);
    }
  }
}
