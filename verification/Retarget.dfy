/** The per-block retargeting of `GetNextTargetRequired`. */
module Retargeting {
  import opened Arith
  import opened Numerals
  import opened CompactBits

  const nTargetTimespan: int := 24 * 60 * 60

  /** The chain parameters that retargeting reads. */
  datatype Params = Params(bnProofOfWorkLimit: nat, bnProofOfStakeLimit: nat, bnProofOfStakeLimitV2: nat,
                           nFirstPosv2Block: int, nFirstPosv3Block: int)

  /** A block of the chain; its height is its place. */
  datatype Header = Header(nTime: int, nBits: nat, fProofOfStake: bool)

  /** A positive target that a `uint256` holds. */
  predicate IsTarget(n: int) {
    0 < n < Power(256, 32)
  }

  predicate ValidParams(p: Params) {
    IsTarget(p.bnProofOfWorkLimit) && IsTarget(p.bnProofOfStakeLimit) && IsTarget(p.bnProofOfStakeLimitV2)
  }

  function TargetLimit(p: Params, nHeight: int, fProofOfStake: bool): nat {
    if !fProofOfStake then p.bnProofOfWorkLimit
    else if nHeight > p.nFirstPosv2Block then p.bnProofOfStakeLimitV2 else p.bnProofOfStakeLimit
  }

  function GetTargetSpacing(p: Params, nHeight: int): int {
    if nHeight > p.nFirstPosv2Block then 64 else 60
  }

  //////////////////////////////////////////////////////////////////////////////
  // The blocks that are measured
  //////////////////////////////////////////////////////////////////////////////

  /** The place of the last block of the kind at or before place k, or genesis. */
  function LastOfKind(chain: seq<Header>, k: nat, fProofOfStake: bool): (r: nat)
    requires k < |chain|
    ensures r <= k && (r > 0 ==> chain[r].fProofOfStake == fProofOfStake)
    ensures forall i :: r < i <= k ==> chain[i].fProofOfStake != fProofOfStake
  {
    if k > 0 && chain[k].fProofOfStake != fProofOfStake then LastOfKind(chain, k - 1, fProofOfStake) else k
  }

  method GetLastBlockIndex(chain: seq<Header>, k: nat, fProofOfStake: bool) returns (r: nat)
    requires k < |chain|
    ensures r == LastOfKind(chain, k, fProofOfStake)
  {
    r := k;
    while r > 0 && chain[r].fProofOfStake != fProofOfStake
      invariant r <= k && LastOfKind(chain, r, fProofOfStake) == LastOfKind(chain, k, fProofOfStake)
    {
      r := r - 1;
    }
  }

  /** The two blocks that the spacing is measured between, when both are past genesis. */
  function Measured(chain: seq<Header>, fProofOfStake: bool): (r: (nat, nat))
    ensures r.1 > 0 ==> r.1 < r.0 < |chain|
    ensures r.1 > 0 ==> chain[r.0].fProofOfStake == fProofOfStake == chain[r.1].fProofOfStake
    ensures r.1 > 0 ==> forall i :: r.1 < i < |chain| && i != r.0 ==> chain[i].fProofOfStake != fProofOfStake
  {
    if chain == [] then (0, 0)
    else
      var prev := LastOfKind(chain, |chain| - 1, fProofOfStake);
      if prev == 0 then (0, 0) else (prev, LastOfKind(chain, prev - 1, fProofOfStake))
  }

  /** The spacing after its corrections. */
  function ActualSpacing(nDifference: int, nTargetSpacing: int, fV3: bool): int {
    var nActual := if nDifference < 0 then nTargetSpacing else nDifference;
    if fV3 && nActual > nTargetSpacing * 10 then nTargetSpacing * 10 else nActual
  }

  //////////////////////////////////////////////////////////////////////////////
  // The next target
  //////////////////////////////////////////////////////////////////////////////

  /** Bignum division, which rounds towards zero. */
  function TruncDiv(n: int, d: int): int
    requires d > 0
  {
    if n < 0 then 0 - (0 - n) / d else n / d
  }

  predicate SpacingOk(nTargetSpacing: int) {
    0 < nTargetSpacing <= nTargetTimespan / 3
  }

  function Interval(nTargetSpacing: int): (nInterval: int)
    requires SpacingOk(nTargetSpacing)
    ensures nInterval >= 3
  {
    IntervalAtLeast(nTargetSpacing);
    nTargetTimespan / nTargetSpacing
  }

  lemma {:induction false} IntervalAtLeast(t: int)
    requires SpacingOk(t)
    ensures nTargetTimespan / t >= 3
  {
    DivAddMultiple(nTargetTimespan - 3 * t, 3, t);
    DivNonNegative(nTargetTimespan - 3 * t, t);
  }

  lemma {:induction false} DivNonNegative(n: int, d: int)
    requires n >= 0 && d > 0
    ensures n / d >= 0
  {
    SignOfProduct(n / d + 1, d);
    assert (n / d + 1) * d == n - n % d + d > 0;
  }

  /** The target after one exponential step, before it is capped. */
  function Moved(bnOld: int, nTargetSpacing: int, nActualSpacing: int): int
    requires SpacingOk(nTargetSpacing)
  {
    var nInterval := Interval(nTargetSpacing);
    PositiveProduct(nInterval + 1, nTargetSpacing);
    TruncDiv(bnOld * ((nInterval - 1) * nTargetSpacing + nActualSpacing + nActualSpacing),
             (nInterval + 1) * nTargetSpacing)
  }

  lemma {:induction false} PositiveProduct(a: int, b: int)
    requires a > 0 && b > 0
    ensures a * b > 0
  {
  }

  function Capped(bnNew: int, bnTargetLimit: int): int {
    if bnNew <= 0 || bnNew > bnTargetLimit then bnTargetLimit else bnNew
  }

  /** The next target before its compact encoding. */
  function NextTarget(p: Params, chain: seq<Header>, fProofOfStake: bool): int {
    var nHeight := |chain| - 1;
    var bnTargetLimit := TargetLimit(p, nHeight, fProofOfStake);
    var (prev, prevPrev) := Measured(chain, fProofOfStake);
    if prevPrev == 0 then bnTargetLimit
    else
      var nTargetSpacing := GetTargetSpacing(p, nHeight);
      var nActual := ActualSpacing(chain[prev].nTime - chain[prevPrev].nTime, nTargetSpacing,
                                   nHeight > p.nFirstPosv3Block);
      Capped(Moved(SetCompact(chain[prev].nBits), nTargetSpacing, nActual), bnTargetLimit)
  }

  /** For an empty chain a proof-of-stake caller would dereference a null block. */
  method GetNextTargetRequired(p: Params, chain: seq<Header>, fProofOfStake: bool) returns (nBits: nat)
    requires chain != [] || !fProofOfStake
    ensures nBits == GetCompact(NextTarget(p, chain, fProofOfStake))
  {
    hide GetCompact, SetCompact, Moved;
    var nHeight := |chain| - 1;
    var bnTargetLimit := TargetLimit(p, nHeight, fProofOfStake);
    if chain == [] {
      return GetCompact(bnTargetLimit);
    }
    var prev := GetLastBlockIndex(chain, |chain| - 1, fProofOfStake);
    if prev == 0 {
      return GetCompact(bnTargetLimit);
    }
    var prevPrev := GetLastBlockIndex(chain, prev - 1, fProofOfStake);
    if prevPrev == 0 {
      return GetCompact(bnTargetLimit);
    }
    var nTargetSpacing := GetTargetSpacing(p, nHeight);
    var nActualSpacing := chain[prev].nTime - chain[prevPrev].nTime;
    if nActualSpacing < 0 {
      nActualSpacing := nTargetSpacing;
    }
    if nHeight > p.nFirstPosv3Block {
      if nActualSpacing > nTargetSpacing * 10 {
        nActualSpacing := nTargetSpacing * 10;
      }
    }
    var bnNew := Moved(SetCompact(chain[prev].nBits), nTargetSpacing, nActualSpacing);
    if bnNew <= 0 || bnNew > bnTargetLimit {
      bnNew := bnTargetLimit;
    }
    return GetCompact(bnNew);
  }

  //////////////////////////////////////////////////////////////////////////////
  // Range
  //////////////////////////////////////////////////////////////////////////////

  /** Whatever the chain, the next target is positive, within the limit, in normal form,
      and off the exact one by less than one part in 2^15. */
  lemma {:induction false} TargetInRange(p: Params, chain: seq<Header>, fProofOfStake: bool)
    requires ValidParams(p)
    ensures var bnTargetLimit := TargetLimit(p, |chain| - 1, fProofOfStake);
            var exact := NextTarget(p, chain, fProofOfStake);
            var bnTarget := SetCompact(GetCompact(exact));
            && 0 < bnTarget <= exact <= bnTargetLimit
            && (exact - bnTarget) * 0x8000 < bnTarget
            && Normal(GetCompact(exact))
  {
    hide GetCompact, SetCompact, Moved, Normal, Power;
    var exact := NextTarget(p, chain, fProofOfStake);
    assert 0 < exact <= TargetLimit(p, |chain| - 1, fProofOfStake);
    TargetFits(exact);
    CompactTruncates(exact);
    CompactNormal(exact);
  }

  lemma {:induction false} TargetFits(n: int)
    requires IsTarget(n)
    ensures |GetVch(n)| < 0x100
  {
    hide Power, GetVch;
    ShortEnough(n, 32);
  }

  //////////////////////////////////////////////////////////////////////////////
  // One step
  //////////////////////////////////////////////////////////////////////////////

  lemma {:induction false} DivMonotone(a: int, b: int, d: int)
    requires a <= b && d > 0
    ensures a / d <= b / d
  {
    DivNonNegative(b - a, d);
    var q, r := a / d, a % d;
    assert b == q * d + (b - a + r);
    DivAddMultiple(b - a + r, q, d);
    DivNonNegative(b - a + r, d);
  }

  lemma {:induction false} DivCancels(n: int, d: int, k: int)
    requires d > 0 && k > 0 && d * k > 0
    ensures (n * k) / (d * k) == n / d
  {
    var q, r := n / d, n % d;
    assert n * k == q * (d * k) + r * k;
    assert 0 <= r * k < d * k by {
      ScaleStrict(k, r, d);
    }
    DivUnique(n * k, d * k, q, r * k);
  }

  lemma {:induction false} ScaleStrict(k: int, a: int, b: int)
    requires 0 <= a < b && k > 0
    ensures 0 <= a * k < b * k
  {
    SignOfProduct(b - a, k);
    PositiveProduct(b - a, k);
    assert (b - a) * k == b * k - a * k;
  }

  /** The target follows the spacing. */
  lemma {:induction false} MovedMonotone(bnOld: nat, t: int, a: nat, b: nat)
    requires SpacingOk(t) && a <= b
    ensures Moved(bnOld, t, a) <= Moved(bnOld, t, b)
  {
    var i := Interval(t);
    var x, y := (i - 1) * t + a + a, (i - 1) * t + b + b;
    PositiveProduct(i + 1, t);
    PositiveProduct(i - 1, t);
    Scale(bnOld, 0, x);
    Scale(bnOld, x, y);
    DivMonotone(bnOld * x, bnOld * y, (i + 1) * t);
  }

  /** A spacing of c target spacings moves the target by (I - 1 + 2 c) / (I + 1). */
  lemma {:induction false} MovedAt(bnOld: nat, t: int, c: nat)
    requires SpacingOk(t)
    ensures Moved(bnOld, t, c * t) == bnOld * (Interval(t) - 1 + 2 * c) / (Interval(t) + 1)
  {
    var i := Interval(t);
    PositiveProduct(i + 1, t);
    PositiveProduct(i - 1 + 2 * c, t);
    var x := (i - 1) * t + c * t + c * t;
    assert x == (i - 1 + 2 * c) * t;
    Scale(bnOld, 0, x);
    assert bnOld * x == bnOld * (i - 1 + 2 * c) * t by {
      Associate(bnOld, i - 1 + 2 * c, t);
    }
    DivCancels(bnOld * (i - 1 + 2 * c), i + 1, t);
  }

  lemma {:induction false} Associate(a: int, b: int, c: int)
    ensures a * (b * c) == a * b * c
  {
  }

  /** The spacing after its corrections is not negative, and at most ten target spacings in V3. */
  lemma {:induction false} SpacingBounds(nDifference: int, t: int, fV3: bool)
    requires SpacingOk(t)
    ensures 0 <= ActualSpacing(nDifference, t, fV3)
    ensures fV3 ==> ActualSpacing(nDifference, t, fV3) <= 10 * t
  {
  }

  /** One step takes the target down to (I - 1) / (I + 1) at most, and in V3 up to (I + 19) / (I + 1)
      at most. */
  lemma {:induction false} StepBounds(bnOld: nat, nDifference: int, t: int, fV3: bool)
    requires SpacingOk(t)
    ensures var bnNew := Moved(bnOld, t, ActualSpacing(nDifference, t, fV3));
            && bnOld * (Interval(t) - 1) / (Interval(t) + 1) <= bnNew
            && (fV3 ==> bnNew <= bnOld * (Interval(t) + 19) / (Interval(t) + 1))
  {
    var a := ActualSpacing(nDifference, t, fV3);
    SpacingBounds(nDifference, t, fV3);
    hide ActualSpacing;
    MovedMonotone(bnOld, t, 0, a);
    MovedAt(bnOld, t, 0);
    if fV3 {
      MovedMonotone(bnOld, t, a, 10 * t);
      MovedAt(bnOld, t, 10);
    }
  }

  /** A spacing on target keeps the target. */
  lemma {:induction false} MovedOnTarget(bnOld: nat, t: int)
    requires SpacingOk(t)
    ensures Moved(bnOld, t, t) == bnOld
  {
    var i := Interval(t);
    MovedAt(bnOld, t, 1);
    DivUnique(bnOld * (i + 1), i + 1, bnOld, 0);
  }

  //////////////////////////////////////////////////////////////////////////////
  // From the times of two blocks to the target
  //////////////////////////////////////////////////////////////////////////////

  /** The last two blocks of the kind past genesis are at places a and b. */
  ghost predicate LastTwo(chain: seq<Header>, fProofOfStake: bool, a: nat, b: nat) {
    && 0 < a < b < |chain| && chain[a].fProofOfStake == chain[b].fProofOfStake == fProofOfStake
    && forall i :: a < i < |chain| && i != b ==> chain[i].fProofOfStake != fProofOfStake
  }

  lemma {:induction false} MeasuredIs(chain: seq<Header>, fProofOfStake: bool, a: nat, b: nat)
    ensures LastTwo(chain, fProofOfStake, a, b) <==> a > 0 && Measured(chain, fProofOfStake) == (b, a)
  {
  }

  /** Without two such blocks the limit is required. */
  lemma {:induction false} LimitAtFirst(p: Params, chain: seq<Header>, fProofOfStake: bool)
    requires forall a, b :: !LastTwo(chain, fProofOfStake, a, b)
    ensures NextTarget(p, chain, fProofOfStake)
         == if !fProofOfStake then p.bnProofOfWorkLimit
            else if |chain| > p.nFirstPosv2Block + 1 then p.bnProofOfStakeLimitV2 else p.bnProofOfStakeLimit
  {
    var (b, a) := Measured(chain, fProofOfStake);
    MeasuredIs(chain, fProofOfStake, a, b);
  }

  /** The same chain with another time for one of its blocks. */
  function Retimed(chain: seq<Header>, b: nat, nTime: int): (r: seq<Header>)
    requires b < |chain|
    ensures |r| == |chain|
  {
    chain[b := chain[b].(nTime := nTime)]
  }

  lemma {:induction false} RetimedTwo(chain: seq<Header>, fProofOfStake: bool, a: nat, b: nat, nTime: int)
    requires LastTwo(chain, fProofOfStake, a, b)
    ensures LastTwo(Retimed(chain, b, nTime), fProofOfStake, a, b)
  {
  }

  /** What the target depends on, once the two blocks are known. */
  lemma {:induction false} StepIs(p: Params, chain: seq<Header>, fProofOfStake: bool, a: nat, b: nat)
    requires LastTwo(chain, fProofOfStake, a, b)
    ensures var t := GetTargetSpacing(p, |chain| - 1);
            var nActual := ActualSpacing(chain[b].nTime - chain[a].nTime, t, |chain| - 1 > p.nFirstPosv3Block);
            && SpacingOk(t) && nActual >= 0
            && NextTarget(p, chain, fProofOfStake)
               == Capped(Moved(SetCompact(chain[b].nBits), t, nActual), TargetLimit(p, |chain| - 1, fProofOfStake))
  {
    hide Moved, SetCompact, Measured;
    MeasuredIs(chain, fProofOfStake, a, b);
  }

  /** The exact target when the two blocks are c target spacings apart: 1349 + 2 c parts in 1351 of the old one with blocks
      every 64 seconds, 1439 + 2 c in 1441 with blocks every 60 seconds, at most the limit. */
  lemma {:induction false} TargetAt(p: Params, chain: seq<Header>, fProofOfStake: bool, a: nat, b: nat, c: nat)
    requires LastTwo(chain, fProofOfStake, a, b) && (|chain| > p.nFirstPosv3Block + 1 ==> c <= 10)
    requires chain[b].nTime - chain[a].nTime == c * if |chain| > p.nFirstPosv2Block + 1 then 64 else 60
    ensures var bnOld := SetCompact(chain[b].nBits);
            var limit := if !fProofOfStake then p.bnProofOfWorkLimit
                         else if |chain| > p.nFirstPosv2Block + 1 then p.bnProofOfStakeLimitV2 else p.bnProofOfStakeLimit;
            var moved := if |chain| > p.nFirstPosv2Block + 1 then bnOld * (1349 + 2 * c) / 1351 else bnOld * (1439 + 2 * c) / 1441;
            NextTarget(p, chain, fProofOfStake) == if 0 < moved <= limit then moved else limit
  {
    hide Moved, SetCompact, Capped;
    StepIs(p, chain, fProofOfStake, a, b);
    var bnOld, t := SetCompact(chain[b].nBits), GetTargetSpacing(p, |chain| - 1);
    if bnOld < 0 {
      NegativeMoves(bnOld, t, c * t);
      DivNegative(bnOld * (1349 + 2 * c), 1351);
      DivNegative(bnOld * (1439 + 2 * c), 1441);
    } else {
      MovedAt(bnOld, t, c);
    }
    CappedIs(Moved(bnOld, t, c * t), TargetLimit(p, |chain| - 1, fProofOfStake));
  }

  lemma {:induction false} CappedIs(bnNew: int, bnTargetLimit: int)
    ensures Capped(bnNew, bnTargetLimit) == if 0 < bnNew <= bnTargetLimit then bnNew else bnTargetLimit
  {
  }

  lemma {:induction false} DivNegative(n: int, d: int)
    requires n < 0 && d > 0
    ensures n / d < 0
  {
  }

  lemma {:induction false} NegativeMoves(bnOld: int, t: int, a: nat)
    requires SpacingOk(t) && bnOld < 0
    ensures Moved(bnOld, t, a) <= 0
  {
    var i := Interval(t);
    PositiveProduct(i - 1, t);
    PositiveProduct(i + 1, t);
    var x := (i - 1) * t + a + a;
    PositiveProduct(-bnOld, x);
    assert bnOld * x == -((-bnOld) * x);
    DivNonNegative((-bnOld) * x, (i + 1) * t);
  }

  /** Times that run backwards count as on target. */
  lemma {:induction false} BackwardsIsOnTarget(p: Params, chain: seq<Header>, fProofOfStake: bool, a: nat, b: nat)
    requires LastTwo(chain, fProofOfStake, a, b) && chain[b].nTime < chain[a].nTime
    ensures var spacing := if |chain| > p.nFirstPosv2Block + 1 then 64 else 60;
            NextTarget(p, chain, fProofOfStake) == NextTarget(p, Retimed(chain, b, chain[a].nTime + spacing), fProofOfStake)
  {
    var later := Retimed(chain, b, chain[a].nTime + GetTargetSpacing(p, |chain| - 1));
    hide Moved, SetCompact, NextTarget;
    RetimedTwo(chain, fProofOfStake, a, b, chain[a].nTime + GetTargetSpacing(p, |chain| - 1));
    StepIs(p, chain, fProofOfStake, a, b);
    StepIs(p, later, fProofOfStake, a, b);
  }

  /** In V3 more than ten target spacings count as ten. */
  lemma {:induction false} LongIsTen(p: Params, chain: seq<Header>, fProofOfStake: bool, a: nat, b: nat)
    requires LastTwo(chain, fProofOfStake, a, b) && |chain| > p.nFirstPosv3Block + 1
    requires chain[b].nTime - chain[a].nTime > 10 * if |chain| > p.nFirstPosv2Block + 1 then 64 else 60
    ensures var spacing := if |chain| > p.nFirstPosv2Block + 1 then 64 else 60;
            NextTarget(p, chain, fProofOfStake) == NextTarget(p, Retimed(chain, b, chain[a].nTime + 10 * spacing), fProofOfStake)
  {
    var sooner := Retimed(chain, b, chain[a].nTime + 10 * GetTargetSpacing(p, |chain| - 1));
    hide Moved, SetCompact, NextTarget;
    RetimedTwo(chain, fProofOfStake, a, b, chain[a].nTime + 10 * GetTargetSpacing(p, |chain| - 1));
    StepIs(p, chain, fProofOfStake, a, b);
    StepIs(p, sooner, fProofOfStake, a, b);
  }

  /** The later the last block, the easier the next one, as long as its time is not before the one measured against and the
      old target is not one. */
  lemma {:induction false} LaterIsEasier(p: Params, chain: seq<Header>, fProofOfStake: bool, a: nat, b: nat, nTime: int)
    requires ValidParams(p) && LastTwo(chain, fProofOfStake, a, b) && chain[a].nTime <= chain[b].nTime <= nTime
    requires SetCompact(chain[b].nBits) != 1
    ensures NextTarget(p, chain, fProofOfStake) <= NextTarget(p, Retimed(chain, b, nTime), fProofOfStake)
  {
    var later := Retimed(chain, b, nTime);
    hide Moved, SetCompact, NextTarget, Power;
    RetimedTwo(chain, fProofOfStake, a, b, nTime);
    StepIs(p, chain, fProofOfStake, a, b);
    StepIs(p, later, fProofOfStake, a, b);
    var bnOld, t, limit := SetCompact(chain[b].nBits), GetTargetSpacing(p, |chain| - 1), TargetLimit(p, |chain| - 1, fProofOfStake);
    var fV3 := |chain| - 1 > p.nFirstPosv3Block;
    var x, y := ActualSpacing(chain[b].nTime - chain[a].nTime, t, fV3), ActualSpacing(nTime - chain[a].nTime, t, fV3);
    assert x <= y;
    if bnOld < 0 {
      NegativeMoves(bnOld, t, x);
      NegativeMoves(bnOld, t, y);
    } else if limit > 1 {
      CapFollowsSpacing(bnOld, t, limit);
      assert Capped(Moved(bnOld, t, x), limit) <= Capped(Moved(bnOld, t, y), limit);
    }
  }

  /** That it is not before is needed: a last block that runs backwards makes the next one easier than one at the same time. */
  lemma {:induction false} BackwardsIsEasier(p: Params, chain: seq<Header>, fProofOfStake: bool, a: nat, b: nat)
    requires ValidParams(p) && LastTwo(chain, fProofOfStake, a, b) && chain[b].nTime < chain[a].nTime
    requires 1 < SetCompact(chain[b].nBits) <= TargetLimit(p, |chain| - 1, fProofOfStake)
    ensures NextTarget(p, Retimed(chain, b, chain[a].nTime), fProofOfStake) < NextTarget(p, chain, fProofOfStake)
  {
    hide Moved, SetCompact, NextTarget, Power;
    var even := Retimed(chain, b, chain[a].nTime);
    RetimedTwo(chain, fProofOfStake, a, b, chain[a].nTime);
    StepIs(p, chain, fProofOfStake, a, b);
    StepIs(p, even, fProofOfStake, a, b);
    var bnOld, t := SetCompact(chain[b].nBits), GetTargetSpacing(p, |chain| - 1);
    MovedOnTarget(bnOld, t);
    StaysPositive(bnOld, t);
    FallsBelow(bnOld, t);
  }

  lemma {:induction false} FallsBelow(bnOld: nat, t: int)
    requires SpacingOk(t) && bnOld > 0
    ensures Moved(bnOld, t, 0) < bnOld
  {
    var i := Interval(t);
    MovedAt(bnOld, t, 0);
    assert bnOld * (i + 1) == bnOld * (i - 1) + 2 * bnOld;
    DivBelow(bnOld * (i - 1), i + 1, bnOld);
  }

  lemma {:induction false} DivBelow(n: int, d: int, m: int)
    requires d > 0 && n < m * d
    ensures n / d < m
  {
    var q := n / d;
    assert (m - q) * d == m * d - q * d > 0;
    SignOfProduct(m - q, d);
  }

  /** On a chain whose last spacing is on target and whose target is within the limit, the same bits are
      required again exactly when they are in normal form. */
  lemma {:induction false} SameBitsOnTarget(p: Params, chain: seq<Header>, fProofOfStake: bool, a: nat, b: nat)
    requires ValidParams(p) && LastTwo(chain, fProofOfStake, a, b)
    requires chain[b].nTime - chain[a].nTime == if |chain| > p.nFirstPosv2Block + 1 then 64 else 60
    requires chain[b].nBits < 0x1_0000_0000
    requires 0 < SetCompact(chain[b].nBits) <= TargetLimit(p, |chain| - 1, fProofOfStake)
    ensures GetCompact(NextTarget(p, chain, fProofOfStake)) == chain[b].nBits <==> Normal(chain[b].nBits)
  {
    var bnOld := SetCompact(chain[b].nBits);
    hide GetCompact, SetCompact, Moved, Normal, Power;
    StepIs(p, chain, fProofOfStake, a, b);
    MovedOnTarget(bnOld, GetTargetSpacing(p, |chain| - 1));
    CompactRoundTrip(chain[b].nBits);
  }

  //////////////////////////////////////////////////////////////////////////////
  // The cap
  //////////////////////////////////////////////////////////////////////////////

  ghost predicate CappedMonotone(bnOld: nat, t: int, bnTargetLimit: nat)
    requires SpacingOk(t)
  {
    forall a: nat, b: nat :: a <= b ==>
      Capped(Moved(bnOld, t, a), bnTargetLimit) <= Capped(Moved(bnOld, t, b), bnTargetLimit)
  }

  /** A target of one falls to zero when blocks come too fast, and zero is taken for the easiest target:
      after capping the target follows the spacing exactly when the old one is not one. */
  lemma {:induction false} CapFollowsSpacing(bnOld: nat, t: int, bnTargetLimit: nat)
    requires SpacingOk(t) && bnTargetLimit > 1
    ensures CappedMonotone(bnOld, t, bnTargetLimit) <==> bnOld != 1
  {
    hide Moved;
    if bnOld == 1 {
      MovedOnTarget(1, t);
      OneFalls(t);
      assert !(Capped(Moved(1, t, 0), bnTargetLimit) <= Capped(Moved(1, t, t), bnTargetLimit));
    } else {
      forall a: nat, b: nat | a <= b
        ensures Capped(Moved(bnOld, t, a), bnTargetLimit) <= Capped(Moved(bnOld, t, b), bnTargetLimit)
      {
        MovedMonotone(bnOld, t, a, b);
        if bnOld == 0 {
          ZeroStays(t, a);
          ZeroStays(t, b);
        } else {
          MovedMonotone(bnOld, t, 0, a);
          StaysPositive(bnOld, t);
        }
      }
    }
  }

  lemma {:induction false} OneFalls(t: int)
    requires SpacingOk(t)
    ensures Moved(1, t, 0) == 0
  {
    var i := Interval(t);
    MovedAt(1, t, 0);
    DivUnique(i - 1, i + 1, 0, i - 1);
  }

  lemma {:induction false} ZeroStays(t: int, a: nat)
    requires SpacingOk(t)
    ensures Moved(0, t, a) == 0
  {
    PositiveProduct(Interval(t) + 1, t);
    DivUnique(0, (Interval(t) + 1) * t, 0, 0);
  }

  lemma {:induction false} StaysPositive(bnOld: nat, t: int)
    requires SpacingOk(t) && bnOld >= 2
    ensures Moved(bnOld, t, 0) > 0
  {
    var i := Interval(t);
    MovedAt(bnOld, t, 0);
    Scale(i - 1, 2, bnOld);
    DivMonotone(i + 1, bnOld * (i - 1), i + 1);
  }
}
