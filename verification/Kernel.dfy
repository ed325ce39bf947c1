/** The stake modifier: 64 selection rounds over the blocks of the last selection interval, each
    contributing the entropy bit of the block it picks. */
module Kernel {
  import opened Arith

  type Hash = nat

  const MODIFIER_INTERVAL_RATIO: int := 3

  datatype BlockIndex = BlockIndex(hash: Hash, nTime: nat, hashProof: nat, fProofOfStake: bool, nEntropyBit: bool)

  /** The hash that the kernel takes over a proof hash and the previous modifier. */
  type SelectionHash = (nat, nat) -> nat

  /** Proof-of-stake blocks are favoured: their selection hash loses its low 32 bits. */
  function Key(h: SelectionHash, b: BlockIndex, nStakeModifierPrev: nat): nat {
    var hash := h(b.hashProof, nStakeModifierPrev);
    if b.fProofOfStake then hash / 0x1_0000_0000 else hash
  }

  //////////////////////////////////////////////////////////////////////////////
  // The interval sections
  //////////////////////////////////////////////////////////////////////////////

  function Section(nModifierInterval: int, nSection: nat): int
    requires nSection < 64
  {
    nModifierInterval * 63 / (63 + (63 - nSection) * (MODIFIER_INTERVAL_RATIO - 1))
  }

  function SectionSum(nModifierInterval: int, k: nat): int
    requires k <= 64
  {
    if k == 0 then 0 else SectionSum(nModifierInterval, k - 1) + Section(nModifierInterval, k - 1)
  }

  method GetStakeModifierSelectionInterval(nModifierInterval: int) returns (nSelectionInterval: int)
    ensures nSelectionInterval == SectionSum(nModifierInterval, 64)
  {
    nSelectionInterval := 0;
    var nSection := 0;
    while nSection < 64
      invariant 0 <= nSection <= 64 && nSelectionInterval == SectionSum(nModifierInterval, nSection)
    {
      nSelectionInterval := nSelectionInterval + Section(nModifierInterval, nSection);
      nSection := nSection + 1;
    }
  }

  /** Sections grow up to the whole modifier interval. */
  lemma {:induction false} SectionsGrow(nModifierInterval: nat, i: nat, j: nat)
    requires i <= j < 64
    ensures 0 <= Section(nModifierInterval, i) <= Section(nModifierInterval, j) <= nModifierInterval
    ensures Section(nModifierInterval, 63) == nModifierInterval
  {
    var n := nModifierInterval * 63;
    DivShrinks(n, 63 + (63 - i) * 2, 63 + (63 - j) * 2);
    DivShrinks(n, 63 + (63 - j) * 2, 63);
  }

  /** The time from one stop to a later one, between as many times the first and the last section of the way. */
  lemma {:induction false} SumBounds(nModifierInterval: nat, i: nat, j: nat)
    requires i < j <= 64
    ensures var way := SectionSum(nModifierInterval, j) - SectionSum(nModifierInterval, i);
            (j - i) * Section(nModifierInterval, i) <= way <= (j - i) * Section(nModifierInterval, j - 1)
    decreases j
  {
    hide Section;
    var first, last := Section(nModifierInterval, i), Section(nModifierInterval, j - 1);
    if i < j - 1 {
      SumBounds(nModifierInterval, i, j - 1);
      SectionsGrow(nModifierInterval, i, j - 1);
      SectionsGrow(nModifierInterval, j - 2, j - 1);
      var before := Section(nModifierInterval, j - 2);
      MoreTimes(j - 1 - i, before, last);
      assert (j - i) * first == (j - 1 - i) * first + first;
      assert (j - i) * last == (j - 1 - i) * last + last;
    }
  }

  lemma {:induction false} MoreTimes(n: nat, a: int, b: int)
    requires a <= b
    ensures n * a <= n * b
  {
  }

  /** A section is the longest time that 189 - 2 k of it fit into 63 intervals: from a third of the interval to the whole. */
  lemma {:induction false} SectionIs(nModifierInterval: nat, k: nat, q: nat)
    requires k < 64
    ensures q <= Section(nModifierInterval, k) <==> q * (189 - 2 * k) <= 63 * nModifierInterval
    ensures Section(nModifierInterval, 0) == nModifierInterval / 3
  {
    var n, d := nModifierInterval * 63, 189 - 2 * k;
    assert 63 + (63 - k) * 2 == d;
    QuotientIs(n, d, q);
    DivUnique(nModifierInterval * 63, 189, nModifierInterval / 3, nModifierInterval % 3 * 63);
  }

  lemma {:induction false} QuotientIs(n: nat, d: nat, q: nat)
    requires d > 0
    ensures q <= n / d <==> q * d <= n
  {
    if q * d <= n {
      QuotientBound(n, d, q);
    }
    if q <= n / d {
      assert (n / d - q) * d == n / d * d - q * d;
      NotNegative(n / d - q, d);
    }
  }

  lemma {:induction false} NotNegative(a: nat, b: nat)
    ensures a * b >= 0
  {
  }

  lemma {:induction false} DivShrinks(n: nat, a: nat, b: nat)
    requires a >= b > 0
    ensures 0 <= n / a <= n / b
  {
    var q := n / a;
    assert q * a <= n;
    assert q * b <= q * a;
    QuotientBound(n, b, q);
  }

  lemma {:induction false} QuotientBound(n: nat, b: nat, q: nat)
    requires b > 0 && q * b <= n
    ensures q <= n / b
  {
    var r := n / b;
    assert n < (r + 1) * b;
    assert (r + 1 - q) * b == (r + 1) * b - q * b;
    SignOfProduct(r + 1 - q, b);
  }

  //////////////////////////////////////////////////////////////////////////////
  // One selection
  //////////////////////////////////////////////////////////////////////////////

  /** Candidates in order of time, then hash. */
  ghost predicate Sorted(c: seq<BlockIndex>) {
    forall i, j :: 0 <= i < j < |c| ==> NotAfter(c[i], c[j])
  }

  predicate NotAfter(a: BlockIndex, b: BlockIndex) {
    a.nTime < b.nTime || (a.nTime == b.nTime && a.hash <= b.hash)
  }

  ghost predicate Distinct(c: seq<BlockIndex>) {
    forall i, j :: 0 <= i < j < |c| ==> c[i].hash != c[j].hash
  }

  /** A candidate not yet picked that is in time for the round, or the first one left. */
  ghost predicate Eligible(c: seq<BlockIndex>, picked: set<Hash>, stop: int, i: nat) {
    && i < |c| && c[i].hash !in picked
    && (c[i].nTime <= stop || forall j :: 0 <= j < i ==> c[j].hash in picked)
  }

  /** The eligible candidate with the smallest selection hash, the first one among equals. */
  ghost predicate IsPick(h: SelectionHash, c: seq<BlockIndex>, picked: set<Hash>, stop: int, prev: nat, i: nat) {
    && Eligible(c, picked, stop, i)
    && forall j :: 0 <= j < |c| && Eligible(c, picked, stop, j) ==> Precedes(h, c, prev, i, j)
  }

  ghost predicate Precedes(h: SelectionHash, c: seq<BlockIndex>, prev: nat, i: nat, j: nat)
    requires i < |c| && j < |c|
  {
    Key(h, c[i], prev) < Key(h, c[j], prev) || (Key(h, c[i], prev) == Key(h, c[j], prev) && i <= j)
  }

  method SelectBlockFromCandidates(h: SelectionHash, c: seq<BlockIndex>, picked: set<Hash>, stop: int, prev: nat)
    returns (fSelected: bool, ghost index: nat, pindexSelected: BlockIndex)
    requires Sorted(c) && c != []
    ensures fSelected <==> exists i :: 0 <= i < |c| && c[i].hash !in picked
    ensures fSelected ==> IsPick(h, c, picked, stop, prev, index) && pindexSelected == c[index]
  {
    hide Key;
    fSelected, index, pindexSelected := false, 0, c[0];
    var hashBest := 0;
    var i := 0;
    while i < |c|
      invariant 0 <= i <= |c|
      invariant !fSelected ==> forall j :: 0 <= j < i ==> c[j].hash in picked
      invariant fSelected ==> index < i && Eligible(c, picked, stop, index) && pindexSelected == c[index] && hashBest == Key(h, c[index], prev)
      invariant fSelected ==> forall j :: 0 <= j < i && Eligible(c, picked, stop, j) ==> Precedes(h, c, prev, index, j)
    {
      if fSelected && c[i].nTime > stop {
        assert c[index].hash !in picked;
        forall j | i <= j < |c| ensures !Eligible(c, picked, stop, j) {
          assert i < j ==> NotAfter(c[i], c[j]);
        }
        break;
      }
      if c[i].hash !in picked {
        var hashSelection := Key(h, c[i], prev);
        if fSelected && hashSelection < hashBest {
          hashBest, index, pindexSelected := hashSelection, i, c[i];
        } else if !fSelected {
          fSelected, hashBest, index, pindexSelected := true, hashSelection, i, c[i];
        }
      }
      i := i + 1;
    }
  }

  /** The order of two selection hashes, each known to be of proof of stake or not: those of proof of stake are taken for a
      2^32nd part of what they are. */
  ghost predicate HashBefore(hashA: nat, stakeA: bool, hashB: nat, stakeB: bool) {
    && (!stakeA && !stakeB ==> hashA <= hashB)
    && (stakeA && stakeB ==> hashA / 0x1_0000_0000 <= hashB / 0x1_0000_0000)
    && (!stakeA && stakeB ==> hashA * 0x1_0000_0000 <= hashB)
    && (stakeA && !stakeB ==> hashA < (hashB + 1) * 0x1_0000_0000)
  }

  lemma {:induction false} KeyOrder(h: SelectionHash, a: BlockIndex, b: BlockIndex, prev: nat)
    requires Key(h, a, prev) <= Key(h, b, prev)
    ensures HashBefore(h(a.hashProof, prev), a.fProofOfStake, h(b.hashProof, prev), b.fProofOfStake)
  {
  }

  /** Whenever a candidate that is left is in time, the one picked is in time too, and comes before it by selection hash. */
  lemma {:induction false} PickFavours(h: SelectionHash, c: seq<BlockIndex>, picked: set<Hash>, stop: int, prev: nat, i: nat, j: nat)
    requires Sorted(c) && IsPick(h, c, picked, stop, prev, i)
    requires j < |c| && c[j].hash !in picked && c[j].nTime <= stop
    ensures i < |c| && c[i].hash !in picked && c[i].nTime <= stop
    ensures HashBefore(h(c[i].hashProof, prev), c[i].fProofOfStake, h(c[j].hashProof, prev), c[j].fProofOfStake)
    ensures c[i].fProofOfStake == c[j].fProofOfStake && h(c[i].hashProof, prev) == h(c[j].hashProof, prev) ==> i <= j
  {
    hide HashBefore;
    assert Eligible(c, picked, stop, j) && Precedes(h, c, prev, i, j);
    assert i < j ==> NotAfter(c[i], c[j]);
    KeyOrder(h, c[i], c[j], prev);
  }

  /** A proof-of-stake candidate in time is picked before a proof-of-work one whenever its hash is less than 2^32 times the
      other's. */
  lemma {:induction false} StakeIsFavoured(h: SelectionHash, c: seq<BlockIndex>, picked: set<Hash>, stop: int, prev: nat, i: nat, j: nat)
    requires Sorted(c) && IsPick(h, c, picked, stop, prev, i) && i < |c|
    requires j < |c| && c[j].hash !in picked && c[j].nTime <= stop && c[j].fProofOfStake
    requires h(c[j].hashProof, prev) < h(c[i].hashProof, prev) * 0x1_0000_0000
    ensures c[i].fProofOfStake
  {
    PickFavours(h, c, picked, stop, prev, i, j);
  }

  /** When nothing in time is left, the earliest candidate that is left is picked. */
  lemma {:induction false} LatePick(h: SelectionHash, c: seq<BlockIndex>, picked: set<Hash>, stop: int, prev: nat, i: nat, j: nat)
    requires Sorted(c) && IsPick(h, c, picked, stop, prev, i) && i < |c| && c[i].nTime > stop
    requires j < |c| && c[j].hash !in picked
    ensures c[j].nTime > stop && i <= j
  {
    assert forall m :: 0 <= m < i ==> c[m].hash in picked;
    assert i < j ==> NotAfter(c[i], c[j]);
  }

  //////////////////////////////////////////////////////////////////////////////
  // The rounds
  //////////////////////////////////////////////////////////////////////////////

  ghost function Picked(c: seq<BlockIndex>, picks: seq<nat>): set<Hash>
    requires forall r :: 0 <= r < |picks| ==> picks[r] < |c|
  {
    set r | 0 <= r < |picks| :: c[picks[r]].hash
  }

  /** Every round picked, among the candidates not picked before, the one with the smallest
      selection hash within the round's stop, or the first one left. */
  ghost predicate Rounds(h: SelectionHash, c: seq<BlockIndex>, start: int, nModifierInterval: int, prev: nat, picks: seq<nat>) {
    && |picks| <= 64
    && (forall r :: 0 <= r < |picks| ==> picks[r] < |c|)
    && (forall r :: 0 <= r < |picks| ==>
          IsPick(h, c, Picked(c, picks[..r]), start + SectionSum(nModifierInterval, r + 1), prev, picks[r]))
    && (forall q, r :: 0 <= q < r < |picks| ==> picks[q] != picks[r])
  }

  /** The entropy bits of the picks, in order. */
  ghost function EntropyBits(c: seq<BlockIndex>, picks: seq<nat>): (bits: seq<bool>)
    requires forall r :: 0 <= r < |picks| ==> picks[r] < |c|
    ensures |bits| == |picks| && forall r :: 0 <= r < |picks| ==> bits[r] == c[picks[r]].nEntropyBit
  {
    if picks == [] then []
    else EntropyBits(c, picks[..|picks| - 1]) + [c[picks[|picks| - 1]].nEntropyBit]
  }

  lemma {:induction false} OneIsLeft(c: seq<BlockIndex>, picked: set<Hash>)
    requires Distinct(c) && |picked| < |c|
    ensures exists i :: 0 <= i < |c| && c[i].hash !in picked
  {
    if forall i :: 0 <= i < |c| ==> c[i].hash in picked {
      HashesFit(c, picked);
    }
  }

  lemma {:induction false} HashesFit(c: seq<BlockIndex>, s: set<Hash>)
    requires Distinct(c) && forall i :: 0 <= i < |c| ==> c[i].hash in s
    ensures |c| <= |s|
  {
    if c != [] {
      var last := c[|c| - 1];
      HashesFit(c[..|c| - 1], s - {last.hash});
    }
  }

  lemma {:induction false} RoundAdded(h: SelectionHash, c: seq<BlockIndex>, start: int, nModifierInterval: int, prev: nat, picks: seq<nat>, i: nat)
    requires Rounds(h, c, start, nModifierInterval, prev, picks) && |picks| < 64 && i < |c|
    requires IsPick(h, c, Picked(c, picks), start + SectionSum(nModifierInterval, |picks| + 1), prev, i)
    ensures Rounds(h, c, start, nModifierInterval, prev, picks + [i])
    ensures Picked(c, picks + [i]) == Picked(c, picks) + {c[i].hash}
  {
    hide IsPick, SectionSum;
    var more := picks + [i];
    assert more[..|picks|] == picks;
    PickIsNew(h, c, start + SectionSum(nModifierInterval, |picks| + 1), prev, picks, i);
    forall r | 0 <= r < |more|
      ensures IsPick(h, c, Picked(c, more[..r]), start + SectionSum(nModifierInterval, r + 1), prev, more[r])
    {
      if r < |picks| {
        assert more[..r] == picks[..r];
      }
    }
    assert more[|picks|] == i;
  }

  lemma {:induction false} PickIsNew(h: SelectionHash, c: seq<BlockIndex>, stop: int, prev: nat, picks: seq<nat>, i: nat)
    requires forall r :: 0 <= r < |picks| ==> picks[r] < |c|
    requires IsPick(h, c, Picked(c, picks), stop, prev, i)
    ensures forall r :: 0 <= r < |picks| ==> picks[r] != i
  {
  }

  /** Or-ing a bit above all the bits so far adds its power of two. */
  lemma {:induction false} BitAdded(c: seq<BlockIndex>, picks: seq<nat>, i: nat)
    requires (forall r :: 0 <= r < |picks| ==> picks[r] < |c|) && i < |c|
    ensures FromBits(EntropyBits(c, picks + [i])) == FromBits(EntropyBits(c, picks)) + (if c[i].nEntropyBit then Pow2(|picks|) else 0)
    ensures FromBits(EntropyBits(c, picks)) < Pow2(|picks|)
  {
    var more := picks + [i];
    assert more[..|picks|] == picks;
    var bits := EntropyBits(c, more);
    assert bits[..|picks|] == EntropyBits(c, picks);
    FromBitsBound(EntropyBits(c, picks));
  }

  /** The 64 rounds, or as many as there are candidates. All of them succeed. */
  method SelectRounds(h: SelectionHash, c: seq<BlockIndex>, start: int, nModifierInterval: int, prev: nat)
    returns (ok: bool, nStakeModifierNew: nat, ghost picks: seq<nat>)
    requires Sorted(c) && Distinct(c) && c != []
    ensures ok && |picks| == if |c| < 64 then |c| else 64
    ensures Rounds(h, c, start, nModifierInterval, prev, picks)
    ensures nStakeModifierNew == FromBits(EntropyBits(c, picks))
  {
    hide IsPick, Sorted, Distinct, SectionSum, Rounds, EntropyBits, FromBits, Pow2;
    nStakeModifierNew, picks := 0, [];
    NoRounds(h, c, start, nModifierInterval, prev);
    var nSelectionIntervalStop := start;
    var picked: set<Hash> := {};
    var nRound := 0;
    while nRound < 64 && nRound < |c|
      invariant 0 <= nRound <= 64 && nRound <= |c| && |picks| == nRound
      invariant nSelectionIntervalStop == start + SectionSum(nModifierInterval, nRound)
      invariant forall r :: 0 <= r < |picks| ==> picks[r] < |c|
      invariant picked == Picked(c, picks) && |picked| == nRound
      invariant Rounds(h, c, start, nModifierInterval, prev, picks)
      invariant nStakeModifierNew == FromBits(EntropyBits(c, picks))
    {
      NextStop(nModifierInterval, nRound);
      nSelectionIntervalStop := nSelectionIntervalStop + Section(nModifierInterval, nRound);
      OneIsLeft(c, picked);
      ghost var i;
      var pindex;
      ok, i, pindex := SelectBlockFromCandidates(h, c, picked, nSelectionIntervalStop, prev);
      PickedFresh(h, c, picked, nSelectionIntervalStop, prev, i);
      RoundAdded(h, c, start, nModifierInterval, prev, picks, i);
      BitAdded(c, picks, i);
      // the modifier has no bit from nRound up, so the bitwise or is an addition
      nStakeModifierNew := nStakeModifierNew + (if pindex.nEntropyBit then Pow2(nRound) else 0);
      picked := picked + {pindex.hash};
      picks := picks + [i];
      nRound := nRound + 1;
    }
    ok := true;
  }

  lemma {:induction false} NoRounds(h: SelectionHash, c: seq<BlockIndex>, start: int, nModifierInterval: int, prev: nat)
    ensures Rounds(h, c, start, nModifierInterval, prev, []) && Picked(c, []) == {}
    ensures SectionSum(nModifierInterval, 0) == 0 && FromBits(EntropyBits(c, [])) == 0
  {
  }

  lemma {:induction false} NextStop(nModifierInterval: int, k: nat)
    requires k < 64
    ensures SectionSum(nModifierInterval, k + 1) == SectionSum(nModifierInterval, k) + Section(nModifierInterval, k)
  {
  }

  lemma {:induction false} PickedFresh(h: SelectionHash, c: seq<BlockIndex>, picked: set<Hash>, stop: int, prev: nat, i: nat)
    requires IsPick(h, c, picked, stop, prev, i)
    ensures i < |c| && c[i].hash !in picked
  {
  }

  lemma {:induction false} NotPickedYet(c: seq<BlockIndex>, picks: seq<nat>, r: nat, j: nat)
    requires Distinct(c) && r <= |picks| && j < |c| && (forall q :: 0 <= q < |picks| ==> picks[q] < |c|)
    requires forall q :: 0 <= q < r ==> picks[q] != j
    ensures c[j].hash !in Picked(c, picks[..r])
  {
  }

  /** The picks of a whole selection: round r takes, of the candidates that no earlier round took and that are in time, one
      that comes first by selection hash; and when none of those is in time, the earliest. */
  lemma {:induction false} RoundFavours(h: SelectionHash, c: seq<BlockIndex>, start: int, nModifierInterval: int, prev: nat,
                                        picks: seq<nat>, r: nat, j: nat)
    requires Sorted(c) && Distinct(c) && Rounds(h, c, start, nModifierInterval, prev, picks) && r < |picks| && picks[r] < |c|
    requires j < |c| && forall q :: 0 <= q < r ==> picks[q] != j
    ensures var stop, a, b := start + SectionSum(nModifierInterval, r + 1), c[picks[r]], c[j];
            if b.nTime <= stop then
              a.nTime <= stop && HashBefore(h(a.hashProof, prev), a.fProofOfStake, h(b.hashProof, prev), b.fProofOfStake)
            else a.nTime <= stop || picks[r] <= j
  {
    hide HashBefore, SectionSum, IsPick, Distinct, Sorted, Picked;
    NotPickedYet(c, picks, r, j);
    var stop := start + SectionSum(nModifierInterval, r + 1);
    assert IsPick(h, c, Picked(c, picks[..r]), stop, prev, picks[r]);
    if c[j].nTime <= stop {
      PickFavours(h, c, Picked(c, picks[..r]), stop, prev, picks[r], j);
    } else if c[picks[r]].nTime > stop {
      LatePick(h, c, Picked(c, picks[..r]), stop, prev, picks[r], j);
    }
  }

  /** Bit r of the new modifier is the entropy bit of the r-th pick; all other bits are zero. */
  lemma {:induction false} ModifierBits(c: seq<BlockIndex>, picks: seq<nat>, r: nat)
    requires forall q :: 0 <= q < |picks| ==> picks[q] < |c|
    ensures Bit(FromBits(EntropyBits(c, picks)), r) == (r < |picks| && c[picks[r]].nEntropyBit)
  {
    FromBitsBit(EntropyBits(c, picks), r);
  }

  //////////////////////////////////////////////////////////////////////////////
  // The candidates
  //////////////////////////////////////////////////////////////////////////////

  /** A block of the chain, with what its index entry says of the modifier. */
  datatype Entry = Entry(b: BlockIndex, fGenerated: bool, nStakeModifier: nat)

  function Blocks(chain: seq<Entry>): (blocks: seq<BlockIndex>)
    ensures |blocks| == |chain| && forall i :: 0 <= i < |chain| ==> blocks[i] == chain[i].b
  {
    seq(|chain|, i requires 0 <= i < |chain| => chain[i].b)
  }

  /** `std::sort` on (time, hash). */
  method SortByTimestamp(s: seq<BlockIndex>) returns (c: seq<BlockIndex>)
    ensures Sorted(c) && multiset(c) == multiset(s)
    ensures forall i, j :: 0 <= i < j < |c| ==> c[i].nTime < c[j].nTime || (c[i].nTime == c[j].nTime && c[i].hash <= c[j].hash)
  {
    c := [];
    var i := 0;
    while i < |s|
      invariant 0 <= i <= |s| && Sorted(c) && multiset(c) == multiset(s[..i])
    {
      assert s[..i + 1] == s[..i] + [s[i]];
      c := Insert(c, s[i]);
      i := i + 1;
    }
    assert s[..|s|] == s;
  }

  method Insert(c: seq<BlockIndex>, b: BlockIndex) returns (r: seq<BlockIndex>)
    requires Sorted(c)
    ensures Sorted(r) && multiset(r) == multiset(c) + multiset{b}
  {
    var k := |c|;
    while k > 0 && !NotAfter(c[k - 1], b)
      invariant 0 <= k <= |c| && forall j :: k <= j < |c| ==> NotAfter(b, c[j])
    {
      k := k - 1;
    }
    r := c[..k] + [b] + c[k..];
    InsertedSorted(c, b, k);
  }

  lemma {:induction false} InsertedSorted(c: seq<BlockIndex>, b: BlockIndex, k: nat)
    requires Sorted(c) && k <= |c|
    requires (k > 0 ==> NotAfter(c[k - 1], b)) && forall j :: k <= j < |c| ==> NotAfter(b, c[j])
    ensures Sorted(c[..k] + [b] + c[k..])
    ensures multiset(c[..k] + [b] + c[k..]) == multiset(c) + multiset{b}
  {
    assert c == c[..k] + c[k..];
    forall i | 0 <= i < k ensures NotAfter(c[i], b) {
      BeforeInserted(c, b, k, i);
    }
    var r := c[..k] + [b] + c[k..];
    forall i, j | 0 <= i < j < |r| ensures NotAfter(r[i], r[j]) {
      InsertedInOrder(c, b, k, i, j);
    }
  }

  lemma {:induction false} BeforeInserted(c: seq<BlockIndex>, b: BlockIndex, k: nat, i: nat)
    requires Sorted(c) && i < k <= |c| && NotAfter(c[k - 1], b)
    ensures NotAfter(c[i], b)
  {
    if i < k - 1 {
      assert NotAfter(c[i], c[k - 1]);
    }
  }

  lemma {:induction false} InsertedInOrder(c: seq<BlockIndex>, b: BlockIndex, k: nat, i: nat, j: nat)
    requires Sorted(c) && k <= |c| && i < j <= |c|
    requires forall i :: 0 <= i < k ==> NotAfter(c[i], b)
    requires forall j :: k <= j < |c| ==> NotAfter(b, c[j])
    ensures var r := c[..k] + [b] + c[k..]; NotAfter(r[i], r[j])
  {
    hide NotAfter;
    var r := c[..k] + [b] + c[k..];
    if i < k {
      assert r[i] == c[i];
    } else if i > k {
      assert r[i] == c[i - 1];
    }
    if j > k {
      assert r[j] == c[j - 1];
    }
  }

  lemma {:induction false} DistinctIsPermuted(s: seq<BlockIndex>, c: seq<BlockIndex>)
    requires Distinct(s) && multiset(s) == multiset(c)
    ensures Distinct(c)
  {
    forall i, j | 0 <= i < j < |c| ensures c[i].hash != c[j].hash {
      if c[i].hash == c[j].hash {
        assert c[i] in multiset(c) && c[j] in multiset(c);
        assert c[i] in s && c[j] in s;
        assert c[i] == c[j];
        TwiceInSeq(c, i, j);
        OnceInDistinct(s, c[i]);
      }
    }
  }

  lemma {:induction false} TwiceInSeq(c: seq<BlockIndex>, i: nat, j: nat)
    requires i < j < |c| && c[i] == c[j]
    ensures multiset(c)[c[i]] >= 2
  {
    assert c == c[..j] + [c[j]] + c[j + 1..];
    assert c[i] in c[..j];
  }

  lemma {:induction false} OnceInDistinct(s: seq<BlockIndex>, b: BlockIndex)
    requires Distinct(s)
    ensures multiset(s)[b] <= 1
  {
    if s != [] {
      var n := |s| - 1;
      assert s == s[..n] + [s[n]];
      OnceInDistinct(s[..n], b);
      if b == s[n] {
        assert b !in s[..n];
      }
    }
  }

  /** The blocks from the first one after the last block that is too old. */
  ghost predicate IsRecent(chain: seq<Entry>, start: int, k: nat) {
    && k <= |chain|
    && (forall i :: k <= i < |chain| ==> chain[i].b.nTime >= start)
    && (k > 0 ==> chain[k - 1].b.nTime < start)
  }

  /** What the next modifier is made of. */
  ghost predicate Generated(h: SelectionHash, chain: seq<Entry>, nModifierInterval: nat, prev: nat,
                            c: seq<BlockIndex>, picks: seq<nat>, k: nat, m: nat)
    requires chain != [] && nModifierInterval > 0
  {
    var boundary := chain[|chain| - 1].b.nTime / nModifierInterval * nModifierInterval;
    var start := boundary - SectionSum(nModifierInterval, 64);
    && IsRecent(chain, start, k)
    && Sorted(c) && multiset(c) == multiset(Blocks(chain[k..]))
    && |picks| == (if |c| < 64 then |c| else 64)
    && Rounds(h, c, start, nModifierInterval, prev, picks)
    && m == FromBits(EntropyBits(c, picks))
  }

  /** The candidates are the blocks after the last one before a time from which the 64 sections last to the start of the
      interval that the previous block is in. */
  lemma {:induction false} WindowIs(h: SelectionHash, chain: seq<Entry>, nModifierInterval: nat, prev: nat,
                                    c: seq<BlockIndex>, picks: seq<nat>, k: nat, m: nat) returns (start: int)
    requires chain != [] && nModifierInterval > 0 && Generated(h, chain, nModifierInterval, prev, c, picks, k, m)
    ensures var end, nTime := start + SectionSum(nModifierInterval, 64), chain[|chain| - 1].b.nTime;
            end <= nTime < end + nModifierInterval && end % nModifierInterval == 0
    ensures k <= |chain| && (forall i :: k <= i < |chain| ==> chain[i].b.nTime >= start) && (k > 0 ==> chain[k - 1].b.nTime < start)
    ensures multiset(c) == multiset(Blocks(chain[k..])) && |picks| <= 64 && (|picks| < 64 ==> |picks| == |c|)
    ensures Rounds(h, c, start, nModifierInterval, prev, picks) && m == FromBits(EntropyBits(c, picks))
  {
    hide SectionSum, Rounds, Sorted, FromBits, EntropyBits, Blocks;
    var nTime := chain[|chain| - 1].b.nTime;
    var q := nTime / nModifierInterval;
    start := q * nModifierInterval - SectionSum(nModifierInterval, 64);
    DivUnique(q * nModifierInterval, nModifierInterval, q, 0);
    assert nTime == q * nModifierInterval + nTime % nModifierInterval;
  }

  /** The block that generated the modifier in force. */
  ghost predicate IsLastGenerated(chain: seq<Entry>, g: nat) {
    && g < |chain| && chain[g].fGenerated
    && forall i :: g < i < |chain| ==> !chain[i].fGenerated
  }

  method GetLastStakeModifier(chain: seq<Entry>) returns (ok: bool, g: nat)
    requires chain != []
    ensures ok <==> exists i :: 0 <= i < |chain| && chain[i].fGenerated
    ensures ok ==> IsLastGenerated(chain, g)
  {
    g := |chain| - 1;
    while g > 0 && !chain[g].fGenerated
      invariant g < |chain| && forall i :: g < i < |chain| ==> !chain[i].fGenerated
    {
      g := g - 1;
    }
    ok := chain[g].fGenerated;
  }

  /** The chain runs from the genesis block to the previous block; it is empty for genesis itself. */
  method ComputeNextStakeModifier(h: SelectionHash, chain: seq<Entry>, nModifierInterval: nat)
    returns (ok: bool, nStakeModifier: nat, fGenerated: bool, ghost c: seq<BlockIndex>, ghost picks: seq<nat>, ghost k: nat)
    requires nModifierInterval > 0 && Distinct(Blocks(chain))
    ensures chain == [] ==> ok && nStakeModifier == 0 && fGenerated
    ensures chain != [] ==> (ok <==> exists i :: 0 <= i < |chain| && chain[i].fGenerated)
    ensures forall g: nat :: ok && chain != [] && IsLastGenerated(chain, g) ==>
      && (fGenerated <==> chain[g].b.nTime / nModifierInterval < chain[|chain| - 1].b.nTime / nModifierInterval)
      && (!fGenerated ==> nStakeModifier == chain[g].nStakeModifier)
      && (fGenerated ==> Generated(h, chain, nModifierInterval, chain[g].nStakeModifier, c, picks, k, nStakeModifier))
  {
    hide Rounds, SectionSum, FromBits, EntropyBits, Sorted, Distinct, IsRecent, Blocks;
    nStakeModifier, fGenerated, c, picks, k := 0, false, [], [], 0;
    if chain == [] {
      return true, 0, true, c, picks, k;
    }
    var g;
    ok, g := GetLastStakeModifier(chain);
    if !ok {
      return;
    }
    nStakeModifier := chain[g].nStakeModifier;
    var nTime := chain[|chain| - 1].b.nTime;
    if chain[g].b.nTime / nModifierInterval >= nTime / nModifierInterval {
      return;
    }
    var nSelectionInterval := GetStakeModifierSelectionInterval(nModifierInterval);
    var nStart := nTime / nModifierInterval * nModifierInterval - nSelectionInterval;
    AtLeastOne(nModifierInterval, nTime);
    var sorted, n := Candidates(chain, nStart);
    c, k := sorted, n;
    ok, nStakeModifier, picks := SelectRounds(h, sorted, nStart, nModifierInterval, nStakeModifier);
    fGenerated := true;
  }

  /** The walk back from the previous block, sorted. */
  method Candidates(chain: seq<Entry>, nStart: int) returns (sorted: seq<BlockIndex>, n: nat)
    requires chain != [] && chain[|chain| - 1].b.nTime >= nStart && Distinct(Blocks(chain))
    ensures IsRecent(chain, nStart, n) && Sorted(sorted) && Distinct(sorted) && sorted != []
    ensures multiset(sorted) == multiset(Blocks(chain[n..]))
  {
    hide Sorted, Distinct;
    n := |chain|;
    while n > 0 && chain[n - 1].b.nTime >= nStart
      invariant 0 <= n <= |chain| && forall i :: n <= i < |chain| ==> chain[i].b.nTime >= nStart
    {
      n := n - 1;
    }
    sorted := SortByTimestamp(Blocks(chain[n..]));
    DistinctSuffix(chain, n);
    DistinctIsPermuted(Blocks(chain[n..]), sorted);
    assert |sorted| == |multiset(sorted)| == |multiset(Blocks(chain[n..]))|;
  }

  lemma {:induction false} DistinctSuffix(chain: seq<Entry>, n: nat)
    requires n <= |chain| && Distinct(Blocks(chain))
    ensures Distinct(Blocks(chain[n..]))
  {
  }

  lemma {:induction false} SumNonNegative(nModifierInterval: nat, k: nat)
    requires k <= 64
    ensures SectionSum(nModifierInterval, k) >= 0
  {
    if k > 0 {
      SumNonNegative(nModifierInterval, k - 1);
      SectionsGrow(nModifierInterval, k - 1, k - 1);
    }
  }

  /** The previous block itself is always a candidate. */
  lemma {:induction false} AtLeastOne(nModifierInterval: nat, nTime: nat)
    requires nModifierInterval > 0
    ensures nTime >= nTime / nModifierInterval * nModifierInterval - SectionSum(nModifierInterval, 64)
  {
    SumNonNegative(nModifierInterval, 64);
  }
}
