/** Whom a full tried bucket gives up: a few entries are shuffled to its front, the least recently
    successful of them is remembered, and the place that it came from is returned. */
module AddrEviction {
  import opened AddrTables

  const TRIED_ENTRIES_INSPECT_ON_EVICT: nat := 4

  /** The bucket, the turn that drew the oldest entry so far, and the place it was drawn from. */
  datatype Choice = Choice(bucket: seq<int>, turn: int, pos: int)

  /** How many entries of a bucket of n are inspected. */
  function Inspected(n: nat): nat {
    if n < TRIED_ENTRIES_INSPECT_ON_EVICT then n else TRIED_ENTRIES_INSPECT_ON_EVICT
  }

  /** Turn i draws among the entries that no earlier turn has put in place. */
  ghost predicate Drawn(draws: seq<nat>, n: nat) {
    |draws| <= n && forall i :: 0 <= i < |draws| ==> draws[i] < n - i
  }

  ghost predicate AllKnown(info: Table, s: seq<int>) {
    forall j :: 0 <= j < |s| ==> s[j] in info
  }

  ghost predicate Different(s: seq<int>) {
    forall i, j :: 0 <= i < j < |s| ==> s[i] != s[j]
  }

  /** The choice after all the draws. */
  ghost function Choose(info: Table, s: seq<int>, draws: seq<nat>): (c: Choice)
    requires Drawn(draws, |s|) && AllKnown(info, s)
    ensures |c.bucket| == |s| && AllKnown(info, c.bucket)
    ensures draws == [] ==> c.turn == c.pos == -1
    ensures draws != [] ==> 0 <= c.turn < |draws| && c.turn <= c.pos < |s|
    decreases |draws|
  {
    if draws == [] then Choice(s, -1, -1)
    else
      var i := |draws| - 1;
      Take(info, Choose(info, s, draws[..i]), draws[i] + i, i)
  }

  /** One turn: the entry at the drawn place changes places with the one at the turn's own. */
  ghost function Take(info: Table, c: Choice, nPos: nat, i: nat): (d: Choice)
    requires i <= nPos < |c.bucket| && AllKnown(info, c.bucket) && c.turn < i
    ensures |d.bucket| == |c.bucket| && AllKnown(info, d.bucket)
  {
    var t := SwapAt(c.bucket, nPos, i);
    if c.turn < 0 || info[t[i]].nLastSuccess < info[t[c.turn]].nLastSuccess then Choice(t, i, nPos)
    else Choice(t, c.turn, c.pos)
  }

  /** The entry drawn at the named turn is in its place, it is the first of the inspected ones that succeeded least
      recently, and its draw says where it came from. */
  ghost predicate FirstOldest(info: Table, c: Choice, draws: seq<nat>)
    requires AllKnown(info, c.bucket)
  {
    && 0 <= c.turn < |draws| <= |c.bucket| && c.pos == draws[c.turn] + c.turn
    && (forall i :: 0 <= i < |draws| ==> info[c.bucket[c.turn]].nLastSuccess <= info[c.bucket[i]].nLastSuccess)
    && (forall i :: 0 <= i < c.turn ==> info[c.bucket[c.turn]].nLastSuccess < info[c.bucket[i]].nLastSuccess)
  }

  lemma {:induction false} ChoiceIsOldest(info: Table, s: seq<int>, draws: seq<nat>)
    requires Drawn(draws, |s|) && AllKnown(info, s) && draws != []
    ensures FirstOldest(info, Choose(info, s, draws), draws)
    decreases |draws|
  {
    var i := |draws| - 1;
    if i > 0 {
      ChoiceIsOldest(info, s, draws[..i]);
      KeptInPlace(Choose(info, s, draws[..i]).bucket, draws[i] + i, i);
    }
  }

  /** Places before the turn's own are not touched. */
  lemma {:induction false} KeptInPlace(s: seq<int>, nPos: nat, i: nat)
    requires i <= nPos < |s|
    ensures forall j :: 0 <= j < i ==> SwapAt(s, nPos, i)[j] == s[j]
  {
  }

  lemma {:induction false} ChoicePermutes(info: Table, s: seq<int>, draws: seq<nat>)
    requires Drawn(draws, |s|) && AllKnown(info, s) && Different(s)
    ensures var t := Choose(info, s, draws).bucket; Different(t) && multiset(t) == multiset(s)
    decreases |draws|
  {
    hide SwapAt, Different;
    if draws != [] {
      var i := |draws| - 1;
      ChoicePermutes(info, s, draws[..i]);
      SwapPermutes(Choose(info, s, draws[..i]).bucket, draws[i] + i, i);
    }
  }

  lemma {:induction false} SwapPermutes(s: seq<int>, i: nat, j: nat)
    requires i < |s| && j < |s|
    ensures multiset(SwapAt(s, i, j)) == multiset(s)
    ensures Different(s) ==> Different(SwapAt(s, i, j))
  {
  }

  /** The entry at the returned place is the oldest one inspected exactly when the turn that found it drew no offset. */
  lemma {:induction false} VictimIsOldest(info: Table, s: seq<int>, draws: seq<nat>)
    requires Drawn(draws, |s|) && AllKnown(info, s) && Different(s) && draws != []
    ensures var c := Choose(info, s, draws);
            c.bucket[c.pos] == c.bucket[c.turn] <==> draws[c.turn] == 0
  {
    ChoiceIsOldest(info, s, draws);
    ChoicePermutes(info, s, draws);
  }

  /** A full bucket gives up its first entry for its second one, which succeeded less recently, when the second is drawn
      first. */
  lemma {:induction false} YoungerIsEvicted(info: Table, s: seq<int>)
    requires |s| == TRIED_BUCKET_SIZE && Different(s) && AllKnown(info, s)
    requires info[s[1]].nLastSuccess < info[s[0]].nLastSuccess
    requires info[s[1]].nLastSuccess <= info[s[2]].nLastSuccess && info[s[1]].nLastSuccess <= info[s[3]].nLastSuccess
    ensures var draws: seq<nat> := [1, 0, 0, 0];
            && |draws| == Inspected(|s|) && Drawn(draws, |s|)
            && var c := Choose(info, s, draws);
               c.turn == 0 && c.pos == 1 && c.bucket[c.turn] == s[1] && c.bucket[c.pos] == s[0]
  {
    hide Choose, Take, SwapAt;
    var t := SwapAt(s, 1, 0);
    Swapped(s);
    FirstTurn(info, s, 1);
    var d1: seq<nat>, d2: seq<nat>, d3: seq<nat>, d4: seq<nat> := [1], [1, 0], [1, 0, 0], [1, 0, 0, 0];
    assert d1 + [0] == d2 && d2 + [0] == d3 && d3 + [0] == d4;
    QuietTurn(info, s, d1, Choice(t, 0, 1));
    QuietTurn(info, s, d2, Choice(t, 0, 1));
    QuietTurn(info, s, d3, Choice(t, 0, 1));
  }

  lemma {:induction false} Swapped(s: seq<int>)
    requires |s| >= 4
    ensures var t := SwapAt(s, 1, 0); t[0] == s[1] && t[1] == s[0] && t[2] == s[2] && t[3] == s[3]
  {
  }

  lemma {:induction false} FirstTurn(info: Table, s: seq<int>, draw: nat)
    requires AllKnown(info, s) && draw < |s|
    ensures Choose(info, s, [draw]) == Choice(SwapAt(s, draw, 0), 0, draw)
  {
    assert [draw][..0] == [];
  }

  /** A turn that draws no offset and finds nothing older changes nothing. */
  lemma {:induction false} QuietTurn(info: Table, s: seq<int>, draws: seq<nat>, c: Choice)
    requires Drawn(draws, |s|) && |draws| < |s| && AllKnown(info, s) && Choose(info, s, draws) == c && draws != []
    requires info[c.bucket[c.turn]].nLastSuccess <= info[c.bucket[|draws|]].nLastSuccess
    ensures Drawn(draws + [0], |s|) && Choose(info, s, draws + [0]) == c
  {
    assert (draws + [0])[..|draws|] == draws;
    assert SwapAt(c.bucket, |draws|, |draws|) == c.bucket;
  }

  /** Only the times of the last success matter. */
  lemma {:induction false} ChoiceAgrees(info: Table, info': Table, s: seq<int>, draws: seq<nat>)
    requires Drawn(draws, |s|) && AllKnown(info, s) && AllKnown(info', s)
    requires forall x :: x in info && x in info' ==> info[x].nLastSuccess == info'[x].nLastSuccess
    ensures Choose(info, s, draws) == Choose(info', s, draws)
    decreases |draws|
  {
    if draws != [] {
      ChoiceAgrees(info, info', s, draws[..|draws| - 1]);
    }
  }
}
