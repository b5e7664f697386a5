/** Orders of indices by descending score, as NumPy's sorts deliver them: ties come in any order. */
module Rankings {
  predicate Distinct(s: seq<nat>) {
    forall i, j | 0 <= i < j < |s| :: s[i] != s[j]
  }

  predicate Ranked(s: seq<nat>, scores: seq<real>) {
    && (forall i | 0 <= i < |s| :: s[i] < |scores|)
    && (forall i, j | 0 <= i < j < |s| :: scores[s[i]] >= scores[s[j]])
  }

  /** What the sort delivers: every index once, best score first, ties in any order. */
  predicate IsRanking(order: seq<nat>, scores: seq<real>) {
    Distinct(order) && Ranked(order, scores) && forall i: nat | i < |scores| :: i in order
  }

  /** `argmax`: the first index with the largest score. */
  function ArgMax(scores: seq<real>): (r: nat)
    requires scores != []
    ensures r < |scores|
    ensures forall i | 0 <= i < |scores| :: scores[i] <= scores[r]
    ensures forall i | 0 <= i < r :: scores[i] < scores[r]
  {
    if |scores| == 1 then 0
    else
      var best := ArgMax(scores[..|scores| - 1]);
      assert scores[..|scores| - 1][best] == scores[best];
      if scores[best] < scores[|scores| - 1] then |scores| - 1 else best
  }

  /** The first `k` of a ranking are `k` of the best. */
  lemma PrefixHoldsTheBest(order: seq<nat>, scores: seq<real>, k: nat, i: nat)
    requires IsRanking(order, scores) && k <= |order| && i < |scores|
    requires i !in order[..k]
    ensures forall j | 0 <= j < k :: scores[order[j]] >= scores[i]
  {
    assert forall j | 0 <= j < k :: order[j] in order[..k];
    assert i in order;
    var at :| 0 <= at < |order| && order[at] == i;
    assert at >= k;
  }

  /** A ranking lists exactly as many indices as there are scores. */
  lemma RankingLength(order: seq<nat>, scores: seq<real>)
    requires IsRanking(order, scores)
    ensures |order| == |scores|
  {
    CountDistinct(order);
    assert Members(order) == Below(|scores|);
  }

  function Below(n: nat): (r: set<nat>)
    ensures |r| == n && forall i: nat :: i in r <==> i < n
  {
    if n == 0 then {} else Below(n - 1) + {n - 1}
  }

  function Members(s: seq<nat>): set<nat> {
    set i | i in s
  }

  lemma {:induction false} CountDistinct(s: seq<nat>)
    requires Distinct(s)
    ensures |Members(s)| == |s|
  {
    if s != [] {
      var init, last := s[..|s| - 1], s[|s| - 1];
      CountDistinct(init);
      assert last !in Members(init);
      assert Members(s) == Members(init) + {last};
    }
  }

  /** Where a new index goes: behind every score at least as good. */
  function PlaceOf(order: seq<nat>, scores: seq<real>, score: real): (p: nat)
    requires Ranked(order, scores)
    ensures p <= |order|
    ensures forall i | 0 <= i < p :: scores[order[i]] >= score
    ensures forall i | p <= i < |order| :: scores[order[i]] <= score
  {
    if order == [] then 0
    else if scores[order[0]] < score then 0
    else 1 + PlaceOf(order[1..], scores, score)
  }

  function Placed(order: seq<nat>, p: nat, n: nat): seq<nat>
    requires p <= |order|
  {
    order[..p] + [n] + order[p..]
  }

  lemma PlacingKeepsRanked(order: seq<nat>, scores: seq<real>, p: nat, n: nat)
    requires Distinct(order) && Ranked(order, scores) && n < |scores| && p <= |order| && n !in order
    requires forall i | 0 <= i < p :: scores[order[i]] >= scores[n]
    requires forall i | p <= i < |order| :: scores[order[i]] <= scores[n]
    ensures Distinct(Placed(order, p, n)) && Ranked(Placed(order, p, n), scores)
  {
    var placed := Placed(order, p, n);
    forall i | 0 <= i < |placed|
      ensures placed[i] == if i < p then order[i] else if i == p then n else order[i - 1]
    {
    }
    forall i, j | 0 <= i < j < |placed|
      ensures placed[i] != placed[j] && scores[placed[i]] >= scores[placed[j]]
    {
    }
  }

  lemma PlacedHolds(order: seq<nat>, p: nat, n: nat, i: nat)
    requires p <= |order|
    ensures i in Placed(order, p, n) <==> i == n || i in order
  {
    assert order == order[..p] + order[p..];
  }

  /** Every list of scores can be ranked. */
  lemma {:induction false} CanBeRanked(scores: seq<real>) returns (order: seq<nat>)
    ensures IsRanking(order, scores)
  {
    if scores == [] {
      order := [];
    } else {
      var n := |scores| - 1;
      var before := CanBeRanked(scores[..n]);
      assert Ranked(before, scores) by {
        assert forall i: nat | i < n :: scores[..n][i] == scores[i];
      }
      var p := PlaceOf(before, scores, scores[n]);
      order := Placed(before, p, n);
      PlacingKeepsRanked(before, scores, p, n);
      forall i: nat | i < |scores|
        ensures i in order
      {
        PlacedHolds(before, p, n, i);
      }
    }
  }
}
