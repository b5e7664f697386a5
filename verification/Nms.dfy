/** Greedy non-maximum suppression of face detections (backend/app/face/detect.py). */
module Nms {
  import opened Basics
  import opened Rankings

  datatype Box = Box(x1: real, y1: real, x2: real, y2: real)

  const EPSILON: real := 0.00000001

  /** The area, clipped below at zero. A box with both sides inverted keeps a positive area. */
  function Area(b: Box): real {
    RealMax(0.0, (b.x2 - b.x1) * (b.y2 - b.y1))
  }

  function Intersection(a: Box, b: Box): real {
    var w := RealMax(0.0, RealMin(a.x2, b.x2) - RealMax(a.x1, b.x1));
    var h := RealMax(0.0, RealMin(a.y2, b.y2) - RealMax(a.y1, b.y1));
    w * h
  }

  /** No intersection exceeds either box, inverted boxes included, so the union below is never zero. */
  lemma IntersectionFits(a: Box, b: Box)
    ensures 0.0 <= Intersection(a, b) <= Area(a)
    ensures Intersection(a, b) == Intersection(b, a)
  {
  }

  function Quotient(part: real, whole: real): real
    requires whole > 0.0
  {
    part / whole
  }

  lemma QuotientTimes(part: real, whole: real)
    requires 0.0 <= part && whole > 0.0
    ensures Quotient(part, whole) * whole == part && Quotient(part, whole) >= 0.0
  {
  }

  function Overlap(a: Box, b: Box): (r: real)
    ensures 0.0 <= r
  {
    IntersectionFits(a, b);
    QuotientTimes(Intersection(a, b), Area(a) + Area(b) - Intersection(a, b) + EPSILON);
    Quotient(Intersection(a, b), Area(a) + Area(b) - Intersection(a, b) + EPSILON)
  }

  predicate Proper(b: Box) {
    b.x1 < b.x2 && b.y1 < b.y2
  }

  predicate Within(low: real, high: real, x: real) {
    low < x < high
  }

  /** The point lies strictly inside the box. */
  predicate Inside(b: Box, x: real, y: real) {
    Within(b.x1, b.x2, x) && Within(b.y1, b.y2, y)
  }

  /** A box of the points the two have in common. */
  ghost predicate IsMeet(c: Box, a: Box, b: Box) {
    forall x: real, y: real :: Inside(c, x, y) <==> Inside(a, x, y) && Inside(b, x, y)
  }

  ghost predicate AreDisjoint(a: Box, b: Box) {
    forall x: real, y: real :: !(Inside(a, x, y) && Inside(b, x, y))
  }

  /** Two open intervals with the same points, of which there are some, have the same ends. */
  lemma SameInterval(l: real, h: real, l': real, h': real)
    requires l < h && forall x: real :: Within(l, h, x) <==> Within(l', h', x)
    ensures l == l' && h == h'
  {
    assert Within(l, h, (l + h) / 2.0);
    assert Within(l, h, (l + RealMin(l', h)) / 2.0) <==> Within(l', h', (l + RealMin(l', h)) / 2.0);
    assert Within(l, h, (l' + RealMin(l, h')) / 2.0) <==> Within(l', h', (l' + RealMin(l, h')) / 2.0);
    assert Within(l, h, (h + RealMax(h', l)) / 2.0) <==> Within(l', h', (h + RealMax(h', l)) / 2.0);
    assert Within(l, h, (h' + RealMax(h, l')) / 2.0) <==> Within(l', h', (h' + RealMax(h, l')) / 2.0);
  }

  lemma SpanIsMeet(c: Box, a: Box, b: Box)
    requires Proper(c) && IsMeet(c, a, b)
    ensures c == Box(RealMax(a.x1, b.x1), RealMax(a.y1, b.y1), RealMin(a.x2, b.x2), RealMin(a.y2, b.y2))
  {
    var x, y := (c.x1 + c.x2) / 2.0, (c.y1 + c.y2) / 2.0;
    assert Inside(c, x, y);
    forall u: real
      ensures Within(c.x1, c.x2, u) <==> Within(RealMax(a.x1, b.x1), RealMin(a.x2, b.x2), u)
      ensures Within(c.y1, c.y2, u) <==> Within(RealMax(a.y1, b.y1), RealMin(a.y2, b.y2), u)
    {
      assert Inside(c, u, y) <==> Inside(a, u, y) && Inside(b, u, y);
      assert Inside(c, x, u) <==> Inside(a, x, u) && Inside(b, x, u);
    }
    SameInterval(c.x1, c.x2, RealMax(a.x1, b.x1), RealMin(a.x2, b.x2));
    SameInterval(c.y1, c.y2, RealMax(a.y1, b.y1), RealMin(a.y2, b.y2));
  }

  lemma MeetsProperly(a: Box, b: Box)
    requires RealMax(a.x1, b.x1) < RealMin(a.x2, b.x2) && RealMax(a.y1, b.y1) < RealMin(a.y2, b.y2)
    ensures !AreDisjoint(a, b)
  {
    var x := (RealMax(a.x1, b.x1) + RealMin(a.x2, b.x2)) / 2.0;
    var y := (RealMax(a.y1, b.y1) + RealMin(a.y2, b.y2)) / 2.0;
    assert Inside(a, x, y) && Inside(b, x, y);
  }

  /** The intersection is the area of the common points, zero exactly if there are none. */
  lemma IntersectionMeans(a: Box, b: Box, c: Box)
    ensures Proper(c) && IsMeet(c, a, b) ==> Intersection(a, b) == Area(c)
    ensures Intersection(a, b) == 0.0 <==> AreDisjoint(a, b)
  {
    if Proper(c) && IsMeet(c, a, b) {
      SpanIsMeet(c, a, b);
    }
    var w, h := RealMin(a.x2, b.x2) - RealMax(a.x1, b.x1), RealMin(a.y2, b.y2) - RealMax(a.y1, b.y1);
    if w > 0.0 && h > 0.0 {
      MeetsProperly(a, b);
      assert w * h > 0.0;
    }
  }

  /** The common area over the area of the union, to which a little is added. */
  lemma OverlapMeans(a: Box, b: Box)
    ensures Overlap(a, b) * (Area(a) + Area(b) - Intersection(a, b) + EPSILON) == Intersection(a, b)
  {
    IntersectionFits(a, b);
    IntersectionFits(b, a);
    QuotientTimes(Intersection(a, b), Area(a) + Area(b) - Intersection(a, b) + EPSILON);
  }

  lemma OverlapIsSymmetric(a: Box, b: Box)
    ensures Overlap(a, b) == Overlap(b, a)
  {
    IntersectionFits(a, b);
  }

  /** Which detections exclude each other. */
  type Relation = (nat, nat) -> bool

  function Clashes(boxes: seq<Box>, thresh: real): Relation {
    (i: nat, j: nat) => i < |boxes| && j < |boxes| && Overlap(boxes[i], boxes[j]) > thresh
  }

  ghost predicate Symmetric(clash: Relation) {
    forall i, j :: clash(i, j) == clash(j, i)
  }

  lemma ClashesAreSymmetric(boxes: seq<Box>, thresh: real)
    ensures Symmetric(Clashes(boxes, thresh))
  {
    forall i: nat, j: nat
      ensures Clashes(boxes, thresh)(i, j) == Clashes(boxes, thresh)(j, i)
    {
      if i < |boxes| && j < |boxes| {
        OverlapIsSymmetric(boxes[i], boxes[j]);
      }
    }
  }

  /** `d` lost to a kept box that scores at least as well and covers it too much. */
  ghost predicate Beaten(clash: Relation, scores: seq<real>, keep: seq<nat>, d: nat)
    requires Ranked(keep, scores) && d < |scores|
  {
    exists k | k in keep :: scores[k] >= scores[d] && clash(k, d)
  }

  /** The specification of suppression. */
  ghost predicate Suppression(clash: Relation, scores: seq<real>, keep: seq<nat>) {
    && Distinct(keep) && Ranked(keep, scores)
    && (forall i, j | 0 <= i < j < |keep| :: !clash(keep[i], keep[j]))
    && (forall d: nat | d < |scores| :: d in keep || Beaten(clash, scores, keep, d))
  }

  /** `order[np.where(ovr <= thresh)]`: the candidates that `i` does not suppress, in order. */
  function Survivors(clash: Relation, i: nat, rest: seq<nat>): (r: seq<nat>)
    ensures forall d :: d in r <==> d in rest && !clash(i, d)
    ensures |r| <= |rest|
  {
    if rest == [] then []
    else if clash(i, rest[0]) then Survivors(clash, i, rest[1..])
    else [rest[0]] + Survivors(clash, i, rest[1..])
  }

  /** `d` may stand after `i`: another index, scoring no better. */
  predicate Follows(scores: seq<real>, i: nat, d: nat) {
    i < |scores| && d < |scores| && i != d && scores[i] >= scores[d]
  }

  predicate AllFollow(scores: seq<real>, i: nat, rest: seq<nat>) {
    forall j | 0 <= j < |rest| :: Follows(scores, i, rest[j])
  }

  lemma HeadIsFollowed(scores: seq<real>, i: nat, rest: seq<nat>)
    requires i < |scores|
    ensures Distinct([i] + rest) && Ranked([i] + rest, scores)
       <==> AllFollow(scores, i, rest) && Distinct(rest) && Ranked(rest, scores)
  {
    var all := [i] + rest;
    assert all[0] == i && forall j | 0 <= j < |rest| :: rest[j] == all[j + 1];
    assert forall j | 0 < j < |all| :: all[j] == rest[j - 1];
    if AllFollow(scores, i, rest) && Distinct(rest) && Ranked(rest, scores) {
      forall a, b | 0 <= a < b < |all|
        ensures all[a] != all[b] && scores[all[a]] >= scores[all[b]]
      {
        assert a == 0 ==> Follows(scores, i, rest[b - 1]);
      }
    }
  }

  lemma {:induction false} SurvivorsStayRanked(clash: Relation, scores: seq<real>, i: nat, rest: seq<nat>)
    requires Distinct(rest) && Ranked(rest, scores)
    ensures var r := Survivors(clash, i, rest); Distinct(r) && Ranked(r, scores)
  {
    if rest != [] {
      var tail := Survivors(clash, i, rest[1..]);
      assert rest == [rest[0]] + rest[1..];
      HeadIsFollowed(scores, rest[0], rest[1..]);
      SurvivorsStayRanked(clash, scores, i, rest[1..]);
      assert AllFollow(scores, rest[0], tail) by {
        forall j | 0 <= j < |tail|
          ensures Follows(scores, rest[0], tail[j])
        {
          assert tail[j] in rest[1..];
        }
      }
      HeadIsFollowed(scores, rest[0], tail);
    }
  }

  method Greedy(clash: Relation, scores: seq<real>, ranking: seq<nat>) returns (keep: seq<nat>)
    requires IsRanking(ranking, scores)
    ensures Suppression(clash, scores, keep)
  {
    var order := ranking;
    keep := [];
    while |order| > 0
      invariant Settled(clash, scores, keep, order)
      invariant forall d: nat | d < |scores| :: d in keep || d in order || Beaten(clash, scores, keep, d)
      decreases |order|
    {
      var i := order[0];
      ghost var rest := order[1..];
      assert order == [i] + rest;
      KeepingStaysSettled(clash, scores, keep, i, rest);
      KeepingCoversMore(clash, scores, keep, i, rest);
      keep := keep + [i];
      order := Survivors(clash, i, order[1..]);
    }
  }

  /** `k` is before `d` and leaves it alone. */
  predicate Clears(clash: Relation, scores: seq<real>, k: nat, d: nat) {
    Follows(scores, k, d) && !clash(k, d)
  }

  predicate ClearsAll(clash: Relation, scores: seq<real>, k: nat, order: seq<nat>) {
    forall j | 0 <= j < |order| :: Clears(clash, scores, k, order[j])
  }

  predicate KeptIsClear(clash: Relation, scores: seq<real>, keep: seq<nat>) {
    && Distinct(keep) && Ranked(keep, scores)
    && forall i, j | 0 <= i < j < |keep| :: !clash(keep[i], keep[j])
  }

  /** Between rounds: what is kept is clear, and every kept box is clear of every candidate left. */
  predicate Settled(clash: Relation, scores: seq<real>, keep: seq<nat>, order: seq<nat>) {
    && Distinct(order) && Ranked(order, scores) && KeptIsClear(clash, scores, keep)
    && forall i | 0 <= i < |keep| :: ClearsAll(clash, scores, keep[i], order)
  }

  lemma KeptGrows(clash: Relation, scores: seq<real>, keep: seq<nat>, i: nat)
    requires KeptIsClear(clash, scores, keep) && i < |scores|
    requires forall a | 0 <= a < |keep| :: Clears(clash, scores, keep[a], i)
    ensures KeptIsClear(clash, scores, keep + [i])
  {
  }

  lemma KeepingStaysSettled(clash: Relation, scores: seq<real>, keep: seq<nat>, i: nat, rest: seq<nat>)
    requires Settled(clash, scores, keep, [i] + rest)
    ensures Settled(clash, scores, keep + [i], Survivors(clash, i, rest))
  {
    var order, left := [i] + rest, Survivors(clash, i, rest);
    assert order[0] == i && forall j | 0 <= j < |rest| :: order[j + 1] == rest[j];
    HeadIsFollowed(scores, i, rest);
    SurvivorsStayRanked(clash, scores, i, rest);
    forall a | 0 <= a < |keep|
      ensures Clears(clash, scores, keep[a], i) && ClearsAll(clash, scores, keep[a], left)
    {
      assert ClearsAll(clash, scores, keep[a], order);
      assert Clears(clash, scores, keep[a], order[0]);
      SurvivorsAreClear(clash, scores, keep[a], i, rest);
    }
    KeptGrows(clash, scores, keep, i);
    forall b | 0 <= b < |left|
      ensures Clears(clash, scores, i, left[b])
    {
      assert left[b] in left;
      var j :| 0 <= j < |rest| && rest[j] == left[b];
      assert Follows(scores, i, rest[j]);
    }
  }

  lemma SurvivorsAreClear(clash: Relation, scores: seq<real>, k: nat, i: nat, rest: seq<nat>)
    requires ClearsAll(clash, scores, k, [i] + rest)
    ensures ClearsAll(clash, scores, k, Survivors(clash, i, rest))
  {
    var left := Survivors(clash, i, rest);
    forall b | 0 <= b < |left|
      ensures Clears(clash, scores, k, left[b])
    {
      assert left[b] in left;
      var j :| 0 <= j < |rest| && rest[j] == left[b];
      assert ([i] + rest)[j + 1] == rest[j];
    }
  }

  lemma KeepingCoversMore(clash: Relation, scores: seq<real>, keep: seq<nat>, i: nat, rest: seq<nat>)
    requires Ranked(keep, scores) && Ranked(keep + [i], scores) && Ranked([i] + rest, scores)
    requires forall d: nat | d < |scores| :: d in keep || d in [i] + rest || Beaten(clash, scores, keep, d)
    ensures forall d: nat | d < |scores| ::
              d in keep + [i] || d in Survivors(clash, i, rest) || Beaten(clash, scores, keep + [i], d)
  {
    forall d: nat | d < |scores|
      ensures d in keep + [i] || d in Survivors(clash, i, rest) || Beaten(clash, scores, keep + [i], d)
    {
      if d in rest && clash(i, d) {
        var j :| 0 <= j < |rest| && rest[j] == d;
        assert ([i] + rest)[0] == i && ([i] + rest)[j + 1] == d;
        assert i in keep + [i] && scores[i] >= scores[d];
      } else if d !in keep && d != i && d !in rest {
        var k :| k in keep && scores[k] >= scores[d] && clash(k, d);
        assert k in keep + [i];
      }
    }
  }

  method Nms(boxes: seq<Box>, scores: seq<real>, ranking: seq<nat>, thresh: real) returns (keep: seq<nat>)
    requires |boxes| == |scores| && IsRanking(ranking, scores)
    ensures Suppression(Clashes(boxes, thresh), scores, keep)
    ensures IsKept(boxes, scores, keep, thresh)
  {
    keep := Greedy(Clashes(boxes, thresh), scores, ranking);
    SuppressionMeans(boxes, scores, keep, thresh);
  }

  /** Kept boxes come by score and overlap by the threshold at most; a dropped one overlaps a kept one by more. */
  ghost predicate IsKept(boxes: seq<Box>, scores: seq<real>, keep: seq<nat>, thresh: real)
    requires |boxes| == |scores|
  {
    && (forall i | 0 <= i < |keep| :: keep[i] < |boxes|)
    && (forall i, j | 0 <= i < j < |keep| ::
          scores[keep[i]] >= scores[keep[j]] && Overlap(boxes[keep[i]], boxes[keep[j]]) <= thresh)
    && (forall d: nat | d < |boxes| && d !in keep ::
          exists k | k in keep :: scores[k] >= scores[d] && Overlap(boxes[k], boxes[d]) > thresh)
  }

  lemma SuppressionMeans(boxes: seq<Box>, scores: seq<real>, keep: seq<nat>, thresh: real)
    requires |boxes| == |scores| && Suppression(Clashes(boxes, thresh), scores, keep)
    ensures IsKept(boxes, scores, keep, thresh)
  {
    var clash := Clashes(boxes, thresh);
    forall i, j | 0 <= i < j < |keep|
      ensures Overlap(boxes[keep[i]], boxes[keep[j]]) <= thresh
    {
      assert !clash(keep[i], keep[j]);
    }
    forall d: nat | d < |boxes| && d !in keep
      ensures exists k | k in keep :: scores[k] >= scores[d] && Overlap(boxes[k], boxes[d]) > thresh
    {
      assert Beaten(clash, scores, keep, d);
    }
  }

  function Pick<T>(s: seq<T>, keep: seq<nat>): seq<T>
    requires forall i | 0 <= i < |keep| :: keep[i] < |s|
  {
    seq(|keep|, i requires 0 <= i < |keep| => s[keep[i]])
  }

  /** Suppressing the kept boxes again drops none of them, however ties are ranked. */
  lemma SuppressionIsIdempotent(boxes: seq<Box>, scores: seq<real>, thresh: real, keep: seq<nat>, again: seq<nat>)
    requires |boxes| == |scores| && Suppression(Clashes(boxes, thresh), scores, keep)
    requires Suppression(Clashes(Pick(boxes, keep), thresh), Pick(scores, keep), again)
    ensures forall i: nat | i < |keep| :: i in again
  {
    var clash, clash' := Clashes(boxes, thresh), Clashes(Pick(boxes, keep), thresh);
    ClashesAreSymmetric(boxes, thresh);
    forall i: nat | i < |keep|
      ensures i in again
    {
      forall k: nat | k < |keep| && k != i
        ensures !clash'(k, i)
      {
        assert clash'(k, i) == clash(keep[k], keep[i]) == clash(keep[i], keep[k]);
      }
    }
  }

  // With no tied scores the specification leaves no choice: the kept set is unique.

  function Better(scores: seq<real>, d: nat): set<nat>
    requires d < |scores|
  {
    set k: nat | k < |scores| && scores[k] > scores[d]
  }

  predicate Untied(scores: seq<real>) {
    forall i, j | 0 <= i < j < |scores| :: scores[i] != scores[j]
  }

  lemma {:induction false} SuppressionIsUnique(
    clash: Relation, scores: seq<real>, keep: seq<nat>, keep': seq<nat>, d: nat)
    requires Symmetric(clash) && Untied(scores) && d < |scores|
    requires Suppression(clash, scores, keep) && Suppression(clash, scores, keep')
    ensures d in keep <==> d in keep'
    decreases Better(scores, d)
  {
    forall k: nat | k < |scores| && scores[k] > scores[d]
      ensures k in keep <==> k in keep'
    {
      assert k in Better(scores, d) && k !in Better(scores, k);
      SuppressionIsUnique(clash, scores, keep, keep', k);
    }
    WinnerCannotLose(clash, scores, keep, keep', d);
    WinnerCannotLose(clash, scores, keep', keep, d);
  }

  lemma WinnerCannotLose(clash: Relation, scores: seq<real>, keep: seq<nat>, keep': seq<nat>, d: nat)
    requires Symmetric(clash) && Untied(scores) && d < |scores|
    requires Suppression(clash, scores, keep) && Suppression(clash, scores, keep')
    requires forall k: nat | k < |scores| && scores[k] > scores[d] :: k in keep <==> k in keep'
    ensures d in keep ==> d in keep'
  {
  }
}
