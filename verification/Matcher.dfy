/**
 The exact matcher over the face gallery (backend/app/face/gallery.py).

 Vectors are taken as normalised and their similarity as a function `sim`: a NumPy dot product there.
 */
module Matcher {
  import opened Basics
  import opened Rankings

  type Vector = seq<real>

  type Similarity = (Vector, Vector) -> real

  datatype GalleryEntry = GalleryEntry(personId: Uuid, embeddingId: Uuid, vector: Vector)

  datatype Thresholds = Thresholds(matchThreshold: real, matchMargin: real, lowConfidenceThreshold: real)

  datatype Candidate = Candidate(personId: Uuid, embeddingId: Uuid, score: real)

  datatype Decision = Accept | Ambiguous | LowConfidence | Unknown

  datatype MatchResult = MatchResult(
    decision: Decision,
    candidates: seq<Candidate>,
    top1: Option<Candidate>,
    top2Other: Option<Candidate>,
    margin: Option<real>)

  function Scores(sim: Similarity, entries: seq<GalleryEntry>, query: Vector): (r: seq<real>)
    ensures |r| == |entries|
  {
    seq(|entries|, i requires 0 <= i < |entries| => sim(entries[i].vector, query))
  }

  function CandidateFor(e: GalleryEntry, score: real): Candidate {
    Candidate(e.personId, e.embeddingId, score)
  }

  /** The indexes whose entry belongs to somebody else, ascending. */
  function OtherIndexes(entries: seq<GalleryEntry>, person: Uuid): (r: seq<nat>)
    ensures forall i: nat :: i in r <==> i < |entries| && entries[i].personId != person
    ensures forall i | 0 <= i < |r| :: r[i] < |entries|
  {
    if entries == [] then []
    else
      var n := |entries| - 1;
      OtherIndexes(entries[..n], person) + if entries[n].personId != person then [n] else []
  }

  function DecisionFor(top1: Option<Candidate>, top2Other: Option<Candidate>, t: Thresholds): Decision {
    if top1.None? then Unknown
    else if top1.value.score >= t.matchThreshold then
      if top2Other.None? || top1.value.score - top2Other.value.score >= t.matchMargin then Accept else Ambiguous
    else if top1.value.score >= t.lowConfidenceThreshold then LowConfidence
    else Unknown
  }

  function Top1(sim: Similarity, entries: seq<GalleryEntry>, query: Vector): Option<Candidate> {
    if entries == [] then None
    else
      var scores := Scores(sim, entries, query);
      var best := ArgMax(scores);
      Some(CandidateFor(entries[best], scores[best]))
  }

  function NearestOther(sim: Similarity, entries: seq<GalleryEntry>, query: Vector, person: Uuid): Option<Candidate> {
    var others := OtherIndexes(entries, person);
    if others == [] then None
    else
      var scores := Scores(sim, entries, query);
      var otherScores := seq(|others|, i requires 0 <= i < |others| => scores[others[i]]);
      var nearest := others[ArgMax(otherScores)];
      Some(CandidateFor(entries[nearest], scores[nearest]))
  }

  /** The `k` best entries; `ranking` is the order the partition and sort happened to produce. */
  function RankedCandidates(sim: Similarity, entries: seq<GalleryEntry>, query: Vector, ranking: seq<nat>, k: nat)
    : (r: seq<Candidate>)
    requires IsRanking(ranking, Scores(sim, entries, query))
    ensures |r| == Min(k, |entries|)
  {
    var scores := Scores(sim, entries, query);
    RankingLength(ranking, scores);
    seq(Min(k, |entries|), i requires 0 <= i < Min(k, |entries|) =>
      CandidateFor(entries[ranking[i]], scores[ranking[i]]))
  }

  function Match(sim: Similarity, entries: seq<GalleryEntry>, query: Vector, t: Thresholds, ranking: seq<nat>, k: nat)
    : MatchResult
    requires k >= 1 && IsRanking(ranking, Scores(sim, entries, query))
  {
    var candidates := RankedCandidates(sim, entries, query, ranking, k);
    var top1 := Top1(sim, entries, query);
    var other := if top1.None? then None else NearestOther(sim, entries, query, top1.value.personId);
    var margin := if top1.None? || other.None? then None else Some(top1.value.score - other.value.score);
    MatchResult(DecisionFor(top1, other, t), candidates, top1, other, margin)
  }

  // ---------------------------------------------------------------------------------------------
  // What a result means, without indexes: best scores over a set of entries

  ghost predicate IsBestScore(sim: Similarity, entries: set<GalleryEntry>, query: Vector, score: real) {
    && (exists e | e in entries :: sim(e.vector, query) == score)
    && (forall e | e in entries :: sim(e.vector, query) <= score)
  }

  function Entries(entries: seq<GalleryEntry>): set<GalleryEntry> {
    set e | e in entries
  }

  function Others(entries: set<GalleryEntry>, person: Uuid): set<GalleryEntry> {
    set e | e in entries && e.personId != person
  }

  /** The result named by a brute-force scan: `p` scores best at `best`, everybody else at most `rest`. */
  ghost predicate BruteForce(sim: Similarity, entries: set<GalleryEntry>, query: Vector,
                             top1: Option<Candidate>, other: Option<Candidate>)
  {
    && (top1.None? <==> entries == {})
    && (top1.None? ==> other.None?)
    && (top1.Some? ==>
          var p := top1.value.personId;
          && IsBestScore(sim, entries, query, top1.value.score)
          && (exists e | e in entries ::
                e.personId == p && e.embeddingId == top1.value.embeddingId && sim(e.vector, query) == top1.value.score)
          && (other.None? <==> Others(entries, p) == {})
          && (other.Some? ==>
                && other.value.personId != p
                && IsBestScore(sim, Others(entries, p), query, other.value.score)))
  }

  lemma Top1IsBest(sim: Similarity, entries: seq<GalleryEntry>, query: Vector)
    requires entries != []
    ensures var c := Top1(sim, entries, query).value;
            && IsBestScore(sim, Entries(entries), query, c.score)
            && exists e | e in Entries(entries) ::
                 e.personId == c.personId && e.embeddingId == c.embeddingId && sim(e.vector, query) == c.score
  {
    var scores := Scores(sim, entries, query);
    var best := ArgMax(scores);
    assert entries[best] in Entries(entries);
    forall e | e in Entries(entries)
      ensures sim(e.vector, query) <= scores[best]
    {
      var i :| 0 <= i < |entries| && entries[i] == e;
      assert scores[i] == sim(e.vector, query);
    }
  }

  lemma NearestOtherIsBest(sim: Similarity, entries: seq<GalleryEntry>, query: Vector, person: Uuid)
    ensures var c := NearestOther(sim, entries, query, person);
            && (c.None? <==> Others(Entries(entries), person) == {})
            && (c.Some? ==>
                  && c.value.personId != person
                  && IsBestScore(sim, Others(Entries(entries), person), query, c.value.score))
  {
    var others, scores := OtherIndexes(entries, person), Scores(sim, entries, query);
    forall e | e in Others(Entries(entries), person)
      ensures exists i: nat :: i in others && entries[i] == e
    {
      var i: nat :| i < |entries| && entries[i] == e;
      assert i in others;
    }
    if others != [] {
      var otherScores := seq(|others|, i requires 0 <= i < |others| => scores[others[i]]);
      var at := ArgMax(otherScores);
      assert others[at] in others;
      assert entries[others[at]] in Others(Entries(entries), person);
      forall e | e in Others(Entries(entries), person)
        ensures sim(e.vector, query) <= otherScores[at]
      {
        var i: nat :| i in others && entries[i] == e;
        var j :| 0 <= j < |others| && others[j] == i;
        assert otherScores[j] == sim(e.vector, query);
      }
    }
  }

  predicate WellFormed(r: MatchResult, t: Thresholds) {
    && r.decision == DecisionFor(r.top1, r.top2Other, t)
    && r.margin == if r.top1.None? || r.top2Other.None? then None
                   else Some(r.top1.value.score - r.top2Other.value.score)
  }

  lemma NothingMatches(sim: Similarity, query: Vector)
    ensures Top1(sim, [], query).None? && BruteForce(sim, Entries([]), query, None, None)
  {
  }

  /** The two searches together are a brute-force scan. */
  lemma SearchesAreBruteForce(sim: Similarity, entries: seq<GalleryEntry>, query: Vector)
    requires entries != []
    ensures var top1 := Top1(sim, entries, query);
            && top1.Some?
            && BruteForce(sim, Entries(entries), query, top1, NearestOther(sim, entries, query, top1.value.personId))
  {
    var top1 := Top1(sim, entries, query);
    assert entries[0] in Entries(entries);
    Top1IsBest(sim, entries, query);
    NearestOtherIsBest(sim, entries, query, top1.value.personId);
  }

  lemma MatchIsTheSearches(sim: Similarity, entries: seq<GalleryEntry>, query: Vector, t: Thresholds,
                           ranking: seq<nat>, k: nat)
    requires k >= 1 && IsRanking(ranking, Scores(sim, entries, query))
    ensures var r := Match(sim, entries, query, t, ranking, k);
            && WellFormed(r, t)
            && r.top1 == Top1(sim, entries, query)
            && r.top2Other == if r.top1.None? then None else NearestOther(sim, entries, query, r.top1.value.personId)
  {
  }

  /** The vectorised search finds what a brute-force scan of the entries would, whatever `k` and the ties. */
  lemma MatchIsBruteForce(sim: Similarity, entries: seq<GalleryEntry>, query: Vector, t: Thresholds,
                          ranking: seq<nat>, k: nat)
    requires k >= 1 && IsRanking(ranking, Scores(sim, entries, query))
    ensures var r := Match(sim, entries, query, t, ranking, k);
            WellFormed(r, t) && BruteForce(sim, Entries(entries), query, r.top1, r.top2Other)
  {
    MatchIsTheSearches(sim, entries, query, t, ranking, k);
    if entries == [] {
      NothingMatches(sim, query);
    } else {
      SearchesAreBruteForce(sim, entries, query);
    }
  }

  /** Acceptance is exactly: some entry reaches the threshold, and every other person's entry stays a margin below. */
  lemma AcceptMeans(sim: Similarity, entries: seq<GalleryEntry>, query: Vector, t: Thresholds,
                    ranking: seq<nat>, k: nat)
    requires k >= 1 && IsRanking(ranking, Scores(sim, entries, query))
    ensures var r := Match(sim, entries, query, t, ranking, k);
            r.decision.Accept? <==>
            && r.top1.Some? && r.top1.value.score >= t.matchThreshold
            && forall e | e in entries && e.personId != r.top1.value.personId ::
                 sim(e.vector, query) <= r.top1.value.score - t.matchMargin
  {
    MatchIsBruteForce(sim, entries, query, t, ranking, k);
    var r := Match(sim, entries, query, t, ranking, k);
    if r.top1.Some? {
      var others := Others(Entries(entries), r.top1.value.personId);
      assert forall e :: e in others <==> e in entries && e.personId != r.top1.value.personId;
      if r.top2Other.Some? {
        var e :| e in others && sim(e.vector, query) == r.top2Other.value.score;
      }
    }
  }

  /** Some entry reaches `floor`. */
  ghost predicate SomeReach(sim: Similarity, entries: seq<GalleryEntry>, query: Vector, floor: real) {
    exists e | e in entries :: sim(e.vector, query) >= floor
  }

  /** The three other answers, by the best score and by how near somebody else comes. */
  lemma RefusalsMean(sim: Similarity, entries: seq<GalleryEntry>, query: Vector, t: Thresholds,
                     ranking: seq<nat>, k: nat)
    requires k >= 1 && IsRanking(ranking, Scores(sim, entries, query))
    ensures var r := Match(sim, entries, query, t, ranking, k);
            && (r.decision.Ambiguous? <==>
                && r.top1.Some? && r.top1.value.score >= t.matchThreshold
                && exists e | e in entries && e.personId != r.top1.value.personId ::
                     sim(e.vector, query) > r.top1.value.score - t.matchMargin)
            && (r.decision.LowConfidence? <==>
                !SomeReach(sim, entries, query, t.matchThreshold)
                && SomeReach(sim, entries, query, t.lowConfidenceThreshold))
            && (r.decision.Unknown? <==>
                !SomeReach(sim, entries, query, t.matchThreshold)
                && !SomeReach(sim, entries, query, t.lowConfidenceThreshold))
  {
    var r := Match(sim, entries, query, t, ranking, k);
    AcceptMeans(sim, entries, query, t, ranking, k);
    MatchIsBruteForce(sim, entries, query, t, ranking, k);
    if r.top1.Some? {
      BestReaches(sim, entries, query, r.top1.value.score, t.matchThreshold);
      BestReaches(sim, entries, query, r.top1.value.score, t.lowConfidenceThreshold);
    }
  }

  lemma BestReaches(sim: Similarity, entries: seq<GalleryEntry>, query: Vector, best: real, floor: real)
    requires IsBestScore(sim, Entries(entries), query, best)
    ensures SomeReach(sim, entries, query, floor) <==> best >= floor
  {
    var e :| e in Entries(entries) && sim(e.vector, query) == best;
    assert forall f | f in entries :: f in Entries(entries);
  }

  /** The candidates are the `min(k, n)` best entries, best first. */
  lemma CandidatesAreTheBest(sim: Similarity, entries: seq<GalleryEntry>, query: Vector, ranking: seq<nat>, k: nat)
    requires IsRanking(ranking, Scores(sim, entries, query))
    ensures var c := RankedCandidates(sim, entries, query, ranking, k);
            && |c| == Min(k, |entries|)
            && (forall i, j | 0 <= i < j < |c| :: c[i].score >= c[j].score)
            && (forall i: nat | i < |entries| ::
                  i in ranking[..Min(k, |ranking|)]
                  || forall j | 0 <= j < |c| :: c[j].score >= sim(entries[i].vector, query))
  {
    var scores, n := Scores(sim, entries, query), Min(k, |entries|);
    RankingLength(ranking, scores);
    forall i: nat | i < |entries| && i !in ranking[..n]
      ensures forall j | 0 <= j < n :: scores[ranking[j]] >= scores[i]
    {
      PrefixHoldsTheBest(ranking, scores, n, i);
    }
  }

  /** Each candidate is an entry of the gallery with its own score, no entry twice. */
  lemma CandidatesAreEntries(sim: Similarity, entries: seq<GalleryEntry>, query: Vector, ranking: seq<nat>, k: nat)
    requires IsRanking(ranking, Scores(sim, entries, query))
    ensures var c := RankedCandidates(sim, entries, query, ranking, k);
            exists at: seq<nat> ::
              && |at| == |c| && Distinct(at)
              && forall i | 0 <= i < |c| ::
                   && at[i] < |entries|
                   && c[i].personId == entries[at[i]].personId && c[i].embeddingId == entries[at[i]].embeddingId
                   && c[i].score == sim(entries[at[i]].vector, query)
  {
    RankingLength(ranking, Scores(sim, entries, query));
    assert Distinct(ranking[..Min(k, |entries|)]);
  }

  // ---------------------------------------------------------------------------------------------
  // Two listings of one gallery, in any order and with repeats, decide alike

  lemma BestScoreIsUnique(sim: Similarity, entries: set<GalleryEntry>, query: Vector, a: real, b: real)
    requires IsBestScore(sim, entries, query, a) && IsBestScore(sim, entries, query, b)
    ensures a == b
  {
  }

  /** When two people tie for the best score, each is the other's nearest rival at that same score. */
  lemma TiedRivals(sim: Similarity, entries: set<GalleryEntry>, query: Vector,
                   a: Option<Candidate>, otherA: Option<Candidate>, b: Option<Candidate>, otherB: Option<Candidate>)
    requires BruteForce(sim, entries, query, a, otherA) && BruteForce(sim, entries, query, b, otherB)
    requires a.Some? && b.Some? && a.value.personId != b.value.personId
    ensures otherA.Some? && otherA.value.score == a.value.score
  {
    BestScoreIsUnique(sim, entries, query, a.value.score, b.value.score);
    var e :| e in entries && e.personId == b.value.personId && sim(e.vector, query) == b.value.score;
    assert e in Others(entries, a.value.personId);
  }

  lemma ScoresAreDetermined(sim: Similarity, entries: set<GalleryEntry>, query: Vector,
                            a: Option<Candidate>, otherA: Option<Candidate>, b: Option<Candidate>,
                            otherB: Option<Candidate>)
    requires BruteForce(sim, entries, query, a, otherA) && BruteForce(sim, entries, query, b, otherB)
    ensures a.Some? <==> b.Some?
    ensures otherA.Some? <==> otherB.Some?
    ensures a.Some? ==> a.value.score == b.value.score
    ensures otherA.Some? ==> otherA.value.score == otherB.value.score
  {
    if a.Some? {
      BestScoreIsUnique(sim, entries, query, a.value.score, b.value.score);
      if a.value.personId != b.value.personId {
        TiedRivals(sim, entries, query, a, otherA, b, otherB);
        TiedRivals(sim, entries, query, b, otherB, a, otherA);
      } else if otherA.Some? {
        BestScoreIsUnique(sim, Others(entries, a.value.personId), query, otherA.value.score, otherB.value.score);
      }
    }
  }

  lemma EqualScoresDecideAlike(a: Option<Candidate>, otherA: Option<Candidate>,
                               b: Option<Candidate>, otherB: Option<Candidate>, t: Thresholds)
    requires (a.Some? <==> b.Some?) && (otherA.Some? <==> otherB.Some?)
    requires a.Some? ==> a.value.score == b.value.score
    requires otherA.Some? ==> otherA.value.score == otherB.value.score
    ensures DecisionFor(a, otherA, t) == DecisionFor(b, otherB, t)
  {
  }

  predicate Alike(a: MatchResult, b: MatchResult, t: Thresholds) {
    && a.decision == b.decision && a.margin == b.margin
    && (a.top1.Some? <==> b.top1.Some?)
    && (a.top1.Some? ==> a.top1.value.score == b.top1.value.score)
    && (a.top1.Some? && a.decision.Accept? && t.matchMargin > 0.0 ==>
          a.top1.value.personId == b.top1.value.personId)
  }

  /** A decision depends on the set of entries alone; with a positive margin so does the person accepted. */
  lemma {:induction false} MatchDependsOnTheSet(sim: Similarity, a: seq<GalleryEntry>, b: seq<GalleryEntry>,
                                                query: Vector, t: Thresholds,
                                                rankingA: seq<nat>, rankingB: seq<nat>, kA: nat, kB: nat)
    requires Entries(a) == Entries(b) && kA >= 1 && kB >= 1
    requires IsRanking(rankingA, Scores(sim, a, query)) && IsRanking(rankingB, Scores(sim, b, query))
    ensures Alike(Match(sim, a, query, t, rankingA, kA), Match(sim, b, query, t, rankingB, kB), t)
  {
    MatchIsBruteForce(sim, a, query, t, rankingA, kA);
    MatchIsBruteForce(sim, b, query, t, rankingB, kB);
    ResultsAreAlike(sim, Entries(a), query, t,
                    Match(sim, a, query, t, rankingA, kA), Match(sim, b, query, t, rankingB, kB));
  }

  lemma ResultsAreAlike(sim: Similarity, entries: set<GalleryEntry>, query: Vector, t: Thresholds,
                        a: MatchResult, b: MatchResult)
    requires WellFormed(a, t) && WellFormed(b, t)
    requires BruteForce(sim, entries, query, a.top1, a.top2Other)
             && BruteForce(sim, entries, query, b.top1, b.top2Other)
    ensures Alike(a, b, t)
  {
    ScoresAreDetermined(sim, entries, query, a.top1, a.top2Other, b.top1, b.top2Other);
    EqualScoresDecideAlike(a.top1, a.top2Other, b.top1, b.top2Other, t);
    if a.top1.Some? && a.top1.value.personId != b.top1.value.personId {
      TiedRivals(sim, entries, query, a.top1, a.top2Other, b.top1, b.top2Other);
    }
  }

  // Two listings that answer every query alike

  ghost predicate AnswerAlike(a: seq<GalleryEntry>, b: seq<GalleryEntry>) {
    forall sim, query, t, k, rankingA, rankingB
      | k >= 1 && IsRanking(rankingA, Scores(sim, a, query)) && IsRanking(rankingB, Scores(sim, b, query)) ::
      Alike(Match(sim, a, query, t, rankingA, k), Match(sim, b, query, t, rankingB, k), t)
  }

  ghost predicate VectorsTellApart(entries: seq<GalleryEntry>) {
    forall e, f | e in entries && f in entries && e.vector == f.vector :: e == f
  }

  /** The similarity that knows one face only. */
  function Only(v: Vector): Similarity {
    (x: Vector, _: Vector) => if x == v then 1.0 else 0.0
  }

  lemma OneFaceDecides(a: seq<GalleryEntry>, b: seq<GalleryEntry>, e: GalleryEntry, t: Thresholds)
    requires e in a && forall f | f in b :: f.vector != e.vector
    ensures !AnswerAlike(a, b)
  {
    var sim := Only(e.vector);
    var rankingA := CanBeRanked(Scores(sim, a, []));
    var rankingB := CanBeRanked(Scores(sim, b, []));
    MatchIsBruteForce(sim, a, [], t, rankingA, 1);
    MatchIsBruteForce(sim, b, [], t, rankingB, 1);
    var ma, mb := Match(sim, a, [], t, rankingA, 1), Match(sim, b, [], t, rankingB, 1);
    assert e in Entries(a);
    assert ma.top1.Some? && ma.top1.value.score >= 1.0;
    assert mb.top1.Some? ==> mb.top1.value.score == 0.0;
    assert !Alike(ma, mb, t);
  }

  /** A listing with more faces answers alike exactly if it has no more, faces being told apart by their vectors. */
  lemma AnswersAlikeExactly(a: seq<GalleryEntry>, b: seq<GalleryEntry>)
    requires Entries(b) <= Entries(a) && VectorsTellApart(a)
    ensures AnswerAlike(a, b) <==> Entries(a) == Entries(b)
  {
    if Entries(a) == Entries(b) {
      forall sim, query, t, k, rankingA, rankingB
        | k >= 1 && IsRanking(rankingA, Scores(sim, a, query)) && IsRanking(rankingB, Scores(sim, b, query))
        ensures Alike(Match(sim, a, query, t, rankingA, k), Match(sim, b, query, t, rankingB, k), t)
      {
        MatchDependsOnTheSet(sim, a, b, query, t, rankingA, rankingB, k, k);
      }
    } else {
      var e :| e in Entries(a) && e !in Entries(b);
      assert forall f | f in b :: f in Entries(b) && f in Entries(a);
      OneFaceDecides(a, b, e, Thresholds(0.45, 0.05, 0.38));
    }
  }
}
