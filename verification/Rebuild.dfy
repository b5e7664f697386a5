/**
 Rebuilding attendance records when some people have been merged into others
 (backend/app/models/attendance.py: `rebuild_attendance_records` and the canonical grain it works with).
 */
module Rebuild {
  import opened Basics
  import opened Attendance
  import opened MergeForest

  /** An expected row or an override, of which the rebuild uses the grain and the id. */
  datatype Expected = Expected(id: Uuid, grain: Grain)

  datatype Override = Override(id: Uuid, grain: Grain, status: Status)

  datatype Record = Record(
    grain: Grain,
    expectedId: Uuid,
    overrideId: Option<Uuid>,
    status: Status,
    firstEventId: Option<int>,
    lastEventId: Option<int>,
    resolvedAt: Time)

  // ---------------------------------------------------------------------------------------------
  // The specification, over the function that names each person's root

  type Renaming = Uuid -> Uuid

  ghost function Canonical(m: Merges): Renaming {
    x => if Root(m, x).Some? then Root(m, x).value else x
  }

  function CanonGrain(g: Grain, to: Renaming): Grain {
    g.(personId := to(g.personId))
  }

  /** The override that wins a grain: the last one given, as a dictionary comprehension keeps it. */
  function OverrideFor(overrides: seq<Override>, to: Renaming, g: Grain): Option<Override> {
    if overrides == [] then None
    else
      var last := overrides[|overrides| - 1];
      if CanonGrain(last.grain, to) == g then Some(last) else OverrideFor(overrides[..|overrides| - 1], to, g)
  }

  datatype First = First(grain: Grain, row: Expected)

  predicate Has(firsts: seq<First>, g: Grain) {
    exists i | 0 <= i < |firsts| :: firsts[i].grain == g
  }

  /** The canonical grains in order of first appearance, each with its first expected row. */
  function Firsts(expected: seq<Expected>, to: Renaming): seq<First> {
    if expected == [] then []
    else
      var before, last := Firsts(expected[..|expected| - 1], to), expected[|expected| - 1];
      var g := CanonGrain(last.grain, to);
      if Has(before, g) then before else before + [First(g, last)]
  }

  predicate Matches(e: Event, g: Grain, to: Renaming) {
    && e.personId.Some? && to(e.personId.value) == g.personId
    && e.businessDate == Some(g.businessDate)
    && e.shiftId == Some(g.shiftId)
    && e.periodLabel == g.periodLabel
  }

  function Matching(events: seq<Event>, g: Grain, to: Renaming): seq<Event> {
    if events == [] then []
    else
      var last := events[|events| - 1];
      Matching(events[..|events| - 1], g, to) + if Matches(last, g, to) then [last] else []
  }

  function RecordFor(g: Grain, expected: Expected, events: seq<Event>, overrides: seq<Override>, to: Renaming,
                     at: Time): Record {
    var override := OverrideFor(overrides, to, g);
    var sorted := SortByTime(Matching(events, g, to));
    var first := if sorted == [] then None else Some(sorted[0].id);
    var last := if sorted == [] then None else Some(sorted[|sorted| - 1].id);
    var status := if override.Some? then override.value.status else if first.Some? then OnTime else Pending;
    Record(g, expected.id, if override.Some? then Some(override.value.id) else None, status, first, last, at)
  }

  function Rebuilt(expected: seq<Expected>, events: seq<Event>, overrides: seq<Override>, to: Renaming,
                   at: Time): seq<Record> {
    var firsts := Firsts(expected, to);
    seq(|firsts|, i requires 0 <= i < |firsts| => RecordFor(firsts[i].grain, firsts[i].row, events, overrides, to, at))
  }

  // ---------------------------------------------------------------------------------------------
  // The code: dictionaries filled in loops, pointers walked with a cycle check

  /** Every person the rebuild looks at has a root. Events are looked at only if some row is expected. */
  ghost predicate Resolvable(expected: seq<Expected>, events: seq<Event>, overrides: seq<Override>, m: Merges) {
    && (forall i | 0 <= i < |overrides| :: Reaches(m, overrides[i].grain.personId))
    && (forall i | 0 <= i < |expected| :: Reaches(m, expected[i].grain.personId))
    && (expected != [] ==>
          forall i | 0 <= i < |events| && events[i].personId.Some? :: Reaches(m, events[i].personId.value))
  }

  method CanonicalGrain(g: Grain, m: Merges) returns (r: Result<Grain, MergeError>)
    ensures r.Ok? <==> Reaches(m, g.personId)
    ensures r.Ok? ==> r.value == CanonGrain(g, Canonical(m))
  {
    var person := CanonicalPersonId(Some(g.personId), m);
    if person.Err? {
      return Err(person.error);
    }
    return Ok(g.(personId := person.value.value));
  }

  method OverridesByGrain(overrides: seq<Override>, m: Merges) returns (r: Result<map<Grain, Override>, MergeError>)
    ensures r.Ok? <==> forall i | 0 <= i < |overrides| :: Reaches(m, overrides[i].grain.personId)
    ensures r.Ok? ==> forall g ::
                OverrideFor(overrides, Canonical(m), g) == if g in r.value then Some(r.value[g]) else None
  {
    var byGrain: map<Grain, Override> := map[];
    for i := 0 to |overrides|
      invariant forall j | 0 <= j < i :: Reaches(m, overrides[j].grain.personId)
      invariant forall g ::
          OverrideFor(overrides[..i], Canonical(m), g) == if g in byGrain then Some(byGrain[g]) else None
    {
      var grain := CanonicalGrain(overrides[i].grain, m);
      if grain.Err? {
        return Err(grain.error);
      }
      assert overrides[..i + 1][..i] == overrides[..i];
      byGrain := byGrain[grain.value := overrides[i]];
    }
    assert overrides[..|overrides|] == overrides;
    return Ok(byGrain);
  }

  method FirstExpected(expected: seq<Expected>, m: Merges) returns (r: Result<seq<First>, MergeError>)
    ensures r.Ok? <==> forall i | 0 <= i < |expected| :: Reaches(m, expected[i].grain.personId)
    ensures r.Ok? ==> r.value == Firsts(expected, Canonical(m))
  {
    var firsts: seq<First> := [];
    var seen: set<Grain> := {};
    for i := 0 to |expected|
      invariant forall j | 0 <= j < i :: Reaches(m, expected[j].grain.personId)
      invariant firsts == Firsts(expected[..i], Canonical(m))
      invariant forall g :: g in seen <==> Has(firsts, g)
    {
      var grain := CanonicalGrain(expected[i].grain, m);
      if grain.Err? {
        return Err(grain.error);
      }
      assert expected[..i + 1][..i] == expected[..i];
      if grain.value !in seen {
        HasSnoc(firsts, First(grain.value, expected[i]));
        firsts := firsts + [First(grain.value, expected[i])];
        seen := seen + {grain.value};
      }
    }
    assert expected[..|expected|] == expected;
    return Ok(firsts);
  }

  method MatchingEvents(events: seq<Event>, g: Grain, m: Merges) returns (r: Result<seq<Event>, MergeError>)
    ensures r.Ok? <==> forall i | 0 <= i < |events| && events[i].personId.Some? :: Reaches(m, events[i].personId.value)
    ensures r.Ok? ==> r.value == Matching(events, g, Canonical(m))
  {
    var matching: seq<Event> := [];
    for i := 0 to |events|
      invariant forall j | 0 <= j < i && events[j].personId.Some? :: Reaches(m, events[j].personId.value)
      invariant matching == Matching(events[..i], g, Canonical(m))
    {
      var e := events[i];
      assert events[..i + 1][..i] == events[..i];
      if e.personId.Some? {
        var person := CanonicalPersonId(e.personId, m);
        if person.Err? {
          return Err(person.error);
        }
        if person.value.value == g.personId && e.businessDate == Some(g.businessDate)
           && e.shiftId == Some(g.shiftId) && e.periodLabel == g.periodLabel {
          matching := matching + [e];
        }
      }
    }
    assert events[..|events|] == events;
    return Ok(matching);
  }

  method RebuildAttendanceRecords(expected: seq<Expected>, events: seq<Event>, overrides: seq<Override>,
                                  resolvedAt: Time, mergedInto: Merges)
    returns (r: Result<seq<Record>, MergeError>)
    ensures r.Ok? <==> Resolvable(expected, events, overrides, mergedInto)
    ensures r.Ok? ==> r.value == Rebuilt(expected, events, overrides, Canonical(mergedInto), resolvedAt)
  {
    ghost var to := Canonical(mergedInto);
    var overridesByGrain := OverridesByGrain(overrides, mergedInto);
    if overridesByGrain.Err? {
      return Err(overridesByGrain.error);
    }
    var firsts := FirstExpected(expected, mergedInto);
    if firsts.Err? {
      return Err(firsts.error);
    }
    FirstsIsEmpty(expected, to);
    var records: seq<Record> := [];
    for i := 0 to |firsts.value|
      invariant |records| == i
      invariant forall j | 0 <= j < i ::
          records[j] == RecordFor(firsts.value[j].grain, firsts.value[j].row, events, overrides, to, resolvedAt)
      invariant i > 0 ==> forall j | 0 <= j < |events| && events[j].personId.Some? ::
            Reaches(mergedInto, events[j].personId.value)
    {
      var First(grain, row) := firsts.value[i];
      var matching := MatchingEvents(events, grain, mergedInto);
      if matching.Err? {
        return Err(matching.error);
      }
      var sorted := SortByTime(matching.value);
      var firstEvent := if sorted == [] then None else Some(sorted[0].id);
      var lastEvent := if sorted == [] then None else Some(sorted[|sorted| - 1].id);
      var override := if grain in overridesByGrain.value then Some(overridesByGrain.value[grain]) else None;
      assert override == OverrideFor(overrides, to, grain);
      var status := if override.Some? then override.value.status else if firstEvent.Some? then OnTime else Pending;
      records := records + [Record(grain, row.id, if override.Some? then Some(override.value.id) else None,
                                   status, firstEvent, lastEvent, resolvedAt)];
    }
    return Ok(records);
  }

  lemma {:induction false} FirstsIsEmpty(expected: seq<Expected>, to: Renaming)
    ensures Firsts(expected, to) == [] <==> expected == []
  {
  }

  // ---------------------------------------------------------------------------------------------
  // One record for each canonical grain

  lemma HasSnoc(firsts: seq<First>, x: First)
    ensures forall g :: Has(firsts + [x], g) <==> Has(firsts, g) || x.grain == g
  {
    forall g
      ensures Has(firsts + [x], g) <==> Has(firsts, g) || x.grain == g
    {
      if Has(firsts, g) {
        var i :| 0 <= i < |firsts| && firsts[i].grain == g;
        assert (firsts + [x])[i].grain == g;
      }
      assert (firsts + [x])[|firsts|].grain == x.grain;
    }
  }

  predicate DistinctGrains(firsts: seq<First>) {
    forall i, j | 0 <= i < j < |firsts| :: firsts[i].grain != firsts[j].grain
  }

  predicate Stems(f: First, expected: seq<Expected>, to: Renaming) {
    f.row in expected && CanonGrain(f.row.grain, to) == f.grain
  }

  lemma {:induction false} FirstsCoverOnce(expected: seq<Expected>, to: Renaming)
    ensures var f := Firsts(expected, to);
            && DistinctGrains(f)
            && (forall i | 0 <= i < |f| :: Stems(f[i], expected, to))
            && (forall k | 0 <= k < |expected| :: Has(f, CanonGrain(expected[k].grain, to)))
  {
    if expected != [] {
      var n := |expected| - 1;
      var init, g := expected[..n], CanonGrain(expected[n].grain, to);
      FirstsCoverOnce(init, to);
      var before, f := Firsts(init, to), Firsts(expected, to);
      assert expected == init + [expected[n]];
      HasSnoc(before, First(g, expected[n]));
      forall i | 0 <= i < |f|
        ensures Stems(f[i], expected, to)
      {
        assert i < |before| ==> Stems(before[i], init, to);
      }
      forall k | 0 <= k < |expected|
        ensures Has(f, CanonGrain(expected[k].grain, to))
      {
        assert k < n ==> init[k] == expected[k];
      }
      assert !Has(before, g) ==> forall i | 0 <= i < |before| :: before[i].grain != g;
    }
  }

  lemma {:induction false} MatchingIsAFilter(events: seq<Event>, g: Grain, to: Renaming)
    ensures forall e :: e in Matching(events, g, to) <==> e in events && Matches(e, g, to)
  {
    if events != [] {
      var init, last := events[..|events| - 1], events[|events| - 1];
      MatchingIsAFilter(init, g, to);
      assert events == init + [last];
    }
  }

  /** The event a record names first (or last) is one of the grain's events, and none is earlier (or later). */
  ghost predicate NamesExtremes(r: Record, events: seq<Event>, to: Renaming) {
    && (r.firstEventId.None? <==> r.lastEventId.None?)
    && (r.firstEventId.None? <==> !exists e | e in events :: Matches(e, r.grain, to))
    && (r.firstEventId.Some? ==>
          && (exists e | e in events && e.id == r.firstEventId.value && Matches(e, r.grain, to) ::
                forall o | o in events && Matches(o, r.grain, to) :: e.occurredAt <= o.occurredAt)
          && (exists e | e in events && e.id == r.lastEventId.value && Matches(e, r.grain, to) ::
                forall o | o in events && Matches(o, r.grain, to) :: o.occurredAt <= e.occurredAt))
  }

  lemma RecordNamesExtremes(g: Grain, x: Expected, events: seq<Event>, overrides: seq<Override>, to: Renaming, at: Time)
    ensures NamesExtremes(RecordFor(g, x, events, overrides, to, at), events, to)
  {
    var matching := Matching(events, g, to);
    MatchingIsAFilter(events, g, to);
    if matching == [] {
      assert SortByTime(matching) == [];
      forall e | e in events
        ensures !Matches(e, g, to)
      {
        assert e !in matching;
      }
    } else {
      SortedEnds(matching);
      var sorted := SortByTime(matching);
      assert sorted[0] in events && Matches(sorted[0], g, to);
      assert sorted[|sorted| - 1] in events && Matches(sorted[|sorted| - 1], g, to);
    }
  }

  /** Exactly one record for every canonical grain that is expected, each with its earliest and latest event. */
  lemma OneRecordPerGrain(expected: seq<Expected>, events: seq<Event>, overrides: seq<Override>, to: Renaming, at: Time)
    ensures var records := Rebuilt(expected, events, overrides, to, at);
            && (forall i, j | 0 <= i < j < |records| :: records[i].grain != records[j].grain)
            && (forall x | x in expected :: exists i | 0 <= i < |records| ::
                                              records[i].grain == CanonGrain(x.grain, to))
            && (forall i | 0 <= i < |records| ::
                  && NamesExtremes(records[i], events, to)
                  && exists x | x in expected ::
                       x.id == records[i].expectedId && CanonGrain(x.grain, to) == records[i].grain)
  {
    var f, records := Firsts(expected, to), Rebuilt(expected, events, overrides, to, at);
    FirstsCoverOnce(expected, to);
    assert forall i | 0 <= i < |f| :: records[i].grain == f[i].grain && records[i].expectedId == f[i].row.id;
    forall i | 0 <= i < |records|
      ensures NamesExtremes(records[i], events, to)
      ensures exists x | x in expected :: x.id == records[i].expectedId && CanonGrain(x.grain, to) == records[i].grain
    {
      assert Stems(f[i], expected, to);
      RecordNamesExtremes(f[i].grain, f[i].row, events, overrides, to, at);
    }
    forall x | x in expected
      ensures exists i | 0 <= i < |records| :: records[i].grain == CanonGrain(x.grain, to)
    {
      var k :| 0 <= k < |expected| && expected[k] == x;
      assert Has(f, CanonGrain(expected[k].grain, to));
      var i :| 0 <= i < |f| && f[i].grain == CanonGrain(x.grain, to);
      assert records[i].grain == f[i].grain;
    }
  }

  // ---------------------------------------------------------------------------------------------
  // Aliases at rebuild time are the same as rewriting every row to its canonical person first

  function RenamedExpected(x: Expected, to: Renaming): Expected {
    x.(grain := CanonGrain(x.grain, to))
  }

  function RenamedOverride(o: Override, to: Renaming): Override {
    o.(grain := CanonGrain(o.grain, to))
  }

  function RenamedEvent(e: Event, to: Renaming): Event {
    if e.personId.Some? then e.(personId := Some(to(e.personId.value))) else e
  }

  function MapAll<A, B>(s: seq<A>, f: A -> B): (r: seq<B>)
    ensures |r| == |s| && forall i | 0 <= i < |s| :: r[i] == f(s[i])
  {
    seq(|s|, i requires 0 <= i < |s| => f(s[i]))
  }

  ghost predicate IsIdentity(same: Renaming) {
    forall x :: same(x) == x
  }

  lemma {:induction false} FirstsCommute(expected: seq<Expected>, to: Renaming, same: Renaming)
    requires IsIdentity(same)
    ensures var f := Firsts(expected, to);
            var g := Firsts(MapAll(expected, x => RenamedExpected(x, to)), same);
            |f| == |g| && forall i | 0 <= i < |f| :: g[i].grain == f[i].grain && g[i].row.id == f[i].row.id
  {
    if expected != [] {
      var init := expected[..|expected| - 1];
      var renamed := MapAll(expected, x => RenamedExpected(x, to));
      FirstsCommute(init, to, same);
      assert renamed[..|expected| - 1] == MapAll(init, x => RenamedExpected(x, to));
      var f, g := Firsts(init, to), Firsts(renamed[..|expected| - 1], same);
      var grain := CanonGrain(expected[|expected| - 1].grain, to);
      assert Has(f, grain) <==> Has(g, grain) by {
        if Has(f, grain) {
          var i :| 0 <= i < |f| && f[i].grain == grain;
          assert g[i].grain == grain;
        }
      }
    }
  }

  lemma {:induction false} OverridesCommute(overrides: seq<Override>, to: Renaming, same: Renaming, g: Grain)
    requires IsIdentity(same)
    ensures var o := OverrideFor(overrides, to, g);
            var p := OverrideFor(MapAll(overrides, o => RenamedOverride(o, to)), same, g);
            p == if o.Some? then Some(RenamedOverride(o.value, to)) else None
  {
    if overrides != [] {
      var init, renamed := overrides[..|overrides| - 1], MapAll(overrides, o => RenamedOverride(o, to));
      OverridesCommute(init, to, same, g);
      assert renamed[..|overrides| - 1] == MapAll(init, o => RenamedOverride(o, to));
    }
  }

  lemma {:induction false} MatchingCommutes(events: seq<Event>, to: Renaming, same: Renaming, g: Grain)
    requires IsIdentity(same)
    ensures Matching(MapAll(events, e => RenamedEvent(e, to)), g, same)
         == MapAll(Matching(events, g, to), e => RenamedEvent(e, to))
  {
    if events != [] {
      var init, renamed := events[..|events| - 1], MapAll(events, e => RenamedEvent(e, to));
      MatchingCommutes(init, to, same, g);
      assert renamed[..|events| - 1] == MapAll(init, e => RenamedEvent(e, to));
    }
  }

  lemma {:induction false} InsertCommutes(sorted: seq<Event>, e: Event, to: Renaming)
    ensures Insert(MapAll(sorted, e => RenamedEvent(e, to)), RenamedEvent(e, to))
         == MapAll(Insert(sorted, e), e => RenamedEvent(e, to))
  {
    if sorted != [] && sorted[|sorted| - 1].occurredAt > e.occurredAt {
      var init, renamed := sorted[..|sorted| - 1], MapAll(sorted, e => RenamedEvent(e, to));
      InsertCommutes(init, e, to);
      assert renamed[..|sorted| - 1] == MapAll(init, e => RenamedEvent(e, to));
    }
  }

  lemma {:induction false} SortCommutes(events: seq<Event>, to: Renaming)
    ensures SortByTime(MapAll(events, e => RenamedEvent(e, to)))
         == MapAll(SortByTime(events), e => RenamedEvent(e, to))
  {
    if events != [] {
      var init, renamed := events[..|events| - 1], MapAll(events, e => RenamedEvent(e, to));
      SortCommutes(init, to);
      assert renamed[..|events| - 1] == MapAll(init, e => RenamedEvent(e, to));
      InsertCommutes(SortByTime(init), events[|events| - 1], to);
    }
  }

  lemma RewritingCommutes(expected: seq<Expected>, events: seq<Event>, overrides: seq<Override>,
                          to: Renaming, same: Renaming, at: Time)
    requires IsIdentity(same)
    ensures Rebuilt(expected, events, overrides, to, at)
         == Rebuilt(MapAll(expected, x => RenamedExpected(x, to)), MapAll(events, e => RenamedEvent(e, to)),
                    MapAll(overrides, o => RenamedOverride(o, to)), same, at)
  {
    FirstsCommute(expected, to, same);
    forall g: Grain
      ensures OverrideFor(MapAll(overrides, o => RenamedOverride(o, to)), same, g)
           == (var o := OverrideFor(overrides, to, g); if o.Some? then Some(RenamedOverride(o.value, to)) else None)
      ensures SortByTime(Matching(MapAll(events, e => RenamedEvent(e, to)), g, same))
           == MapAll(SortByTime(Matching(events, g, to)), e => RenamedEvent(e, to))
    {
      OverridesCommute(overrides, to, same, g);
      MatchingCommutes(events, to, same, g);
      SortCommutes(Matching(events, g, to), to);
    }
  }

  /** Rebuilding under aliases gives the very list that rewriting all rows first, then rebuilding without, gives. */
  lemma AliasesAreRewriting(expected: seq<Expected>, events: seq<Event>, overrides: seq<Override>, m: Merges, at: Time)
    ensures var to := Canonical(m);
            var rewritten := Rebuilt(MapAll(expected, x => RenamedExpected(x, to)),
                                     MapAll(events, e => RenamedEvent(e, to)),
                                     MapAll(overrides, o => RenamedOverride(o, to)), Canonical(map[]), at);
            Rebuilt(expected, events, overrides, to, at) == rewritten
  {
    NoAliasesIsIdentity();
    RewritingCommutes(expected, events, overrides, Canonical(m), Canonical(map[]), at);
  }

  lemma NoAliasesIsIdentity()
    ensures IsIdentity(Canonical(map[]))
  {
    var none: Merges := map[];
    forall x
      ensures Canonical(none)(x) == x
    {
      RootIs(none, x, 0);
    }
  }

  // ---------------------------------------------------------------------------------------------
  // The other columns of a record

  predicate IsLastOverride(overrides: seq<Override>, to: Renaming, g: Grain, k: nat) {
    && k < |overrides| && CanonGrain(overrides[k].grain, to) == g
    && forall i | k < i < |overrides| :: CanonGrain(overrides[i].grain, to) != g
  }

  lemma {:induction false} LastOverrideWins(overrides: seq<Override>, to: Renaming, g: Grain)
    ensures OverrideFor(overrides, to, g).None? <==> forall k: nat :: !IsLastOverride(overrides, to, g, k)
    ensures OverrideFor(overrides, to, g).Some? ==>
              exists k: nat :: IsLastOverride(overrides, to, g, k) && OverrideFor(overrides, to, g).value ==
                                                                      overrides[k]
  {
    if overrides != [] {
      var rest, last := overrides[..|overrides| - 1], |overrides| - 1;
      assert forall i | 0 <= i < last :: overrides[i] == rest[i];
      if CanonGrain(overrides[last].grain, to) == g {
        assert IsLastOverride(overrides, to, g, last);
      } else {
        LastOverrideWins(rest, to, g);
        assert forall k: nat :: IsLastOverride(overrides, to, g, k) <==> IsLastOverride(rest, to, g, k);
      }
    }
  }

  lemma LastOverrideIsOne(overrides: seq<Override>, to: Renaming, g: Grain, k: nat)
    requires IsLastOverride(overrides, to, g, k)
    ensures OverrideFor(overrides, to, g) == Some(overrides[k])
  {
    LastOverrideWins(overrides, to, g);
    var j: nat :| IsLastOverride(overrides, to, g, j) && OverrideFor(overrides, to, g).value == overrides[j];
    assert j == k;
  }

  predicate IsFirstRow(expected: seq<Expected>, to: Renaming, g: Grain, k: nat) {
    && k < |expected| && CanonGrain(expected[k].grain, to) == g
    && forall i | 0 <= i < k :: CanonGrain(expected[i].grain, to) != g
  }

  ghost predicate KeepsFirstRow(expected: seq<Expected>, to: Renaming, f: First) {
    exists k: nat :: IsFirstRow(expected, to, f.grain, k) && f.row == expected[k]
  }

  lemma FirstRowStays(init: seq<Expected>, x: Expected, to: Renaming, g: Grain, k: nat)
    ensures IsFirstRow(init, to, g, k) ==> IsFirstRow(init + [x], to, g, k)
    ensures IsFirstRow(init + [x], to, g, k) ==> IsFirstRow(init, to, g, k) || k == |init|
  {
    assert forall i | 0 <= i < |init| :: (init + [x])[i] == init[i];
  }

  /** Each grain keeps the first row that has it. */
  lemma {:induction false} FirstsAreFirst(expected: seq<Expected>, to: Renaming)
    ensures forall f | f in Firsts(expected, to) :: KeepsFirstRow(expected, to, f)
  {
    if expected != [] {
      var init, n := expected[..|expected| - 1], |expected| - 1;
      var x, before := First(CanonGrain(expected[n].grain, to), expected[n]), Firsts(init, to);
      assert expected == init + [x.row];
      FirstsAreFirst(init, to);
      forall f | f in before
        ensures KeepsFirstRow(expected, to, f)
      {
        var k: nat :| IsFirstRow(init, to, f.grain, k) && f.row == init[k];
        FirstRowStays(init, x.row, to, f.grain, k);
      }
      if !Has(before, x.grain) {
        FirstsCoverOnce(init, to);
        assert forall i | 0 <= i < n :: Has(before, CanonGrain(init[i].grain, to));
        assert IsFirstRow(expected, to, x.grain, n);
      }
    }
  }

  /** The grains keep the order of their first rows. */
  lemma {:induction false} FirstsKeepOrder(expected: seq<Expected>, to: Renaming, i: nat, j: nat, k: nat, l: nat)
    requires i < j < |Firsts(expected, to)|
    requires IsFirstRow(expected, to, Firsts(expected, to)[i].grain, k)
    requires IsFirstRow(expected, to, Firsts(expected, to)[j].grain, l)
    ensures k < l
  {
    var init, n := expected[..|expected| - 1], |expected| - 1;
    var before, f := Firsts(init, to), Firsts(expected, to);
    assert expected == init + [expected[n]];
    assert i < |before| && f[i] == before[i];
    FirstsAreFirst(init, to);
    assert KeepsFirstRow(init, to, before[i]);
    var m: nat :| IsFirstRow(init, to, before[i].grain, m);
    FirstRowStays(init, expected[n], to, f[i].grain, m);
    assert m == k;
    if j < |before| {
      assert KeepsFirstRow(init, to, before[j]);
      var o: nat :| IsFirstRow(init, to, before[j].grain, o);
      FirstRowStays(init, expected[n], to, f[j].grain, o);
      assert o == l;
      FirstsKeepOrder(init, to, i, j, k, l);
    } else {
      FirstsCoverOnce(init, to);
      assert forall q | 0 <= q < n :: Has(before, CanonGrain(init[q].grain, to));
    }
  }

  /** The row a record stands for, the override it names and the status that follows. */
  lemma ColumnsMean(expected: seq<Expected>, events: seq<Event>, overrides: seq<Override>, to: Renaming, at: Time,
                    i: nat)
    requires i < |Rebuilt(expected, events, overrides, to, at)|
    ensures var r := Rebuilt(expected, events, overrides, to, at)[i];
            && r.resolvedAt == at
            && (exists k: nat :: IsFirstRow(expected, to, r.grain, k) && r.expectedId == expected[k].id)
            && (forall k: nat :: IsLastOverride(overrides, to, r.grain, k) ==>
                                   r.overrideId == Some(overrides[k].id) && r.status == overrides[k].status)
            && ((forall k: nat :: !IsLastOverride(overrides, to, r.grain, k)) ==>
                  && r.overrideId.None?
                  && r.status == if exists e | e in events :: Matches(e, r.grain, to) then OnTime else Pending)
  {
    var f := Firsts(expected, to)[i];
    FirstsAreFirst(expected, to);
    assert KeepsFirstRow(expected, to, f);
    var row: nat :| IsFirstRow(expected, to, f.grain, row) && f.row == expected[row];
    assert RecordFor(f.grain, f.row, events, overrides, to, at).expectedId == expected[row].id;
    LastOverrideWins(overrides, to, f.grain);
    forall k: nat | IsLastOverride(overrides, to, f.grain, k)
      ensures OverrideFor(overrides, to, f.grain) == Some(overrides[k])
    {
      LastOverrideIsOne(overrides, to, f.grain, k);
    }
    RecordNamesExtremes(f.grain, f.row, events, overrides, to, at);
  }
}
