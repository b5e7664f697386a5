/**
 What one call of the resolver leaves behind, column by column, in terms of the scans, the settings and the clock
 (backend/app/attendance/resolver.py: `resolve`).
 */
module DayOutcome {
  import opened Basics
  import opened Attendance
  import opened Resolver

  // ---------------------------------------------------------------------------------------------
  // The columns of a record

  /** The id of an earliest accepted event between `low` and `high`; none only if there is no such event. */
  ghost predicate NamesEarliest(id: Option<int>, events: seq<Event>, low: Time, high: Time) {
    match id
    case None => forall e :: !Scanned(events, low, high, e)
    case Some(n) => exists e :: IsEarliest(events, low, high, e) && e.id == n
  }

  /** The id of a latest accepted event between `low` and `high`; none only without the minimal dwell. */
  ghost predicate NamesLatest(id: Option<int>, events: seq<Event>, low: Time, high: Time, minDwell: nat) {
    match id
    case None => !Dwells(events, low, high, minDwell)
    case Some(n) =>
      Dwells(events, low, high, minDwell) && exists e :: IsLatest(events, low, high, e) && e.id == n
  }

  lemma EventsAreNamed(events: seq<Event>, low: Time, high: Time, minDwell: nat)
    ensures var selected := AcceptedBetween(events, low, high);
            && NamesEarliest(IdOf(FirstOf(selected)), events, low, high)
            && NamesLatest(IdOf(LastOf(selected, minDwell)), events, low, high, minDwell)
  {
    FirstMeans(events, low, high);
    LastMeans(events, low, high, minDwell);
  }

  lemma SelectionMeans(events: seq<Event>, low: Time, high: Time, locationId: Option<Uuid>)
    ensures var selected := AcceptedBetween(events, low, high);
            && (SomeBackdated(selected) <==> exists e :: Scanned(events, low, high, e) && e.wasBackdated)
            && (SomeElsewhere(selected, locationId)
                <==> exists e :: Scanned(events, low, high, e) && e.locationId.Some? && e.locationId != locationId)
  {
    var selected := AcceptedBetween(events, low, high);
    SelectedExactly(events, low, high);
    assert forall i | 0 <= i < |selected| :: Scanned(events, low, high, selected[i]);
  }

  lemma ScheduledColumns(env: Inputs, row: Expected, events: seq<Event>, asOf: Time)
    ensures var r, st := ScheduledRecord(env, row, events, asOf), env.settings(row.locationId);
            var selected := MatchingEvents(row, events);
            var first, last := FirstOf(selected), LastOf(selected, st.minDwell);
            && r.firstEventId == IdOf(first) && r.lastEventId == IdOf(last)
            && r.flags.wasLate == (first.Some? && first.value.occurredAt > row.start + st.graceIn * MINUTE)
            && r.flags.leftEarly == (last.Some? && last.value.occurredAt < row.end - st.graceOut * MINUTE)
            && r.flags.locationMismatch == SomeElsewhere(selected, row.locationId)
            && r.flags.wasBackdated == SomeBackdated(selected)
            && r.flags.autoClosed == (ByEvents(env, row) && first.Some? && AutoCloses(row, st, last, asOf))
  {
  }

  /** The ids a record of a scheduled row names. */
  lemma ScheduledIdsMean(env: Inputs, row: Expected, events: seq<Event>, asOf: Time)
    ensures var r, low, high := ScheduledRecord(env, row, events, asOf), row.start - LOOKBACK, row.end + LOOKAHEAD;
            && NamesEarliest(r.firstEventId, events, low, high)
            && NamesLatest(r.lastEventId, events, low, high, env.settings(row.locationId).minDwell)
            && r.expectedId == Some(row.id) && r.resolvedAt == asOf
            && r.overrideId == if row.grain in env.overrides then Some(env.overrides[row.grain].id) else None
  {
    ScheduledColumns(env, row, events, asOf);
    EventsAreNamed(events, row.start - LOOKBACK, row.end + LOOKAHEAD, env.settings(row.locationId).minDwell);
  }

  /** Somebody arrived, and nobody by `limit`. */
  ghost predicate AllArriveAfter(row: Expected, events: seq<Event>, limit: Time) {
    (exists e :: Arrives(row, events, e)) && forall e | Arrives(row, events, e) :: e.occurredAt > limit
  }

  /** Somebody departed, and nobody was seen from `limit` on. */
  ghost predicate AllDepartBefore(row: Expected, events: seq<Event>, minDwell: nat, limit: Time) {
    Departs(row, events, minDwell) && forall e | Arrives(row, events, e) :: e.occurredAt < limit
  }

  lemma FirstIsAfter(row: Expected, events: seq<Event>, limit: Time)
    ensures var first := FirstOf(MatchingEvents(row, events));
            && (first.Some? <==> exists e :: Arrives(row, events, e))
            && (first.Some? && first.value.occurredAt > limit <==> AllArriveAfter(row, events, limit))
  {
    FirstMeans(events, row.start - LOOKBACK, row.end + LOOKAHEAD);
    var first := FirstOf(MatchingEvents(row, events));
    assert first.Some? ==> Arrives(row, events, first.value);
  }

  lemma LatestIsBefore(row: Expected, events: seq<Event>, last: Event, limit: Time)
    requires IsLatest(events, row.start - LOOKBACK, row.end + LOOKAHEAD, last)
    ensures last.occurredAt < limit <==> forall e | Arrives(row, events, e) :: e.occurredAt < limit
  {
    assert Arrives(row, events, last);
  }

  lemma LastIsBefore(row: Expected, events: seq<Event>, minDwell: nat, limit: Time)
    ensures var last := LastOf(MatchingEvents(row, events), minDwell);
            && (last.Some? <==> Departs(row, events, minDwell))
            && (last.Some? && last.value.occurredAt < limit <==> AllDepartBefore(row, events, minDwell, limit))
  {
    LastMeans(events, row.start - LOOKBACK, row.end + LOOKAHEAD, minDwell);
    var last := LastOf(MatchingEvents(row, events), minDwell);
    if last.Some? {
      LatestIsBefore(row, events, last.value, limit);
    }
  }

  /** The flags of a scheduled row's record, each exactly. */
  lemma ScheduledFlagsMean(env: Inputs, row: Expected, events: seq<Event>, asOf: Time)
    ensures var st, r := env.settings(row.locationId), ScheduledRecord(env, row, events, asOf);
            && (r.flags.wasLate <==> AllArriveAfter(row, events, row.start + st.graceIn * MINUTE))
            && (r.flags.leftEarly <==>
                AllDepartBefore(row, events, st.minDwell, row.end - st.graceOut * MINUTE))
            && (r.flags.locationMismatch <==>
                exists e :: Arrives(row, events, e) && e.locationId.Some? && e.locationId != row.locationId)
            && (r.flags.wasBackdated <==> exists e :: Arrives(row, events, e) && e.wasBackdated)
            && (r.flags.autoClosed <==>
                && ByEvents(env, row) && (exists e :: Arrives(row, events, e))
                && !Departs(row, events, st.minDwell) && st.autoClose && asOf > row.end + AUTO_CLOSE)
            && (r.lateMinutes.Some? ==> ByEvents(env, row))
  {
    var st := env.settings(row.locationId);
    ScheduledColumns(env, row, events, asOf);
    FirstIsAfter(row, events, row.start + st.graceIn * MINUTE);
    LastIsBefore(row, events, st.minDwell, row.end - st.graceOut * MINUTE);
    ArrivalsAreMarked(row, events);
  }

  lemma ArrivalsAreMarked(row: Expected, events: seq<Event>)
    ensures var matching := MatchingEvents(row, events);
            && (SomeElsewhere(matching, row.locationId) <==>
                exists e :: Arrives(row, events, e) && e.locationId.Some? && e.locationId != row.locationId)
            && (SomeBackdated(matching) <==> exists e :: Arrives(row, events, e) && e.wasBackdated)
  {
    SelectionMeans(events, row.start - LOOKBACK, row.end + LOOKAHEAD, row.locationId);
    assert forall e :: Arrives(row, events, e) <==> Scanned(events, row.start - LOOKBACK, row.end + LOOKAHEAD, e);
  }

  /** A row its events do not classify takes the first rule that applies. */
  lemma PrecedenceMeans(env: Inputs, row: Expected, events: seq<Event>, asOf: Time)
    ensures var status := ScheduledRecord(env, row, events, asOf).status;
            var holiday := exists l :: row.locationId == Some(l) && l in env.isWorkingDay && !env.isWorkingDay[l];
            && (ByEvents(env, row) <==>
                row.grain !in env.overrides && !env.excused && !holiday && row.isWorkingDay)
            && (row.grain in env.overrides ==> status == env.overrides[row.grain].status)
            && (row.grain !in env.overrides ==>
                  && (env.excused <==> status.Excused?)
                  && (!env.excused && holiday <==> status.Holiday?)
                  && (!env.excused && !holiday && !row.isWorkingDay <==> status.NotScheduled?))
  {
  }

  /** The record of an unscheduled day, from the accepted events of the day. */
  lemma UnscheduledMeans(env: Inputs, events: seq<Event>, asOf: Time)
    ensures var r := UnscheduledRecord(env, events, asOf);
            && NamesEarliest(r.firstEventId, events, env.dayStart, env.dayEnd)
            && NamesLatest(r.lastEventId, events, env.dayStart, env.dayEnd, env.settings(None).minDwell)
            && (r.flags.wasBackdated <==> exists e :: Scanned(events, env.dayStart, env.dayEnd, e) && e.wasBackdated)
  {
    EventsAreNamed(events, env.dayStart, env.dayEnd, env.settings(None).minDwell);
    SelectionMeans(events, env.dayStart, env.dayEnd, None);
  }

  /** Its other columns: only an override replaces the status, and nothing of a schedule is filled in. */
  lemma UnscheduledColumnsMean(env: Inputs, events: seq<Event>, asOf: Time)
    ensures var r := UnscheduledRecord(env, events, asOf);
            && !(r.flags.wasLate || r.flags.leftEarly || r.flags.locationMismatch || r.flags.autoClosed)
            && r.lateMinutes.None? && r.expectedId.None? && r.resolvedAt == asOf
            && (UNSCHEDULED !in env.overrides ==> r.status.PresentUnscheduled? && r.overrideId.None?)
            && (UNSCHEDULED in env.overrides ==>
                  && r.overrideId == Some(env.overrides[UNSCHEDULED].id)
                  && r.status == env.overrides[UNSCHEDULED].status)
  {
  }

  // ---------------------------------------------------------------------------------------------
  // Which records a call leaves, and whom it tells

  /** Some accepted event falls on the day. */
  ghost predicate DayIsAttended(env: Inputs, events: seq<Event>) {
    exists e :: Scanned(events, env.dayStart, env.dayEnd, e)
  }

  predicate IsExpected(rows: seq<Expected>, g: DayGrain) {
    exists i | 0 <= i < |rows| :: rows[i].grain == g
  }

  /** The grains a call at a time no record is newer than accounts for. */
  ghost predicate IsDue(env: Inputs, events: seq<Event>, g: DayGrain) {
    IsExpected(env.expected, g) || (env.expected == [] && g == UNSCHEDULED && DayIsAttended(env, events))
  }

  /** The unscheduled day has been resolved at a later time: the call stops. */
  ghost predicate Stops(env: Inputs, day: Day, asOf: Time) {
    env.expected == [] && DayIsAttended(env, day.events) && IsNewer(day.records, UNSCHEDULED, asOf)
  }

  lemma AttendedMeans(env: Inputs, events: seq<Event>)
    ensures DayEvents(env, events) != [] <==> DayIsAttended(env, events)
  {
    FirstMeans(events, env.dayStart, env.dayEnd);
  }

  lemma {:induction false} ScheduledGrains(env: Inputs, rows: seq<Expected>, events: seq<Event>, asOf: Time,
                                           g: DayGrain)
    ensures g in ScheduledRecords(env, rows, events, asOf) <==> IsExpected(rows, g)
  {
    if rows != [] {
      var rest := rows[..|rows| - 1];
      ScheduledGrains(env, rest, events, asOf, g);
      assert forall i | 0 <= i < |rest| :: rows[i] == rest[i];
    }
  }

  lemma TargetGrains(env: Inputs, events: seq<Event>, asOf: Time, g: DayGrain)
    ensures g in TargetRecords(env, events, asOf) <==> IsDue(env, events, g)
  {
    ScheduledGrains(env, env.expected, events, asOf, g);
    AttendedMeans(env, events);
  }

  /**
   A call keeps every newer record, and unless it stops it leaves besides exactly the records of the expected rows,
   or of an unscheduled day that was attended.
   */
  lemma RecordsLeft(env: Inputs, day: Day, asOf: Time, g: DayGrain)
    ensures var after := Resolved(env, day, asOf).records;
            && (IsNewer(day.records, g, asOf) ==> g in after && after[g] == day.records[g])
            && (Stops(env, day, asOf) ==> after == day.records)
            && (!Stops(env, day, asOf) && !IsNewer(day.records, g, asOf) ==>
                  (g in after <==> IsDue(env, day.events, g)))
  {
    TargetGrains(env, day.events, asOf, g);
    AttendedMeans(env, day.events);
  }

  /** Each of those records is the one its row or the day calls for. */
  lemma RecordsLeftAreOwn(env: Inputs, day: Day, asOf: Time, row: Expected)
    requires DistinctGrains(env.expected)
    ensures var after := Resolved(env, day, asOf).records;
            && (row in env.expected && !IsNewer(day.records, row.grain, asOf) ==>
                  row.grain in after && after[row.grain] == ScheduledRecord(env, row, day.events, asOf))
            && (env.expected == [] && DayIsAttended(env, day.events) && !IsNewer(day.records, UNSCHEDULED, asOf) ==>
                  UNSCHEDULED in after && after[UNSCHEDULED] == UnscheduledRecord(env, day.events, asOf))
  {
    AttendedMeans(env, day.events);
    if row in env.expected {
      RowHasItsRecord(env, env.expected, day.events, asOf, row);
    }
  }

  predicate ToldFrom(env: Inputs, rows: seq<Expected>, day: Day, asOf: Time, n: Notice) {
    exists i | 0 <= i < |rows| :: n in NoticeOf(env, rows[i], day.records, day.events, asOf)
  }

  lemma ToldByTheLast(env: Inputs, rows: seq<Expected>, day: Day, asOf: Time, n: Notice)
    requires rows != []
    ensures ToldFrom(env, rows, day, asOf, n) <==>
            || ToldFrom(env, rows[..|rows| - 1], day, asOf, n)
            || n in NoticeOf(env, rows[|rows| - 1], day.records, day.events, asOf)
  {
    var rest, last := rows[..|rows| - 1], rows[|rows| - 1];
    assert rows == rest + [last];
  }

  lemma {:induction false} ScheduledNoticesExactly(env: Inputs, rows: seq<Expected>, day: Day, asOf: Time, n: Notice)
    ensures n in ScheduledNotices(env, rows, day.records, day.events, asOf) <==> ToldFrom(env, rows, day, asOf, n)
  {
    if rows != [] {
      ScheduledNoticesExactly(env, rows[..|rows| - 1], day, asOf, n);
      ToldByTheLast(env, rows, day, asOf, n);
    }
  }

  /** The notices of a call are exactly the records it wrote, with the status each had before. */
  lemma NoticesTellWhatWasWritten(env: Inputs, day: Day, asOf: Time, n: Notice)
    requires DistinctGrains(env.expected)
    ensures var after := Resolved(env, day, asOf).records;
            n in Notices(env, day.records, day.events, asOf) <==>
                 && !IsNewer(day.records, n.grain, asOf) && IsDue(env, day.events, n.grain)
                 && n.grain in after && n.status == after[n.grain].status
                 && n.oldStatus == if n.grain in day.records then Some(day.records[n.grain].status) else None
  {
    RecordsLeft(env, day, asOf, n.grain);
    AttendedMeans(env, day.events);
    ScheduledNoticesExactly(env, env.expected, day, asOf, n);
    forall i | 0 <= i < |env.expected| && !IsNewer(day.records, env.expected[i].grain, asOf)
      ensures env.expected[i].grain in Resolved(env, day, asOf).records
      ensures Resolved(env, day, asOf).records[env.expected[i].grain]
           == ScheduledRecord(env, env.expected[i], day.events, asOf)
    {
      RecordsLeftAreOwn(env, day, asOf, env.expected[i]);
    }
  }

  lemma {:induction false} RowsAreToldOnce(env: Inputs, rows: seq<Expected>, day: Day, asOf: Time, i: nat, j: nat)
    requires DistinctGrains(rows) && i < j < |ScheduledNotices(env, rows, day.records, day.events, asOf)|
    ensures var notices := ScheduledNotices(env, rows, day.records, day.events, asOf);
            notices[i].grain != notices[j].grain
  {
    var rest, last := rows[..|rows| - 1], rows[|rows| - 1];
    var before := ScheduledNotices(env, rest, day.records, day.events, asOf);
    if j < |before| {
      RowsAreToldOnce(env, rest, day, asOf, i, j);
    } else {
      ScheduledNoticesRepeat(env, rest, day.records, day.events, asOf, i);
      var k :| 0 <= k < |rest| && IsNoticeOf(before[i], env, rest[k], day.records, day.events, asOf);
      assert rows[k].grain != last.grain;
    }
  }

  /** No grain is told of twice. */
  lemma NoticesAreDistinct(env: Inputs, day: Day, asOf: Time, i: nat, j: nat)
    requires DistinctGrains(env.expected) && i < j < |Notices(env, day.records, day.events, asOf)|
    ensures var notices := Notices(env, day.records, day.events, asOf);
            notices[i].grain != notices[j].grain
  {
    RowsAreToldOnce(env, env.expected, day, asOf, i, j);
  }

  // ---------------------------------------------------------------------------------------------
  // The stamps

  lemma {:induction false} MinStartIsReached(rows: seq<Expected>)
    requires rows != []
    ensures exists i | 0 <= i < |rows| :: rows[i].start == MinStart(rows)
  {
    var last := |rows| - 1;
    if |rows| == 1 || rows[last].start == MinStart(rows) {
      assert rows[last].start == MinStart(rows);
    } else {
      var rest := rows[..last];
      MinStartIsReached(rest);
      var i :| 0 <= i < |rest| && rest[i].start == MinStart(rest);
      assert rows[i].start == rest[i].start;
    }
  }

  lemma {:induction false} MaxEndIsReached(rows: seq<Expected>)
    requires rows != []
    ensures exists i | 0 <= i < |rows| :: rows[i].end == MaxEnd(rows)
  {
    var last := |rows| - 1;
    if |rows| == 1 || rows[last].end == MaxEnd(rows) {
      assert rows[last].end == MaxEnd(rows);
    } else {
      var rest := rows[..last];
      MaxEndIsReached(rest);
      var i :| 0 <= i < |rest| && rest[i].end == MaxEnd(rest);
      assert rows[i].end == rest[i].end;
    }
  }

  predicate IsLastCover(rows: seq<Expected>, e: Event, k: nat) {
    && k < |rows| && rows[k].start - 240 * MINUTE <= e.occurredAt <= rows[k].end + 240 * MINUTE
    && forall i | k < i < |rows| :: !(rows[i].start - 240 * MINUTE <= e.occurredAt <= rows[i].end + 240 * MINUTE)
  }

  lemma {:induction false} LastCoverMeans(rows: seq<Expected>, e: Event)
    ensures LastCover(rows, e).Some? ==> exists k: nat :: IsLastCover(rows, e, k) && LastCover(rows, e).value == rows[k]
    ensures LastCover(rows, e).None? ==> forall k: nat :: !IsLastCover(rows, e, k)
  {
    if rows != [] && !Covers(rows[|rows| - 1], e) {
      var rest := rows[..|rows| - 1];
      LastCoverMeans(rest, e);
      if k: nat :| IsLastCover(rest, e, k) && LastCover(rest, e).value == rest[k] {
        assert IsLastCover(rows, e, k);
      }
      forall k: nat | LastCover(rest, e).None? && k < |rest|
        ensures !IsLastCover(rows, e, k)
      {
        assert !IsLastCover(rest, e, k);
      }
    } else if rows != [] {
      assert IsLastCover(rows, e, |rows| - 1);
    }
  }

  /** The event is no earlier than some row's window and no later than some row's window, or falls on the bare day. */
  predicate InReach(env: Inputs, e: Event) {
    if env.expected == [] then env.dayStart <= e.occurredAt <= env.dayEnd
    else
      && (exists i | 0 <= i < |env.expected| :: env.expected[i].start - 240 * MINUTE <= e.occurredAt)
      && (exists i | 0 <= i < |env.expected| :: e.occurredAt <= env.expected[i].end + 240 * MINUTE)
  }

  lemma FetchedMeans(env: Inputs, e: Event)
    ensures Fetched(env, e) <==> InReach(env, e)
  {
    if env.expected != [] {
      MinStartIsReached(env.expected);
      MaxEndIsReached(env.expected);
    }
  }

  /** An event in reach gets the date, and the shift of the last row whose window holds it; nothing else changes. */
  lemma StampMeans(env: Inputs, e: Event)
    ensures var stamped := Stamped(env, e);
            && stamped == e.(businessDate := stamped.businessDate, shiftId := stamped.shiftId)
            && stamped.businessDate == (if InReach(env, e) then Some(env.businessDate) else e.businessDate)
            && ((forall k: nat :: !IsLastCover(env.expected, e, k)) ==> stamped.shiftId == e.shiftId)
            && forall k: nat :: IsLastCover(env.expected, e, k) ==>
                                  stamped.shiftId == Some(env.expected[k].grain.shiftId)
  {
    FetchedMeans(env, e);
    LastCoverMeans(env.expected, e);
    forall k: nat | IsLastCover(env.expected, e, k)
      ensures Stamped(env, e).shiftId == Some(env.expected[k].grain.shiftId)
    {
      assert LastCover(env.expected, e).Some?;
      var j: nat :| IsLastCover(env.expected, e, j) && LastCover(env.expected, e).value == env.expected[j];
      assert j == k;
      assert Fetched(env, e);
    }
  }
}
