/**
 The attendance resolver for one person and one business date (backend/app/attendance/resolver.py: `resolve`).

 Expected rows, overrides, exceptions, the calendar and settings are inputs; the state is what the session sees of
 the person's attendance events and of the records of that date. Neither the lookback, the lookahead nor the
 auto-close delay is a registered setting, so their defaults always apply.
 */
module Resolver {
  import opened Basics
  import opened Attendance
  import Notifications

  const LOOKBACK: Time := 240 * MINUTE
  const LOOKAHEAD: Time := 240 * MINUTE
  const AUTO_CLOSE: Time := 120 * MINUTE

  datatype DayGrain = DayGrain(shiftId: Uuid, periodLabel: string)

  /** The grain of an unscheduled day. */
  const UNSCHEDULED := DayGrain(0, "")

  datatype Expected = Expected(id: Uuid, grain: DayGrain, locationId: Option<Uuid>, start: Time, end: Time,
                               isWorkingDay: bool)

  datatype Override = Override(id: Uuid, status: Status)

  datatype Settings = Settings(graceIn: nat, graceOut: nat, absentAfter: nat, minDwell: nat, autoClose: bool)

  datatype Inputs = Inputs(
    businessDate: int,
    dayStart: Time,
    dayEnd: Time,
    expected: seq<Expected>,
    overrides: map<DayGrain, Override>,
    excused: bool,
    isWorkingDay: map<Uuid, bool>,
    settings: Option<Uuid> -> Settings)

  datatype Flags = Flags(wasLate: bool, leftEarly: bool, locationMismatch: bool, wasBackdated: bool, autoClosed: bool)

  datatype Record = Record(
    status: Status,
    firstEventId: Option<int>,
    lastEventId: Option<int>,
    lateMinutes: Option<int>,
    flags: Flags,
    resolvedAt: Time,
    overrideId: Option<Uuid>,
    expectedId: Option<Uuid>)

  type Records = map<DayGrain, Record>

  // ---------------------------------------------------------------------------------------------
  // Which events belong to the date

  predicate Covers(row: Expected, e: Event) {
    row.start - LOOKBACK <= e.occurredAt <= row.end + LOOKAHEAD
  }

  function MinStart(rows: seq<Expected>): (t: Time)
    requires rows != []
    ensures forall i | 0 <= i < |rows| :: t <= rows[i].start
  {
    if |rows| == 1 then rows[0].start else Min(MinStart(rows[..|rows| - 1]), rows[|rows| - 1].start)
  }

  function MaxEnd(rows: seq<Expected>): (t: Time)
    requires rows != []
    ensures forall i | 0 <= i < |rows| :: rows[i].end <= t
  {
    if |rows| == 1 then rows[0].end else Max(MaxEnd(rows[..|rows| - 1]), rows[|rows| - 1].end)
  }

  /** What the event query selects. */
  predicate Fetched(env: Inputs, e: Event) {
    if env.expected == [] then env.dayStart <= e.occurredAt <= env.dayEnd
    else MinStart(env.expected) - LOOKBACK <= e.occurredAt <= MaxEnd(env.expected) + LOOKAHEAD
  }

  /** The last row whose window covers the event. */
  function LastCover(rows: seq<Expected>, e: Event): Option<Expected> {
    if rows == [] then None
    else if Covers(rows[|rows| - 1], e) then Some(rows[|rows| - 1])
    else LastCover(rows[..|rows| - 1], e)
  }

  /** The business date and shift the resolver writes on an event. */
  function Stamped(env: Inputs, e: Event): Event {
    if !Fetched(env, e) then e
    else
      match LastCover(env.expected, e)
      case None => e.(businessDate := Some(env.businessDate))
      case Some(row) => e.(businessDate := Some(env.businessDate), shiftId := Some(row.grain.shiftId))
  }

  function StampedAll(env: Inputs, events: seq<Event>): seq<Event> {
    seq(|events|, i requires 0 <= i < |events| => Stamped(env, events[i]))
  }

  function AcceptedBetween(events: seq<Event>, low: Time, high: Time): seq<Event> {
    if events == [] then []
    else
      var rest, last := AcceptedBetween(events[..|events| - 1], low, high), events[|events| - 1];
      if low <= last.occurredAt <= high && last.outcome.Accepted? then rest + [last] else rest
  }

  function MatchingEvents(row: Expected, events: seq<Event>): seq<Event> {
    AcceptedBetween(events, row.start - LOOKBACK, row.end + LOOKAHEAD)
  }

  function DayEvents(env: Inputs, events: seq<Event>): seq<Event> {
    AcceptedBetween(events, env.dayStart, env.dayEnd)
  }

  // ---------------------------------------------------------------------------------------------
  // Classification

  function FirstOf(matching: seq<Event>): Option<Event> {
    if matching == [] then None else Some(SortByTime(matching)[0])
  }

  /** The departure: the last event, if it is not the first and comes at least the minimal dwell after it. */
  function LastOf(matching: seq<Event>, minDwell: nat): Option<Event> {
    if |matching| < 2 then None
    else
      var sorted := SortByTime(matching);
      var last := sorted[|sorted| - 1];
      if last.occurredAt - sorted[0].occurredAt < minDwell * MINUTE then None else Some(last)
  }

  function IdOf(e: Option<Event>): Option<int> {
    if e.Some? then Some(e.value.id) else None
  }

  predicate SomeBackdated(events: seq<Event>) {
    exists i | 0 <= i < |events| :: events[i].wasBackdated
  }

  predicate SomeElsewhere(events: seq<Event>, locationId: Option<Uuid>) {
    exists i | 0 <= i < |events| :: events[i].locationId.Some? && events[i].locationId != locationId
  }

  predicate IsHoliday(env: Inputs, row: Expected) {
    row.locationId.Some? && row.locationId.value in env.isWorkingDay && !env.isWorkingDay[row.locationId.value]
  }

  predicate AutoCloses(row: Expected, st: Settings, last: Option<Event>, asOf: Time) {
    last.None? && st.autoClose && asOf > row.end + AUTO_CLOSE
  }

  predicate IsLate(row: Expected, st: Settings, first: Event) {
    first.occurredAt > row.start + st.graceIn * MINUTE
  }

  /** Whether the row is classified by its events, no rule taking precedence. */
  predicate ByEvents(env: Inputs, row: Expected) {
    row.grain !in env.overrides && !env.excused && !IsHoliday(env, row) && row.isWorkingDay
  }

  function StatusFor(env: Inputs, row: Expected, first: Option<Event>, last: Option<Event>, asOf: Time): Status {
    var st := env.settings(row.locationId);
    if row.grain in env.overrides then env.overrides[row.grain].status
    else if env.excused then Excused
    else if IsHoliday(env, row) then Holiday
    else if !row.isWorkingDay then NotScheduled
    else if first.None? then (if asOf < row.start + st.absentAfter * MINUTE then Pending else Absent)
    else if AutoCloses(row, st, last, asOf) then Incomplete
    else if IsLate(row, st, first.value) then Late
    else OnTime
  }

  function OverrideId(env: Inputs, g: DayGrain): Option<Uuid> {
    if g in env.overrides then Some(env.overrides[g].id) else None
  }

  function RecordOf(env: Inputs, row: Expected, first: Option<Event>, last: Option<Event>, elsewhere: bool,
                    backdated: bool, asOf: Time)
    : Record
  {
    var st := env.settings(row.locationId);
    var late := first.Some? && IsLate(row, st, first.value);
    Record(
      StatusFor(env, row, first, last, asOf),
      IdOf(first),
      IdOf(last),
      if ByEvents(env, row) && late then Some((first.value.occurredAt - row.start - st.graceIn * MINUTE) / MINUTE)
      else None,
      Flags(
        late,
        last.Some? && last.value.occurredAt < row.end - st.graceOut * MINUTE,
        elsewhere,
        backdated,
        ByEvents(env, row) && first.Some? && AutoCloses(row, st, last, asOf)),
      asOf,
      OverrideId(env, row.grain),
      Some(row.id))
  }

  function RecordFrom(env: Inputs, row: Expected, matching: seq<Event>, asOf: Time): Record {
    RecordOf(env, row, FirstOf(matching), LastOf(matching, env.settings(row.locationId).minDwell),
             SomeElsewhere(matching, row.locationId), SomeBackdated(matching), asOf)
  }

  function ScheduledRecord(env: Inputs, row: Expected, events: seq<Event>, asOf: Time): Record {
    RecordFrom(env, row, MatchingEvents(row, events), asOf)
  }

  function UnscheduledFrom(env: Inputs, matching: seq<Event>, asOf: Time): Record {
    Record(
      if UNSCHEDULED in env.overrides then env.overrides[UNSCHEDULED].status else PresentUnscheduled,
      IdOf(FirstOf(matching)),
      IdOf(LastOf(matching, env.settings(None).minDwell)),
      None,
      Flags(false, false, false, SomeBackdated(matching), false),
      asOf,
      OverrideId(env, UNSCHEDULED),
      None)
  }

  function UnscheduledRecord(env: Inputs, events: seq<Event>, asOf: Time): Record {
    UnscheduledFrom(env, DayEvents(env, events), asOf)
  }

  // ---------------------------------------------------------------------------------------------
  // One call

  /** A record resolved later than `asOf`: this call must leave it alone. */
  predicate IsNewer(records: Records, g: DayGrain, asOf: Time) {
    g in records && records[g].resolvedAt > asOf
  }

  function ScheduledRecords(env: Inputs, rows: seq<Expected>, events: seq<Event>, asOf: Time): Records {
    if rows == [] then map[]
    else
      var row := rows[|rows| - 1];
      ScheduledRecords(env, rows[..|rows| - 1], events, asOf)[row.grain := ScheduledRecord(env, row, events, asOf)]
  }

  /** The records of the date as they should be at `asOf`. */
  function TargetRecords(env: Inputs, events: seq<Event>, asOf: Time): Records {
    if env.expected != [] then ScheduledRecords(env, env.expected, events, asOf)
    else if DayEvents(env, events) != [] then map[UNSCHEDULED := UnscheduledRecord(env, events, asOf)]
    else map[]
  }

  /** An unscheduled day with events whose record is newer: the call returns before it deletes anything. */
  predicate ReturnsEarly(env: Inputs, records: Records, events: seq<Event>, asOf: Time) {
    env.expected == [] && DayEvents(env, events) != [] && IsNewer(records, UNSCHEDULED, asOf)
  }

  function ResolvedRecords(env: Inputs, records: Records, events: seq<Event>, asOf: Time): Records {
    if ReturnsEarly(env, records, events, asOf) then records
    else
      var target := TargetRecords(env, events, asOf);
      map g | g in records.Keys + target.Keys && (IsNewer(records, g, asOf) || g in target) ::
        if IsNewer(records, g, asOf) then records[g] else target[g]
  }

  datatype Day = Day(records: Records, events: seq<Event>)

  function Resolved(env: Inputs, day: Day, asOf: Time): Day {
    Day(ResolvedRecords(env, day.records, day.events, asOf), StampedAll(env, day.events))
  }

  /** What the notification service is told of: a record just written and its status before. */
  datatype Notice = Notice(grain: DayGrain, oldStatus: Option<Status>, status: Status)

  function OldStatus(records: Records, g: DayGrain): Option<Status> {
    if g in records then Some(records[g].status) else None
  }

  function NoticeOf(env: Inputs, row: Expected, records: Records, events: seq<Event>, asOf: Time): seq<Notice> {
    if IsNewer(records, row.grain, asOf) then []
    else [Notice(row.grain, OldStatus(records, row.grain), ScheduledRecord(env, row, events, asOf).status)]
  }

  function ScheduledNotices(env: Inputs, rows: seq<Expected>, records: Records, events: seq<Event>,
                            asOf: Time): seq<Notice> {
    if rows == [] then []
    else
      ScheduledNotices(env, rows[..|rows| - 1], records, events, asOf)
      + NoticeOf(env, rows[|rows| - 1], records, events, asOf)
  }

  function Notices(env: Inputs, records: Records, events: seq<Event>, asOf: Time): seq<Notice> {
    if env.expected != [] then ScheduledNotices(env, env.expected, records, events, asOf)
    else if DayEvents(env, events) != [] && !IsNewer(records, UNSCHEDULED, asOf)
    then [Notice(UNSCHEDULED, OldStatus(records, UNSCHEDULED), UnscheduledRecord(env, events, asOf).status)]
    else []
  }

  // ---------------------------------------------------------------------------------------------
  // Stamping an event changes nothing that is read from it

  lemma StampedKeeps(env: Inputs, e: Event)
    ensures var f := Stamped(env, e);
            f.id == e.id && f.occurredAt == e.occurredAt && f.outcome == e.outcome
            && f.locationId == e.locationId && f.wasBackdated == e.wasBackdated
    ensures Fetched(env, Stamped(env, e)) == Fetched(env, e)
  {
  }

  lemma {:induction false} CoverIgnoresStamps(rows: seq<Expected>, e: Event, f: Event)
    requires e.occurredAt == f.occurredAt
    ensures LastCover(rows, e) == LastCover(rows, f)
  {
    if rows != [] {
      CoverIgnoresStamps(rows[..|rows| - 1], e, f);
    }
  }

  lemma StampingTwice(env: Inputs, events: seq<Event>)
    ensures StampedAll(env, StampedAll(env, events)) == StampedAll(env, events)
  {
    forall i | 0 <= i < |events|
      ensures Stamped(env, Stamped(env, events[i])) == Stamped(env, events[i])
    {
      CoverIgnoresStamps(env.expected, events[i], Stamped(env, events[i]));
    }
  }

  lemma {:induction false} FilterIgnoresStamps(env: Inputs, events: seq<Event>, low: Time, high: Time)
    ensures AcceptedBetween(StampedAll(env, events), low, high) == StampedAll(env, AcceptedBetween(events, low, high))
  {
    if events != [] {
      var rest := events[..|events| - 1];
      assert StampedAll(env, events)[..|events| - 1] == StampedAll(env, rest);
      FilterIgnoresStamps(env, rest, low, high);
      StampedKeeps(env, events[|events| - 1]);
    }
  }

  lemma {:induction false} InsertIgnoresStamps(env: Inputs, sorted: seq<Event>, e: Event)
    ensures Insert(StampedAll(env, sorted), Stamped(env, e)) == StampedAll(env, Insert(sorted, e))
  {
    StampedKeeps(env, e);
    if sorted != [] {
      var init := sorted[..|sorted| - 1];
      StampedKeeps(env, sorted[|sorted| - 1]);
      assert StampedAll(env, sorted)[..|sorted| - 1] == StampedAll(env, init);
      InsertIgnoresStamps(env, init, e);
    }
  }

  lemma {:induction false} SortIgnoresStamps(env: Inputs, events: seq<Event>)
    ensures SortByTime(StampedAll(env, events)) == StampedAll(env, SortByTime(events))
  {
    if events != [] {
      var init := events[..|events| - 1];
      assert StampedAll(env, events)[..|events| - 1] == StampedAll(env, init);
      SortIgnoresStamps(env, init);
      InsertIgnoresStamps(env, SortByTime(init), events[|events| - 1]);
    }
  }

  function StampedOption(env: Inputs, e: Option<Event>): Option<Event> {
    if e.None? then None else Some(Stamped(env, e.value))
  }

  lemma FirstIgnoresStamps(env: Inputs, matching: seq<Event>)
    ensures FirstOf(StampedAll(env, matching)) == StampedOption(env, FirstOf(matching))
  {
    SortIgnoresStamps(env, matching);
    if matching != [] {
      SortedEnds(matching);
    }
  }

  lemma LastIgnoresStamps(env: Inputs, matching: seq<Event>, minDwell: nat)
    ensures LastOf(StampedAll(env, matching), minDwell) == StampedOption(env, LastOf(matching, minDwell))
  {
    SortIgnoresStamps(env, matching);
    if matching != [] {
      SortedEnds(matching);
      var sorted := SortByTime(matching);
      StampedKeeps(env, sorted[0]);
      StampedKeeps(env, sorted[|sorted| - 1]);
    }
  }

  lemma FlagsIgnoreStamps(env: Inputs, matching: seq<Event>, locationId: Option<Uuid>)
    ensures SomeBackdated(StampedAll(env, matching)) == SomeBackdated(matching)
    ensures SomeElsewhere(StampedAll(env, matching), locationId) == SomeElsewhere(matching, locationId)
  {
    var stamped := StampedAll(env, matching);
    forall i | 0 <= i < |matching|
      ensures stamped[i].wasBackdated == matching[i].wasBackdated && stamped[i].locationId == matching[i].locationId
    {
      StampedKeeps(env, matching[i]);
    }
  }

  // In what follows `env` makes the records and `other`, which may belong to another date, has stamped the events.

  lemma RecordOfIgnoresStamps(env: Inputs, other: Inputs, row: Expected, first: Option<Event>, last: Option<Event>,
                              elsewhere: bool, backdated: bool, asOf: Time)
    ensures RecordOf(env, row, StampedOption(other, first), StampedOption(other, last), elsewhere, backdated, asOf)
         == RecordOf(env, row, first, last, elsewhere, backdated, asOf)
  {
  }

  lemma RecordFromIgnoresStamps(env: Inputs, other: Inputs, row: Expected, matching: seq<Event>, asOf: Time)
    ensures RecordFrom(env, row, StampedAll(other, matching), asOf) == RecordFrom(env, row, matching, asOf)
  {
    var minDwell := env.settings(row.locationId).minDwell;
    FirstIgnoresStamps(other, matching);
    LastIgnoresStamps(other, matching, minDwell);
    FlagsIgnoreStamps(other, matching, row.locationId);
    RecordOfIgnoresStamps(env, other, row, FirstOf(matching), LastOf(matching, minDwell),
                          SomeElsewhere(matching, row.locationId), SomeBackdated(matching), asOf);
  }

  lemma RecordIgnoresStamps(env: Inputs, other: Inputs, row: Expected, events: seq<Event>, asOf: Time)
    ensures ScheduledRecord(env, row, StampedAll(other, events), asOf) == ScheduledRecord(env, row, events, asOf)
  {
    assert MatchingEvents(row, StampedAll(other, events)) == StampedAll(other, MatchingEvents(row, events)) by {
      FilterIgnoresStamps(other, events, row.start - LOOKBACK, row.end + LOOKAHEAD);
    }
    RecordFromIgnoresStamps(env, other, row, MatchingEvents(row, events), asOf);
  }

  lemma {:induction false} ScheduleIgnoresStamps(env: Inputs, other: Inputs, rows: seq<Expected>, events: seq<Event>,
                                                 asOf: Time)
    ensures ScheduledRecords(env, rows, StampedAll(other, events), asOf) == ScheduledRecords(env, rows, events, asOf)
  {
    if rows != [] {
      ScheduleIgnoresStamps(env, other, rows[..|rows| - 1], events, asOf);
      RecordIgnoresStamps(env, other, rows[|rows| - 1], events, asOf);
    }
  }

  lemma UnscheduledFromIgnoresStamps(env: Inputs, other: Inputs, matching: seq<Event>, asOf: Time)
    ensures UnscheduledFrom(env, StampedAll(other, matching), asOf) == UnscheduledFrom(env, matching, asOf)
  {
    FirstIgnoresStamps(other, matching);
    LastIgnoresStamps(other, matching, env.settings(None).minDwell);
    FlagsIgnoreStamps(other, matching, None);
  }

  lemma UnscheduledIgnoresStamps(env: Inputs, other: Inputs, events: seq<Event>, asOf: Time)
    ensures UnscheduledRecord(env, StampedAll(other, events), asOf) == UnscheduledRecord(env, events, asOf)
    ensures DayEvents(env, StampedAll(other, events)) == [] <==> DayEvents(env, events) == []
  {
    assert DayEvents(env, StampedAll(other, events)) == StampedAll(other, DayEvents(env, events)) by {
      FilterIgnoresStamps(other, events, env.dayStart, env.dayEnd);
    }
    UnscheduledFromIgnoresStamps(env, other, DayEvents(env, events), asOf);
  }

  lemma ResolvingIgnoresStamps(env: Inputs, other: Inputs, records: Records, events: seq<Event>, asOf: Time)
    ensures ResolvedRecords(env, records, StampedAll(other, events), asOf) ==
            ResolvedRecords(env, records, events, asOf)
  {
    ScheduleIgnoresStamps(env, other, env.expected, events, asOf);
    UnscheduledIgnoresStamps(env, other, events, asOf);
  }

  // ---------------------------------------------------------------------------------------------
  // The resolver itself

  predicate DistinctIds(events: seq<Event>) {
    forall i, j | 0 <= i < j < |events| :: events[i].id != events[j].id
  }

  /** The rows scanned so far have stamped the events they cover. */
  function PartlyStamped(env: Inputs, rows: seq<Expected>, e: Event): Event {
    match LastCover(rows, e)
    case None => e
    case Some(row) => e.(businessDate := Some(env.businessDate), shiftId := Some(row.grain.shiftId))
  }

  predicate IsStampedUpTo(env: Inputs, k: nat, was: Event, now: Event, matched: set<int>)
    requires k <= |env.expected|
  {
    now == PartlyStamped(env, env.expected[..k], was)
    && (was.id in matched <==> LastCover(env.expected[..k], was).Some?)
  }

  lemma {:induction false} CoveredIsFetched(env: Inputs, k: nat, e: Event)
    requires k <= |env.expected|
    ensures LastCover(env.expected[..k], e).Some? ==> Fetched(env, e)
  {
    if k > 0 {
      assert env.expected[..k][..k - 1] == env.expected[..k - 1];
      CoveredIsFetched(env, k - 1, e);
    }
  }

  /** A branch has written exactly the target records of the grains that are not newer. */
  predicate IsWritten(target: Records, before: Records, after: Records, asOf: Time, written: set<DayGrain>) {
    && written == (set g | g in target && !IsNewer(before, g, asOf))
    && after == map g | g in before.Keys + written :: if g in written then target[g] else before[g]
  }

  lemma NothingIsWritten(before: Records, asOf: Time)
    ensures IsWritten(map[], before, before, asOf, {})
  {
  }

  lemma WritingOne(target: Records, before: Records, after: Records, asOf: Time, written: set<DayGrain>, g: DayGrain,
                   record: Record)
    requires IsWritten(target, before, after, asOf, written) && !IsNewer(before, g, asOf)
    ensures IsWritten(target[g := record], before, after[g := record], asOf, written + {g})
  {
  }

  lemma SkippingOne(target: Records, before: Records, after: Records, asOf: Time, written: set<DayGrain>,
                    g: DayGrain, record: Record)
    requires IsWritten(target, before, after, asOf, written) && IsNewer(before, g, asOf)
    ensures IsWritten(target[g := record], before, after, asOf, written)
  {
  }

  lemma RowsSnoc(env: Inputs, rows: seq<Expected>, k: nat, before: Records, events: seq<Event>, asOf: Time)
    requires k < |rows|
    ensures ScheduledRecords(env, rows[..k + 1], events, asOf)
         == ScheduledRecords(env, rows[..k], events, asOf)[rows[k].grain := ScheduledRecord(env, rows[k], events, asOf)]
    ensures ScheduledNotices(env, rows[..k + 1], before, events, asOf)
         == ScheduledNotices(env, rows[..k], before, events, asOf) + NoticeOf(env, rows[k], before, events, asOf)
  {
    assert rows[..k + 1][..k] == rows[..k];
  }

  function Without(records: Records, before: Records, kept: set<DayGrain>): Records {
    map g | g in records && (g !in before || g in kept) :: records[g]
  }

  class AttendanceResolver {
    var records: Records
    var events: seq<Event>

    constructor (records: Records, events: seq<Event>)
      ensures this.records == records && this.events == events
    {
      this.records, this.events := records, events;
    }

    /** One row's share of the first loop: stamp the fetched events in its window. */
    method StampCovered(env: Inputs, k: nat, ghost was: seq<Event>, known: set<int>) returns (matched: set<int>)
      requires k < |env.expected| && |events| == |was| && DistinctIds(was)
      requires forall i | 0 <= i < |was| :: IsStampedUpTo(env, k, was[i], events[i], known)
      modifies this`events
      ensures |events| == |was|
      ensures forall i | 0 <= i < |was| :: IsStampedUpTo(env, k + 1, was[i], events[i], matched)
    {
      var row := env.expected[k];
      matched := known;
      assert env.expected[..k + 1][..k] == env.expected[..k];
      for j := 0 to |events|
        invariant |events| == |was|
        invariant forall i | 0 <= i < j :: IsStampedUpTo(env, k + 1, was[i], events[i], matched)
        invariant forall i | j <= i < |was| :: IsStampedUpTo(env, k, was[i], events[i], matched)
      {
        var event := events[j];
        assert IsStampedUpTo(env, k, was[j], event, matched);
        if Fetched(env, event) && Covers(row, event) {
          matched := matched + {event.id};
          if event.businessDate != Some(env.businessDate) || event.shiftId != Some(row.grain.shiftId) {
            events := events[j := event.(businessDate := Some(env.businessDate), shiftId := Some(row.grain.shiftId))];
          }
        }
      }
    }

    method StampEvents(env: Inputs)
      requires DistinctIds(events)
      modifies this`events
      ensures events == StampedAll(env, old(events))
    {
      var matched: set<int> := {};
      ghost var was := events;
      for k := 0 to |env.expected|
        invariant |events| == |was|
        invariant forall i | 0 <= i < |was| :: IsStampedUpTo(env, k, was[i], events[i], matched)
      {
        matched := StampCovered(env, k, was, matched);
      }
      assert env.expected[..|env.expected|] == env.expected;
      for j := 0 to |events|
        invariant |events| == |was|
        invariant forall i | 0 <= i < j :: events[i] == Stamped(env, was[i])
        invariant forall i | j <= i < |was| :: IsStampedUpTo(env, |env.expected|, was[i], events[i], matched)
      {
        var event := events[j];
        assert IsStampedUpTo(env, |env.expected|, was[j], event, matched);
        CoveredIsFetched(env, |env.expected|, was[j]);
        if Fetched(env, event) && event.id !in matched && event.businessDate != Some(env.businessDate) {
          events := events[j := event.(businessDate := Some(env.businessDate))];
        }
      }
    }

    method SelectAccepted(low: Time, high: Time) returns (selected: seq<Event>)
      ensures selected == AcceptedBetween(events, low, high)
    {
      selected := [];
      for i := 0 to |events|
        invariant selected == AcceptedBetween(events[..i], low, high)
      {
        assert events[..i + 1][..i] == events[..i];
        if low <= events[i].occurredAt <= high && events[i].outcome.Accepted? {
          selected := selected + [events[i]];
        }
      }
      assert events[..|events|] == events;
    }

    /** Pairs arrival and departure. */
    method PairEvents(matching: seq<Event>, minDwell: nat) returns (first: Option<Event>, last: Option<Event>)
      ensures first == FirstOf(matching) && last == LastOf(matching, minDwell)
    {
      first, last := None, None;
      if matching != [] {
        var sorted := SortByTime(matching);
        SortedEnds(matching);
        first := Some(sorted[0]);
        if |sorted| > 1 {
          last := Some(sorted[|sorted| - 1]);
          if last.value.occurredAt - first.value.occurredAt < minDwell * MINUTE {
            last := None;
          }
        }
      }
    }

    /** The decision rules. */
    method Decide(env: Inputs, row: Expected, first: Option<Event>, last: Option<Event>, asOf: Time)
      returns (status: Status, lateMinutes: Option<int>, autoClosed: bool)
      ensures var r := RecordOf(env, row, first, last, false, false, asOf);
              status == r.status && lateMinutes == r.lateMinutes && autoClosed == r.flags.autoClosed
    {
      var st := env.settings(row.locationId);
      status, lateMinutes, autoClosed := Pending, None, false;
      if row.grain in env.overrides {
        status := env.overrides[row.grain].status;
      } else if env.excused {
        status := Excused;
      } else if row.locationId.Some? && row.locationId.value in env.isWorkingDay
                && !env.isWorkingDay[row.locationId.value] {
        status := Holiday;
      } else if !row.isWorkingDay {
        status := NotScheduled;
      } else if first.None? {
        status := if asOf < row.start + st.absentAfter * MINUTE then Pending else Absent;
      } else {
        if first.value.occurredAt <= row.start + st.graceIn * MINUTE {
          status := OnTime;
        } else {
          status := Late;
          lateMinutes := Some(Max((first.value.occurredAt - (row.start + st.graceIn * MINUTE)) / MINUTE, 0));
        }
        if last.None? && st.autoClose && asOf > row.end + AUTO_CLOSE {
          status, autoClosed := Incomplete, true;
        }
      }
    }

    method ComposeRecord(env: Inputs, row: Expected, first: Option<Event>, last: Option<Event>, elsewhere: bool,
                         backdated: bool, asOf: Time) returns (record: Record)
      ensures record == RecordOf(env, row, first, last, elsewhere, backdated, asOf)
    {
      var st := env.settings(row.locationId);
      var status, lateMinutes, autoClosed := Decide(env, row, first, last, asOf);
      var wasLate := first.Some? && first.value.occurredAt > row.start + st.graceIn * MINUTE;
      var leftEarly := last.Some? && last.value.occurredAt < row.end - st.graceOut * MINUTE;
      var flags := Flags(wasLate, leftEarly, elsewhere, backdated, autoClosed);
      record := Record(status, IdOf(first), IdOf(last), lateMinutes, flags, asOf, OverrideId(env, row.grain),
                       Some(row.id));
    }

    method Classify(env: Inputs, row: Expected, asOf: Time) returns (record: Record)
      ensures record == ScheduledRecord(env, row, events, asOf)
    {
      var matching := SelectAccepted(row.start - LOOKBACK, row.end + LOOKAHEAD);
      var first, last := PairEvents(matching, env.settings(row.locationId).minDwell);
      var elsewhere, backdated := SomeElsewhere(matching, row.locationId), SomeBackdated(matching);
      record := ComposeRecord(env, row, first, last, elsewhere, backdated, asOf);
    }

    method ClassifyUnscheduled(env: Inputs, asOf: Time) returns (record: Option<Record>)
      ensures record == if DayEvents(env, events) == [] then None else Some(UnscheduledRecord(env, events, asOf))
    {
      var accepted := SelectAccepted(env.dayStart, env.dayEnd);
      if accepted == [] {
        return None;
      }
      var first, last := PairEvents(accepted, env.settings(None).minDwell);
      var status := if UNSCHEDULED in env.overrides then env.overrides[UNSCHEDULED].status else PresentUnscheduled;
      var flags := Flags(false, false, false, SomeBackdated(accepted), false);
      return Some(Record(status, IdOf(first), IdOf(last), None, flags, asOf, OverrideId(env, UNSCHEDULED), None));
    }

    /** The unscheduled branch; not done when it returned early. */
    method ResolveUnscheduled(env: Inputs, ghost target: Records, asOf: Time)
      returns (done: bool, written: set<DayGrain>, notices: seq<Notice>)
      requires env.expected == [] && target == TargetRecords(env, events, asOf)
      modifies this`records
      ensures done <==> !ReturnsEarly(env, old(records), events, asOf)
      ensures notices == Notices(env, old(records), events, asOf)
      ensures !done ==> records == old(records)
      ensures done ==> IsWritten(target, old(records), records, asOf, written)
    {
      done, written, notices := true, {}, [];
      NothingIsWritten(records, asOf);
      var record := ClassifyUnscheduled(env, asOf);
      if record.Some? {
        if UNSCHEDULED in records && records[UNSCHEDULED].resolvedAt > asOf {
          return false, {}, [];
        }
        WritingOne(map[], records, records, asOf, {}, UNSCHEDULED, record.value);
        notices := [Notice(UNSCHEDULED, OldStatus(records, UNSCHEDULED), record.value.status)];
        records := records[UNSCHEDULED := record.value];
        written := {UNSCHEDULED};
      }
    }

    /** One row of the scheduled branch, skipped when its record is newer. */
    method ResolveRow(env: Inputs, row: Expected, before: Records, asOf: Time, ghost target: Records,
                      known: set<DayGrain>)
      returns (written: set<DayGrain>, told: seq<Notice>)
      requires IsWritten(target, before, records, asOf, known)
      modifies this`records
      ensures told == NoticeOf(env, row, before, events, asOf)
      ensures IsWritten(target[row.grain := ScheduledRecord(env, row, events, asOf)], before, records, asOf, written)
    {
      if row.grain in before && before[row.grain].resolvedAt > asOf {
        SkippingOne(target, before, records, asOf, known, row.grain, ScheduledRecord(env, row, events, asOf));
        return known, [];
      }
      var record := Classify(env, row, asOf);
      WritingOne(target, before, records, asOf, known, row.grain, record);
      records := records[row.grain := record];
      written := known + {row.grain};
      told := [Notice(row.grain, OldStatus(before, row.grain), record.status)];
    }

    /** The scheduled branch. `before` are the records found at the start. */
    method ResolveScheduled(env: Inputs, before: Records, asOf: Time)
      returns (written: set<DayGrain>, notices: seq<Notice>)
      requires before == records
      modifies this`records
      ensures notices == ScheduledNotices(env, env.expected, before, events, asOf)
      ensures IsWritten(ScheduledRecords(env, env.expected, events, asOf), before, records, asOf, written)
    {
      written, notices := {}, [];
      NothingIsWritten(records, asOf);
      ghost var target: Records := map[];
      for k := 0 to |env.expected|
        invariant target == ScheduledRecords(env, env.expected[..k], events, asOf)
        invariant notices == ScheduledNotices(env, env.expected[..k], before, events, asOf)
        invariant IsWritten(target, before, records, asOf, written)
      {
        RowsSnoc(env, env.expected, k, before, events, asOf);
        var told;
        written, told := ResolveRow(env, env.expected[k], before, asOf, target, written);
        notices := notices + told;
        target := target[env.expected[k].grain := ScheduledRecord(env, env.expected[k], events, asOf)];
      }
      assert env.expected[..|env.expected|] == env.expected;
    }

    /** Deletes the records found at the start that this call neither wrote nor must leave alone. */
    method DeleteObsolete(before: Records, resolved: set<DayGrain>)
      modifies this`records
      ensures records == Without(old(records), before, resolved)
    {
      var left := before.Keys;
      while left != {}
        invariant left <= before.Keys
        invariant records == Without(old(records), before, resolved + left)
        decreases left
      {
        var g :| g in left;
        left := left - {g};
        if g !in resolved {
          records := records - {g};
        }
      }
    }

    method Resolve(env: Inputs, asOf: Time) returns (notices: seq<Notice>)
      requires DistinctIds(events)
      modifies this
      ensures Day(records, events) == Resolved(env, old(Day(records, events)), asOf)
      ensures notices == Notices(env, old(records), old(events), asOf)
    {
      StampEvents(env);
      StampsAreInvisible(env, env, old(records), old(events), asOf);
      var before := records;
      ghost var target := TargetRecords(env, events, asOf);
      var resolved, written := set g | g in before && before[g].resolvedAt > asOf, {};
      if env.expected == [] {
        var done;
        done, written, notices := ResolveUnscheduled(env, target, asOf);
        if !done {
          return;
        }
      } else {
        written, notices := ResolveScheduled(env, before, asOf);
      }
      ghost var after := records;
      DeleteObsolete(before, resolved + written);
      WrittenIsResolved(env, events, before, after, asOf, written);
    }
  }

  lemma WrittenIsResolved(env: Inputs, events: seq<Event>, before: Records, after: Records, asOf: Time,
                          written: set<DayGrain>)
    requires !ReturnsEarly(env, before, events, asOf)
    requires IsWritten(TargetRecords(env, events, asOf), before, after, asOf, written)
    ensures Without(after, before, (set g | g in before && before[g].resolvedAt > asOf) + written)
         == ResolvedRecords(env, before, events, asOf)
  {
  }

  lemma {:induction false} ScheduledNoticesIgnoreStamps(env: Inputs, other: Inputs, rows: seq<Expected>,
                                                        records: Records,
                                                        events: seq<Event>, asOf: Time)
    ensures ScheduledNotices(env, rows, records, StampedAll(other, events), asOf) ==
            ScheduledNotices(env, rows, records, events, asOf)
  {
    if rows != [] {
      ScheduledNoticesIgnoreStamps(env, other, rows[..|rows| - 1], records, events, asOf);
      RecordIgnoresStamps(env, other, rows[|rows| - 1], events, asOf);
    }
  }

  lemma StampsAreInvisible(env: Inputs, other: Inputs, records: Records, events: seq<Event>, asOf: Time)
    ensures ResolvedRecords(env, records, StampedAll(other, events), asOf) ==
            ResolvedRecords(env, records, events, asOf)
    ensures Notices(env, records, StampedAll(other, events), asOf) == Notices(env, records, events, asOf)
  {
    ResolvingIgnoresStamps(env, other, records, events, asOf);
    ScheduledNoticesIgnoreStamps(env, other, env.expected, records, events, asOf);
    UnscheduledIgnoresStamps(env, other, events, asOf);
  }

  // ---------------------------------------------------------------------------------------------
  // Calls in any order

  lemma {:induction false} ScheduledGrainsAreFixed(env: Inputs, rows: seq<Expected>, events: seq<Event>, s: Time,
                                                   t: Time)
    ensures ScheduledRecords(env, rows, events, s).Keys == ScheduledRecords(env, rows, events, t).Keys
    ensures forall g | g in ScheduledRecords(env, rows, events, t) ::
              ScheduledRecords(env, rows, events, t)[g].resolvedAt == t
  {
    if rows != [] {
      ScheduledGrainsAreFixed(env, rows[..|rows| - 1], events, s, t);
    }
  }

  lemma TargetGrainsAreFixed(env: Inputs, events: seq<Event>, s: Time, t: Time)
    ensures TargetRecords(env, events, s).Keys == TargetRecords(env, events, t).Keys
    ensures forall g | g in TargetRecords(env, events, t) :: TargetRecords(env, events, t)[g].resolvedAt == t
  {
    ScheduledGrainsAreFixed(env, env.expected, events, s, t);
  }

  /** `ResolvedRecords` without the early return, over given targets. */
  function Settled(records: Records, target: Records, asOf: Time): Records {
    map g | g in records.Keys + target.Keys && (IsNewer(records, g, asOf) || g in target) ::
      if IsNewer(records, g, asOf) then records[g] else target[g]
  }

  predicate IsTargetAt(target: Records, asOf: Time) {
    forall g | g in target :: target[g].resolvedAt == asOf
  }

  lemma SettlingTwice(records: Records, atS: Records, atT: Records, s: Time, t: Time)
    requires IsTargetAt(atS, s) && IsTargetAt(atT, t) && atS.Keys == atT.Keys
    requires s == t ==> atS == atT
    ensures Settled(Settled(records, atS, s), atT, t) == Settled(records, if s <= t then atT else atS, Max(s, t))
  {
  }

  lemma RecordsOfTwoCalls(env: Inputs, records: Records, events: seq<Event>, s: Time, t: Time)
    ensures ResolvedRecords(env, ResolvedRecords(env, records, events, s), events, t)
         == ResolvedRecords(env, records, events, Max(s, t))
  {
    TargetGrainsAreFixed(env, events, t, s);
    TargetGrainsAreFixed(env, events, s, t);
    SettlingTwice(records, TargetRecords(env, events, s), TargetRecords(env, events, t), s, t);
  }

  /** Two calls, in either order, leave the day as one call at the later time does. */
  lemma TwoCallsAreOne(env: Inputs, day: Day, s: Time, t: Time)
    ensures Resolved(env, Resolved(env, day, s), t) == Resolved(env, day, Max(s, t))
  {
    StampingTwice(env, day.events);
    ResolvingIgnoresStamps(env, env, ResolvedRecords(env, day.records, day.events, s), day.events, t);
    RecordsOfTwoCalls(env, day.records, day.events, s, t);
  }

  function ResolvedAt(env: Inputs, day: Day, times: seq<Time>): Day {
    if times == [] then day else Resolved(env, ResolvedAt(env, day, times[..|times| - 1]), times[|times| - 1])
  }

  function Latest(times: seq<Time>): (t: Time)
    requires times != []
    ensures t in times && forall i | 0 <= i < |times| :: times[i] <= t
  {
    if |times| == 1 then times[0]
    else
      var rest := Latest(times[..|times| - 1]);
      assert rest in times by { assert times == times[..|times| - 1] + [times[|times| - 1]]; }
      Max(rest, times[|times| - 1])
  }

  /** Calls at any times in any order, from any records, leave the day as one call at the latest time does. */
  lemma {:induction false} CallOrderDoesNotMatter(env: Inputs, day: Day, times: seq<Time>)
    requires times != []
    ensures ResolvedAt(env, day, times) == Resolved(env, day, Latest(times))
  {
    if |times| == 1 {
      assert ResolvedAt(env, day, times[..0]) == day;
    } else {
      CallOrderDoesNotMatter(env, day, times[..|times| - 1]);
      TwoCallsAreOne(env, day, Latest(times[..|times| - 1]), times[|times| - 1]);
    }
  }

  /** If no record is newer than the latest call, the records are exactly the target of that call. */
  lemma LatestCallDecides(env: Inputs, day: Day, times: seq<Time>)
    requires times != [] && forall g | g in day.records :: day.records[g].resolvedAt <= Latest(times)
    ensures ResolvedAt(env, day, times).records == TargetRecords(env, day.events, Latest(times))
  {
    CallOrderDoesNotMatter(env, day, times);
  }

  // A repeated call tells nobody

  predicate IsNoticeOf(notice: Notice, env: Inputs, row: Expected, records: Records, events: seq<Event>, asOf: Time) {
    && notice.grain == row.grain && !IsNewer(records, row.grain, asOf)
    && notice.oldStatus == OldStatus(records, row.grain)
    && notice.status == ScheduledRecord(env, row, events, asOf).status
  }

  lemma {:induction false} ScheduledNoticesRepeat(env: Inputs, rows: seq<Expected>, records: Records,
                                                  events: seq<Event>, asOf: Time, k: nat)
    requires k < |ScheduledNotices(env, rows, records, events, asOf)|
    ensures exists i | 0 <= i < |rows| ::
              IsNoticeOf(ScheduledNotices(env, rows, records, events, asOf)[k], env, rows[i], records, events, asOf)
  {
    var rest, last := rows[..|rows| - 1], rows[|rows| - 1];
    var before := ScheduledNotices(env, rest, records, events, asOf);
    if k < |before| {
      ScheduledNoticesRepeat(env, rest, records, events, asOf, k);
      var i :| 0 <= i < |rest| && IsNoticeOf(before[k], env, rest[i], records, events, asOf);
      assert IsNoticeOf(before[k], env, rows[i], records, events, asOf);
    } else {
      var own := NoticeOf(env, last, records, events, asOf);
      assert own != [] && ScheduledNotices(env, rows, records, events, asOf)[k] == own[0];
      assert IsNoticeOf(own[0], env, rows[|rows| - 1], records, events, asOf);
    }
  }

  predicate DistinctGrains(rows: seq<Expected>) {
    forall i, j | 0 <= i < j < |rows| :: rows[i].grain != rows[j].grain
  }

  lemma {:induction false} RowHasItsRecord(env: Inputs, rows: seq<Expected>, events: seq<Event>, asOf: Time,
                                           row: Expected)
    requires DistinctGrains(rows) && row in rows
    ensures row.grain in ScheduledRecords(env, rows, events, asOf)
    ensures ScheduledRecords(env, rows, events, asOf)[row.grain] == ScheduledRecord(env, row, events, asOf)
  {
    var rest, last := rows[..|rows| - 1], rows[|rows| - 1];
    assert rows == rest + [last];
    if row != last {
      RowHasItsRecord(env, rest, events, asOf, row);
      var i :| 0 <= i < |rest| && rest[i] == row;
      assert rows[i].grain != last.grain;
    }
  }

  /**
   Repeating a call changes nothing, and every notice it gives reports the status the record already had, which the
   notification service does not heed.
   */
  lemma RepeatedCallIsSilent(env: Inputs, day: Day, asOf: Time, setting: Notifications.Setting)
    requires DistinctGrains(env.expected)
    ensures var once := Resolved(env, day, asOf);
            && Resolved(env, once, asOf) == once
            && forall k | 0 <= k < |Notices(env, once.records, once.events, asOf)| ::
                 var notice := Notices(env, once.records, once.events, asOf)[k];
                 !Notifications.Heeded(notice.oldStatus, notice.status, setting)
  {
    var once := Resolved(env, day, asOf);
    TwoCallsAreOne(env, day, asOf, asOf);
    StampsAreInvisible(env, env, once.records, day.events, asOf);
    var notices := Notices(env, once.records, day.events, asOf);
    forall k | 0 <= k < |notices|
      ensures notices[k].oldStatus == Some(notices[k].status)
    {
      var g := notices[k].grain;
      if env.expected != [] {
        ScheduledNoticesRepeat(env, env.expected, once.records, day.events, asOf, k);
        var i :| 0 <= i < |env.expected|
                 && IsNoticeOf(notices[k], env, env.expected[i], once.records, day.events, asOf);
        RowHasItsRecord(env, env.expected, day.events, asOf, env.expected[i]);
      }
      assert g in TargetRecords(env, day.events, asOf);
    }
  }

  // ---------------------------------------------------------------------------------------------
  // What a record says

  /** An accepted event of the list between `low` and `high`. */
  predicate Scanned(events: seq<Event>, low: Time, high: Time, e: Event) {
    e in events && e.outcome.Accepted? && low <= e.occurredAt <= high
  }

  /** Two accepted events between `low` and `high`, which may be copies of one another. */
  predicate ScannedTwice(events: seq<Event>, low: Time, high: Time) {
    exists i, j | 0 <= i < j < |events| ::
      Scanned(events, low, high, events[i]) && Scanned(events, low, high, events[j])
  }

  /** At least two accepted events, and some two of them the minimal dwell apart. */
  ghost predicate Dwells(events: seq<Event>, low: Time, high: Time, minDwell: nat) {
    && ScannedTwice(events, low, high)
    && exists e, f :: Scanned(events, low, high, e) && Scanned(events, low, high, f)
                      && f.occurredAt - e.occurredAt >= minDwell * MINUTE
  }

  predicate Arrives(row: Expected, events: seq<Event>, e: Event) {
    Scanned(events, row.start - LOOKBACK, row.end + LOOKAHEAD, e)
  }

  ghost predicate Departs(row: Expected, events: seq<Event>, minDwell: nat) {
    Dwells(events, row.start - LOOKBACK, row.end + LOOKAHEAD, minDwell)
  }

  lemma {:induction false} SelectedAreAccepted(events: seq<Event>, low: Time, high: Time, e: Event)
    ensures e in AcceptedBetween(events, low, high) <==> Scanned(events, low, high, e)
  {
    if events != [] {
      SelectedAreAccepted(events[..|events| - 1], low, high, e);
      assert events == events[..|events| - 1] + [events[|events| - 1]];
    }
  }

  lemma {:induction false} SelectedTwice(events: seq<Event>, low: Time, high: Time)
    ensures |AcceptedBetween(events, low, high)| >= 1
       <==> exists i | 0 <= i < |events| :: Scanned(events, low, high, events[i])
    ensures |AcceptedBetween(events, low, high)| >= 2 <==> ScannedTwice(events, low, high)
  {
    if events != [] {
      var rest, last := events[..|events| - 1], |events| - 1;
      SelectedTwice(rest, low, high);
      assert forall i | 0 <= i < last :: events[i] == rest[i];
      assert forall i | 0 <= i < last :: Scanned(events, low, high, events[i]) <==> Scanned(rest, low, high, rest[i]);
    }
  }

  ghost predicate IsEarliest(events: seq<Event>, low: Time, high: Time, e: Event) {
    Scanned(events, low, high, e) && forall f | Scanned(events, low, high, f) :: e.occurredAt <= f.occurredAt
  }

  ghost predicate IsLatest(events: seq<Event>, low: Time, high: Time, e: Event) {
    Scanned(events, low, high, e) && forall f | Scanned(events, low, high, f) :: f.occurredAt <= e.occurredAt
  }

  lemma SelectedExactly(events: seq<Event>, low: Time, high: Time)
    ensures forall e :: e in AcceptedBetween(events, low, high) <==> Scanned(events, low, high, e)
  {
    forall e
      ensures e in AcceptedBetween(events, low, high) <==> Scanned(events, low, high, e)
    {
      SelectedAreAccepted(events, low, high, e);
    }
  }

  /** The first event is an earliest accepted one; there is none only if none is accepted. */
  lemma FirstMeans(events: seq<Event>, low: Time, high: Time)
    ensures var first := FirstOf(AcceptedBetween(events, low, high));
            && (first.None? <==> forall e :: !Scanned(events, low, high, e))
            && (first.Some? ==> IsEarliest(events, low, high, first.value))
  {
    var selected := AcceptedBetween(events, low, high);
    SelectedExactly(events, low, high);
    if selected != [] {
      assert Scanned(events, low, high, selected[0]);
      SortedEnds(selected);
    }
  }

  /** The last event is a latest accepted one; there is one exactly if two are the minimal dwell apart. */
  lemma LastMeans(events: seq<Event>, low: Time, high: Time, minDwell: nat)
    ensures var last := LastOf(AcceptedBetween(events, low, high), minDwell);
            && (last.Some? <==> Dwells(events, low, high, minDwell))
            && (last.Some? ==> IsLatest(events, low, high, last.value))
  {
    var selected := AcceptedBetween(events, low, high);
    SelectedExactly(events, low, high);
    SelectedTwice(events, low, high);
    if |selected| >= 2 {
      SortedEnds(selected);
      var sorted := SortByTime(selected);
      assert Scanned(events, low, high, sorted[0]) && Scanned(events, low, high, sorted[|sorted| - 1]);
    }
  }

  lemma SoleArrival(row: Expected, e: Event, minDwell: nat)
    requires Arrives(row, [e], e)
    ensures MatchingEvents(row, [e]) == [e] && FirstOf([e]) == Some(e) && LastOf([e], minDwell) == None
  {
    assert [e][..0] == [];
    SelectedAreAccepted([e], row.start - LOOKBACK, row.end + LOOKAHEAD, e);
    SortedEnds([e]);
  }

  /** The status of a row that its events decide, in terms of the events and the clock alone. */
  lemma StatusMeans(env: Inputs, row: Expected, events: seq<Event>, asOf: Time)
    requires ByEvents(env, row)
    ensures var st, status := env.settings(row.locationId), ScheduledRecord(env, row, events, asOf).status;
            var limit, arrived := row.start + st.graceIn * MINUTE, exists e :: Arrives(row, events, e);
            var closed := st.autoClose && asOf > row.end + AUTO_CLOSE && !Departs(row, events, st.minDwell);
            && (status.Pending? <==> !arrived && asOf < row.start + st.absentAfter * MINUTE)
            && (status.Absent? <==> !arrived && asOf >= row.start + st.absentAfter * MINUTE)
            && (status.Incomplete? <==> arrived && closed)
            && (status.Late? <==> arrived && !closed && forall e | Arrives(row, events, e) :: e.occurredAt > limit)
            && (status.OnTime? <==> !closed && exists e :: Arrives(row, events, e) && e.occurredAt <= limit)
  {
    FirstMeans(events, row.start - LOOKBACK, row.end + LOOKAHEAD);
    LastMeans(events, row.start - LOOKBACK, row.end + LOOKAHEAD, env.settings(row.locationId).minDwell);
    var first := FirstOf(MatchingEvents(row, events));
    if first.Some? {
      assert Arrives(row, events, first.value);
    }
  }

  /** Minutes late are the whole minutes by which even the earliest arrival misses the grace period. */
  lemma LateMinutesMean(env: Inputs, row: Expected, events: seq<Event>, asOf: Time)
    requires ByEvents(env, row)
    ensures var limit, r :=
              row.start + env.settings(row.locationId).graceIn * MINUTE, ScheduledRecord(env, row, events, asOf);
            && (r.lateMinutes.Some? ==> (
                    && r.lateMinutes.value >= 0
                    && (forall e | Arrives(row, events, e) :: limit + r.lateMinutes.value * MINUTE <= e.occurredAt)
                    && (exists e :: Arrives(row, events, e)
                                    && e.occurredAt < limit + (r.lateMinutes.value + 1) * MINUTE)))
            && (r.lateMinutes.None? <==> (forall e :: !Arrives(row, events, e))
                                         || exists e :: Arrives(row, events, e) && e.occurredAt <= limit)
  {
    FirstMeans(events, row.start - LOOKBACK, row.end + LOOKAHEAD);
    var first := FirstOf(MatchingEvents(row, events));
    if first.Some? {
      assert Arrives(row, events, first.value);
    }
  }

  /**
   As time passes a row's status only moves from pending to absent, or from on time or late to incomplete; nothing
   else of its record changes but the time and the mark of being closed. No row becomes complete by itself.
   */
  lemma StatusMovesForward(env: Inputs, row: Expected, events: seq<Event>, s: Time, t: Time)
    requires s <= t
    ensures var before, after := ScheduledRecord(env, row, events, s), ScheduledRecord(env, row, events, t);
            && (|| after.status == before.status
                || (before.status.Pending? && after.status.Absent?)
                || ((before.status.OnTime? || before.status.Late?) && after.status.Incomplete?))
            && after == before.(status := after.status, resolvedAt := t,
                        flags := before.flags.(autoClosed := after.flags.autoClosed))
            && (before.flags.autoClosed ==> after.flags.autoClosed)
            && (after.status.Complete? ==> row.grain in env.overrides)
  {
  }
}
