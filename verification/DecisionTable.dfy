/**
 The documented decision table for expected rows (backend/app/attendance/decision_table.py), and where the resolver
 departs from it. The table is read first match first; a departure is the event the resolver takes as the last one.
 */
module DecisionTable {
  import opened Basics
  import opened Attendance
  import opened Resolver

  /** The statuses the first row that matches allows. */
  function Allowed(env: Inputs, row: Expected, first: Option<Event>, last: Option<Event>, asOf: Time): set<Status> {
    var st := env.settings(row.locationId);
    if row.grain in env.overrides then {env.overrides[row.grain].status}
    else if env.excused then {Excused}
    else if IsHoliday(env, row) || !row.isWorkingDay then {Holiday, NotScheduled}
    else if first.None? && asOf < row.start + st.absentAfter * MINUTE then {Pending}
    else if first.None? then {Absent}
    else if first.value.occurredAt <= row.start + st.graceIn * MINUTE then {OnTime}
    else if first.value.occurredAt <= row.start + st.absentAfter * MINUTE then {Late}
    else if last.None? && asOf > row.end + AUTO_CLOSE then {Incomplete}
    else {OnTime, Complete}
  }

  function AllowedFor(env: Inputs, row: Expected, events: seq<Event>, asOf: Time): set<Status> {
    var matching := MatchingEvents(row, events);
    Allowed(env, row, FirstOf(matching), LastOf(matching, env.settings(row.locationId).minDwell), asOf)
  }

  /** A row that is auto-closed must have its first arrival past both limits; one that is late, inside the second. */
  predicate TimesAgree(row: Expected, st: Settings, first: Time, closes: bool) {
    var grace, absent := row.start + st.graceIn * MINUTE, row.start + st.absentAfter * MINUTE;
    && (closes ==> first > Max(grace, absent))
    && (!closes && first > grace ==> first <= absent)
  }

  /** The row is not classified by its events, or nobody arrived, or the times agree. */
  predicate TableHolds(env: Inputs, row: Expected, first: Option<Event>, last: Option<Event>, asOf: Time) {
    var st := env.settings(row.locationId);
    ByEvents(env, row) && first.Some? ==> TimesAgree(row, st, first.value.occurredAt, AutoCloses(row, st, last, asOf))
  }

  lemma StatusAllowedExactly(env: Inputs, row: Expected, first: Option<Event>, last: Option<Event>, asOf: Time)
    ensures StatusFor(env, row, first, last, asOf) in Allowed(env, row, first, last, asOf)
       <==> TableHolds(env, row, first, last, asOf)
  {
  }

  /** The resolver gives a status the table allows exactly when `TableHolds` of the events it pairs. */
  lemma TableIsFollowedExactly(env: Inputs, row: Expected, events: seq<Event>, asOf: Time)
    ensures var matching := MatchingEvents(row, events);
            var first, last := FirstOf(matching), LastOf(matching, env.settings(row.locationId).minDwell);
            var status := ScheduledRecord(env, row, events, asOf).status;
            status in AllowedFor(env, row, events, asOf) <==> TableHolds(env, row, first, last, asOf)
  {
    var matching := MatchingEvents(row, events);
    StatusAllowedExactly(env, row, FirstOf(matching), LastOf(matching, env.settings(row.locationId).minDwell), asOf);
  }

  // Failing inputs of each kind: an eight-hour row from time zero, ten minutes of grace, absent after an hour.

  function Env(autoClose: bool): Inputs {
    Inputs(0, 0, 0, [], map[], false, map[], _ => Settings(10, 10, 60, 5, autoClose))
  }

  const ROW := Expected(1, DayGrain(1, ""), None, 0, 480 * MINUTE, true)

  function ArrivalAt(minutes: int): seq<Event> {
    [Event(1, Some(1), None, None, "", minutes * MINUTE, Accepted, None, false)]
  }

  lemma SoleRecord(env: Inputs, row: Expected, e: Event, asOf: Time)
    requires Arrives(row, [e], e)
    ensures ScheduledRecord(env, row, [e], asOf).status == StatusFor(env, row, Some(e), None, asOf)
    ensures AllowedFor(env, row, [e], asOf) == Allowed(env, row, Some(e), None, asOf)
  {
    SoleArrival(row, e, env.settings(row.locationId).minDwell);
  }

  lemma ArrivalIsCovered(minutes: int)
    requires -240 <= minutes <= 720
    ensures Arrives(ROW, ArrivalAt(minutes), ArrivalAt(minutes)[0])
  {
  }

  lemma ClosedRow(e: Event)
    requires e.occurredAt <= 60 * MINUTE
    ensures StatusFor(Env(true), ROW, Some(e), None, 601 * MINUTE) == Incomplete
    ensures Allowed(Env(true), ROW, Some(e), None, 601 * MINUTE) == if e.occurredAt <= 10 * MINUTE then {OnTime}
                                                                    else {Late}
  {
  }

  lemma OpenRow(e: Event)
    requires e.occurredAt > 60 * MINUTE
    ensures StatusFor(Env(false), ROW, Some(e), None, 91 * MINUTE) == Late
    ensures Allowed(Env(false), ROW, Some(e), None, 91 * MINUTE) == {OnTime, Complete}
  {
  }

  /** On time by the table, incomplete by the resolver once the row is closed. */
  lemma ClosingHidesPunctuality()
    ensures ScheduledRecord(Env(true), ROW, ArrivalAt(5), 601 * MINUTE).status == Incomplete
    ensures AllowedFor(Env(true), ROW, ArrivalAt(5), 601 * MINUTE) == {OnTime}
  {
    ArrivalIsCovered(5);
    SoleRecord(Env(true), ROW, ArrivalAt(5)[0], 601 * MINUTE);
    ClosedRow(ArrivalAt(5)[0]);
  }

  /** Late by the table, incomplete by the resolver once the row is closed. */
  lemma ClosingHidesLateness()
    ensures ScheduledRecord(Env(true), ROW, ArrivalAt(30), 601 * MINUTE).status == Incomplete
    ensures AllowedFor(Env(true), ROW, ArrivalAt(30), 601 * MINUTE) == {Late}
  {
    ArrivalIsCovered(30);
    SoleRecord(Env(true), ROW, ArrivalAt(30)[0], 601 * MINUTE);
    ClosedRow(ArrivalAt(30)[0]);
  }

  /** Past the absence limit the table no longer calls an arrival late, and the resolver does. */
  lemma VeryLateIsStillLate()
    ensures ScheduledRecord(Env(false), ROW, ArrivalAt(90), 91 * MINUTE).status == Late
    ensures AllowedFor(Env(false), ROW, ArrivalAt(90), 91 * MINUTE) == {OnTime, Complete}
  {
    ArrivalIsCovered(90);
    SoleRecord(Env(false), ROW, ArrivalAt(90)[0], 91 * MINUTE);
    OpenRow(ArrivalAt(90)[0]);
  }
}
