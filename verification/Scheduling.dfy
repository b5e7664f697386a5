/**
 Expanding schedules into expected-attendance rows (backend/app/attendance/resolver.py: `expand_schedules`,
 backend/app/models/scheduling.py: the choice of an assignment).

 Dates are day numbers counted from a Monday and a schedule's time zone is a fixed offset from UTC. One clock
 reading stands for all the void timestamps of a run.
 */
module Scheduling {
  import opened Basics
  import opened Attendance

  const HOUR: Time := 60 * MINUTE
  const DAY: Time := 24 * HOUR

  /** The identifier that stands for a missing shift, and for the location of every lookup. */
  const DUMMY: Uuid := 0

  datatype Scope = ForOrg | ForLocation | ForGroup | ForPerson

  datatype Assignment = Assignment(
    scheduleId: Uuid,
    scope: Scope,
    scopeId: Option<Uuid>,
    priority: int,
    effectiveFrom: int,
    effectiveTo: Option<int>)

  datatype Schedule = Schedule(utcOffset: Time)

  datatype Rule = Rule(scheduleId: Uuid, weekday: int, shiftId: Option<Uuid>, isWorkingDay: bool, periodLabel: string)

  datatype Shift = Shift(startsAt: Time, endsAt: Time, crossesMidnight: bool, absentAfterMinutes: int)

  datatype Membership = Membership(groupId: Uuid, effectiveFrom: int, effectiveTo: Option<int>)

  datatype Tables = Tables(
    assignments: seq<Assignment>,
    schedules: map<Uuid, Schedule>,
    rules: seq<Rule>,
    shifts: map<Uuid, Shift>,
    memberships: Uuid -> seq<Membership>)

  /** The natural key of an expected row. */
  datatype Key = Key(personId: Uuid, date: int, shiftId: Uuid, periodLabel: string)

  datatype Row = Row(
    locationId: Option<Uuid>,
    scheduleId: Uuid,
    start: Time,
    end: Time,
    absentAfter: Time,
    isWorkingDay: bool,
    voidedAt: Option<Time>)

  type Rows = map<Key, Row>

  datatype Slot = Slot(personId: Uuid, date: int)

  // ---------------------------------------------------------------------------------------------
  // Which assignment applies

  predicate InForce(from: int, to: Option<int>, date: int) {
    from <= date && (to.None? || date <= to.value)
  }

  predicate IsMember(tables: Tables, slot: Slot, groupId: Uuid) {
    var ms := tables.memberships(slot.personId);
    exists i | 0 <= i < |ms| :: ms[i].groupId == groupId && InForce(ms[i].effectiveFrom, ms[i].effectiveTo, slot.date)
  }

  predicate MatchesContext(tables: Tables, a: Assignment, slot: Slot) {
    match a.scope
    case ForPerson => a.scopeId == Some(slot.personId)
    case ForGroup => a.scopeId.Some? && IsMember(tables, slot, a.scopeId.value)
    case ForLocation => a.scopeId == Some(DUMMY)
    case ForOrg => true
  }

  predicate Applies(tables: Tables, a: Assignment, slot: Slot) {
    InForce(a.effectiveFrom, a.effectiveTo, slot.date) && MatchesContext(tables, a, slot)
  }

  function Precedence(s: Scope): nat {
    match s
    case ForOrg => 0
    case ForLocation => 1
    case ForGroup => 2
    case ForPerson => 3
  }

  /** Scope first, then priority, then the later start. */
  predicate Outranks(a: Assignment, b: Assignment) {
    || Precedence(a.scope) > Precedence(b.scope)
    || (Precedence(a.scope) == Precedence(b.scope)
        && (a.priority > b.priority || (a.priority == b.priority && a.effectiveFrom > b.effectiveFrom)))
  }

  /** The first of the highest-ranked assignments that apply. */
  function ResolveScheduleAssignment(tables: Tables, assignments: seq<Assignment>, slot: Slot): Option<Assignment> {
    if assignments == [] then None
    else
      var best, last := ResolveScheduleAssignment(tables, assignments[..|assignments| - 1], slot),
                        assignments[|assignments| - 1];
      if Applies(tables, last, slot) && (best.None? || Outranks(last, best.value)) then Some(last) else best
  }

  predicate IsFirstHighest(tables: Tables, assignments: seq<Assignment>, slot: Slot, k: nat) {
    && k < |assignments| && Applies(tables, assignments[k], slot)
    && (forall i | 0 <= i < |assignments| && Applies(tables, assignments[i], slot) ::
          !Outranks(assignments[i], assignments[k]))
    && (forall i | 0 <= i < k && Applies(tables, assignments[i], slot) :: Outranks(assignments[k], assignments[i]))
  }

  lemma {:induction false} ChosenIsFirstHighest(tables: Tables, assignments: seq<Assignment>, slot: Slot)
    ensures var chosen := ResolveScheduleAssignment(tables, assignments, slot);
            && (chosen.None? <==> forall i | 0 <= i < |assignments| :: !Applies(tables, assignments[i], slot))
            && (chosen.Some? ==>
                  exists k: nat :: IsFirstHighest(tables, assignments, slot, k) && assignments[k] == chosen.value)
  {
    if assignments != [] {
      var rest, last := assignments[..|assignments| - 1], |assignments| - 1;
      ChosenIsFirstHighest(tables, rest, slot);
      assert forall i | 0 <= i < last :: assignments[i] == rest[i];
      var before := ResolveScheduleAssignment(tables, rest, slot);
      if before.Some? {
        var k: nat :| IsFirstHighest(tables, rest, slot, k) && rest[k] == before.value;
        if Applies(tables, assignments[last], slot) && Outranks(assignments[last], rest[k]) {
          assert IsFirstHighest(tables, assignments, slot, last);
        } else {
          assert IsFirstHighest(tables, assignments, slot, k);
        }
      } else if Applies(tables, assignments[last], slot) {
        assert IsFirstHighest(tables, assignments, slot, last);
      }
    }
  }

  // ---------------------------------------------------------------------------------------------
  // What a date should hold

  function RuleFor(rules: seq<Rule>, scheduleId: Uuid, weekday: int): Option<Rule> {
    if rules == [] then None
    else if rules[0].scheduleId == scheduleId && rules[0].weekday == weekday then Some(rules[0])
    else RuleFor(rules[1..], scheduleId, weekday)
  }

  function ShiftFor(tables: Tables, rule: Rule): Option<Shift> {
    if rule.shiftId.Some? && rule.shiftId.value in tables.shifts then Some(tables.shifts[rule.shiftId.value]) else None
  }

  function ShiftIdOr(rule: Rule): Uuid {
    if rule.shiftId.Some? then rule.shiftId.value else DUMMY
  }

  function RowFor(tables: Tables, a: Assignment, rule: Rule, date: int): Row
    requires a.scheduleId in tables.schedules
  {
    var shift := ShiftFor(tables, rule);
    var times := if shift.Some? then shift.value else Shift(8 * HOUR, 17 * HOUR, false, 60);
    var offset := tables.schedules[a.scheduleId].utcOffset;
    var start := date * DAY + times.startsAt - offset;
    var endDate := if times.crossesMidnight || times.endsAt <= times.startsAt then date + 1 else date;
    Row(if a.scope.ForLocation? then a.scopeId else None, a.scheduleId, start, endDate * DAY + times.endsAt - offset,
        start + times.absentAfterMinutes * MINUTE, rule.isWorkingDay && shift.Some?, None)
  }

  /** What the tables ask of one person's date: one row, no row, or nothing (the schedule is missing). */
  datatype Plan = OneRow(key: Key, row: Row) | NoRow | Nothing

  function PlanFor(tables: Tables, slot: Slot): Plan {
    match ResolveScheduleAssignment(tables, tables.assignments, slot)
    case None => NoRow
    case Some(a) =>
      if a.scheduleId !in tables.schedules then Nothing
      else
        match RuleFor(tables.rules, a.scheduleId, slot.date % 7)
        case None => NoRow
        case Some(rule) =>
          OneRow(Key(slot.personId, slot.date, ShiftIdOr(rule), rule.periodLabel), RowFor(tables, a, rule, slot.date))
  }

  predicate ShiftsAreTimesOfDay(tables: Tables) {
    forall id | id in tables.shifts :: 0 <= tables.shifts[id].startsAt < DAY && 0 <= tables.shifts[id].endsAt < DAY
  }

  /** A planned row ends after it starts, within two days, as the table's check constraint demands. */
  lemma PlannedRowIsValid(tables: Tables, slot: Slot)
    requires ShiftsAreTimesOfDay(tables)
    ensures PlanFor(tables, slot).OneRow? ==>
              var p := PlanFor(tables, slot);
              && p.row.start < p.row.end < p.row.start + 2 * DAY && p.row.voidedAt.None?
              && p.key.personId == slot.personId && p.key.date == slot.date
  {
  }

  // ---------------------------------------------------------------------------------------------
  // One date

  predicate IsOf(k: Key, slot: Slot) {
    k.personId == slot.personId && k.date == slot.date
  }

  /** A live row of the slot other than the one to keep. */
  predicate IsSurplus(rows: Rows, k: Key, slot: Slot, keep: Option<Key>) {
    k in rows && IsOf(k, slot) && Some(k) != keep && rows[k].voidedAt.None?
  }

  function Voided(rows: Rows, slot: Slot, keep: Option<Key>, now: Time): Rows {
    map k | k in rows :: if IsSurplus(rows, k, slot, keep) then rows[k].(voidedAt := Some(now)) else rows[k]
  }

  predicate HasSurplus(rows: Rows, slot: Slot, keep: Option<Key>) {
    exists k | k in rows :: IsSurplus(rows, k, slot, keep)
  }

  datatype State = State(rows: Rows, dirty: set<Slot>)

  function Applied(s: State, tables: Tables, slot: Slot, now: Time): State {
    match PlanFor(tables, slot)
    case Nothing => s
    case NoRow => State(Voided(s.rows, slot, None, now), s.dirty + if HasSurplus(s.rows, slot, None) then {slot}
                        else {})
    case OneRow(key, row) =>
      var changed := HasSurplus(s.rows, slot, Some(key)) || key !in s.rows || s.rows[key] != row;
      State(Voided(s.rows, slot, Some(key), now)[key := row], s.dirty + if changed then {slot} else {})
  }

  /** The slots of one person from `start` up to but excluding `end`. */
  function DatesOf(p: Uuid, start: int, end: int, today: int, allowPast: bool): seq<Slot>
    decreases end - start
  {
    if end <= start then []
    else
      DatesOf(p, start, end - 1, today, allowPast) + if end - 1 < today && !allowPast then [] else [Slot(p, end - 1)]
  }

  /** The slots a run processes, in order. */
  function Work(people: seq<Uuid>, start: int, end: int, today: int, allowPast: bool): seq<Slot> {
    if people == [] then []
    else Work(people[..|people| - 1], start, end, today, allowPast)
         + DatesOf(people[|people| - 1], start, end + 1, today, allowPast)
  }

  function AppliedAll(s: State, tables: Tables, slots: seq<Slot>, now: Time): State {
    if slots == [] then s
    else Applied(AppliedAll(s, tables, slots[..|slots| - 1], now), tables, slots[|slots| - 1], now)
  }

  lemma AppliedSnoc(s: State, tables: Tables, slots: seq<Slot>, slot: Slot, now: Time)
    ensures AppliedAll(s, tables, slots + [slot], now) == Applied(AppliedAll(s, tables, slots, now), tables, slot, now)
  {
  }

  class ScheduleExpander {
    var rows: Rows
    var dirty: set<Slot>

    constructor (rows: Rows)
      ensures this.rows == rows && dirty == {}
    {
      this.rows, dirty := rows, {};
    }

    /** Voids the live rows of the slot but the one to keep; tells whether there were any. */
    method VoidLive(slot: Slot, keep: Option<Key>, now: Time) returns (any: bool)
      modifies this`rows
      ensures rows == Voided(old(rows), slot, keep, now)
      ensures any == HasSurplus(old(rows), slot, keep)
    {
      var before := rows;
      var toVoid := set k | k in before && IsSurplus(before, k, slot, keep);
      any := toVoid != {};
      if any {
        var k :| k in toVoid;
        assert IsSurplus(before, k, slot, keep);
      }
      while toVoid != {}
        invariant forall k | k in toVoid :: IsSurplus(before, k, slot, keep)
        invariant rows.Keys == before.Keys
        invariant forall k | k in before ::
                    rows[k] == if k !in toVoid then Voided(before, slot, keep, now)[k] else before[k]
        decreases toVoid
      {
        var k :| k in toVoid;
        rows := rows[k := rows[k].(voidedAt := Some(now))];
        toVoid := toVoid - {k};
      }
    }

    method ExpandDate(tables: Tables, slot: Slot, now: Time)
      modifies this
      ensures State(rows, dirty) == Applied(old(State(rows, dirty)), tables, slot, now)
    {
      var assignment := ResolveScheduleAssignment(tables, tables.assignments, slot);
      if assignment.None? {
        var any := VoidLive(slot, None, now);
        if any {
          dirty := dirty + {slot};
        }
        return;
      }
      if assignment.value.scheduleId !in tables.schedules {
        return;
      }
      var rule := RuleFor(tables.rules, assignment.value.scheduleId, slot.date % 7);
      if rule.None? {
        var any := VoidLive(slot, None, now);
        if any {
          dirty := dirty + {slot};
        }
        return;
      }
      var wanted := RowFor(tables, assignment.value, rule.value, slot.date);
      var key := Key(slot.personId, slot.date, ShiftIdOr(rule.value), rule.value.periodLabel);
      var dirtyNeeded := VoidLive(slot, Some(key), now);
      if key !in rows || rows[key] != wanted {
        rows := rows[key := wanted];
        dirtyNeeded := true;
      }
      if dirtyNeeded {
        dirty := dirty + {slot};
      }
    }

    method ExpandPerson(tables: Tables, p: Uuid, startDate: int, endDate: int, allowPast: bool, today: int, now: Time)
      modifies this
      ensures State(rows, dirty) ==
              AppliedAll(old(State(rows, dirty)), tables, DatesOf(p, startDate, endDate + 1, today, allowPast), now)
    {
      ghost var s := State(rows, dirty);
      var date := startDate;
      while date <= endDate
        invariant date == startDate || startDate <= date <= endDate + 1
        invariant State(rows, dirty) == AppliedAll(s, tables, DatesOf(p, startDate, date, today, allowPast), now)
        decreases endDate + 1 - date
      {
        if date < today && !allowPast {
          assert DatesOf(p, startDate, date + 1, today, allowPast) == DatesOf(p, startDate, date, today, allowPast);
          date := date + 1;
          continue;
        }
        AppliedSnoc(s, tables, DatesOf(p, startDate, date, today, allowPast), Slot(p, date), now);
        ExpandDate(tables, Slot(p, date), now);
        date := date + 1;
      }
    }

    method ExpandSchedules(tables: Tables, people: seq<Uuid>, startDate: int, endDate: int, allowPast: bool,
                           today: int, now: Time)
      modifies this
      ensures State(rows, dirty) ==
              AppliedAll(old(State(rows, dirty)), tables, Work(people, startDate, endDate, today, allowPast), now)
    {
      ghost var s := State(rows, dirty);
      for i := 0 to |people|
        invariant State(rows, dirty) ==
                  AppliedAll(s, tables, Work(people[..i], startDate, endDate, today, allowPast), now)
      {
        assert people[..i + 1][..i] == people[..i];
        AppliedAppend(s, tables, Work(people[..i], startDate, endDate, today, allowPast),
                      DatesOf(people[i], startDate, endDate + 1, today, allowPast), now);
        ExpandPerson(tables, people[i], startDate, endDate, allowPast, today, now);
      }
      assert people[..|people|] == people;
    }
  }

  lemma {:induction false} AppliedAppend(s: State, tables: Tables, slots: seq<Slot>, more: seq<Slot>, now: Time)
    ensures AppliedAll(s, tables, slots + more, now) == AppliedAll(AppliedAll(s, tables, slots, now), tables, more, now)
  {
    if more == [] {
      assert slots + more == slots;
    } else {
      var rest := more[..|more| - 1];
      assert (slots + more)[..|slots + more| - 1] == slots + rest;
      AppliedAppend(s, tables, slots, rest, now);
    }
  }

  // ---------------------------------------------------------------------------------------------
  // What a run achieves

  lemma {:induction false} DatesAreTheRange(p: Uuid, start: int, end: int, today: int, allowPast: bool, slot: Slot)
    ensures slot in DatesOf(p, start, end, today, allowPast)
       <==> slot.personId == p && start <= slot.date < end && (slot.date >= today || allowPast)
    decreases end - start
  {
    if start < end {
      DatesAreTheRange(p, start, end - 1, today, allowPast, slot);
    }
  }

  /** A run processes every listed person's dates of the range but the past ones, unless those are allowed. */
  lemma {:induction false} WorkIsTheRange(people: seq<Uuid>, start: int, end: int, today: int, allowPast: bool,
                                          slot: Slot)
    ensures slot in Work(people, start, end, today, allowPast)
       <==> slot.personId in people && start <= slot.date <= end && (slot.date >= today || allowPast)
  {
    if people != [] {
      var rest, last := people[..|people| - 1], people[|people| - 1];
      WorkIsTheRange(rest, start, end, today, allowPast, slot);
      DatesAreTheRange(last, start, end + 1, today, allowPast, slot);
      assert people == rest + [last];
    }
  }

  /** The slot holds what the plan asks for. */
  predicate IsMet(rows: Rows, slot: Slot, plan: Plan) {
    match plan
    case Nothing => true
    case NoRow => !HasSurplus(rows, slot, None)
    case OneRow(key, row) => key in rows && rows[key] == row && !HasSurplus(rows, slot, Some(key))
  }

  lemma PlannedKeyIsOfSlot(tables: Tables, slot: Slot)
    ensures PlanFor(tables, slot).OneRow? ==>
              IsOf(PlanFor(tables, slot).key, slot) && PlanFor(tables, slot).row.voidedAt.None?
  {
  }

  lemma ApplyingMeets(s: State, tables: Tables, slot: Slot, now: Time)
    ensures IsMet(Applied(s, tables, slot, now).rows, slot, PlanFor(tables, slot))
  {
  }

  lemma ApplyingAgainIsIdle(s: State, tables: Tables, slot: Slot, now: Time)
    requires IsMet(s.rows, slot, PlanFor(tables, slot))
    ensures Applied(s, tables, slot, now) == s
  {
  }

  /** The rows of a slot, as they were. */
  ghost predicate SameRowsOf(rows: Rows, after: Rows, slot: Slot) {
    forall k | IsOf(k, slot) :: (k in rows <==> k in after) && (k in rows && k in after ==> rows[k] == after[k])
  }

  lemma ApplyingElsewhere(s: State, tables: Tables, slot: Slot, other: Slot, now: Time)
    requires slot != other
    ensures SameRowsOf(s.rows, Applied(s, tables, other, now).rows, slot)
    ensures slot in Applied(s, tables, other, now).dirty <==> slot in s.dirty
  {
  }

  lemma SameRowsMeet(rows: Rows, after: Rows, slot: Slot, tables: Tables)
    requires SameRowsOf(rows, after, slot) && IsMet(rows, slot, PlanFor(tables, slot))
    ensures IsMet(after, slot, PlanFor(tables, slot))
  {
  }

  lemma {:induction false} ProcessedSlotsAreMet(s: State, tables: Tables, slots: seq<Slot>, now: Time, slot: Slot)
    requires slot in slots
    ensures IsMet(AppliedAll(s, tables, slots, now).rows, slot, PlanFor(tables, slot))
  {
    var rest, last := slots[..|slots| - 1], slots[|slots| - 1];
    assert slots == rest + [last];
    var before := AppliedAll(s, tables, rest, now);
    if last == slot {
      ApplyingMeets(before, tables, slot, now);
    } else {
      ProcessedSlotsAreMet(s, tables, rest, now, slot);
      ApplyingElsewhere(before, tables, slot, last, now);
      SameRowsMeet(before.rows, Applied(before, tables, last, now).rows, slot, tables);
    }
  }

  lemma {:induction false} OtherSlotsStay(s: State, tables: Tables, slots: seq<Slot>, now: Time, slot: Slot)
    requires slot !in slots
    ensures SameRowsOf(s.rows, AppliedAll(s, tables, slots, now).rows, slot)
    ensures slot in AppliedAll(s, tables, slots, now).dirty <==> slot in s.dirty
  {
    if slots != [] {
      var rest, last := slots[..|slots| - 1], slots[|slots| - 1];
      assert slots == rest + [last];
      OtherSlotsStay(s, tables, rest, now, slot);
      ApplyingElsewhere(AppliedAll(s, tables, rest, now), tables, slot, last, now);
    }
  }

  lemma {:induction false} MetSlotsAreIdle(s: State, tables: Tables, slots: seq<Slot>, now: Time)
    requires forall slot | slot in slots :: IsMet(s.rows, slot, PlanFor(tables, slot))
    ensures AppliedAll(s, tables, slots, now) == s
  {
    if slots != [] {
      var rest, last := slots[..|slots| - 1], slots[|slots| - 1];
      assert slots == rest + [last];
      MetSlotsAreIdle(s, tables, rest, now);
      ApplyingAgainIsIdle(s, tables, last, now);
    }
  }

  // The main results

  datatype Request = Request(people: seq<Uuid>, start: int, end: int, allowPast: bool, today: int, now: Time)

  predicate IsProcessed(r: Request, slot: Slot) {
    slot.personId in r.people && r.start <= slot.date <= r.end && (slot.date >= r.today || r.allowPast)
  }

  function Expanded(s: State, tables: Tables, r: Request): State {
    AppliedAll(s, tables, Work(r.people, r.start, r.end, r.today, r.allowPast), r.now)
  }

  function LiveKeys(rows: Rows, slot: Slot): set<Key> {
    set k | k in rows && IsOf(k, slot) && rows[k].voidedAt.None?
  }

  /**
   After a run every processed date has exactly the planned row live, or none when no assignment applies or the
   schedule has no rule for the weekday; dates that are skipped or out of range keep all their rows and flags.
   */
  lemma ExpansionMeetsThePlan(s: State, tables: Tables, r: Request, slot: Slot)
    ensures var after, plan := Expanded(s, tables, r), PlanFor(tables, slot);
            if IsProcessed(r, slot) && plan.OneRow? then
              LiveKeys(after.rows, slot) == {plan.key} && after.rows[plan.key] == plan.row
            else if IsProcessed(r, slot) && plan.NoRow? then
              LiveKeys(after.rows, slot) == {}
            else
              SameRowsOf(s.rows, after.rows, slot) && (slot in after.dirty <==> slot in s.dirty)
  {
    var work := Work(r.people, r.start, r.end, r.today, r.allowPast);
    WorkIsTheRange(r.people, r.start, r.end, r.today, r.allowPast, slot);
    var after, plan := Expanded(s, tables, r), PlanFor(tables, slot);
    if !IsProcessed(r, slot) {
      OtherSlotsStay(s, tables, work, r.now, slot);
    } else if plan.Nothing? {
      NothingStays(s, tables, work, r.now, slot);
    } else {
      ProcessedSlotsAreMet(s, tables, work, r.now, slot);
      PlannedKeyIsOfSlot(tables, slot);
      var keep := if plan.OneRow? then Some(plan.key) else None;
      forall k | k in after.rows
        ensures !IsSurplus(after.rows, k, slot, keep)
      {
      }
    }
  }

  // Every lookup uses the dummy location

  predicate IsRealLocation(a: Assignment) {
    a.scope.ForLocation? && a.scopeId != Some(DUMMY)
  }

  function OffLocation(assignments: seq<Assignment>): seq<Assignment> {
    if assignments == [] then []
    else
      var rest, last := OffLocation(assignments[..|assignments| - 1]), assignments[|assignments| - 1];
      if IsRealLocation(last) then rest else rest + [last]
  }

  /** The tables with every assignment to a real location dropped. */
  function Unlocated(tables: Tables): Tables {
    tables.(assignments := OffLocation(tables.assignments))
  }

  lemma {:induction false} ChoiceIgnoresRealLocations(tables: Tables, assignments: seq<Assignment>, slot: Slot)
    ensures ResolveScheduleAssignment(Unlocated(tables), OffLocation(assignments), slot)
         == ResolveScheduleAssignment(tables, assignments, slot)
  {
    if assignments != [] {
      var rest, last := assignments[..|assignments| - 1], assignments[|assignments| - 1];
      ChoiceIgnoresRealLocations(tables, rest, slot);
      assert (OffLocation(rest) + [last])[..|OffLocation(rest)|] == OffLocation(rest);
      assert Applies(Unlocated(tables), last, slot) == Applies(tables, last, slot);
    }
  }

  lemma PlanIgnoresRealLocations(tables: Tables, slot: Slot)
    ensures PlanFor(Unlocated(tables), slot) == PlanFor(tables, slot)
  {
    ChoiceIgnoresRealLocations(tables, tables.assignments, slot);
  }

  lemma {:induction false} WorkIgnoresRealLocations(s: State, tables: Tables, slots: seq<Slot>, now: Time)
    ensures AppliedAll(s, Unlocated(tables), slots, now) == AppliedAll(s, tables, slots, now)
  {
    if slots != [] {
      WorkIgnoresRealLocations(s, tables, slots[..|slots| - 1], now);
      PlanIgnoresRealLocations(tables, slots[|slots| - 1]);
    }
  }

  /** Dropping every assignment to a real location changes nothing that any run does to rows or flags. */
  lemma RealLocationsNeverDecide(s: State, tables: Tables, r: Request)
    ensures Expanded(s, Unlocated(tables), r) == Expanded(s, tables, r)
  {
    WorkIgnoresRealLocations(s, tables, Work(r.people, r.start, r.end, r.today, r.allowPast), r.now);
  }

  /** One schedule with one working day, assigned once. */
  function OneAssignment(scope: Scope, scopeId: Option<Uuid>): Tables {
    Tables([Assignment(1, scope, scopeId, 0, 0, None)], map[1 := Schedule(8 * HOUR)], [Rule(1, 0, Some(1), true, "")],
           map[1 := Shift(8 * HOUR, 17 * HOUR, false, 60)], _ => [])
  }

  /**
   It happens: a schedule assigned to a location plans nothing for anybody; to the organisation, a row for
   everybody.
   */
  lemma LocationPlansNothing(p: Uuid, location: Uuid)
    requires location != DUMMY
    ensures PlanFor(OneAssignment(ForLocation, Some(location)), Slot(p, 7)) == NoRow
    ensures PlanFor(OneAssignment(ForOrg, None), Slot(p, 7)).OneRow?
  {
    var located, everywhere := OneAssignment(ForLocation, Some(location)), OneAssignment(ForOrg, None);
    ChosenIsFirstHighest(located, located.assignments, Slot(p, 7));
    ChosenIsFirstHighest(everywhere, everywhere.assignments, Slot(p, 7));
    assert Applies(everywhere, everywhere.assignments[0], Slot(p, 7));
  }

  lemma {:induction false} NothingStays(s: State, tables: Tables, slots: seq<Slot>, now: Time, slot: Slot)
    requires PlanFor(tables, slot).Nothing?
    ensures SameRowsOf(s.rows, AppliedAll(s, tables, slots, now).rows, slot)
    ensures slot in AppliedAll(s, tables, slots, now).dirty <==> slot in s.dirty
  {
    if slots != [] {
      var rest, last := slots[..|slots| - 1], slots[|slots| - 1];
      NothingStays(s, tables, rest, now, slot);
      if last != slot {
        ApplyingElsewhere(AppliedAll(s, tables, rest, now), tables, slot, last, now);
      }
    }
  }

  /** A second run over the same tables, then or later, changes no row and sets no dirty flag. */
  lemma SecondRunIsIdle(s: State, tables: Tables, r: Request, again: Request, dirty: set<Slot>)
    requires forall slot | IsProcessed(again, slot) :: IsProcessed(r, slot)
    ensures var rows := Expanded(s, tables, r).rows;
            Expanded(State(rows, dirty), tables, again) == State(rows, dirty)
  {
    var rows := Expanded(s, tables, r).rows;
    var work := Work(again.people, again.start, again.end, again.today, again.allowPast);
    forall slot | slot in work
      ensures IsMet(rows, slot, PlanFor(tables, slot))
    {
      WorkIsTheRange(again.people, again.start, again.end, again.today, again.allowPast, slot);
      assert IsProcessed(again, slot);
      WorkIsTheRange(r.people, r.start, r.end, r.today, r.allowPast, slot);
      ProcessedSlotsAreMet(s, tables, Work(r.people, r.start, r.end, r.today, r.allowPast), r.now, slot);
    }
    MetSlotsAreIdle(State(rows, dirty), tables, work, again.now);
  }

  /** A date is flagged for the resolver exactly when the run changes what is live on it. */
  lemma {:induction false} FlagsMarkTheChanges(s: State, tables: Tables, slots: seq<Slot>, now: Time, slot: Slot)
    requires slot !in s.dirty
    ensures slot in AppliedAll(s, tables, slots, now).dirty
       <==> !SameRowsOf(s.rows, AppliedAll(s, tables, slots, now).rows, slot)
  {
    if slot !in slots {
      OtherSlotsStay(s, tables, slots, now, slot);
    } else {
      var rest, last := slots[..|slots| - 1], slots[|slots| - 1];
      assert slots == rest + [last];
      var before := AppliedAll(s, tables, rest, now);
      FlagsMarkTheChanges(s, tables, rest, now, slot);
      if last != slot {
        ApplyingElsewhere(before, tables, slot, last, now);
      } else if slot in rest {
        ProcessedSlotsAreMet(s, tables, rest, now, slot);
        ApplyingAgainIsIdle(before, tables, slot, now);
      } else {
        OtherSlotsStay(s, tables, rest, now, slot);
        OneStepFlags(before, tables, slot, now);
      }
    }
  }

  lemma OneStepFlags(s: State, tables: Tables, slot: Slot, now: Time)
    requires slot !in s.dirty
    ensures slot in Applied(s, tables, slot, now).dirty
       <==> !SameRowsOf(s.rows, Applied(s, tables, slot, now).rows, slot)
  {
  }
}
