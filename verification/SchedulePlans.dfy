/**
 What the schedule tables ask of one person's date, read off the tables, and what a run does to every row
 (backend/app/attendance/resolver.py: `expand_schedules`).
 */
module SchedulePlans {
  import opened Basics
  import opened Attendance
  import opened Scheduling

  // ---------------------------------------------------------------------------------------------
  // The plan

  /** An assignment applies from its first to its last day, to its person, its group's members or everybody. */
  lemma AppliesMeans(tables: Tables, a: Assignment, slot: Slot)
    ensures Applies(tables, a, slot) <==>
            && a.effectiveFrom <= slot.date && (a.effectiveTo.Some? ==> slot.date <= a.effectiveTo.value)
            && (a.scope.ForPerson? ==> a.scopeId == Some(slot.personId))
            && (a.scope.ForLocation? ==> a.scopeId == Some(0))
            && (a.scope.ForGroup? ==>
                  exists m | m in tables.memberships(slot.personId) ::
                    && a.scopeId == Some(m.groupId) && m.effectiveFrom <= slot.date
                    && (m.effectiveTo.Some? ==> slot.date <= m.effectiveTo.value))
  {
    var ms := tables.memberships(slot.personId);
    if m :| m in ms && a.scopeId == Some(m.groupId) && m.effectiveFrom <= slot.date
            && (m.effectiveTo.Some? ==> slot.date <= m.effectiveTo.value) {
      assert IsMember(tables, slot, m.groupId);
    }
  }

  /** A person's assignment outranks a group's, a group's a location's and that one the organisation's. */
  lemma OutranksMeans(a: Assignment, b: Assignment)
    ensures a.scope == b.scope ==>
              (Outranks(a, b) <==> a.priority > b.priority
                                   || (a.priority == b.priority && a.effectiveFrom > b.effectiveFrom))
    ensures a.scope != b.scope ==>
              (Outranks(a, b) <==> || a.scope == ForPerson || b.scope == ForOrg
                                   || (a.scope == ForGroup && b.scope == ForLocation))
  {
  }

  predicate IsRuleOf(rule: Rule, scheduleId: Uuid, weekday: int) {
    rule.scheduleId == scheduleId && rule.weekday == weekday
  }

  predicate IsFirstRule(rules: seq<Rule>, scheduleId: Uuid, weekday: int, k: nat) {
    && k < |rules| && IsRuleOf(rules[k], scheduleId, weekday)
    && forall i | 0 <= i < k :: !IsRuleOf(rules[i], scheduleId, weekday)
  }

  lemma {:induction false} RuleForIsFirst(rules: seq<Rule>, scheduleId: Uuid, weekday: int)
    ensures var rule := RuleFor(rules, scheduleId, weekday);
            && (rule.None? <==> forall i | 0 <= i < |rules| :: !IsRuleOf(rules[i], scheduleId, weekday))
            && (rule.Some? ==> exists k: nat :: IsFirstRule(rules, scheduleId, weekday, k) && rules[k] == rule.value)
  {
    if rules != [] {
      if IsRuleOf(rules[0], scheduleId, weekday) {
        assert IsFirstRule(rules, scheduleId, weekday, 0);
      } else {
        var rest := rules[1..];
        RuleForIsFirst(rest, scheduleId, weekday);
        assert forall i | 0 < i < |rules| :: rules[i] == rest[i - 1];
        if k: nat :| IsFirstRule(rest, scheduleId, weekday, k) && rest[k] == RuleFor(rest, scheduleId, weekday).value {
          assert IsFirstRule(rules, scheduleId, weekday, k + 1);
        }
      }
    }
  }

  /** Days are counted from a Monday. */
  function Weekday(date: int): (w: int)
    ensures 0 <= w < 7 && exists week :: date == 7 * week + w
  {
    assert date == 7 * (date / 7) + date % 7;
    date % 7
  }

  /** The assignment `a` is the one chosen for the slot and `rule` the one its schedule has for the weekday. */
  ghost predicate IsGoverned(tables: Tables, slot: Slot, a: Assignment, rule: Rule) {
    && (exists j: nat :: IsFirstHighest(tables, tables.assignments, slot, j) && tables.assignments[j] == a)
    && a.scheduleId in tables.schedules
    && (exists k: nat :: IsFirstRule(tables.rules, a.scheduleId, Weekday(slot.date), k) && tables.rules[k] == rule)
  }

  lemma GoverningIsChosen(tables: Tables, slot: Slot, a: Assignment, rule: Rule)
    requires IsGoverned(tables, slot, a, rule)
    ensures ResolveScheduleAssignment(tables, tables.assignments, slot) == Some(a)
    ensures RuleFor(tables.rules, a.scheduleId, slot.date % 7) == Some(rule)
  {
    ChosenIsFirstHighest(tables, tables.assignments, slot);
    RuleForIsFirst(tables.rules, a.scheduleId, slot.date % 7);
    var j: nat :| IsFirstHighest(tables, tables.assignments, slot, j) && tables.assignments[j] == a;
    var i: nat :| IsFirstHighest(tables, tables.assignments, slot, i)
                  && Some(tables.assignments[i]) == ResolveScheduleAssignment(tables, tables.assignments, slot);
    assert i == j;
  }

  predicate NoneApplies(tables: Tables, slot: Slot) {
    forall i | 0 <= i < |tables.assignments| :: !Applies(tables, tables.assignments[i], slot)
  }

  /** A row is planned exactly if an assignment is chosen and its schedule is known and has a rule for the weekday. */
  lemma RowIsPlannedExactly(tables: Tables, slot: Slot)
    ensures PlanFor(tables, slot).OneRow? <==> exists a, rule :: IsGoverned(tables, slot, a, rule)
    ensures PlanFor(tables, slot).Nothing? <==>
            exists j: nat :: IsFirstHighest(tables, tables.assignments, slot, j)
                             && tables.assignments[j].scheduleId !in tables.schedules
  {
    ChosenIsFirstHighest(tables, tables.assignments, slot);
    var chosen := ResolveScheduleAssignment(tables, tables.assignments, slot);
    if chosen.Some? {
      var a := chosen.value;
      RuleForIsFirst(tables.rules, a.scheduleId, slot.date % 7);
      var rule := RuleFor(tables.rules, a.scheduleId, slot.date % 7);
      assert a.scheduleId in tables.schedules && rule.Some? ==> IsGoverned(tables, slot, a, rule.value);
      forall j: nat | IsFirstHighest(tables, tables.assignments, slot, j)
        ensures tables.assignments[j] == a
      {
      }
    }
    if b, rule :| IsGoverned(tables, slot, b, rule) {
      GoverningIsChosen(tables, slot, b, rule);
    }
  }

  /** The planned key and the columns that do not depend on the clock. */
  lemma PlannedKeyMeans(tables: Tables, slot: Slot, a: Assignment, rule: Rule)
    requires IsGoverned(tables, slot, a, rule)
    ensures var p := PlanFor(tables, slot);
            && p.OneRow? && p.key.personId == slot.personId && p.key.date == slot.date
            && p.key.periodLabel == rule.periodLabel
            && (rule.shiftId.Some? ==> p.key.shiftId == rule.shiftId.value)
            && (rule.shiftId.None? ==> p.key.shiftId == 0)
            && p.row.scheduleId == a.scheduleId
            && p.row.locationId == (if a.scope.ForLocation? then Some(0) else None)
            && p.row.voidedAt.None?
            && (p.row.isWorkingDay <==>
                rule.isWorkingDay && exists id | id in tables.shifts :: rule.shiftId == Some(id))
  {
    GoverningIsChosen(tables, slot, a, rule);
    ChosenIsFirstHighest(tables, tables.assignments, slot);
  }

  /**
   On the schedule's own clock the row starts at the shift's start on the date and ends at the shift's end, on the
   next date exactly if the shift crosses midnight or ends no later than it starts; without a known shift it runs
   from eight to five and absence is due after an hour.
   */
  lemma PlannedTimesMean(tables: Tables, slot: Slot, a: Assignment, rule: Rule)
    requires IsGoverned(tables, slot, a, rule)
    ensures PlanFor(tables, slot).OneRow?
    ensures var row, offset := PlanFor(tables, slot).row, tables.schedules[a.scheduleId].utcOffset;
            var starts, ends := row.start + offset - slot.date * DAY, row.end + offset - slot.date * DAY;
            && (rule.shiftId.Some? && rule.shiftId.value in tables.shifts ==>
                  var shift := tables.shifts[rule.shiftId.value];
                  && starts == shift.startsAt
                  && (shift.crossesMidnight || shift.endsAt <= shift.startsAt ==> ends == DAY + shift.endsAt)
                  && (!shift.crossesMidnight && shift.startsAt < shift.endsAt ==> ends == shift.endsAt)
                  && row.absentAfter - row.start == shift.absentAfterMinutes * MINUTE)
            && (rule.shiftId.None? || rule.shiftId.value !in tables.shifts ==>
                  starts == 8 * HOUR && ends == 17 * HOUR && row.absentAfter - row.start == 60 * MINUTE)
  {
    GoverningIsChosen(tables, slot, a, rule);
  }

  // ---------------------------------------------------------------------------------------------
  // Every row after a run

  function SlotOf(k: Key): Slot {
    Slot(k.personId, k.date)
  }

  /** What a run may do to a row that is not planned: void it if it was live and its date was planned. */
  lemma {:induction false} RowAfterSlots(s: State, tables: Tables, slots: seq<Slot>, now: Time, k: Key)
    ensures var rows, plan := AppliedAll(s, tables, slots, now).rows, PlanFor(tables, SlotOf(k));
            var planned := SlotOf(k) in slots && plan.OneRow? && plan.key == k;
            && (k in rows <==> k in s.rows || planned)
            && (planned ==> rows[k] == plan.row)
            && (k in s.rows && !planned ==>
                  rows[k] == if SlotOf(k) in slots && !plan.Nothing? && s.rows[k].voidedAt.None?
                  then s.rows[k].(voidedAt := Some(now)) else s.rows[k])
  {
    if slots != [] {
      var rest, last := slots[..|slots| - 1], slots[|slots| - 1];
      assert slots == rest + [last];
      RowAfterSlots(s, tables, rest, now, k);
      PlannedKeyIsOfSlot(tables, last);
    }
  }

  /** No row is ever deleted, and a row that loses its plan keeps everything but the mark of being void. */
  lemma RowAfterRun(s: State, tables: Tables, r: Request, k: Key)
    ensures var rows, plan := Expanded(s, tables, r).rows, PlanFor(tables, SlotOf(k));
            var planned := IsProcessed(r, SlotOf(k)) && plan.OneRow? && plan.key == k;
            && (k in rows <==> k in s.rows || planned)
            && (planned ==> rows[k] == plan.row)
            && (k in s.rows && !planned ==>
                  rows[k] == if IsProcessed(r, SlotOf(k)) && !plan.Nothing? && s.rows[k].voidedAt.None?
                  then s.rows[k].(voidedAt := Some(r.now)) else s.rows[k])
  {
    RowAfterSlots(s, tables, Work(r.people, r.start, r.end, r.today, r.allowPast), r.now, k);
    WorkIsTheRange(r.people, r.start, r.end, r.today, r.allowPast, SlotOf(k));
  }
}
