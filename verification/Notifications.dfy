/**
 Guardian notifications: queued and retracted when an attendance record changes, delivered with retries
 (backend/app/notifications/service.py).

 Templates and the gateway are outside the model: an attempt to deliver succeeds or fails. `attempts` is the
 history of the tries, in order; the code does not keep it, the properties below are about it.
 */
module Notifications {
  import opened Basics
  import opened Attendance

  datatype Channel = Sms | Email | Whatsapp | NoChannel

  datatype Guardian = Guardian(id: Uuid, channel: Channel, phone: Option<string>, email: Option<string>)

  datatype Link = Link(guardian: Guardian, receivesAlerts: bool)

  datatype Person = Person(isActive: bool, links: seq<Link>, kind: string, groups: set<Uuid>)

  datatype Kind = Absence | Retraction | Lateness

  /** The dedupe key. Its text form is injective: see `KeyTextIsInjective`. */
  datatype Key = Key(kind: Kind, grain: Grain, guardianId: Uuid)

  datatype Delivery = Queued | Sent | Failed | Retracted

  datatype Notification = Notification(status: Delivery, channel: Channel, retryCount: nat, scheduledAt: Time,
                                       sentAt: Option<Time>)

  datatype Attempt = Attempt(key: Key, at: Time, delivered: bool)

  datatype Outbox = Outbox(rows: map<Key, Notification>, attempts: seq<Attempt>)

  // ---------------------------------------------------------------------------------------------
  // Rules

  datatype Rule = Rule(groupId: Option<Uuid>, personKind: Option<string>, delayMinutes: nat)

  predicate RuleApplies(r: Rule, p: Person) {
    (r.groupId.Some? ==> r.groupId.value in p.groups) && (r.personKind.Some? ==> r.personKind.value == p.kind)
  }

  /** A group match outweighs a person-kind match. */
  function Specificity(r: Rule): nat {
    (if r.groupId.Some? then 10 else 0) + (if r.personKind.Some? then 5 else 0)
  }

  /** The first of the most specific rules that apply. */
  function BestRule(rules: seq<Rule>, p: Person): Option<Rule> {
    if rules == [] then None
    else
      var best, rule := BestRule(rules[..|rules| - 1], p), rules[|rules| - 1];
      if RuleApplies(rule, p) && (best.None? || Specificity(best.value) < Specificity(rule)) then Some(rule) else best
  }

  predicate IsFirstBest(rules: seq<Rule>, p: Person, k: nat) {
    && k < |rules| && RuleApplies(rules[k], p)
    && (forall i | 0 <= i < |rules| && RuleApplies(rules[i], p) :: Specificity(rules[i]) <= Specificity(rules[k]))
    && (forall i | 0 <= i < k && RuleApplies(rules[i], p) :: Specificity(rules[i]) < Specificity(rules[k]))
  }

  lemma {:induction false} BestRuleIsFirst(rules: seq<Rule>, p: Person)
    ensures BestRule(rules, p).None? <==> forall i | 0 <= i < |rules| :: !RuleApplies(rules[i], p)
    ensures BestRule(rules, p).Some? ==>
              exists k: nat :: IsFirstBest(rules, p, k) && rules[k] == BestRule(rules, p).value
  {
    if rules != [] {
      var rest, last := rules[..|rules| - 1], |rules| - 1;
      BestRuleIsFirst(rest, p);
      assert forall i | 0 <= i < last :: rules[i] == rest[i];
      if RuleApplies(rules[last], p) {
        if BestRule(rest, p).None? {
          assert IsFirstBest(rules, p, last);
        } else {
          var k: nat :| IsFirstBest(rest, p, k) && rest[k] == BestRule(rest, p).value;
          assert IsFirstBest(rules, p, if Specificity(rules[k]) < Specificity(rules[last]) then last else k);
        }
      } else if BestRule(rest, p).Some? {
        var k: nat :| IsFirstBest(rest, p, k) && rest[k] == BestRule(rest, p).value;
        assert IsFirstBest(rules, p, k);
      }
    }
  }

  method GetMatchingRule(rules: seq<Rule>, p: Person) returns (best: Option<Rule>)
    ensures best == BestRule(rules, p)
  {
    best := None;
    var bestScore := -1;
    for i := 0 to |rules|
      invariant bestScore == if best.None? then -1 else Specificity(best.value)
      invariant best == BestRule(rules[..i], p)
    {
      var rule, score := rules[i], 0;
      assert rules[..i + 1][..i] == rules[..i];
      if rule.groupId.Some? {
        if rule.groupId.value !in p.groups {
          continue;
        }
        score := score + 10;
      }
      if rule.personKind.Some? {
        if rule.personKind.value != p.kind {
          continue;
        }
        score := score + 5;
      }
      if score > bestScore {
        bestScore, best := score, Some(rule);
      }
    }
    assert rules[..|rules|] == rules;
  }

  // ---------------------------------------------------------------------------------------------
  // Reacting to a record

  function Recipient(g: Guardian): Option<string> {
    if g.channel.Sms? then g.phone else g.email
  }

  predicate Reachable(g: Guardian) {
    !g.channel.NoChannel? && Recipient(g).Some? && Recipient(g).value != ""
  }

  function Fresh(g: Guardian, at: Time): Notification {
    Notification(Queued, g.channel, 0, at, None)
  }

  /** One notification for every alerted, reachable guardian whose key is still free. */
  function QueuedFor(rows: map<Key, Notification>, links: seq<Link>, kind: Kind, grain: Grain,
                     at: Time): map<Key, Notification> {
    if links == [] then rows
    else
      var before, link := QueuedFor(rows, links[..|links| - 1], kind, grain, at), links[|links| - 1];
      var key := Key(kind, grain, link.guardian.id);
      if link.receivesAlerts && Reachable(link.guardian) && key !in before
      then before[key := Fresh(link.guardian, at)] else before
  }

  predicate IsAbsence(key: Key, grain: Grain) {
    key.kind.Absence? && key.grain == grain
  }

  function PendingRetracted(rows: map<Key, Notification>, grain: Grain): map<Key, Notification> {
    map k | k in rows ::
      if IsAbsence(k, grain) && rows[k].status.Queued? then rows[k].(status := Retracted) else rows[k]
  }

  /** A sent absence alert that can still be taken back. */
  predicate NeedsRetraction(rows: map<Key, Notification>, key: Key, grain: Grain, guardians: map<Uuid, Guardian>) {
    && key in rows && IsAbsence(key, grain) && rows[key].status.Sent?
    && key.guardianId in guardians && Reachable(guardians[key.guardianId])
    && Key(Retraction, grain, key.guardianId) !in rows
  }

  function RetractionsFor(rows: map<Key, Notification>, grain: Grain, guardians: map<Uuid, Guardian>, now: Time)
    : map<Key, Notification>
  {
    map k | k in rows && NeedsRetraction(rows, k, grain, guardians) ::
      Key(Retraction, grain, k.guardianId) := Fresh(guardians[k.guardianId], now)
  }

  /** What a record change depends on besides the record: people, schedule, active rules, settings, clock. */
  datatype Setting = Setting(
    person: Option<Person>,
    guardians: map<Uuid, Guardian>,
    expectedStart: Option<Time>,
    absentRules: seq<Rule>,
    lateRules: seq<Rule>,
    delayMinutes: nat,
    now: Time)

  /** An absence alert waits from the scheduled start for the delay of the best rule, else of the setting. */
  function AbsenceAt(env: Setting, p: Person): Time {
    var rule := BestRule(env.absentRules, p);
    (if env.expectedStart.Some? then env.expectedStart.value else env.now)
    + (if rule.Some? then rule.value.delayMinutes else env.delayMinutes) * MINUTE
  }

  function LateAt(env: Setting, p: Person): Time {
    var rule := BestRule(env.lateRules, p);
    env.now + (if rule.Some? then rule.value.delayMinutes else 0) * MINUTE
  }

  predicate IsArrival(s: Status) {
    s.OnTime? || s.Late? || s.PresentUnscheduled?
  }

  predicate Heeded(oldStatus: Option<Status>, status: Status, env: Setting) {
    && oldStatus != Some(status)
    && env.person.Some? && env.person.value.isActive && env.person.value.links != []
  }

  /** The absence alerts of the grain taken back: those waiting are retracted, those sent are answered. */
  function TakenBack(rows: map<Key, Notification>, grain: Grain, env: Setting): map<Key, Notification> {
    var retracted := PendingRetracted(rows, grain);
    retracted + RetractionsFor(retracted, grain, env.guardians, env.now)
  }

  function Processed(rows: map<Key, Notification>, grain: Grain, status: Status, oldStatus: Option<Status>,
                     env: Setting)
    : map<Key, Notification>
  {
    if !Heeded(oldStatus, status, env) then rows
    else if status.Absent? then
      QueuedFor(rows, env.person.value.links, Absence, grain, AbsenceAt(env, env.person.value))
    else if IsArrival(status) then
      var answered := TakenBack(rows, grain, env);
      if status.Late? then
        QueuedFor(answered, env.person.value.links, Lateness, grain, LateAt(env, env.person.value)) else answered
    else rows
  }

  // ---------------------------------------------------------------------------------------------
  // Delivering

  function Pow2(n: nat): nat {
    if n == 0 then 1 else 2 * Pow2(n - 1)
  }

  predicate Due(rows: map<Key, Notification>, key: Key, now: Time) {
    key in rows && rows[key].status.Queued? && rows[key].scheduledAt <= now
  }

  /** A delivery can only succeed over a channel the gateway knows. */
  function Outcome(n: Notification, gatewayOk: bool): bool {
    gatewayOk && (n.channel.Sms? || n.channel.Email?)
  }

  function Tried(n: Notification, delivered: bool, at: Time): Notification {
    if delivered then n.(status := Sent, sentAt := Some(at))
    else if n.retryCount + 1 >= 5 then n.(status := Failed, retryCount := n.retryCount + 1)
    else n.(retryCount := n.retryCount + 1, scheduledAt := at + Pow2(n.retryCount + 1) * MINUTE)
  }

  function TriedOne(o: Outbox, key: Key, gatewayOk: bool, at: Time): Outbox
    requires key in o.rows
  {
    var delivered := Outcome(o.rows[key], gatewayOk);
    Outbox(o.rows[key := Tried(o.rows[key], delivered, at)], o.attempts + [Attempt(key, at, delivered)])
  }

  datatype Try = Try(key: Key, gatewayOk: bool, at: Time)

  /** A batch the query may return at `now`: due rows, each once, at most a hundred, tried no earlier than `now`. */
  predicate IsBatch(o: Outbox, batch: seq<Try>, now: Time) {
    && |batch| <= 100
    && (forall i, j | 0 <= i < j < |batch| :: batch[i].key != batch[j].key)
    && (forall i | 0 <= i < |batch| :: Due(o.rows, batch[i].key, now) && now <= batch[i].at)
  }

  function Dispatched(o: Outbox, batch: seq<Try>): Outbox
    requires forall i | 0 <= i < |batch| :: batch[i].key in o.rows
    ensures Dispatched(o, batch).rows.Keys == o.rows.Keys
  {
    if batch == [] then o
    else
      var t := batch[|batch| - 1];
      TriedOne(Dispatched(o, batch[..|batch| - 1]), t.key, t.gatewayOk, t.at)
  }

  /** A row that answers a sent alert of `before`. */
  predicate IsRetraction(before: map<Key, Notification>, rows: map<Key, Notification>, key: Key, grain: Grain,
                         guardians: map<Uuid, Guardian>, now: Time)
    requires key in rows
  {
    && key == Key(Retraction, grain, key.guardianId)
    && NeedsRetraction(before, Key(Absence, grain, key.guardianId), grain, guardians)
    && rows[key] == Fresh(guardians[key.guardianId], now)
  }

  lemma RetractionsAreAll(before: map<Key, Notification>, rows: map<Key, Notification>, grain: Grain,
                          guardians: map<Uuid, Guardian>, now: Time)
    requires forall k | k in before && NeedsRetraction(before, k, grain, guardians) ::
               Key(Retraction, grain, k.guardianId) in rows
    requires forall k | k in before :: k in rows && rows[k] == before[k]
    requires forall k | k in rows && k !in before :: IsRetraction(before, rows, k, grain, guardians, now)
    ensures rows == before + RetractionsFor(before, grain, guardians, now)
  {
  }

  class NotificationService {
    var rows: map<Key, Notification>
    ghost var attempts: seq<Attempt>

    constructor ()
      ensures rows == map[] && attempts == []
    {
      rows, attempts := map[], [];
    }

    method QueueForLinks(links: seq<Link>, kind: Kind, grain: Grain, at: Time)
      modifies this`rows
      ensures rows == QueuedFor(old(rows), links, kind, grain, at)
    {
      for i := 0 to |links|
        invariant rows == QueuedFor(old(rows), links[..i], kind, grain, at)
      {
        var link := links[i];
        assert links[..i + 1][..i] == links[..i];
        if !link.receivesAlerts || link.guardian.channel.NoChannel? {
          continue;
        }
        var recipient := Recipient(link.guardian);
        if recipient.None? || recipient.value == "" {
          continue;
        }
        var key := Key(kind, grain, link.guardian.id);
        if key in rows {
          continue;
        }
        rows := rows[key := Fresh(link.guardian, at)];
      }
      assert links[..|links|] == links;
    }

    method RetractPendingAlerts(grain: Grain)
      modifies this`rows
      ensures rows == PendingRetracted(old(rows), grain)
    {
      var before := rows;
      var pending := set k | k in before && IsAbsence(k, grain) && before[k].status.Queued?;
      while pending != {}
        invariant pending <= before.Keys && rows.Keys == before.Keys
        invariant forall k | k in pending :: IsAbsence(k, grain) && before[k].status.Queued?
        invariant forall k | k in before ::
                    rows[k] == if k in pending then before[k] else PendingRetracted(before, grain)[k]
        decreases pending
      {
        var k :| k in pending;
        pending := pending - {k};
        rows := rows[k := rows[k].(status := Retracted)];
      }
    }

    method AnswerSentAlerts(grain: Grain, guardians: map<Uuid, Guardian>, now: Time)
      modifies this`rows
      ensures rows == old(rows) + RetractionsFor(old(rows), grain, guardians, now)
    {
      var before := rows;
      var left := set k | k in before && IsAbsence(k, grain) && before[k].status.Sent?;
      while left != {}
        invariant left <= before.Keys
        invariant forall k | k in left :: IsAbsence(k, grain) && before[k].status.Sent?
        invariant forall k | k in before && NeedsRetraction(before, k, grain, guardians) ::
                    k in left || Key(Retraction, grain, k.guardianId) in rows
        invariant forall k | k in before :: k in rows && rows[k] == before[k]
        invariant forall k | k in rows && k !in before :: IsRetraction(before, rows, k, grain, guardians, now)
        decreases left
      {
        var alert :| alert in left;
        left := left - {alert};
        assert alert == Key(Absence, grain, alert.guardianId);
        if alert.guardianId in guardians && Reachable(guardians[alert.guardianId]) {
          var key := Key(Retraction, grain, alert.guardianId);
          if key !in rows {
            rows := rows[key := Fresh(guardians[alert.guardianId], now)];
          }
        }
      }
      RetractionsAreAll(before, rows, grain, guardians, now);
    }

    method TakeBackAlerts(grain: Grain, env: Setting)
      modifies this`rows
      ensures rows == TakenBack(old(rows), grain, env)
    {
      RetractPendingAlerts(grain);
      AnswerSentAlerts(grain, env.guardians, env.now);
    }

    method QueueAbsence(grain: Grain, p: Person, env: Setting)
      modifies this`rows
      ensures rows == QueuedFor(old(rows), p.links, Absence, grain, AbsenceAt(env, p))
    {
      var rule := GetMatchingRule(env.absentRules, p);
      var delay := if rule.Some? then rule.value.delayMinutes else env.delayMinutes;
      var base := if env.expectedStart.Some? then env.expectedStart.value else env.now;
      QueueForLinks(p.links, Absence, grain, base + delay * MINUTE);
    }

    method QueueLateness(grain: Grain, p: Person, env: Setting)
      modifies this`rows
      ensures rows == QueuedFor(old(rows), p.links, Lateness, grain, LateAt(env, p))
    {
      var rule := GetMatchingRule(env.lateRules, p);
      var delay := if rule.Some? then rule.value.delayMinutes else 0;
      QueueForLinks(p.links, Lateness, grain, env.now + delay * MINUTE);
    }

    method ProcessRecordNotifications(grain: Grain, status: Status, oldStatus: Option<Status>, env: Setting)
      modifies this`rows
      ensures rows == Processed(old(rows), grain, status, oldStatus, env)
    {
      if oldStatus == Some(status) {
        return;
      }
      if env.person.None? || !env.person.value.isActive || env.person.value.links == [] {
        return;
      }
      if status.Absent? {
        QueueAbsence(grain, env.person.value, env);
      } else if status.OnTime? || status.Late? || status.PresentUnscheduled? {
        TakeBackAlerts(grain, env);
        if status.Late? {
          QueueLateness(grain, env.person.value, env);
        }
      }
    }

    method DispatchPendingNotifications(batch: seq<Try>, ghost now: Time) returns (count: nat)
      requires IsBatch(Outbox(rows, attempts), batch, now)
      modifies this
      ensures Outbox(rows, attempts) == Dispatched(old(Outbox(rows, attempts)), batch)
      ensures count == |batch|
    {
      count := 0;
      ghost var start := Outbox(rows, attempts);
      for i := 0 to |batch|
        invariant count == i
        invariant Outbox(rows, attempts) == Dispatched(start, batch[..i])
      {
        assert batch[..i + 1][..i] == batch[..i];
        assert batch[i].key in Dispatched(start, batch[..i]).rows.Keys;
        Deliver(batch[i]);
        count := count + 1;
      }
      assert batch[..|batch|] == batch;
    }

    /** One attempt to deliver. */
    method Deliver(t: Try)
      requires t.key in rows
      modifies this
      ensures Outbox(rows, attempts) == old(TriedOne(Outbox(rows, attempts), t.key, t.gatewayOk, t.at))
    {
      var Try(key, gatewayOk, at) := t;
      var n := rows[key];
      var delivered := gatewayOk && (n.channel.Sms? || n.channel.Email?);
      if delivered {
        n := n.(status := Sent, sentAt := Some(at));
      } else {
        n := n.(retryCount := n.retryCount + 1);
        if n.retryCount >= 5 {
          n := n.(status := Failed);
        } else {
          n := n.(scheduledAt := at + Pow2(n.retryCount) * MINUTE);
        }
      }
      rows := rows[key := n];
      attempts := attempts + [Attempt(key, at, delivered)];
    }
  }

  // ---------------------------------------------------------------------------------------------
  // Keys

  function KindText(k: Kind): string {
    match k
    case Absence => "absence:"
    case Retraction => "retraction:"
    case Lateness => "late:"
  }

  function Digit(d: nat): (c: char)
    requires d < 16
    ensures c == (if d < 10 then '0' as int + d else 'a' as int + d - 10) as char
  {
    "0123456789abcdef"[d]
  }

  /** The last `width` hexadecimal digits of `n`. */
  function Hex(n: nat, width: nat): (r: string)
    ensures |r| == width
  {
    if width == 0 then "" else Hex(n / 16, width - 1) + [Digit(n % 16)]
  }

  function Pow16(n: nat): nat {
    if n == 0 then 1 else 16 * Pow16(n - 1)
  }

  lemma {:induction false} HexIsInjective(m: nat, n: nat, width: nat)
    requires m < Pow16(width) && n < Pow16(width) && Hex(m, width) == Hex(n, width)
    ensures m == n
  {
    if width > 0 {
      SuffixesAgree(Hex(m / 16, width - 1), Hex(n / 16, width - 1), [Digit(m % 16)], [Digit(n % 16)]);
      assert [Digit(m % 16)][0] == [Digit(n % 16)][0];
      HexIsInjective(m / 16, n / 16, width - 1);
    }
  }

  /** An identifier of 128 bits, as every UUID is. */
  predicate IsUuid(id: Uuid) {
    id < Pow16(32)
  }

  predicate FitInto(sizes: seq<nat>, length: nat) {
    sizes != [] ==> sizes[0] <= length && FitInto(sizes[1..], length - sizes[0])
  }

  /** `s` with a dash behind each group of the given sizes. */
  function Grouped(s: string, sizes: seq<nat>): (r: string)
    requires FitInto(sizes, |s|)
    ensures |r| == |s| + |sizes|
  {
    if sizes == [] then s else s[..sizes[0]] + ("-" + Grouped(s[sizes[0]..], sizes[1..]))
  }

  lemma {:induction false} GroupingIsInjective(s: string, t: string, sizes: seq<nat>)
    requires |s| == |t| && FitInto(sizes, |s|) && Grouped(s, sizes) == Grouped(t, sizes)
    ensures s == t
  {
    if sizes != [] {
      var n, s', t' := sizes[0], Grouped(s[sizes[0]..], sizes[1..]), Grouped(t[sizes[0]..], sizes[1..]);
      PrefixesAgree(s[..n], t[..n], "-" + s', "-" + t');
      PrefixesAgree("-", "-", s', t');
      GroupingIsInjective(s[n..], t[n..], sizes[1..]);
      assert s == s[..n] + s[n..] && t == t[..n] + t[n..];
    }
  }

  const UUID_GROUPS: seq<nat> := [8, 4, 4, 4]

  lemma GroupsFit()
    ensures FitInto(UUID_GROUPS, 32)
  {
    assert UUID_GROUPS[1..] == [4, 4, 4] && [4, 4, 4][1..] == [4, 4] && [4, 4][1..] == [4];
    assert FitInto([4], 16) && FitInto([4, 4], 20) && FitInto([4, 4, 4], 24);
  }

  /** The canonical text of a UUID: 32 digits in groups of 8, 4, 4, 4 and 12. */
  function UuidText(id: Uuid): (r: string)
    ensures |r| == 36
  {
    GroupsFit();
    Grouped(Hex(id, 32), UUID_GROUPS)
  }

  lemma UuidTextIsInjective(x: Uuid, y: Uuid)
    requires IsUuid(x) && IsUuid(y) && UuidText(x) == UuidText(y)
    ensures x == y
  {
    GroupsFit();
    GroupingIsInjective(Hex(x, 32), Hex(y, 32), UUID_GROUPS);
    HexIsInjective(x, y, 32);
  }

  /** Day numbers from 0001-01-01 to 9999-12-31, all the dates there are. */
  predicate IsDate(day: int) {
    1 <= day <= 3_652_059
  }

  /** Dates print as ten characters, no two alike; how is not modelled. */
  ghost predicate PrintsDates(dateText: int -> string) {
    && (forall d | IsDate(d) :: |dateText(d)| == 10)
    && (forall d, e | IsDate(d) && IsDate(e) && dateText(d) == dateText(e) :: d == e)
  }

  /** Ten characters are enough. */
  lemma DatesCanBePrinted()
    ensures PrintsDates((d: int) => Hex(if d < 0 then 0 else d, 10))
  {
    forall d, e | IsDate(d) && IsDate(e) && Hex(d, 10) == Hex(e, 10)
      ensures d == e
    {
      assert Pow16(10) == 0x100_0000_0000;
      HexIsInjective(d, e, 10);
    }
  }

  /** The stored text of a key. The period is free text. */
  function KeyText(k: Key, dateText: int -> string): string {
    KindText(k.kind) + UuidText(k.grain.personId) + ":" + dateText(k.grain.businessDate) + ":"
    + UuidText(k.grain.shiftId)
    + ":" + k.grain.periodLabel + ":" + UuidText(k.guardianId)
  }

  lemma PrefixesAgree(p: string, q: string, s: string, t: string)
    requires p + s == q + t && |p| == |q|
    ensures p == q && s == t
  {
    assert p == (p + s)[..|p|] && q == (q + t)[..|q|];
    assert s == (p + s)[|p|..] && t == (q + t)[|q|..];
  }

  lemma SuffixesAgree(p: string, q: string, s: string, t: string)
    requires p + s == q + t && |s| == |t|
    ensures p == q && s == t
  {
    PrefixesAgree(p, q, s, t);
  }

  lemma KindIsTheFirstLetter(k: Key, dateText: int -> string)
    ensures KeyText(k, dateText)[0] == match k.kind case Absence => 'a' case Retraction => 'r' case Lateness => 'l'
  {
    assert KeyText(k, dateText)[0] == KindText(k.kind)[0];
  }

  function Tail(k: Key): string {
    k.grain.periodLabel + ":" + UuidText(k.guardianId)
  }

  function Middle(k: Key, dateText: int -> string): string {
    dateText(k.grain.businessDate) + ":" + (UuidText(k.grain.shiftId) + ":" + Tail(k))
  }

  lemma TextInParts(k: Key, dateText: int -> string)
    ensures KeyText(k, dateText) == KindText(k.kind) + (UuidText(k.grain.personId) + ":" + Middle(k, dateText))
  {
  }

  predicate IsPrintable(k: Key) {
    IsUuid(k.grain.personId) && IsDate(k.grain.businessDate) && IsUuid(k.grain.shiftId) && IsUuid(k.guardianId)
  }

  lemma MiddlesAgree(j: Key, k: Key, dateText: int -> string)
    requires PrintsDates(dateText) && IsPrintable(j) && IsPrintable(k)
    requires Middle(j, dateText) == Middle(k, dateText)
    ensures j.grain == k.grain.(personId := j.grain.personId) && j.guardianId == k.guardianId
  {
    var d, e := dateText(j.grain.businessDate), dateText(k.grain.businessDate);
    var s, t := UuidText(j.grain.shiftId), UuidText(k.grain.shiftId);
    PrefixesAgree(d + ":", e + ":", s + ":" + Tail(j), t + ":" + Tail(k));
    SuffixesAgree(d, e, ":", ":");
    PrefixesAgree(s + ":", t + ":", Tail(j), Tail(k));
    SuffixesAgree(s, t, ":", ":");
    UuidTextIsInjective(j.grain.shiftId, k.grain.shiftId);
    SuffixesAgree(j.grain.periodLabel + ":", k.grain.periodLabel + ":", UuidText(j.guardianId), UuidText(k.guardianId));
    SuffixesAgree(j.grain.periodLabel, k.grain.periodLabel, ":", ":");
    UuidTextIsInjective(j.guardianId, k.guardianId);
  }

  /** Two keys share a text only if they are equal, whatever the period labels contain. */
  lemma KeyTextIsInjective(j: Key, k: Key, dateText: int -> string)
    requires PrintsDates(dateText) && IsPrintable(j) && IsPrintable(k)
    ensures KeyText(j, dateText) == KeyText(k, dateText) <==> j == k
  {
    if KeyText(j, dateText) == KeyText(k, dateText) {
      KindIsTheFirstLetter(j, dateText);
      KindIsTheFirstLetter(k, dateText);
      TextInParts(j, dateText);
      TextInParts(k, dateText);
      var p, q := UuidText(j.grain.personId), UuidText(k.grain.personId);
      PrefixesAgree(KindText(j.kind), KindText(k.kind), p + ":" + Middle(j, dateText), q + ":" + Middle(k, dateText));
      PrefixesAgree(p + ":", q + ":", Middle(j, dateText), Middle(k, dateText));
      SuffixesAgree(p, q, ":", ":");
      UuidTextIsInjective(j.grain.personId, k.grain.personId);
      MiddlesAgree(j, k, dateText);
    }
  }

  // ---------------------------------------------------------------------------------------------
  // Runs

  datatype Step =
    | Process(grain: Grain, status: Status, oldStatus: Option<Status>, env: Setting)
    | Dispatch(batch: seq<Try>, now: Time)

  /** A dispatch whose batch the query cannot have returned does not happen. */
  function After(o: Outbox, step: Step): Outbox {
    match step
    case Process(grain, status, oldStatus, env) => o.(rows := Processed(o.rows, grain, status, oldStatus, env))
    case Dispatch(batch, now) => if IsBatch(o, batch, now) then Dispatched(o, batch) else o
  }

  function Run(o: Outbox, steps: seq<Step>): Outbox {
    if steps == [] then o else After(Run(o, steps[..|steps| - 1]), steps[|steps| - 1])
  }

  const EMPTY := Outbox(map[], [])

  function TriesOf(attempts: seq<Attempt>, key: Key): seq<Attempt> {
    if attempts == [] then []
    else
      var rest, last := TriesOf(attempts[..|attempts| - 1], key), attempts[|attempts| - 1];
      if last.key == key then rest + [last] else rest
  }

  lemma TriesGrow(attempts: seq<Attempt>, a: Attempt, key: Key)
    ensures TriesOf(attempts + [a], key) == TriesOf(attempts, key) + (if a.key == key then [a] else [])
  {
  }

  predicate AllFailed(tries: seq<Attempt>) {
    forall i | 0 <= i < |tries| :: !tries[i].delivered
  }

  /** What the tries of one notification say about its row. */
  predicate RowIsSound(n: Notification, tries: seq<Attempt>) {
    match n.status
    case Queued =>
      && |tries| == n.retryCount <= 4 && AllFailed(tries)
      && (n.retryCount >= 1 ==> n.scheduledAt >= tries[0].at + (Pow2(n.retryCount + 1) - 2) * MINUTE)
    case Sent =>
      |tries| == n.retryCount + 1 <= 5 && tries[n.retryCount].delivered && AllFailed(tries[..n.retryCount])
    case Failed =>
      |tries| == n.retryCount == 5 && AllFailed(tries) && tries[4].at >= tries[0].at + 30 * MINUTE
    case Retracted =>
      |tries| == n.retryCount <= 4 && AllFailed(tries)
  }

  predicate KeyIsSound(o: Outbox, key: Key) {
    if key in o.rows then RowIsSound(o.rows[key], TriesOf(o.attempts, key)) else TriesOf(o.attempts, key) == []
  }

  predicate RetractionIsOwed(rows: map<Key, Notification>, key: Key) {
    key.kind.Retraction? ==>
      var alert := Key(Absence, key.grain, key.guardianId);
      alert in rows && rows[alert].status.Sent?
  }

  ghost predicate Sound(o: Outbox) {
    && (forall key :: KeyIsSound(o, key))
    && (forall key | key in o.rows :: RetractionIsOwed(o.rows, key))
  }

  /** All a later state may do to a row: final statuses stay, the rest of a final row stays with them. */
  predicate RowEvolves(n: Notification, m: Notification) {
    !n.status.Queued? ==> m == n
  }

  ghost predicate Evolves(rows: map<Key, Notification>, later: map<Key, Notification>) {
    forall key | key in rows :: key in later && RowEvolves(rows[key], later[key])
  }

  // One try

  lemma TriedRowIsSound(n: Notification, tries: seq<Attempt>, a: Attempt)
    requires RowIsSound(n, tries) && n.status.Queued? && n.scheduledAt <= a.at
    ensures RowIsSound(Tried(n, a.delivered, a.at), tries + [a])
  {
  }

  lemma TriedOneIsSound(o: Outbox, t: Try)
    requires Sound(o) && t.key in o.rows && o.rows[t.key].status.Queued? && o.rows[t.key].scheduledAt <= t.at
    ensures Sound(TriedOne(o, t.key, t.gatewayOk, t.at))
    ensures Evolves(o.rows, TriedOne(o, t.key, t.gatewayOk, t.at).rows)
  {
    var after := TriedOne(o, t.key, t.gatewayOk, t.at);
    var a := Attempt(t.key, t.at, Outcome(o.rows[t.key], t.gatewayOk));
    forall key
      ensures KeyIsSound(after, key)
    {
      assert KeyIsSound(o, key);
      TriesGrow(o.attempts, a, key);
      if key == t.key {
        TriedRowIsSound(o.rows[key], TriesOf(o.attempts, key), a);
      }
    }
    forall key | key in after.rows
      ensures RetractionIsOwed(after.rows, key)
    {
      assert RetractionIsOwed(o.rows, key);
    }
  }

  lemma {:induction false} UntriedRowsStay(o: Outbox, batch: seq<Try>, key: Key)
    requires forall i | 0 <= i < |batch| :: batch[i].key in o.rows && batch[i].key != key
    requires key in o.rows
    ensures Dispatched(o, batch).rows[key] == o.rows[key]
  {
    if batch != [] {
      UntriedRowsStay(o, batch[..|batch| - 1], key);
    }
  }

  lemma EvolvingComposes(rows: map<Key, Notification>, mid: map<Key, Notification>, later: map<Key, Notification>)
    requires Evolves(rows, mid) && Evolves(mid, later)
    ensures Evolves(rows, later)
  {
  }

  lemma {:induction false} DispatchKeepsSound(o: Outbox, batch: seq<Try>, now: Time)
    requires Sound(o) && IsBatch(o, batch, now)
    ensures Sound(Dispatched(o, batch))
    ensures Evolves(o.rows, Dispatched(o, batch).rows)
  {
    if batch != [] {
      var rest, t := batch[..|batch| - 1], batch[|batch| - 1];
      assert Due(o.rows, t.key, now) && now <= t.at;
      DispatchKeepsSound(o, rest, now);
      UntriedRowsStay(o, rest, t.key);
      TriedOneIsSound(Dispatched(o, rest), t);
      EvolvingComposes(o.rows, Dispatched(o, rest).rows, Dispatched(o, batch).rows);
    }
  }

  // One record change

  /** What processing a record may do: add untried rows, and retract rows still queued. */
  predicate RowIsProcessed(rows: map<Key, Notification>, later: map<Key, Notification>, key: Key) {
    && (key in rows ==> key in later && (later[key] == rows[key]
                                         || (rows[key].status.Queued?
                                             && later[key] == rows[key].(status := Retracted))))
    && (key !in rows && key in later ==> later[key].status.Queued? && later[key].retryCount == 0)
  }

  /** The first link by which this guardian is alerted. */
  function AlertedBy(links: seq<Link>, guardianId: Uuid): Option<Link> {
    if links == [] then None
    else
      var before, link := AlertedBy(links[..|links| - 1], guardianId), links[|links| - 1];
      if before.None? && link.receivesAlerts && Reachable(link.guardian) && link.guardian.id == guardianId then
        Some(link) else before
  }

  lemma {:induction false} QueuedExactly(rows: map<Key, Notification>, links: seq<Link>, kind: Kind,
                                         grain: Grain, at: Time, key: Key)
    ensures var later, link := QueuedFor(rows, links, kind, grain, at), AlertedBy(links, key.guardianId);
            var due := key.kind == kind && key.grain == grain && link.Some?;
            && (key in later <==> key in rows || due)
            && (key in later ==> later[key] == if key in rows then rows[key] else Fresh(link.value.guardian, at))
  {
    if links != [] {
      QueuedExactly(rows, links[..|links| - 1], kind, grain, at, key);
    }
  }

  lemma AnsweringAdds(rows: map<Key, Notification>, grain: Grain, guardians: map<Uuid, Guardian>, now: Time, key: Key)
    ensures var later := rows + RetractionsFor(rows, grain, guardians, now);
            && RowIsProcessed(rows, later, key)
            && (key in rows ==> later[key] == rows[key])
            && (key in later && key !in rows ==> key.kind.Retraction? && RetractionIsOwed(rows, key))
  {
  }

  lemma ProcessingIsModest(rows: map<Key, Notification>, p: Step, key: Key)
    requires p.Process?
    ensures var later := Processed(rows, p.grain, p.status, p.oldStatus, p.env);
            && RowIsProcessed(rows, later, key)
            && (key in later && key !in rows && key.kind.Retraction? ==> RetractionIsOwed(rows, key))
  {
    if Heeded(p.oldStatus, p.status, p.env) {
      var links := p.env.person.value.links;
      if p.status.Absent? {
        QueuedExactly(rows, links, Absence, p.grain, AbsenceAt(p.env, p.env.person.value), key);
      } else if IsArrival(p.status) {
        var retracted := PendingRetracted(rows, p.grain);
        var answered := retracted + RetractionsFor(retracted, p.grain, p.env.guardians, p.env.now);
        AnsweringAdds(retracted, p.grain, p.env.guardians, p.env.now, key);
        QueuedExactly(answered, links, Lateness, p.grain, LateAt(p.env, p.env.person.value), key);
      }
    }
  }

  lemma ProcessingKeepsSound(o: Outbox, p: Step)
    requires Sound(o) && p.Process?
    ensures Sound(After(o, p))
    ensures Evolves(o.rows, After(o, p).rows)
  {
    var after := After(o, p);
    forall key
      ensures KeyIsSound(after, key)
      ensures key in o.rows ==> key in after.rows && RowEvolves(o.rows[key], after.rows[key])
      ensures key in after.rows ==> RetractionIsOwed(after.rows, key)
    {
      assert KeyIsSound(o, key);
      ProcessingIsModest(o.rows, p, key);
      var alert := Key(Absence, key.grain, key.guardianId);
      ProcessingIsModest(o.rows, p, alert);
      if key in o.rows {
        assert RetractionIsOwed(o.rows, key);
      }
    }
  }

  // The main results

  lemma StepKeepsSound(o: Outbox, step: Step)
    requires Sound(o)
    ensures Sound(After(o, step)) && Evolves(o.rows, After(o, step).rows)
  {
    match step
    case Process(_, _, _, _) =>
      ProcessingKeepsSound(o, step);
    case Dispatch(batch, now) =>
      if IsBatch(o, batch, now) {
        DispatchKeepsSound(o, batch, now);
      }
  }

  lemma {:induction false} RunsStaySound(o: Outbox, steps: seq<Step>)
    requires Sound(o)
    ensures Sound(Run(o, steps)) && Evolves(o.rows, Run(o, steps).rows)
  {
    if steps != [] {
      var rest := steps[..|steps| - 1];
      RunsStaySound(o, rest);
      StepKeepsSound(Run(o, rest), steps[|steps| - 1]);
      EvolvingComposes(o.rows, Run(o, rest).rows, Run(o, steps).rows);
    }
  }

  lemma EmptyIsSound()
    ensures Sound(EMPTY)
  {
  }

  predicate HasStatus(o: Outbox, key: Key, status: Delivery) {
    key in o.rows && o.rows[key].status == status
  }

  predicate TriesAreBounded(o: Outbox, key: Key) {
    var tries := TriesOf(o.attempts, key);
    && |tries| <= 5
    && (forall i | 0 <= i < |tries| - 1 :: !tries[i].delivered)
    && (HasStatus(o, key, Sent) <==> tries != [] && tries[|tries| - 1].delivered)
  }

  /** In every run a notification is tried at most five times and delivered at most once, by its last try. */
  lemma DeliveriesAreBounded(steps: seq<Step>, key: Key)
    ensures TriesAreBounded(Run(EMPTY, steps), key)
  {
    EmptyIsSound();
    RunsStaySound(EMPTY, steps);
    var o := Run(EMPTY, steps);
    assert KeyIsSound(o, key);
    var tries := TriesOf(o.attempts, key);
    if key in o.rows && o.rows[key].status.Sent? {
      forall i | 0 <= i < |tries| - 1
        ensures !tries[i].delivered
      {
        assert tries[i] == tries[..|tries| - 1][i];
      }
    }
  }

  /** A notification is given up only after five failed tries spread over at least half an hour. */
  lemma GivingUpTakesHalfAnHour(steps: seq<Step>, key: Key)
    ensures var o := Run(EMPTY, steps);
            var tries := TriesOf(o.attempts, key);
            HasStatus(o, key, Failed) ==> |tries| == 5 && AllFailed(tries) && tries[4].at >= tries[0].at + 30 * MINUTE
  {
    EmptyIsSound();
    RunsStaySound(EMPTY, steps);
    assert KeyIsSound(Run(EMPTY, steps), key);
  }

  lemma RunSnoc(o: Outbox, steps: seq<Step>, step: Step)
    ensures Run(o, steps + [step]) == After(Run(o, steps), step)
  {
    assert (steps + [step])[..|steps|] == steps;
  }

  lemma {:induction false} RunsCompose(o: Outbox, steps: seq<Step>, more: seq<Step>)
    ensures Run(o, steps + more) == Run(Run(o, steps), more)
  {
    if more == [] {
      assert steps + more == steps;
    } else {
      var init, last := more[..|more| - 1], more[|more| - 1];
      RunsCompose(o, steps, init);
      assert steps + more == (steps + init) + [last] && more == init + [last];
      RunSnoc(o, steps + init, last);
      RunSnoc(Run(o, steps), init, last);
    }
  }

  /** A notification that was sent, given up or taken back never changes again, and is never tried again. */
  lemma FinalIsFinal(steps: seq<Step>, more: seq<Step>, key: Key)
    ensures var o, later := Run(EMPTY, steps), Run(EMPTY, steps + more);
            key in o.rows && !HasStatus(o, key, Queued) ==>
              && key in later.rows && later.rows[key] == o.rows[key]
              && |TriesOf(later.attempts, key)| == |TriesOf(o.attempts, key)|
  {
    EmptyIsSound();
    RunsStaySound(EMPTY, steps);
    RunsCompose(EMPTY, steps, more);
    var o := Run(EMPTY, steps);
    RunsStaySound(o, more);
    assert key in o.rows ==> RowEvolves(o.rows[key], Run(o, more).rows[key]);
    assert KeyIsSound(o, key) && KeyIsSound(Run(o, more), key);
  }

  /** A retraction is queued only for a guardian who was really sent the absence alert of that grain. */
  lemma RetractionsAreOwed(steps: seq<Step>, grain: Grain, guardianId: Uuid)
    ensures var o, alert := Run(EMPTY, steps), Key(Absence, grain, guardianId);
            Key(Retraction, grain, guardianId) in o.rows ==>
              HasStatus(o, alert, Sent) && TriesOf(o.attempts, alert) != []
  {
    EmptyIsSound();
    RunsStaySound(EMPTY, steps);
    var o := Run(EMPTY, steps);
    assert Key(Retraction, grain, guardianId) in o.rows ==>
        RetractionIsOwed(o.rows, Key(Retraction, grain, guardianId));
    assert KeyIsSound(o, Key(Absence, grain, guardianId));
  }

  /**
   A record that turns absent alerts exactly the reachable guardians who receive alerts and were not alerted of the
   grain before, each once, over their own channel and at the time the best rule or the setting gives.
   */
  lemma AbsenceAlertsEveryGuardian(rows: map<Key, Notification>, grain: Grain, oldStatus: Option<Status>,
                                   env: Setting, key: Key)
    requires Heeded(oldStatus, Absent, env)
    ensures var later, p := Processed(rows, grain, Absent, oldStatus, env), env.person.value;
            var link := AlertedBy(p.links, key.guardianId);
            && (key in later <==> key in rows || (IsAbsence(key, grain) && link.Some?))
            && (key in later ==>
                  later[key] == if key in rows then rows[key] else Fresh(link.value.guardian, AbsenceAt(env, p)))
  {
    QueuedExactly(rows, env.person.value.links, Absence, grain, AbsenceAt(env, env.person.value), key);
  }

  predicate AlertIsWaiting(rows: map<Key, Notification>, grain: Grain, key: Key) {
    key in rows && IsAbsence(key, grain) && rows[key].status.Queued?
  }

  /**
   After a record turns to an arrival no absence alert of its grain is waiting to be sent, exactly when the change
   was heeded or none was waiting: for a person who is inactive or has no guardians left the alerts stay queued.
   */
  lemma ArrivalClearsAlerts(rows: map<Key, Notification>, grain: Grain, status: Status,
                            oldStatus: Option<Status>, env: Setting)
    requires IsArrival(status)
    ensures (forall key :: !AlertIsWaiting(Processed(rows, grain, status, oldStatus, env), grain, key))
       <==> (Heeded(oldStatus, status, env) || forall key :: !AlertIsWaiting(rows, grain, key))
  {
    var later := Processed(rows, grain, status, oldStatus, env);
    if Heeded(oldStatus, status, env) {
      forall key
        ensures !AlertIsWaiting(later, grain, key)
      {
        var retracted := PendingRetracted(rows, grain);
        var answered := retracted + RetractionsFor(retracted, grain, env.guardians, env.now);
        AnsweringAdds(retracted, grain, env.guardians, env.now, key);
        QueuedExactly(answered, env.person.value.links, Lateness, grain, LateAt(env, env.person.value), key);
      }
    }
  }

  /** It happens: an absence is queued, the person is made inactive, and the arrival leaves the alert in the queue. */
  lemma AlertCanLinger(grain: Grain)
    ensures var link := Link(Guardian(1, Sms, Some("+63"), None), true);
            var env := Setting(Some(Person(true, [link], "student", {})), map[], None, [], [], 10, 0);
            var later := env.(person := Some(Person(false, [link], "student", {})), now := MINUTE);
            var o := Run(EMPTY, [Process(grain, Absent, None, env), Process(grain, OnTime, Some(Absent), later)]);
            AlertIsWaiting(o.rows, grain, Key(Absence, grain, 1))
  {
    var link := Link(Guardian(1, Sms, Some("+63"), None), true);
    var env := Setting(Some(Person(true, [link], "student", {})), map[], None, [], [], 10, 0);
    var later := env.(person := Some(Person(false, [link], "student", {})), now := MINUTE);
    var steps := [Process(grain, Absent, None, env), Process(grain, OnTime, Some(Absent), later)];
    assert steps[..1] == [steps[0]] && steps[..1][..0] == [];
    var queued := After(EMPTY, steps[0]);
    assert AlertedBy([link][..0], 1).None? && AlertedBy([link], 1) == Some(link);
    AbsenceAlertsEveryGuardian(map[], grain, None, env, Key(Absence, grain, 1));
    assert Run(EMPTY, steps[..1]) == queued;
    assert After(queued, steps[1]) == queued;
  }
}
