/**
 What a record change and a dispatch do to every row of the outbox, in terms of the record, the guardians, the rules
 and the clock (backend/app/notifications/service.py).
 */
module GuardianAlerts {
  import opened Basics
  import opened Attendance
  import opened Notifications

  // ---------------------------------------------------------------------------------------------
  // Whom and when

  /** A guardian has a number for text messages, or an address for any other channel but none. */
  lemma ReachableMeans(g: Guardian)
    ensures Reachable(g) <==>
            || (g.channel.Sms? && exists number :: g.phone == Some(number) && number != "")
            || ((g.channel.Email? || g.channel.Whatsapp?) && exists address ::
                  g.email == Some(address) && address != "")
  {
  }

  /** The link names the guardian, alerts are wanted and can be delivered. */
  predicate IsAlerted(link: Link, guardianId: Uuid) {
    link.guardian.id == guardianId && link.receivesAlerts && Reachable(link.guardian)
  }

  predicate SomeAlerted(links: seq<Link>, guardianId: Uuid) {
    exists i | 0 <= i < |links| :: IsAlerted(links[i], guardianId)
  }

  lemma {:induction false} AlertedExactly(links: seq<Link>, guardianId: Uuid)
    ensures var link := AlertedBy(links, guardianId);
            && (link.Some? <==> SomeAlerted(links, guardianId))
            && (link.Some? ==> link.value in links && IsAlerted(link.value, guardianId))
  {
    if links != [] {
      var rest, last := links[..|links| - 1], links[|links| - 1];
      AlertedExactly(rest, guardianId);
      assert links == rest + [last];
    }
  }

  /** A group match outweighs a match of the kind of person; any match outweighs a rule for everybody. */
  lemma SpecificityMeans(r: Rule, s: Rule)
    ensures Specificity(r) < Specificity(s) <==>
            || (r.groupId.None? && s.groupId.Some?)
            || (r.groupId.None? == s.groupId.None? && r.personKind.None? && s.personKind.Some?)
  {
  }

  /** `at` is `base` and the delay of the first of the most specific rules that apply, or `otherwise` if none does. */
  ghost predicate IsDelayed(rules: seq<Rule>, p: Person, base: Time, otherwise: nat, at: Time) {
    && ((forall i | 0 <= i < |rules| :: !RuleApplies(rules[i], p)) ==> at == base + otherwise * MINUTE)
    && forall k: nat :: IsFirstBest(rules, p, k) ==> at == base + rules[k].delayMinutes * MINUTE
  }

  lemma DelayIsTheBestRules(rules: seq<Rule>, p: Person, base: Time, otherwise: nat)
    ensures var best := BestRule(rules, p);
            var delay := if best.Some? then best.value.delayMinutes else otherwise;
            IsDelayed(rules, p, base, otherwise, base + delay * MINUTE)
  {
    BestRuleIsFirst(rules, p);
    forall k: nat | IsFirstBest(rules, p, k)
      ensures BestRule(rules, p) == Some(rules[k])
    {
      var j: nat :| IsFirstBest(rules, p, j) && rules[j] == BestRule(rules, p).value;
      assert j == k;
    }
  }

  // ---------------------------------------------------------------------------------------------
  // What a record change does

  /** The status changed, and the person is active and has guardians. */
  predicate Concerns(oldStatus: Option<Status>, status: Status, env: Setting) {
    && env.person.Some? && env.person.value.isActive && |env.person.value.links| > 0
    && (oldStatus.None? || oldStatus.value != status)
  }

  predicate Arrived(oldStatus: Option<Status>, status: Status, env: Setting) {
    Concerns(oldStatus, status, env) && (status.OnTime? || status.Late? || status.PresentUnscheduled?)
  }

  lemma AnswersExactly(rows: map<Key, Notification>, grain: Grain, env: Setting, key: Key)
    ensures var later := TakenBack(rows, grain, env);
            var alert := Key(Absence, grain, key.guardianId);
            var answered := && key == Key(Retraction, grain, key.guardianId)
                            && alert in rows && rows[alert].status.Sent?
                            && key.guardianId in env.guardians && Reachable(env.guardians[key.guardianId]);
            && (key in later <==> key in rows || answered)
            && (key in rows ==> later[key] ==
                                if key == alert && rows[key].status.Queued? then rows[key].(status := Retracted)
                                else rows[key])
            && (key !in rows && answered ==>
                  later[key] == Notification(Queued, env.guardians[key.guardianId].channel, 0, env.now, None))
  {
    var retracted, alert := PendingRetracted(rows, grain), Key(Absence, grain, key.guardianId);
    assert NeedsRetraction(retracted, alert, grain, env.guardians) && key == Key(Retraction, grain, key.guardianId)
      ==> key in RetractionsFor(retracted, grain, env.guardians, env.now);
  }

  /** A row the outbox has stays as it is, but an alert still waiting is retracted by an arrival on its grain. */
  lemma OldRowsMean(rows: map<Key, Notification>, grain: Grain, status: Status, oldStatus: Option<Status>,
                    env: Setting, key: Key)
    requires key in rows
    ensures var later := Processed(rows, grain, status, oldStatus, env);
            var retracts := Arrived(oldStatus, status, env) && key.kind.Absence? && key.grain == grain;
            key in later && later[key] == if retracts && rows[key].status.Queued? then rows[key].(status := Retracted)
                                          else rows[key]
  {
    if Concerns(oldStatus, status, env) {
      var p := env.person.value;
      AnswersExactly(rows, grain, env, key);
      QueuedExactly(rows, p.links, Absence, grain, AbsenceAt(env, p), key);
      QueuedExactly(TakenBack(rows, grain, env), p.links, Lateness, grain, LateAt(env, p), key);
    }
  }

  /**
   A row is added exactly for an alerted guardian of an absence or a lateness, and for a guardian who can be reached
   and was sent the alert an arrival takes back.
   */
  predicate IsAdded(rows: map<Key, Notification>, grain: Grain, status: Status, oldStatus: Option<Status>,
                    env: Setting, key: Key)
  {
    && key.grain == grain && key !in rows
    && match key.kind
       case Absence =>
         Concerns(oldStatus, status, env) && status.Absent? && SomeAlerted(env.person.value.links, key.guardianId)
       case Lateness =>
         Concerns(oldStatus, status, env) && status.Late? && SomeAlerted(env.person.value.links, key.guardianId)
       case Retraction =>
         var alert := Key(Absence, grain, key.guardianId);
         && Arrived(oldStatus, status, env) && alert in rows && rows[alert].status.Sent?
         && key.guardianId in env.guardians && Reachable(env.guardians[key.guardianId])
  }

  lemma NewRowsMean(rows: map<Key, Notification>, grain: Grain, status: Status, oldStatus: Option<Status>,
                    env: Setting, key: Key)
    ensures key in Processed(rows, grain, status, oldStatus, env) <==>
            key in rows || IsAdded(rows, grain, status, oldStatus, env, key)
  {
    if Concerns(oldStatus, status, env) {
      var p := env.person.value;
      AlertedExactly(p.links, key.guardianId);
      AnswersExactly(rows, grain, env, key);
      QueuedExactly(rows, p.links, Absence, grain, AbsenceAt(env, p), key);
      QueuedExactly(TakenBack(rows, grain, env), p.links, Lateness, grain, LateAt(env, p), key);
    }
  }

  /** The channel and the time of an added row: a guardian's own channel; at once, or as the rules and settings say. */
  ghost predicate IsQueuedAs(n: Notification, env: Setting, key: Key)
    requires env.person.Some?
  {
    var p, start := env.person.value, env.expectedStart;
    && n.status.Queued? && n.retryCount == 0 && n.sentAt.None?
    && match key.kind
       case Retraction =>
         && key.guardianId in env.guardians && n.channel == env.guardians[key.guardianId].channel
         && n.scheduledAt == env.now
       case Lateness =>
         && (exists link | link in p.links :: IsAlerted(link, key.guardianId) && n.channel == link.guardian.channel)
         && IsDelayed(env.lateRules, p, env.now, 0, n.scheduledAt)
       case Absence =>
         && (exists link | link in p.links :: IsAlerted(link, key.guardianId) && n.channel == link.guardian.channel)
         && IsDelayed(env.absentRules, p, if start.Some? then start.value else env.now, env.delayMinutes, n.scheduledAt)
  }

  lemma AddedRowsMean(rows: map<Key, Notification>, grain: Grain, status: Status, oldStatus: Option<Status>,
                      env: Setting, key: Key)
    requires IsAdded(rows, grain, status, oldStatus, env, key)
    ensures var later := Processed(rows, grain, status, oldStatus, env);
            key in later && IsQueuedAs(later[key], env, key)
  {
    var p := env.person.value;
    NewRowsMean(rows, grain, status, oldStatus, env, key);
    AlertedExactly(p.links, key.guardianId);
    DelayIsTheBestRules(env.lateRules, p, env.now, 0);
    DelayIsTheBestRules(env.absentRules, p, if env.expectedStart.Some? then env.expectedStart.value else env.now,
                        env.delayMinutes);
    AnswersExactly(rows, grain, env, key);
    QueuedExactly(rows, p.links, Absence, grain, AbsenceAt(env, p), key);
    QueuedExactly(TakenBack(rows, grain, env), p.links, Lateness, grain, LateAt(env, p), key);
  }

  // ---------------------------------------------------------------------------------------------
  // What a dispatch does

  /** Minutes until the next try, after the first, second, third and fourth failure. */
  const BACKOFF := [2, 4, 8, 16]

  predicate IsTried(n: Notification, gatewayOk: bool, at: Time, later: Notification) {
    if gatewayOk && (n.channel == Sms || n.channel == Email) then
      later == n.(status := Sent, sentAt := Some(at))
    else if n.retryCount >= 4 then later == n.(status := Failed, retryCount := n.retryCount + 1)
    else later == n.(retryCount := n.retryCount + 1, scheduledAt := at + BACKOFF[n.retryCount] * MINUTE)
  }

  lemma TriedMeans(n: Notification, gatewayOk: bool, at: Time)
    ensures IsTried(n, gatewayOk, at, Tried(n, Notifications.Outcome(n, gatewayOk), at))
  {
    assert Pow2(1) == 2 && Pow2(2) == 4 && Pow2(3) == 8 && Pow2(4) == 16;
  }

  /** The key of one try in a batch is in no other. */
  lemma OthersHaveOtherKeys(o: Outbox, rest: seq<Try>, last: Try, now: Time)
    requires IsBatch(o, rest + [last], now)
    ensures IsBatch(o, rest, now) && Due(o.rows, last.key, now) && forall i | 0 <= i < |rest| :: rest[i].key != last.key
  {
    var batch := rest + [last];
    assert batch[|rest|] == last && forall i | 0 <= i < |rest| :: batch[i] == rest[i];
  }

  /** What became of a row, given the last try of a batch and what became of it before. */
  lemma LastTryMeans(o: Outbox, rest: seq<Try>, last: Try, now: Time, key: Key)
    requires IsBatch(o, rest + [last], now) && key in o.rows
    ensures var later := Dispatched(o, rest + [last]).rows;
            && key in later
            && (last.key == key ==> IsTried(o.rows[key], last.gatewayOk, last.at, later[key]))
            && (last.key != key ==> key in Dispatched(o, rest).rows && later[key] == Dispatched(o, rest).rows[key])
  {
    OthersHaveOtherKeys(o, rest, last, now);
    assert (rest + [last])[..|rest|] == rest;
    UntriedRowsStay(o, rest, last.key);
    TriedMeans(o.rows[last.key], last.gatewayOk, last.at);
  }

  /** A dispatch tries each notification of its batch once, as the gateway answers, and leaves all others alone. */
  lemma {:induction false} BatchIsTried(o: Outbox, batch: seq<Try>, now: Time, key: Key)
    requires IsBatch(o, batch, now) && key in o.rows
    ensures key in Dispatched(o, batch).rows && Dispatched(o, batch).rows.Keys == o.rows.Keys
    ensures (forall t | t in batch :: t.key != key) ==> Dispatched(o, batch).rows[key] == o.rows[key]
    ensures forall t | t in batch && t.key == key ::
              IsTried(o.rows[key], t.gatewayOk, t.at, Dispatched(o, batch).rows[key])
  {
    if batch != [] {
      var rest, last := batch[..|batch| - 1], batch[|batch| - 1];
      assert batch == rest + [last];
      OthersHaveOtherKeys(o, rest, last, now);
      BatchIsTried(o, rest, now, key);
      LastTryMeans(o, rest, last, now, key);
    }
  }
}
