/**
 Whom the limiters admit, told from the calls before and what was answered to them, without the limiters' own state
 (backend/app/scan/cooldown.py, backend/app/scan/limits.py).
 */
module LimiterHistory {
  import opened Basics
  import opened Limiters

  /** The two logs hold the same entries of the last `window` seconds. */
  predicate Recalls(log: seq<real>, h: seq<real>, t: real, window: real) {
    Since(log, t - window) == Since(h, t - window)
  }

  lemma RecallingAges(log: seq<real>, h: seq<real>, t: real, t': real, window: real)
    requires Recalls(log, h, t, window) && t <= t'
    ensures Recalls(log, h, t', window)
  {
    SinceTwice(log, t - window, t' - window);
    SinceTwice(h, t - window, t' - window);
  }

  lemma AppendingRecalls(log: seq<real>, h: seq<real>, t: real, window: real)
    requires Recalls(log, h, t, window)
    ensures Recalls(log + [t], h + [t], t, window)
  {
    SinceSnoc(log, t, t - window);
    SinceSnoc(h, t, t - window);
  }

  lemma TrimmingRecalls(log: seq<real>, h: seq<real>, t: real, window: real)
    requires Recalls(log, h, t, window)
    ensures Recalls(Since(log, t - window), h, t, window)
  {
    SinceTwice(log, t - window, t - window);
  }

  /** Trimming a log, and appending to the trimmed log, keeps what is recalled. */
  lemma RecallingMoves(log: seq<real>, h: seq<real>, t: real, window: real)
    requires Recalls(log, h, t, window)
    ensures var recent := Since(log, t - window);
            Recalls(recent, h, t, window) && Recalls(recent + [t], h + [t], t, window)
  {
    TrimmingRecalls(log, h, t, window);
    AppendingRecalls(Since(log, t - window), h, t, window);
  }

  /** The verdict of the last call of a run. */
  function LastVerdict(calls: seq<Call>): Verdict
    requires calls != []
  {
    MemoryStep(MemoryRun(calls[..|calls| - 1]).0, calls[|calls| - 1]).1
  }

  lemma VerdictsEndSo(calls: seq<Call>, c: Call)
    ensures MemoryRun(calls + [c]).1 == MemoryRun(calls).1 + [LastVerdict(calls + [c])]
  {
    assert (calls + [c])[..|calls|] == calls;
  }

  // ---------------------------------------------------------------------------------------------
  // The rate limit

  lemma {:induction false} RateLogRecalls(calls: seq<Call>, d: Uuid)
    requires Ordered(calls)
    ensures Recalls(Log(MemoryRun(calls).0.rateLog, d), Admissions(calls, d, false), Clock(calls), RATE_WINDOW)
  {
    if calls != [] {
      var init, c := calls[..|calls| - 1], calls[|calls| - 1];
      RateLogRecalls(init, d);
      RateCallRecalls(MemoryRun(init).0, d, Admissions(init, d, false), Clock(init), c);
    }
  }

  lemma RateCallRecalls(s: Memory, d: Uuid, h: seq<real>, t: real, c: Call)
    requires Recalls(Log(s.rateLog, d), h, t, RATE_WINDOW) && t <= c.now
    ensures var (s', v) := MemoryStep(s, c);
            var h' := h + if Counts(c, d, false) && v == Admitted then [c.now] else [];
            Recalls(Log(s'.rateLog, d), h', c.now, RATE_WINDOW)
  {
    RecallingAges(Log(s.rateLog, d), h, t, c.now, RATE_WINDOW);
    assert h + [] == h;
    if Counts(c, d, false) {
      CountedRateRecalls(s, d, h, c);
    } else {
      OtherCallsKeepTheRateLog(s, d, c);
    }
  }

  lemma OtherCallsKeepTheRateLog(s: Memory, d: Uuid, c: Call)
    requires !Counts(c, d, false)
    ensures Log(MemoryStep(s, c).0.rateLog, d) == Log(s.rateLog, d)
  {
  }

  lemma CountedRateRecalls(s: Memory, d: Uuid, h: seq<real>, c: Call)
    requires Recalls(Log(s.rateLog, d), h, c.now, RATE_WINDOW) && Counts(c, d, false)
    ensures var (s', v) := MemoryStep(s, c);
            Recalls(Log(s'.rateLog, d), if v == Admitted then h + [c.now] else h, c.now, RATE_WINDOW)
  {
    var recent := Since(Log(s.rateLog, d), c.now - RATE_WINDOW);
    RateMoves(s, d, c, recent);
    RecallingMoves(Log(s.rateLog, d), h, c.now, RATE_WINDOW);
    assert recent + [] == recent;
  }

  lemma RateVerdictMeans(s: Memory, h: seq<real>, d: Uuid, now: real, limit: int)
    requires Recalls(Log(s.rateLog, d), h, now, RATE_WINDOW)
    ensures MemoryRate(s, d, now, limit).1 == if |Since(h, now - 1.0)| < limit then Admitted else Limited
  {
  }

  /** In every run a scan is admitted exactly if fewer than the limit were admitted in the second before it. */
  lemma RateAdmitsExactly(calls: seq<Call>, d: Uuid, now: real, limit: int)
    requires Ordered(calls + [RateCall(d, now, limit)])
    ensures var v := LastVerdict(calls + [RateCall(d, now, limit)]);
            && (v == Admitted <==> |Since(Admissions(calls, d, false), now - 1.0)| < limit)
            && (v == Admitted || v == Limited)
  {
    OrderedInit(calls, RateCall(d, now, limit));
    RateLogRecalls(calls, d);
    var s, h := MemoryRun(calls).0, Admissions(calls, d, false);
    RecallingAges(Log(s.rateLog, d), h, Clock(calls), now, RATE_WINDOW);
    RateVerdictMeans(s, h, d, now, limit);
  }

  lemma OrderedInit(calls: seq<Call>, c: Call)
    requires Ordered(calls + [c])
    ensures Ordered(calls) && Clock(calls) <= c.now && 0.0 <= c.now && (calls + [c])[..|calls|] == calls
  {
    var all := calls + [c];
    assert forall i | 0 <= i < |calls| :: all[i] == calls[i];
    assert all[|calls|] == c;
    assert calls != [] ==> all[|calls| - 1].now <= all[|calls|].now;
  }

  // ---------------------------------------------------------------------------------------------
  // The limit on unknown faces

  /** The times at which unknown faces of the device were admitted since the last one that was refused. */
  function SinceRefusal(calls: seq<Call>, d: Uuid): seq<real> {
    if calls == [] then []
    else
      var before, c := SinceRefusal(calls[..|calls| - 1], d), calls[|calls| - 1];
      if !Counts(c, d, true) then before
      else if LastVerdict(calls) == Admitted then before + [c.now]
      else []
  }

  /** When the last lockout ends: one is started by every refusal outside the one before. */
  function LockedUntil(calls: seq<Call>, d: Uuid): real {
    if calls == [] then 0.0
    else
      var before, c := LockedUntil(calls[..|calls| - 1], d), calls[|calls| - 1];
      if Counts(c, d, true) && LastVerdict(calls) != Admitted && c.now >= before then c.now + c.lockout as real
      else before
  }

  /** What the state says of one device is what the history says. */
  predicate Tells(s: Memory, d: Uuid, recent: seq<real>, until: real, t: real) {
    && Recalls(Log(s.unknownLog, d), recent, t, UNKNOWN_WINDOW)
    && (if d in s.lockouts then s.lockouts[d] == until && Log(s.unknownLog, d) == [] == recent else until <= t)
  }

  lemma {:induction false} HistoryTells(calls: seq<Call>, d: Uuid)
    requires Ordered(calls)
    ensures Tells(MemoryRun(calls).0, d, SinceRefusal(calls, d), LockedUntil(calls, d), Clock(calls))
  {
    if calls != [] {
      var init, c := calls[..|calls| - 1], calls[|calls| - 1];
      HistoryTells(init, d);
      var s, recent, until := MemoryRun(init).0, SinceRefusal(init, d), LockedUntil(init, d);
      RecallingAges(Log(s.unknownLog, d), recent, Clock(init), c.now, UNKNOWN_WINDOW);
      if Counts(c, d, true) {
        UnknownCallTells(s, d, recent, until, c);
      } else {
        OtherCallsKeepTheLog(s, d, c);
      }
    }
  }

  lemma UnknownVerdictMeans(s: Memory, d: Uuid, recent: seq<real>, until: real, c: Call)
    requires Tells(s, d, recent, until, c.now) && Counts(c, d, true)
    ensures var v := MemoryStep(s, c).1;
            && (v == Admitted <==> c.now >= until && |Since(recent, c.now - UNKNOWN_WINDOW)| < c.limit)
            && (v == Admitted || v == Limited)
  {
  }

  lemma UnknownCallTells(s: Memory, d: Uuid, recent: seq<real>, until: real, c: Call)
    requires Tells(s, d, recent, until, c.now) && Counts(c, d, true)
    ensures var (s', v) := MemoryStep(s, c);
            var recent' := if v == Admitted then recent + [c.now] else [];
            var until' := if v != Admitted && c.now >= until then c.now + c.lockout as real else until;
            Tells(s', d, recent', until', c.now)
  {
    UnknownVerdictMeans(s, d, recent, until, c);
    RecallingMoves(Log(s.unknownLog, d), recent, c.now, UNKNOWN_WINDOW);
  }

  /**
   In every run an unknown face is admitted exactly if no lockout is running and fewer than the limit were admitted in
   the minute before it and since the last refusal.
   */
  lemma UnknownAdmitsExactly(calls: seq<Call>, d: Uuid, now: real, limit: int, lockout: int)
    requires Ordered(calls + [UnknownCall(d, now, limit, lockout)])
    ensures var v := LastVerdict(calls + [UnknownCall(d, now, limit, lockout)]);
            && (v == Admitted <==>
                now >= LockedUntil(calls, d) && |Since(SinceRefusal(calls, d), now - 60.0)| < limit)
            && (v == Admitted || v == Limited)
  {
    var c := UnknownCall(d, now, limit, lockout);
    OrderedInit(calls, c);
    HistoryTells(calls, d);
    var s := MemoryRun(calls).0;
    RecallingAges(Log(s.unknownLog, d), SinceRefusal(calls, d), Clock(calls), now, UNKNOWN_WINDOW);
    UnknownVerdictMeans(s, d, SinceRefusal(calls, d), LockedUntil(calls, d), c);
  }

  // ---------------------------------------------------------------------------------------------
  // What the Redis scripts leave behind

  /** Some call of the run set the expiry: two seconds, sixty-two seconds, or its own lockout after it. */
  predicate IsDue(calls: seq<Call>, key: Key, at: real) {
    exists i | 0 <= i < |calls| :: Sets(calls[i], key, at)
  }

  predicate Sets(c: Call, key: Key, at: real) {
    match key
    case RateKey(d) => c.RateCall? && c.device == d && at == c.now + 2.0
    case UnknownKey(d) => c.UnknownCall? && c.device == d && at == c.now + 62.0
    case LockoutKey(d) => c.UnknownCall? && c.device == d && c.lockout >= 1 && at == c.now + c.lockout as real
  }

  predicate Expires(calls: seq<Call>, db: Keyspace, key: Key) {
    key in db ==> db[key].expiresAt.Some? && IsDue(calls, key, db[key].expiresAt.value)
  }

  lemma StepSetsExpiries(db: Keyspace, c: Call, key: Key)
    requires forall k | k in db :: db[k].expiresAt.Some?
    ensures var after := RedisStep(db, c).0;
            key in after ==>
              && after[key].expiresAt.Some?
              && ((key in db && after[key].expiresAt == db[key].expiresAt) || Sets(c, key, after[key].expiresAt.value))
  {
  }

  /** Every key the scripts write expires, at a time one of the calls has set. */
  lemma {:induction false} EveryKeyExpires(calls: seq<Call>, key: Key)
    ensures forall k | k in RedisRun(calls).0 :: RedisRun(calls).0[k].expiresAt.Some?
    ensures Expires(calls, RedisRun(calls).0, key)
  {
    if calls != [] {
      var init, c := calls[..|calls| - 1], calls[|calls| - 1];
      var db, after := RedisRun(init).0, RedisRun(calls).0;
      EveryKeyExpires(init, key);
      forall k | k in after
        ensures after[k].expiresAt.Some?
      {
        StepSetsExpiries(db, c, k);
      }
      StepSetsExpiries(db, c, key);
      assert forall i | 0 <= i < |init| :: calls[i] == init[i];
      assert key in after && Sets(c, key, after[key].expiresAt.value) ==>
          Sets(calls[|calls| - 1], key, after[key].expiresAt.value);
    }
  }
}
