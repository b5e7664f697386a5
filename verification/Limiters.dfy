/**
 The scan limiters: one sliding-window and lockout machine, written once in memory
 (backend/app/scan/cooldown.py) and once as Redis scripts whose keys expire (backend/app/scan/limits.py).

 Times are seconds on one shared clock. A sorted set is the sequence of its scores in ascending order:
 members carry a fresh UUID, so every ZADD inserts.
 */
module Limiters {
  import opened Basics

  const RATE_WINDOW: real := 1.0
  const UNKNOWN_WINDOW: real := 60.0

  datatype Verdict = Admitted | Limited | Failed

  /** The entries of a log that are strictly younger than `cutoff`. */
  function Since(log: seq<real>, cutoff: real): seq<real> {
    if log == [] then []
    else
      var last := log[|log| - 1];
      Since(log[..|log| - 1], cutoff) + if last > cutoff then [last] else []
  }

  // ---------------------------------------------------------------------------------------------
  // In memory

  datatype Memory = Memory(
    rateLog: map<Uuid, seq<real>>,
    unknownLog: map<Uuid, seq<real>>,
    lockouts: map<Uuid, real>)

  function Log(logs: map<Uuid, seq<real>>, device: Uuid): seq<real> {
    if device in logs then logs[device] else []
  }

  predicate LockedOut(s: Memory, device: Uuid, now: real) {
    device in s.lockouts && now < s.lockouts[device]
  }

  function MemoryRate(s: Memory, device: Uuid, now: real, limit: int): (Memory, Verdict) {
    var log := Since(Log(s.rateLog, device), now - RATE_WINDOW);
    if |log| >= limit then (s.(rateLog := s.rateLog[device := log]), Limited)
    else (s.(rateLog := s.rateLog[device := log + [now]]), Admitted)
  }

  /** A call that starts a lockout. */
  predicate Triggers(s: Memory, device: Uuid, now: real, limit: int) {
    !LockedOut(s, device, now) && |Since(Log(s.unknownLog, device), now - UNKNOWN_WINDOW)| >= limit
  }

  function MemoryUnknown(s: Memory, device: Uuid, now: real, limit: int, lockout: int): (Memory, Verdict) {
    if LockedOut(s, device, now) then (s, Limited)
    else
      var log := Since(Log(s.unknownLog, device), now - UNKNOWN_WINDOW);
      if |log| >= limit then
        (s.(unknownLog := s.unknownLog[device := []], lockouts := s.lockouts[device := now + lockout as real]), Limited)
      else
        (s.(unknownLog := s.unknownLog[device := log + [now]], lockouts := s.lockouts - {device}), Admitted)
  }

  class InMemoryCooldownChecker {
    var rateLog: map<Uuid, seq<real>>
    var unknownLog: map<Uuid, seq<real>>
    var lockouts: map<Uuid, real>

    function State(): Memory
      reads this
    {
      Memory(rateLog, unknownLog, lockouts)
    }

    constructor ()
      ensures State() == Memory(map[], map[], map[])
    {
      rateLog, unknownLog, lockouts := map[], map[], map[];
    }

    method CheckRateLimit(device: Uuid, now: real, ratePerSecond: int) returns (limited: bool)
      modifies this
      ensures (State(), if limited then Limited else Admitted) == old(MemoryRate(State(), device, now, ratePerSecond))
    {
      if device !in rateLog {
        rateLog := rateLog[device := []];
      }
      var cutoff := now - 1.0;
      rateLog := rateLog[device := Since(rateLog[device], cutoff)];
      if |rateLog[device]| >= ratePerSecond {
        assert rateLog == old(rateLog)[device := rateLog[device]];
        return true;
      }
      rateLog := rateLog[device := rateLog[device] + [now]];
      assert rateLog == old(rateLog)[device := rateLog[device]];
      return false;
    }

    method CheckUnknownRate(device: Uuid, now: real, unknownRatePerMinute: int, unknownLockoutSeconds: int)
      returns (limited: bool)
      modifies this
      ensures (State(), if limited then Limited else Admitted)
           == old(MemoryUnknown(State(), device, now, unknownRatePerMinute, unknownLockoutSeconds))
    {
      if device in lockouts {
        if now < lockouts[device] {
          return true;
        }
        lockouts := lockouts - {device};
      }
      assert lockouts == old(lockouts) - {device};
      if device !in unknownLog {
        unknownLog := unknownLog[device := []];
      }
      var cutoff := now - 60.0;
      unknownLog := unknownLog[device := Since(unknownLog[device], cutoff)];
      if |unknownLog[device]| >= unknownRatePerMinute {
        lockouts := lockouts[device := now + unknownLockoutSeconds as real];
        unknownLog := unknownLog[device := []];
        assert unknownLog == old(unknownLog)[device := []];
        assert lockouts == old(lockouts)[device := now + unknownLockoutSeconds as real];
        return true;
      }
      unknownLog := unknownLog[device := unknownLog[device] + [now]];
      assert unknownLog == old(unknownLog)[device := unknownLog[device]];
      return false;
    }
  }

  // ---------------------------------------------------------------------------------------------
  // Redis: a keyspace with expiries and the commands the scripts use

  datatype Key = RateKey(device: Uuid) | UnknownKey(device: Uuid) | LockoutKey(device: Uuid)

  datatype Slot = Slot(scores: seq<real>, expiresAt: Option<real>)

  type Keyspace = map<Key, Slot>

  predicate Exists(db: Keyspace, key: Key, now: real) {
    key in db && (db[key].expiresAt.Some? ==> now < db[key].expiresAt.value)
  }

  function Scores(db: Keyspace, key: Key, now: real): seq<real> {
    if Exists(db, key, now) then db[key].scores else []
  }

  /** The scores outside `[low, high]`. */
  function Outside(scores: seq<real>, low: real, high: real): seq<real> {
    if scores == [] then []
    else
      var last := scores[|scores| - 1];
      Outside(scores[..|scores| - 1], low, high) + if low <= last <= high then [] else [last]
  }

  function ZRemRangeByScore(db: Keyspace, key: Key, low: real, high: real, now: real): Keyspace {
    if !Exists(db, key, now) then db - {key}
    else
      var rest := Outside(db[key].scores, low, high);
      if rest == [] then db - {key} else db[key := db[key].(scores := rest)]
  }

  function Insert(scores: seq<real>, score: real): seq<real> {
    if scores == [] || scores[|scores| - 1] <= score then scores + [score]
    else Insert(scores[..|scores| - 1], score) + [scores[|scores| - 1]]
  }

  function ZAdd(db: Keyspace, key: Key, score: real, now: real): Keyspace {
    if Exists(db, key, now) then db[key := db[key].(scores := Insert(db[key].scores, score))]
    else db[key := Slot([score], None)]
  }

  function Expire(db: Keyspace, key: Key, seconds: int, now: real): Keyspace {
    if Exists(db, key, now) then db[key := db[key].(expiresAt := Some(now + seconds as real))] else db
  }

  function RateScript(db: Keyspace, device: Uuid, now: real, limit: int): (Keyspace, Verdict) {
    var key := RateKey(device);
    var trimmed := ZRemRangeByScore(db, key, 0.0, now - 1.0, now);
    if |Scores(trimmed, key, now)| >= limit then (trimmed, Limited)
    else (Expire(ZAdd(trimmed, key, now, now), key, 2, now), Admitted)
  }

  /** `SET … EX` refuses an expiry below one second, which aborts the script. */
  function UnknownScript(db: Keyspace, device: Uuid, now: real, limit: int, lockout: int): (Keyspace, Verdict) {
    var key, lockoutKey := UnknownKey(device), LockoutKey(device);
    if Exists(db, lockoutKey, now) then (db, Limited)
    else
      var trimmed := ZRemRangeByScore(db, key, 0.0, now - 60.0, now);
      if |Scores(trimmed, key, now)| >= limit then
        if lockout < 1 then (trimmed, Failed)
        else (trimmed[lockoutKey := Slot([], Some(now + lockout as real))] - {key}, Limited)
      else (Expire(ZAdd(trimmed, key, now, now), key, 62, now), Admitted)
  }

  class RedisCooldownChecker {
    var db: Keyspace

    constructor ()
      ensures db == map[]
    {
      db := map[];
    }

    method CheckRateLimit(device: Uuid, now: real, ratePerSecond: int) returns (v: Verdict)
      modifies this
      ensures (db, v) == RateScript(old(db), device, now, ratePerSecond)
    {
      var key := RateKey(device);
      db := ZRemRangeByScore(db, key, 0.0, now - 1.0, now);
      var count := |Scores(db, key, now)|;
      if count >= ratePerSecond {
        return Limited;
      }
      db := ZAdd(db, key, now, now);
      db := Expire(db, key, 2, now);
      return Admitted;
    }

    method CheckUnknownRate(device: Uuid, now: real, unknownRatePerMinute: int, unknownLockoutSeconds: int)
      returns (v: Verdict)
      modifies this
      ensures (db, v) == UnknownScript(old(db), device, now, unknownRatePerMinute, unknownLockoutSeconds)
    {
      var unknownKey, lockoutKey := UnknownKey(device), LockoutKey(device);
      if Exists(db, lockoutKey, now) {
        return Limited;
      }
      db := ZRemRangeByScore(db, unknownKey, 0.0, now - 60.0, now);
      var recent := |Scores(db, unknownKey, now)|;
      if recent >= unknownRatePerMinute {
        if unknownLockoutSeconds < 1 {
          return Failed;
        }
        db := db[lockoutKey := Slot([], Some(now + unknownLockoutSeconds as real))];
        db := db - {unknownKey};
        return Limited;
      }
      db := ZAdd(db, unknownKey, now, now);
      db := Expire(db, unknownKey, 62, now);
      return Admitted;
    }
  }

  // ---------------------------------------------------------------------------------------------
  // Runs

  datatype Call =
    | RateCall(device: Uuid, now: real, limit: int)
    | UnknownCall(device: Uuid, now: real, limit: int, lockout: int)

  function MemoryStep(s: Memory, c: Call): (Memory, Verdict) {
    match c
    case RateCall(d, now, limit) => MemoryRate(s, d, now, limit)
    case UnknownCall(d, now, limit, lockout) => MemoryUnknown(s, d, now, limit, lockout)
  }

  function RedisStep(db: Keyspace, c: Call): (Keyspace, Verdict) {
    match c
    case RateCall(d, now, limit) => RateScript(db, d, now, limit)
    case UnknownCall(d, now, limit, lockout) => UnknownScript(db, d, now, limit, lockout)
  }

  function MemoryRun(calls: seq<Call>): (Memory, seq<Verdict>) {
    if calls == [] then (Memory(map[], map[], map[]), [])
    else
      var (s, verdicts) := MemoryRun(calls[..|calls| - 1]);
      var (s', v) := MemoryStep(s, calls[|calls| - 1]);
      (s', verdicts + [v])
  }

  function RedisRun(calls: seq<Call>): (Keyspace, seq<Verdict>) {
    if calls == [] then (map[], [])
    else
      var (db, verdicts) := RedisRun(calls[..|calls| - 1]);
      var (db', v) := RedisStep(db, calls[|calls| - 1]);
      (db', verdicts + [v])
  }

  /** The clock never runs backwards. */
  predicate Ordered(calls: seq<Call>) {
    && (forall i | 0 <= i < |calls| :: calls[i].now >= 0.0)
    && (forall i, j | 0 <= i <= j < |calls| :: calls[i].now <= calls[j].now)
  }

  function Clock(calls: seq<Call>): real {
    if calls == [] then 0.0 else calls[|calls| - 1].now
  }

  // ---------------------------------------------------------------------------------------------
  // The two checkers agree

  lemma {:induction false} SinceTwice(log: seq<real>, c1: real, c2: real)
    requires c1 <= c2
    ensures Since(Since(log, c1), c2) == Since(log, c2)
  {
    if log != [] {
      var init, last := log[..|log| - 1], log[|log| - 1];
      SinceTwice(init, c1, c2);
      if last > c1 {
        assert (Since(init, c1) + [last])[..|Since(init, c1)|] == Since(init, c1);
      } else {
        assert Since(log, c1) == Since(init, c1);
      }
    }
  }

  predicate Bounded(log: seq<real>, low: real, high: real) {
    forall i | 0 <= i < |log| :: low <= log[i] <= high
  }

  lemma {:induction false} OutsideIsSince(scores: seq<real>, cutoff: real, high: real)
    requires Bounded(scores, 0.0, high)
    ensures Outside(scores, 0.0, cutoff) == Since(scores, cutoff)
    ensures Bounded(Since(scores, cutoff), 0.0, high)
  {
    if scores != [] {
      OutsideIsSince(scores[..|scores| - 1], cutoff, high);
    }
  }

  lemma {:induction false} NothingSince(log: seq<real>, cutoff: real)
    requires Bounded(log, 0.0, cutoff)
    ensures Since(log, cutoff) == []
  {
    if log != [] {
      NothingSince(log[..|log| - 1], cutoff);
    }
  }

  lemma SinceSnoc(log: seq<real>, t: real, cutoff: real)
    ensures Since(log + [t], cutoff) == Since(log, cutoff) + if t > cutoff then [t] else []
  {
  }

  /** The key of a window written no later than `t` outlives every score it holds. */
  predicate SlotHolds(slot: Slot, t: real, window: real) {
    && slot.expiresAt.Some?
    && Bounded(slot.scores, 0.0, t)
    && Bounded(slot.scores, 0.0, slot.expiresAt.value - window)
  }

  /** At time `t` both logs hold the same entries of the last `window` seconds. */
  predicate SameWindow(log: seq<real>, db: Keyspace, key: Key, t: real, window: real) {
    && Since(log, t - window) == Since(Scores(db, key, t), t - window)
    && (key in db ==> SlotHolds(db[key], t, window))
  }

  predicate SameLockout(s: Memory, db: Keyspace, d: Uuid, t: real) {
    && (Exists(db, LockoutKey(d), t) <==> LockedOut(s, d, t))
    && (LockedOut(s, d, t) ==> db[LockoutKey(d)].expiresAt == Some(s.lockouts[d]))
    && (LockoutKey(d) in db ==> db[LockoutKey(d)].expiresAt.Some?)
  }

  predicate AgreeOn(s: Memory, db: Keyspace, d: Uuid, t: real) {
    && SameWindow(Log(s.rateLog, d), db, RateKey(d), t, RATE_WINDOW)
    && SameWindow(Log(s.unknownLog, d), db, UnknownKey(d), t, UNKNOWN_WINDOW)
    && SameLockout(s, db, d, t)
  }

  ghost predicate Agree(s: Memory, db: Keyspace, t: real) {
    forall d :: AgreeOn(s, db, d, t)
  }

  /** Between `t` and `t'` a key either keeps its scores or expires with all of them out of the window. */
  lemma ScoresStayOrLapse(db: Keyspace, key: Key, t: real, t': real, window: real)
    requires t <= t' && (key in db ==> SlotHolds(db[key], t, window))
    ensures Scores(db, key, t') == Scores(db, key, t)
            || (Scores(db, key, t') == [] && Bounded(Scores(db, key, t), 0.0, t' - window))
  {
  }

  lemma ScoresAge(db: Keyspace, key: Key, t: real, t': real, window: real)
    requires t <= t' && (key in db ==> SlotHolds(db[key], t, window))
    ensures Since(Scores(db, key, t'), t' - window) == Since(Since(Scores(db, key, t), t - window), t' - window)
  {
    var scores, scores' := Scores(db, key, t), Scores(db, key, t');
    ScoresStayOrLapse(db, key, t, t', window);
    SinceTwice(scores, t - window, t' - window);
    if scores' != scores {
      NothingSince(scores, t' - window);
    }
  }

  lemma WindowAges(log: seq<real>, db: Keyspace, key: Key, t: real, t': real, window: real)
    requires SameWindow(log, db, key, t, window) && t <= t'
    ensures SameWindow(log, db, key, t', window)
  {
    SinceTwice(log, t - window, t' - window);
    ScoresAge(db, key, t, t', window);
  }

  lemma AgreementAges(s: Memory, db: Keyspace, t: real, t': real)
    requires Agree(s, db, t) && t <= t'
    ensures Agree(s, db, t')
  {
    forall d
      ensures AgreeOn(s, db, d, t')
    {
      assert AgreeOn(s, db, d, t);
      WindowAges(Log(s.rateLog, d), db, RateKey(d), t, t', RATE_WINDOW);
      WindowAges(Log(s.unknownLog, d), db, UnknownKey(d), t, t', UNKNOWN_WINDOW);
    }
  }

  lemma SlotTrims(slot: Slot, now: real, window: real)
    requires SlotHolds(slot, now, window)
    ensures var rest := Outside(slot.scores, 0.0, now - window);
            rest == Since(slot.scores, now - window) && SlotHolds(slot.(scores := rest), now, window)
  {
    OutsideIsSince(slot.scores, now - window, now);
    OutsideIsSince(slot.scores, now - window, slot.expiresAt.value - window);
  }

  /** Trimming a sorted set leaves exactly what the in-memory comprehension keeps. */
  lemma TrimAgrees(log: seq<real>, db: Keyspace, key: Key, now: real, window: real)
    requires SameWindow(log, db, key, now, window)
    ensures var trimmed := ZRemRangeByScore(db, key, 0.0, now - window, now);
            && Scores(trimmed, key, now) == Since(log, now - window)
            && (key in trimmed ==> Exists(trimmed, key, now) && SlotHolds(trimmed[key], now, window))
  {
    if Exists(db, key, now) {
      SlotTrims(db[key], now, window);
    }
  }

  lemma AddAgrees(log: seq<real>, db: Keyspace, key: Key, now: real, window: real, ttl: int)
    requires Scores(db, key, now) == log
    requires key in db ==> Exists(db, key, now) && SlotHolds(db[key], now, window)
    requires now >= 0.0 && 0.0 < window <= ttl as real
    ensures var final := Expire(ZAdd(db, key, now, now), key, ttl, now);
            && Exists(final, key, now) && final[key].scores == log + [now]
            && SlotHolds(final[key], now, window)
  {
  }

  predicate SameSlot(db: Keyspace, db': Keyspace, key: Key) {
    (key in db <==> key in db') && (key in db ==> db[key] == db'[key])
  }

  lemma RateScriptFrame(db: Keyspace, d: Uuid, now: real, limit: int, key: Key)
    requires key != RateKey(d)
    ensures SameSlot(db, RateScript(db, d, now, limit).0, key)
  {
  }

  lemma UnknownScriptFrame(db: Keyspace, d: Uuid, now: real, limit: int, lockout: int, key: Key)
    requires key != UnknownKey(d) && key != LockoutKey(d)
    ensures SameSlot(db, UnknownScript(db, d, now, limit, lockout).0, key)
  {
  }

  lemma WindowFrame(log: seq<real>, db: Keyspace, db': Keyspace, key: Key, t: real, window: real)
    requires SameWindow(log, db, key, t, window) && SameSlot(db, db', key)
    ensures SameWindow(log, db', key, t, window)
  {
  }

  /** The two ways one window can move: trimmed, or trimmed and extended by `now`. */
  lemma WindowMoves(log: seq<real>, db: Keyspace, key: Key, now: real, window: real, ttl: int)
    requires SameWindow(log, db, key, now, window)
    requires now >= 0.0 && 0.0 < window <= ttl as real
    ensures var recent := Since(log, now - window);
            var trimmed := ZRemRangeByScore(db, key, 0.0, now - window, now);
            && Scores(trimmed, key, now) == recent
            && SameWindow(recent, trimmed, key, now, window)
            && SameWindow(recent + [now], Expire(ZAdd(trimmed, key, now, now), key, ttl, now), key, now, window)
  {
    TrimAgrees(log, db, key, now, window);
    AddAgrees(Since(log, now - window), ZRemRangeByScore(db, key, 0.0, now - window, now), key, now, window, ttl);
  }

  lemma RateWindowAgrees(s: Memory, db: Keyspace, d: Uuid, now: real, limit: int)
    requires AgreeOn(s, db, d, now) && now >= 0.0
    ensures var (s', v) := MemoryRate(s, d, now, limit);
            var (db', w) := RateScript(db, d, now, limit);
            v == w && SameWindow(Log(s'.rateLog, d), db', RateKey(d), now, RATE_WINDOW)
  {
    WindowMoves(Log(s.rateLog, d), db, RateKey(d), now, RATE_WINDOW, 2);
  }

  lemma RateStepAgrees(s: Memory, db: Keyspace, d: Uuid, now: real, limit: int)
    requires Agree(s, db, now) && now >= 0.0
    ensures var (s', v) := MemoryRate(s, d, now, limit);
            var (db', w) := RateScript(db, d, now, limit);
            v == w && Agree(s', db', now)
  {
    var s' := MemoryRate(s, d, now, limit).0;
    var db' := RateScript(db, d, now, limit).0;
    assert AgreeOn(s, db, d, now);
    RateWindowAgrees(s, db, d, now, limit);
    forall e
      ensures AgreeOn(s', db', e, now)
    {
      assert AgreeOn(s, db, e, now);
      RateScriptFrame(db, d, now, limit, UnknownKey(e));
      RateScriptFrame(db, d, now, limit, LockoutKey(e));
      WindowFrame(Log(s.unknownLog, e), db, db', UnknownKey(e), now, UNKNOWN_WINDOW);
      if e != d {
        RateScriptFrame(db, d, now, limit, RateKey(e));
        WindowFrame(Log(s.rateLog, e), db, db', RateKey(e), now, RATE_WINDOW);
      }
    }
  }

  lemma AdmitFrame(db: Keyspace, key: Key, other: Key, now: real, ttl: int)
    requires key != other
    ensures SameSlot(db, Expire(ZAdd(db, key, now, now), key, ttl, now), other)
  {
  }

  lemma TriggeringAgrees(s: Memory, db: Keyspace, d: Uuid, now: real, limit: int, lockout: int)
    requires AgreeOn(s, db, d, now) && now >= 0.0 && !LockedOut(s, d, now) && Triggers(s, d, now, limit)
    ensures var (s', v) := MemoryUnknown(s, d, now, limit, lockout);
            var (db', w) := UnknownScript(db, d, now, limit, lockout);
            && v == Limited && w == (if lockout < 1 then Failed else Limited)
            && (lockout >= 1 ==>
                  && SameWindow(Log(s'.unknownLog, d), db', UnknownKey(d), now, UNKNOWN_WINDOW)
                  && SameLockout(s', db', d, now))
  {
    TrimAgrees(Log(s.unknownLog, d), db, UnknownKey(d), now, UNKNOWN_WINDOW);
  }

  lemma AdmittingAgrees(s: Memory, db: Keyspace, d: Uuid, now: real, limit: int, lockout: int)
    requires AgreeOn(s, db, d, now) && now >= 0.0 && !LockedOut(s, d, now) && !Triggers(s, d, now, limit)
    ensures var (s', v) := MemoryUnknown(s, d, now, limit, lockout);
            var (db', w) := UnknownScript(db, d, now, limit, lockout);
            && v == w == Admitted
            && SameWindow(Log(s'.unknownLog, d), db', UnknownKey(d), now, UNKNOWN_WINDOW)
            && SameLockout(s', db', d, now)
  {
    WindowMoves(Log(s.unknownLog, d), db, UnknownKey(d), now, UNKNOWN_WINDOW, 62);
    var s', db' := MemoryUnknown(s, d, now, limit, lockout).0, UnknownScript(db, d, now, limit, lockout).0;
    assert SameLockout(s', db', d, now) by {
      var trimmed := ZRemRangeByScore(db, UnknownKey(d), 0.0, now - 60.0, now);
      TrimFrame(db, UnknownKey(d), LockoutKey(d), now, UNKNOWN_WINDOW);
      AdmitFrame(trimmed, UnknownKey(d), LockoutKey(d), now, 62);
      LockoutFrame(s, s', db, db', d, now);
    }
  }

  lemma TrimFrame(db: Keyspace, key: Key, other: Key, now: real, window: real)
    requires key != other
    ensures SameSlot(db, ZRemRangeByScore(db, key, 0.0, now - window, now), other)
  {
  }

  lemma LockoutFrame(s: Memory, s': Memory, db: Keyspace, db': Keyspace, d: Uuid, now: real)
    requires SameLockout(s, db, d, now) && !LockedOut(s, d, now)
    requires d !in s'.lockouts && SameSlot(db, db', LockoutKey(d))
    ensures SameLockout(s', db', d, now)
  {
  }

  /** One unknown-face check: the verdicts differ exactly when a lockout shorter than a second is due. */
  lemma UnknownVerdictsAgree(s: Memory, db: Keyspace, d: Uuid, now: real, limit: int, lockout: int)
    requires AgreeOn(s, db, d, now) && now >= 0.0
    ensures var (s', v) := MemoryUnknown(s, d, now, limit, lockout);
            var (db', w) := UnknownScript(db, d, now, limit, lockout);
            && (v == w <==> !(lockout < 1 && Triggers(s, d, now, limit)))
            && (v == w ==>
                  && SameWindow(Log(s'.unknownLog, d), db', UnknownKey(d), now, UNKNOWN_WINDOW)
                  && SameLockout(s', db', d, now))
  {
    if !LockedOut(s, d, now) {
      if Triggers(s, d, now, limit) {
        TriggeringAgrees(s, db, d, now, limit, lockout);
      } else {
        AdmittingAgrees(s, db, d, now, limit, lockout);
      }
    }
  }

  /** A check of one device leaves the agreement on every other device as it was. */
  lemma OthersStillAgree(s: Memory, db: Keyspace, d: Uuid, e: Uuid, now: real, limit: int, lockout: int)
    requires AgreeOn(s, db, e, now) && e != d
    ensures var s', db' := MemoryUnknown(s, d, now, limit, lockout).0, UnknownScript(db, d, now, limit, lockout).0;
            AgreeOn(s', db', e, now)
  {
    UnknownScriptFrame(db, d, now, limit, lockout, RateKey(e));
    UnknownScriptFrame(db, d, now, limit, lockout, UnknownKey(e));
    UnknownScriptFrame(db, d, now, limit, lockout, LockoutKey(e));
    MemoryUnknownFrame(s, d, e, now, limit, lockout);
  }

  lemma MemoryUnknownFrame(s: Memory, d: Uuid, e: Uuid, now: real, limit: int, lockout: int)
    requires e != d
    ensures var s' := MemoryUnknown(s, d, now, limit, lockout).0;
            && s'.rateLog == s.rateLog
            && Log(s'.unknownLog, e) == Log(s.unknownLog, e)
            && (e in s'.lockouts <==> e in s.lockouts)
            && (e in s.lockouts ==> s'.lockouts[e] == s.lockouts[e])
  {
  }

  lemma UnknownStepAgrees(s: Memory, db: Keyspace, d: Uuid, now: real, limit: int, lockout: int)
    requires Agree(s, db, now) && now >= 0.0
    requires !(lockout < 1 && Triggers(s, d, now, limit))
    ensures var (s', v) := MemoryUnknown(s, d, now, limit, lockout);
            var (db', w) := UnknownScript(db, d, now, limit, lockout);
            v == w && Agree(s', db', now)
  {
    var s' := MemoryUnknown(s, d, now, limit, lockout).0;
    var db' := UnknownScript(db, d, now, limit, lockout).0;
    assert AgreeOn(s, db, d, now);
    UnknownVerdictsAgree(s, db, d, now, limit, lockout);
    forall e
      ensures AgreeOn(s', db', e, now)
    {
      assert AgreeOn(s, db, e, now);
      if e == d {
        UnknownKeepsRates(s, db, d, now, limit, lockout);
      } else {
        OthersStillAgree(s, db, d, e, now, limit, lockout);
      }
    }
  }

  lemma UnknownKeepsRates(s: Memory, db: Keyspace, d: Uuid, now: real, limit: int, lockout: int)
    requires AgreeOn(s, db, d, now)
    ensures var s', db' := MemoryUnknown(s, d, now, limit, lockout).0, UnknownScript(db, d, now, limit, lockout).0;
            SameWindow(Log(s'.rateLog, d), db', RateKey(d), now, RATE_WINDOW)
  {
    UnknownScriptFrame(db, d, now, limit, lockout, RateKey(d));
    assert MemoryUnknown(s, d, now, limit, lockout).0.rateLog == s.rateLog;
  }

  /** The call is due to lock its device out for less than a second, which aborts the script. */
  predicate Aborts(s: Memory, c: Call) {
    c.UnknownCall? && c.lockout < 1 && Triggers(s, c.device, c.now, c.limit)
  }

  predicate NeverAborts(calls: seq<Call>) {
    calls == [] ||
    var init := calls[..|calls| - 1];
    NeverAborts(init) && !Aborts(MemoryRun(init).0, calls[|calls| - 1])
  }

  lemma StepAgreesExactly(s: Memory, db: Keyspace, c: Call)
    requires Agree(s, db, c.now) && c.now >= 0.0
    ensures MemoryStep(s, c).1 == RedisStep(db, c).1 <==> !Aborts(s, c)
    ensures !Aborts(s, c) ==> Agree(MemoryStep(s, c).0, RedisStep(db, c).0, c.now)
  {
    match c
    case RateCall(d, now, limit) =>
      RateStepAgrees(s, db, d, now, limit);
    case UnknownCall(d, now, limit, lockout) =>
      assert AgreeOn(s, db, d, now);
      UnknownVerdictsAgree(s, db, d, now, limit, lockout);
      if !Aborts(s, c) {
        UnknownStepAgrees(s, db, d, now, limit, lockout);
      }
  }

  /**
   On every run of calls to any devices, with any limits and lockouts, both checkers give the same verdicts exactly
   when no call is due to lock its device out for less than a second.
   */
  lemma {:induction false} CheckersAgree(calls: seq<Call>)
    requires Ordered(calls)
    ensures MemoryRun(calls).1 == RedisRun(calls).1 <==> NeverAborts(calls)
    ensures NeverAborts(calls) ==> Agree(MemoryRun(calls).0, RedisRun(calls).0, Clock(calls))
    ensures |MemoryRun(calls).1| == |RedisRun(calls).1| == |calls|
  {
    if calls != [] {
      var init, c := calls[..|calls| - 1], calls[|calls| - 1];
      CheckersAgree(init);
      var (s, verdicts) := MemoryRun(init);
      var (db, verdicts') := RedisRun(init);
      var v, v' := MemoryStep(s, c).1, RedisStep(db, c).1;
      assert (verdicts + [v])[..|init|] == verdicts && (verdicts' + [v'])[..|init|] == verdicts';
      assert (verdicts + [v])[|init|] == v && (verdicts' + [v'])[|init|] == v';
      if NeverAborts(init) {
        AgreementAges(s, db, Clock(init), c.now);
        StepAgreesExactly(s, db, c);
      }
    }
  }

  lemma {:induction false} LongLockoutsNeverAbort(calls: seq<Call>)
    requires forall i | 0 <= i < |calls| && calls[i].UnknownCall? :: calls[i].lockout >= 1
    ensures NeverAborts(calls)
  {
    if calls != [] {
      LongLockoutsNeverAbort(calls[..|calls| - 1]);
    }
  }

  /** With lockouts of at least a second the checkers agree on every run. */
  lemma LongLockoutsAgree(calls: seq<Call>)
    requires Ordered(calls)
    requires forall i | 0 <= i < |calls| && calls[i].UnknownCall? :: calls[i].lockout >= 1
    ensures MemoryRun(calls).1 == RedisRun(calls).1
  {
    LongLockoutsNeverAbort(calls);
    CheckersAgree(calls);
  }

  // ---------------------------------------------------------------------------------------------
  // How many calls one window can admit

  predicate Counts(c: Call, d: Uuid, unknown: bool) {
    c.device == d && c.UnknownCall? == unknown
  }

  /** The times at which device `d` had a call of one kind admitted. */
  function Admissions(calls: seq<Call>, d: Uuid, unknown: bool): seq<real> {
    if calls == [] then []
    else
      var init, c := calls[..|calls| - 1], calls[|calls| - 1];
      var admitted := Counts(c, d, unknown) && MemoryStep(MemoryRun(init).0, c).1 == Admitted;
      Admissions(init, d, unknown) + if admitted then [c.now] else []
  }

  /** The entries in the half-open window `[low, high)`. */
  function Within(log: seq<real>, low: real, high: real): seq<real> {
    if log == [] then []
    else
      var last := log[|log| - 1];
      Within(log[..|log| - 1], low, high) + if low <= last < high then [last] else []
  }

  /** Each admission found fewer than `limit` others in the window that ends with it. */
  predicate Sparse(h: seq<real>, limit: int, window: real) {
    h == [] ||
    var init, last := h[..|h| - 1], h[|h| - 1];
    Sparse(init, limit, window) && |Since(init, last - window)| < limit
  }

  lemma {:induction false} WithinIsRecent(h: seq<real>, low: real, high: real, cutoff: real)
    requires cutoff < low
    ensures |Within(h, low, high)| <= |Since(h, cutoff)|
  {
    if h != [] {
      WithinIsRecent(h[..|h| - 1], low, high, cutoff);
    }
  }

  lemma {:induction false} SparseBoundsWindows(h: seq<real>, limit: int, window: real, low: real)
    requires Sparse(h, limit, window)
    ensures |Within(h, low, low + window)| <= Max(limit, 0)
  {
    if h != [] {
      var init, last := h[..|h| - 1], h[|h| - 1];
      SparseBoundsWindows(init, limit, window, low);
      if low <= last < low + window {
        WithinIsRecent(init, low, low + window, last - window);
      }
    }
  }

  /** What the log still knows of the admission history `h` at time `t`. */
  predicate Remembers(log: seq<real>, h: seq<real>, t: real, limit: int, window: real) {
    && Sparse(h, limit, window)
    && Bounded(h, 0.0, t)
    && Since(log, t - window) == Since(h, t - window)
  }

  lemma MemoryAges(log: seq<real>, h: seq<real>, t: real, t': real, limit: int, window: real)
    requires Remembers(log, h, t, limit, window) && t <= t'
    ensures Remembers(log, h, t', limit, window)
  {
    SinceTwice(log, t - window, t' - window);
    SinceTwice(h, t - window, t' - window);
  }

  /** Trimming keeps the memory; admitting below the limit extends it. */
  lemma MemoryMoves(log: seq<real>, h: seq<real>, t: real, limit: int, window: real)
    requires Remembers(log, h, t, limit, window) && t >= 0.0 && window > 0.0
    ensures Remembers(Since(log, t - window), h, t, limit, window)
    ensures |Since(log, t - window)| < limit ==>
              Remembers(Since(log, t - window) + [t], h + [t], t, limit, window)
  {
    SinceTwice(log, t - window, t - window);
    if |Since(log, t - window)| < limit {
      MemoryExtends(Since(log, t - window), h, t, limit, window);
    }
  }

  lemma MemoryExtends(recent: seq<real>, h: seq<real>, t: real, limit: int, window: real)
    requires Remembers(recent, h, t, limit, window) && t >= 0.0 && |Since(recent, t - window)| < limit
    ensures Remembers(recent + [t], h + [t], t, limit, window)
  {
    assert Since(recent + [t], t - window) == Since(h + [t], t - window) by {
      SinceSnoc(recent, t, t - window);
      SinceSnoc(h, t, t - window);
    }
    SparseSnoc(h, t, limit, window);
    BoundedSnoc(h, 0.0, t);
  }

  lemma BoundedSnoc(log: seq<real>, low: real, high: real)
    requires Bounded(log, low, high) && low <= high
    ensures Bounded(log + [high], low, high)
  {
  }

  lemma SparseSnoc(h: seq<real>, t: real, limit: int, window: real)
    requires Sparse(h, limit, window) && |Since(h, t - window)| < limit
    ensures Sparse(h + [t], limit, window)
  {
  }

  predicate UniformLimit(calls: seq<Call>, d: Uuid, unknown: bool, limit: int) {
    forall i | 0 <= i < |calls| && Counts(calls[i], d, unknown) :: calls[i].limit == limit
  }

  lemma {:induction false} RateLogRemembers(calls: seq<Call>, d: Uuid, limit: int)
    requires Ordered(calls) && UniformLimit(calls, d, false, limit)
    ensures Remembers(Log(MemoryRun(calls).0.rateLog, d), Admissions(calls, d, false), Clock(calls), limit, RATE_WINDOW)
  {
    if calls != [] {
      var init, c := calls[..|calls| - 1], calls[|calls| - 1];
      RateLogRemembers(init, d, limit);
      var s, h := MemoryRun(init).0, Admissions(init, d, false);
      RateStepRemembers(s, d, h, Clock(init), limit, c);
    }
  }

  lemma RateStepRemembers(s: Memory, d: Uuid, h: seq<real>, t: real, limit: int, c: Call)
    requires Remembers(Log(s.rateLog, d), h, t, limit, RATE_WINDOW) && 0.0 <= t <= c.now
    requires Counts(c, d, false) ==> c.limit == limit
    ensures var (s', v) := MemoryStep(s, c);
            var h' := h + if Counts(c, d, false) && v == Admitted then [c.now] else [];
            Remembers(Log(s'.rateLog, d), h', c.now, limit, RATE_WINDOW)
  {
    var log := Log(s.rateLog, d);
    MemoryAges(log, h, t, c.now, limit, RATE_WINDOW);
    if Counts(c, d, false) {
      CountedRateRemembers(s, d, h, limit, c);
    } else {
      assert Log(MemoryStep(s, c).0.rateLog, d) == log;
      assert h + [] == h;
    }
  }

  lemma CountedRateRemembers(s: Memory, d: Uuid, h: seq<real>, limit: int, c: Call)
    requires Counts(c, d, false) && c.limit == limit && c.now >= 0.0
    requires Remembers(Log(s.rateLog, d), h, c.now, limit, RATE_WINDOW)
    ensures var (s', v) := MemoryStep(s, c);
            Remembers(Log(s'.rateLog, d), h + if v == Admitted then [c.now] else [], c.now, limit, RATE_WINDOW)
  {
    var recent := Since(Log(s.rateLog, d), c.now - RATE_WINDOW);
    RateMoves(s, d, c, recent);
    MemoryMoves(Log(s.rateLog, d), h, c.now, limit, RATE_WINDOW);
    if |recent| >= limit {
      assert h + [] == h;
    }
  }

  lemma RateMoves(s: Memory, d: Uuid, c: Call, recent: seq<real>)
    requires Counts(c, d, false) && recent == Since(Log(s.rateLog, d), c.now - RATE_WINDOW)
    ensures var (s', v) := MemoryStep(s, c);
            && v == (if |recent| >= c.limit then Limited else Admitted)
            && Log(s'.rateLog, d) == recent + if |recent| >= c.limit then [] else [c.now]
  {
  }

  /** No device gets more than its limit of scans admitted in any one-second window. */
  lemma RateIsBounded(calls: seq<Call>, d: Uuid, limit: int, low: real)
    requires Ordered(calls) && UniformLimit(calls, d, false, limit)
    ensures |Within(Admissions(calls, d, false), low, low + 1.0)| <= Max(limit, 0)
  {
    RateLogRemembers(calls, d, limit);
    SparseBoundsWindows(Admissions(calls, d, false), limit, RATE_WINDOW, low);
  }

  /** After a lockout of a full window nothing admitted before it can still count. */
  predicate UnknownRemembers(s: Memory, d: Uuid, h: seq<real>, t: real, limit: int) {
    if d in s.lockouts then
      && Sparse(h, limit, UNKNOWN_WINDOW) && Bounded(h, 0.0, t)
      && Log(s.unknownLog, d) == [] && Bounded(h, 0.0, s.lockouts[d] - UNKNOWN_WINDOW)
    else
      Remembers(Log(s.unknownLog, d), h, t, limit, UNKNOWN_WINDOW)
  }

  lemma {:induction false} UnknownLogRemembers(calls: seq<Call>, d: Uuid, limit: int)
    requires Ordered(calls) && UniformLimit(calls, d, true, limit)
    requires forall i | 0 <= i < |calls| && Counts(calls[i], d, true) :: calls[i].lockout >= 60
    ensures UnknownRemembers(MemoryRun(calls).0, d, Admissions(calls, d, true), Clock(calls), limit)
  {
    if calls != [] {
      var init, c := calls[..|calls| - 1], calls[|calls| - 1];
      UnknownLogRemembers(init, d, limit);
      var s, h := MemoryRun(init).0, Admissions(init, d, true);
      UnknownStepRemembers(s, d, h, Clock(init), limit, c);
    }
  }

  lemma UnknownStepRemembers(s: Memory, d: Uuid, h: seq<real>, t: real, limit: int, c: Call)
    requires UnknownRemembers(s, d, h, t, limit) && 0.0 <= t <= c.now
    requires Counts(c, d, true) ==> c.limit == limit && c.lockout >= 60
    ensures var (s', v) := MemoryStep(s, c);
            var h' := h + if Counts(c, d, true) && v == Admitted then [c.now] else [];
            UnknownRemembers(s', d, h', c.now, limit)
  {
    assert h + [] == h;
    var log := Log(s.unknownLog, d);
    if d !in s.lockouts {
      MemoryAges(log, h, t, c.now, limit, UNKNOWN_WINDOW);
    }
    if !Counts(c, d, true) {
      OtherCallsKeepTheLog(s, d, c);
    } else if !LockedOut(s, d, c.now) {
      if d in s.lockouts {
        NothingSince(h, c.now - UNKNOWN_WINDOW);
      }
      CountedCallRemembers(s, d, h, limit, c);
    }
  }

  lemma OtherCallsKeepTheLog(s: Memory, d: Uuid, c: Call)
    requires !Counts(c, d, true)
    ensures var s' := MemoryStep(s, c).0;
            && Log(s'.unknownLog, d) == Log(s.unknownLog, d)
            && (d in s'.lockouts <==> d in s.lockouts)
            && (d in s.lockouts ==> s'.lockouts[d] == s.lockouts[d])
  {
  }

  lemma CountedCallRemembers(s: Memory, d: Uuid, h: seq<real>, limit: int, c: Call)
    requires Counts(c, d, true) && !LockedOut(s, d, c.now) && c.now >= 0.0
    requires c.limit == limit && c.lockout >= 60
    requires Remembers(Log(s.unknownLog, d), h, c.now, limit, UNKNOWN_WINDOW)
    ensures var (s', v) := MemoryStep(s, c);
            var h' := h + if Counts(c, d, true) && v == Admitted then [c.now] else [];
            UnknownRemembers(s', d, h', c.now, limit)
  {
    MemoryMoves(Log(s.unknownLog, d), h, c.now, limit, UNKNOWN_WINDOW);
    assert h + [] == h;
  }

  predicate Uniform(calls: seq<Call>, limit: int, lockout: int) {
    forall i | 0 <= i < |calls| && calls[i].UnknownCall? :: calls[i].limit == limit && calls[i].lockout == lockout
  }

  function MinuteCount(calls: seq<Call>, d: Uuid, low: real): nat {
    |Within(Admissions(calls, d, true), low, low + 60.0)|
  }

  /** No run admits more than `limit` unknown faces of one device in any sixty-second window. */
  ghost predicate UnknownIsBounded(limit: int, lockout: int) {
    forall calls: seq<Call>, d: Uuid, low: real | Ordered(calls) && Uniform(calls, limit, lockout) ::
      MinuteCount(calls, d, low) <= limit
  }

  /** `n` unknown faces at time zero. */
  function Volley(d: Uuid, n: nat, limit: int, lockout: int): (r: seq<Call>)
    ensures |r| == n
    ensures forall i | 0 <= i < n :: r[i] == UnknownCall(d, 0.0, limit, lockout)
  {
    if n == 0 then [] else Volley(d, n - 1, limit, lockout) + [UnknownCall(d, 0.0, limit, lockout)]
  }

  function Zeros(n: nat): (r: seq<real>)
    ensures |r| == n
  {
    if n == 0 then [] else Zeros(n - 1) + [0.0]
  }

  lemma {:induction false} VolleyIsAdmitted(d: Uuid, n: nat, limit: int, lockout: int)
    requires n <= limit
    ensures var calls := Volley(d, n, limit, lockout);
            && d !in MemoryRun(calls).0.lockouts
            && Log(MemoryRun(calls).0.unknownLog, d) == Admissions(calls, d, true) == Zeros(n)
  {
    if n > 0 {
      var calls, init := Volley(d, n, limit, lockout), Volley(d, n - 1, limit, lockout);
      VolleyIsAdmitted(d, n - 1, limit, lockout);
      assert calls[..|calls| - 1] == init;
      AdmittedFace(MemoryRun(init).0, d, n - 1, limit, lockout);
    }
  }

  lemma AdmittedFace(s: Memory, d: Uuid, n: nat, limit: int, lockout: int)
    requires n < limit && d !in s.lockouts && Log(s.unknownLog, d) == Zeros(n)
    ensures var (s', v) := MemoryUnknown(s, d, 0.0, limit, lockout);
            v == Admitted && d !in s'.lockouts && Log(s'.unknownLog, d) == Zeros(n) + [0.0]
  {
    AllRecent(n);
  }

  lemma {:induction false} AllRecent(n: nat)
    ensures Since(Zeros(n), -60.0) == Zeros(n)
    ensures Within(Zeros(n), 0.0, 60.0) == Zeros(n)
  {
    if n > 0 {
      AllRecent(n - 1);
      assert Zeros(n)[..|Zeros(n)| - 1] == Zeros(n - 1);
    }
  }

  /** One face too many locks the device out. */
  function LockingVolley(d: Uuid, limit: nat, lockout: int): seq<Call> {
    Volley(d, limit, limit, lockout) + [UnknownCall(d, 0.0, limit, lockout)]
  }

  lemma VolleyLocksOut(d: Uuid, limit: nat, lockout: int)
    ensures var calls := LockingVolley(d, limit, lockout);
            && d in MemoryRun(calls).0.lockouts && MemoryRun(calls).0.lockouts[d] == lockout as real
            && Log(MemoryRun(calls).0.unknownLog, d) == []
            && Admissions(calls, d, true) == Zeros(limit)
  {
    var volley, calls := Volley(d, limit, limit, lockout), LockingVolley(d, limit, lockout);
    VolleyIsAdmitted(d, limit, limit, lockout);
    AllRecent(limit);
    assert calls[..limit] == volley;
    assert Zeros(limit) + [] == Zeros(limit);
  }

  lemma FullVolleyTriggers(s: Memory, d: Uuid, limit: nat, lockout: int)
    requires d !in s.lockouts && Log(s.unknownLog, d) == Zeros(limit) && lockout < 1
    ensures Aborts(s, UnknownCall(d, 0.0, limit, lockout))
  {
    AllRecent(limit);
  }

  lemma LockingVolleyAborts(d: Uuid, limit: nat, lockout: int)
    requires lockout < 1
    ensures !NeverAborts(LockingVolley(d, limit, lockout))
  {
    var calls, volley := LockingVolley(d, limit, lockout), Volley(d, limit, limit, lockout);
    VolleyIsAdmitted(d, limit, limit, lockout);
    FullVolleyTriggers(MemoryRun(volley).0, d, limit, lockout);
    assert calls[..|calls| - 1] == volley;
  }

  /** With the lockout of zero that the settings allow, one face too many divides the checkers. */
  lemma ZeroLockoutDivides(d: Uuid, limit: nat)
    ensures var calls := LockingVolley(d, limit, 0);
            Ordered(calls) && MemoryRun(calls).1 != RedisRun(calls).1
  {
    LockingVolleyAborts(d, limit, 0);
    CheckersAgree(LockingVolley(d, limit, 0));
  }

  /** When a short lockout has run off, one more face of the same minute is let in. */
  lemma ShortLockoutLeaks(limit: nat, lockout: int)
    requires limit >= 1 && 0 <= lockout < 60
    ensures !UnknownIsBounded(limit, lockout)
  {
    var d: Uuid := 0;
    var over := LockingVolley(d, limit, lockout);
    VolleyLocksOut(d, limit, lockout);
    var calls := over + [UnknownCall(d, lockout as real, limit, lockout)];
    assert calls[..limit + 1] == over;
    assert Admissions(calls, d, true) == Admissions(over, d, true) + [lockout as real];
    LateFaceCounts(limit, lockout as real);
    assert MinuteCount(calls, d, 0.0) == limit + 1;
    LeakIsARun(d, limit, lockout);
  }

  lemma LeakIsARun(d: Uuid, limit: nat, lockout: int)
    requires lockout >= 0
    ensures var calls := LockingVolley(d, limit, lockout) + [UnknownCall(d, lockout as real, limit, lockout)];
            Ordered(calls) && Uniform(calls, limit, lockout)
  {
  }

  lemma LateFaceCounts(n: nat, late: real)
    requires 0.0 <= late < 60.0
    ensures |Within(Zeros(n) + [late], 0.0, 60.0)| == n + 1
  {
  }

  /** The sixty-second bound holds of every run exactly when the lockout lasts at least the window. */
  lemma UnknownBoundExactly(limit: int, lockout: int)
    requires limit >= 1 && lockout >= 0
    ensures UnknownIsBounded(limit, lockout) <==> lockout >= 60
  {
    if lockout < 60 {
      ShortLockoutLeaks(limit, lockout);
    } else {
      forall calls: seq<Call>, d: Uuid, low: real | Ordered(calls) && Uniform(calls, limit, lockout)
        ensures MinuteCount(calls, d, low) <= limit
      {
        assert forall i | 0 <= i < |calls| && Counts(calls[i], d, true) :: calls[i].lockout >= 60;
        UnknownLogRemembers(calls, d, limit);
        SparseBoundsWindows(Admissions(calls, d, true), limit, UNKNOWN_WINDOW, low);
      }
    }
  }
}
