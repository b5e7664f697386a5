/** Scan sessions: who may attribute a scan to which location, and for how long (backend/app/scan/sessions.py). */
module ScanSessions {
  import opened Basics

  datatype Mode = Fixed | Roaming

  datatype Device = Device(id: Uuid, mode: Mode, locationId: Option<Uuid>)

  datatype LocationSource = DeviceFixed | SessionDeclared | Geofence

  datatype EndReason = Explicit | IdleTimeout | MaxDuration | TokenRevoked

  datatype SessionError =
    | FixedNeedsLocation | FixedLocationMismatch | OperatorRequired | GeofenceRequired
    | NoOpenSession | WrongDevice | SessionClosed | AlreadyOpen | NotFound

  /** Times are seconds; `idleTimeout` and `maxDuration` are the settings in seconds. */
  datatype Settings = Settings(requireOperator: bool, requireGeofence: bool, idleTimeout: int, maxDuration: int)

  const DEFAULTS := Settings(true, false, 20 * 60, 240 * 60)

  datatype Session = Session(
    deviceId: Uuid,
    locationId: Uuid,
    operator: Option<Uuid>,
    source: LocationSource,
    startedAt: int,
    lastActivityAt: int,
    endedAt: Option<int>,
    endReason: Option<EndReason>,
    scanCount: nat)
  {
    predicate IsOpen() {
      endedAt.None?
    }
  }

  datatype Attribution = Attribution(locationId: Uuid, source: LocationSource)

  // ---------------------------------------------------------------------------------------------
  // The four operations as functions of one session

  function Opened(d: Device, locationId: Uuid, operator: Option<Uuid>, source: LocationSource, now: int, st: Settings)
    : Result<Session, SessionError>
  {
    if d.mode.Fixed? then
      if d.locationId.None? then Err(FixedNeedsLocation)
      else if locationId != d.locationId.value then Err(FixedLocationMismatch)
      else Ok(Session(d.id, locationId, operator, DeviceFixed, now, now, None, None, 0))
    else if st.requireOperator && operator.None? then Err(OperatorRequired)
    else if st.requireGeofence && !source.Geofence? then Err(GeofenceRequired)
    else Ok(Session(d.id, locationId, operator, source, now, now, None, None, 0))
  }

  function Closed(s: Session, endedAt: int, reason: EndReason): Session {
    if s.IsOpen() then s.(endedAt := Some(endedAt), endReason := Some(reason)) else s
  }

  /** Why an open session is over at `now`, if it is. */
  function Expiry(s: Session, now: int, st: Settings): Option<EndReason> {
    if now - s.lastActivityAt >= st.idleTimeout then Some(IdleTimeout)
    else if now - s.startedAt >= st.maxDuration then Some(MaxDuration)
    else None
  }

  function Granted(s: Session, now: int): Session {
    s.(lastActivityAt := now, scanCount := s.scanCount + 1)
  }

  /** The session after an attribution was asked for, and the answer. */
  function Attributed(d: Device, s: Session, now: int, st: Settings): (Session, Result<Attribution, SessionError>) {
    if d.mode.Fixed? then
      if d.locationId.None? then (s, Err(FixedNeedsLocation))
      else if !s.IsOpen() then (s, Err(NoOpenSession))
      else if s.deviceId != d.id then (s, Err(WrongDevice))
      else if s.locationId != d.locationId.value then (s, Err(FixedLocationMismatch))
      else (Granted(s, now), Ok(Attribution(d.locationId.value, DeviceFixed)))
    else if !s.IsOpen() then (s, Err(NoOpenSession))
    else if s.deviceId != d.id then (s, Err(WrongDevice))
    else
      var expiry := Expiry(s, now, st);
      if expiry.Some? then (Closed(s, now, expiry.value), Err(SessionClosed))
      else (Granted(s, now), Ok(Attribution(s.locationId, s.source)))
  }

  // ---------------------------------------------------------------------------------------------
  // The session row, updated in place

  class ScanSession {
    const deviceId: Uuid
    const locationId: Uuid
    const operator: Option<Uuid>
    const source: LocationSource
    const startedAt: int
    var lastActivityAt: int
    var endedAt: Option<int>
    var endReason: Option<EndReason>
    var scanCount: nat

    function State(): Session
      reads this
    {
      Session(deviceId, locationId, operator, source, startedAt, lastActivityAt, endedAt, endReason, scanCount)
    }

    constructor (s: Session)
      ensures State() == s
    {
      deviceId, locationId, operator, source, startedAt := s.deviceId, s.locationId, s.operator, s.source, s.startedAt;
      lastActivityAt, endedAt, endReason, scanCount := s.lastActivityAt, s.endedAt, s.endReason, s.scanCount;
    }
  }

  method CloseScanSession(s: ScanSession, endedAt: int, reason: EndReason)
    modifies s
    ensures s.State() == Closed(old(s.State()), endedAt, reason)
  {
    if s.endedAt.None? {
      s.endedAt := Some(endedAt);
      s.endReason := Some(reason);
    }
  }

  /** Answers whether the session is closed by now, closing it when it has just run out. */
  method CloseIfExpired(s: ScanSession, now: int, st: Settings) returns (closed: bool)
    modifies s
    ensures var before := old(s.State());
            && closed == (!before.IsOpen() || Expiry(before, now, st).Some?)
            && s.State() == if before.IsOpen() && Expiry(before, now, st).Some?
                            then Closed(before, now, Expiry(before, now, st).value) else before
  {
    if s.endedAt.Some? {
      return true;
    }
    if now - s.lastActivityAt >= st.idleTimeout {
      CloseScanSession(s, now, IdleTimeout);
      return true;
    }
    if now - s.startedAt >= st.maxDuration {
      CloseScanSession(s, now, MaxDuration);
      return true;
    }
    return false;
  }

  method RequireScanAttribution(d: Device, s: ScanSession?, now: int, st: Settings)
    returns (r: Result<Attribution, SessionError>)
    modifies s
    ensures s == null ==> r == Err(if d.mode.Fixed? && d.locationId.None? then FixedNeedsLocation else NoOpenSession)
    ensures s != null ==> (s.State(), r) == Attributed(d, old(s.State()), now, st)
  {
    if d.mode.Fixed? {
      if d.locationId.None? {
        return Err(FixedNeedsLocation);
      }
      if s == null || s.endedAt.Some? {
        return Err(NoOpenSession);
      }
      if s.deviceId != d.id {
        return Err(WrongDevice);
      }
      if s.locationId != d.locationId.value {
        return Err(FixedLocationMismatch);
      }
      s.lastActivityAt := now;
      s.scanCount := s.scanCount + 1;
      return Ok(Attribution(d.locationId.value, DeviceFixed));
    }
    if s == null || s.endedAt.Some? {
      return Err(NoOpenSession);
    }
    if s.deviceId != d.id {
      return Err(WrongDevice);
    }
    var closed := CloseIfExpired(s, now, st);
    if closed {
      return Err(SessionClosed);
    }
    s.lastActivityAt := now;
    s.scanCount := s.scanCount + 1;
    return Ok(Attribution(s.locationId, s.source));
  }

  // ---------------------------------------------------------------------------------------------
  // Runs over the whole table. `grants` is the history of the attributions each session gave. An implicit session is
  // committed at once; `kept` tells whether the connection commits the rest of a scan or rolls it back.

  datatype Tracked = Tracked(session: Session, grants: seq<int>)

  datatype Table = Table(rows: seq<Tracked>, clock: int)

  datatype Step =
    | Open(d: Uuid, locationId: Uuid, operator: Option<Uuid>, source: LocationSource, now: int)
    | Scan(d: Uuid, now: int, kept: bool)
    | Close(i: nat, now: int, reason: EndReason)

  type Fleet = map<Uuid, Device>

  /** `active_scan_session_for_device`. */
  function ActiveFor(rows: seq<Tracked>, d: Uuid): (r: Option<nat>)
    ensures r.Some? ==> r.value < |rows| && rows[r.value].session.IsOpen() && rows[r.value].session.deviceId == d
    ensures r.None? ==> forall i | 0 <= i < |rows| :: !(rows[i].session.IsOpen() && rows[i].session.deviceId == d)
  {
    if rows == [] then None
    else
      var n := |rows| - 1;
      if rows[n].session.IsOpen() && rows[n].session.deviceId == d then Some(n) else ActiveFor(rows[..n], d)
  }

  /**
   The sessions service: an open session in the way is expired under the default settings or is a conflict. A refused
   request is rolled back, the expiry with it.
   */
  function OpenStep(fleet: Fleet, rows: seq<Tracked>, s: Step): (Option<SessionError>, seq<Tracked>)
    requires s.Open?
  {
    if s.d !in fleet then (Some(NotFound), rows)
    else
      var active := ActiveFor(rows, s.d);
      var cleared :=
        if active.None? then rows
        else
          var t := rows[active.value];
          var expiry := Expiry(t.session, s.now, DEFAULTS);
          if expiry.None? then rows
          else rows[active.value := t.(session := Closed(t.session, s.now, expiry.value))];
      if active.Some? && cleared[active.value].session.IsOpen() then (Some(AlreadyOpen), rows)
      else
        match Opened(fleet[s.d], s.locationId, s.operator, s.source, s.now, DEFAULTS)
        case Err(e) => (Some(e), rows)
        case Ok(session) => (None, cleared + [Tracked(session, [])])
  }

  /** The kiosk handler: a fixed device without an open session gets one implicitly. */
  function WithImplicit(d: Device, rows: seq<Tracked>, now: int, st: Settings): seq<Tracked> {
    if ActiveFor(rows, d.id).None? && d.mode.Fixed? && d.locationId.Some? then
      var implicit := Opened(d, d.locationId.value, None, DeviceFixed, now, st);
      if implicit.Ok? then rows + [Tracked(implicit.value, [])] else rows
    else rows
  }

  function ScanStep(fleet: Fleet, rows: seq<Tracked>, s: Step,
                    st: Settings): (Result<Attribution, SessionError>, seq<Tracked>)
    requires s.Scan?
  {
    if s.d !in fleet then (Err(NotFound), rows)
    else
      var d := fleet[s.d];
      var rows' := WithImplicit(d, rows, s.now, st);
      var active := ActiveFor(rows', d.id);
      if active.None? then
        (Err(if d.mode.Fixed? && d.locationId.None? then FixedNeedsLocation else NoOpenSession), rows')
      else
        var t := rows'[active.value];
        var (session, r) := Attributed(d, t.session, s.now, st);
        var after := rows'[active.value := Tracked(session, if r.Ok? then t.grants + [s.now] else t.grants)];
        (r, if s.kept then after else rows')
  }

  function Next(fleet: Fleet, st: Settings, t: Table, s: Step): Table {
    match s
    case Open(_, _, _, _, now) => Table(OpenStep(fleet, t.rows, s).1, now)
    case Scan(_, now, _) => Table(ScanStep(fleet, t.rows, s, st).1, now)
    case Close(i, now, reason) =>
      if i < |t.rows|
      then Table(t.rows[i := t.rows[i].(session := Closed(t.rows[i].session, now, reason))], now)
      else Table(t.rows, now)
  }

  function Run(fleet: Fleet, st: Settings, start: Table, steps: seq<Step>): Table {
    if steps == [] then start
    else Next(fleet, st, Run(fleet, st, start, steps[..|steps| - 1]), steps[|steps| - 1])
  }

  predicate Ordered(clock: int, steps: seq<Step>) {
    && (forall i | 0 <= i < |steps| :: clock <= steps[i].now)
    && (forall i, j | 0 <= i < j < |steps| :: steps[i].now <= steps[j].now)
  }

  predicate Keyed(fleet: Fleet) {
    forall id | id in fleet :: fleet[id].id == id
  }

  /** Grant `k` came before the idle timeout, counted from the last one, and before the maximum duration. */
  predicate GrantInTime(startedAt: int, grants: seq<int>, k: nat, st: Settings)
    requires k < |grants|
  {
    var previous := if k == 0 then startedAt else grants[k - 1];
    grants[k] - previous < st.idleTimeout && grants[k] - startedAt < st.maxDuration
  }

  predicate WithinLimits(startedAt: int, grants: seq<int>, st: Settings) {
    forall k | 0 <= k < |grants| :: GrantInTime(startedAt, grants, k, st)
  }

  predicate RowIsSound(fleet: Fleet, st: Settings, clock: int, t: Tracked) {
    && t.session.deviceId in fleet
    && t.session.scanCount == |t.grants|
    && t.session.lastActivityAt == (if t.grants == [] then t.session.startedAt else t.grants[|t.grants| - 1])
    && t.session.startedAt <= t.session.lastActivityAt <= clock
    && (fleet[t.session.deviceId].mode.Roaming? ==> WithinLimits(t.session.startedAt, t.grants, st))
  }

  predicate OneOpenPerDevice(rows: seq<Tracked>) {
    forall i, j | 0 <= i < j < |rows| && rows[i].session.IsOpen() && rows[j].session.IsOpen() ::
      rows[i].session.deviceId != rows[j].session.deviceId
  }

  predicate Sound(fleet: Fleet, st: Settings, t: Table) {
    && OneOpenPerDevice(t.rows)
    && forall i | 0 <= i < |t.rows| :: RowIsSound(fleet, st, t.clock, t.rows[i])
  }

  lemma RowAges(fleet: Fleet, st: Settings, clock: int, now: int, t: Tracked)
    requires RowIsSound(fleet, st, clock, t) && clock <= now
    ensures RowIsSound(fleet, st, now, t)
  {
  }

  lemma ScanRowStaysSound(fleet: Fleet, st: Settings, now: int, t: Tracked, d: Uuid)
    requires Keyed(fleet) && d in fleet && t.session.deviceId == d
    requires RowIsSound(fleet, st, now, t) && t.session.IsOpen()
    ensures var (session, r) := Attributed(fleet[d], t.session, now, st);
            RowIsSound(fleet, st, now, Tracked(session, if r.Ok? then t.grants + [now] else t.grants))
  {
    var (session, r) := Attributed(fleet[d], t.session, now, st);
    if fleet[d].mode.Roaming? && r.Ok? {
      var grants := t.grants + [now];
      forall k | 0 <= k < |grants|
        ensures GrantInTime(session.startedAt, grants, k, st)
      {
        assert k < |t.grants| ==> GrantInTime(session.startedAt, t.grants, k, st);
      }
    }
  }

  lemma ClosingKeepsRowSound(fleet: Fleet, st: Settings, now: int, t: Tracked, endedAt: int, reason: EndReason)
    requires RowIsSound(fleet, st, now, t)
    ensures RowIsSound(fleet, st, now, t.(session := Closed(t.session, endedAt, reason)))
  {
  }

  lemma NewRowIsSound(fleet: Fleet, st: Settings, d: Uuid, locationId: Uuid, operator: Option<Uuid>,
                      source: LocationSource, now: int, opening: Settings)
    requires Keyed(fleet) && d in fleet
    ensures var r := Opened(fleet[d], locationId, operator, source, now, opening);
            r.Ok? ==> RowIsSound(fleet, st, now, Tracked(r.value, [])) && r.value.deviceId == d && r.value.IsOpen()
  {
  }

  lemma OpenStaysSound(fleet: Fleet, st: Settings, rows: seq<Tracked>, s: Step)
    requires s.Open? && s.d in fleet && Keyed(fleet)
    requires Sound(fleet, st, Table(rows, s.now))
    ensures Sound(fleet, st, Table(OpenStep(fleet, rows, s).1, s.now))
  {
    NewRowIsSound(fleet, st, s.d, s.locationId, s.operator, s.source, s.now, DEFAULTS);
    var active := ActiveFor(rows, s.d);
    if active.Some? {
      var t := rows[active.value];
      var expiry := Expiry(t.session, s.now, DEFAULTS);
      if expiry.Some? {
        ClosingKeepsRowSound(fleet, st, s.now, t, s.now, expiry.value);
      }
    }
  }

  lemma StepStaysSound(fleet: Fleet, st: Settings, t: Table, s: Step)
    requires Keyed(fleet) && Sound(fleet, st, t) && t.clock <= s.now
    ensures Sound(fleet, st, Next(fleet, st, t, s))
  {
    forall i | 0 <= i < |t.rows|
      ensures RowIsSound(fleet, st, s.now, t.rows[i])
    {
      RowAges(fleet, st, t.clock, s.now, t.rows[i]);
    }
    match s {
      case Open(d, locationId, operator, source, now) =>
        if d in fleet {
          OpenStaysSound(fleet, st, t.rows, s);
        }
      case Scan(d, now, _) =>
        if d in fleet {
          ScanStaysSound(fleet, st, t.rows, s);
        }
      case Close(i, now, reason) =>
        if i < |t.rows| {
          ClosingKeepsRowSound(fleet, st, now, t.rows[i], now, reason);
        }
    }
  }

  lemma ScanStaysSound(fleet: Fleet, st: Settings, rows: seq<Tracked>, s: Step)
    requires s.Scan? && s.d in fleet && Keyed(fleet)
    requires Sound(fleet, st, Table(rows, s.now))
    ensures Sound(fleet, st, Table(ScanStep(fleet, rows, s, st).1, s.now))
  {
    var d := fleet[s.d];
    if d.locationId.Some? {
      NewRowIsSound(fleet, st, s.d, d.locationId.value, None, DeviceFixed, s.now, st);
    }
    var rows' := WithImplicit(d, rows, s.now, st);
    assert Sound(fleet, st, Table(rows', s.now));
    var active := ActiveFor(rows', s.d);
    if active.Some? {
      ScanRowStaysSound(fleet, st, s.now, rows'[active.value], s.d);
    }
  }

  /**
   In every state any run reaches: one open session per device, every count equal to the attributions granted, and
   on roaming devices the grants inside both limits.
   */
  lemma {:induction false} RunsStaySound(fleet: Fleet, st: Settings, start: Table, steps: seq<Step>)
    requires Keyed(fleet) && Sound(fleet, st, start) && Ordered(start.clock, steps)
    ensures var end := Run(fleet, st, start, steps);
            && Sound(fleet, st, end)
            && end.clock == if steps == [] then start.clock else steps[|steps| - 1].now
  {
    if steps != [] {
      var init := steps[..|steps| - 1];
      RunsStaySound(fleet, st, start, init);
      StepStaysSound(fleet, st, Run(fleet, st, start, init), steps[|steps| - 1]);
    }
  }

  lemma StepKeepsClosed(fleet: Fleet, st: Settings, t: Table, step: Step, i: nat)
    requires i < |t.rows| && !t.rows[i].session.IsOpen()
    ensures var after := Next(fleet, st, t, step);
            i < |after.rows| && after.rows[i] == t.rows[i]
  {
  }

  /** A closed session is final: no later step changes any field of it, nor its grants. */
  lemma {:induction false} ClosedIsFinal(fleet: Fleet, st: Settings, start: Table, steps: seq<Step>, i: nat)
    requires i < |start.rows| && !start.rows[i].session.IsOpen()
    ensures var end := Run(fleet, st, start, steps);
            i < |end.rows| && end.rows[i] == start.rows[i]
  {
    if steps != [] {
      var init := steps[..|steps| - 1];
      ClosedIsFinal(fleet, st, start, init, i);
      StepKeepsClosed(fleet, st, Run(fleet, st, start, init), steps[|steps| - 1], i);
    }
  }

  // ---------------------------------------------------------------------------------------------
  // When a request is granted

  predicate IsOpenFor(rows: seq<Tracked>, d: Uuid, i: nat) {
    i < |rows| && rows[i].session.IsOpen() && rows[i].session.deviceId == d
  }

  lemma ActiveIsTheOpenOne(rows: seq<Tracked>, d: Uuid, i: nat)
    requires OneOpenPerDevice(rows) && IsOpenFor(rows, d, i)
    ensures ActiveFor(rows, d) == Some(i)
  {
  }

  /** Idle for less than the timeout and open for less than the maximum. */
  predicate IsInTime(s: Session, now: int, st: Settings) {
    now < s.lastActivityAt + st.idleTimeout && now < s.startedAt + st.maxDuration
  }

  /** A scan that comes upon an open session. */
  lemma ScanOfAnOpenSession(fleet: Fleet, st: Settings, rows: seq<Tracked>, s: Step, i: nat)
    requires s.Scan? && s.d in fleet && Keyed(fleet) && OneOpenPerDevice(rows) && IsOpenFor(rows, s.d, i)
    ensures var (r, after) := ScanStep(fleet, rows, s, st);
            var d, was := fleet[s.d], rows[i].session;
            var granted := if d.mode.Fixed? then d.locationId == Some(was.locationId) else IsInTime(was, s.now, st);
            && (r.Ok? <==> granted)
            && (granted ==>
                  && r.value.locationId == was.locationId
                  && r.value.source == (if d.mode.Fixed? then DeviceFixed else was.source)
                  && (s.kept ==>
                        after == rows[i := Tracked(was.(lastActivityAt := s.now, scanCount := was.scanCount + 1),
                                                   rows[i].grants + [s.now])]))
            && (!granted && d.mode.Fixed? ==>
                  && r == Err(if d.locationId.None? then FixedNeedsLocation else FixedLocationMismatch)
                  && after == rows)
            && (!granted && d.mode.Roaming? ==>
                  var reason := if s.now < was.lastActivityAt + st.idleTimeout then MaxDuration else IdleTimeout;
                  var closed := was.(endedAt := Some(s.now), endReason := Some(reason));
                  && r == Err(SessionClosed)
                  && after == if s.kept then rows[i := rows[i].(session := closed)] else rows)
  {
    ActiveIsTheOpenOne(rows, s.d, i);
  }

  /** A scan that comes upon none: a roaming device is refused, a fixed one is granted its own location. */
  lemma ScanWithoutASession(fleet: Fleet, st: Settings, rows: seq<Tracked>, s: Step)
    requires s.Scan? && s.d in fleet && Keyed(fleet) && forall i: nat :: !IsOpenFor(rows, s.d, i)
    ensures var (r, after) := ScanStep(fleet, rows, s, st);
            var d := fleet[s.d];
            && (d.mode.Roaming? ==> r == Err(NoOpenSession) && after == rows)
            && (d.mode.Fixed? && d.locationId.None? ==> r == Err(FixedNeedsLocation) && after == rows)
            && (d.mode.Fixed? && d.locationId.Some? ==>
                  && r == Ok(Attribution(d.locationId.value, DeviceFixed))
                  && |after| == |rows| + 1 && after[..|rows|] == rows
                  && var n := after[|rows|].session;
                  && n.IsOpen() && n.deviceId == s.d && n.locationId == d.locationId.value
                  && n.startedAt == n.lastActivityAt == s.now && n.scanCount == (if s.kept then 1 else 0))
  {
    assert ActiveFor(rows, s.d).None? by {
      if ActiveFor(rows, s.d).Some? {
        assert IsOpenFor(rows, s.d, ActiveFor(rows, s.d).value);
      }
    }
  }

  /** The device's own location, or with an operator; the defaults ask for no geofence. */
  predicate MayOpen(d: Device, locationId: Uuid, operator: Option<Uuid>) {
    if d.mode.Fixed? then d.locationId == Some(locationId) else operator.Some?
  }

  /** An opening succeeds exactly if the device may open there and its open session, if any, has run out by then. */
  lemma OpeningSucceedsExactly(fleet: Fleet, rows: seq<Tracked>, s: Step)
    requires s.Open? && Keyed(fleet) && OneOpenPerDevice(rows)
    ensures var (error, after) := OpenStep(fleet, rows, s);
            var free := forall i: nat | IsOpenFor(rows, s.d, i) :: !IsInTime(rows[i].session, s.now, DEFAULTS);
            && (error.None? <==> s.d in fleet && free && MayOpen(fleet[s.d], s.locationId, s.operator))
            && (error.Some? ==> after == rows)
            && (error == Some(NotFound) <==> s.d !in fleet)
            && (error == Some(AlreadyOpen) <==> s.d in fleet && !free)
  {
    var active := ActiveFor(rows, s.d);
    if active.Some? {
      assert IsOpenFor(rows, s.d, active.value);
      forall i: nat | IsOpenFor(rows, s.d, i)
        ensures i == active.value
      {
        ActiveIsTheOpenOne(rows, s.d, i);
      }
    }
  }

  /** What a successful opening leaves: the old session closed for the reason it ran out, and a new one at the end. */
  lemma OpeningLeaves(fleet: Fleet, rows: seq<Tracked>, s: Step)
    requires s.Open? && Keyed(fleet) && OneOpenPerDevice(rows) && OpenStep(fleet, rows, s).0.None?
    ensures var after := OpenStep(fleet, rows, s).1;
            && |after| == |rows| + 1
            && (forall i | 0 <= i < |rows| && !IsOpenFor(rows, s.d, i) :: after[i] == rows[i])
            && (forall i: nat | IsOpenFor(rows, s.d, i) ::
                  var was := rows[i].session;
                  var reason := if s.now < was.lastActivityAt + 20 * 60 then MaxDuration else IdleTimeout;
                  after[i] == rows[i].(session := was.(endedAt := Some(s.now), endReason := Some(reason))))
            && var n := after[|rows|];
            && n.grants == [] && n.session.IsOpen() && n.session.endReason.None? && n.session.scanCount == 0
            && n.session.deviceId == s.d && n.session.locationId == s.locationId && n.session.operator == s.operator
            && n.session.source == (if fleet[s.d].mode.Fixed? then DeviceFixed else s.source)
            && n.session.startedAt == n.session.lastActivityAt == s.now
  {
    forall i: nat | IsOpenFor(rows, s.d, i)
      ensures ActiveFor(rows, s.d) == Some(i)
    {
      ActiveIsTheOpenOne(rows, s.d, i);
    }
    var active := ActiveFor(rows, s.d);
    assert active.Some? ==> IsOpenFor(rows, s.d, active.value);
  }
}
