/**
 Bursts and check-ins on the kiosk socket: which event row is written under which idempotency key, and what a
 repeated message is answered (backend/app/api/ws_scan.py).

 Whether the scan session grants the attribution, the person behind a PIN and the clock are inputs. `fault` stands
 for an unexpected exception, before or after the row is committed; the handler answers both with an error.
 */
module ScanReplay {
  import opened Basics
  import opened EventKeys
  import opened FrameBursts

  datatype EventRow = EventRow(outcome: EventOutcome, personId: Option<Uuid>, direction: string, occurredAt: int)

  type Rows = map<string, EventRow>

  datatype Reply =
    | Outcome(row: EventRow, committed: bool)
    | Error(code: ErrorCode)

  datatype Fault = NoFault | BeforeCommit | AfterCommit

  datatype Message =
    | Burst(key: string, granted: bool, frames: seq<Frame>, at: int, fault: Fault)
    | CheckIn(key: string, granted: bool, person: Option<Uuid>, direction: string, at: int, fault: Fault)

  // ---------------------------------------------------------------------------------------------
  // Keys

  function OutcomeOf(code: ErrorCode): EventOutcome
    requires IsRecorded(code)
  {
    match code
    case Ambiguous => WasAmbiguous
    case LowConfidence => WasLowConfidence
    case UnknownFace => WasUnknownFace
  }

  function LikeMatches(rows: Rows, key: string): set<string> {
    set s | s in rows && Like(s, key + "-%")
  }

  // ---------------------------------------------------------------------------------------------
  // Handling

  /** The insert fails on an empty or overlong key and on one that is taken. */
  function Insert(rows: Rows, key: string, row: EventRow): Option<Rows> {
    if key == "" || |key| > WIDEST_KEY || key in rows then None else Some(rows[key := row])
  }

  function Committed(rows: Rows, key: string, row: EventRow, fault: Fault): (Rows, Reply) {
    match Insert(rows, key, row)
    case None => (rows, Error(ScanBackendUnavailable))
    case Some(after) => (after, if fault.AfterCommit? then Error(ScanBackendUnavailable) else Outcome(row, true))
  }

  function Rejection(rows: Rows, key: string, code: ErrorCode, at: int): (Rows, Reply) {
    if !IsRecorded(code) then (rows, Error(code))
    else
      match Insert(rows, FailureKey(key, code), EventRow(OutcomeOf(code), None, "in", at))
      case None => (rows, Error(ScanBackendUnavailable))
      case Some(after) => (after, Error(code))
  }

  ghost function HandledBurst(rows: Rows, m: Message): (Rows, Reply)
    requires m.Burst?
  {
    if !(1 <= |m.frames| <= 5) then (rows, Error(ValidationError))
    else if m.fault.BeforeCommit? then (rows, Error(ScanBackendUnavailable))
    else if m.key in rows then (rows, Outcome(rows[m.key], true))
    else if exists s :: LikeMatches(rows, m.key) == {s} then
      var s :| LikeMatches(rows, m.key) == {s};
      (rows, Error(CodeOf(s)))
    else if LikeMatches(rows, m.key) != {} || !m.granted then (rows, Error(ScanBackendUnavailable))
    else
      match Combine(m.frames)
      case Accept(o) => Committed(rows, m.key, EventRow(o.outcome, o.personId, "in", o.occurredAt), m.fault)
      case Reject(e) => Rejection(rows, m.key, e.code, m.at)
  }

  function HandledCheckIn(rows: Rows, m: Message): (Rows, Reply)
    requires m.CheckIn?
  {
    if m.fault.BeforeCommit? then (rows, Error(ScanBackendUnavailable))
    else if m.key in rows then (rows, Outcome(rows[m.key], true))
    else if m.person.None? then (rows, Error(UnknownFace))
    else if !m.granted then (rows, Error(ScanBackendUnavailable))
    else Committed(rows, m.key, EventRow(WasAccepted, m.person, m.direction, m.at), m.fault)
  }

  ghost function Handled(rows: Rows, m: Message): (Rows, Reply) {
    if m.Burst? then HandledBurst(rows, m) else HandledCheckIn(rows, m)
  }

  lemma SingletonIsOne(s: set<string>)
    ensures |s| == 1 <==> exists x :: s == {x}
  {
    if |s| == 1 {
      var x :| x in s;
      assert |s - {x}| == 0;
      assert s == {x};
    }
  }

  class KioskSocket {
    var rows: Rows

    constructor ()
      ensures rows == map[]
    {
      rows := map[];
    }

    /** Adds the row and commits; on a violated constraint nothing is kept. */
    method Add(key: string, row: EventRow) returns (ok: bool)
      modifies this
      ensures ok <==> Insert(old(rows), key, row).Some?
      ensures rows == if ok then Insert(old(rows), key, row).value else old(rows)
    {
      ok := key != "" && |key| <= WIDEST_KEY && key !in rows;
      if ok {
        rows := rows[key := row];
      }
    }

    method OnFrameBurst(m: Message) returns (reply: Reply)
      requires m.Burst?
      modifies this
      ensures (rows, reply) == HandledBurst(old(rows), m)
    {
      if |m.frames| < 1 || |m.frames| > 5 {
        return Error(ValidationError);
      }
      if m.fault.BeforeCommit? {
        return Error(ScanBackendUnavailable);
      }
      if m.key in rows {
        return Outcome(rows[m.key], true);
      }
      var failures := LikeMatches(rows, m.key);
      SingletonIsOne(failures);
      if |failures| > 1 {
        return Error(ScanBackendUnavailable);
      }
      if failures != {} {
        var found :| found in failures;
        return Error(CodeOf(found));
      }
      if !m.granted {
        return Error(ScanBackendUnavailable);
      }
      var outputs, errors := RunFrames(m.frames);
      match CombineLists(outputs, errors, |m.frames|) {
        case Accept(o) =>
          var row := EventRow(o.outcome, o.personId, "in", o.occurredAt);
          var ok := Add(m.key, row);
          reply := if ok && !m.fault.AfterCommit? then Outcome(row, true) else Error(ScanBackendUnavailable);
        case Reject(e) =>
          reply := Error(e.code);
          if IsRecorded(e.code) {
            var ok := Add(FailureKey(m.key, e.code), EventRow(OutcomeOf(e.code), None, "in", m.at));
            if !ok {
              reply := Error(ScanBackendUnavailable);
            }
          }
      }
    }

    method OnCheckIn(m: Message) returns (reply: Reply)
      requires m.CheckIn?
      modifies this
      ensures (rows, reply) == HandledCheckIn(old(rows), m)
    {
      if m.fault.BeforeCommit? {
        return Error(ScanBackendUnavailable);
      }
      if m.key in rows {
        return Outcome(rows[m.key], true);
      }
      if m.person.None? {
        return Error(UnknownFace);
      }
      if !m.granted {
        return Error(ScanBackendUnavailable);
      }
      var row := EventRow(WasAccepted, m.person, m.direction, m.at);
      var ok := Add(m.key, row);
      return if ok && !m.fault.AfterCommit? then Outcome(row, true) else Error(ScanBackendUnavailable);
    }
  }

  // ---------------------------------------------------------------------------------------------
  // One row a burst

  predicate OneRow(rows: Rows, key: string) {
    forall s, t | s in rows && t in rows && BelongsTo(s, key) && BelongsTo(t, key) :: s == t
  }

  predicate KeysFit(rows: Rows) {
    forall s | s in rows :: |s| <= WIDEST_KEY
  }

  /** How one message may change the rows: not at all, or by one new row that belongs to its own key. */
  ghost predicate AddsOne(rows: Rows, after: Rows, m: Message) {
    || after == rows
    || (&& m.key !in rows && m.key in after && |m.key| <= WIDEST_KEY && after == rows[m.key := after[m.key]]
        && (m.Burst? ==> LikeMatches(rows, m.key) == {}))
    || (m.Burst? && m.key !in rows && LikeMatches(rows, m.key) == {}
        && exists code, at | IsRecorded(code) && |FailureKey(m.key, code)| <= WIDEST_KEY ::
          after == rows[FailureKey(m.key, code) := EventRow(OutcomeOf(code), None, "in", at)])
  }

  lemma HandlingAddsOne(rows: Rows, m: Message)
    ensures AddsOne(rows, Handled(rows, m).0, m)
  {
  }

  lemma NoBelongingRows(rows: Rows, key: string, s: string)
    requires KeysFit(rows) && FindsItself(key)
    requires key !in rows && LikeMatches(rows, key) == {} && s in rows
    ensures !BelongsTo(s, key)
  {
    assert s !in LikeMatches(rows, key);
  }

  lemma HandlingKeepsOneRow(rows: Rows, m: Message, key: string)
    requires KeysFit(rows) && FindsItself(key) && OneRow(rows, key)
    requires |m.key| == |key| && (m.CheckIn? ==> m.key != key)
    ensures KeysFit(Handled(rows, m).0) && OneRow(Handled(rows, m).0, key)
  {
    HandlingAddsOne(rows, m);
    var after := Handled(rows, m).0;
    forall s, t | s in after && t in after && BelongsTo(s, key) && BelongsTo(t, key)
      ensures s == t
    {
      if s in rows && t in rows {
      } else if m.key == key {
        if s in rows {
          NoBelongingRows(rows, key, s);
        }
        if t in rows {
          NoBelongingRows(rows, key, t);
        }
      } else {
        ForeignKeysDoNotBelong(key, m.key, Ambiguous);
        ForeignKeysDoNotBelong(key, m.key, LowConfidence);
        ForeignKeysDoNotBelong(key, m.key, UnknownFace);
      }
    }
  }

  ghost function Run(rows: Rows, messages: seq<Message>): Rows {
    if messages == [] then rows
    else Handled(Run(rows, messages[..|messages| - 1]), messages[|messages| - 1]).0
  }

  predicate KeysHaveLength(messages: seq<Message>, n: nat) {
    forall i | 0 <= i < |messages| :: |messages[i].key| == n
  }

  predicate NoCheckInReuses(messages: seq<Message>, key: string) {
    forall i | 0 <= i < |messages| :: messages[i].CheckIn? ==> messages[i].key != key
  }

  /** A burst's key never has both a success row and a failure row, nor two failure rows. */
  lemma {:induction false} OneRowPerBurst(messages: seq<Message>, key: string)
    requires FindsItself(key) && KeysHaveLength(messages, |key|) && NoCheckInReuses(messages, key)
    ensures KeysFit(Run(map[], messages)) && OneRow(Run(map[], messages), key)
  {
    if messages != [] {
      var rest, m := messages[..|messages| - 1], messages[|messages| - 1];
      OneRowPerBurst(rest, key);
      HandlingKeepsOneRow(Run(map[], rest), m, key);
    }
  }

  /** In no run of messages with keys of one length does the burst's key get a second row. */
  ghost predicate StaysSingle(key: string) {
    forall messages | KeysHaveLength(messages, |key|) && NoCheckInReuses(messages, key) ::
      OneRow(Run(map[], messages), key)
  }

  function RejectedBurst(key: string, code: ErrorCode): Message {
    Burst(key, true, [Rejected(DomainError(code, ""))], 0, NoFault)
  }

  function AcceptedBurst(key: string, p: Uuid): Message {
    Burst(key, true, [Scanned(ScanOutput(Some(p), WasAccepted, None, 0))], 0, NoFault)
  }

  lemma RunOfOne(m: Message)
    ensures Run(map[], [m]) == Handled(map[], m).0
  {
    assert [m][..0] == [];
  }

  lemma RunOfTwo(m: Message, n: Message)
    ensures Run(map[], [m, n]) == Handled(Run(map[], [m]), n).0
  {
    assert [m, n][..1] == [m];
  }

  lemma FirstRejection(key: string, code: ErrorCode)
    requires IsRecorded(code) && |FailureKey(key, code)| <= WIDEST_KEY
    ensures Run(map[], [RejectedBurst(key, code)]) ==
            map[FailureKey(key, code) := EventRow(OutcomeOf(code), None, "in", 0)]
  {
    RunOfOne(RejectedBurst(key, code));
    SoleRejection(DomainError(code, ""));
    assert LikeMatches(map[], key) == {};
  }

  lemma FreshMatchIsStored(rows: Rows, key: string, p: Uuid)
    requires key !in rows && LikeMatches(rows, key) == {} && 0 < |key| <= WIDEST_KEY
    ensures var row := EventRow(WasAccepted, Some(p), "in", 0);
            Handled(rows, AcceptedBurst(key, p)) == (rows[key := row], Outcome(row, true))
  {
    SoleMatch(ScanOutput(Some(p), WasAccepted, None, 0));
  }

  lemma TwoRowsAreNotOne(rows: Rows, key: string, code: ErrorCode)
    requires IsRecorded(code) && key in rows && FailureKey(key, code) in rows
    ensures !OneRow(rows, key)
  {
    assert |FailureKey(key, code)| > |key|;
    assert BelongsTo(key, key) && IsFailureOf(FailureKey(key, code), key);
  }

  lemma MatchAfterRejection(key: string, code: ErrorCode)
    requires key != "" && IsRecorded(code) && |FailureKey(key, code)| <= WIDEST_KEY
    requires !Like(FailureKey(key, code), key + "-%")
    ensures var rows := Run(map[], [RejectedBurst(key, code), AcceptedBurst(key, 0)]);
            key in rows && FailureKey(key, code) in rows
  {
    FirstRejection(key, code);
    RunOfTwo(RejectedBurst(key, code), AcceptedBurst(key, 0));
    var rows := Run(map[], [RejectedBurst(key, code)]);
    assert |FailureKey(key, code)| > |key|;
    assert key !in rows && LikeMatches(rows, key) == {};
    FreshMatchIsStored(rows, key, 0);
  }

  lemma UnfoundRejectionGetsASecondRow(key: string, code: ErrorCode)
    requires key != "" && IsRecorded(code) && |FailureKey(key, code)| <= WIDEST_KEY
    requires !Like(FailureKey(key, code), key + "-%")
    ensures !StaysSingle(key)
  {
    var messages := [RejectedBurst(key, code), AcceptedBurst(key, 0)];
    MatchAfterRejection(key, code);
    TwoRowsAreNotOne(Run(map[], messages), key, code);
    assert KeysHaveLength(messages, |key|) && NoCheckInReuses(messages, key);
  }

  /** A burst's key stays single in every run exactly if its own lookup finds the failure rows it can leave. */
  lemma OneRowExactly(key: string)
    ensures StaysSingle(key) <==> FindsItself(key)
  {
    NoBackslashFindsItself("");
    if FindsItself(key) {
      forall messages | KeysHaveLength(messages, |key|) && NoCheckInReuses(messages, key)
        ensures OneRow(Run(map[], messages), key)
      {
        OneRowPerBurst(messages, key);
      }
    } else {
      var code :| IsRecorded(code) && |FailureKey(key, code)| <= WIDEST_KEY && !Like(FailureKey(key, code), key + "-%");
      UnfoundRejectionGetsASecondRow(key, code);
    }
  }

  /** A backslash can hide a key's own rejection: it makes the lookup skip itself. */
  lemma BackslashHidesTheRejection()
    ensures !StaysSingle("a\\b")
  {
    var s, p := FailureKey("a\\b", UnknownFace), "a\\b-%";
    assert "a\\b" + "-%" == p;
    assert s[0] == p[0] && s[1..][0] == '\\' && p[1..][0] == '\\' && p[1..][1] == 'b';
    assert !Like(s[1..], p[1..]);
    assert !Like(s, p);
    OneRowExactly("a\\b");
  }

  // ---------------------------------------------------------------------------------------------
  // Repeated bursts

  predicate RowIsShaped(rows: Rows, s: string, n: nat)
    requires s in rows
  {
    |s| == n || (|s| > n && exists code | IsRecorded(code) ::
                   s == FailureKey(s[..n], code) && rows[s].outcome == OutcomeOf(code))
  }

  predicate RowsAreShaped(rows: Rows, n: nat) {
    forall s | s in rows :: RowIsShaped(rows, s, n)
  }

  lemma HandlingKeepsShape(rows: Rows, m: Message, n: nat)
    requires RowsAreShaped(rows, n) && |m.key| == n
    ensures RowsAreShaped(Handled(rows, m).0, n)
  {
    HandlingAddsOne(rows, m);
    var after := Handled(rows, m).0;
    forall s | s in after
      ensures RowIsShaped(after, s, n)
    {
      if s in rows && after[s] == rows[s] {
        assert RowIsShaped(rows, s, n);
      } else if s != m.key {
        var code, at :| IsRecorded(code)
                        && after == rows[FailureKey(m.key, code) := EventRow(OutcomeOf(code), None, "in", at)];
        assert s == FailureKey(m.key, code);
        assert s[..n] == m.key;
      }
    }
  }

  lemma {:induction false} RunsKeepShape(messages: seq<Message>, n: nat)
    requires KeysHaveLength(messages, n)
    ensures RowsAreShaped(Run(map[], messages), n)
  {
    if messages != [] {
      RunsKeepShape(messages[..|messages| - 1], n);
      HandlingKeepsShape(Run(map[], messages[..|messages| - 1]), messages[|messages| - 1], n);
    }
  }

  lemma FailuresAreFound(rows: Rows, key: string, s: string)
    requires Plain(key) && RowsAreShaped(rows, |key|)
    ensures s in LikeMatches(rows, key) <==> s in rows && IsFailureOf(s, key)
  {
    var n := |key|;
    LookupIsPrefix(s, key);
    if s in rows && StartsWith(s, key + "-") {
      assert s[..n] == (key + "-")[..n] == key by {
        assert s[..n] == s[..n + 1][..n];
      }
      assert RowIsShaped(rows, s, n);
      assert IsFailureOf(s, key);
    }
    if IsFailureOf(s, key) {
      assert s[..n + 1] == key + "-";
    }
  }

  lemma HandlingKeepsRows(rows: Rows, m: Message, s: string)
    requires s in rows
    ensures s in Handled(rows, m).0 && Handled(rows, m).0[s] == rows[s]
  {
  }

  lemma {:induction false} RunsKeepRows(rows: Rows, messages: seq<Message>, s: string)
    requires s in rows
    ensures s in Run(rows, messages) && Run(rows, messages)[s] == rows[s]
  {
    if messages != [] {
      RunsKeepRows(rows, messages[..|messages| - 1], s);
      HandlingKeepsRows(Run(rows, messages[..|messages| - 1]), messages[|messages| - 1], s);
    }
  }

  lemma {:induction false} RunsAppend(rows: Rows, messages: seq<Message>, more: seq<Message>)
    ensures Run(Run(rows, messages), more) == Run(rows, messages + more)
  {
    if more == [] {
      assert messages + more == messages;
    } else {
      RunsAppend(rows, messages, more[..|more| - 1]);
      assert (messages + more)[..|messages + more| - 1] == messages + more[..|more| - 1];
    }
  }

  /** What the row of a key says was decided. */
  function RecordedReply(rows: Rows, key: string, s: string): Reply
    requires s in rows
  {
    if s == key then Outcome(rows[key], true) else Error(CodeOf(s))
  }

  predicate IsWellFormed(m: Message) {
    m.Burst? && 1 <= |m.frames| <= 5 && !m.fault.BeforeCommit?
  }

  /** A burst whose key is on record adds no row and is answered what the record says, whatever its frames. */
  lemma ReplayAnswersTheRecord(rows: Rows, m: Message, s: string)
    requires RowsAreShaped(rows, |m.key|) && Plain(m.key) && OneRow(rows, m.key)
    requires IsWellFormed(m) && s in rows && BelongsTo(s, m.key)
    ensures Handled(rows, m) == (rows, RecordedReply(rows, m.key, s))
  {
    if s != m.key {
      assert m.key !in rows by {
        assert m.key in rows ==> BelongsTo(m.key, m.key);
      }
      forall t
        ensures t in LikeMatches(rows, m.key) <==> t == s
      {
        FailuresAreFound(rows, m.key, t);
      }
      assert LikeMatches(rows, m.key) == {s};
    }
  }

  /** The replies that settle a burst: a committed outcome, or a rejection that is recorded. */
  predicate Settles(reply: Reply) {
    match reply
    case Outcome(_, committed) => committed
    case Error(code) => IsRecorded(code)
  }

  /** A rejection under this key is read back as it was. */
  predicate ReadsBack(key: string, reply: Reply) {
    reply.Error? && IsRecorded(reply.code) ==> !MentionsAnEarlierCode(key, reply.code)
  }

  lemma SettledIsOnRecord(rows: Rows, m: Message) returns (s: string)
    requires RowsAreShaped(rows, |m.key|) && Plain(m.key) && OneRow(rows, m.key)
    requires IsWellFormed(m) && Settles(Handled(rows, m).1) && ReadsBack(m.key, Handled(rows, m).1)
    ensures var (after, reply) := Handled(rows, m);
            s in after && BelongsTo(s, m.key) && RecordedReply(after, m.key, s) == reply
  {
    var (after, reply) := Handled(rows, m);
    if m.key in rows {
      s := m.key;
    } else if t :| LikeMatches(rows, m.key) == {t} {
      s := t;
      assert s in LikeMatches(rows, m.key);
      FailuresAreFound(rows, m.key, s);
    } else if reply.Outcome? {
      s := m.key;
    } else {
      s := FailureKey(m.key, reply.code);
      RecordedCodeIsReadBack(m.key, reply.code);
    }
  }

  /** Once a burst is settled, every later burst under its key gets the same answer and changes nothing. */
  lemma SettledRepliesNeverChange(messages: seq<Message>, m: Message, more: seq<Message>, again: Message)
    requires Plain(m.key) && KeysHaveLength(messages + [m] + more, |m.key|)
             && NoCheckInReuses(messages + [m] + more, m.key)
    requires IsWellFormed(m) && IsWellFormed(again) && again.key == m.key
    requires var reply := Handled(Run(map[], messages), m).1; Settles(reply) && ReadsBack(m.key, reply)
    ensures var rows := Run(map[], messages + [m] + more);
            Handled(rows, again) == (rows, Handled(Run(map[], messages), m).1)
  {
    var all := messages + [m] + more;
    var start, rows := Run(map[], messages), Run(map[], all);
    assert all[|messages|] == m && all[..|messages|] == messages;
    NoBackslashFindsItself(m.key);
    OneRowPerBurst(messages, m.key);
    OneRowPerBurst(all, m.key);
    RunsKeepShape(messages, |m.key|);
    RunsKeepShape(all, |m.key|);
    var s := SettledIsOnRecord(start, m);
    assert Run(map[], messages + [m]) == Handled(start, m).0 by {
      assert (messages + [m])[..|messages|] == messages;
    }
    RunsAppend(map[], messages + [m], more);
    RunsKeepRows(Handled(start, m).0, more, s);
    ReplayAnswersTheRecord(rows, again, s);
  }

  /** Every committed reply names a row that is stored under the message's own key, for any keys and any rows. */
  lemma CommittedIsDurable(rows: Rows, m: Message)
    ensures var (after, reply) := Handled(rows, m);
            reply.Outcome? ==> reply.committed && m.key in after && after[m.key] == reply.row
  {
  }

  predicate IsStorable(key: string) {
    0 < |key| <= WIDEST_KEY - 15
  }

  /** The row an accepted burst leaves: of a best match of the burst, all of whose matches are of one person. */
  ghost predicate IsMatchRow(row: EventRow, frames: seq<Frame>) {
    && !HasError(frames, LivenessFailed) && row.personId.Some? && MatchesOnly(frames, row.personId.value)
    && row.direction == "in"
    && exists o | HasMatch(frames, o) :: row.outcome == o.outcome && row.personId == o.personId
                                         && row.occurredAt == o.occurredAt && IsBestMatch(frames, o)
  }

  ghost predicate IsBestMatch(frames: seq<Frame>, o: ScanOutput) {
    forall other | HasMatch(frames, other) :: Score(other) <= Score(o)
  }

  /** The row a recorded rejection leaves: nobody's, with the outcome of the code read off the frames. */
  predicate IsRejectionRow(row: EventRow, frames: seq<Frame>, at: int) {
    && row.personId.None? && row.direction == "in" && row.occurredAt == at
    && match RejectionRecorded(frames) {
         case Some(Ambiguous) => row.outcome == WasAmbiguous
         case Some(LowConfidence) => row.outcome == WasLowConfidence
         case Some(UnknownFace) => row.outcome == WasUnknownFace
         case _ => false
       }
  }

  lemma AcceptedRowIsAMatch(frames: seq<Frame>)
    requires Combine(frames).Accept?
    ensures var o := Combine(frames).output; IsMatchRow(EventRow(o.outcome, o.personId, "in", o.occurredAt), frames)
  {
    var o := Combine(frames).output;
    AcceptedMatchIsTheBest(frames, o);
    AcceptedExactly(frames, o.personId.value);
    forall other | HasMatch(frames, other)
      ensures Score(other) <= Score(o)
    {
      AcceptedMatchIsTheBest(frames, other);
    }
    assert IsBestMatch(frames, o);
  }

  lemma RejectedRowIsRecorded(frames: seq<Frame>, at: int)
    requires Combine(frames).Reject? && IsRecorded(Combine(frames).error.code)
    ensures RejectionRecorded(frames) == Some(Combine(frames).error.code)
    ensures IsRejectionRow(EventRow(OutcomeOf(Combine(frames).error.code), None, "in", at), frames, at)
  {
    RejectionIsReadOff(frames);
  }

  lemma AcceptanceIsReadOff(frames: seq<Frame>)
    ensures Combine(frames).Accept? <==> exists p :: !HasError(frames, LivenessFailed)
                                                     && (exists o :: HasMatch(frames, o)) && MatchesOnly(frames, p)
  {
    if Combine(frames).Accept? {
      AcceptedMatchIsTheBest(frames, Combine(frames).output);
      AcceptedExactly(frames, Combine(frames).output.personId.value);
    }
    forall p | !HasError(frames, LivenessFailed) && (exists o :: HasMatch(frames, o)) && MatchesOnly(frames, p)
      ensures Combine(frames).Accept?
    {
      AcceptedExactly(frames, p);
    }
  }

  /**
   A burst of an unrecorded key with no fault leaves exactly one new row if its matches agree and no frame fails
   liveness, or if it has a code to record, and none otherwise.
   */
  lemma FreshBurstIsRecorded(rows: Rows, m: Message)
    requires IsWellFormed(m) && m.granted && m.fault.NoFault? && IsStorable(m.key)
    requires m.key !in rows && LikeMatches(rows, m.key) == {}
    requires forall s | s in rows :: !IsFailureOf(s, m.key)
    ensures var (after, reply) := Handled(rows, m);
            var accepted := exists p :: !HasError(m.frames, LivenessFailed)
                                        && (exists o :: HasMatch(m.frames, o)) && MatchesOnly(m.frames, p);
            && (accepted ==>
                  && m.key in after && IsMatchRow(after[m.key], m.frames) && after == rows[m.key := after[m.key]]
                  && reply == Outcome(after[m.key], true))
            && (!accepted && RejectionRecorded(m.frames).Some? ==>
                  var code := RejectionRecorded(m.frames).value;
                  var s := FailureKey(m.key, code);
                  && s in after && IsRejectionRow(after[s], m.frames, m.at) && after == rows[s := after[s]]
                  && reply == Error(code))
            && (!accepted && RejectionRecorded(m.frames).None? ==>
                  after == rows && reply == Error(Combine(m.frames).error.code))
  {
    AcceptanceIsReadOff(m.frames);
    RejectionIsReadOff(m.frames);
    match Combine(m.frames)
    case Accept(o) =>
      AcceptedRowIsAMatch(m.frames);
    case Reject(e) =>
      if IsRecorded(e.code) {
        RejectedRowIsRecorded(m.frames, m.at);
        assert IsFailureOf(FailureKey(m.key, e.code), m.key);
      }
  }

  /** The refusals before any row is looked for, and those of check-ins. */
  lemma RefusalsMean(rows: Rows, m: Message)
    ensures var (after, reply) := Handled(rows, m);
            && (m.Burst? && (m.frames == [] || |m.frames| > 5) ==> reply == Error(ValidationError) && after == rows)
            && (m.CheckIn? && m.key !in rows && m.person.None? && !m.fault.BeforeCommit? ==>
                  reply == Error(UnknownFace) && after == rows)
            && (m.CheckIn? && CheckInCommits(rows, m) ==>
                  && after == rows[m.key := EventRow(WasAccepted, m.person, m.direction, m.at)]
                  && reply == (if m.fault.AfterCommit? then Error(ScanBackendUnavailable)
                               else Outcome(after[m.key], true)))
  {
  }

  /** What a row of a run comes from: a granted message without an early fault, read as above. */
  ghost predicate IsEarned(s: string, row: EventRow, m: Message) {
    && m.granted && !m.fault.BeforeCommit?
    && match m {
         case Burst(key, _, frames, at, _) =>
           && 1 <= |frames| <= 5
           && ((s == key && IsMatchRow(row, frames))
               || (RejectionRecorded(frames).Some? && s == FailureKey(key, RejectionRecorded(frames).value)
                   && IsRejectionRow(row, frames, at)))
         case CheckIn(key, _, person, direction, at, _) =>
           s == key && person.Some? && row == EventRow(WasAccepted, person, direction, at)
       }
  }

  lemma NewRowIsEarned(rows: Rows, m: Message, s: string)
    requires s !in rows && s in Handled(rows, m).0
    ensures IsEarned(s, Handled(rows, m).0[s], m)
  {
    if m.Burst? {
      if Combine(m.frames).Accept? {
        AcceptedRowIsAMatch(m.frames);
      } else {
        RejectedRowIsRecorded(m.frames, m.at);
      }
    }
  }

  /** In every run each row was earned by one of the messages: no other row is ever written. */
  lemma {:induction false} EveryRowIsEarned(messages: seq<Message>, s: string)
    requires s in Run(map[], messages)
    ensures exists m | m in messages :: IsEarned(s, Run(map[], messages)[s], m)
  {
    var rest, last := messages[..|messages| - 1], messages[|messages| - 1];
    var rows := Run(map[], rest);
    assert messages == rest + [last];
    if s in rows {
      EveryRowIsEarned(rest, s);
      HandlingKeepsRows(rows, last, s);
    } else {
      NewRowIsEarned(rows, last, s);
    }
  }

  // Keys with wildcards

  /** With the rejection of `other` on record, every burst under `key` is answered with it, its frames unread. */
  ghost predicate TakesRecordOf(key: string, other: string) {
    var rows := Run(map[], [RejectedBurst(other, UnknownFace)]);
    forall m | IsWellFormed(m) && m.key == key ::
      Handled(rows, m) == (rows, Error(CodeOf(FailureKey(other, UnknownFace))))
  }

  lemma RecordIsTaken(key: string, other: string)
    requires IsStorable(other) && |other| == |key| && Like(FailureKey(other, UnknownFace), key + "-%")
    ensures TakesRecordOf(key, other)
  {
    FirstRejection(other, UnknownFace);
    var rows := Run(map[], [RejectedBurst(other, UnknownFace)]);
    assert |FailureKey(other, UnknownFace)| > |key|;
    assert key !in rows && LikeMatches(rows, key) == {FailureKey(other, UnknownFace)};
  }

  lemma RecordIsNotTaken(key: string, other: string)
    requires IsStorable(key) && |other| == |key| && !Like(FailureKey(other, UnknownFace), key + "-%")
    ensures !TakesRecordOf(key, other)
  {
    FirstRejection(other, UnknownFace);
    var rows, m := Run(map[], [RejectedBurst(other, UnknownFace)]), AcceptedBurst(key, 0);
    assert |FailureKey(other, UnknownFace)| > |key|;
    assert key !in rows && LikeMatches(rows, key) == {};
    FreshMatchIsStored(rows, key, 0);
    assert IsWellFormed(m) && Handled(rows, m).1.Outcome?;
  }

  /** A key is answered with another key's rejection, for some key of its length, exactly if it is not plain. */
  lemma WildcardsTakeForeignRecords(key: string)
    requires IsStorable(key)
    ensures !Plain(key) <==> exists other :: |other| == |key| && other != key && TakesRecordOf(key, other)
  {
    PlainKeysFindOnlyThemselves(key);
    if Plain(key) {
      forall other | |other| == |key| && other != key
        ensures !TakesRecordOf(key, other)
      {
        RecordIsNotTaken(key, other);
      }
    } else {
      var other := WildcardFindsAnother(key);
      RecordIsTaken(key, other);
    }
  }

  /** For one: with a rejection under "abc" on record, a burst under "a_c" is never looked at. */
  lemma UnderscoreTakesForeignRecord()
    ensures TakesRecordOf("a_c", "abc")
  {
    var s, p := FailureKey("abc", UnknownFace), "a_c-%";
    assert "a_c" + "-%" == p;
    assert p[1..] == "_c-%" && p[1..][1..] == "c-%" && "c-%"[1..] == "-%" && "-%"[1..] == "%";
    assert s[1..][0] == 'b' && s[1..][1..][0] == 'c' && s[1..][1..][1..][0] == '-';
    AnythingIsLikePercent(s[1..][1..][1..][1..]);
    assert Like(s[1..][1..][1..], "-%");
    assert Like(s[1..][1..], "c-%");
    assert Like(s[1..], "_c-%");
    RecordIsTaken("a_c", "abc");
  }

  // Check-ins share the key space but do not look for failures

  predicate FailureIsOnRecord(rows: Rows, key: string) {
    exists s | s in rows :: IsFailureOf(s, key)
  }

  predicate CheckInCommits(rows: Rows, m: Message) {
    && m.CheckIn? && m.key !in rows && m.person.Some? && m.granted && !m.fault.BeforeCommit?
    && 0 < |m.key| <= WIDEST_KEY
  }

  /** A check-in gives its key a second row exactly when it commits under the key of a recorded rejection. */
  lemma CheckInKeepsOneRowExactly(rows: Rows, m: Message)
    requires m.CheckIn? && OneRow(rows, m.key)
    ensures OneRow(Handled(rows, m).0, m.key) <==> !(CheckInCommits(rows, m) && FailureIsOnRecord(rows, m.key))
  {
    var after := Handled(rows, m).0;
    if CheckInCommits(rows, m) && FailureIsOnRecord(rows, m.key) {
      var s :| s in rows && IsFailureOf(s, m.key);
      assert BelongsTo(s, m.key) && BelongsTo(m.key, m.key);
      assert s in after && m.key in after;
    } else if CheckInCommits(rows, m) {
      forall s, t | s in after && t in after && BelongsTo(s, m.key) && BelongsTo(t, m.key)
        ensures s == t
      {
        assert s in rows ==> !IsFailureOf(s, m.key);
        assert t in rows ==> !IsFailureOf(t, m.key);
      }
    }
  }

  /** It does happen, for every key: a rejected burst, then a check-in under the same key. */
  lemma ReusedKeyGetsTwoRows(key: string, p: Uuid)
    requires IsStorable(key)
    ensures var checkIn := CheckIn(key, true, Some(p), "in", 1, NoFault);
            !OneRow(Run(map[], [RejectedBurst(key, UnknownFace), checkIn]), key)
  {
    var burst, checkIn := RejectedBurst(key, UnknownFace), CheckIn(key, true, Some(p), "in", 1, NoFault);
    FirstRejection(key, UnknownFace);
    RunOfTwo(burst, checkIn);
    var rows := Run(map[], [burst]);
    assert |FailureKey(key, UnknownFace)| > |key|;
    assert FailureKey(key, UnknownFace) in rows && IsFailureOf(FailureKey(key, UnknownFace), key);
    CheckInKeepsOneRowExactly(rows, checkIn);
  }
}
