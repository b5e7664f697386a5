/**
 The kiosk's scan loop (frontend/apps/kiosk/src/scan/useScanLoop.ts): a face must hold still before a burst of
 frames is captured, and one face must not be captured twice in a row.

 Times are milliseconds. The loop keeps only a trimmed queue of recent frames; the reference machine below keeps
 the whole run of stable frames since the last reset, and the two are proved to decide alike.
 */
module ScanLoop {
  import opened Basics

  datatype Box = Box(x: real, y: real, w: real, h: real)

  /** The length two intervals have in common. */
  function Shared(low: real, high: real, otherLow: real, otherHigh: real): real {
    RealMax(0.0, RealMin(high, otherHigh) - RealMax(low, otherLow))
  }

  function Area(w: real, h: real): real {
    w * h
  }

  function Quotient(inter: real, union: real): real {
    if union == 0.0 then 0.0 else inter / union
  }

  function ComputeIoU(a: Box, b: Box): real {
    var w, h := Shared(a.x, a.x + a.w, b.x, b.x + b.w), Shared(a.y, a.y + a.h, b.y, b.y + b.h);
    var inter := Area(w, h);
    Quotient(inter, Area(a.w, a.h) + Area(b.w, b.h) - inter)
  }

  datatype Frame = Frame(timestamp: real, bbox: Box)

  /** `iou` is the overlap measure, `ComputeIoU` on the kiosk; the loop relies on its symmetry alone. */
  datatype Settings = Settings(iou: (Box, Box) -> real, stabilityIou: real, stabilityFrames: int, stabilityMs: real)

  ghost predicate Symmetric(iou: (Box, Box) -> real) {
    forall a, b :: iou(a, b) == iou(b, a)
  }

  lemma ComputeIoUIsSymmetric()
    ensures Symmetric(ComputeIoU)
  {
    forall a, b
      ensures ComputeIoU(a, b) == ComputeIoU(b, a)
    {
      SwappingKeepsIoU(a, b);
    }
  }

  lemma SharingIsSymmetric(low: real, high: real, otherLow: real, otherHigh: real)
    ensures Shared(low, high, otherLow, otherHigh) == Shared(otherLow, otherHigh, low, high)
  {
  }

  lemma SwappingKeepsIoU(a: Box, b: Box)
    ensures ComputeIoU(a, b) == ComputeIoU(b, a)
  {
    SharingIsSymmetric(a.x, a.x + a.w, b.x, b.x + b.w);
    SharingIsSymmetric(a.y, a.y + a.h, b.y, b.y + b.h);
  }

  const THROTTLE_MS: real := 400.0
  const MOVED_IOU: real := 0.5

  // ---------------------------------------------------------------------------------------------
  // The stability queue

  predicate Drifted(frames: seq<Frame>, box: Box, st: Settings) {
    frames != [] && st.iou(box, frames[|frames| - 1].bbox) < st.stabilityIou
  }

  /** The run of stable frames after one more frame: it starts afresh when the face moved. */
  function Extended(frames: seq<Frame>, f: Frame, st: Settings): seq<Frame> {
    (if Drifted(frames, f.bbox, st) then [] else frames) + [f]
  }

  /** Drop frames from the front while the next one is already old enough and enough frames remain. */
  function Trimmed(frames: seq<Frame>, now: real, st: Settings): seq<Frame> {
    if |frames| > st.stabilityFrames && |frames| > 1 && now - frames[1].timestamp >= st.stabilityMs
    then Trimmed(frames[1..], now, st) else frames
  }

  predicate LongEnough(frames: seq<Frame>, st: Settings) {
    && frames != []
    && |frames| >= st.stabilityFrames
    && frames[|frames| - 1].timestamp - frames[0].timestamp >= st.stabilityMs
  }

  predicate PairIsStill(frames: seq<Frame>, i: nat, st: Settings)
    requires i + 1 < |frames|
  {
    st.iou(frames[i].bbox, frames[i + 1].bbox) >= st.stabilityIou
  }

  predicate AllStill(frames: seq<Frame>, st: Settings) {
    forall i | 0 <= i < |frames| - 1 :: PairIsStill(frames, i, st)
  }

  method IsStable(frames: seq<Frame>, st: Settings) returns (stable: bool)
    ensures stable <==> LongEnough(frames, st) && AllStill(frames, st)
  {
    stable := false;
    if |frames| >= st.stabilityFrames && frames != [] {
      var elapsed := frames[|frames| - 1].timestamp - frames[0].timestamp;
      var timeOk, iouOk := elapsed >= st.stabilityMs, true;
      var i := 0;
      while i < |frames| - 1
        invariant 0 <= i <= |frames|
        invariant iouOk ==> forall j | 0 <= j < i && j < |frames| - 1 :: PairIsStill(frames, j, st)
        invariant !iouOk ==> !AllStill(frames, st)
      {
        if st.iou(frames[i].bbox, frames[i + 1].bbox) < st.stabilityIou {
          assert !PairIsStill(frames, i, st);
          iouOk := false;
          break;
        }
        i := i + 1;
      }
      stable := timeOk && iouOk;
    }
  }

  // ---------------------------------------------------------------------------------------------
  // One machine, twice: `Fast` remembers the queue, the reference remembers the run

  /** `trigger` is the box that `captureBurst` was called with, while it is running. */
  datatype State = State(
    frames: seq<Frame>,
    capturing: bool,
    trigger: Option<Box>,
    lastBurst: real,
    lockedOut: bool,
    matched: Option<Box>)

  const INITIAL := State([], false, None, 0.0, false, None)

  datatype Event =
    | Tick(now: real, detections: seq<Option<Box>>, gatesPassed: bool)
    | BurstEnd(now: real, frames: nat)        // captureBurst ran to its end with this many usable frames
    | ResetLockout
    | StopCamera

  /** The locked-out branch: what the detections of one frame do to the lock. */
  function LockAfter(s: State, detections: seq<Option<Box>>, st: Settings): State {
    if detections == [] then s.(lockedOut := false, matched := None)
    else if |detections| == 1 && s.matched.Some? && detections[0].Some?
            && st.iou(detections[0].value, s.matched.value) < MOVED_IOU
    then s.(lockedOut := false, matched := None)
    else s
  }

  /** Whether frames kept as `frames` start a burst at `now`. */
  predicate Starts(stable: bool, s: State, now: real) {
    stable && now - s.lastBurst >= THROTTLE_MS
  }

  function AfterPass(s: State, kept: seq<Frame>, box: Box, stable: bool, now: real): (State, bool) {
    if Starts(stable, s, now) then (s.(frames := [], capturing := true, trigger := Some(box)), true)
    else (s.(frames := kept), false)
  }

  function TickBefore(s: State, e: Event, st: Settings): Option<State>
    requires e.Tick?
  {
    if s.capturing then Some(s)
    else if s.lockedOut then Some(LockAfter(s, e.detections, st))
    else if !e.gatesPassed then Some(s.(frames := []))
    else if e.detections == [] || e.detections[0].None? then Some(s)
    else None
  }

  function FastTick(s: State, e: Event, st: Settings): (State, bool)
    requires e.Tick?
  {
    if TickBefore(s, e, st).Some? then (TickBefore(s, e, st).value, false)
    else
      var box := e.detections[0].value;
      var kept := Trimmed(Extended(s.frames, Frame(e.now, box), st), e.now, st);
      AfterPass(s, kept, box, LongEnough(kept, st) && AllStill(kept, st), e.now)
  }

  function ReferenceTick(s: State, e: Event, st: Settings): (State, bool)
    requires e.Tick?
  {
    if TickBefore(s, e, st).Some? then (TickBefore(s, e, st).value, false)
    else
      var box := e.detections[0].value;
      var run := Extended(s.frames, Frame(e.now, box), st);
      AfterPass(s, run, box, LongEnough(run, st), e.now)
  }

  /** The events both machines handle alike. */
  function Other(s: State, e: Event): State
    requires !e.Tick?
  {
    match e
    case BurstEnd(now, frames) =>
      if !s.capturing then s
      else if frames > 0 then
        s.(capturing := false, trigger := None, lockedOut := true, matched := s.trigger, lastBurst := now)
      else s.(capturing := false, trigger := None)
    case ResetLockout => s.(lockedOut := false, matched := None)
    case StopCamera => s.(frames := [])
  }

  function FastStep(s: State, e: Event, st: Settings): (State, bool) {
    if e.Tick? then FastTick(s, e, st) else (Other(s, e), false)
  }

  function ReferenceStep(s: State, e: Event, st: Settings): (State, bool) {
    if e.Tick? then ReferenceTick(s, e, st) else (Other(s, e), false)
  }

  class KioskLoop {
    var queue: seq<Frame>
    var isCapturingBurst: bool
    var triggerBbox: Option<Box>
    var lastBurstTime: real
    var isLockedOut: bool
    var matchedBbox: Option<Box>

    function View(): State
      reads this
    {
      State(queue, isCapturingBurst, triggerBbox, lastBurstTime, isLockedOut, matchedBbox)
    }

    constructor ()
      ensures View() == INITIAL
    {
      queue, isCapturingBurst, triggerBbox, lastBurstTime, isLockedOut, matchedBbox :=
        [], false, None, 0.0, false, None;
    }

    method Tick(now: real, detections: seq<Option<Box>>, gatesPassed: bool, st: Settings) returns (triggered: bool)
      modifies this
      ensures (View(), triggered) == FastTick(old(View()), Event.Tick(now, detections, gatesPassed), st)
    {
      triggered := false;
      if isCapturingBurst {
        return;
      }
      if isLockedOut {
        if |detections| == 0 {
          isLockedOut, matchedBbox := false, None;
        } else if |detections| == 1 && matchedBbox.Some? && detections[0].Some? {
          var iou := st.iou(detections[0].value, matchedBbox.value);
          if iou < 0.5 {
            isLockedOut, matchedBbox := false, None;
          }
        }
        return;
      }
      if !gatesPassed {
        queue := [];
        return;
      }
      if |detections| == 0 || detections[0].None? {
        return;
      }
      var currentBox := detections[0].value;
      if |queue| > 0 {
        var iou := st.iou(currentBox, queue[|queue| - 1].bbox);
        if iou < st.stabilityIou {
          queue := [];
        }
      }
      queue := queue + [Frame(now, currentBox)];
      ghost var run := queue;
      while |queue| > st.stabilityFrames
        invariant Trimmed(run, now, st) == Trimmed(queue, now, st)
        invariant View() == old(View()).(frames := queue)
        decreases |queue|
      {
        if |queue| > 1 && now - queue[1].timestamp >= st.stabilityMs {
          queue := queue[1..];
        } else {
          break;
        }
      }
      var stable := IsStable(queue, st);
      var throttleOk := now - lastBurstTime >= 400.0;
      if stable && throttleOk {
        isCapturingBurst := true;
        queue := [];
        triggerBbox := Some(currentBox);
        triggered := true;
      }
    }

    /** The end of `captureBurst`: the lock is taken only when some frame was usable, and capturing always ends. */
    method FinishBurst(burstFrames: nat, now: real)
      modifies this
      ensures View() == Other(old(View()), BurstEnd(now, burstFrames))
    {
      if isCapturingBurst {
        if burstFrames > 0 {
          isLockedOut := true;
          matchedBbox := triggerBbox;
          lastBurstTime := now;
        }
        triggerBbox := None;
        isCapturingBurst := false;
      }
    }
  }

  // ---------------------------------------------------------------------------------------------
  // The trimmed queue stands for the whole run

  /** The queue is the end of the run; what was trimmed off can no longer change any verdict. */
  predicate Stands(queue: seq<Frame>, run: seq<Frame>, now: real, st: Settings) {
    && |queue| <= |run| && queue == run[|run| - |queue|..]
    && (forall i | 0 <= i < |run| :: run[0].timestamp <= run[i].timestamp <= run[|run| - 1].timestamp)
    && (run != [] ==> queue != [] && run[|run| - 1].timestamp <= now)
    && (|queue| < |run| ==> |queue| >= st.stabilityFrames && now - queue[0].timestamp >= st.stabilityMs)
    && AllStill(run, st)
  }

  lemma StandsAges(queue: seq<Frame>, run: seq<Frame>, now: real, now': real, st: Settings)
    requires Stands(queue, run, now, st) && now <= now'
    ensures Stands(queue, run, now', st)
  {
  }

  lemma ExtendingStands(queue: seq<Frame>, run: seq<Frame>, f: Frame, st: Settings)
    requires Symmetric(st.iou)
    requires Stands(queue, run, f.timestamp, st)
    ensures Stands(Extended(queue, f, st), Extended(run, f, st), f.timestamp, st)
    ensures Extended(run, f, st) != [] && Extended(run, f, st)[|Extended(run, f, st)| - 1] == f
  {
    var run', queue' := Extended(run, f, st), Extended(queue, f, st);
    assert Drifted(queue, f.bbox, st) == Drifted(run, f.bbox, st);
    assert run != [] ==> st.iou(f.bbox, run[|run| - 1].bbox) == st.iou(run[|run| - 1].bbox, f.bbox);
    assert AllStill(run', st) by {
      forall i | 0 <= i < |run'| - 1
        ensures PairIsStill(run', i, st)
      {
        assert i < |run| - 1 ==> PairIsStill(run, i, st);
      }
    }
  }

  lemma {:induction false} TrimmingStands(queue: seq<Frame>, run: seq<Frame>, now: real, st: Settings)
    requires Stands(queue, run, now, st)
    ensures Stands(Trimmed(queue, now, st), run, now, st)
    decreases |queue|
  {
    if |queue| > st.stabilityFrames && |queue| > 1 && now - queue[1].timestamp >= st.stabilityMs {
      assert queue[1..] == run[|run| - |queue[1..]|..];
      TrimmingStands(queue[1..], run, now, st);
    }
  }

  /** The queue never outgrows the stability window: past the minimum length its second frame is still young. */
  lemma {:induction false} QueueIsTight(frames: seq<Frame>, now: real, st: Settings)
    ensures var q := Trimmed(frames, now, st);
            |q| > st.stabilityFrames && |q| > 1 ==> now - q[1].timestamp < st.stabilityMs
    decreases |frames|
  {
    if |frames| > st.stabilityFrames && |frames| > 1 && now - frames[1].timestamp >= st.stabilityMs {
      QueueIsTight(frames[1..], now, st);
    }
  }

  /** Queue and run pass the time test together, and the final scan over the queue never fails. */
  lemma StandingDecidesAlike(queue: seq<Frame>, run: seq<Frame>, now: real, st: Settings)
    requires Stands(queue, run, now, st)
    requires run != [] && run[|run| - 1].timestamp == now
    ensures LongEnough(queue, st) == LongEnough(run, st)
    ensures AllStill(queue, st)
  {
    var off := |run| - |queue|;
    assert queue[0] == run[off] && queue[|queue| - 1] == run[|run| - 1];
    assert run[0].timestamp <= run[off].timestamp;
    forall i | 0 <= i < |queue| - 1
      ensures PairIsStill(queue, i, st)
    {
      assert PairIsStill(run, off + i, st);
    }
  }

  predicate Simulates(fast: State, reference: State, now: real, st: Settings) {
    && fast == reference.(frames := fast.frames)
    && Stands(fast.frames, reference.frames, now, st)
  }

  lemma StepSimulates(fast: State, reference: State, t: real, e: Event, now: real, st: Settings)
    requires Symmetric(st.iou)
    requires Simulates(fast, reference, t, st) && t <= now
    requires e.Tick? ==> e.now == now
    ensures var (fast', a) := FastStep(fast, e, st);
            var (reference', b) := ReferenceStep(reference, e, st);
            a == b && Simulates(fast', reference', now, st)
  {
    StandsAges(fast.frames, reference.frames, t, now, st);
    if e.Tick? && TickBefore(fast, e, st).None? {
      PassingTickSimulates(fast, reference, e, st);
    } else {
      QuietStepSimulates(fast, reference, e, now, st);
    }
  }

  lemma FastPasses(s: State, e: Event, queue: seq<Frame>, stable: bool, st: Settings)
    requires e.Tick? && TickBefore(s, e, st).None?
    requires queue == Extended(s.frames, Frame(e.now, e.detections[0].value), st)
    requires stable <==> LongEnough(Trimmed(queue, e.now, st), st) && AllStill(Trimmed(queue, e.now, st), st)
    ensures FastTick(s, e, st) == AfterPass(s, Trimmed(queue, e.now, st), e.detections[0].value, stable, e.now)
  {
  }

  lemma ReferencePasses(s: State, e: Event, run: seq<Frame>, stable: bool, st: Settings)
    requires e.Tick? && TickBefore(s, e, st).None?
    requires run == Extended(s.frames, Frame(e.now, e.detections[0].value), st)
    requires stable <==> LongEnough(run, st)
    ensures ReferenceTick(s, e, st) == AfterPass(s, run, e.detections[0].value, stable, e.now)
  {
  }

  lemma BothPass(s: State, frames: seq<Frame>, e: Event, st: Settings)
    requires e.Tick?
    ensures TickBefore(s, e, st).None? <==> TickBefore(s.(frames := frames), e, st).None?
  {
  }

  lemma PassingTickSimulates(fast: State, reference: State, e: Event, st: Settings)
    requires e.Tick? && Symmetric(st.iou)
    requires Simulates(fast, reference, e.now, st) && TickBefore(fast, e, st).None?
    ensures var (fast', a), (reference', b) := FastTick(fast, e, st), ReferenceTick(reference, e, st);
            a == b && Simulates(fast', reference', e.now, st)
  {
    var f := Frame(e.now, e.detections[0].value);
    var queue, run := Extended(fast.frames, f, st), Extended(reference.frames, f, st);
    BothPass(reference, fast.frames, e, st);
    ExtendingStands(fast.frames, reference.frames, f, st);
    TrimmedDecidesAlike(queue, run, e.now, st);
    FastPasses(fast, e, queue, LongEnough(run, st), st);
    ReferencePasses(reference, e, run, LongEnough(run, st), st);
    PassSimulates(fast, reference, Trimmed(queue, e.now, st), run, f.bbox, LongEnough(run, st), e.now, st);
  }

  lemma QuietStepSimulates(fast: State, reference: State, e: Event, now: real, st: Settings)
    requires Simulates(fast, reference, now, st)
    requires e.Tick? ==> TickBefore(fast, e, st).Some?
    ensures !FastStep(fast, e, st).1 && !ReferenceStep(reference, e, st).1
    ensures Simulates(FastStep(fast, e, st).0, ReferenceStep(reference, e, st).0, now, st)
  {
  }

  lemma TrimmedDecidesAlike(queue: seq<Frame>, run: seq<Frame>, now: real, st: Settings)
    requires Stands(queue, run, now, st) && run != [] && run[|run| - 1].timestamp == now
    ensures var kept := Trimmed(queue, now, st);
            && Stands(kept, run, now, st)
            && (LongEnough(kept, st) && AllStill(kept, st) <==> LongEnough(run, st))
  {
    TrimmingStands(queue, run, now, st);
    StandingDecidesAlike(Trimmed(queue, now, st), run, now, st);
  }

  lemma PassSimulates(fast: State, reference: State, kept: seq<Frame>, run: seq<Frame>, box: Box, stable: bool,
                      now: real, st: Settings)
    requires Simulates(fast, reference, now, st) && Stands(kept, run, now, st)
    ensures var (fast', a) := AfterPass(fast, kept, box, stable, now);
            var (reference', b) := AfterPass(reference, run, box, stable, now);
            a == b && Simulates(fast', reference', now, st)
  {
    if Starts(stable, fast, now) {
      assert Stands([], [], now, st);
    }
  }

  function EventTime(e: Event, clock: real): real {
    if e.Tick? || e.BurstEnd? then e.now else clock
  }

  function Clock(events: seq<Event>): real {
    if events == [] then 0.0 else EventTime(events[|events| - 1], Clock(events[..|events| - 1]))
  }

  /** Time never runs backwards over the events. */
  predicate Ordered(events: seq<Event>) {
    events == [] ||
    var init := events[..|events| - 1];
    Ordered(init) && Clock(init) <= Clock(events)
  }

  function FastRun(s: State, events: seq<Event>, st: Settings): (State, seq<bool>) {
    if events == [] then (s, [])
    else
      var (t, verdicts) := FastRun(s, events[..|events| - 1], st);
      var (t', v) := FastStep(t, events[|events| - 1], st);
      (t', verdicts + [v])
  }

  function ReferenceRun(s: State, events: seq<Event>, st: Settings): (State, seq<bool>) {
    if events == [] then (s, [])
    else
      var (t, verdicts) := ReferenceRun(s, events[..|events| - 1], st);
      var (t', v) := ReferenceStep(t, events[|events| - 1], st);
      (t', verdicts + [v])
  }

  /** Over every run of the kiosk the trimmed queue starts exactly the bursts the whole run would. */
  lemma {:induction false} TrimmingChangesNoBurst(events: seq<Event>, st: Settings)
    requires Symmetric(st.iou) && Ordered(events)
    ensures FastRun(INITIAL, events, st).1 == ReferenceRun(INITIAL, events, st).1
    ensures Simulates(FastRun(INITIAL, events, st).0, ReferenceRun(INITIAL, events, st).0, Clock(events), st)
  {
    if events != [] {
      var init, e := events[..|events| - 1], events[|events| - 1];
      TrimmingChangesNoBurst(init, st);
      StepSimulates(FastRun(INITIAL, init, st).0, ReferenceRun(INITIAL, init, st).0, Clock(init), e, Clock(events), st);
    }
  }

  // ---------------------------------------------------------------------------------------------
  // One face, one burst

  /** What lets go of the lock taken for the face at `box`. */
  predicate Releases(e: Event, box: Box, st: Settings) {
    || e.ResetLockout?
    || (e.Tick? && e.detections == [])
    || (e.Tick? && |e.detections| == 1 && e.detections[0].Some? && st.iou(e.detections[0].value, box) < MOVED_IOU)
  }

  /** From a submitted burst on, no other starts until the face has left, moved, or the lock was reset. */
  lemma {:induction false} NoSecondBurst(s: State, events: seq<Event>, box: Box, st: Settings)
    requires s.lockedOut && s.matched == Some(box) && !s.capturing
    requires forall i | 0 <= i < |events| :: !Releases(events[i], box, st)
    ensures var (end, verdicts) := FastRun(s, events, st);
            && end.lockedOut && end.matched == Some(box) && !end.capturing
            && |verdicts| == |events| && forall i | 0 <= i < |events| :: !verdicts[i]
  {
    if events != [] {
      NoSecondBurst(s, events[..|events| - 1], box, st);
    }
  }

  /** A burst that was started and never ends blocks every later one. */
  lemma {:induction false} CapturingBlocks(s: State, events: seq<Event>, st: Settings)
    requires s.capturing
    requires forall i | 0 <= i < |events| :: !events[i].BurstEnd?
    ensures var (end, verdicts) := FastRun(s, events, st);
            end.capturing && |verdicts| == |events| && forall i | 0 <= i < |events| :: !verdicts[i]
  {
    if events != [] {
      CapturingBlocks(s, events[..|events| - 1], st);
    }
  }

  /** When the last submitted burst of a run ended: the end of a capture in progress, with a usable frame. */
  function LastSubmission(events: seq<Event>, st: Settings): Option<real> {
    if events == [] then None
    else
      var init, e := events[..|events| - 1], events[|events| - 1];
      if e.BurstEnd? && e.frames > 0 && FastRun(INITIAL, init, st).0.capturing then Some(e.now)
      else LastSubmission(init, st)
  }

  lemma {:induction false} LastBurstIsRemembered(events: seq<Event>, st: Settings)
    ensures var s := FastRun(INITIAL, events, st).0;
            s.lastBurst == if LastSubmission(events, st).Some? then LastSubmission(events, st).value else 0.0
  {
    if events != [] {
      LastBurstIsRemembered(events[..|events| - 1], st);
    }
  }

  /** Whatever happens in between, a burst starts no sooner than 400 ms after the last submitted one ended. */
  lemma BurstsAreSpaced(events: seq<Event>, e: Event, st: Settings)
    requires FastStep(FastRun(INITIAL, events, st).0, e, st).1
    ensures e.Tick?
    ensures LastSubmission(events, st).Some? ==> e.now >= LastSubmission(events, st).value + 400.0
  {
    LastBurstIsRemembered(events, st);
  }
}
