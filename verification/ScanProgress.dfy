/**
 When the kiosk scans (frontend/apps/kiosk/src/scan/useScanLoop.ts): a face that holds still is captured, nothing else
 is, and the lock taken afterwards is let go of exactly when the face leaves, moves or is reset.
 */
module ScanProgress {
  import opened Basics
  import opened ScanLoop
  import Nms

  // ---------------------------------------------------------------------------------------------
  // The overlap

  function Corners(b: Box): Nms.Box {
    Nms.Box(b.x, b.y, b.x + b.w, b.y + b.h)
  }

  predicate IsPositive(b: Box) {
    b.w > 0.0 && b.h > 0.0
  }

  lemma AreaFits(w: real, h: real, otherW: real, otherH: real)
    requires 0.0 <= w <= otherW && 0.0 <= h <= otherH
    ensures 0.0 <= Area(w, h) <= Area(otherW, otherH)
    ensures otherW > 0.0 && otherH > 0.0 ==> Area(otherW, otherH) > 0.0
    ensures w == 0.0 || h == 0.0 ==> Area(w, h) == 0.0
  {
    assert w * h <= otherW * h <= otherW * otherH;
  }

  lemma QuotientMeans(inter: real, union: real)
    requires union != 0.0
    ensures Quotient(inter, union) * union == inter
  {
  }

  lemma IoUOfShared(a: Box, b: Box)
    requires IsPositive(a) && IsPositive(b)
    ensures var w, h := Shared(a.x, a.x + a.w, b.x, b.x + b.w), Shared(a.y, a.y + a.h, b.y, b.y + b.h);
            && ComputeIoU(a, b) * (Area(a.w, a.h) + Area(b.w, b.h) - Area(w, h)) == Area(w, h)
            && (w == 0.0 || h == 0.0 ==> ComputeIoU(a, b) == 0.0)
  {
    var w, h := Shared(a.x, a.x + a.w, b.x, b.x + b.w), Shared(a.y, a.y + a.h, b.y, b.y + b.h);
    AreaFits(w, h, a.w, a.h);
    AreaFits(b.w, b.h, b.w, b.h);
    QuotientMeans(Area(w, h), Area(a.w, a.h) + Area(b.w, b.h) - Area(w, h));
  }

  lemma DisjointShareNothing(a: Box, b: Box)
    requires Nms.AreDisjoint(Corners(a), Corners(b))
    ensures Shared(a.x, a.x + a.w, b.x, b.x + b.w) == 0.0 || Shared(a.y, a.y + a.h, b.y, b.y + b.h) == 0.0
  {
    if Shared(a.x, a.x + a.w, b.x, b.x + b.w) > 0.0 && Shared(a.y, a.y + a.h, b.y, b.y + b.h) > 0.0 {
      Nms.MeetsProperly(Corners(a), Corners(b));
    }
  }

  /** Of two boxes the measure is the area of their common points over the area of all their points. */
  lemma IoUMeans(a: Box, b: Box, c: Box)
    requires IsPositive(a) && IsPositive(b)
    ensures IsPositive(c) && Nms.IsMeet(Corners(c), Corners(a), Corners(b)) ==>
              ComputeIoU(a, b) * (Area(a.w, a.h) + Area(b.w, b.h) - Area(c.w, c.h)) == Area(c.w, c.h)
    ensures Nms.AreDisjoint(Corners(a), Corners(b)) ==> ComputeIoU(a, b) == 0.0
  {
    IoUOfShared(a, b);
    if IsPositive(c) && Nms.IsMeet(Corners(c), Corners(a), Corners(b)) {
      Nms.SpanIsMeet(Corners(c), Corners(a), Corners(b));
    }
    if Nms.AreDisjoint(Corners(a), Corners(b)) {
      DisjointShareNothing(a, b);
    }
  }

  // ---------------------------------------------------------------------------------------------
  // The lock

  /** A lock is taken for a face, and only a burst in progress has a trigger. */
  predicate LockHasAFace(s: State) {
    && (s.lockedOut <==> s.matched.Some?) && (s.capturing <==> s.trigger.Some?)
    && (s.capturing ==> !s.lockedOut) && (s.capturing || s.lockedOut ==> s.frames == [])
  }

  lemma StepKeepsTheFace(s: State, e: Event, st: Settings)
    requires LockHasAFace(s)
    ensures LockHasAFace(FastStep(s, e, st).0) && LockHasAFace(ReferenceStep(s, e, st).0)
  {
  }

  lemma {:induction false} EveryLockHasAFace(events: seq<Event>, st: Settings)
    ensures LockHasAFace(FastRun(INITIAL, events, st).0) && LockHasAFace(ReferenceRun(INITIAL, events, st).0)
  {
    if events != [] {
      var init, e := events[..|events| - 1], events[|events| - 1];
      EveryLockHasAFace(init, st);
      StepKeepsTheFace(FastRun(INITIAL, init, st).0, e, st);
      StepKeepsTheFace(ReferenceRun(INITIAL, init, st).0, e, st);
    }
  }

  /** A step from a locked state unlocks exactly if it releases the face, and otherwise keeps the lock and the face. */
  lemma LockReleasesExactly(s: State, e: Event, box: Box, st: Settings)
    requires s.lockedOut && s.matched == Some(box) && !s.capturing
    ensures var (after, triggered) := FastStep(s, e, st);
            && !triggered && !after.capturing && after.lastBurst == s.lastBurst
            && (Releases(e, box, st) ==> !after.lockedOut && after.matched.None?)
            && (!Releases(e, box, st) ==> after.lockedOut && after.matched == Some(box))
  {
  }

  /** The lock is taken exactly by the end of a burst with a usable frame, for the face that started the burst. */
  lemma LockIsTakenExactly(s: State, e: Event, st: Settings)
    requires !s.lockedOut
    ensures var after := FastStep(s, e, st).0;
            && (after.lockedOut <==> s.capturing && e.BurstEnd? && e.frames > 0)
            && (after.lockedOut ==> after.matched == s.trigger && after.lastBurst == e.now && !after.capturing)
            && (s.capturing && e.BurstEnd? && e.frames == 0 ==> !after.capturing && after.lastBurst == s.lastBurst)
  {
  }

  /** A started burst remembers the face it was started for, and begins with an empty queue. */
  lemma StartRemembersTheFace(s: State, e: Event, st: Settings)
    requires FastStep(s, e, st).1
    ensures var after := FastStep(s, e, st).0;
            && Passes(e) && !s.capturing && !s.lockedOut
            && after == s.(frames := [], capturing := true, trigger := e.detections[0])
  {
  }

  // ---------------------------------------------------------------------------------------------
  // A burst starts only for a face that held still

  predicate Passes(e: Event) {
    e.Tick? && e.gatesPassed && e.detections != [] && e.detections[0].Some?
  }

  function FrameOf(e: Event): Frame
    requires Passes(e)
  {
    Frame(e.now, e.detections[0].value)
  }

  /** The frames that passed the gates since a frame last failed them or the camera last stopped. */
  function Seen(events: seq<Event>): seq<Frame> {
    if events == [] then []
    else
      var init, e := events[..|events| - 1], events[|events| - 1];
      if Passes(e) then Seen(init) + [FrameOf(e)]
      else if e.StopCamera? || (e.Tick? && !e.gatesPassed) then []
      else Seen(init)
  }

  predicate EndsIn<T(==)>(s: seq<T>, tail: seq<T>) {
    |tail| <= |s| && s[|s| - |tail|..] == tail
  }

  lemma EndsInSnoc<T>(s: seq<T>, tail: seq<T>, x: T)
    requires EndsIn(s, tail)
    ensures EndsIn(s + [x], tail + [x]) && EndsIn(s + [x], [x])
  {
    assert (s + [x])[|s| - |tail|..] == s[|s| - |tail|..] + [x];
  }

  lemma TickIsSeen(s: State, e: Event, seen: seq<Frame>, st: Settings)
    requires LockHasAFace(s) && EndsIn(seen, s.frames)
    ensures var after := ReferenceStep(s, e, st).0.frames;
            if Passes(e) then EndsIn(seen + [FrameOf(e)], after)
            else if e.StopCamera? || (e.Tick? && !e.gatesPassed) then after == []
            else EndsIn(seen, after)
  {
    if Passes(e) {
      EndsInSnoc(seen, s.frames, FrameOf(e));
    }
  }

  lemma {:induction false} RunIsSeen(events: seq<Event>, st: Settings)
    ensures EndsIn(Seen(events), ReferenceRun(INITIAL, events, st).0.frames)
  {
    if events != [] {
      var init, e := events[..|events| - 1], events[|events| - 1];
      RunIsSeen(init, st);
      EveryLockHasAFace(init, st);
      TickIsSeen(ReferenceRun(INITIAL, init, st).0, e, Seen(init), st);
    }
  }

  /** The tail of the frames seen is long enough, old enough and still. */
  predicate HoldsStill(frames: seq<Frame>, st: Settings) {
    LongEnough(frames, st) && AllStill(frames, st)
  }

  lemma RunSnoc(events: seq<Event>, e: Event, st: Settings)
    ensures FastRun(INITIAL, events + [e], st).0 == FastStep(FastRun(INITIAL, events, st).0, e, st).0
    ensures FastRun(INITIAL, events + [e], st).1
         == FastRun(INITIAL, events, st).1 + [FastStep(FastRun(INITIAL, events, st).0, e, st).1]
    ensures ReferenceRun(INITIAL, events + [e], st).0
         == ReferenceStep(ReferenceRun(INITIAL, events, st).0, e, st).0
    ensures ReferenceRun(INITIAL, events + [e], st).1
         == ReferenceRun(INITIAL, events, st).1 + [ReferenceStep(ReferenceRun(INITIAL, events, st).0, e, st).1]
  {
    assert (events + [e])[..|events|] == events;
  }

  lemma StartedRunIsStill(fast: State, reference: State, t: real, e: Event, st: Settings)
    requires Symmetric(st.iou) && e.Tick? && t <= e.now && Simulates(fast, reference, t, st)
    requires FastStep(fast, e, st).1
    ensures Passes(e) && !fast.lockedOut && !fast.capturing && e.now - fast.lastBurst >= 400.0
    ensures HoldsStill(Extended(reference.frames, FrameOf(e), st), st)
  {
    StandsAges(fast.frames, reference.frames, t, e.now, st);
    StepSimulates(fast, reference, t, e, e.now, st);
    ExtendingStands(fast.frames, reference.frames, FrameOf(e), st);
    ReferencePasses(reference, e, Extended(reference.frames, FrameOf(e), st),
                    LongEnough(Extended(reference.frames, FrameOf(e), st), st), st);
  }

  /**
   In every run a burst starts only on a frame that passed the gates, at which the frames seen without interruption
   end in enough of them, over long enough, each overlapping the next.
   */
  lemma BurstNeedsAStillFace(events: seq<Event>, e: Event, st: Settings)
    requires Symmetric(st.iou) && Ordered(events + [e])
    requires FastStep(FastRun(INITIAL, events, st).0, e, st).1
    ensures Passes(e)
    ensures exists k: nat :: k <= |Seen(events)| && HoldsStill(Seen(events + [e])[k..], st)
  {
    assert (events + [e])[..|events|] == events;
    TrimmingChangesNoBurst(events, st);
    var fast, reference := FastRun(INITIAL, events, st).0, ReferenceRun(INITIAL, events, st).0;
    StartedRunIsStill(fast, reference, Clock(events), e, st);
    RunIsSeen(events, st);
    var seen, run := Seen(events) + [FrameOf(e)], Extended(reference.frames, FrameOf(e), st);
    EndsInSnoc(Seen(events), reference.frames, FrameOf(e));
    assert Seen(events + [e]) == seen && seen[|seen| - |run|..] == run;
  }

  // ---------------------------------------------------------------------------------------------
  // A face that holds still is scanned

  /** Every frame passes the gates and overlaps the one before enough. */
  predicate IsSteady(ticks: seq<Event>, st: Settings) {
    && (forall i | 0 <= i < |ticks| :: Passes(ticks[i]))
    && forall i | 0 <= i < |ticks| - 1 :: Follows(ticks, i, st)
  }

  predicate Follows(ticks: seq<Event>, i: nat, st: Settings)
    requires i + 1 < |ticks| && forall j | 0 <= j < |ticks| :: Passes(ticks[j])
  {
    st.iou(FrameOf(ticks[i + 1]).bbox, FrameOf(ticks[i]).bbox) >= st.stabilityIou
  }

  function FramesOf(ticks: seq<Event>): (frames: seq<Frame>)
    requires forall i | 0 <= i < |ticks| :: Passes(ticks[i])
    ensures |frames| == |ticks| && forall i | 0 <= i < |ticks| :: frames[i] == FrameOf(ticks[i])
  {
    seq(|ticks|, i requires 0 <= i < |ticks| => FrameOf(ticks[i]))
  }

  predicate SomeSince(verdicts: seq<bool>, from: nat) {
    exists i | from <= i < |verdicts| :: verdicts[i]
  }

  /** Neither locked nor capturing. */
  predicate IsFree(s: State) {
    !s.lockedOut && !s.capturing
  }

  /** Free as before, with a run that ends in the frames of the ticks and did not start a burst at the last of them. */
  predicate IsWaiting(s: State, before: State, ticks: seq<Event>, st: Settings)
    requires forall i | 0 <= i < |ticks| :: Passes(ticks[i])
  {
    && IsFree(s) && s.lastBurst == before.lastBurst && EndsIn(s.frames, FramesOf(ticks))
    && (ticks != [] ==> !Starts(LongEnough(s.frames, st), s, ticks[|ticks| - 1].now))
  }

  /** What two neighbouring ticks owe each other. */
  predicate HoldsOn(ticks: seq<Event>, e: Event, st: Settings)
    requires Passes(e) && forall i | 0 <= i < |ticks| :: Passes(ticks[i])
  {
    ticks != [] ==> st.iou(FrameOf(e).bbox, FrameOf(ticks[|ticks| - 1]).bbox) >= st.stabilityIou
  }

  lemma SteadyFramesExtend(frames: seq<Frame>, ticks: seq<Event>, e: Event, st: Settings)
    requires Passes(e) && forall i | 0 <= i < |ticks| :: Passes(ticks[i])
    requires EndsIn(frames, FramesOf(ticks)) && HoldsOn(ticks, e, st)
    ensures EndsIn(Extended(frames, FrameOf(e), st), FramesOf(ticks + [e]))
  {
    var f := FrameOf(e);
    assert FramesOf(ticks + [e]) == FramesOf(ticks) + [f];
    if ticks == [] {
      EndsInSnoc(if Drifted(frames, f.bbox, st) then [] else frames, [], f);
    } else {
      assert frames[|frames| - 1] == FramesOf(ticks)[|ticks| - 1];
      EndsInSnoc(frames, FramesOf(ticks), f);
    }
  }

  lemma PassingTickExtends(s: State, before: State, ticks: seq<Event>, e: Event, st: Settings)
    requires Passes(e) && forall i | 0 <= i < |ticks| :: Passes(ticks[i])
    requires IsWaiting(s, before, ticks, st) && HoldsOn(ticks, e, st)
    ensures var (after, started) := ReferenceStep(s, e, st);
            started || IsWaiting(after, before, ticks + [e], st)
  {
    var run := Extended(s.frames, FrameOf(e), st);
    SteadyFramesExtend(s.frames, ticks, e, st);
    ReferencePasses(s, e, run, LongEnough(run, st), st);
  }

  lemma SteadyInit(ticks: seq<Event>, e: Event, st: Settings)
    requires IsSteady(ticks + [e], st)
    ensures IsSteady(ticks, st) && Passes(e) && HoldsOn(ticks, e, st)
  {
    assert forall i | 0 <= i < |ticks| :: (ticks + [e])[i] == ticks[i];
    assert (ticks + [e])[|ticks|] == e;
    forall i | 0 <= i < |ticks| - 1
      ensures Follows(ticks, i, st)
    {
      assert Follows(ticks + [e], i, st);
    }
    assert ticks != [] ==> Follows(ticks + [e], |ticks| - 1, st);
  }

  lemma SomeSinceSnoc(verdicts: seq<bool>, v: bool, from: nat)
    requires from <= |verdicts|
    ensures SomeSince(verdicts + [v], from) <==> SomeSince(verdicts, from) || v
  {
    assert (verdicts + [v])[|verdicts|] == v;
    assert forall i | 0 <= i < |verdicts| :: (verdicts + [v])[i] == verdicts[i];
  }

  lemma {:induction false} SteadyRunGrows(events: seq<Event>, ticks: seq<Event>, st: Settings)
    requires IsSteady(ticks, st) && IsFree(ReferenceRun(INITIAL, events, st).0)
    ensures var before, (after, verdicts) :=
              ReferenceRun(INITIAL, events, st).0, ReferenceRun(INITIAL, events + ticks, st);
            |verdicts| == |events + ticks| && (SomeSince(verdicts, |events|) || IsWaiting(after, before, ticks, st))
  {
    if ticks == [] {
      assert events + ticks == events;
      VerdictPerEvent(events, st);
    } else {
      var init, e := ticks[..|ticks| - 1], ticks[|ticks| - 1];
      assert ticks == init + [e] && (events + init) + [e] == events + ticks;
      SteadyInit(init, e, st);
      SteadyRunGrows(events, init, st);
      RunSnoc(events + init, e, st);
      var (s, verdicts) := ReferenceRun(INITIAL, events + init, st);
      SomeSinceSnoc(verdicts, ReferenceStep(s, e, st).1, |events|);
      if !SomeSince(verdicts, |events|) {
        PassingTickExtends(s, ReferenceRun(INITIAL, events, st).0, init, e, st);
      }
    }
  }

  lemma {:induction false} VerdictPerEvent(events: seq<Event>, st: Settings)
    ensures |ReferenceRun(INITIAL, events, st).1| == |events|
  {
    if events != [] {
      VerdictPerEvent(events[..|events| - 1], st);
    }
  }

  /** When the last burst was submitted; the page's clock starts at zero, and so does the throttle. */
  function SubmittedAt(events: seq<Event>, st: Settings): real {
    var last := LastSubmission(events, st);
    if last.Some? then last.value else 0.0
  }

  /**
   Whenever the kiosk is neither locked nor capturing, frames that pass the gates and hold still, numerous and long
   enough and reaching past the throttle, start a burst.
   */
  lemma SteadyFaceIsScanned(events: seq<Event>, ticks: seq<Event>, st: Settings)
    requires Symmetric(st.iou) && Ordered(events + ticks)
    requires IsFree(FastRun(INITIAL, events, st).0)
    requires IsSteady(ticks, st) && ticks != [] && |ticks| >= st.stabilityFrames
    requires ticks[|ticks| - 1].now - ticks[0].now >= st.stabilityMs
    requires ticks[|ticks| - 1].now >= SubmittedAt(events, st) + 400.0
    ensures SomeSince(FastRun(INITIAL, events + ticks, st).1, |events|)
  {
    OrderedPrefix(events, ticks);
    TrimmingChangesNoBurst(events, st);
    TrimmingChangesNoBurst(events + ticks, st);
    LastBurstIsRemembered(events, st);
    SteadyRunGrows(events, ticks, st);
    var after := ReferenceRun(INITIAL, events + ticks, st).0;
    if IsWaiting(after, ReferenceRun(INITIAL, events, st).0, ticks, st) {
      SteadyIsLongEnough(after.frames, ticks, st);
    }
  }

  lemma SteadyIsLongEnough(frames: seq<Frame>, ticks: seq<Event>, st: Settings)
    requires forall i | 0 <= i < |ticks| :: Passes(ticks[i])
    requires ticks != [] && |ticks| >= st.stabilityFrames && EndsIn(frames, FramesOf(ticks))
    requires forall i | 0 <= i < |frames| :: frames[0].timestamp <= frames[i].timestamp
    requires ticks[|ticks| - 1].now - ticks[0].now >= st.stabilityMs
    ensures LongEnough(frames, st)
  {
    assert frames[|frames| - |ticks|] == FramesOf(ticks)[0];
    assert frames[|frames| - 1] == FramesOf(ticks)[|ticks| - 1];
  }

  lemma {:induction false} OrderedPrefix(events: seq<Event>, more: seq<Event>)
    requires Ordered(events + more)
    ensures Ordered(events)
  {
    if more == [] {
      assert events + more == events;
    } else {
      var init := more[..|more| - 1];
      assert (events + more)[..|events + more| - 1] == events + init;
      OrderedPrefix(events, init);
    }
  }
}
