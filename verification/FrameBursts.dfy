/**
 How the frames of one burst are combined into an acceptance or a rejection (backend/app/api/ws_scan.py).

 What the pipeline says of each frame is an input.
 */
module FrameBursts {
  import opened Basics

  datatype ErrorCode =
    | NoFace | MultipleFaces | FaceTooSmall | LowQuality | LivenessFailed
    | Ambiguous | LowConfidence | UnknownFace
    | CooldownActive | RateLimited | ScanBackendUnavailable | ValidationError

  datatype DomainError = DomainError(code: ErrorCode, details: string)

  datatype EventOutcome = WasAccepted | WasLocationConflict | WasAmbiguous | WasLowConfidence | WasUnknownFace

  datatype ScanOutput = ScanOutput(
    personId: Option<Uuid>,
    outcome: EventOutcome,
    top1Score: Option<real>,
    occurredAt: int)

  /** What the pipeline made of one frame; a frame that cannot be decoded is rejected for low quality. */
  datatype Frame = Scanned(output: ScanOutput) | Rejected(error: DomainError)

  // ---------------------------------------------------------------------------------------------
  // Combining a burst

  function OutputsOf(frames: seq<Frame>): seq<ScanOutput> {
    if frames == [] then []
    else
      var rest, last := OutputsOf(frames[..|frames| - 1]), frames[|frames| - 1];
      if last.Scanned? then rest + [last.output] else rest
  }

  function ErrorsOf(frames: seq<Frame>): seq<DomainError> {
    if frames == [] then []
    else
      var rest, last := ErrorsOf(frames[..|frames| - 1]), frames[|frames| - 1];
      if last.Rejected? then rest + [last.error] else rest
  }

  function Successes(outputs: seq<ScanOutput>): seq<ScanOutput> {
    if outputs == [] then []
    else
      var rest, last := Successes(outputs[..|outputs| - 1]), outputs[|outputs| - 1];
      if last.personId.Some? then rest + [last] else rest
  }

  function FirstWith(errors: seq<DomainError>, code: ErrorCode): Option<DomainError> {
    if errors == [] then None
    else if errors[0].code == code then Some(errors[0])
    else FirstWith(errors[1..], code)
  }

  function Score(o: ScanOutput): real {
    if o.top1Score.Some? then o.top1Score.value else 0.0
  }

  /** The first output of the highest score. */
  function Best(outputs: seq<ScanOutput>): ScanOutput
    requires outputs != []
  {
    if |outputs| == 1 then outputs[0]
    else
      var best, last := Best(outputs[..|outputs| - 1]), outputs[|outputs| - 1];
      if Score(best) < Score(last) then last else best
  }

  datatype Verdict = Accept(output: ScanOutput) | Reject(error: DomainError)

  function MostSpecific(errors: seq<DomainError>): DomainError {
    var ambiguous, low, unknown :=
      FirstWith(errors, Ambiguous), FirstWith(errors, LowConfidence), FirstWith(errors, UnknownFace);
    if ambiguous.Some? then ambiguous.value
    else if low.Some? then low.value
    else if unknown.Some? then unknown.value
    else if errors != [] then errors[0]
    else DomainError(UnknownFace, "")
  }

  predicate AllAgree(successes: seq<ScanOutput>) {
    forall i | 0 <= i < |successes| :: successes[i].personId == successes[0].personId
  }

  predicate AllNoFace(errors: seq<DomainError>) {
    forall i | 0 <= i < |errors| :: errors[i].code.NoFace?
  }

  function CombineLists(outputs: seq<ScanOutput>, errors: seq<DomainError>, count: nat): Verdict {
    var successes := Successes(outputs);
    if FirstWith(errors, LivenessFailed).Some? then Reject(FirstWith(errors, LivenessFailed).value)
    else if errors != [] && |errors| == count && AllNoFace(errors) then Reject(errors[0])
    else if successes == [] then Reject(MostSpecific(errors))
    else if AllAgree(successes) then Accept(Best(successes))
    else Reject(DomainError(Ambiguous, "Multiple distinct identities matched in same burst"))
  }

  function Combine(frames: seq<Frame>): Verdict {
    CombineLists(OutputsOf(frames), ErrorsOf(frames), |frames|)
  }

  method RunFrames(frames: seq<Frame>) returns (outputs: seq<ScanOutput>, errors: seq<DomainError>)
    ensures outputs == OutputsOf(frames) && errors == ErrorsOf(frames)
  {
    outputs, errors := [], [];
    for i := 0 to |frames|
      invariant outputs == OutputsOf(frames[..i]) && errors == ErrorsOf(frames[..i])
    {
      assert frames[..i + 1][..i] == frames[..i];
      match frames[i] {
        case Scanned(output) => outputs := outputs + [output];
        case Rejected(error) => errors := errors + [error];
      }
    }
    assert frames[..|frames|] == frames;
  }

  // What a burst contains, whatever the order of its frames

  predicate HasError(frames: seq<Frame>, code: ErrorCode) {
    exists f | f in frames :: f.Rejected? && f.error.code == code
  }

  predicate HasMatch(frames: seq<Frame>, output: ScanOutput) {
    Scanned(output) in frames && output.personId.Some?
  }

  predicate MatchesOnly(frames: seq<Frame>, p: Uuid) {
    forall f | f in frames && f.Scanned? && f.output.personId.Some? :: f.output.personId == Some(p)
  }

  lemma {:induction false} ErrorsAreTheRejections(frames: seq<Frame>, e: DomainError)
    ensures e in ErrorsOf(frames) <==> Rejected(e) in frames
    ensures |ErrorsOf(frames)| + |OutputsOf(frames)| == |frames|
  {
    if frames != [] {
      var rest, last := frames[..|frames| - 1], frames[|frames| - 1];
      ErrorsAreTheRejections(rest, e);
      assert frames == rest + [last];
    }
  }

  lemma {:induction false} OutputsAreTheScans(frames: seq<Frame>, o: ScanOutput)
    ensures o in OutputsOf(frames) <==> Scanned(o) in frames
  {
    if frames != [] {
      var rest, last := frames[..|frames| - 1], frames[|frames| - 1];
      OutputsAreTheScans(rest, o);
      assert frames == rest + [last];
    }
  }

  lemma {:induction false} SuccessesHaveAPerson(outputs: seq<ScanOutput>, o: ScanOutput)
    ensures o in Successes(outputs) <==> o in outputs && o.personId.Some?
  {
    if outputs != [] {
      var rest, last := outputs[..|outputs| - 1], outputs[|outputs| - 1];
      SuccessesHaveAPerson(rest, o);
      assert outputs == rest + [last];
    }
  }

  lemma SuccessesAreTheMatches(frames: seq<Frame>, o: ScanOutput)
    ensures o in Successes(OutputsOf(frames)) <==> HasMatch(frames, o)
  {
  }

  lemma {:induction false} FirstWithFinds(errors: seq<DomainError>, code: ErrorCode)
    ensures FirstWith(errors, code).Some? <==> exists e :: e in errors && e.code == code
    ensures FirstWith(errors, code).Some? ==> FirstWith(errors, code).value.code == code
  {
    if errors != [] && errors[0].code != code {
      FirstWithFinds(errors[1..], code);
      assert errors == [errors[0]] + errors[1..];
    }
  }

  lemma FirstWithSees(frames: seq<Frame>, code: ErrorCode)
    ensures FirstWith(ErrorsOf(frames), code).Some? <==> HasError(frames, code)
    ensures HasError(frames, code) ==> FirstWith(ErrorsOf(frames), code).value.code == code
  {
    FirstWithFinds(ErrorsOf(frames), code);
    forall e
      ensures e in ErrorsOf(frames) <==> Rejected(e) in frames
    {
      ErrorsAreTheRejections(frames, e);
    }
    if HasError(frames, code) {
      var f :| f in frames && f.Rejected? && f.error.code == code;
      assert f == Rejected(f.error);
    }
  }

  lemma {:induction false} BestIsHighest(outputs: seq<ScanOutput>)
    requires outputs != []
    ensures Best(outputs) in outputs
    ensures forall o | o in outputs :: Score(o) <= Score(Best(outputs))
  {
    if |outputs| > 1 {
      BestIsHighest(outputs[..|outputs| - 1]);
      assert outputs == outputs[..|outputs| - 1] + [outputs[|outputs| - 1]];
    }
  }

  lemma SomeMatchIsSeen(frames: seq<Frame>)
    ensures Successes(OutputsOf(frames)) != [] <==> exists o :: HasMatch(frames, o)
  {
    var successes := Successes(OutputsOf(frames));
    if successes != [] {
      SuccessesAreTheMatches(frames, successes[0]);
    }
    forall o | HasMatch(frames, o)
      ensures successes != []
    {
      SuccessesAreTheMatches(frames, o);
    }
  }

  lemma AgreementIsSeen(frames: seq<Frame>, p: Uuid)
    requires Successes(OutputsOf(frames)) != []
    ensures var successes := Successes(OutputsOf(frames));
            (AllAgree(successes) && successes[0].personId == Some(p))
            <==> MatchesOnly(frames, p)
  {
    var successes := Successes(OutputsOf(frames));
    if MatchesOnly(frames, p) {
      forall i | 0 <= i < |successes|
        ensures successes[i].personId == Some(p)
      {
        SuccessesAreTheMatches(frames, successes[i]);
        assert Scanned(successes[i]) in frames;
      }
    }
    if AllAgree(successes) && successes[0].personId == Some(p) {
      forall f | f in frames && f.Scanned? && f.output.personId.Some?
        ensures f.output.personId == Some(p)
      {
        assert f == Scanned(f.output);
        SuccessesAreTheMatches(frames, f.output);
        var i :| 0 <= i < |successes| && successes[i] == f.output;
      }
    }
  }

  /** A burst is accepted for `p` exactly when no frame fails liveness, some frame matches, and every match is `p`. */
  lemma AcceptedExactly(frames: seq<Frame>, p: Uuid)
    ensures (Combine(frames).Accept? && Combine(frames).output.personId == Some(p))
       <==> (!HasError(frames, LivenessFailed) && (exists o :: HasMatch(frames, o)) && MatchesOnly(frames, p))
  {
    var errors, successes := ErrorsOf(frames), Successes(OutputsOf(frames));
    FirstWithSees(frames, LivenessFailed);
    SomeMatchIsSeen(frames);
    if successes != [] {
      ErrorsAreTheRejections(frames, DomainError(NoFace, ""));
      SuccessesHaveAPerson(OutputsOf(frames), successes[0]);
      AgreementIsSeen(frames, p);
      BestIsHighest(successes);
      SuccessesHaveAPerson(OutputsOf(frames), Best(successes));
    }
  }

  /** What an accepted burst records is a match of the burst with the highest score of all its matches. */
  lemma AcceptedMatchIsTheBest(frames: seq<Frame>, o: ScanOutput)
    requires Combine(frames).Accept?
    ensures HasMatch(frames, Combine(frames).output)
    ensures HasMatch(frames, o) ==> Score(o) <= Score(Combine(frames).output)
  {
    var successes := Successes(OutputsOf(frames));
    BestIsHighest(successes);
    SuccessesAreTheMatches(frames, Best(successes));
    SuccessesAreTheMatches(frames, o);
  }

  /** The frame is a match, and every match before it scores less. */
  predicate IsFirstBest(frames: seq<Frame>, k: nat, score: real) {
    && k < |frames| && HasPerson(frames[k]) && Score(frames[k].output) == score
    && forall i | 0 <= i < k && HasPerson(frames[i]) :: Score(frames[i].output) < score
  }

  lemma {:induction false} BestComesFirst(frames: seq<Frame>)
    requires Successes(OutputsOf(frames)) != []
    ensures var best := Best(Successes(OutputsOf(frames)));
            exists k: nat :: IsFirstBest(frames, k, Score(best)) && frames[k].output == best
  {
    var rest, last := frames[..|frames| - 1], |frames| - 1;
    var outputs, before := OutputsOf(frames), Successes(OutputsOf(rest));
    assert forall i | 0 <= i < last :: frames[i] == rest[i];
    if HasPerson(frames[last]) {
      assert Successes(outputs) == before + [frames[last].output];
      assert (before + [frames[last].output])[..|before|] == before;
    } else {
      assert Successes(outputs) == before;
    }
    if before == [] {
      NoMatchBefore(rest);
      assert IsFirstBest(frames, last, Score(frames[last].output));
    } else {
      BestComesFirst(rest);
      var k: nat :| IsFirstBest(rest, k, Score(Best(before))) && rest[k].output == Best(before);
      MatchesScoreAtMost(rest);
      assert IsFirstBest(frames, k, Score(Best(before)));
      assert HasPerson(frames[last]) && Score(Best(before)) < Score(frames[last].output) ==>
          IsFirstBest(frames, last, Score(frames[last].output));
    }
  }

  lemma NoMatchBefore(frames: seq<Frame>)
    requires Successes(OutputsOf(frames)) == []
    ensures forall i | 0 <= i < |frames| :: !HasPerson(frames[i])
  {
    PersonsAreMatches(frames);
  }

  lemma MatchesScoreAtMost(frames: seq<Frame>)
    requires Successes(OutputsOf(frames)) != []
    ensures forall i | 0 <= i < |frames| && HasPerson(frames[i]) ::
              Score(frames[i].output) <= Score(Best(Successes(OutputsOf(frames))))
  {
    BestIsHighest(Successes(OutputsOf(frames)));
    forall i | 0 <= i < |frames| && HasPerson(frames[i])
      ensures Score(frames[i].output) <= Score(Best(Successes(OutputsOf(frames))))
    {
      assert frames[i] == Scanned(frames[i].output);
      SuccessesAreTheMatches(frames, frames[i].output);
    }
  }

  /** Of equally good matches the first frame's is recorded. */
  lemma AcceptedMatchIsTheFirstBest(frames: seq<Frame>)
    requires Combine(frames).Accept?
    ensures exists k: nat :: IsFirstBest(frames, k, Score(Combine(frames).output)) &&
                             frames[k].output == Combine(frames).output
  {
    BestComesFirst(frames);
  }

  predicate IsRecorded(code: ErrorCode) {
    code.Ambiguous? || code.LowConfidence? || code.UnknownFace?
  }

  predicate OnlyNoFace(frames: seq<Frame>) {
    frames != [] && forall f | f in frames :: f.Rejected? && f.error.code.NoFace?
  }

  predicate Disagrees(frames: seq<Frame>) {
    exists f, g | f in frames && g in frames :: HasPerson(f) && HasPerson(g) && f.output.personId != g.output.personId
  }

  predicate HasPerson(f: Frame) {
    f.Scanned? && f.output.personId.Some?
  }

  /** The code a rejected burst is recorded under, read off the set of its frames; none if it leaves no row. */
  function RejectionRecorded(frames: seq<Frame>): Option<ErrorCode> {
    if HasError(frames, LivenessFailed) || OnlyNoFace(frames) then None
    else if exists f | f in frames :: HasPerson(f) then (if Disagrees(frames) then Some(Ambiguous) else None)
    else if HasError(frames, Ambiguous) then Some(Ambiguous)
    else if HasError(frames, LowConfidence) then Some(LowConfidence)
    else if HasError(frames, UnknownFace) || forall f | f in frames :: f.Scanned? then Some(UnknownFace)
    else None
  }

  function Recorded(v: Verdict): Option<ErrorCode> {
    if v.Reject? && IsRecorded(v.error.code) then Some(v.error.code) else None
  }

  lemma OnlyNoFaceIsSeen(frames: seq<Frame>)
    ensures OnlyNoFace(frames)
       <==> (frames != [] && |ErrorsOf(frames)| == |frames| && AllNoFace(ErrorsOf(frames)))
  {
    var errors, outputs := ErrorsOf(frames), OutputsOf(frames);
    ErrorsAreTheRejections(frames, DomainError(NoFace, ""));
    if OnlyNoFace(frames) {
      if outputs != [] {
        OutputsAreTheScans(frames, outputs[0]);
      }
      forall i | 0 <= i < |errors|
        ensures errors[i].code.NoFace?
      {
        ErrorsAreTheRejections(frames, errors[i]);
        assert Rejected(errors[i]) in frames;
      }
    } else if frames != [] && |errors| == |frames| {
      var f :| f in frames && !(f.Rejected? && f.error.code.NoFace?);
      if f.Scanned? {
        OutputsAreTheScans(frames, f.output);
      } else {
        ErrorsAreTheRejections(frames, f.error);
        assert f == Rejected(f.error);
      }
    }
  }

  lemma DisagreementIsSeen(frames: seq<Frame>)
    requires Successes(OutputsOf(frames)) != []
    ensures var successes := Successes(OutputsOf(frames));
            AllAgree(successes) <==> !Disagrees(frames)
  {
    var successes := Successes(OutputsOf(frames));
    SuccessesAreTheMatches(frames, successes[0]);
    AgreementIsSeen(frames, successes[0].personId.value);
    if !Disagrees(frames) {
      forall f | f in frames && f.Scanned? && f.output.personId.Some?
        ensures f.output.personId == successes[0].personId
      {
        assert HasPerson(f) && HasPerson(Scanned(successes[0]));
      }
    }
  }

  lemma NoErrorsMeansOnlyScans(frames: seq<Frame>)
    ensures ErrorsOf(frames) == [] <==> forall f | f in frames :: f.Scanned?
  {
    var errors := ErrorsOf(frames);
    if errors != [] {
      ErrorsAreTheRejections(frames, errors[0]);
    }
    forall f | f in frames && f.Rejected?
      ensures errors != []
    {
      assert f == Rejected(f.error);
      ErrorsAreTheRejections(frames, f.error);
    }
  }

  lemma PersonsAreMatches(frames: seq<Frame>)
    ensures Successes(OutputsOf(frames)) != [] <==> exists f | f in frames :: HasPerson(f)
  {
    SomeMatchIsSeen(frames);
    forall f | f in frames && HasPerson(f)
      ensures HasMatch(frames, f.output)
    {
      assert f == Scanned(f.output);
    }
  }

  lemma RejectionIsReadOff(frames: seq<Frame>)
    ensures Recorded(Combine(frames)) == RejectionRecorded(frames)
  {
    var errors, successes := ErrorsOf(frames), Successes(OutputsOf(frames));
    FirstWithSees(frames, LivenessFailed);
    OnlyNoFaceIsSeen(frames);
    PersonsAreMatches(frames);
    if successes != [] {
      DisagreementIsSeen(frames);
    } else {
      FirstWithSees(frames, Ambiguous);
      FirstWithSees(frames, LowConfidence);
      FirstWithSees(frames, UnknownFace);
      NoErrorsMeansOnlyScans(frames);
      if errors != [] {
        ErrorsAreTheRejections(frames, errors[0]);
        assert Rejected(errors[0]) in frames;
      }
    }
  }

  /** Reordering or repeating frames changes neither the person accepted nor the rejection recorded, nor the score. */
  lemma FrameOrderDoesNotMatter(frames: seq<Frame>, other: seq<Frame>)
    requires forall f :: f in frames <==> f in other
    ensures Combine(frames).Accept? <==> Combine(other).Accept?
    ensures Combine(frames).Accept? ==>
              && Combine(frames).output.personId == Combine(other).output.personId
              && Score(Combine(frames).output) == Score(Combine(other).output)
    ensures Recorded(Combine(frames)) == Recorded(Combine(other))
  {
    forall a, b | (a == frames && b == other) || (a == other && b == frames)
      ensures Combine(a).Accept? ==> Combine(b).Accept? && Combine(a).output.personId == Combine(b).output.personId
    {
      if Combine(a).Accept? {
        AcceptedMatchIsTheBest(a, Combine(a).output);
        var p := Combine(a).output.personId.value;
        AcceptedExactly(a, p);
        AcceptedExactly(b, p);
        assert HasMatch(b, Combine(a).output);
      }
    }
    if Combine(frames).Accept? {
      AcceptedMatchIsTheBest(frames, Combine(other).output);
      AcceptedMatchIsTheBest(other, Combine(frames).output);
    }
    RejectionIsReadOff(frames);
    RejectionIsReadOff(other);
  }

  /** The code of the first rejected frame. */
  predicate IsFirstError(frames: seq<Frame>, k: nat) {
    k < |frames| && frames[k].Rejected? && forall i | 0 <= i < k :: frames[i].Scanned?
  }

  lemma {:induction false} FirstErrorIsFirst(frames: seq<Frame>)
    ensures ErrorsOf(frames) != [] ==>
              exists k: nat :: IsFirstError(frames, k) && frames[k].error == ErrorsOf(frames)[0]
  {
    if frames != [] {
      var rest, last := frames[..|frames| - 1], |frames| - 1;
      FirstErrorIsFirst(rest);
      assert forall i | 0 <= i < last :: frames[i] == rest[i];
      if ErrorsOf(rest) != [] {
        var k: nat :| IsFirstError(rest, k) && rest[k].error == ErrorsOf(rest)[0];
        assert IsFirstError(frames, k);
      } else if frames[last].Rejected? {
        NoErrorsMeansOnlyScans(rest);
        assert forall i | 0 <= i < last :: rest[i] in rest;
        assert IsFirstError(frames, last);
      }
    }
  }

  /**
   The code a rejected burst is answered with: a failed liveness check before all, the recorded code, or else that of
   the first rejected frame, which is no face if no frame had one.
   */
  lemma RejectionMeans(frames: seq<Frame>)
    requires Combine(frames).Reject?
    ensures var code := Combine(frames).error.code;
            && (code.LivenessFailed? <==> HasError(frames, LivenessFailed))
            && (RejectionRecorded(frames).Some? ==> RejectionRecorded(frames) == Some(code))
            && (RejectionRecorded(frames).None? && !HasError(frames, LivenessFailed) ==>
                  exists k: nat :: IsFirstError(frames, k) && frames[k].error.code == code)
  {
    RejectionIsReadOff(frames);
    FirstErrorIsFirst(frames);
    FirstWithSees(frames, LivenessFailed);
    var errors := ErrorsOf(frames);
    if errors != [] {
      ErrorsAreTheRejections(frames, errors[0]);
      assert errors[0].code.LivenessFailed? ==> HasError(frames, LivenessFailed) by {
        assert Rejected(errors[0]) in frames;
      }
    }
    FirstWithFinds(errors, Ambiguous);
    FirstWithFinds(errors, LowConfidence);
    FirstWithFinds(errors, UnknownFace);
  }

  lemma SoleRejection(e: DomainError)
    requires IsRecorded(e.code)
    ensures Combine([Rejected(e)]).Reject? && Combine([Rejected(e)]).error.code == e.code
  {
    var frames := [Rejected(e)];
    assert frames[0] in frames && HasError(frames, e.code);
    assert forall f | f in frames :: f == frames[0];
    RejectionIsReadOff(frames);
  }

  lemma SoleMatch(o: ScanOutput)
    requires o.personId.Some?
    ensures Combine([Scanned(o)]) == Accept(o)
  {
    var frames := [Scanned(o)];
    assert frames[0] in frames && HasMatch(frames, o);
    assert forall f | f in frames :: f == frames[0];
    AcceptedExactly(frames, o.personId.value);
    AcceptedMatchIsTheBest(frames, o);
  }
}
