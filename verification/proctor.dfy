/**
 A proctored session as a sequence of timed signals: pose ticks,
 face-and-objects ticks and browser events, each handled to completion
 before the next. Properties here hold of every such sequence.
 */
module Proctor {
  import opened Policy
  import opened Wrappers
  import opened State
  import opened PostureBuffer
  import opened Strikes
  import opened Escalation
  import opened Detectors
  import opened Analysis

  datatype Signal =
    | PoseTick(pose: PoseFrame)
    | FaceObjectTick(face: FaceFrame, objects: ObjectFrame)
    | Browser(event: BrowserEvent)

  /** A signal and the clock reading at which it is handled. */
  datatype Input = Input(signal: Signal, at: int)

  function Apply(s: Session, i: Input): (r: Step)
    ensures r.next.strikes == s.strikes + Admitted(r.requests)
  {
    match i.signal
    case PoseTick(f) => AnalyzePose(s, f, i.at)
    case FaceObjectTick(f, o) => AnalyzeFaceAndObjects(s, f, o, i.at)
    case Browser(e) => BrowserStep(s, e, i.at)
  }

  /** The signals handled one after another; the requests are collected in order. */
  function Run(s: Session, trace: seq<Input>): Step {
    if |trace| == 0 then Step(s, [])
    else
      var prev := Run(s, trace[..|trace| - 1]);
      Then(prev, Apply(prev.next, trace[|trace| - 1]))
  }

  /** What every reachable state satisfies: the buffer is bounded, the severe
      streak and every warning count are below their limits, and termination
      has been invoked exactly when the strike count has reached its limit. */
  ghost predicate Inv(s: Session) {
    && |s.postureAngles| <= POSTURE_BUFFER
    && s.consecutiveBadPosture < REQUIRED_CONSECUTIVE_FRAMES
    && (forall t :: Counter(s, t) <= MAX_WARNINGS)
    && (s.terminated <==> s.strikes >= MAX_STRIKES)
  }

  lemma InitialInv()
    ensures Inv(Initial())
  {
  }

  lemma AddStrikeInv(s: Session, reason: string, now: int)
    requires s.terminated <==> s.strikes >= MAX_STRIKES
    ensures var r := AddStrike(s, reason, now);
      r.next.terminated <==> r.next.strikes >= MAX_STRIKES
  {
  }

  lemma HandleViolationInv(s: Session, t: string, now: int)
    requires Inv(s)
    ensures Inv(HandleViolation(s, t, now).next)
  {
    HandleViolationBounded(s, t, now);
    var c := Counter(s, t) + 1;
    if c > MAX_WARNINGS {
      AddStrikeInv(SetCounter(s, t, c), ViolationReason(t), now);
    }
  }

  /** Two states with the same counter map read the same counts. */
  lemma SameCounters(s: Session, s': Session)
    requires s.violationCounters == s'.violationCounters
    ensures forall t :: Counter(s', t) == Counter(s, t)
  {
  }

  lemma PostureRuleInv(s: Session, avg: real, now: int)
    requires Inv(s)
    ensures Inv(PostureRule(s, avg, now).next)
  {
    var r := PostureRule(s, avg, now);
    if avg > POSTURE_STRIKE_ANGLE {
      var streak := s.consecutiveBadPosture + 1;
      if streak >= REQUIRED_CONSECUTIVE_FRAMES {
        AddStrikeInv(s.(consecutiveBadPosture := streak), POSTURE_SEVERE, now);
      } else {
        SameCounters(s, r.next);
      }
    } else if avg > POSTURE_WARN_ANGLE {
      SameCounters(s, s.(consecutiveBadPosture := 0));
      HandleViolationInv(s.(consecutiveBadPosture := 0), POSTURE, now);
    } else {
      SameCounters(SetCounter(s, POSTURE, 0), r.next);
    }
  }

  lemma ApplyInv(s: Session, i: Input)
    requires Inv(s)
    ensures Inv(Apply(s, i).next)
  {
    match i.signal
    case PoseTick(f) =>
      if ClassifyPose(f).NotAnalysed? || ClassifyPose(f).PartsMissing? {
        SameCounters(s, Apply(s, i).next);
      } else if ClassifyPose(f).Measured? {
        var buffered := PushAngle(s.postureAngles, ClassifyPose(f).angle);
        SameCounters(s, s.(postureAngles := buffered));
        PostureRuleInv(s.(postureAngles := buffered), AvgAngle(buffered), i.at);
      }
    case FaceObjectTick(f, o) =>
      var face := FaceCheck(s, f, i.at);
      if f == Faces([]) {
        HandleViolationInv(s, FACE_ABSENT, i.at);
      } else if f.FaceSkipped? || f.faces[0].None? {
        SameCounters(s, face.next);
      } else if f.Faces? && |f.faces| > 0 && f.faces[0].Some? && LooksAway(f.faces[0].value) {
        HandleViolationInv(s, LOOK_AWAY, i.at);
      }
      assert Inv(face.next);
      if o.Detections? && PhoneFound(o.preds) {
        HandleViolationInv(face.next, PHONE, i.at);
      }
    case Browser(e) =>
      if BrowserViolation(e).Some? {
        HandleViolationInv(s, BrowserViolation(e).value, i.at);
      }
  }

  /** Every state a session reaches satisfies the invariant. */
  lemma {:induction false} RunInv(s: Session, trace: seq<Input>)
    requires Inv(s)
    ensures Inv(Run(s, trace).next)
    decreases |trace|
  {
    if |trace| > 0 {
      RunInv(s, trace[..|trace| - 1]);
      ApplyInv(Run(s, trace[..|trace| - 1]).next, trace[|trace| - 1]);
    }
  }

  /** The strike count is the number of admitted requests: it never decreases,
      and only an admitted request raises it. */
  lemma {:induction false} RunStrikes(s: Session, trace: seq<Input>)
    ensures Run(s, trace).next.strikes == s.strikes + Admitted(Run(s, trace).requests)
    ensures Run(s, trace).next.strikes >= s.strikes
    decreases |trace|
  {
    if |trace| > 0 {
      var prev := Run(s, trace[..|trace| - 1]);
      RunStrikes(s, trace[..|trace| - 1]);
      var a := Apply(prev.next, trace[|trace| - 1]);
      AdmittedAppend(prev.requests, a.requests);
    }
  }

  /** The angles a trace's pose ticks measure, in order. */
  function MeasuredAngles(trace: seq<Input>): seq<real> {
    if |trace| == 0 then []
    else
      var last := trace[|trace| - 1];
      MeasuredAngles(trace[..|trace| - 1]) +
        (if last.signal.PoseTick? && ClassifyPose(last.signal.pose).Measured?
         then [ClassifyPose(last.signal.pose).angle] else [])
  }

  lemma {:induction false} RunBuffer(s: Session, trace: seq<Input>)
    ensures Run(s, trace).next.postureAngles == PushAll(s.postureAngles, MeasuredAngles(trace))
    decreases |trace|
  {
    if |trace| > 0 {
      var init := trace[..|trace| - 1];
      RunBuffer(s, init);
      var last := trace[|trace| - 1];
      var ms := MeasuredAngles(init);
      if last.signal.PoseTick? && ClassifyPose(last.signal.pose).Measured? {
        var extra := [ClassifyPose(last.signal.pose).angle];
        assert (ms + extra)[..|ms + extra| - 1] == ms;
      } else {
        assert MeasuredAngles(trace) == ms + [];
        assert ms + [] == ms;
      }
    }
  }

  /** From session start, the posture buffer always holds exactly the last
      min(n, 20) angles measured so far. */
  lemma RunBufferIsWindow(trace: seq<Input>)
    ensures Run(Initial(), trace).next.postureAngles == Window(MeasuredAngles(trace))
  {
    RunBuffer(Initial(), trace);
    PushAllIsWindow(MeasuredAngles(trace));
  }

  lemma ApplyKeepsLog(s: Session, i: Input)
    ensures KeepsLog(s, Apply(s, i))
  {
    match i.signal
    case PoseTick(f) => AnalyzePoseKeepsLog(s, f, i.at);
    case FaceObjectTick(f, o) => AnalyzeFaceAndObjectsKeepsLog(s, f, o, i.at);
    case Browser(e) => BrowserStepKeepsLog(s, e, i.at);
  }

  lemma {:induction false} RunKeepsLog(s: Session, trace: seq<Input>)
    ensures KeepsLog(s, Run(s, trace))
    decreases |trace|
  {
    if |trace| == 0 {
      QuietKeepsLog(s, Run(s, trace));
    } else {
      var prev := Run(s, trace[..|trace| - 1]);
      RunKeepsLog(s, trace[..|trace| - 1]);
      ApplyKeepsLog(prev.next, trace[|trace| - 1]);
      ThenKeepsLog(s, prev, Apply(prev.next, trace[|trace| - 1]));
    }
  }

  /** Over any session from the start, given one clock reading per strike
      request, two admitted strikes of one reason are more than
      STRIKE_COOLDOWN_MS apart, the later one stamped later. */
  lemma CooldownSpacing(trace: seq<Input>)
    ensures var reqs := Run(Initial(), trace).requests;
      forall i, j | 0 <= i < j < |reqs| && reqs[i].admitted && reqs[j].admitted && reqs[i].reason == reqs[j].reason ::
        reqs[j].at - reqs[i].at > STRIKE_COOLDOWN_MS
  {
    RunKeepsLog(Initial(), trace);
    assert CooldownLog(Initial(), []);
    assert [] + Run(Initial(), trace).requests == Run(Initial(), trace).requests;
  }

  /** Termination is invoked by exactly those admitted requests that bring the
      count to MAX_STRIKES or beyond, and a session from the start is
      terminated exactly when MAX_STRIKES strikes have been admitted. */
  lemma TerminationAtLimit(trace: seq<Input>)
    ensures Run(Initial(), trace).next.terminated <==> Admitted(Run(Initial(), trace).requests) >= MAX_STRIKES
  {
    InitialInv();
    RunInv(Initial(), trace);
    RunStrikes(Initial(), trace);
  }
}
