/**
 The decision logic of the two sampler ticks and of the browser listeners:
 what each judgment does to the session's counters, buffer and strikes.
 */
module Analysis {
  import opened Policy
  import opened Wrappers
  import opened State
  import opened PostureBuffer
  import opened Strikes
  import opened Escalation
  import opened Detectors

  /** The posture policy applied to the current rolling average, once the
      reading has been buffered: severe streak, moderate warning or good. */
  function PostureRule(s: Session, avg: real, now: int): (r: Step)
    // severe slouch, streak still short: the streak grows, nothing else moves
    ensures avg > POSTURE_STRIKE_ANGLE && s.consecutiveBadPosture + 1 < REQUIRED_CONSECUTIVE_FRAMES ==>
              r == Step(s.(consecutiveBadPosture := s.consecutiveBadPosture + 1), [])
    // severe slouch completing the streak: one posture-severe request, both
    // posture counters cleared, other types' counts kept
    ensures avg > POSTURE_STRIKE_ANGLE && s.consecutiveBadPosture + 1 >= REQUIRED_CONSECUTIVE_FRAMES ==>
              && r.requests == AddStrike(s, POSTURE_SEVERE, now).requests
              && r.next.consecutiveBadPosture == 0
              && Counter(r.next, POSTURE) == 0
              && (forall k | k != POSTURE :: Counter(r.next, k) == Counter(s, k))
              && r.next.lastStrikeAt == AddStrike(s, POSTURE_SEVERE, now).next.lastStrikeAt
    // moderate slouch: the streak breaks and the posture ladder takes one step
    ensures POSTURE_WARN_ANGLE < avg <= POSTURE_STRIKE_ANGLE ==>
              r == HandleViolation(s.(consecutiveBadPosture := 0), POSTURE, now)
    // good posture: both posture counters cleared, nothing requested
    ensures avg <= POSTURE_WARN_ANGLE ==>
              r == Step(SetCounter(s, POSTURE, 0).(consecutiveBadPosture := 0), [])
    ensures r.next.postureAngles == s.postureAngles
    ensures r.next.strikes == s.strikes + Admitted(r.requests)
    ensures |r.requests| <= 1
  {
    if avg > POSTURE_STRIKE_ANGLE then
      var streak := s.consecutiveBadPosture + 1;
      if streak >= REQUIRED_CONSECUTIVE_FRAMES then
        var a := AddStrike(s.(consecutiveBadPosture := streak), POSTURE_SEVERE, now);
        Step(SetCounter(a.next, POSTURE, 0).(consecutiveBadPosture := 0), a.requests)
      else
        Step(s.(consecutiveBadPosture := streak), [])
    else if avg > POSTURE_WARN_ANGLE then
      HandleViolation(s.(consecutiveBadPosture := 0), POSTURE, now)
    else
      Step(SetCounter(s, POSTURE, 0).(consecutiveBadPosture := 0), [])
  }

  /** One pose tick. A low-confidence pose clears only the posture warning
      count, a pose missing a required keypoint clears only the severe streak,
      and neither is buffered; a measured angle is buffered and judged. */
  function AnalyzePose(s: Session, f: PoseFrame, now: int): (r: Step)
    ensures ClassifyPose(f).NotAnalysed? ==> r == Step(s, [])
    ensures ClassifyPose(f).LowConfidence? ==> r == Step(SetCounter(s, POSTURE, 0), [])
    ensures ClassifyPose(f).PartsMissing? ==> r == Step(s.(consecutiveBadPosture := 0), [])
    ensures ClassifyPose(f).Measured? ==>
              var buffered := PushAngle(s.postureAngles, ClassifyPose(f).angle);
              r == PostureRule(s.(postureAngles := buffered), AvgAngle(buffered), now)
    ensures r.next.postureAngles ==
              if ClassifyPose(f).Measured? then PushAngle(s.postureAngles, ClassifyPose(f).angle) else s.postureAngles
    ensures r.next.strikes == s.strikes + Admitted(r.requests)
  {
    match ClassifyPose(f)
    case NotAnalysed => Step(s, [])
    case LowConfidence => Step(SetCounter(s, POSTURE, 0), [])
    case PartsMissing => Step(s.(consecutiveBadPosture := 0), [])
    case Measured(angle) =>
      var buffered := PushAngle(s.postureAngles, angle);
      PostureRule(s.(postureAngles := buffered), AvgAngle(buffered), now)
  }

  /** The face half of the face-and-objects tick. No face is a face-absent
      violation; a readable first face is judged for looking away. A face that
      is present never clears the face-absent count. */
  function FaceCheck(s: Session, f: FaceFrame, now: int): (r: Step)
    ensures f == Faces([]) ==> r == HandleViolation(s, FACE_ABSENT, now)
    ensures f.Faces? && |f.faces| > 0 && f.faces[0].Some? && LooksAway(f.faces[0].value) ==>
              r == HandleViolation(s, LOOK_AWAY, now)
    ensures f.Faces? && |f.faces| > 0 && f.faces[0].Some? && !LooksAway(f.faces[0].value) ==>
              r == ResetCounter(s, LOOK_AWAY)
    ensures f.FaceSkipped? || (|f.faces| > 0 && f.faces[0].None?) ==> r == Step(s, [])
    ensures f != Faces([]) ==> Counter(r.next, FACE_ABSENT) == Counter(s, FACE_ABSENT)
    ensures r.next.strikes == s.strikes + Admitted(r.requests)
    ensures r.next.postureAngles == s.postureAngles
    ensures r.next.consecutiveBadPosture == s.consecutiveBadPosture
  {
    match f
    case FaceSkipped => Step(s, [])
    case Faces(faces) =>
      if |faces| == 0 then HandleViolation(s, FACE_ABSENT, now)
      else match faces[0]
        case None => Step(s, [])
        case Some(l) =>
          if LooksAway(l) then HandleViolation(s, LOOK_AWAY, now) else ResetCounter(s, LOOK_AWAY)
  }

  /** The object half of the face-and-objects tick: a phone is a violation, and
      a detector answer without one clears the phone count. */
  function PhoneCheck(s: Session, o: ObjectFrame, now: int): (r: Step)
    ensures o.ObjectsSkipped? ==> r == Step(s, [])
    ensures o.Detections? && PhoneFound(o.preds) ==> r == HandleViolation(s, PHONE, now)
    ensures o.Detections? && !PhoneFound(o.preds) ==> r == ResetCounter(s, PHONE)
    ensures forall k | k != PHONE :: Counter(r.next, k) == Counter(s, k)
    ensures r.next.strikes == s.strikes + Admitted(r.requests)
    ensures r.next.postureAngles == s.postureAngles
    ensures r.next.consecutiveBadPosture == s.consecutiveBadPosture
  {
    match o
    case ObjectsSkipped => Step(s, [])
    case Detections(preds) =>
      if PhoneFound(preds) then HandleViolation(s, PHONE, now) else ResetCounter(s, PHONE)
  }

  /** The whole face-and-objects tick: the face half, then the object half. */
  function AnalyzeFaceAndObjects(s: Session, f: FaceFrame, o: ObjectFrame, now: int): (r: Step)
    ensures forall k | k != FACE_ABSENT && k != LOOK_AWAY && k != PHONE :: Counter(r.next, k) == Counter(s, k)
    ensures r.next.strikes == s.strikes + Admitted(r.requests)
    ensures r.next.postureAngles == s.postureAngles
    ensures r.next.consecutiveBadPosture == s.consecutiveBadPosture
    ensures |r.requests| <= 2
  {
    var face := FaceCheck(s, f, now);
    var phone := PhoneCheck(face.next, o, now);
    AdmittedAppend(face.requests, phone.requests);
    Then(face, phone)
  }

  /** The browser events the client listens for. */
  datatype BrowserEvent = VisibilityChange(hidden: bool) | WindowBlur | FullscreenChange(inFullscreen: bool)

  /** The violation type a browser event raises, if any. */
  function BrowserViolation(e: BrowserEvent): (t: Option<string>)
    ensures t.Some? <==> (e == VisibilityChange(true) || e == WindowBlur || e == FullscreenChange(false))
    ensures e == VisibilityChange(true) ==> t == Some(TAB_SWITCH)
    ensures e == WindowBlur ==> t == Some(FOCUS_LOST)
    ensures e == FullscreenChange(false) ==> t == Some(FULLSCREEN)
  {
    match e
    case VisibilityChange(hidden) => if hidden then Some(TAB_SWITCH) else None
    case WindowBlur => Some(FOCUS_LOST)
    case FullscreenChange(inFullscreen) => if inFullscreen then None else Some(FULLSCREEN)
  }

  /** A browser event: hiding the page, leaving the window or leaving
      fullscreen is a violation of its own type; nothing is ever cleared. */
  function BrowserStep(s: Session, e: BrowserEvent, now: int): (r: Step)
    ensures BrowserViolation(e).None? ==> r == Step(s, [])
    ensures BrowserViolation(e).Some? ==> r == HandleViolation(s, BrowserViolation(e).value, now)
    ensures forall k | k != TAB_SWITCH && k != FOCUS_LOST && k != FULLSCREEN :: Counter(r.next, k) == Counter(s, k)
    ensures BrowserViolation(e).Some? ==> forall k | k != BrowserViolation(e).value :: Counter(r.next, k) == Counter(s, k)
    ensures r.next.strikes == s.strikes + Admitted(r.requests)
    ensures r.next.postureAngles == s.postureAngles
    ensures r.next.consecutiveBadPosture == s.consecutiveBadPosture
  {
    match BrowserViolation(e)
    case None => Step(s, [])
    case Some(t) => HandleViolation(s, t, now)
  }

  // ------------------------------------------------------- cooldown spacing

  lemma PostureRuleKeepsLog(s: Session, avg: real, now: int)
    ensures KeepsLog(s, PostureRule(s, avg, now))
  {
    var r := PostureRule(s, avg, now);
    if avg > POSTURE_STRIKE_ANGLE {
      var streak := s.consecutiveBadPosture + 1;
      var s1 := s.(consecutiveBadPosture := streak);
      if streak >= REQUIRED_CONSECUTIVE_FRAMES {
        var a := AddStrike(s1, POSTURE_SEVERE, now);
        AddStrikeKeepsLog(s1, POSTURE_SEVERE, now);
        RelabelKeepsLog(s1, a, s, r.next);
      } else {
        QuietKeepsLog(s, r);
      }
    } else if avg > POSTURE_WARN_ANGLE {
      HandleViolationKeepsLog(s.(consecutiveBadPosture := 0), POSTURE, now);
      RelabelKeepsLog(s.(consecutiveBadPosture := 0), r, s, r.next);
    } else {
      QuietKeepsLog(s, r);
    }
  }

  lemma AnalyzePoseKeepsLog(s: Session, f: PoseFrame, now: int)
    ensures KeepsLog(s, AnalyzePose(s, f, now))
  {
    var r := AnalyzePose(s, f, now);
    match ClassifyPose(f)
    case Measured(angle) =>
      var buffered := PushAngle(s.postureAngles, angle);
      var s1 := s.(postureAngles := buffered);
      PostureRuleKeepsLog(s1, AvgAngle(buffered), now);
      RelabelKeepsLog(s1, r, s, r.next);
    case _ =>
      QuietKeepsLog(s, r);
  }

  lemma FaceCheckKeepsLog(s: Session, f: FaceFrame, now: int)
    ensures KeepsLog(s, FaceCheck(s, f, now))
  {
    var r := FaceCheck(s, f, now);
    if f == Faces([]) {
      HandleViolationKeepsLog(s, FACE_ABSENT, now);
    } else if f.Faces? && |f.faces| > 0 && f.faces[0].Some? && LooksAway(f.faces[0].value) {
      HandleViolationKeepsLog(s, LOOK_AWAY, now);
    } else {
      QuietKeepsLog(s, r);
    }
  }

  lemma PhoneCheckKeepsLog(s: Session, o: ObjectFrame, now: int)
    ensures KeepsLog(s, PhoneCheck(s, o, now))
  {
    if o.Detections? && PhoneFound(o.preds) {
      HandleViolationKeepsLog(s, PHONE, now);
    } else {
      QuietKeepsLog(s, PhoneCheck(s, o, now));
    }
  }

  lemma AnalyzeFaceAndObjectsKeepsLog(s: Session, f: FaceFrame, o: ObjectFrame, now: int)
    ensures KeepsLog(s, AnalyzeFaceAndObjects(s, f, o, now))
  {
    var face := FaceCheck(s, f, now);
    FaceCheckKeepsLog(s, f, now);
    PhoneCheckKeepsLog(face.next, o, now);
    ThenKeepsLog(s, face, PhoneCheck(face.next, o, now));
  }

  lemma BrowserStepKeepsLog(s: Session, e: BrowserEvent, now: int)
    ensures KeepsLog(s, BrowserStep(s, e, now))
  {
    if BrowserViolation(e).Some? {
      HandleViolationKeepsLog(s, BrowserViolation(e).value, now);
    } else {
      QuietKeepsLog(s, BrowserStep(s, e, now));
    }
  }
}
