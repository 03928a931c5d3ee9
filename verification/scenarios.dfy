/**
 Multi-tick behaviour of the proctoring engine: the severe-slouch streak,
 the moderate-slouch ladder, look-away and face-absent sequences, and
 strikes raised by browser events after termination.
 */
module Scenarios {
  import opened Policy
  import opened Wrappers
  import opened State
  import opened PostureBuffer
  import opened Strikes
  import opened Escalation
  import opened Detectors
  import opened Analysis
  import opened Proctor

  /** A confident pose listing every required keypoint, measuring `angle`. */
  function Measure(angle: real): PoseFrame {
    PoseEstimate(Some(Pose(0.9, Some(REQUIRED_PARTS), angle)))
  }

  /** A confident pose whose keypoint list lacks the hips. */
  const NO_HIPS: PoseFrame := PoseEstimate(Some(Pose(0.9, Some(["leftShoulder", "rightShoulder", "nose"]), 0.0)))

  lemma MeasureIsMeasured(angle: real)
    ensures ClassifyPose(Measure(angle)) == Measured(angle)
  {
    assert HasRequiredParts(REQUIRED_PARTS);
  }

  /** One measured tick whose reading and buffer are all at least `lo`: the
      buffer stays at least `lo` and the policy sees an average of at least `lo`. */
  lemma BoundedTick(s: Session, lo: real, a: real, t: int)
    requires lo <= a
    requires forall i | 0 <= i < |s.postureAngles| :: lo <= s.postureAngles[i]
    ensures var buffered := PushAngle(s.postureAngles, a);
      && AnalyzePose(s, Measure(a), t) == PostureRule(s.(postureAngles := buffered), AvgAngle(buffered), t)
      && lo <= AvgAngle(buffered)
      && (forall i | 0 <= i < |buffered| :: lo <= buffered[i])
  {
    MeasureIsMeasured(a);
    var buffered := PushAngle(s.postureAngles, a);
    forall i | 0 <= i < |buffered|
      ensures lo <= buffered[i]
    {
      if |s.postureAngles| < POSTURE_BUFFER {
        assert buffered == s.postureAngles + [a];
      } else {
        assert buffered == s.postureAngles[1..] + [a];
      }
    }
    AvgAtLeast(buffered, lo);
  }

  /** Three severe ticks in a row request exactly one posture-severe strike,
      on the third, and clear both posture counters. */
  lemma SevereStreak(s: Session, lo: real, a1: real, a2: real, a3: real, t1: int, t2: int, t3: int)
    requires lo > POSTURE_STRIKE_ANGLE
    requires s.consecutiveBadPosture == 0
    requires forall i | 0 <= i < |s.postureAngles| :: lo <= s.postureAngles[i]
    requires lo <= a1 && lo <= a2 && lo <= a3
    ensures var r1 := AnalyzePose(s, Measure(a1), t1);
      var r2 := AnalyzePose(r1.next, Measure(a2), t2);
      var r3 := AnalyzePose(r2.next, Measure(a3), t3);
      && r1.requests == [] && r2.requests == []
      && |r3.requests| == 1 && r3.requests[0].reason == POSTURE_SEVERE && r3.requests[0].at == t3
      && r3.next.consecutiveBadPosture == 0
      && Counter(r3.next, POSTURE) == 0
  {
    BoundedTick(s, lo, a1, t1);
    var r1 := AnalyzePose(s, Measure(a1), t1);
    BoundedTick(r1.next, lo, a2, t2);
    var r2 := AnalyzePose(r1.next, Measure(a2), t2);
    BoundedTick(r2.next, lo, a3, t3);
  }

  /** A tick missing a required keypoint breaks the severe streak, so severe,
      keypoints missing, severe, severe requests nothing. */
  lemma UndetectedBreaksStreak(s: Session, lo: real, a1: real, a2: real, a3: real, t1: int, t2: int, t3: int, t4: int)
    requires lo > POSTURE_STRIKE_ANGLE
    requires s.consecutiveBadPosture == 0
    requires forall i | 0 <= i < |s.postureAngles| :: lo <= s.postureAngles[i]
    requires lo <= a1 && lo <= a2 && lo <= a3
    ensures var r1 := AnalyzePose(s, Measure(a1), t1);
      var r2 := AnalyzePose(r1.next, NO_HIPS, t2);
      var r3 := AnalyzePose(r2.next, Measure(a2), t3);
      var r4 := AnalyzePose(r3.next, Measure(a3), t4);
      && r1.requests + r2.requests + r3.requests + r4.requests == []
      && r4.next.consecutiveBadPosture == 2
  {
    BoundedTick(s, lo, a1, t1);
    var r1 := AnalyzePose(s, Measure(a1), t1);
    assert ClassifyPose(NO_HIPS) == PartsMissing by {
      assert "leftHip" in REQUIRED_PARTS && "leftHip" !in ["leftShoulder", "rightShoulder", "nose"];
    }
    var r2 := AnalyzePose(r1.next, NO_HIPS, t2);
    assert r2.next.postureAngles == r1.next.postureAngles;
    BoundedTick(r2.next, lo, a2, t3);
    var r3 := AnalyzePose(r2.next, Measure(a2), t3);
    BoundedTick(r3.next, lo, a3, t4);
  }

  /** A confident pose listing every required keypoint but scoring below MIN_POSE_SCORE. */
  const LOW_SCORE: PoseFrame := PoseEstimate(Some(Pose(0.1, Some(REQUIRED_PARTS), 0.0)))

  /** A low-score tick clears only the posture warning count, not the severe
      streak, so severe, low score, severe, severe still requests one
      posture-severe strike, on the fourth tick. */
  lemma LowScoreKeepsStreak(s: Session, lo: real, a1: real, a2: real, a3: real, t1: int, t2: int, t3: int, t4: int)
    requires lo > POSTURE_STRIKE_ANGLE
    requires s.consecutiveBadPosture == 0
    requires forall i | 0 <= i < |s.postureAngles| :: lo <= s.postureAngles[i]
    requires lo <= a1 && lo <= a2 && lo <= a3
    ensures var r1 := AnalyzePose(s, Measure(a1), t1);
      var r2 := AnalyzePose(r1.next, LOW_SCORE, t2);
      var r3 := AnalyzePose(r2.next, Measure(a2), t3);
      var r4 := AnalyzePose(r3.next, Measure(a3), t4);
      && r1.requests + r2.requests + r3.requests == []
      && r2.next.consecutiveBadPosture == 1
      && |r4.requests| == 1 && r4.requests[0].reason == POSTURE_SEVERE && r4.requests[0].at == t4
      && r4.next.consecutiveBadPosture == 0
  {
    BoundedTick(s, lo, a1, t1);
    var r1 := AnalyzePose(s, Measure(a1), t1);
    assert ClassifyPose(LOW_SCORE) == LowConfidence;
    var r2 := AnalyzePose(r1.next, LOW_SCORE, t2);
    assert r2.next.postureAngles == r1.next.postureAngles;
    BoundedTick(r2.next, lo, a2, t3);
    var r3 := AnalyzePose(r2.next, Measure(a2), t3);
    BoundedTick(r3.next, lo, a3, t4);
  }

  /** Moderate slouching held steady: the first two ticks only warn, the third
      requests one "posture violation" strike and clears the ladder. */
  lemma ModerateSlouch(s: Session, c: real, t1: int, t2: int, t3: int)
    requires POSTURE_WARN_ANGLE < c <= POSTURE_STRIKE_ANGLE
    requires Counter(s, POSTURE) == 0
    requires forall i | 0 <= i < |s.postureAngles| :: s.postureAngles[i] == c
    ensures var r1 := AnalyzePose(s, Measure(c), t1);
      var r2 := AnalyzePose(r1.next, Measure(c), t2);
      var r3 := AnalyzePose(r2.next, Measure(c), t3);
      && r1.requests == [] && r2.requests == []
      && Counter(r1.next, POSTURE) == 1 && Counter(r2.next, POSTURE) == 2
      && |r3.requests| == 1 && r3.requests[0].reason == ViolationReason(POSTURE)
      && Counter(r3.next, POSTURE) == 0
      && r3.next.consecutiveBadPosture == 0
  {
    ConstantTick(s, c, t1);
    var r1 := AnalyzePose(s, Measure(c), t1);
    ConstantTick(r1.next, c, t2);
    var r2 := AnalyzePose(r1.next, Measure(c), t2);
    ConstantTick(r2.next, c, t3);
  }

  lemma ConstantTick(s: Session, c: real, t: int)
    requires forall i | 0 <= i < |s.postureAngles| :: s.postureAngles[i] == c
    ensures var buffered := PushAngle(s.postureAngles, c);
      && AnalyzePose(s, Measure(c), t) == PostureRule(s.(postureAngles := buffered), c, t)
      && (forall i | 0 <= i < |buffered| :: buffered[i] == c)
  {
    MeasureIsMeasured(c);
    var buffered := PushAngle(s.postureAngles, c);
    forall i | 0 <= i < |buffered|
      ensures buffered[i] == c
    {
      if |s.postureAngles| < POSTURE_BUFFER {
        assert buffered == s.postureAngles + [c];
      } else {
        assert buffered == s.postureAngles[1..] + [c];
      }
    }
    AvgOfConstant(buffered, c);
  }

  /** A face with eyes at x = 0 and x = 100 and the nose at `noseX`:
      its yaw is 50 - noseX percent. */
  function FaceAt(noseX: real): FaceFrame {
    Faces([Some(Landmarks(0.0, 100.0, noseX))])
  }

  lemma FaceAtYaw(noseX: real)
    ensures YawNorm(Landmarks(0.0, 100.0, noseX)) == 50.0 - noseX
  {
  }

  /** Yaw readings 5, 25, 5, 25, 25, 25: the straight-ahead ticks clear the
      look-away count, but the last three readings are consecutive, so the last
      tick requests a "lookAway violation" strike. */
  lemma YawSequence(s: Session, t1: int, t2: int, t3: int, t4: int, t5: int, t6: int)
    requires Counter(s, LOOK_AWAY) == 0
    ensures var r1 := FaceCheck(s, FaceAt(45.0), t1);
      var r2 := FaceCheck(r1.next, FaceAt(25.0), t2);
      var r3 := FaceCheck(r2.next, FaceAt(45.0), t3);
      var r4 := FaceCheck(r3.next, FaceAt(25.0), t4);
      var r5 := FaceCheck(r4.next, FaceAt(25.0), t5);
      var r6 := FaceCheck(r5.next, FaceAt(25.0), t6);
      && r1.requests + r2.requests + r3.requests + r4.requests + r5.requests == []
      && Counter(r3.next, LOOK_AWAY) == 0
      && |r6.requests| == 1 && r6.requests[0].reason == ViolationReason(LOOK_AWAY)
      && Counter(r6.next, LOOK_AWAY) == 0
  {
    FaceAtYaw(45.0);
    FaceAtYaw(25.0);
    assert !LooksAway(Landmarks(0.0, 100.0, 45.0));
    assert LooksAway(Landmarks(0.0, 100.0, 25.0));
  }

  /** Face absent, present, absent, present, absent: a visible face never
      clears the face-absent count, so the third absence requests a
      "faceAbsent violation" strike although the absences were not consecutive. */
  lemma FaceAbsenceAccumulates(s: Session, t1: int, t2: int, t3: int, t4: int, t5: int)
    requires Counter(s, FACE_ABSENT) == 0
    ensures var r1 := FaceCheck(s, Faces([]), t1);
      var r2 := FaceCheck(r1.next, FaceAt(50.0), t2);
      var r3 := FaceCheck(r2.next, Faces([]), t3);
      var r4 := FaceCheck(r3.next, FaceAt(50.0), t4);
      var r5 := FaceCheck(r4.next, Faces([]), t5);
      && r1.requests + r2.requests + r3.requests + r4.requests == []
      && |r5.requests| == 1 && r5.requests[0].reason == ViolationReason(FACE_ABSENT)
  {
    FaceAtYaw(50.0);
    assert !LooksAway(Landmarks(0.0, 100.0, 50.0));
  }

  /** Termination stops neither the browser listeners nor the strike routine:
      a terminated session at the limit whose focus-lost ladder is full takes a
      fourth strike on the next window blur, and termination is invoked again. */
  lemma StrikesPassLimit(s: Session, now: int)
    requires s.terminated && s.strikes == MAX_STRIKES
    requires Counter(s, FOCUS_LOST) == MAX_WARNINGS
    requires now - LastStrike(s, ViolationReason(FOCUS_LOST)) > STRIKE_COOLDOWN_MS
    ensures BrowserStep(s, WindowBlur, now).next.strikes == MAX_STRIKES + 1
    ensures BrowserStep(s, WindowBlur, now).requests[0].terminates
  {
    assert BrowserViolation(WindowBlur) == Some(FOCUS_LOST);
    var counted := SetCounter(s, FOCUS_LOST, MAX_WARNINGS + 1);
    assert LastStrike(counted, ViolationReason(FOCUS_LOST)) == LastStrike(s, ViolationReason(FOCUS_LOST));
  }
}
