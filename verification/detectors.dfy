/**
 The fixed-threshold judgments the client makes on detector output. The
 detectors themselves (pose, face mesh, object detection) are outside the
 model: their results arrive as values of the datatypes below.
 */
module Detectors {
  import opened Policy
  import opened Wrappers

  // ---------------------------------------------------------------- pose

  /** One pose estimate: its overall score, the part names of its keypoints
      (None when the estimate carries no keypoint list) and the spine-tilt angle,
      in degrees from vertical, that the client derives from the shoulder and
      hip midpoints. */
  datatype Pose = Pose(score: real, parts: Option<seq<string>>, spineAngle: real)

  /** A pose tick's input: either no analysis happened (model not loaded, video
      not ready, or the estimator failed) or the estimator answered, possibly
      with no pose. */
  datatype PoseFrame = PoseSkipped | PoseEstimate(pose: Option<Pose>)

  /** The judgment of a pose tick. */
  datatype PoseVerdict = NotAnalysed | LowConfidence | PartsMissing | Measured(angle: real)

  /** The keypoints a pose must list to be measured. */
  const REQUIRED_PARTS: seq<string> := ["leftShoulder", "rightShoulder", "leftHip", "rightHip", "nose"]

  predicate HasRequiredParts(parts: seq<string>) {
    forall p | p in REQUIRED_PARTS :: p in parts
  }

  function ClassifyPose(f: PoseFrame): (v: PoseVerdict)
    ensures v.NotAnalysed? <==> f.PoseSkipped?
    ensures v.LowConfidence? <==>
              f.PoseEstimate? && (f.pose.None? || f.pose.value.score < MIN_POSE_SCORE || f.pose.value.parts.None?)
    ensures v.Measured? <==>
              && f.PoseEstimate? && f.pose.Some?
              && f.pose.value.score >= MIN_POSE_SCORE
              && f.pose.value.parts.Some?
              && HasRequiredParts(f.pose.value.parts.value)
    ensures v.Measured? ==> v.angle == f.pose.value.spineAngle
  {
    match f
    case PoseSkipped => NotAnalysed
    case PoseEstimate(None) => LowConfidence
    case PoseEstimate(Some(p)) =>
      if p.score < MIN_POSE_SCORE || p.parts.None? then LowConfidence
      else if !HasRequiredParts(p.parts.value) then PartsMissing
      else Measured(p.spineAngle)
  }

  // ---------------------------------------------------------------- face

  function Abs(x: real): real {
    if x < 0.0 then -x else x
  }

  /** Horizontal positions of the first face's eyes and nose tip, however the
      face model supplied them (named annotations or dense mesh vertices). */
  datatype Landmarks = Landmarks(leftEyeX: real, rightEyeX: real, noseX: real)

  /** The face sampler's input: skipped (no face model, video not ready, or the
      estimator failed) or the list of faces found; a face whose landmarks
      could not be read carries None. */
  datatype FaceFrame = FaceSkipped | Faces(faces: seq<Option<Landmarks>>)

  /** Offset of the nose from the eyes' midpoint, as a percentage of the eye
      distance; a zero eye distance is replaced by 1. */
  function YawNorm(l: Landmarks): (r: real)
    ensures r > 0.0 <==> (l.leftEyeX + l.rightEyeX) / 2.0 > l.noseX
    ensures r == 0.0 <==> (l.leftEyeX + l.rightEyeX) / 2.0 == l.noseX
  {
    var midEyeX := (l.leftEyeX + l.rightEyeX) / 2.0;
    var yaw := midEyeX - l.noseX;
    var faceWidth := if Abs(l.leftEyeX - l.rightEyeX) == 0.0 then 1.0 else Abs(l.leftEyeX - l.rightEyeX);
    yaw / faceWidth * 100.0
  }

  /** The look-away judgment: the normalised yaw exceeds YAW_LIMIT either way. */
  predicate LooksAway(l: Landmarks) {
    Abs(YawNorm(l)) > YAW_LIMIT
  }

  /** The judgment in plain geometry: the nose is off the eyes' midpoint by
      more than YAW_LIMIT percent of the eye distance, or of 1 when the eyes
      coincide. */
  lemma LooksAwayGeometry(l: Landmarks)
    ensures var w := Abs(l.leftEyeX - l.rightEyeX);
      var off := Abs((l.leftEyeX + l.rightEyeX) / 2.0 - l.noseX);
      && (w > 0.0 ==> (LooksAway(l) <==> off * 100.0 > YAW_LIMIT * w))
      && (w == 0.0 ==> (LooksAway(l) <==> off * 100.0 > YAW_LIMIT))
  {
    var w := Abs(l.leftEyeX - l.rightEyeX);
    var y := (l.leftEyeX + l.rightEyeX) / 2.0 - l.noseX;
    var d := if w == 0.0 then 1.0 else w;
    assert YawNorm(l) == y / d * 100.0;
    AbsScaled(y, d);
  }

  /** |y / d * 100| compares with YAW_LIMIT as |y| * 100 does with YAW_LIMIT * d. */
  lemma AbsScaled(y: real, d: real)
    requires d > 0.0
    ensures Abs(y / d * 100.0) > YAW_LIMIT <==> Abs(y) * 100.0 > YAW_LIMIT * d
  {
    var q := y / d;
    assert q * d == y;
    assert Abs(q) * d == Abs(y);
    assert Abs(q * 100.0) == Abs(q) * 100.0;
    assert Abs(q) * 100.0 * d == Abs(y) * 100.0;
  }

  /** The judgment does not depend on which eye is reported as the left one. */
  lemma LooksAwayEyeSwap(l: Landmarks)
    ensures LooksAway(Landmarks(l.rightEyeX, l.leftEyeX, l.noseX)) <==> LooksAway(l)
  {
    assert YawNorm(Landmarks(l.rightEyeX, l.leftEyeX, l.noseX)) == YawNorm(l);
  }

  /** Turning left and turning right are judged alike: mirroring the image
      negates the yaw and keeps the judgment. */
  lemma LooksAwayMirror(l: Landmarks)
    ensures YawNorm(Landmarks(-l.leftEyeX, -l.rightEyeX, -l.noseX)) == -YawNorm(l)
    ensures LooksAway(Landmarks(-l.leftEyeX, -l.rightEyeX, -l.noseX)) <==> LooksAway(l)
  {
    var m := Landmarks(-l.leftEyeX, -l.rightEyeX, -l.noseX);
    var w := if Abs(l.leftEyeX - l.rightEyeX) == 0.0 then 1.0 else Abs(l.leftEyeX - l.rightEyeX);
    var y := (l.leftEyeX + l.rightEyeX) / 2.0 - l.noseX;
    assert Abs(m.leftEyeX - m.rightEyeX) == Abs(l.leftEyeX - l.rightEyeX);
    assert (m.leftEyeX + m.rightEyeX) / 2.0 - m.noseX == -y;
    assert YawNorm(l) == y / w * 100.0;
    assert YawNorm(m) == (-y) / w * 100.0;
    NegDiv(y, w);
  }

  lemma NegDiv(y: real, w: real)
    requires w > 0.0
    ensures (-y) / w * 100.0 == -(y / w * 100.0)
  {
    var q := y / w;
    assert q * w == y;
    assert (-q) * w == -y;
    assert (-y) / w == -q;
  }

  /** Where the face sits in the frame does not matter: shifting every point
      by the same amount keeps the yaw. */
  lemma YawShift(l: Landmarks, d: real)
    ensures YawNorm(Landmarks(l.leftEyeX + d, l.rightEyeX + d, l.noseX + d)) == YawNorm(l)
  {
    var m := Landmarks(l.leftEyeX + d, l.rightEyeX + d, l.noseX + d);
    assert m.leftEyeX - m.rightEyeX == l.leftEyeX - l.rightEyeX;
    assert (m.leftEyeX + m.rightEyeX) / 2.0 - m.noseX == (l.leftEyeX + l.rightEyeX) / 2.0 - l.noseX;
  }

  // ---------------------------------------------------------------- objects

  /** One object-detector prediction: class name and confidence. */
  datatype Detection = Detection(cls: string, score: real)

  /** The object sampler's input: skipped (no model, video not ready, or the
      detector failed) or the predictions found. */
  datatype ObjectFrame = ObjectsSkipped | Detections(preds: seq<Detection>)

  /** Lower-casing of ASCII letters. */
  function Lower(c: char): (r: char)
    ensures 'A' <= c <= 'Z' ==> r as int == c as int + 32
    ensures !('A' <= c <= 'Z') ==> r == c
  {
    if 'A' <= c <= 'Z' then (c as int + 32) as char else c
  }

  function LowerString(s: string): (r: string)
    ensures |r| == |s|
    ensures forall i | 0 <= i < |s| :: r[i] == Lower(s[i])
  {
    seq(|s|, i requires 0 <= i < |s| => Lower(s[i]))
  }

  /** `needle` occurs in `hay` starting at position `i`. */
  predicate OccursAt(hay: string, needle: string, i: int) {
    0 <= i && i + |needle| <= |hay| && hay[i..i + |needle|] == needle
  }

  /** `needle` occurs somewhere in `hay`. */
  predicate Contains(hay: string, needle: string) {
    exists i | 0 <= i <= |hay| - |needle| :: OccursAt(hay, needle, i)
  }

  /** A prediction the client takes for a phone. */
  predicate IsPhone(d: Detection) {
    Contains(LowerString(d.cls), "phone") && d.score > PHONE_MIN_SCORE
  }

  predicate PhoneFound(preds: seq<Detection>) {
    exists i | 0 <= i < |preds| :: IsPhone(preds[i])
  }

  /** The first prediction that is a phone, as the client's search returns it. */
  method FindPhone(preds: seq<Detection>) returns (found: Option<nat>)
    ensures found.Some? ==> found.value < |preds| && IsPhone(preds[found.value])
    ensures found.Some? ==> forall j | 0 <= j < found.value :: !IsPhone(preds[j])
    ensures found.None? <==> !PhoneFound(preds)
  {
    var i := 0;
    while i < |preds|
      invariant 0 <= i <= |preds|
      invariant forall j | 0 <= j < i :: !IsPhone(preds[j])
    {
      if IsPhone(preds[i]) {
        return Some(i);
      }
      i := i + 1;
    }
    return None;
  }

  /** Any capitalisation of "phone" inside the class name is recognised: such a
      prediction is a phone exactly when its score passes PHONE_MIN_SCORE. */
  lemma PhoneClassCaseInsensitive(prefix: string, w: string, suffix: string, score: real)
    requires LowerString(w) == "phone"
    ensures IsPhone(Detection(prefix + w + suffix, score)) <==> score > PHONE_MIN_SCORE
  {
    var raw := prefix + w + suffix;
    var s := LowerString(raw);
    forall k | 0 <= k < 5
      ensures s[|prefix| + k] == "phone"[k]
    {
      assert raw[|prefix| + k] == w[k];
      assert LowerString(w)[k] == Lower(w[k]);
    }
    assert s[|prefix|..|prefix| + 5] == "phone";
    assert OccursAt(s, "phone", |prefix|);
  }
}
