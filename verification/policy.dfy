/**
 The fixed proctoring policy of the interview client: buffer size, posture
 thresholds, warning and strike limits, the per-reason strike cooldown, and
 the detector thresholds that appear as literals in the analysis code.
 */
module Policy {

  /** How many spine-angle readings the rolling posture average covers. */
  const POSTURE_BUFFER: nat := 20

  /** A rolling average above this many degrees is a moderate slouch. */
  const POSTURE_WARN_ANGLE: real := 20.0

  /** A rolling average above this many degrees is a severe slouch. */
  const POSTURE_STRIKE_ANGLE: real := 30.0

  /** Severe-slouch ticks in a row that request a `posture-severe` strike. */
  const REQUIRED_CONSECUTIVE_FRAMES: nat := 3

  /** Warnings a violation type may collect before its next one requests a strike. */
  const MAX_WARNINGS: nat := 2

  /** Strike count at which the session is terminated. */
  const MAX_STRIKES: nat := 3

  /** Minimum time, in milliseconds, between two admitted strikes of one reason. */
  const STRIKE_COOLDOWN_MS: int := 10000

  /** Overall pose score below which a pose is not trusted. */
  const MIN_POSE_SCORE: real := 0.4

  /** Normalised yaw magnitude (percent of the eye distance) above which the candidate looks away. */
  const YAW_LIMIT: real := 18.0

  /** Detector confidence above which a "phone" detection counts. */
  const PHONE_MIN_SCORE: real := 0.8
}
