# Proctoring escalation engine

A Dafny model of the violation-escalation core of the AceAI interview client
(`public/interview.js`). During an interview the client samples the webcam
on two timers and listens to three browser events. Each sample or event
becomes a judgment per violation type: posture, look-away, phone, face
absent, tab switch, focus lost or fullscreen exit. The engine turns these
judgments into warnings, cooldown-gated strikes and, at three strikes,
session termination.

The model keeps the client's whole mutable state in one immutable record,
`State.Session`. It holds:

- the warning counters, keyed by type name;
- the global strike count;
- the per-reason last-strike timestamps;
- the rolling buffer of spine-tilt angles;
- the severe-slouch streak;
- a flag recording that the termination routine has been invoked.

Every handler is a pure function from a state and the clock reading `now` to
a `State.Step`: the next state plus the strike requests it made, each with
its reason, its time, whether the cooldown admitted it, and whether it
invoked termination. Detector output is an input value:

- the pose estimate: score, keypoint names and the derived spine angle;
- the first face's eye and nose positions;
- the object detector's class/score predictions;
- the browser event that fired.

Modules:

- `Wrappers`: the optional value used for detector results.
- `Policy`: the fixed constants (buffer size 20, warn angle 20°, severe angle 30°, 3 consecutive frames, 2 warnings, 3 strikes, 10000 ms cooldown) and the thresholds written as literals in the analysis code (pose score 0.4, yaw 18, phone score 0.8).
- `State`: the session record, its start value, the counter and timestamp lookups (a missing key reads as 0, as the client's `|| 0` does) and the step record.
- `PostureBuffer`: `pushAngle` / `avgAngle` and the rolling-window lemmas.
- `Strikes`: `canStrike`, `markStrike`, `addStrike`, and the cooldown-spacing log.
- `Escalation`: `handleViolation`, the clean-judgment reset, and the warning-ladder lemmas.
- `Detectors`: the pose confidence gate, the normalised yaw and the phone search.
- `Analysis`: the decision logic of `analyzePose`, `analyzeFaceAndObjects` and the browser listeners.
- `Proctor`: whole sessions as sequences of timed signals, with the invariants every reachable state keeps.
- `Scenarios`: multi-tick behaviours.

## Model

| member | source | states |
|---|---|---|
| Proctor.InitialInv | public/interview.js:15-35 | The session starts with an empty buffer, all counters 0, no strikes and no termination. That start state satisfies the session invariant. |
| PostureBuffer.PushAngle | public/interview.js:264-267 | The new angle becomes the last element. Below capacity the buffer just grows. At capacity exactly the oldest reading is evicted. |
| PostureBuffer.PushAngleWindow | public/interview.js:264-267 | Pushing onto the last-20 window of a history yields the last-20 window of the extended history. |
| PostureBuffer.PushAllIsWindow | public/interview.js:264-267 | After any n readings from empty, the buffer is exactly the last min(n, 20) readings in arrival order, so its length never exceeds 20. |
| PostureBuffer.AvgAngle | public/interview.js:268-271 | An empty buffer averages to 0. Otherwise the average times the buffer length equals the sum of exactly the buffered readings. |
| PostureBuffer.AvgOfConstant | public/interview.js:268-271 | A buffer of identical readings averages to that reading. |
| PostureBuffer.AvgBounds | public/interview.js:268-271 | The average of a non-empty buffer lies between any lower and upper bound on its readings. |
| PostureBuffer.AvgAtLeast | public/interview.js:268-271 | Readings all at least lo average to at least lo. |
| Strikes.CanStrike | public/interview.js:87-90 | A reason never struck is admissible iff the clock reads more than 10000. A struck reason is admissible iff the clock is strictly past its last stamp plus 10000. |
| Strikes.CanStrikeStaysOpen | public/interview.js:87-90 | Once a reason's cooldown has passed, it stays passed at every later clock reading. |
| Strikes.CanStrikeAfterMark | public/interview.js:87-91 | Right after a reason is stamped at t, its gate is closed until the clock is more than 10000 past t. Every other reason's gate is as it was before the stamp. |
| Strikes.MarkStrike | public/interview.js:91 | Stamps the reason with now and leaves every other reason's timestamp and every other field alone. |
| Strikes.AddStrike | public/interview.js:118-125 | A request is admitted iff now minus the reason's last stamp (0 if never struck) exceeds 10000. A dropped request changes nothing. An admitted one adds exactly one strike and restamps only its own reason. Termination is invoked iff the request is admitted and the count reaches 3 or more; nothing caps the count. |
| Strikes.CooldownBlocksRepeat | public/interview.js:87-91 | After an admitted strike, a second request for the same reason within 10000 ms is dropped. |
| Strikes.OtherReasonsIndependent | public/interview.js:87-91 | A strike for reason A does not change whether a request for a different reason B is admitted. |
| Strikes.AddStrikeKeepsLog | public/interview.js:118-125 | The strike routine preserves the cooldown log: admitted requests of one reason stay more than 10000 ms apart. |
| Escalation.HandleViolation | public/interview.js:127-137 | Below 2 warnings, only this type's count goes up by one and nothing is requested. At 2, one strike for "<type> violation" is requested and the count goes back to 0 whether or not it was admitted. Other types' counts, the buffer and the streak are untouched. |
| Escalation.ResetCounter | public/interview.js:422 | A clean judgment sets exactly that type's count to 0 and requests nothing. |
| Escalation.HandleViolationBounded | public/interview.js:127-137 | A count in [0, 2] stays in [0, 2]. It advances as (count + 1) mod 3. |
| Escalation.RepeatRequests | public/interview.js:127-137 | From a clean count, n consecutive bad judgments request exactly n / 3 strikes, all for "<type> violation", and leave the count at n mod 3. |
| Escalation.ThreeInARow | public/interview.js:127-137 | From a clean count, two bad judgments request nothing. The third requests exactly one strike, stamped with its own time, and leaves the count at 0. |
| Escalation.AlternateNeverStrikes | public/interview.js:419-423 | Bad and clean judgments alternating from a clean count never request a strike and never change the strike count. |
| Detectors.ClassifyPose | public/interview.js:325-344 | A pose is measured iff the estimator answered with a pose of score at least 0.4 that lists keypoints including both shoulders, both hips and the nose. It is low-confidence iff there is no pose, the score is below 0.4 or there is no keypoint list. |
| Detectors.YawNorm | public/interview.js:412-416 | The normalised yaw is positive iff the nose is left of the eyes' midpoint, and zero iff it sits exactly there. |
| Detectors.LooksAwayGeometry | public/interview.js:412-419 | The look-away judgment (`LooksAway`) holds iff the nose is off the eyes' midpoint by more than 18% of the eye distance. When the eyes coincide, the distance is taken as 1. |
| Detectors.LooksAwayEyeSwap | public/interview.js:413-419 | The look-away judgment does not depend on which eye is reported as left. |
| Detectors.LooksAwayMirror | public/interview.js:413-419 | Mirroring the face negates the yaw and keeps the judgment, so turning either way is judged alike. |
| Detectors.YawShift | public/interview.js:413-416 | Shifting the whole face horizontally does not change the yaw. |
| Detectors.FindPhone | public/interview.js:442 | Returns the first prediction that is a phone (`IsPhone`: its lower-cased class contains "phone" and its score is above 0.8). Returns none iff no prediction qualifies. |
| Detectors.PhoneClassCaseInsensitive | public/interview.js:442 | A class name containing "phone" in any capitalisation, anywhere in the name, makes the prediction a phone (`IsPhone`) iff its score is above 0.8. |
| Analysis.PostureRule | public/interview.js:356-375 | avg > 30 grows the severe streak. The third in a row requests one posture-severe strike and clears both the streak and the posture count. 20 < avg <= 30 clears the streak and takes one posture ladder step. Otherwise both posture counters are cleared and nothing is requested. |
| Analysis.AnalyzePose | public/interview.js:325-375 | A low-confidence pose clears only the posture count. A pose missing a keypoint clears only the severe streak. Neither buffers an angle. A measured angle is buffered, and the posture rule sees the new average. |
| Analysis.FaceCheck | public/interview.js:389-427 | No face is a face-absent violation. A readable first face is a look-away violation or clears the look-away count. An unreadable face changes nothing. A visible face never clears the face-absent count. |
| Analysis.PhoneCheck | public/interview.js:435-445 | A detector answer containing a phone is a phone violation. One without a phone clears only the phone count. |
| Analysis.AnalyzeFaceAndObjects | public/interview.js:386-449 | The tick requests at most two strikes and moves no warning count other than faceAbsent, lookAway and phone. The strike count grows by exactly the admitted ones, and the buffer and severe streak are untouched. |
| Analysis.BrowserViolation | public/interview.js:532-538 | Only a hidden page, a window blur or leaving fullscreen raises a violation: of type tabSwitch, focusLost and fullscreen respectively. |
| Analysis.BrowserStep | public/interview.js:532-538 | A hidden page, a window blur or leaving fullscreen is one ladder step of tabSwitch, focusLost or fullscreen respectively, and every other type's count is unchanged. Any other event changes nothing. |
| Proctor.RunInv | public/interview.js:118-137 | In every reachable state the buffer holds at most 20 readings, the severe streak is below 3, and every warning count is in [0, 2]. Termination has been invoked iff the strike count is at least 3. |
| Proctor.RunStrikes | public/interview.js:118-125 | Over any session the strike count equals its start value plus the number of admitted requests, so it never decreases. |
| Proctor.RunBufferIsWindow | public/interview.js:352-353 | From session start, the buffer is always exactly the last min(n, 20) angles measured so far. Low-confidence and keypoint-missing ticks contribute none. |
| Proctor.CooldownSpacing | public/interview.js:87-91 | In any session, two admitted strikes with the same reason are stamped more than 10000 ms apart, the later one later, given the single clock reading per request described under Left out. |
| Proctor.TerminationAtLimit | public/interview.js:124 | A session is terminated iff at least 3 of its strike requests were admitted. |
| Scenarios.SevereStreak | public/interview.js:357-365 | Three severe ticks in a row request exactly one posture-severe strike, on the third, and clear both posture counters. |
| Scenarios.UndetectedBreaksStreak | public/interview.js:340-344 | Severe, keypoints missing, severe, severe requests nothing and leaves the streak at 2. |
| Scenarios.LowScoreKeepsStreak | public/interview.js:325-329 | A low-score tick clears the posture warning count but not the severe streak. So severe, low score, severe, severe requests exactly one posture-severe strike, on the fourth tick. |
| Scenarios.ModerateSlouch | public/interview.js:366-369 | A steady moderate slouch warns on the first two ticks. The third requests one "posture violation" strike and clears the ladder. |
| Scenarios.YawSequence | public/interview.js:419-423 | Yaw 5, 25, 5, 25, 25, 25: the 5s clear the count, and the final three consecutive 25s request one look-away strike. |
| Scenarios.FaceAbsenceAccumulates | public/interview.js:391-394 | Absent, present, absent, present, absent: the third absence requests a face-absent strike even though the absences were not consecutive. |
| Scenarios.StrikesPassLimit | public/interview.js:146-152 | A session already terminated at 3 strikes can take a fourth strike from a window blur, and termination is invoked again. |

## Behaviour worth knowing

- Only the look-away, phone and posture counts are ever cleared by a clean
  judgment. The face-absent count is cleared only when its own strike is
  requested, so non-consecutive absences add up (`Scenarios.FaceAbsenceAccumulates`).
  Like the face-absent count, the tab-switch, focus-lost and fullscreen counts
  are cleared only when their own strike is requested.
- A yaw sequence of 5, 25, 5, 25, 25, 25 does request a look-away strike,
  because its last three readings are consecutive (`Scenarios.YawSequence`).
- The termination routine clears the two sampling timers and stops the media
  tracks. It does not remove the browser listeners, and `addStrike` has no
  terminated guard. So strikes can pass 3 and termination can be invoked
  again (`Scenarios.StrikesPassLimit`).
- The two kinds of undetected pose touch different counters. A low pose
  score clears only the posture warning count, so it does not break a severe
  streak (`Scenarios.LowScoreKeepsStreak`). A missing keypoint clears only
  the severe streak (`Scenarios.UndetectedBreaksStreak`).
- A warning count goes back to 0 when its strike is requested, even if the
  cooldown then drops the strike.
- The keypoint check tests only that the part names are listed, not their
  confidence. `MIN_CONFIDENCE` (public/interview.js:305) is declared but
  never consulted.

## Left out

- DOM and UI updates (`updateProctoringUI`, `showToast`, `updateStrikeUI`, the termination overlay, modals, boot wiring): presentation only. The strike requests stand in for the toast and strike-counter updates. Warning and status texts are not modelled.
- Camera and microphone acquisition, model loading, `estimateSinglePose`, `estimateFaces` and `detect`: foreign asynchronous libraries. Their results are inputs, and a failed or skipped call is the `...Skipped` input, which changes nothing.
- `getMidPoint` and `getSpineTiltAngle` (public/interview.js:275-302): trigonometry over floats. The spine angle is taken as an input of the pose estimate.
- Reading eye and nose positions from face annotations or mesh vertices (public/interview.js:399-410): the first face arrives as positions or as none.
- Floating point: angles, scores and yaw are exact reals, so rounding and NaN are not modelled. `toLowerCase` is modelled on ASCII letters only.
- Timer scheduling (`setInterval`, the 60-second question timer), overlapping asynchronous ticks, TTS and speech recognition: timer- and event-driven I/O. Each signal is handled to completion.
- Strikes.AddStrike: the cooldown gate and the new timestamp use one clock reading `now`. The client reads the clock once in `canStrike` and again in `markStrike` (public/interview.js:89 and 91). A stamp a millisecond later than the gate reading, or a wall clock that steps back between the reads, is not modelled. The spacing proved by Proctor.CooldownSpacing holds under this single reading.
- Analysis.AnalyzeFaceAndObjects: both halves of the tick use one `now`. In the client the phone half reads the clock after its own detector call returns, a little later.
- `fetchQuestionsFromServer`, `evaluateInterview`, `showEvaluation` and the rest of the question flow: network calls and rendering.
- public/server.js and eslint.config.js: an HTTP layer around a hosted language model, and lint configuration. Neither takes part in escalation.
