/**
 The whole mutable state of one proctored session, gathered into a single
 immutable record, plus the record every handler returns: the next state
 and the strike requests the handler made on the way.
 */
module State {
  import opened Policy

  /** Violation types, spelled as the interview client spells them. */
  const POSTURE: string := "posture"
  const LOOK_AWAY: string := "lookAway"
  const PHONE: string := "phone"
  const FACE_ABSENT: string := "faceAbsent"
  const TAB_SWITCH: string := "tabSwitch"
  const FOCUS_LOST: string := "focusLost"
  const FULLSCREEN: string := "fullscreen"

  /** The distinct strike reason of the severe-slouch path. */
  const POSTURE_SEVERE: string := "posture-severe"

  /** The strike reason requested when a type's warning ladder overflows. */
  function ViolationReason(t: string): (r: string)
    ensures |r| == |t| + 10 && r[..|t|] == t
    ensures r != POSTURE_SEVERE
  {
    var r := t + " violation";
    assert r[|r| - 1] == 'n';
    r
  }

  datatype Session = Session(
    violationCounters: map<string, nat>,  // warnings collected per violation type
    strikes: nat,                         // global strike count, never reset
    lastStrikeAt: map<string, int>,       // reason => time of its last admitted strike
    postureAngles: seq<real>,             // rolling buffer of spine-tilt readings
    consecutiveBadPosture: nat,           // severe-slouch ticks in a row
    terminated: bool                      // the termination routine has been invoked
  )

  /** One call of the strike routine: its reason, its time, whether the
      cooldown admitted it, and whether it invoked termination. */
  datatype StrikeRequest = StrikeRequest(reason: string, at: int, admitted: bool, terminates: bool)

  /** What a handler leaves behind: the next state and its strike requests, in order. */
  datatype Step = Step(next: Session, requests: seq<StrikeRequest>)

  /** The state at session start. */
  function Initial(): Session {
    Session(map[POSTURE := 0, LOOK_AWAY := 0, PHONE := 0, FACE_ABSENT := 0], 0, map[], [], 0, false)
  }

  /** A type's warning count; a type never counted reads as 0. */
  function Counter(s: Session, t: string): nat {
    if t in s.violationCounters then s.violationCounters[t] else 0
  }

  /** The time of a reason's last admitted strike; a reason never struck reads as 0. */
  function LastStrike(s: Session, reason: string): int {
    if reason in s.lastStrikeAt then s.lastStrikeAt[reason] else 0
  }

  /** Sets one type's warning count, leaving every other type's count alone. */
  function SetCounter(s: Session, t: string, c: nat): (r: Session)
    ensures Counter(r, t) == c
    ensures forall k | k != t :: Counter(r, k) == Counter(s, k)
    ensures r == s.(violationCounters := r.violationCounters)
  {
    s.(violationCounters := s.violationCounters[t := c])
  }

  /** Runs one handler after another. */
  function Then(a: Step, b: Step): Step {
    Step(b.next, a.requests + b.requests)
  }

  /** How many of the requests were admitted. */
  function Admitted(reqs: seq<StrikeRequest>): nat {
    if |reqs| == 0 then 0
    else Admitted(reqs[..|reqs| - 1]) + (if reqs[|reqs| - 1].admitted then 1 else 0)
  }

  lemma {:induction false} AdmittedAppend(a: seq<StrikeRequest>, b: seq<StrikeRequest>)
    ensures Admitted(a + b) == Admitted(a) + Admitted(b)
    decreases |b|
  {
    if |b| == 0 {
      assert a + b == a;
    } else {
      assert (a + b)[..|a + b| - 1] == a + b[..|b| - 1];
      AdmittedAppend(a, b[..|b| - 1]);
    }
  }
}
