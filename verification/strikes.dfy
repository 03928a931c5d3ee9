/**
 The strike routine: a per-reason cooldown gate, the global strike counter
 and the termination trigger. A request is admitted only when more than
 STRIKE_COOLDOWN_MS have passed since that same reason was last admitted;
 a dropped request changes nothing.
 */
module Strikes {
  import opened Policy
  import opened State

  /** The cooldown gate; a reason never struck counts as struck at time 0. */
  predicate CanStrike(s: Session, reason: string, now: int): (open: bool)
    // a reason never struck opens once the clock is past the cooldown from 0
    ensures reason !in s.lastStrikeAt ==> (open <==> now > STRIKE_COOLDOWN_MS)
    // a struck reason opens only strictly after its stamp plus the cooldown
    ensures reason in s.lastStrikeAt ==> (open <==> now > s.lastStrikeAt[reason] + STRIKE_COOLDOWN_MS)
  {
    now - LastStrike(s, reason) > STRIKE_COOLDOWN_MS
  }

  /** Once open, the gate stays open as the clock advances. */
  lemma CanStrikeStaysOpen(s: Session, reason: string, t1: int, t2: int)
    requires CanStrike(s, reason, t1) && t1 <= t2
    ensures CanStrike(s, reason, t2)
  {
  }

  /** Right after a reason is stamped at `t`, its gate is closed exactly until
      STRIKE_COOLDOWN_MS have passed, and every other reason's gate is as it was. */
  lemma CanStrikeAfterMark(s: Session, reason: string, other: string, t: int, now: int)
    requires other != reason
    ensures CanStrike(MarkStrike(s, reason, t), reason, now) <==> now - t > STRIKE_COOLDOWN_MS
    ensures CanStrike(MarkStrike(s, reason, t), other, now) <==> CanStrike(s, other, now)
  {
  }

  /** Stamps a reason with the current time and touches no other reason. */
  function MarkStrike(s: Session, reason: string, now: int): (r: Session)
    ensures LastStrike(r, reason) == now
    ensures forall k | k != reason :: LastStrike(r, k) == LastStrike(s, k)
    ensures r == s.(lastStrikeAt := r.lastStrikeAt)
  {
    s.(lastStrikeAt := s.lastStrikeAt[reason := now])
  }

  /** Requests one strike for `reason` at time `now`. */
  function AddStrike(s: Session, reason: string, now: int): (r: Step)
    ensures |r.requests| == 1
    ensures r.requests[0].reason == reason && r.requests[0].at == now
    ensures r.requests[0].admitted <==> now - LastStrike(s, reason) > STRIKE_COOLDOWN_MS
    // a dropped request leaves the whole state as it was
    ensures !r.requests[0].admitted ==> r.next == s && !r.requests[0].terminates
    // an admitted one adds exactly one strike and restamps only its own reason
    ensures r.requests[0].admitted ==>
              && r.next.strikes == s.strikes + 1
              && LastStrike(r.next, reason) == now
              && (forall k | k != reason :: LastStrike(r.next, k) == LastStrike(s, k))
              && r.next.violationCounters == s.violationCounters
              && r.next.postureAngles == s.postureAngles
              && r.next.consecutiveBadPosture == s.consecutiveBadPosture
    ensures r.next.strikes == s.strikes + Admitted(r.requests)
    // termination is invoked by exactly the admitted strikes that reach the limit
    ensures r.requests[0].terminates <==> r.requests[0].admitted && r.next.strikes >= MAX_STRIKES
    ensures r.next.terminated <==> s.terminated || r.requests[0].terminates
  {
    if CanStrike(s, reason, now) then
      var marked := MarkStrike(s.(strikes := s.strikes + 1), reason, now);
      var ends := marked.strikes >= MAX_STRIKES;
      Step(marked.(terminated := marked.terminated || ends), [StrikeRequest(reason, now, true, ends)])
    else
      Step(s, [StrikeRequest(reason, now, false, false)])
  }

  /** A second request for the same reason inside the cooldown window is dropped,
      whatever the first one's timestamp was. */
  lemma CooldownBlocksRepeat(s: Session, reason: string, t1: int, t2: int)
    requires AddStrike(s, reason, t1).requests[0].admitted
    requires t2 - t1 <= STRIKE_COOLDOWN_MS
    ensures !AddStrike(AddStrike(s, reason, t1).next, reason, t2).requests[0].admitted
    ensures AddStrike(AddStrike(s, reason, t1).next, reason, t2).next.strikes == s.strikes + 1
  {
  }

  /** Strikes for other reasons never move a reason's cooldown: a request for B
      is admitted after a strike for A exactly when it would have been before. */
  lemma OtherReasonsIndependent(s: Session, a: string, b: string, t1: int, t2: int)
    requires a != b
    ensures AddStrike(AddStrike(s, a, t1).next, b, t2).requests[0].admitted
            <==> AddStrike(s, b, t2).requests[0].admitted
  {
  }

  /** Log of every strike request made so far, and the spacing the cooldown
      guarantees: each admitted request's time is at most its reason's current
      stamp, and two admitted requests of one reason lie more than
      STRIKE_COOLDOWN_MS apart, the later one later. */
  ghost predicate CooldownLog(s: Session, log: seq<StrikeRequest>) {
    && (forall i | 0 <= i < |log| && log[i].admitted :: log[i].at <= LastStrike(s, log[i].reason))
    && (forall i, j | 0 <= i < j < |log| && log[i].admitted && log[j].admitted && log[i].reason == log[j].reason ::
          log[j].at - log[i].at > STRIKE_COOLDOWN_MS)
  }

  /** A handler keeps the cooldown log when, for every log it may extend, the
      log with its requests appended is still spaced. */
  ghost predicate KeepsLog(s: Session, st: Step) {
    forall log | CooldownLog(s, log) :: CooldownLog(st.next, log + st.requests)
  }

  lemma AddStrikeKeepsLog(s: Session, reason: string, now: int)
    ensures KeepsLog(s, AddStrike(s, reason, now))
  {
    var st := AddStrike(s, reason, now);
    forall log | CooldownLog(s, log)
      ensures CooldownLog(st.next, log + st.requests)
    {
      var l2 := log + st.requests;
      var q := st.requests[0];
      assert l2[|log|] == q;
      forall i | 0 <= i < |l2| && l2[i].admitted
        ensures l2[i].at <= LastStrike(st.next, l2[i].reason)
      {
        if i < |log| {
          assert l2[i] == log[i];
        }
      }
      forall i, j | 0 <= i < j < |l2| && l2[i].admitted && l2[j].admitted && l2[i].reason == l2[j].reason
        ensures l2[j].at - l2[i].at > STRIKE_COOLDOWN_MS
      {
        assert l2[i] == log[i];
        if j < |log| {
          assert l2[j] == log[j];
        }
      }
    }
  }

  /** A handler that requests nothing and leaves every stamp alone keeps the log. */
  lemma QuietKeepsLog(s: Session, st: Step)
    requires st.requests == []
    requires st.next.lastStrikeAt == s.lastStrikeAt
    ensures KeepsLog(s, st)
  {
    forall log | CooldownLog(s, log)
      ensures CooldownLog(st.next, log + st.requests)
    {
      assert log + st.requests == log;
    }
  }

  /** Handlers that keep the log compose. */
  lemma ThenKeepsLog(s: Session, a: Step, b: Step)
    requires KeepsLog(s, a)
    requires KeepsLog(a.next, b)
    ensures KeepsLog(s, Then(a, b))
  {
    forall log | CooldownLog(s, log)
      ensures CooldownLog(b.next, log + (a.requests + b.requests))
    {
      assert CooldownLog(a.next, log + a.requests);
      assert CooldownLog(b.next, (log + a.requests) + b.requests);
      assert (log + a.requests) + b.requests == log + (a.requests + b.requests);
    }
  }

  /** The log only reads the stamps: rewriting any other field, before or
      after a handler, does not disturb it. */
  lemma RelabelKeepsLog(s: Session, st: Step, s': Session, next: Session)
    requires KeepsLog(s, st)
    requires s'.lastStrikeAt == s.lastStrikeAt
    requires next.lastStrikeAt == st.next.lastStrikeAt
    ensures KeepsLog(s', Step(next, st.requests))
  {
    forall log | CooldownLog(s', log)
      ensures CooldownLog(next, log + st.requests)
    {
      assert forall k :: LastStrike(s', k) == LastStrike(s, k);
      assert CooldownLog(s, log);
      assert CooldownLog(st.next, log + st.requests);
      assert forall k :: LastStrike(next, k) == LastStrike(st.next, k);
    }
  }
}
