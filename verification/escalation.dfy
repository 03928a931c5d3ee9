/**
 The per-type warning ladder. Every "bad" judgment raises its type's warning
 count; up to MAX_WARNINGS that is only a warning, and the next one requests
 a strike for "<type> violation" and sets the count back to 0, whether or not
 the cooldown admitted the strike. A "clean" judgment sets the count to 0.
 */
module Escalation {
  import opened Policy
  import opened State
  import opened Strikes

  /** One "bad" judgment of violation type `t` at time `now`. */
  function HandleViolation(s: Session, t: string, now: int): (r: Step)
    // below the limit: one more warning, no strike
    ensures Counter(s, t) < MAX_WARNINGS ==> Counter(r.next, t) == Counter(s, t) + 1 && r.requests == []
    ensures Counter(s, t) < MAX_WARNINGS ==> r.next == SetCounter(s, t, Counter(s, t) + 1)
    // at the limit: one strike request, and the ladder starts over
    ensures Counter(s, t) >= MAX_WARNINGS ==>
              && Counter(r.next, t) == 0
              && r.requests == AddStrike(s, ViolationReason(t), now).requests
              && r.next == SetCounter(AddStrike(s, ViolationReason(t), now).next, t, 0)
    ensures forall k | k != t :: Counter(r.next, k) == Counter(s, k)
    ensures r.next.postureAngles == s.postureAngles
    ensures r.next.consecutiveBadPosture == s.consecutiveBadPosture
    ensures r.next.strikes == s.strikes + Admitted(r.requests)
    ensures |r.requests| <= 1
  {
    var c := Counter(s, t) + 1;
    var counted := SetCounter(s, t, c);
    if c <= MAX_WARNINGS then
      Step(counted, [])
    else
      var a := AddStrike(counted, ViolationReason(t), now);
      Step(SetCounter(a.next, t, 0), a.requests)
  }

  /** One "clean" judgment of violation type `t`. */
  function ResetCounter(s: Session, t: string): (r: Step)
    ensures Counter(r.next, t) == 0
    ensures forall k | k != t :: Counter(r.next, k) == Counter(s, k)
    ensures r.next == s.(violationCounters := r.next.violationCounters) && r.requests == []
  {
    Step(SetCounter(s, t, 0), [])
  }

  /** After a bad judgment the type's count is back inside [0, MAX_WARNINGS],
      provided it started there. */
  lemma HandleViolationBounded(s: Session, t: string, now: int)
    requires Counter(s, t) <= MAX_WARNINGS
    ensures Counter(HandleViolation(s, t, now).next, t) <= MAX_WARNINGS
    ensures Counter(HandleViolation(s, t, now).next, t) == (Counter(s, t) + 1) % (MAX_WARNINGS + 1)
  {
  }

  lemma HandleViolationKeepsLog(s: Session, t: string, now: int)
    ensures KeepsLog(s, HandleViolation(s, t, now))
  {
    var c := Counter(s, t) + 1;
    var counted := SetCounter(s, t, c);
    if c <= MAX_WARNINGS {
      QuietKeepsLog(s, HandleViolation(s, t, now));
    } else {
      var a := AddStrike(counted, ViolationReason(t), now);
      AddStrikeKeepsLog(counted, ViolationReason(t), now);
      RelabelKeepsLog(counted, a, s, SetCounter(a.next, t, 0));
    }
  }

  /** A run of bad judgments of one type with no clean judgment between them,
      at the given times. */
  function Repeat(s: Session, t: string, times: seq<int>): Step {
    if |times| == 0 then Step(s, [])
    else
      var prev := Repeat(s, t, times[..|times| - 1]);
      Then(prev, HandleViolation(prev.next, t, times[|times| - 1]))
  }

  /** Starting from a clean count, n consecutive bad judgments request exactly
      n / (MAX_WARNINGS + 1) strikes, every one for "<t> violation", and leave the
      count at n mod (MAX_WARNINGS + 1). */
  lemma {:induction false} RepeatRequests(s: Session, t: string, times: seq<int>)
    requires Counter(s, t) == 0
    ensures |Repeat(s, t, times).requests| == |times| / (MAX_WARNINGS + 1)
    ensures Counter(Repeat(s, t, times).next, t) == |times| % (MAX_WARNINGS + 1)
    ensures forall i | 0 <= i < |Repeat(s, t, times).requests| ::
              Repeat(s, t, times).requests[i].reason == ViolationReason(t)
    decreases |times|
  {
    if |times| > 0 {
      var init := times[..|times| - 1];
      RepeatRequests(s, t, init);
      var prev := Repeat(s, t, init);
      var h := HandleViolation(prev.next, t, times[|times| - 1]);
      assert Repeat(s, t, times) == Then(prev, h);
      if Counter(prev.next, t) >= MAX_WARNINGS {
        assert |h.requests| == 1 && h.requests[0].reason == ViolationReason(t);
      } else {
        assert h.requests == [];
      }
      var reqs := prev.requests + h.requests;
      forall i | 0 <= i < |reqs|
        ensures reqs[i].reason == ViolationReason(t)
      {
        if i >= |prev.requests| {
          assert reqs[i] == h.requests[i - |prev.requests|];
        }
      }
    }
  }

  /** The ladder from a clean count: three bad judgments in a row request
      exactly one strike, on the third, and the count is clean again. */
  lemma ThreeInARow(s: Session, t: string, t1: int, t2: int, t3: int)
    requires Counter(s, t) == 0
    ensures Repeat(s, t, [t1, t2]).requests == []
    ensures |Repeat(s, t, [t1, t2, t3]).requests| == 1
    ensures Repeat(s, t, [t1, t2, t3]).requests[0].reason == ViolationReason(t)
    ensures Repeat(s, t, [t1, t2, t3]).requests[0].at == t3
    ensures Counter(Repeat(s, t, [t1, t2, t3]).next, t) == 0
  {
    RepeatRequests(s, t, [t1, t2]);
    RepeatRequests(s, t, [t1, t2, t3]);
    assert [t1, t2, t3][..2] == [t1, t2];
  }

  /** Bad and clean judgments alternating: the count never exceeds 1 and no
      strike is ever requested. */
  function Alternate(s: Session, t: string, times: seq<int>): Step {
    if |times| == 0 then Step(s, [])
    else
      var prev := Alternate(s, t, times[..|times| - 1]);
      var bad := HandleViolation(prev.next, t, times[|times| - 1]);
      Then(prev, Then(bad, ResetCounter(bad.next, t)))
  }

  lemma {:induction false} AlternateNeverStrikes(s: Session, t: string, times: seq<int>)
    requires Counter(s, t) == 0
    ensures Alternate(s, t, times).requests == []
    ensures Counter(Alternate(s, t, times).next, t) == 0
    ensures Alternate(s, t, times).next.strikes == s.strikes
    decreases |times|
  {
    if |times| > 0 {
      AlternateNeverStrikes(s, t, times[..|times| - 1]);
    }
  }
}
