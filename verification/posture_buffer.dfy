/**
 The rolling posture buffer: each measured spine-tilt angle is appended and,
 once more than POSTURE_BUFFER readings are held, the oldest is evicted. The
 average is recomputed from the buffer alone, so it is always the mean of the
 most recent readings.
 */
module PostureBuffer {
  import opened Policy

  /** Left-to-right sum, the order in which the client reduces the buffer. */
  function Sum(xs: seq<real>): real {
    if |xs| == 0 then 0.0 else Sum(xs[..|xs| - 1]) + xs[|xs| - 1]
  }

  /** The most recent min(n, POSTURE_BUFFER) readings of a history of n readings. */
  function Window(history: seq<real>): (w: seq<real>)
    ensures |w| <= POSTURE_BUFFER
    ensures |w| == if |history| < POSTURE_BUFFER then |history| else POSTURE_BUFFER
  {
    if |history| <= POSTURE_BUFFER then history else history[|history| - POSTURE_BUFFER..]
  }

  /** Records one reading: append at the tail, then evict the head if the buffer overflowed. */
  function PushAngle(buf: seq<real>, angle: real): (r: seq<real>)
    ensures |r| > 0 && r[|r| - 1] == angle
    ensures |buf| < POSTURE_BUFFER ==> r == buf + [angle]
    ensures |buf| >= POSTURE_BUFFER ==> r == buf[1..] + [angle]
  {
    var grown := buf + [angle];
    if |grown| > POSTURE_BUFFER then grown[1..] else grown
  }

  /** Mean of the buffered readings; an empty buffer averages to 0. */
  function AvgAngle(buf: seq<real>): (r: real)
    ensures |buf| == 0 ==> r == 0.0
    ensures |buf| > 0 ==> r * (|buf| as real) == Sum(buf)
  {
    if |buf| == 0 then 0.0 else Sum(buf) / (|buf| as real)
  }

  /** Pushing onto the window of a history gives the window of the longer history:
      the buffer never loses a recent reading and never keeps a stale one. */
  lemma PushAngleWindow(history: seq<real>, angle: real)
    ensures PushAngle(Window(history), angle) == Window(history + [angle])
  {
    var h := history + [angle];
    if |history| >= POSTURE_BUFFER {
      var n := |history|;
      assert Window(history) == history[n - POSTURE_BUFFER..];
      assert Window(history)[1..] + [angle] == h[|h| - POSTURE_BUFFER..];
    }
  }

  /** Readings fed one at a time from an empty buffer. */
  function PushAll(buf: seq<real>, angles: seq<real>): seq<real> {
    if |angles| == 0 then buf else PushAngle(PushAll(buf, angles[..|angles| - 1]), angles[|angles| - 1])
  }

  /** After any number n of readings the buffer holds exactly the last min(n, 20),
      in arrival order. */
  lemma {:induction false} PushAllIsWindow(angles: seq<real>)
    ensures PushAll([], angles) == Window(angles)
    decreases |angles|
  {
    if |angles| > 0 {
      var init := angles[..|angles| - 1];
      PushAllIsWindow(init);
      PushAngleWindow(init, angles[|angles| - 1]);
      assert init + [angles[|angles| - 1]] == angles;
    }
  }

  lemma {:induction false} SumOfConstant(xs: seq<real>, c: real)
    requires forall i | 0 <= i < |xs| :: xs[i] == c
    ensures Sum(xs) == (|xs| as real) * c
    decreases |xs|
  {
    if |xs| > 0 {
      SumOfConstant(xs[..|xs| - 1], c);
    }
  }

  /** A buffer of identical readings averages to that reading. */
  lemma AvgOfConstant(xs: seq<real>, c: real)
    requires |xs| > 0
    requires forall i | 0 <= i < |xs| :: xs[i] == c
    ensures AvgAngle(xs) == c
  {
    SumOfConstant(xs, c);
  }

  lemma {:induction false} SumBounds(xs: seq<real>, lo: real, hi: real)
    requires forall i | 0 <= i < |xs| :: lo <= xs[i] <= hi
    ensures (|xs| as real) * lo <= Sum(xs) <= (|xs| as real) * hi
    decreases |xs|
  {
    if |xs| > 0 {
      SumBounds(xs[..|xs| - 1], lo, hi);
    }
  }

  /** The average lies between the smallest and largest bound of the readings. */
  lemma AvgBounds(xs: seq<real>, lo: real, hi: real)
    requires |xs| > 0
    requires forall i | 0 <= i < |xs| :: lo <= xs[i] <= hi
    ensures lo <= AvgAngle(xs) <= hi
  {
    SumBounds(xs, lo, hi);
    var n := |xs| as real;
    var a := AvgAngle(xs);
    assert a * n == Sum(xs);
    assert n * lo <= a * n <= n * hi;
  }

  lemma {:induction false} SumAtLeast(xs: seq<real>, lo: real)
    requires forall i | 0 <= i < |xs| :: lo <= xs[i]
    ensures (|xs| as real) * lo <= Sum(xs)
    decreases |xs|
  {
    if |xs| > 0 {
      SumAtLeast(xs[..|xs| - 1], lo);
    }
  }

  /** A buffer of readings all at least `lo` averages to at least `lo`. */
  lemma AvgAtLeast(xs: seq<real>, lo: real)
    requires |xs| > 0
    requires forall i | 0 <= i < |xs| :: lo <= xs[i]
    ensures lo <= AvgAngle(xs)
  {
    SumAtLeast(xs, lo);
    var n := |xs| as real;
    assert AvgAngle(xs) * n == Sum(xs);
  }
}
