/** `struct timeval` arithmetic and the decision to send a query at once or to
    arm a timer for it. */
module Timing {

  const MILLION: int := 1_000_000

  datatype TimeVal = TimeVal(sec: int, usec: int)

  const ZERO := TimeVal(0, 0)

  predicate Normalised(t: TimeVal) { 0 <= t.usec < MILLION }

  /** The instant or span in exact microseconds. */
  function Micros(t: TimeVal): int { t.sec * MILLION + t.usec }

  /** `evutil_timerisset` */
  predicate IsSet(t: TimeVal) { t.sec != 0 || t.usec != 0 }

  /** `evutil_timersub`: componentwise, with one borrow. */
  function Sub(a: TimeVal, b: TimeVal): TimeVal
  {
    if a.usec - b.usec < 0 then TimeVal(a.sec - b.sec - 1, a.usec - b.usec + MILLION)
    else TimeVal(a.sec - b.sec, a.usec - b.usec)
  }

  /** The delay computed at clock reading `now` for a query stamped `q`. */
  function Delay(q: TimeVal, startTrace: TimeVal, startReal: TimeVal, now: TimeVal): TimeVal
  {
    Sub(Sub(q, startTrace), Sub(now, startReal))
  }

  /** The instant at which the replay owes the query. */
  function Target(q: TimeVal, startTrace: TimeVal, startReal: TimeVal): int
  {
    Micros(startReal) + (Micros(q) - Micros(startTrace))
  }

  /** The borrows lose nothing: the delay is the exact span to the target, even
      for stamps that are not normalised. */
  lemma DelayIsExact(q: TimeVal, startTrace: TimeVal, startReal: TimeVal, now: TimeVal)
    ensures Micros(Delay(q, startTrace, startReal, now)) == Target(q, startTrace, startReal) - Micros(now)
  {
    assert Micros(Sub(q, startTrace)) == Micros(q) - Micros(startTrace);
    assert Micros(Sub(now, startReal)) == Micros(now) - Micros(startReal);
  }

  /** With normalised stamps the sign test on the seconds field alone tells
      whether the target has passed. */
  lemma SignOfDelay(q: TimeVal, startTrace: TimeVal, startReal: TimeVal, now: TimeVal)
    requires Normalised(q) && Normalised(startTrace) && Normalised(startReal) && Normalised(now)
    ensures Delay(q, startTrace, startReal, now).sec < 0
            <==> Target(q, startTrace, startReal) < Micros(now)
  {
    DelayIsExact(q, startTrace, startReal, now);
    assert Normalised(Delay(q, startTrace, startReal, now));
  }

  datatype Decision = SendNow | Arm(delay: TimeVal)

  /** The branch structure of the scheduler: `now1` is read first; `now2` only
      after the timer event has been allocated. */
  function Decide(nonWait: bool, q: TimeVal, startTrace: TimeVal, startReal: TimeVal,
                  now1: TimeVal, now2: TimeVal): Decision
  {
    if nonWait || Delay(q, startTrace, startReal, now1).sec < 0 then SendNow
    else if Delay(q, startTrace, startReal, now2).sec < 0 then SendNow
    else Arm(Delay(q, startTrace, startReal, now2))
  }

  /** Replay timing is exact. A query goes out at once iff waiting is off or its
      target had passed at one of the two readings; otherwise the timer, which
      runs from the second reading, expires on the target to the microsecond. */
  lemma DecisionIsExact(nonWait: bool, q: TimeVal, startTrace: TimeVal, startReal: TimeVal,
                        now1: TimeVal, now2: TimeVal)
    requires Normalised(q) && Normalised(startTrace) && Normalised(startReal)
    requires Normalised(now1) && Normalised(now2)
    ensures var target := startReal.sec * 1000000 + startReal.usec
                          + (q.sec - startTrace.sec) * 1000000 + (q.usec - startTrace.usec);
            var at1, at2 := now1.sec * 1000000 + now1.usec, now2.sec * 1000000 + now2.usec;
            match Decide(nonWait, q, startTrace, startReal, now1, now2)
            case SendNow => nonWait || target < at1 || target < at2
            case Arm(delay) =>
              && !nonWait && at1 <= target && at2 <= target
              && 0 <= delay.usec < 1000000 && 0 <= delay.sec
              && at2 + delay.sec * 1000000 + delay.usec == target
  {
    SignOfDelay(q, startTrace, startReal, now1);
    SignOfDelay(q, startTrace, startReal, now2);
    DelayIsExact(q, startTrace, startReal, now2);
  }

  /** Under the time base `startTrace` the sign test tells whether the target of `q`
      has passed, for every clock. */
  ghost predicate SignTestRight(q: TimeVal, startTrace: TimeVal)
  {
    forall startReal, now | Normalised(startReal) && Normalised(now) ::
      Delay(q, startTrace, startReal, now).sec < 0 <==> Target(q, startTrace, startReal) < Micros(now)
  }

  /** Both stamps come from the trace, the time base by way of the sync message, and
      nothing normalises either. The test is right exactly when their microseconds
      differ by no more than two borrows can repair. */
  lemma SignTestRightIff(q: TimeVal, startTrace: TimeVal)
    ensures SignTestRight(q, startTrace) <==> -MILLION - 1 <= q.usec - startTrace.usec < MILLION
  {
    var diff := q.usec - startTrace.usec;
    var secs := q.sec - startTrace.sec;
    if diff >= MILLION {
      var now := TimeVal(secs + 1, 0);
      assert Delay(q, startTrace, ZERO, now) == TimeVal(-1, diff);
    } else if diff < -MILLION - 1 {
      var now := TimeVal(secs - 2, 999_999);
      assert Delay(q, startTrace, ZERO, now) == TimeVal(0, diff + MILLION + 1);
      DelayIsExact(q, startTrace, ZERO, now);
    } else {
      forall startReal, now | Normalised(startReal) && Normalised(now)
        ensures Delay(q, startTrace, startReal, now).sec < 0 <==> Target(q, startTrace, startReal) < Micros(now)
      {
        DelayIsExact(q, startTrace, startReal, now);
        assert Normalised(Delay(q, startTrace, startReal, now));
      }
    }
  }

  /** A time base of 2.5 seconds written as 0 s and 2500000 us holds back a query
      whose target has passed. */
  lemma UnnormalisedBaseMisjudged()
    ensures var q, startTrace, now := TimeVal(5, 0), TimeVal(0, 2_500_000), TimeVal(3, 0);
            Target(q, startTrace, ZERO) < Micros(now) && Delay(q, startTrace, ZERO, now).sec == 0
  {
    assert Sub(TimeVal(5, 0), TimeVal(0, 2_500_000)) == TimeVal(4, -1_500_000);
    assert Sub(TimeVal(3, 0), ZERO) == TimeVal(3, 0);
  }

  /** A stamp of 2.5 seconds written as 0 s and 2500000 us is sent a second and a
      half too early. */
  lemma UnnormalisedStampMisjudged()
    ensures var q, now := TimeVal(0, 2_500_000), TimeVal(1, 0);
            Target(q, ZERO, ZERO) > Micros(now) && Delay(q, ZERO, ZERO, now).sec < 0
  {
    assert Delay(TimeVal(0, 2_500_000), ZERO, ZERO, TimeVal(1, 0)) == TimeVal(-1, 2_500_000);
  }

  /** Gaps between expiry instants equal the gaps in the trace, whatever the
      clock read in between. */
  lemma GapsArePreserved(nonWait: bool, a: TimeVal, b: TimeVal, startTrace: TimeVal, startReal: TimeVal,
                         a1: TimeVal, a2: TimeVal, b1: TimeVal, b2: TimeVal)
    requires var da := Decide(nonWait, a, startTrace, startReal, a1, a2);
             var db := Decide(nonWait, b, startTrace, startReal, b1, b2);
             da.Arm? && db.Arm?
    ensures var da := Decide(nonWait, a, startTrace, startReal, a1, a2);
            var db := Decide(nonWait, b, startTrace, startReal, b1, b2);
            (Micros(b2) + Micros(db.delay)) - (Micros(a2) + Micros(da.delay)) == Micros(b) - Micros(a)
  {
    DelayIsExact(a, startTrace, startReal, a2);
    DelayIsExact(b, startTrace, startReal, b2);
  }
}
