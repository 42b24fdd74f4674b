/** Pacing in local mode: the stamps of the trace are replaced by equidistant ones. The
    running time is a double, so every addition is rounded to a multiple of 2^-23 s
    below 2^30 s, and to coarser multiples above. */
module Pacing {
  import opened Messages
  import opened Timing

  /** The stamp of the first paced query. */
  const FAKE_START: real := 1000000000.0

  /** Ticks per second: doubles from 2^29 to 2^30 are that dense. */
  const TICKS: real := 8388608.0

  const LIMIT: real := 1073741824.0

  // ----- doubles ---------------------------------------------------------------

  /** To the nearest integer, ties to the even one. */
  function Nearest(y: real): int
  {
    var f := y.Floor;
    if y - f as real < 0.5 then f
    else if y - f as real > 0.5 then f + 1
    else if f % 2 == 0 then f
    else f + 1
  }

  /** The spacing of doubles at `y`, which is at least 2^29. */
  function Spacing(y: real): (u: real)
    ensures u > 0.0
    decreases y.Floor
  {
    if y < LIMIT then 1.0 / TICKS else 2.0 * Spacing(y / 2.0)
  }

  /** The double that a sum is rounded to. */
  function Rounded(y: real): real
  {
    Nearest(y / Spacing(y)) as real * Spacing(y)
  }

  // ----- the stamps --------------------------------------------------------------

  /** `query_pace_ts` after `k` additions. */
  function At(pace: real, k: nat): real
  {
    if k == 0 then FAKE_START else Rounded(At(pace, k - 1) + pace)
  }

  /** The difference and the product are exact in doubles: a fraction of 23 bits times a
      million. */
  function StampOf(ts: real): TimeVal
  {
    TimeVal(ts.Floor, ((ts - ts.Floor as real) * 1000000.0).Floor)
  }

  /** The k-th usable query, restamped if a pace is set. */
  function Paced(pace: real, k: nat, m: DNSMsg): DNSMsg
  {
    if pace <= 0.0 then m
    else
      var t := StampOf(At(pace, k));
      m.(seconds := t.sec, microseconds := t.usec)
  }

  function PacedAll(pace: real, ms: seq<DNSMsg>): (r: seq<DNSMsg>)
    ensures |r| == |ms| && forall k | 0 <= k < |ms| :: r[k] == Paced(pace, k, ms[k])
  {
    seq(|ms|, k requires 0 <= k < |ms| => Paced(pace, k, ms[k]))
  }

  lemma PacedAllSnoc(pace: real, ms: seq<DNSMsg>, m: DNSMsg)
    ensures PacedAll(pace, ms + [m]) == PacedAll(pace, ms) + [Paced(pace, |ms|, m)]
  {
  }

  /** A stamp is normalised and its time rounded down to a microsecond. */
  lemma StampIsRounded(ts: real)
    ensures var t := StampOf(ts); Normalised(t) && Micros(t) as real <= ts * 1000000.0 < Micros(t) as real + 1.0
  {
    var sec := ts.Floor;
    var frac := (ts - sec as real) * 1000000.0;
    assert 0.0 <= frac < 1000000.0;
    assert frac.Floor as real <= frac < frac.Floor as real + 1.0;
    assert (sec * 1000000) as real == sec as real * 1000000.0;
  }

  lemma {:induction false} SpacingIsFine(y: real)
    requires y >= 536870912.0
    ensures Spacing(y) >= 1.0 / TICKS && 4503599627370496.0 <= y / Spacing(y) < 9007199254740992.0
    decreases y.Floor
  {
    if y >= LIMIT {
      SpacingIsFine(y / 2.0);
      assert y / (2.0 * Spacing(y / 2.0)) == (y / 2.0) / Spacing(y / 2.0);
    } else {
      assert y / (1.0 / TICKS) == y * TICKS;
    }
  }

  /** The running time stays where it starts or above. */
  lemma {:induction false} AtIsLate(pace: real, k: nat)
    requires pace > 0.0
    ensures At(pace, k) >= 536870912.0
  {
    hide Spacing, Nearest;
    if k > 0 {
      AtIsLate(pace, k - 1);
      var y := At(pace, k - 1) + pace;
      SpacingIsFine(y);
      NearestAtLeast(y / Spacing(y), 4503599627370496);
      ScaledUp(Nearest(y / Spacing(y)), Spacing(y));
    }
  }

  lemma NearestAtLeast(y: real, n: int)
    requires y >= n as real
    ensures Nearest(y) >= n
  {
    assert y.Floor >= n;
  }

  lemma ScaledUp(n: int, u: real)
    requires n >= 4503599627370496 && u >= 1.0 / TICKS
    ensures n as real * u >= 536870912.0
  {
    assert n as real * u >= n as real * (1.0 / TICKS);
    assert n as real * (1.0 / TICKS) == n as real / TICKS;
  }

  // ----- drift ---------------------------------------------------------------------

  /** What one addition really adds, in ticks. */
  function Step(pace: real): int { Nearest(pace * TICKS) }

  /** The `k`-th query is stamped before 2^30 s, two years into the trace. */
  predicate BeforeLimit(pace: real, k: nat) { FAKE_START + (k * Step(pace)) as real / TICKS < LIMIT }

  lemma NearestShift(n: int, x: real)
    requires n % 2 == 0
    ensures Nearest(n as real + x) == n + Nearest(x)
  {
    assert (n as real + x).Floor == n + x.Floor;
  }

  lemma NearestIsClose(y: real)
    ensures -0.5 <= Nearest(y) as real - y <= 0.5
  {
  }

  /** Away from a tie the parity does not matter. */
  lemma NearestShiftOdd(n: int, x: real)
    requires x - x.Floor as real != 0.5
    ensures Nearest(n as real + x) == n + Nearest(x)
  {
    assert (n as real + x).Floor == n + x.Floor;
  }

  lemma TieStepIsEven(x: real)
    requires x - x.Floor as real == 0.5
    ensures Nearest(x) % 2 == 0
  {
  }

  lemma {:induction false} EvenMultiple(k: nat, step: int)
    requires step % 2 == 0
    ensures (k * step) % 2 == 0
  {
    assert k * step == 2 * (k * (step / 2));
  }

  /** Every addition adds the same: the pace rounded to a whole number of ticks. */
  lemma {:induction false} StampsAreEquidistant(pace: real, k: nat)
    requires pace > 0.0 && BeforeLimit(pace, k)
    ensures At(pace, k) == FAKE_START + (k * Step(pace)) as real / TICKS
  {
    hide Nearest;
    if k > 0 {
      var step, x := Step(pace), pace * TICKS;
      StepIsNotNegative(pace);
      assert k * step == (k - 1) * step + step;
      StampsAreEquidistant(pace, k - 1);
      var ticks := 8388608000000000 + (k - 1) * step;
      OneAddition(pace, k - 1, ticks);
    }
  }

  lemma StepIsNotNegative(pace: real)
    requires pace > 0.0
    ensures Step(pace) >= 0
  {
    assert (pace * TICKS).Floor >= 0;
  }

  lemma OneAddition(pace: real, k: nat, ticks: int)
    requires pace > 0.0 && ticks == 8388608000000000 + k * Step(pace)
    requires (ticks + Step(pace)) as real / TICKS < LIMIT
    ensures Rounded(ticks as real / TICKS + pace) == (ticks + Step(pace)) as real / TICKS
  {
    hide Nearest, Rounded;
    var y := ticks as real / TICKS + pace;
    ScaledSum(ticks, pace, y);
    NearestIsClose(pace * TICKS);
    BelowLimit(ticks + Step(pace), y);
    SpacingBelowLimit(y);
    NearestSum(pace, k, ticks);
  }

  lemma ScaledSum(ticks: int, pace: real, y: real)
    requires y == ticks as real / TICKS + pace
    ensures y * TICKS == ticks as real + pace * TICKS
  {
  }

  lemma NearestSum(pace: real, k: nat, ticks: int)
    requires ticks == 8388608000000000 + k * Step(pace)
    ensures Nearest(ticks as real + pace * TICKS) == ticks + Step(pace)
  {
    hide Nearest;
    var x := pace * TICKS;
    if x - x.Floor as real == 0.5 {
      TieStepIsEven(x);
      EvenMultiple(k, Step(pace));
      NearestShift(ticks, x);
    } else {
      NearestShiftOdd(ticks, x);
    }
  }

  lemma SpacingBelowLimit(y: real)
    requires y < LIMIT
    ensures Rounded(y) == Nearest(y * TICKS) as real / TICKS
  {
    assert y / (1.0 / TICKS) == y * TICKS;
  }

  /** A sum within half a tick of a double below the limit is below it too. */
  lemma BelowLimit(n: int, y: real)
    requires n as real / TICKS < LIMIT && y * TICKS <= n as real + 0.5
    ensures y < LIMIT
  {
    assert n as real < 9007199254740992.0;
    assert n <= 9007199254740991;
  }

  // The pace is a whole number of ticks.
  predicate OnGrid(pace: real) { (pace * TICKS).Floor as real == pace * TICKS }

  /** The stamps keep to the pace for good exactly if the pace is a multiple of 2^-23 s;
      otherwise they are off by the same amount more with every query. */
  lemma NoDriftIff(pace: real)
    requires pace > 0.0 && BeforeLimit(pace, 1)
    ensures (forall k: nat | BeforeLimit(pace, k) :: At(pace, k) == FAKE_START + k as real * pace) <==> OnGrid(pace)
  {
    hide Rounded, At;
    StampsAreEquidistant(pace, 1);
    GridIsFixed(pace);
    if OnGrid(pace) {
      forall k: nat | BeforeLimit(pace, k) ensures At(pace, k) == FAKE_START + k as real * pace {
        StampsAreEquidistant(pace, k);
        DriftIs(pace, k);
      }
    } else {
      assert At(pace, 1) != FAKE_START + 1.0 * pace;
    }
  }

  lemma GridIsFixed(pace: real)
    ensures Step(pace) as real == pace * TICKS <==> OnGrid(pace)
  {
    var x := pace * TICKS;
    if Nearest(x) as real == x {
      assert x.Floor == Nearest(x);
    }
  }

  /** How far the `k`-th stamp is off: at most half a tick for every query. */
  lemma DriftIs(pace: real, k: nat)
    requires pace > 0.0 && BeforeLimit(pace, k)
    ensures At(pace, k) - (FAKE_START + k as real * pace) == k as real * (Step(pace) as real / TICKS - pace)
    ensures -0.5 / TICKS <= Step(pace) as real / TICKS - pace <= 0.5 / TICKS
  {
    hide Nearest, Rounded, At;
    StampsAreEquidistant(pace, k);
    NearestIsClose(pace * TICKS);
    assert (k * Step(pace)) as real == k as real * Step(pace) as real;
  }

  /** Gaps between restamped queries equal the rounded pace, to less than a microsecond, over
      any stretch of the trace. */
  lemma PacedGaps(pace: real, i: nat, j: nat)
    requires pace > 0.0 && i <= j && BeforeLimit(pace, i) && BeforeLimit(pace, j)
    ensures var a, b := StampOf(At(pace, i)), StampOf(At(pace, j));
            var exact := ((j - i) * Step(pace)) as real / TICKS * 1000000.0;
            exact - 1.0 < (Micros(b) - Micros(a)) as real < exact + 1.0
  {
    hide Nearest, Rounded, At, StampOf, Micros, Step;
    StampIsRounded(At(pace, i));
    StampIsRounded(At(pace, j));
    StampsAreEquidistant(pace, i);
    StampsAreEquidistant(pace, j);
    assert (j - i) * Step(pace) == j * Step(pace) - i * Step(pace);
  }

  /** What becomes of the k-th usable message: with a pace its stamp is normalised and is the time
      1000000000 s plus `k` rounded paces, rounded down to a microsecond; nothing else of it
      changes, and without a pace nothing does. */
  lemma PacedMessage(pace: real, ms: seq<DNSMsg>, k: nat)
    requires k < |ms| && (pace > 0.0 ==> BeforeLimit(pace, k))
    ensures pace <= 0.0 ==> PacedAll(pace, ms)[k] == ms[k]
    ensures pace > 0.0 ==>
              var r, step := PacedAll(pace, ms)[k], Step(pace);
              var exact := (1000000000.0 + (k * step) as real / 8388608.0) * 1000000.0;
              && r == ms[k].(seconds := r.seconds, microseconds := r.microseconds)
              && 0 <= r.microseconds < 1000000
              && (r.seconds * 1000000 + r.microseconds) as real <= exact < (r.seconds * 1000000 + r.microseconds) as real + 1.0
              && -0.5 <= step as real - pace * 8388608.0 <= 0.5
  {
    hide At, StampOf, Nearest;
    if pace > 0.0 {
      StampsAreEquidistant(pace, k);
      StampIsRounded(At(pace, k));
      NearestIsClose(pace * TICKS);
    }
  }

  /** At a pace of a millisecond, and at any double close to it, query 22 is a microsecond
      late. */
  lemma MillisecondPaceDrifts(pace: real)
    requires 8388.6 < pace * TICKS < 8388.7
    ensures StampOf(At(pace, 22)) == TimeVal(1000000000, 22001)
  {
    hide At;
    assert Step(pace) == 8389;
    StampsAreEquidistant(pace, 22);
    assert At(pace, 22) == 1000000000.0 + 184558.0 / TICKS;
    assert At(pace, 22).Floor == 1000000000;
  }

  /** At a pace of ten milliseconds the second query is already a microsecond early. */
  lemma TenMillisecondPaceDrifts(pace: real)
    requires 83886.0 < pace * TICKS < 83886.1
    ensures StampOf(At(pace, 1)) == TimeVal(1000000000, 9999)
  {
    hide At;
    assert Step(pace) == 83886;
    StampsAreEquidistant(pace, 1);
    assert At(pace, 1) == 1000000000.0 + 83886.0 / TICKS;
    assert At(pace, 1).Floor == 1000000000;
  }
}
