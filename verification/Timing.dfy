/** RTT estimation, the retransmission timeout and its backoff; durations in nanoseconds. */
module Timing {

  const MIN_RTO := 100_000_000
  const MAX_RTO := 45_000_000_000
  const INITIAL_RTO := 9_000_000_000
  const GRANULARITY := 1_000_000

  datatype Timer = Timer(rtt: int, srtt: int, rttVariance: int, rto: int)

  function Max(a: int, b: int): int {
    if a < b then b else a
  }

  /** Conversion of a fraction to a Duration truncates toward zero. */
  function Truncate(numerator: int, denominator: int): int
    requires denominator > 0
  {
    if numerator >= 0 then numerator / denominator else -((-numerator) / denominator)
  }

  function Clamp(rto: int): int {
    if rto < MIN_RTO then MIN_RTO else if rto > MAX_RTO then MAX_RTO else rto
  }

  /** updateRTTEstimate, with alpha = 1/8 and beta = 1/4. */
  function Sampled(t: Timer, sample: int): Timer {
    if t.srtt == 0 then t.(rtt := sample, srtt := sample, rttVariance := Truncate(sample, 2))
    else
      var diff := if t.srtt > sample then t.srtt - sample else sample - t.srtt;
      t.(rtt := sample,
         rttVariance := Truncate(3 * t.rttVariance + diff, 4),
         srtt := Truncate(7 * t.srtt + sample, 8))
  }

  /** calculateRTO. */
  function ConnectionRto(srtt: int, rttVariance: int): int {
    Clamp(srtt + 4 * rttVariance)
  }

  /** calculateRTOFromValues, the cache's version. */
  function CacheRto(srtt: int, rttVariance: int): int {
    Clamp(srtt + Max(4 * rttVariance, GRANULARITY))
  }

  function Measured(t: Timer, sample: int): Timer {
    var s := Sampled(t, sample);
    s.(rto := ConnectionRto(s.srtt, s.rttVariance))
  }

  /** applyExponentialBackoffLocked. */
  function Backoff(rto: int): int {
    if 2 * rto > MAX_RTO then MAX_RTO else 2 * rto
  }

  /** getResendDelaySeconds. */
  function ResendDelay(rto: int): (d: int)
    ensures 1 <= d <= 255
  {
    var seconds := Truncate(rto, 1_000_000_000);
    if seconds <= 0 then 1 else if seconds > 255 then 255 else seconds
  }

  // ----- whole runs of samples and timeouts -----

  datatype Event = Sample(rtt: int) | Timeout

  function Run(t: Timer, events: seq<Event>): Timer
    decreases |events|
  {
    if events == [] then t
    else
      var next := match events[0] case Sample(x) => Measured(t, x) case Timeout => t.(rto := Backoff(t.rto));
      Run(next, events[1..])
  }

  ghost predicate SamplesWithin(events: seq<Event>, lo: int, hi: int) {
    forall i | 0 <= i < |events| :: events[i].Sample? ==> lo <= events[i].rtt <= hi
  }

  ghost predicate Bounded(t: Timer, lo: int, hi: int) {
    && (t.srtt == 0 || lo <= t.srtt <= hi)
    && 0 <= t.rttVariance <= Max(hi / 2, hi - lo)
    && MIN_RTO <= t.rto <= MAX_RTO
  }

  lemma SampleBounded(t: Timer, sample: int, lo: int, hi: int)
    requires 0 <= lo <= sample <= hi && Bounded(t, lo, hi)
    ensures Bounded(Measured(t, sample), lo, hi)
    ensures lo <= Measured(t, sample).srtt <= hi
  {
  }

  /** Started without cached data, the smoothed RTT never leaves the range of the samples,
      the variance never exceeds max(hi/2, hi-lo) in spite of truncation, and the timeout
      stays in [100 ms, 45 s], through every mix of samples and backoffs. */
  lemma {:induction false} EstimatorStable(t: Timer, events: seq<Event>, lo: int, hi: int)
    requires 0 <= lo <= hi && SamplesWithin(events, lo, hi) && Bounded(t, lo, hi)
    ensures Bounded(Run(t, events), lo, hi)
    decreases |events|
  {
    if events != [] {
      if events[0].Sample? {
        assert lo <= events[0].rtt <= hi;
        SampleBounded(t, events[0].rtt, lo, hi);
      }
      var next := match events[0] case Sample(x) => Measured(t, x) case Timeout => t.(rto := Backoff(t.rto));
      assert SamplesWithin(events[1..], lo, hi);
      EstimatorStable(next, events[1..], lo, hi);
    }
  }

  /** A connection without cached data starts inside every such range. */
  lemma FreshIsBounded(lo: int, hi: int)
    requires 0 <= lo <= hi
    ensures Bounded(Timer(8_000_000_000, 0, 0, INITIAL_RTO), lo, hi)
  {
  }

  /** On equal inputs the cache's timeout exceeds the connection's by at most one
      millisecond, and differs exactly when the variance term is below the clock
      granularity and neither end of the clamp absorbs the difference. */
  lemma CacheRtoWithinGranularity(srtt: int, rttVariance: int)
    ensures 0 <= CacheRto(srtt, rttVariance) - ConnectionRto(srtt, rttVariance)
    ensures rttVariance >= 0 ==> CacheRto(srtt, rttVariance) - ConnectionRto(srtt, rttVariance) <= GRANULARITY
    ensures CacheRto(srtt, rttVariance) != ConnectionRto(srtt, rttVariance) <==>
              4 * rttVariance < GRANULARITY && srtt + GRANULARITY > MIN_RTO && srtt + 4 * rttVariance < MAX_RTO
  {
  }

  // ----- what the estimator converges to -----

  /** The first sample is taken over, half of it as variance; with every later one the variance
      becomes 3/4 of itself and 1/4 of the distance to the old SRTT, and the SRTT 7/8 of itself
      and 1/8 of the sample, both cut to whole nanoseconds. */
  lemma SampledMoves(t: Timer, sample: int)
    requires t.srtt >= 0 && t.rttVariance >= 0 && sample >= 0
    ensures var s := Sampled(t, sample);
            && s.rtt == sample && s.rto == t.rto
            && if t.srtt == 0 then s.srtt == sample && 2 * s.rttVariance <= sample <= 2 * s.rttVariance + 1
               else
                 var distance := if sample > t.srtt then sample - t.srtt else t.srtt - sample;
                 && 8 * s.srtt <= 7 * t.srtt + sample < 8 * s.srtt + 8
                 && 4 * s.rttVariance <= 3 * t.rttVariance + distance < 4 * s.rttVariance + 4
  {
  }

  /** The timeout is SRTT + 4 RTTVAR, but no less than 100 ms and no more than 45 s; the cache's
      version takes at least 1 ms for the second term. */
  lemma RtoExactly(srtt: int, rttVariance: int)
    ensures var (r, q) := (ConnectionRto(srtt, rttVariance), CacheRto(srtt, rttVariance));
            && 100_000_000 <= r <= 45_000_000_000 && 100_000_000 <= q <= 45_000_000_000
            && (100_000_000 <= srtt + 4 * rttVariance <= 45_000_000_000 ==> r == srtt + 4 * rttVariance)
            && (srtt + 4 * rttVariance < 100_000_000 ==> r == 100_000_000)
            && (srtt + 4 * rttVariance > 45_000_000_000 ==> r == 45_000_000_000)
            && (4 * rttVariance >= 1_000_000 ==> q == r)
            && (4 * rttVariance < 1_000_000 && 100_000_000 <= srtt + 1_000_000 <= 45_000_000_000 ==> q == srtt + 1_000_000)
  {
  }

  function Steady(t: Timer, sample: int, k: nat): Timer {
    if k == 0 then t else Measured(Steady(t, sample, k - 1), sample)
  }

  function Power(b: nat, k: nat): nat {
    if k == 0 then 1 else b * Power(b, k - 1)
  }

  function Distance(a: int, b: int): nat {
    if a > b then a - b else b - a
  }

  /** While all samples are the same, the SRTT comes nearer by an eighth of the distance each
      time, up to the 8 ns that truncation costs: k samples leave at most (7/8)^k of it. */
  lemma {:induction false} SrttConverges(t: Timer, sample: int, k: nat)
    requires t.srtt > 0 && sample > 0
    ensures Steady(t, sample, k).srtt > 0
    ensures Power(8, k) * Distance(Steady(t, sample, k).srtt, sample)
            <= Power(7, k) * Distance(t.srtt, sample) + 8 * Power(8, k)
  {
    if k == 0 {
    } else {
      SrttConverges(t, sample, k - 1);
      var a, b := Steady(t, sample, k - 1).srtt, Steady(t, sample, k).srtt;
      SrttMoves(Steady(t, sample, k - 1), sample);
      ScaledDown(Power(8, k - 1), Power(7, k - 1), Distance(a, sample), Distance(b, sample), Distance(t.srtt, sample));
    }
  }

  lemma SrttMoves(t: Timer, sample: int)
    requires t.srtt > 0 && sample > 0
    ensures var b := Measured(t, sample).srtt;
            b > 0 && 8 * Distance(b, sample) <= 7 * Distance(t.srtt, sample) + 7
  {
  }

  lemma ScaledDown(p8: nat, p7: nat, a: nat, b: nat, first: nat)
    requires p8 * a <= p7 * first + 8 * p8 && 8 * b <= 7 * a + 7
    ensures (8 * p8) * b <= (7 * p7) * first + 8 * (8 * p8)
  {
    Scale(p8, 8 * b, 7 * a + 7);
    Regrouped(p8, a, b);
    assert (7 * p7) * first == 7 * (p7 * first) by { Associates(7, p7, first); }
    assert (8 * p8) * b == 8 * (p8 * b) by { Associates(8, p8, b); }
  }

  lemma Scale(p: nat, x: nat, y: nat)
    requires x <= y
    ensures p * x <= p * y
  {
  }

  lemma Associates(x: nat, y: nat, z: nat)
    ensures (x * y) * z == x * (y * z)
  {
  }

  lemma Regrouped(p: nat, a: nat, b: nat)
    ensures p * (8 * b) == 8 * (p * b) && p * (7 * a + 7) == 7 * (p * a) + 7 * p
  {
  }

  // ----- backoff -----

  function Pow2(k: nat): nat {
    if k == 0 then 1 else 2 * Pow2(k - 1)
  }

  function Backoffs(rto: int, k: nat): int {
    if k == 0 then rto else Backoff(Backoffs(rto, k - 1))
  }

  /** After k timeouts the timeout is min(45 s, 2^k times the starting one). */
  lemma {:induction false} BackoffDoubles(rto: int, k: nat)
    requires 0 < rto <= MAX_RTO
    ensures Backoffs(rto, k) == if Pow2(k) * rto > MAX_RTO then MAX_RTO else Pow2(k) * rto
    ensures 0 < Backoffs(rto, k)
  {
    if k > 0 {
      BackoffDoubles(rto, k - 1);
      assert Pow2(k) * rto == 2 * (Pow2(k - 1) * rto);
    }
  }
}
