/**
 The delay baseline and what a constant offset between the two clocks does to the statistics.
 Delays are differences between readings of two clocks, so moving the sender's clock forward by
 `c` milliseconds lowers every delay by `c`.
 */
module ClockSkew {
  import opened Windows
  import opened ProbeStats

  const MIN_SAMPLES := 10
  const OUTLIER_MULTIPLIER := 3.0
  const MIN_THRESHOLD_MS := 100.0

  datatype Baseline = Baseline(sum: real, count: nat)

  const NO_BASELINE := Baseline(0.0, 0)

  function Mean(b: Baseline, none: real): real {
    if b.count > 0 then b.sum / b.count as real else none
  }

  /** How far from the baseline a delay may be before it is an outlier. */
  function Threshold(mean: real): real {
    var scaled := Abs(mean) * OUTLIER_MULTIPLIER;
    if scaled > MIN_THRESHOLD_MS then scaled else MIN_THRESHOLD_MS
  }

  predicate Accepts(b: Baseline, delay: real) {
    b.count < MIN_SAMPLES || Abs(delay - Mean(b, delay)) < Threshold(Mean(b, delay))
  }

  function Updated(b: Baseline, delay: real): Baseline {
    if Accepts(b, delay) then Baseline(b.sum + delay, b.count + 1) else b
  }

  /** Farther from the mean than a tenth of a second and than three times the mean, said of the sums, without division. */
  predicate Far(delay: real, sum: real, n: real) {
    var distance := Abs(delay * n - sum);
    distance >= 100.0 * n && distance >= 3.0 * Abs(sum)
  }

  predicate Outlier(b: Baseline, delay: real) {
    b.count >= 10 && Far(delay, b.sum, b.count as real)
  }

  /**
   The outlier test and the update, step by step. The baseline stays as it is exactly for an outlier;
   any other delay counts once more and moves the mean by its share of the distance.
   */
  method TakeIntoBaseline(b: Baseline, delay: real) returns (r: Baseline)
    ensures r == b <==> Outlier(b, delay)
    ensures r != b ==> r.count == b.count + 1 && r.sum == b.sum + delay
    ensures r != b && b.count > 0 ==> (Mean(r, 0.0) - Mean(b, 0.0)) * r.count as real == delay - Mean(b, 0.0)
  {
    r := b;
    var baseline := if b.count > 0 then b.sum / b.count as real else delay;
    var deviation, threshold := Abs(delay - baseline), Abs(baseline) * OUTLIER_MULTIPLIER;
    OutlierExactly(b, delay);
    if b.count < MIN_SAMPLES || deviation < (if threshold > MIN_THRESHOLD_MS then threshold else MIN_THRESHOLD_MS) {
      r := Baseline(b.sum + delay, b.count + 1);
      if b.count > 0 {
        ShareOfDistance(b, delay);
      }
    }
  }

  lemma ScaledAbs(x: real, n: real)
    requires n > 0.0
    ensures Abs(x * n) == Abs(x) * n
  {
    if x < 0.0 {
      assert x * n < 0.0;
    } else {
      assert x * n >= 0.0;
    }
  }

  lemma ScaledOrder(x: real, y: real, n: real)
    requires n > 0.0
    ensures x * n >= y * n <==> x >= y
  {
    if x < y {
      assert (y - x) * n > 0.0;
    }
  }

  lemma FarExactly(mean: real, n: real, sum: real, delay: real, t: real)
    requires n > 0.0 && mean * n == sum
    ensures Abs(delay * n - sum) >= t * n <==> Abs(delay - mean) >= t
  {
    assert (delay - mean) * n == delay * n - sum;
    ScaledAbs(delay - mean, n);
    ScaledOrder(Abs(delay - mean), t, n);
  }

  lemma ScaledMean(mean: real, n: real, sum: real)
    requires n > 0.0 && mean * n == sum
    ensures Abs(mean) * OUTLIER_MULTIPLIER * n == OUTLIER_MULTIPLIER * Abs(sum)
  {
    ScaledAbs(mean, n);
  }

  lemma FarFromMean(delay: real, sum: real, n: real)
    requires n > 0.0
    ensures Far(delay, sum, n) <==> Abs(delay - sum / n) >= Threshold(sum / n)
  {
    var mean := sum / n;
    assert mean * n == sum;
    FarExactly(mean, n, sum, delay, MIN_THRESHOLD_MS);
    FarExactly(mean, n, sum, delay, Abs(mean) * OUTLIER_MULTIPLIER);
    ScaledMean(mean, n, sum);
  }

  /** Dividing by the count is what the test without division says. */
  lemma OutlierExactly(b: Baseline, delay: real)
    ensures Outlier(b, delay) <==> !Accepts(b, delay)
  {
    if b.count >= MIN_SAMPLES {
      FarFromMean(delay, b.sum, b.count as real);
    }
  }

  lemma ShareOfDistance(b: Baseline, delay: real)
    requires b.count > 0
    ensures var r := Baseline(b.sum + delay, b.count + 1);
            (Mean(r, 0.0) - Mean(b, 0.0)) * r.count as real == delay - Mean(b, 0.0)
  {
    var n, m := b.count as real, (b.count + 1) as real;
    assert m == n + 1.0;
    SharePart(Mean(b, 0.0), b.sum, n, delay, (b.sum + delay) / m);
  }

  lemma SharePart(mean: real, sum: real, n: real, delay: real, next: real)
    requires mean * n == sum && next * (n + 1.0) == sum + delay
    ensures (next - mean) * (n + 1.0) == delay - mean
  {
    assert (next - mean) * (n + 1.0) == next * (n + 1.0) - mean * n - mean;
  }

  /** The baseline after a sequence of delays. */
  function BaselineOf(delays: seq<real>): Baseline {
    if delays == [] then NO_BASELINE
    else Updated(BaselineOf(delays[..|delays| - 1]), delays[|delays| - 1])
  }

  /** The sum is no less than its share of any lower bound, and no more than that of any upper bound. */
  ghost predicate Between(b: Baseline, lo: real, hi: real) {
    lo * b.count as real <= b.sum <= hi * b.count as real
  }

  lemma OneMoreBetween(b: Baseline, delay: real, lo: real, hi: real)
    requires Between(b, lo, hi) && lo <= delay <= hi
    ensures Between(Updated(b, delay), lo, hi)
  {
    var n := b.count as real;
    assert (b.count + 1) as real == n + 1.0;
    assert lo * (n + 1.0) == lo * n + lo;
    assert hi * (n + 1.0) == hi * n + hi;
  }

  lemma {:induction false} SumWithin(delays: seq<real>, lo: real, hi: real)
    requires forall i | 0 <= i < |delays| :: lo <= delays[i] <= hi
    ensures Between(BaselineOf(delays), lo, hi)
  {
    if delays != [] {
      SumWithin(delays[..|delays| - 1], lo, hi);
      OneMoreBetween(BaselineOf(delays[..|delays| - 1]), delays[|delays| - 1], lo, hi);
    }
  }

  lemma MeanBetween(b: Baseline, lo: real, hi: real)
    requires Between(b, lo, hi) && b.count > 0
    ensures lo <= Mean(b, 0.0) <= hi
  {
    var n := b.count as real;
    var mean := b.sum / n;
    assert mean * n == b.sum;
    ScaledOrder(mean, lo, n);
    ScaledOrder(hi, mean, n);
  }

  /** Over any run, the baseline stays among the delays, whatever was rejected. */
  lemma BaselineWithinDelays(delays: seq<real>, lo: real, hi: real)
    requires delays != [] && forall i | 0 <= i < |delays| :: lo <= delays[i] <= hi
    ensures lo <= Mean(BaselineOf(delays), 0.0) <= hi
  {
    SumWithin(delays, lo, hi);
    CountBound(delays);
    MeanBetween(BaselineOf(delays), lo, hi);
  }

  /** Once ten delays are in, one more moves the baseline by less than its share of the threshold. */
  lemma SampleMovesBaselineLittle(b: Baseline, delay: real)
    requires b.count >= 10
    ensures var mean := Mean(b, 0.0);
            Abs(Mean(Updated(b, delay), 0.0) - mean) * (b.count + 1) as real < Threshold(mean)
  {
    if Accepts(b, delay) {
      ShareOfDistance(b, delay);
      ScaledAbs(Mean(Updated(b, delay), 0.0) - Mean(b, 0.0), (b.count + 1) as real);
    }
  }

  /** Which of the delays went into the baseline. */
  predicate Accepted(delays: seq<real>, i: nat)
    requires i < |delays|
  {
    Accepts(BaselineOf(delays[..i]), delays[i])
  }

  function Moved(delays: seq<real>, c: real): seq<real> {
    seq(|delays|, i requires 0 <= i < |delays| => delays[i] - c)
  }

  function MovedBaseline(b: Baseline, c: real): Baseline {
    Baseline(b.sum - c * b.count as real, b.count)
  }

  lemma {:induction false} CountBound(delays: seq<real>)
    ensures BaselineOf(delays).count <= |delays|
    ensures |delays| <= MIN_SAMPLES ==> BaselineOf(delays).count == |delays|
    ensures delays != [] ==> BaselineOf(delays).count > 0
  {
    if delays != [] {
      CountBound(delays[..|delays| - 1]);
    }
  }

  lemma Quotient(x: real, n: real)
    requires n > 0.0
    ensures x * n / n == x
  {
  }

  lemma MeanMoves(b: Baseline, c: real, none: real)
    ensures Mean(MovedBaseline(b, c), none - c) == Mean(b, none) - c
  {
    if b.count > 0 {
      var n := b.count as real;
      var mean := b.sum / n;
      assert mean * n == b.sum;
      assert (mean - c) * n == b.sum - c * n;
      Quotient(mean - c, n);
    }
  }

  lemma UpdateMoves(b: Baseline, delay: real, c: real)
    requires Accepts(b, delay) == Accepts(MovedBaseline(b, c), delay - c)
    ensures Updated(MovedBaseline(b, c), delay - c) == MovedBaseline(Updated(b, delay), c)
  {
    var n := b.count as real;
    assert c * (n + 1.0) == c * n + c;
    assert (b.count + 1) as real == n + 1.0;
  }

  /**
   A delay whose distance from the baseline lies between the two thresholds: the one at the current
   baseline and the one at the baseline lowered by `c`.
   */
  predicate Straddles(b: Baseline, delay: real, c: real) {
    && b.count >= MIN_SAMPLES
    && var mean := Mean(b, delay);
    var distance := Abs(delay - mean);
    (distance < Threshold(mean)) != (distance < Threshold(mean - c))
  }

  lemma DecisionsPart(b: Baseline, delay: real, c: real)
    ensures Accepts(b, delay) != Accepts(MovedBaseline(b, c), delay - c) <==> Straddles(b, delay, c)
  {
    MeanMoves(b, c, delay);
  }

  predicate StraddlesAt(delays: seq<real>, i: nat, c: real) {
    i < |delays| && Straddles(BaselineOf(delays[..i]), delays[i], c)
  }

  ghost predicate NeverStraddles(delays: seq<real>, c: real) {
    forall i: nat :: !StraddlesAt(delays, i, c)
  }

  lemma StraddlesInPrefix(delays: seq<real>, n: nat, c: real, i: nat)
    requires i < n <= |delays|
    ensures StraddlesAt(delays[..n], i, c) == StraddlesAt(delays, i, c)
  {
    assert delays[..n][..i] == delays[..i];
  }

  lemma NoStraddleInPrefix(delays: seq<real>, n: nat, c: real)
    requires n <= |delays| && forall i | 0 <= i < n :: !StraddlesAt(delays, i, c)
    ensures forall i | 0 <= i < n :: !StraddlesAt(delays[..n], i, c)
  {
    forall i | 0 <= i < n ensures !StraddlesAt(delays[..n], i, c) {
      StraddlesInPrefix(delays, n, c, i);
    }
  }

  /** As long as no delay straddles, the moved run keeps a moved baseline. */
  lemma {:induction false} BaselineMoves(delays: seq<real>, c: real)
    requires forall i | 0 <= i < |delays| :: !StraddlesAt(delays, i, c)
    ensures BaselineOf(Moved(delays, c)) == MovedBaseline(BaselineOf(delays), c)
  {
    if delays != [] {
      var n := |delays| - 1;
      NoStraddleInPrefix(delays, n, c);
      BaselineMoves(delays[..n], c);
      assert !StraddlesAt(delays, n, c);
      LastDelay(delays[..n], delays[n], c);
      assert delays == delays[..n] + [delays[n]];
    }
  }

  lemma UnfoldLast(delays: seq<real>, last: real)
    ensures BaselineOf(delays + [last]) == Updated(BaselineOf(delays), last)
  {
    assert (delays + [last])[..|delays|] == delays;
  }

  lemma StepMoves(b: Baseline, delay: real, c: real)
    requires !Straddles(b, delay, c)
    ensures Updated(MovedBaseline(b, c), delay - c) == MovedBaseline(Updated(b, delay), c)
  {
    DecisionsPart(b, delay, c);
    UpdateMoves(b, delay, c);
  }

  lemma UnfoldMoved(prev: seq<real>, last: real, c: real)
    ensures BaselineOf(Moved(prev + [last], c)) == Updated(BaselineOf(Moved(prev, c)), last - c)
  {
    assert Moved(prev + [last], c) == Moved(prev, c) + [last - c];
    UnfoldLast(Moved(prev, c), last - c);
  }

  lemma LastDelay(prev: seq<real>, last: real, c: real)
    requires BaselineOf(Moved(prev, c)) == MovedBaseline(BaselineOf(prev), c)
    requires !Straddles(BaselineOf(prev), last, c)
    ensures BaselineOf(Moved(prev + [last], c)) == MovedBaseline(BaselineOf(prev + [last]), c)
  {
    UnfoldMoved(prev, last, c);
    UnfoldLast(prev, last);
    StepMoves(BaselineOf(prev), last, c);
  }

  /** After the first `i` delays, the moved run's baseline is the baseline moved. */
  ghost predicate FollowsAt(delays: seq<real>, c: real, i: nat) {
    0 < i <= |delays| ==>
      Mean(BaselineOf(Moved(delays[..i], c)), 0.0) == Mean(BaselineOf(delays[..i]), 0.0) - c
  }

  lemma FollowsWithoutStraddling(delays: seq<real>, c: real, i: nat)
    requires i <= |delays| && forall j | 0 <= j < i :: !StraddlesAt(delays, j, c)
    ensures FollowsAt(delays, c, i)
  {
    if i > 0 {
      var prefix := delays[..i];
      NoStraddleInPrefix(delays, i, c);
      BaselineMoves(prefix, c);
      CountBound(prefix);
      MeanMoves(BaselineOf(prefix), c, c);
    }
  }

  lemma LeastSuch(p: nat -> bool, k: nat) returns (i: nat)
    requires p(k)
    ensures i <= k && p(i) && forall j | 0 <= j < i :: !p(j)
  {
    i := 0;
    while !p(i)
      invariant i <= k && forall j | 0 <= j < i :: !p(j)
      decreases k - i
    {
      i := i + 1;
    }
  }

  /**
   A skewed clock leaves every deviation from the baseline as it was, at every point of the run,
   exactly when no delay straddles the two thresholds.
   */
  lemma SkewIsAbsorbedExactlyWithoutStraddling(delays: seq<real>, c: real)
    ensures (forall i: nat :: FollowsAt(delays, c, i)) <==> NeverStraddles(delays, c)
  {
    if k: nat :| StraddlesAt(delays, k, c) {
      var p := (j: nat) => StraddlesAt(delays, j, c);
      var i := LeastSuch(p, k);
      forall j | 0 <= j < i ensures !StraddlesAt(delays, j, c) {
        assert !p(j);
      }
      StraddlingBreaksBaseline(delays, c, i);
      assert !FollowsAt(delays, c, i + 1);
    } else {
      forall i: nat ensures FollowsAt(delays, c, i) {
        if i <= |delays| {
          FollowsWithoutStraddling(delays, c, i);
        }
      }
    }
  }

  lemma StraddlingBreaksBaseline(delays: seq<real>, c: real, i: nat)
    requires StraddlesAt(delays, i, c)
    requires forall j | 0 <= j < i :: !StraddlesAt(delays, j, c)
    ensures !FollowsAt(delays, c, i + 1)
  {
    var prev, last, whole := delays[..i], delays[i], delays[..i + 1];
    NoStraddleInPrefix(delays, i, c);
    BaselineMoves(prev, c);
    assert whole[..i] == prev;
    assert Moved(whole, c)[..i] == Moved(prev, c);
    assert Moved(whole, c)[i] == last - c;
    OneSideTakesIt(BaselineOf(prev), last, c);
  }

  /** If only one of the two runs takes the delay in, the means no longer differ by `c`. */
  lemma OneSideTakesIt(b: Baseline, delay: real, c: real)
    requires Straddles(b, delay, c)
    ensures Mean(Updated(MovedBaseline(b, c), delay - c), 0.0) != Mean(Updated(b, delay), 0.0) - c
  {
    DecisionsPart(b, delay, c);
    MeanMoves(b, c, c);
    assert delay != Mean(b, 0.0);
    if Accepts(b, delay) {
      OneMoreSample(b, delay);
    } else {
      OneMoreSample(MovedBaseline(b, c), delay - c);
    }
  }

  /** Taking in a delay that differs from the mean changes the mean. */
  lemma OneMoreSample(b: Baseline, delay: real)
    requires b.count > 0 && delay != Mean(b, 0.0)
    ensures Mean(Baseline(b.sum + delay, b.count + 1), 0.0) != Mean(b, 0.0)
  {
    var n := b.count as real;
    var mean := b.sum / n;
    assert mean * n == b.sum;
    var next := (b.sum + delay) / (n + 1.0);
    assert next * (n + 1.0) == b.sum + delay;
    assert mean * (n + 1.0) == mean * n + mean;
  }

  /** No delay among the first ten can straddle: they are all taken in, whatever the clocks say. */
  lemma FirstSamplesNeverStraddle(delays: seq<real>, c: real, i: nat)
    requires i < 10
    ensures !StraddlesAt(delays, i, c)
    ensures i < |delays| ==> Accepted(delays, i)
  {
    if i < |delays| {
      CountBound(delays[..i]);
    }
  }

  lemma {:induction false} ZeroDelays(n: nat)
    requires n <= MIN_SAMPLES
    ensures BaselineOf(seq(n, _ => 0.0)) == Baseline(0.0, n)
  {
    if n > 0 {
      ZeroDelays(n - 1);
      assert seq(n, _ => 0.0)[..n - 1] == seq(n - 1, _ => 0.0);
    }
  }

  /** A later delay can: 200 ms is an outlier around 0 ms but not around 1000 ms. */
  lemma SkewCanChangeTheBaseline()
    ensures exists delays: seq<real>, c: real, i: nat :: StraddlesAt(delays, i, c)
  {
    var calm: seq<real> := seq(10, _ => 0.0);
    var delays := calm + [200.0];
    ZeroDelays(10);
    assert delays[..10] == calm;
    assert StraddlesAt(delays, 10, -1000.0);
  }

  function Skewed(probes: seq<ReceivedProbe>, c: int): seq<ReceivedProbe> {
    seq(|probes|, i requires 0 <= i < |probes| => probes[i].(sentAtMs := probes[i].sentAtMs + c))
  }

  function Delays(probes: seq<ReceivedProbe>): seq<real> {
    seq(|probes|, i requires 0 <= i < |probes| => Delay(probes[i]))
  }

  lemma OneMoreDelay(probes: seq<ReceivedProbe>, p: ReceivedProbe)
    ensures BaselineOf(Delays(probes + [p])) == Updated(BaselineOf(Delays(probes)), Delay(p))
  {
    assert Delays(probes + [p]) == Delays(probes) + [Delay(p)];
    UnfoldLast(Delays(probes), Delay(p));
  }

  lemma SkewMovesDelays(probes: seq<ReceivedProbe>, c: int)
    ensures Delays(Skewed(probes, c)) == Moved(Delays(probes), c as real)
  {
  }

  /**
   With the sender's clock moved by `c` and the baseline moved along, every statistic is the same;
   jitter, loss and reordering are the same whatever becomes of the baseline.
   */
  lemma SkewLeavesStatistics(recent: seq<ReceivedProbe>, c: int, baseline: real, other: real)
    requires recent != []
    ensures StatsOf(Skewed(recent, c), baseline - c as real)
         == StatsOf(recent, baseline).(baseline := baseline - c as real)
    ensures StatsOf(Skewed(recent, c), other)
         == StatsOf(recent, baseline).(baseline := other, delayDeviation := PercentilesOf(Deviations(Skewed(recent, c), other)))
  {
    SkewedDeviations(recent, c, baseline);
    SkewedJitters(recent, c);
    SkewedSeqNos(recent, c);
  }

  lemma SkewedDelay(p: ReceivedProbe, c: int)
    ensures Delay(p.(sentAtMs := p.sentAtMs + c)) == Delay(p) - c as real
  {
  }

  lemma SkewedDeviations(recent: seq<ReceivedProbe>, c: int, baseline: real)
    ensures Deviations(Skewed(recent, c), baseline - c as real) == Deviations(recent, baseline)
  {
    forall i | 0 <= i < |recent| ensures Delay(Skewed(recent, c)[i]) == Delay(recent[i]) - c as real {
      SkewedDelay(recent[i], c);
    }
  }

  lemma SkewedJitters(recent: seq<ReceivedProbe>, c: int)
    ensures Jitters(Skewed(recent, c)) == Jitters(recent)
  {
    forall i | 0 <= i < |recent| - 1 ensures JitterAfter(Skewed(recent, c), i) == JitterAfter(recent, i) {
      SkewedDelay(recent[i], c);
      SkewedDelay(recent[i + 1], c);
    }
  }

  lemma SkewedSeqNos(recent: seq<ReceivedProbe>, c: int)
    ensures SeqNos(Skewed(recent, c)) == SeqNos(recent)
  {
  }

  /** The report on a whole history of probes, read at `now`. */
  function Report(history: seq<ReceivedProbe>, now: nat): DirectionStats {
    StatsOf(Recent(history, now), Mean(BaselineOf(Delays(history)), 0.0))
  }

  lemma SkewedFirst(p: ReceivedProbe, rest: seq<ReceivedProbe>, c: int)
    ensures Skewed([p] + rest, c) == [p.(sentAtMs := p.sentAtMs + c)] + Skewed(rest, c)
  {
    var all, skewed := [p] + rest, Skewed([p] + rest, c);
    assert skewed[0] == p.(sentAtMs := p.sentAtMs + c);
    forall i | 0 < i < |all| ensures skewed[i] == Skewed(rest, c)[i - 1] {
      assert all[i] == rest[i - 1];
    }
  }

  lemma {:induction false} RecentOfSkewed(history: seq<ReceivedProbe>, c: int, now: nat)
    ensures Recent(Skewed(history, c), now) == Skewed(Recent(history, now), c)
  {
    if history != [] {
      var keep := Fresh(ReceivedAt, Cutoff(now, FEEDBACK_WINDOW_MS));
      var p, rest, skewed := history[0], history[1..], Skewed(history, c);
      RecentOfSkewed(rest, c, now);
      assert skewed[1..] == Skewed(rest, c);
      assert skewed[0] == p.(sentAtMs := p.sentAtMs + c) && ReceivedAt(skewed[0]) == ReceivedAt(p);
      assert keep(skewed[0]) == keep(p);
      SkewedFirst(p, Recent(rest, now), c);
    }
  }

  lemma BaselineOfSkewed(history: seq<ReceivedProbe>, c: int)
    requires history != [] && NeverStraddles(Delays(history), c as real)
    ensures Mean(BaselineOf(Delays(Skewed(history, c))), 0.0) == Mean(BaselineOf(Delays(history)), 0.0) - c as real
  {
    var delays := Delays(history);
    SkewMovesDelays(history, c);
    SkewIsAbsorbedExactlyWithoutStraddling(delays, c as real);
    assert FollowsAt(delays, c as real, |delays|);
    assert delays[..|delays|] == delays;
  }

  /**
   What the two clocks make of a whole run: unless some delay straddles, moving the sender's clock by
   `c` changes nothing in any report but the baseline itself, which moves along.
   */
  lemma SkewLeavesReports(history: seq<ReceivedProbe>, c: int, now: nat)
    requires NeverStraddles(Delays(history), c as real) && Recent(history, now) != []
    ensures Report(Skewed(history, c), now)
         == Report(history, now).(baseline := Report(history, now).baseline - c as real)
  {
    assert history != [] by {
      assert Recent([], now) == [];
    }
    RecentOfSkewed(history, c, now);
    BaselineOfSkewed(history, c);
    SameStatistics(Recent(history, now), Recent(Skewed(history, c), now), c,
                   Mean(BaselineOf(Delays(history)), 0.0), Mean(BaselineOf(Delays(Skewed(history, c))), 0.0));
  }

  lemma SameStatistics(recent: seq<ReceivedProbe>, skewed: seq<ReceivedProbe>, c: int, baseline: real, moved: real)
    requires recent != [] && skewed == Skewed(recent, c) && moved == baseline - c as real
    ensures StatsOf(skewed, moved) == StatsOf(recent, baseline).(baseline := moved)
    ensures StatsOf(recent, baseline).baseline == baseline
  {
    SkewLeavesStatistics(recent, c, baseline, moved);
  }
}
