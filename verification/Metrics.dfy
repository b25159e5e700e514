/**
 The metrics shown for a client: throughput, delay, loss and reordering in both directions over the
 last second, ten seconds and minute. They are read off the deques of the measurement state.
 Arithmetic is over exact reals; the spread of the delays is kept as a variance, the square of what
 the program reports.
 */
module Metrics {
  import opened Bytes
  import opened Windows
  import opened ProbeStats
  import opened ClockSkew

  const WINDOWS_MS := [1_000, 10_000, 60_000]

  /** A block of bulk data and when it was received or sent. */
  datatype Bulk = Bulk(bytes: u64, atMs: nat)

  function BulkAt(b: Bulk): nat {
    b.atMs
  }

  /** What the metrics use of a probe: its number and its delay, which two clocks may make negative. */
  datatype Sample = Sample(seqNo: u64, delay: real)

  function SampleOf(p: ReceivedProbe): Sample {
    Sample(p.seqNo, Delay(p))
  }

  datatype WindowMetrics = WindowMetrics(
    throughput: real, delayAvg: real, delayVariance: real, lossRate: real, reorderRate: real)

  const NO_TRAFFIC := WindowMetrics(0.0, 0.0, 0.0, 0.0, 0.0)

  /** One entry per window. */
  datatype ClientMetrics = ClientMetrics(c2s: seq<WindowMetrics>, s2c: seq<WindowMetrics>)

  const NO_METRICS := ClientMetrics([NO_TRAFFIC, NO_TRAFFIC, NO_TRAFFIC], [NO_TRAFFIC, NO_TRAFFIC, NO_TRAFFIC])

  function Total(s: seq<real>): real {
    if s == [] then 0.0 else s[0] + Total(s[1..])
  }

  function Average(s: seq<real>): real
    requires s != []
  {
    Total(s) / |s| as real
  }

  function Square(x: real): real {
    x * x
  }

  function Squares(s: seq<real>, center: real): seq<real> {
    seq(|s|, i requires 0 <= i < |s| => Square(s[i] - center))
  }

  function Variance(s: seq<real>): real
    requires s != []
  {
    Average(Squares(s, Average(s)))
  }

  function SampleSeqNos(samples: seq<Sample>): seq<u64> {
    seq(|samples|, i requires 0 <= i < |samples| => samples[i].seqNo)
  }

  function SampleDelays(samples: seq<Sample>): seq<real> {
    seq(|samples|, i requires 0 <= i < |samples| => samples[i].delay)
  }

  function ByteCount(bulk: seq<Bulk>): nat {
    if bulk == [] then 0 else bulk[0].bytes + ByteCount(bulk[1..])
  }

  /** Bytes per second; the sum is taken in 64 bits. */
  function Throughput(bulk: seq<Bulk>, window: nat): real
    requires window > 0
  {
    (ByteCount(bulk) % U64_RANGE) as real / (window as real / 1000.0)
  }

  // ---------------------------------------------------------------------------------------
  // What sums, averages and rates are
  // ---------------------------------------------------------------------------------------

  lemma {:induction false} TotalConcat(a: seq<real>, b: seq<real>)
    ensures Total(a + b) == Total(a) + Total(b)
  {
    if a == [] {
      assert a + b == b;
    } else {
      TotalConcat(a[1..], b);
      assert (a + b)[1..] == a[1..] + b;
    }
  }

  lemma OneMoreTotal(s: seq<real>, x: real)
    ensures Total([]) == 0.0 && Total(s + [x]) == Total(s) + x
  {
    TotalConcat(s, [x]);
    assert [x][1..] == [];
  }

  lemma {:induction false} ByteCountConcat(a: seq<Bulk>, b: seq<Bulk>)
    ensures ByteCount(a + b) == ByteCount(a) + ByteCount(b)
  {
    if a == [] {
      assert a + b == b;
    } else {
      ByteCountConcat(a[1..], b);
      assert (a + b)[1..] == a[1..] + b;
    }
  }

  lemma OneMoreBlock(bulk: seq<Bulk>, block: Bulk)
    ensures ByteCount([]) == 0 && ByteCount(bulk + [block]) == ByteCount(bulk) + block.bytes
  {
    ByteCountConcat(bulk, [block]);
    assert [block][1..] == [];
  }

  /** As many of `average` as there are values add up to the same. */
  predicate Averages(average: real, s: seq<real>) {
    average * |s| as real == Total(s)
  }

  lemma AverageTimesCount(s: seq<real>)
    requires s != []
    ensures Averages(Average(s), s)
  {
    var n := |s| as real;
    assert Total(s) / n * n == Total(s);
  }

  /** The distances from the average cancel out. */
  lemma DistancesCancel(s: seq<real>)
    requires s != []
    ensures Total(Moved(s, Average(s))) == 0.0
  {
    TotalMoves(s, Average(s));
    AverageTimesCount(s);
  }

  lemma SquareAt(s: seq<real>, center: real, i: nat)
    requires i < |s|
    ensures |Squares(s, center)| == |s| && Squares(s, center)[i] == (s[i] - center) * (s[i] - center)
  {
  }

  lemma ThroughputMeasures(bulk: seq<Bulk>, window: nat)
    requires window > 0
    ensures DataMeasured(Throughput(bulk, window), bulk, window)
  {
    PerSecond((ByteCount(bulk) % U64_RANGE) as real, window as real);
  }

  lemma PerSecond(bytes: real, window: real)
    requires window > 0.0
    ensures bytes / (window / 1000.0) * window == 1000.0 * bytes
  {
    var seconds := window / 1000.0;
    var q := bytes / seconds;
    assert q * seconds == bytes;
    assert window == 1000.0 * seconds;
    assert q * (1000.0 * seconds) == 1000.0 * (q * seconds);
  }

  /** What the figures of a window say about its probes: all zero without any. */
  ghost predicate ProbesMeasured(m: WindowMetrics, samples: seq<Sample>) {
    && (samples == [] ==> m.delayAvg == m.delayVariance == m.lossRate == m.reorderRate == 0.0)
    && (samples != [] ==>
          && Averages(m.delayAvg, SampleDelays(samples))
          && Averages(m.delayVariance, Squares(SampleDelays(samples), m.delayAvg))
          && LossLaw(m.lossRate, SampleSeqNos(samples)) && ReorderLaw(m.reorderRate, SampleSeqNos(samples)))
  }

  /** And about its data: sent at that rate through the window, they are the window's bytes, summed in 64 bits. */
  predicate DataMeasured(throughput: real, bulk: seq<Bulk>, window: nat) {
    throughput * window as real == 1000.0 * (ByteCount(bulk) % 0x1_0000_0000_0000_0000) as real
  }

  /** What the probes of a window tell. */
  function ProbesOf(samples: seq<Sample>): WindowMetrics {
    if samples == [] then NO_TRAFFIC else
    var seqNos, delays := SampleSeqNos(samples), SampleDelays(samples);
    WindowMetrics(0.0, Average(delays), Variance(delays), LossRate(seqNos), ReorderRate(seqNos))
  }

  /** One direction over one window. */
  function DirectionOf(samples: seq<Sample>, bulk: seq<Bulk>, window: nat): WindowMetrics
    requires window > 0
  {
    ProbesOf(samples).(throughput := Throughput(bulk, window))
  }

  lemma ProbesOfMeasure(samples: seq<Sample>)
    ensures ProbesMeasured(ProbesOf(samples), samples)
  {
    if samples != [] {
      AverageTimesCount(SampleDelays(samples));
      AverageTimesCount(Squares(SampleDelays(samples), Average(SampleDelays(samples))));
      LossObeysLaw(SampleSeqNos(samples));
      ReorderObeysLaw(SampleSeqNos(samples));
    }
  }

  lemma SameProbes(m: WindowMetrics, m': WindowMetrics, samples: seq<Sample>)
    requires ProbesMeasured(m, samples) && m' == m.(throughput := m'.throughput)
    ensures ProbesMeasured(m', samples)
  {
  }

  lemma DirectionMeasures(samples: seq<Sample>, bulk: seq<Bulk>, window: nat)
    requires window > 0
    ensures ProbesMeasured(DirectionOf(samples, bulk, window), samples)
    ensures DataMeasured(DirectionOf(samples, bulk, window).throughput, bulk, window)
  {
    ProbesOfMeasure(samples);
    ThroughputMeasures(bulk, window);
    SameProbes(ProbesOf(samples), DirectionOf(samples, bulk, window), samples);
  }

  /** Loss is only computed from two probes on; with one it would be zero anyway. */
  method MeasureProbes(samples: seq<Sample>) returns (m: WindowMetrics)
    ensures ProbesMeasured(m, samples)
    ensures m == ProbesOf(samples)
  {
    ProbesOfMeasure(samples);
    m := NO_TRAFFIC;
    if samples != [] {
      var seqNos, delays := SampleSeqNos(samples), SampleDelays(samples);
      m := m.(delayAvg := Average(delays), delayVariance := Variance(delays));
      if |samples| >= 2 {
        m := m.(lossRate := LossRate(seqNos));
      } else {
        SingleProbeLoss(seqNos[0]);
        assert seqNos == [seqNos[0]];
      }
      var reorders := CountReorders(seqNos);
      m := m.(reorderRate := Share(reorders, |samples|));
    }
  }

  lemma NoThroughput(window: nat)
    requires window > 0
    ensures Throughput([], window) == 0.0
  {
  }

  /** Throughput is only computed from some data on; without any it would be zero anyway. */
  method MeasureDirection(samples: seq<Sample>, bulk: seq<Bulk>, window: nat) returns (m: WindowMetrics)
    requires window > 0
    ensures ProbesMeasured(m, samples) && DataMeasured(m.throughput, bulk, window)
    ensures m == DirectionOf(samples, bulk, window)
  {
    DirectionMeasures(samples, bulk, window);
    m := MeasureProbes(samples);
    if bulk != [] {
      m := m.(throughput := Throughput(bulk, window));
    } else {
      NoThroughput(window);
    }
  }

  lemma SingleProbeLoss(x: u64)
    ensures LossRate([x]) == 0.0
  {
    assert Expected([x]) == 1;
  }

  function Within<T>(items: seq<T>, stamp: T -> nat, now: nat, window: nat): seq<T> {
    Filter(items, Fresh(stamp, Cutoff(now, window)))
  }

  function Samples<T>(probes: seq<T>, sample: T -> Sample): seq<Sample> {
    seq(|probes|, i requires 0 <= i < |probes| => sample(probes[i]))
  }

  /** What probes and bulk data amount to over the last `window` milliseconds. */
  function View<T>(probes: seq<T>, stamp: T -> nat, sample: T -> Sample, bulk: seq<Bulk>, now: nat, window: nat): WindowMetrics
    requires window > 0
  {
    DirectionOf(Samples(Within(probes, stamp, now, window), sample), Within(bulk, BulkAt, now, window), window)
  }

  /** One item more is in the window exactly if its stamp is no more than the window before `now`. */
  lemma OneMoreWithin<T>(items: seq<T>, x: T, stamp: T -> nat, now: nat, window: nat)
    ensures Within([], stamp, now, window) == []
    ensures Within(items + [x], stamp, now, window)
         == Within(items, stamp, now, window) + if stamp(x) + window >= now then [x] else []
  {
    var keep := Fresh(stamp, Cutoff(now, window));
    FilterConcat(items, [x], keep);
    assert keep(x) <==> stamp(x) + window >= now;
    assert [x][1..] == [] && Filter([x], keep) == if keep(x) then [x] else [];
  }

  /** What is shown of probes and data over the last `window` milliseconds is what they amount to. */
  ghost predicate Shown<T>(m: WindowMetrics, probes: seq<T>, stamp: T -> nat, sample: T -> Sample, bulk: seq<Bulk>,
                           now: nat, window: nat)
    requires window > 0
  {
    && m == View(probes, stamp, sample, bulk, now, window)
    && ProbesMeasured(m, Samples(Within(probes, stamp, now, window), sample))
    && DataMeasured(m.throughput, Within(bulk, BulkAt, now, window), window)
  }

  lemma ViewIsShown<T>(probes: seq<T>, stamp: T -> nat, sample: T -> Sample, bulk: seq<Bulk>, now: nat, window: nat)
    requires window > 0
    ensures Shown(View(probes, stamp, sample, bulk, now, window), probes, stamp, sample, bulk, now, window)
  {
    DirectionMeasures(Samples(Within(probes, stamp, now, window), sample), Within(bulk, BulkAt, now, window), window);
  }

  /** The sum of some reading over all items. */
  function SumOf<T>(items: seq<T>, reading: T -> int): int {
    if items == [] then 0 else SumOf(items[..|items| - 1], reading) + reading(items[|items| - 1])
  }

  /** If a delay is the difference of two readings, the delays add up to the difference of the sums. */
  lemma {:induction false} DelaysAddUp<T>(probes: seq<T>, sample: T -> Sample, there: T -> int, here: T -> int)
    requires forall i | 0 <= i < |probes| :: sample(probes[i]).delay == (there(probes[i]) - here(probes[i])) as real
    ensures Total(SampleDelays(Samples(probes, sample))) == (SumOf(probes, there) - SumOf(probes, here)) as real
  {
    if probes != [] {
      var prev, last := probes[..|probes| - 1], probes[|probes| - 1];
      DelaysAddUp(prev, sample, there, here);
      assert SampleDelays(Samples(probes, sample)) == SampleDelays(Samples(prev, sample)) + [sample(last).delay];
      OneMoreTotal(SampleDelays(Samples(prev, sample)), sample(last).delay);
    }
  }

  /** The client's probes: times of arrival less times of sending. */
  lemma ReceivedDelaysAddUp(probes: seq<ReceivedProbe>)
    ensures Total(SampleDelays(Samples(probes, SampleOf)))
         == (SumOf(probes, (p: ReceivedProbe) => p.receivedAtMs) - SumOf(probes, (p: ReceivedProbe) => p.sentAtMs)) as real
  {
    DelaysAddUp(probes, SampleOf, (p: ReceivedProbe) => p.receivedAtMs, (p: ReceivedProbe) => p.sentAtMs);
  }

  /** Deques that keep at least the window show what the full histories since the last clear would show. */
  lemma ViewOfHistory<T>(ops: seq<Op<T>>, stamp: T -> nat, sample: T -> Sample, bulkOps: seq<Op<Bulk>>,
                         keep: nat, now: nat, window: nat)
    requires 0 < window <= keep && NoLaterThan(ops, now) && NoLaterThan(bulkOps, now)
    ensures View(Deque(ops, stamp, keep), stamp, sample, Deque(bulkOps, BulkAt, keep), now, window)
         == View(History(ops), stamp, sample, History(bulkOps), now, window)
  {
    PruningIsInvisible(ops, stamp, keep, window, now);
    PruningIsInvisible(bulkOps, BulkAt, keep, window, now);
  }

  /** All three windows of one direction. */
  method MeasureWindows<T>(probes: seq<T>, stamp: T -> nat, sample: T -> Sample, bulk: seq<Bulk>, now: nat)
    returns (m: seq<WindowMetrics>)
    ensures |m| == |WINDOWS_MS|
    ensures forall i | 0 <= i < |WINDOWS_MS| :: m[i] == View(probes, stamp, sample, bulk, now, WINDOWS_MS[i])
  {
    m := [];
    for i := 0 to |WINDOWS_MS|
      invariant |m| == i
      invariant forall j | 0 <= j < i :: m[j] == View(probes, stamp, sample, bulk, now, WINDOWS_MS[j])
    {
      var samples := Samples(Within(probes, stamp, now, WINDOWS_MS[i]), sample);
      var d := MeasureDirection(samples, Within(bulk, BulkAt, now, WINDOWS_MS[i]), WINDOWS_MS[i]);
      m := m + [d];
    }
  }

  /** Two probes that took 10 and 30 milliseconds. */
  lemma SampleWindow()
    ensures var m := ProbesOf([Sample(1, 10.0), Sample(3, 30.0)]);
            m.delayAvg == 20.0 && m.delayVariance == 100.0
  {
    var delays := [10.0, 30.0];
    assert SampleDelays([Sample(1, 10.0), Sample(3, 30.0)]) == delays;
    OneMoreTotal([], 10.0);
    OneMoreTotal([10.0], 30.0);
    assert [] + [10.0] == [10.0] && [10.0] + [30.0] == delays;
    assert Squares(delays, 20.0) == [100.0, 100.0];
    OneMoreTotal([], 100.0);
    OneMoreTotal([100.0], 100.0);
    assert [] + [100.0] == [100.0] && [100.0] + [100.0] == [100.0, 100.0];
  }

  // ---------------------------------------------------------------------------------------
  // A constant offset between the clocks
  // ---------------------------------------------------------------------------------------

  function MovedSamples(samples: seq<Sample>, c: real): seq<Sample> {
    seq(|samples|, i requires 0 <= i < |samples| => samples[i].(delay := samples[i].delay - c))
  }

  lemma {:induction false} TotalMoves(s: seq<real>, c: real)
    ensures Total(Moved(s, c)) == Total(s) - c * |s| as real
  {
    if s != [] {
      var n := (|s| - 1) as real;
      TotalMoves(s[1..], c);
      assert Moved(s, c)[1..] == Moved(s[1..], c);
      assert c * (n + 1.0) == c * n + c;
    }
  }

  lemma AverageMoves(s: seq<real>, c: real)
    requires s != []
    ensures Average(Moved(s, c)) == Average(s) - c
  {
    TotalMoves(s, c);
    LowerQuotient(Total(s), |s| as real, c);
  }

  lemma LowerQuotient(x: real, n: real, c: real)
    requires n > 0.0
    ensures (x - c * n) / n == x / n - c
  {
    var q := x / n;
    assert (q - c) * n == x - c * n;
    Quotient(q - c, n);
  }

  lemma SquaresStay(s: seq<real>, center: real, c: real)
    ensures Squares(Moved(s, c), center - c) == Squares(s, center)
  {
    forall i | 0 <= i < |s| ensures Square(Moved(s, c)[i] - (center - c)) == Square(s[i] - center) {
      assert Moved(s, c)[i] - (center - c) == s[i] - center;
    }
  }

  lemma VarianceStays(s: seq<real>, c: real)
    requires s != []
    ensures Variance(Moved(s, c)) == Variance(s)
  {
    AverageMoves(s, c);
    SquaresStay(s, Average(s), c);
  }

  /** Moving the sender's clock moves the average delay along and nothing else in any window. */
  lemma SkewMovesOnlyTheAverage(samples: seq<Sample>, bulk: seq<Bulk>, window: nat, c: real)
    requires window > 0 && samples != []
    ensures var m := DirectionOf(samples, bulk, window);
            DirectionOf(MovedSamples(samples, c), bulk, window) == m.(delayAvg := m.delayAvg - c)
  {
    assert SampleSeqNos(MovedSamples(samples, c)) == SampleSeqNos(samples);
    assert SampleDelays(MovedSamples(samples, c)) == Moved(SampleDelays(samples), c);
    AverageMoves(SampleDelays(samples), c);
    VarianceStays(SampleDelays(samples), c);
  }
}
