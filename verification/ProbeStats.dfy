/**
 Statistics over a window of received measurement probes: percentiles of delay deviation and jitter,
 loss and reordering. Client and server compute them the same way. Arithmetic is over exact reals.
 */
module ProbeStats {
  import opened Bytes
  import opened Windows

  const FEEDBACK_WINDOW_MS := 1000

  /** `sentAtMs` is read off the sender's clock; it may be ahead of the receiver's. */
  datatype ReceivedProbe = ReceivedProbe(seqNo: u64, sentAtMs: int, receivedAtMs: nat)

  datatype Percentiles = Percentiles(p50: real, p99: real, min: real, max: real)

  datatype DirectionStats = DirectionStats(
    delayDeviation: Percentiles, jitter: Percentiles, lossRate: real, reorderRate: real,
    probeCount: nat, baseline: real)

  const ZERO_PERCENTILES := Percentiles(0.0, 0.0, 0.0, 0.0)

  const NO_STATS := DirectionStats(ZERO_PERCENTILES, ZERO_PERCENTILES, 0.0, 0.0, 0, 0.0)

  function Delay(p: ReceivedProbe): real {
    (p.receivedAtMs - p.sentAtMs) as real
  }

  function Abs(x: real): real {
    if x < 0.0 then -x else x
  }

  function SeqNos(probes: seq<ReceivedProbe>): seq<u64> {
    seq(|probes|, i requires 0 <= i < |probes| => probes[i].seqNo)
  }

  function Deviations(probes: seq<ReceivedProbe>, baseline: real): seq<real> {
    seq(|probes|, i requires 0 <= i < |probes| => Delay(probes[i]) - baseline)
  }

  /** How much the delay changes after probe `i`. */
  function JitterAfter(probes: seq<ReceivedProbe>, i: nat): real
    requires i + 1 < |probes|
  {
    Abs(Delay(probes[i + 1]) - Delay(probes[i]))
  }

  /** Differences between consecutive delays. */
  function Jitters(probes: seq<ReceivedProbe>): seq<real> {
    if |probes| < 2 then [] else seq(|probes| - 1, i requires 0 <= i < |probes| - 1 => JitterAfter(probes, i))
  }

  // ---------------------------------------------------------------------------------------
  // Sorting and percentiles
  // ---------------------------------------------------------------------------------------

  function Insert(x: real, s: seq<real>): seq<real> {
    if s == [] || x <= s[0] then [x] + s else [s[0]] + Insert(x, s[1..])
  }

  function Sort(s: seq<real>): seq<real> {
    if s == [] then [] else Insert(s[0], Sort(s[1..]))
  }

  ghost predicate Ascending(s: seq<real>) {
    forall i, j | 0 <= i <= j < |s| :: s[i] <= s[j]
  }

  function CountIf(s: seq<real>, p: real -> bool): nat {
    if s == [] then 0 else (if p(s[0]) then 1 else 0) + CountIf(s[1..], p)
  }

  lemma {:induction false} InsertCounts(x: real, s: seq<real>, p: real -> bool)
    ensures |Insert(x, s)| == |s| + 1
    ensures CountIf(Insert(x, s), p) == CountIf(s, p) + if p(x) then 1 else 0
  {
    var r := Insert(x, s);
    if s == [] || x <= s[0] {
      assert r[1..] == s;
    } else {
      InsertCounts(x, s[1..], p);
      assert r[1..] == Insert(x, s[1..]);
    }
  }

  lemma {:induction false} InsertAscending(x: real, s: seq<real>)
    requires Ascending(s)
    ensures Ascending(Insert(x, s))
    ensures forall y | y in Insert(x, s) :: y == x || y in s
  {
    if s != [] && x > s[0] {
      var rest := Insert(x, s[1..]);
      InsertAscending(x, s[1..]);
      forall j | 0 <= j < |rest| ensures s[0] <= rest[j] {
        assert rest[j] in rest;
        if rest[j] != x {
          assert rest[j] in s[1..];
        }
      }
      AscendingCons(s[0], rest);
    }
  }

  lemma AscendingCons(x: real, s: seq<real>)
    requires Ascending(s) && forall j | 0 <= j < |s| :: x <= s[j]
    ensures Ascending([x] + s)
  {
  }

  /** Sorting rearranges: it orders the values and keeps how many satisfy any test. */
  lemma {:induction false} SortSorts(s: seq<real>, p: real -> bool)
    ensures |Sort(s)| == |s| && Ascending(Sort(s))
    ensures CountIf(Sort(s), p) == CountIf(s, p)
  {
    if s != [] {
      SortSorts(s[1..], p);
      InsertCounts(s[0], Sort(s[1..]), p);
      InsertAscending(s[0], Sort(s[1..]));
    }
  }

  function PercentilesOf(s: seq<real>): Percentiles {
    if s == [] then ZERO_PERCENTILES else
    SortSorts(s, _ => true);
    var t := Sort(s);
    var n := |t|;
    Percentiles(t[n / 2], t[n * 99 / 100], t[0], t[n - 1])
  }

  function AtMost(v: real): real -> bool {
    (x: real) => x <= v
  }

  function AtLeast(v: real): real -> bool {
    (x: real) => x >= v
  }

  lemma {:induction false} CountConcat(a: seq<real>, b: seq<real>, p: real -> bool)
    ensures CountIf(a + b, p) == CountIf(a, p) + CountIf(b, p)
  {
    if a == [] {
      assert a + b == b;
    } else {
      CountConcat(a[1..], b, p);
      assert (a + b)[1..] == a[1..] + b;
    }
  }

  lemma {:induction false} CountAll(s: seq<real>, p: real -> bool)
    requires forall i | 0 <= i < |s| :: p(s[i])
    ensures CountIf(s, p) == |s|
  {
    if s != [] {
      CountAll(s[1..], p);
    }
  }

  lemma AtMostInAscending(t: seq<real>, k: nat)
    requires Ascending(t) && k < |t|
    ensures CountIf(t, AtMost(t[k])) >= k + 1
  {
    CountAll(t[..k + 1], AtMost(t[k]));
    CountConcat(t[..k + 1], t[k + 1..], AtMost(t[k]));
    assert t == t[..k + 1] + t[k + 1..];
  }

  lemma AtLeastInAscending(t: seq<real>, k: nat)
    requires Ascending(t) && k < |t|
    ensures CountIf(t, AtLeast(t[k])) >= |t| - k
  {
    CountAll(t[k..], AtLeast(t[k]));
    CountConcat(t[..k], t[k..], AtLeast(t[k]));
    assert t == t[..k] + t[k..];
  }

  /** The value at position `k` of the sorted window splits the window by rank. */
  lemma RankOfSorted(s: seq<real>, k: nat)
    requires k < |s|
    ensures |Sort(s)| == |s|
    ensures CountIf(s, AtMost(Sort(s)[k])) >= k + 1
    ensures CountIf(s, AtLeast(Sort(s)[k])) >= |s| - k
  {
    SortSorts(s, _ => true);
    var v := Sort(s)[k];
    SortSorts(s, AtMost(v));
    SortSorts(s, AtLeast(v));
    AtMostInAscending(Sort(s), k);
    AtLeastInAscending(Sort(s), k);
  }

  /**
   Percentiles of a window: in order, bounding it, and with their rank in it, where at least n/2 + 1
   values are at most p50 and at least n - n/2 are at least p50, and likewise p99 with 99n/100. All are
   zero for an empty window.
   */
  ghost predicate RanksIn(q: Percentiles, s: seq<real>) {
    var n := |s|;
    if s == [] then q == Percentiles(0.0, 0.0, 0.0, 0.0) else
    && q.min <= q.p50 <= q.p99 <= q.max
    && q.min in s && q.p50 in s && q.p99 in s && q.max in s
    && CountIf(s, AtLeast(q.min)) == n && CountIf(s, AtMost(q.max)) == n
    && CountIf(s, AtMost(q.p50)) >= n / 2 + 1 && CountIf(s, AtLeast(q.p50)) >= n - n / 2
    && CountIf(s, AtMost(q.p99)) >= n * 99 / 100 + 1 && CountIf(s, AtLeast(q.p99)) >= n - n * 99 / 100
  }

  lemma {:induction false} CountPositive(s: seq<real>, x: real)
    ensures CountIf(s, y => y == x) > 0 <==> x in s
  {
    if s != [] {
      CountPositive(s[1..], x);
      assert s == [s[0]] + s[1..];
    }
  }

  lemma SortedIsTaken(s: seq<real>, k: nat)
    requires k < |s|
    ensures |Sort(s)| == |s| && Sort(s)[k] in s
  {
    SortSorts(s, _ => true);
    var x := Sort(s)[k];
    SortSorts(s, y => y == x);
    CountPositive(Sort(s), x);
    CountPositive(s, x);
  }

  lemma PercentilesAreRanks(s: seq<real>)
    ensures RanksIn(PercentilesOf(s), s)
  {
    if s != [] {
      var n := |s|;
      var t := Sort(s);
      SortSorts(s, _ => true);
      RankOfSorted(s, n / 2);
      RankOfSorted(s, n * 99 / 100);
      SortSorts(s, AtLeast(t[0]));
      CountAll(t, AtLeast(t[0]));
      SortSorts(s, AtMost(t[n - 1]));
      CountAll(t, AtMost(t[n - 1]));
      SortedIsTaken(s, 0);
      SortedIsTaken(s, n / 2);
      SortedIsTaken(s, n * 99 / 100);
      SortedIsTaken(s, n - 1);
    }
  }

  // ---------------------------------------------------------------------------------------
  // Loss
  // ---------------------------------------------------------------------------------------

  function Min(s: seq<u64>): u64
    requires s != []
  {
    if |s| == 1 || s[0] <= Min(s[1..]) then s[0] else Min(s[1..])
  }

  function Max(s: seq<u64>): u64
    requires s != []
  {
    if |s| == 1 || s[0] >= Max(s[1..]) then s[0] else Max(s[1..])
  }

  lemma {:induction false} MinMaxBound(s: seq<u64>, x: u64)
    requires s != [] && x in s
    ensures Min(s) <= x <= Max(s)
  {
    if |s| > 1 && x != s[0] {
      assert x in s[1..];
      MinMaxBound(s[1..], x);
    } else if |s| > 1 {
      MinMaxBound(s[1..], s[1]);
    }
  }

  /** How many numbers lie between the lowest and the highest received one, both included. */
  function Spread(s: seq<u64>): nat
    requires s != []
  {
    MinMaxBound(s, s[0]);
    Max(s) - Min(s) + 1
  }

  /** `max_seq - min_seq + 1` in 64 bits. */
  function Expected(s: seq<u64>): nat
    requires s != []
  {
    Spread(s) % U64_RANGE
  }

  function LossRate(s: seq<u64>): real
    requires s != []
  {
    var rate := Share(Expected(s) - |s|, Expected(s));
    if rate < 0.0 then 0.0 else rate
  }

  /** Numbers between the lowest and the highest received one that were not received. */
  ghost function Missing(s: seq<u64>): set<int>
    requires s != []
  {
    Range(Min(s), Max(s) + 1) - Received(s)
  }

  ghost function Received(s: seq<u64>): set<int> {
    set i | 0 <= i < |s| :: s[i] as int
  }

  ghost function Range(lo: int, hi: int): set<int>
    requires lo <= hi
    decreases hi - lo
  {
    if lo == hi then {} else {lo} + Range(lo + 1, hi)
  }

  lemma {:induction false} RangeSize(lo: int, hi: int)
    requires lo <= hi
    ensures |Range(lo, hi)| == hi - lo
    ensures forall x :: x in Range(lo, hi) <==> lo <= x < hi
    decreases hi - lo
  {
    if lo < hi {
      RangeSize(lo + 1, hi);
    }
  }

  ghost predicate Distinct(s: seq<u64>) {
    forall i, j | 0 <= i < j < |s| :: s[i] != s[j]
  }

  lemma {:induction false} ReceivedSize(s: seq<u64>)
    ensures |Received(s)| <= |s|
    ensures |Received(s)| == |s| <==> Distinct(s)
  {
    if s != [] {
      var rest := s[1..];
      ReceivedSize(rest);
      assert Received(s) == {s[0] as int} + Received(rest) by {
        forall i | 0 <= i < |s| ensures s[i] as int in {s[0] as int} + Received(rest) {
          if i > 0 {
            assert s[i] == rest[i - 1];
          }
        }
        forall i | 0 <= i < |rest| ensures rest[i] as int in Received(s) {
          assert rest[i] == s[i + 1];
        }
      }
      DistinctCons(s);
    }
  }

  lemma DistinctCons(s: seq<u64>)
    requires s != []
    ensures Distinct(s) <==> Distinct(s[1..]) && s[0] as int !in Received(s[1..])
  {
    var rest := s[1..];
    assert forall i | 0 < i < |s| :: s[i] == rest[i - 1];
    if Distinct(rest) && s[0] as int !in Received(rest) {
      forall i, j | 0 <= i < j < |s| ensures s[i] != s[j] {
        assert s[j] == rest[j - 1];
        assert rest[j - 1] as int in Received(rest);
      }
    }
    if Distinct(s) {
      forall i, j | 0 <= i < j < |rest| ensures rest[i] != rest[j] {
        assert rest[i] == s[i + 1] && rest[j] == s[j + 1];
      }
    }
  }

  /** Everything received lies in the range, so received and missing numbers make up the range. */
  lemma MissingSize(s: seq<u64>)
    requires s != []
    ensures Min(s) <= Max(s)
    ensures |Missing(s)| == Max(s) - Min(s) + 1 - |Received(s)|
  {
    MinMaxBound(s, s[0]);
    var range := Range(Min(s), Max(s) + 1);
    RangeSize(Min(s), Max(s) + 1);
    forall i | 0 <= i < |s| ensures s[i] as int in range {
      MinMaxBound(s, s[i]);
    }
    assert range == Missing(s) + Received(s);
  }

  /**
   The reported loss is the share of missing numbers exactly when no number arrived twice and the
   spread fits 64 bits, or none is missing. With duplicates and gaps it is too low; over the full
   range of 2^64 numbers the sum wraps to zero and no loss is reported.
   */
  lemma LossIsShareOfMissing(s: seq<u64>)
    requires s != []
    ensures LossRate(s) == Share(|Missing(s)|, Spread(s)) <==> (Distinct(s) && Spread(s) < U64_RANGE) || Missing(s) == {}
    ensures Distinct(s) ==> |s| <= Spread(s)
  {
    MissingCounts(s);
    if Spread(s) < U64_RANGE {
      LossIsClampedShare(s);
      ClampedShare(Spread(s), |s|, |Missing(s)|);
    } else {
      FullSpread(s);
      ShareOrder(0, |Missing(s)|, Spread(s));
    }
  }

  lemma LossIsClampedShare(s: seq<u64>)
    requires s != [] && Spread(s) < U64_RANGE
    ensures var rate := Share(Spread(s) - |s|, Spread(s));
            LossRate(s) == if rate < 0.0 then 0.0 else rate
  {
  }

  lemma FullSpread(s: seq<u64>)
    requires s != [] && Spread(s) >= U64_RANGE
    ensures Expected(s) == 0 && LossRate(s) == 0.0
  {
  }

  /** The lowest and the highest number there are, both received: all between them are missing, and no loss is reported. */
  lemma FullRangeHidesLoss()
    ensures var s: seq<u64> := [0, 0xFFFF_FFFF_FFFF_FFFF];
            Distinct(s) && LossRate(s) == 0.0 && 5 in Missing(s)
  {
    var s: seq<u64> := [0, 0xFFFF_FFFF_FFFF_FFFF];
    assert s[1..] == [0xFFFF_FFFF_FFFF_FFFF];
    assert Min(s[1..]) == Max(s[1..]) == 0xFFFF_FFFF_FFFF_FFFF;
    assert Min(s) == 0 && Max(s) == 0xFFFF_FFFF_FFFF_FFFF;
    RangeSize(0, 0x1_0000_0000_0000_0000);
    FullSpread(s);
    forall i | 0 <= i < |s| ensures s[i] as int != 5 {
    }
  }

  lemma MissingCounts(s: seq<u64>)
    requires s != []
    ensures Spread(s) - |s| <= |Missing(s)|
    ensures Distinct(s) <==> |Missing(s)| == Spread(s) - |s|
  {
    MissingSize(s);
    ReceivedSize(s);
  }

  /** A part of a whole, in percent. */
  function Share(part: int, whole: nat): real {
    if whole == 0 then 0.0 else part as real / whole as real * 100.0
  }

  lemma ShareOrder(a: int, b: int, whole: nat)
    requires whole > 0
    ensures Share(a, whole) < Share(b, whole) <==> a < b
    ensures Share(0, whole) == 0.0 && Share(whole, whole) == 100.0
  {
    var w := whole as real;
    QuotientOrder(a as real, b as real, w);
    QuotientEnds(w);
  }

  lemma QuotientOrder(a: real, b: real, w: real)
    requires w > 0.0
    ensures a / w < b / w <==> a < b
  {
    var x, y := a / w, b / w;
    assert x * w == a && y * w == b;
    if a < b {
      Cancel(x, y, w);
    }
  }

  lemma QuotientEnds(w: real)
    requires w > 0.0
    ensures 0.0 / w == 0.0 && w / w == 1.0
  {
  }

  lemma Cancel(x: real, y: real, w: real)
    requires w > 0.0 && x * w < y * w
    ensures x < y
  {
  }

  lemma ClampedShare(e: nat, n: nat, m: nat)
    requires e > 0 && e - n <= m
    ensures var rate := Share(e - n, e);
            (if rate < 0.0 then 0.0 else rate) == Share(m, e) <==> m == e - n || m == 0
  {
    ShareOrder(e - n, 0, e);
    ShareOrder(e - n, m, e);
    ShareOrder(0, m, e);
  }

  lemma LossBounds(s: seq<u64>)
    requires s != []
    ensures 0.0 <= LossRate(s) < 100.0
  {
    var e, n := Expected(s), |s|;
    if e > 0 {
      ShareOrder(e - n, 0, e);
      ShareOrder(e - n, e, e);
    }
  }

  // ---------------------------------------------------------------------------------------
  // Reordering
  // ---------------------------------------------------------------------------------------

  /** Position `i` holds a number that comes after a larger one. */
  predicate Late(s: seq<u64>, i: nat)
    requires i < |s|
  {
    exists j | 0 <= j < i :: s[j] > s[i]
  }

  function LateCount(s: seq<u64>, n: nat): nat
    requires n <= |s|
  {
    if n == 0 then 0 else LateCount(s, n - 1) + if Late(s, n - 1) then 1 else 0
  }

  /** The running-maximum loop counts exactly the positions that come after a larger number. */
  method CountReorders(s: seq<u64>) returns (reorders: nat)
    ensures reorders == LateCount(s, |s|)
  {
    reorders := 0;
    var maxSeen: u64 := 0;
    for i := 0 to |s|
      invariant reorders == LateCount(s, i)
      invariant forall j | 0 <= j < i :: s[j] <= maxSeen
      invariant maxSeen == 0 || exists j | 0 <= j < i :: s[j] == maxSeen
    {
      if s[i] < maxSeen {
        reorders := reorders + 1;
      }
      maxSeen := if maxSeen >= s[i] then maxSeen else s[i];
    }
  }

  function ReorderRate(s: seq<u64>): real
    requires s != []
  {
    Share(LateCount(s, |s|), |s|)
  }

  lemma {:induction false} LateCountBounds(s: seq<u64>, n: nat)
    requires n <= |s|
    ensures n > 0 ==> LateCount(s, n) < n
    ensures LateCount(s, n) == 0 <==> forall i | 0 <= i < n :: !Late(s, i)
  {
    if n > 0 {
      LateCountBounds(s, n - 1);
    }
  }

  ghost function LatePositions(s: seq<u64>, n: nat): set<nat>
    requires n <= |s|
  {
    set i: nat | i < n && Late(s, i)
  }

  lemma {:induction false} LateCountIsSize(s: seq<u64>, n: nat)
    requires n <= |s|
    ensures LateCount(s, n) == |LatePositions(s, n)|
  {
    if n > 0 {
      LateCountIsSize(s, n - 1);
      assert LatePositions(s, n) == LatePositions(s, n - 1) + if Late(s, n - 1) then {n - 1} else {};
    } else {
      assert LatePositions(s, n) == {};
    }
  }

  /** The rate stays below 100 and is zero exactly when numbers arrive in nondecreasing order. */
  lemma ReorderBounds(s: seq<u64>)
    requires s != []
    ensures 0.0 <= ReorderRate(s) < 100.0
    ensures ReorderRate(s) == 0.0 <==> forall i, j | 0 <= i < j < |s| :: s[i] <= s[j]
  {
    LateCountBounds(s, |s|);
    ShareOrder(LateCount(s, |s|), |s|, |s|);
    ShareOrder(0, LateCount(s, |s|), |s|);
    if forall i | 0 <= i < |s| :: !Late(s, i) {
      forall i, j | 0 <= i < j < |s| ensures s[i] <= s[j] {
        assert !Late(s, j);
      }
    }
  }

  // ---------------------------------------------------------------------------------------
  // The whole calculation
  // ---------------------------------------------------------------------------------------

  /** A rate, in percent, of a part of a whole. */
  predicate IsShare(rate: real, part: nat, whole: nat) {
    rate * whole as real == 100.0 * part as real
  }

  /** What a loss rate says about the numbers it was computed from. */
  ghost predicate LossLaw(rate: real, s: seq<u64>)
    requires s != []
  {
    && 0.0 <= rate < 100.0
    && (IsShare(rate, |Missing(s)|, Spread(s))
        <==> (Distinct(s) && Spread(s) < 0x1_0000_0000_0000_0000) || Missing(s) == {})
  }

  /** What a reorder rate says: the share of numbers that come after a larger one. */
  ghost predicate ReorderLaw(rate: real, s: seq<u64>)
    requires s != []
  {
    && IsShare(rate, |LatePositions(s, |s|)|, |s|)
    && (rate == 0.0 <==> forall i, j | 0 <= i < j < |s| :: s[i] <= s[j])
  }

  lemma ShareTimesWhole(part: int, whole: nat)
    requires whole > 0
    ensures Share(part, whole) * whole as real == 100.0 * part as real
  {
    var w := whole as real;
    var q := part as real / w;
    assert q * w == part as real;
    assert q * 100.0 * w == 100.0 * (q * w);
  }

  lemma ScaledEqual(x: real, y: real, w: real)
    requires w > 0.0
    ensures x * w == y * w <==> x == y
  {
    if x != y {
      assert (x - y) * w != 0.0;
    }
  }

  lemma LossObeysLaw(s: seq<u64>)
    requires s != []
    ensures LossLaw(LossRate(s), s)
  {
    LossBounds(s);
    LossIsShareOfMissing(s);
    LossLawFrom(LossRate(s), s);
  }

  lemma LossLawFrom(rate: real, s: seq<u64>)
    requires s != [] && 0.0 <= rate < 100.0
    requires rate == Share(|Missing(s)|, Spread(s)) <==> (Distinct(s) && Spread(s) < U64_RANGE) || Missing(s) == {}
    ensures LossLaw(rate, s)
  {
    EqualsShare(rate, |Missing(s)|, Spread(s));
  }

  lemma EqualsShare(rate: real, part: nat, whole: nat)
    requires whole > 0
    ensures rate == Share(part, whole) <==> IsShare(rate, part, whole)
  {
    ShareTimesWhole(part, whole);
    ScaledEqual(rate, Share(part, whole), whole as real);
  }

  lemma ReorderObeysLaw(s: seq<u64>)
    requires s != []
    ensures ReorderLaw(ReorderRate(s), s)
  {
    ReorderBounds(s);
    LateCountIsSize(s, |s|);
    ShareTimesWhole(LateCount(s, |s|), |s|);
  }

  /**
   What a report on the probes `recent` says, field by field: their number, the loss among their
   numbers, the share that came late, and the ranks of the differences between consecutive delays and
   of the distances from the baseline.
   */
  ghost predicate Describes(stats: DirectionStats, recent: seq<ReceivedProbe>, baseline: real) {
    && stats.probeCount == |recent|
    && (recent == [] ==> stats.lossRate == stats.reorderRate == stats.baseline == 0.0)
    && (recent != [] ==>
          && stats.baseline == baseline
          && LossLaw(stats.lossRate, SeqNos(recent)) && ReorderLaw(stats.reorderRate, SeqNos(recent)))
    && RanksIn(stats.jitter, Jitters(recent))
    && RanksIn(stats.delayDeviation, Deviations(recent, baseline))
  }

  /** A distance from the baseline is a time of arrival less a time of sending, less the baseline. */
  lemma DeviationAt(probes: seq<ReceivedProbe>, baseline: real, i: nat)
    requires i < |probes|
    ensures |Deviations(probes, baseline)| == |SeqNos(probes)| == |probes|
    ensures Deviations(probes, baseline)[i] + baseline == (probes[i].receivedAtMs - probes[i].sentAtMs) as real
    ensures SeqNos(probes)[i] == probes[i].seqNo
  {
  }

  /** A difference between neighbours is how much longer one took than the other. */
  lemma JitterAt(probes: seq<ReceivedProbe>, i: nat)
    requires i + 1 < |probes|
    ensures |Jitters(probes)| == |probes| - 1
    ensures var longer := (probes[i + 1].receivedAtMs - probes[i].receivedAtMs) - (probes[i + 1].sentAtMs - probes[i].sentAtMs);
            Jitters(probes)[i] == (if longer < 0 then -longer else longer) as real
  {
  }

  function StatsOf(recent: seq<ReceivedProbe>, baseline: real): DirectionStats {
    if recent == [] then NO_STATS else
    DirectionStats(PercentilesOf(Deviations(recent, baseline)), PercentilesOf(Jitters(recent)),
                   LossRate(SeqNos(recent)), ReorderRate(SeqNos(recent)), |recent|, baseline)
  }

  function ReceivedAt(p: ReceivedProbe): nat {
    p.receivedAtMs
  }

  /** The probes of the last second, as both the statistics and the feedback see them. */
  function Recent(received: seq<ReceivedProbe>, now: nat): seq<ReceivedProbe> {
    Filter(received, Fresh(ReceivedAt, Cutoff(now, FEEDBACK_WINDOW_MS)))
  }

  /** One probe more is among them exactly if it came no more than a second before `now`. */
  lemma OneMoreRecent(received: seq<ReceivedProbe>, p: ReceivedProbe, now: nat)
    ensures Recent([], now) == []
    ensures Recent(received + [p], now) == Recent(received, now) + if p.receivedAtMs + 1000 >= now then [p] else []
  {
    var keep := Fresh(ReceivedAt, Cutoff(now, FEEDBACK_WINDOW_MS));
    FilterConcat(received, [p], keep);
    assert keep(p) <==> p.receivedAtMs + 1000 >= now;
    assert [p][1..] == [] && Filter([p], keep) == if keep(p) then [p] else [];
  }

  lemma StatsDescribe(recent: seq<ReceivedProbe>, baseline: real)
    ensures Describes(StatsOf(recent, baseline), recent, baseline)
  {
    PercentilesAreRanks(Jitters(recent));
    PercentilesAreRanks(Deviations(recent, baseline));
    if recent != [] {
      LossObeysLaw(SeqNos(recent));
      ReorderObeysLaw(SeqNos(recent));
    }
  }

  /** The loop that remembers the previous delay. */
  method CollectJitters(probes: seq<ReceivedProbe>) returns (jitters: seq<real>)
    ensures jitters == Jitters(probes)
  {
    jitters := [];
    var prev: Option<real> := None;
    for i := 0 to |probes|
      invariant prev == if i == 0 then None else Some(Delay(probes[i - 1]))
      invariant |jitters| == if i == 0 then 0 else i - 1
      invariant forall k | 0 <= k < |jitters| :: jitters[k] == JitterAfter(probes, k)
    {
      var delay := Delay(probes[i]);
      if prev.Some? {
        jitters := jitters + [Abs(delay - prev.value)];
      }
      prev := Some(delay);
    }
  }

  method CalculateStats(received: seq<ReceivedProbe>, baseline: real, now: nat) returns (stats: DirectionStats)
    ensures Describes(stats, Recent(received, now), baseline)
    ensures stats == StatsOf(Recent(received, now), baseline)
  {
    StatsDescribe(Recent(received, now), baseline);
    var recent := Recent(received, now);
    if recent == [] {
      return NO_STATS;
    }
    var deviation := PercentilesOf(Deviations(recent, baseline));
    var jitters := CollectJitters(recent);
    var seqNos := SeqNos(recent);
    var reorders := CountReorders(seqNos);
    stats := DirectionStats(deviation, PercentilesOf(jitters), LossRate(seqNos),
                            Share(reorders, |recent|), |recent|, baseline);
  }
}
