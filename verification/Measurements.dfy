/**
 The measurement state of one session, as the probe senders, the packet handlers and the control
 messages update it. Ghost fields record what has happened; `Valid` says what the real fields are in
 terms of that record, so that the results about ledgers, windows and baselines apply to them.
 */
module Measurements {
  import opened Bytes
  import opened Windows
  import opened ProbeLedger
  import opened ProbeStats
  import opened ClockSkew
  import opened Metrics

  const STATS_WINDOW_MS := 2000

  datatype EchoedProbe = EchoedProbe(seqNo: u64, sentAtMs: nat, echoedAtMs: nat)

  datatype Feedback = Feedback(highestSeq: u64, highestSeqReceivedAtMs: nat, recentCount: nat, recentReorders: nat)

  const NO_FEEDBACK := Feedback(0, 0, 0, 0)

  datatype Direction = ClientToServer | ServerToClient

  datatype ProbePacket = ProbePacket(seqNo: u64, timestampMs: nat, direction: Direction, connId: string)

  function EchoedAt(p: EchoedProbe): nat {
    p.echoedAtMs
  }

  function EchoSample(p: EchoedProbe): Sample {
    Sample(p.seqNo, (p.echoedAtMs - p.sentAtMs) as real)
  }

  /** The server's probes: the client's stamps on the echoes less times of sending. */
  lemma EchoDelaysAddUp(probes: seq<EchoedProbe>)
    ensures Total(SampleDelays(Samples(probes, EchoSample)))
         == (SumOf(probes, (p: EchoedProbe) => p.echoedAtMs) - SumOf(probes, (p: EchoedProbe) => p.sentAtMs)) as real
  {
    DelaysAddUp(probes, EchoSample, (p: EchoedProbe) => p.echoedAtMs, (p: EchoedProbe) => p.sentAtMs);
  }

  /** What the feedback says of the probes in `history`: the highest number, and over the last second how many came and how many late. */
  ghost predicate SumsUp(f: Feedback, history: seq<ReceivedProbe>, now: nat) {
    var recent := Recent(history, now);
    && Tops(f.highestSeq, ProbeStats.SeqNos(history)) && f.highestSeqReceivedAtMs == now
    && f.recentCount == |recent|
    && f.recentReorders == |LatePositions(ProbeStats.SeqNos(recent), |recent|)|
  }

  /** The highest of the numbers; zero before the first. */
  ghost predicate Tops(highest: u64, seqNos: seq<u64>) {
    && (forall i | 0 <= i < |seqNos| :: seqNos[i] <= highest)
    && if seqNos == [] then highest == 0 else highest in seqNos
  }

  function Highest(f: Feedback, probe: ReceivedProbe): u64 {
    if f.highestSeq >= probe.seqNo then f.highestSeq else probe.seqNo
  }

  lemma TopsMore(f: Feedback, history: seq<ReceivedProbe>, probe: ReceivedProbe)
    requires Tops(f.highestSeq, ProbeStats.SeqNos(history))
    ensures Tops(Highest(f, probe), ProbeStats.SeqNos(history + [probe]))
  {
    var seqNos, more := ProbeStats.SeqNos(history), ProbeStats.SeqNos(history + [probe]);
    assert more == seqNos + [probe.seqNo];
    assert more[|seqNos|] == probe.seqNo;
  }

  /** Whether the streams have been running for as long as the magic key allows. */
  predicate TimeIsUp(startedAt: Option<nat>, limit: Option<nat>, now: nat) {
    startedAt.Some? && limit.Some? && now - startedAt.value >= limit.value
  }

  /** Records a measurement probe and recounts the feedback over the last second. */
  method Record(measured: seq<ReceivedProbe>, feedback: Feedback, probe: ReceivedProbe)
    returns (kept: seq<ReceivedProbe>, f: Feedback)
    ensures kept == Pruned(measured + [probe], ReceivedAt, Cutoff(probe.receivedAtMs, 2000))
    ensures f.highestSeq == Highest(feedback, probe) && f.highestSeqReceivedAtMs == probe.receivedAtMs
    ensures var recent := Recent(kept, probe.receivedAtMs);
            f.recentCount == |recent| && f.recentReorders == |LatePositions(ProbeStats.SeqNos(recent), |recent|)|
  {
    var now := probe.receivedAtMs;
    kept := PruneFront(measured + [probe], ReceivedAt, Cutoff(now, STATS_WINDOW_MS));
    var recent := Recent(kept, now);
    var reorders := CountReorders(ProbeStats.SeqNos(recent));
    LateCountIsSize(ProbeStats.SeqNos(recent), |recent|);
    f := Feedback(Highest(feedback, probe), now, |recent|, reorders);
  }

  class MeasurementState {
    const connId: string
    var probes: Ledger
    var testProbes: Ledger
    var echoedProbes: seq<EchoedProbe>
    var receivedProbes: seq<ReceivedProbe>
    var receivedBulk: seq<Bulk>
    var sentBulk: seq<Bulk>
    var metrics: ClientMetrics
    var trafficActive: bool
    var stopTraceroute: bool
    var probeStreamsActive: bool
    var probeStreamsStartedAt: Option<nat>
    var maxMeasuringDuration: Option<nat>
    var measurementProbeSeq: nat
    var measured: seq<ReceivedProbe>
    var baseline: Baseline
    var lastFeedback: Feedback
    var probeStats: seq<DirectionStats>
    var clientReportedS2c: Option<DirectionStats>

    ghost var probeOps: seq<LedgerOp>
    ghost var testOps: seq<LedgerOp>
    ghost var echoOps: seq<Op<EchoedProbe>>
    ghost var receiveOps: seq<Op<ReceivedProbe>>
    ghost var receivedBulkOps: seq<Op<Bulk>>
    ghost var sentBulkOps: seq<Op<Bulk>>
    ghost var streamOps: seq<Op<ReceivedProbe>>
    ghost var clientReports: seq<DirectionStats>  // by the client, since the streams were started

    /**
     Kept by every method: each requires and ensures the parts whose fields it may modify, and may
     modify no field of the others.
     */
    ghost predicate Valid()
      reads this
    {
      TrafficValid() && StreamValid() && ReportsValid()
    }

    ghost predicate TrafficValid()
      reads this`probes, this`probeOps, this`testProbes, this`testOps,
            this`echoedProbes, this`echoOps, this`receivedProbes, this`receiveOps,
            this`receivedBulk, this`receivedBulkOps, this`sentBulk, this`sentBulkOps
    {
      LedgersValid() && WindowsValid() && BulkValid()
    }

    /** The ledgers are what the sends and clears so far make of them. */
    ghost predicate LedgersValid()
      reads this`probes, this`probeOps, this`testProbes, this`testOps
    {
      probes == Ran(probeOps) && testProbes == Ran(testOps)
    }

    /** The deques are what the arrivals and clears so far make of them. */
    ghost predicate WindowsValid()
      reads this`echoedProbes, this`echoOps, this`receivedProbes, this`receiveOps
    {
      && echoedProbes == Deque(echoOps, EchoedAt, RETENTION_MS)
      && receivedProbes == Deque(receiveOps, ReceivedAt, RETENTION_MS)
    }

    /** Likewise for bulk data. */
    ghost predicate BulkValid()
      reads this`receivedBulk, this`receivedBulkOps, this`sentBulk, this`sentBulkOps
    {
      && receivedBulk == Deque(receivedBulkOps, BulkAt, RETENTION_MS)
      && sentBulk == Deque(sentBulkOps, BulkAt, RETENTION_MS)
    }

    /** Baseline and highest number are those of all probes since the streams were started. */
    ghost predicate StreamValid()
      reads this`measured, this`baseline, this`lastFeedback, this`streamOps
    {
      && measured == Deque(streamOps, ReceivedAt, STATS_WINDOW_MS)
      && baseline == BaselineOf(Delays(History(streamOps)))
      && Tops(lastFeedback.highestSeq, ProbeStats.SeqNos(History(streamOps)))
    }

    /** The client's report is the last one since the streams were started. */
    ghost predicate ReportsValid()
      reads this`clientReportedS2c, this`clientReports
    {
      clientReportedS2c == if clientReports == [] then None else Some(clientReports[|clientReports| - 1])
    }

    constructor (connId: string)
      ensures Valid() && probeOps == [] && testOps == [] && echoOps == [] && receiveOps == [] && streamOps == []
      ensures receivedBulkOps == [] && sentBulkOps == [] && clientReports == [] && metrics == NO_METRICS
      ensures this.connId == connId && !trafficActive && !stopTraceroute && !probeStreamsActive && lastFeedback == Feedback(0, 0, 0, 0)
    {
      this.connId := connId;
      probes, testProbes, echoedProbes, receivedProbes := EMPTY, EMPTY, [], [];
      receivedBulk, sentBulk, metrics := [], [], NO_METRICS;
      trafficActive, stopTraceroute, probeStreamsActive := false, false, false;
      probeStreamsStartedAt, maxMeasuringDuration, measurementProbeSeq := None, None, 0;
      measured, baseline, lastFeedback := [], NO_BASELINE, NO_FEEDBACK;
      probeStats, clientReportedS2c := [], None;
      probeOps, testOps, echoOps, receiveOps, streamOps := [], [], [], [], [];
      receivedBulkOps, sentBulkOps, clientReports := [], [], [];
    }

    /** One turn of the probe sender, under the state lock. */
    method SendProbe(now: nat) returns (seqNo: nat)
      requires LedgersValid() && now >= RETENTION_MS
      modifies this`probes, this`probeOps
      ensures LedgersValid() && probeOps == old(probeOps) + [Send(now)]
      ensures seqNo == old(probes.nextSeq) && probes.nextSeq == seqNo + 1
    {
      probes, seqNo := Issue(probes, now);
      OneMoreLedgerOp(probeOps, Send(now));
      probeOps := probeOps + [Send(now)];
      NextSeqCounts(Pushed(old(probes), now), Cutoff(now, RETENTION_MS));
    }

    /** One TTL of a traceroute or MTU round. */
    method SendTestProbe(now: nat) returns (seqNo: nat)
      requires LedgersValid() && now >= RETENTION_MS
      modifies this`testProbes, this`testOps
      ensures LedgersValid() && testOps == old(testOps) + [Send(now)]
      ensures seqNo == old(testProbes.nextSeq) && testProbes.nextSeq == seqNo + 1
    {
      testProbes, seqNo := Issue(testProbes, now);
      OneMoreLedgerOp(testOps, Send(now));
      testOps := testOps + [Send(now)];
      NextSeqCounts(Pushed(old(testProbes), now), Cutoff(now, RETENTION_MS));
    }

    /** Records a block that has been sent. */
    method SentBulkPacket(bytes: u64, now: nat)
      requires BulkValid() && now >= RETENTION_MS
      modifies this`sentBulk, this`sentBulkOps
      ensures BulkValid() && sentBulkOps == old(sentBulkOps) + [Arrive(Bulk(bytes, now), now)]
    {
      var block := Arrive(Bulk(bytes, now), now);
      sentBulk := PruneFront(sentBulk + [block.item], BulkAt, now - RETENTION_MS);
      OneMoreOp(sentBulkOps, block, BulkAt, RETENTION_MS);
      sentBulkOps := sentBulkOps + [block];
    }

    /** A packet on the bulk channel. */
    method HandleBulkPacket(bytes: u64, now: nat)
      requires BulkValid() && now >= RETENTION_MS
      modifies this`receivedBulk, this`receivedBulkOps
      ensures BulkValid() && receivedBulkOps == old(receivedBulkOps) + [Arrive(Bulk(bytes, now), now)]
    {
      var block := Arrive(Bulk(bytes, now), now);
      receivedBulk := PruneFront(receivedBulk + [block.item], BulkAt, now - RETENTION_MS);
      OneMoreOp(receivedBulkOps, block, BulkAt, RETENTION_MS);
      receivedBulkOps := receivedBulkOps + [block];
    }

    /**
     A packet on the probe channel. An echo of one of the server's probes is recorded exactly when a
     search of the sent probes would find it; a probe of the client's is recorded with the time it
     arrived; a packet of another connection is ignored.
     */
    method HandleProbePacket(probe: ProbePacket, now: nat)
      requires LedgersValid() && WindowsValid() && now >= RETENTION_MS
      modifies this`echoedProbes, this`echoOps, this`receivedProbes, this`receiveOps
      ensures WindowsValid()
      ensures echoOps == if probe.connId != connId || probe.direction.ClientToServer? then old(echoOps) else
                         match Search(probes.sent, probe.seqNo)
                         case None => old(echoOps)
                         case Some(sent) => old(echoOps) + [Arrive(EchoedProbe(probe.seqNo, sent.sentAtMs, probe.timestampMs), now)]
      ensures receiveOps == if probe.connId != connId || probe.direction.ServerToClient? then old(receiveOps) else
                            old(receiveOps) + [Arrive(ReceivedProbe(probe.seqNo, probe.timestampMs, now), now)]
    {
      if probe.connId != connId {
        return;
      }
      if probe.direction == ServerToClient {
        HandleEcho(probe.seqNo, probe.timestampMs, now);
      } else {
        HandleClientProbe(ReceivedProbe(probe.seqNo, probe.timestampMs, now));
      }
    }

    method HandleEcho(seqNo: u64, echoedAtMs: nat, now: nat)
      requires LedgersValid() && WindowsValid() && now >= RETENTION_MS
      modifies this`echoedProbes, this`echoOps
      ensures WindowsValid()
      ensures echoOps == match Search(probes.sent, seqNo)
                         case None => old(echoOps)
                         case Some(sent) => old(echoOps) + [Arrive(EchoedProbe(seqNo, sent.sentAtMs, echoedAtMs), now)]
    {
      LookupIsSearch(probeOps, seqNo);
      if seqNo in probes.bySeq {
        var echoed := EchoedProbe(seqNo, probes.bySeq[seqNo].sentAtMs, echoedAtMs);
        echoedProbes := PruneFront(echoedProbes + [echoed], EchoedAt, now - RETENTION_MS);
        OneMoreOp(echoOps, Arrive(echoed, now), EchoedAt, RETENTION_MS);
        echoOps := echoOps + [Arrive(echoed, now)];
      }
    }

    method HandleClientProbe(probe: ReceivedProbe)
      requires WindowsValid() && probe.receivedAtMs >= RETENTION_MS
      modifies this`receivedProbes, this`receiveOps
      ensures WindowsValid() && receiveOps == old(receiveOps) + [Arrive(probe, probe.receivedAtMs)]
    {
      receivedProbes := PruneFront(receivedProbes + [probe], ReceivedAt, probe.receivedAtMs - RETENTION_MS);
      OneMoreOp(receiveOps, Arrive(probe, probe.receivedAtMs), ReceivedAt, RETENTION_MS);
      receiveOps := receiveOps + [Arrive(probe, probe.receivedAtMs)];
    }

    /** Forgets the traffic measured so far, but not the test probes, and goes on counting. */
    method ClearMeasurements()
      requires LedgersValid()
      modifies this`probes, this`probeOps, this`echoedProbes, this`echoOps, this`receivedProbes, this`receiveOps,
               this`receivedBulk, this`receivedBulkOps, this`sentBulk, this`sentBulkOps
      ensures TrafficValid()
      ensures probes == old(probes).(sent := [], bySeq := map[])
      ensures receivedProbes == [] && echoedProbes == [] && receivedBulk == [] && sentBulk == []
      ensures probeOps == old(probeOps) + [Reset]
      ensures echoOps == old(echoOps) + [Clear] && receiveOps == old(receiveOps) + [Clear]
      ensures receivedBulkOps == old(receivedBulkOps) + [Clear] && sentBulkOps == old(sentBulkOps) + [Clear]
    {
      ClearLedger();
      ClearDeques();
    }

    method ClearDeques()
      modifies this`echoedProbes, this`echoOps, this`receivedProbes, this`receiveOps,
               this`receivedBulk, this`receivedBulkOps, this`sentBulk, this`sentBulkOps
      ensures WindowsValid() && BulkValid()
      ensures receivedProbes == [] && echoedProbes == [] && receivedBulk == [] && sentBulk == []
      ensures echoOps == old(echoOps) + [Clear] && receiveOps == old(receiveOps) + [Clear]
      ensures receivedBulkOps == old(receivedBulkOps) + [Clear] && sentBulkOps == old(sentBulkOps) + [Clear]
    {
      ClearWindows();
      ClearBulk();
    }

    method ClearLedger()
      requires LedgersValid()
      modifies this`probes, this`probeOps
      ensures LedgersValid()
      ensures probes == old(probes).(sent := [], bySeq := map[]) && probeOps == old(probeOps) + [Reset]
    {
      probes := probes.(sent := [], bySeq := map[]);
      OneMoreLedgerOp(probeOps, Reset);
      probeOps := probeOps + [Reset];
    }

    method ClearWindows()
      modifies this`echoedProbes, this`echoOps, this`receivedProbes, this`receiveOps
      ensures WindowsValid() && receivedProbes == [] && echoedProbes == []
      ensures echoOps == old(echoOps) + [Clear] && receiveOps == old(receiveOps) + [Clear]
    {
      receivedProbes, echoedProbes := [], [];
      OneMoreOp(echoOps, Clear, EchoedAt, RETENTION_MS);
      OneMoreOp(receiveOps, Clear, ReceivedAt, RETENTION_MS);
      echoOps, receiveOps := echoOps + [Clear], receiveOps + [Clear];
    }

    method ClearBulk()
      modifies this`receivedBulk, this`receivedBulkOps, this`sentBulk, this`sentBulkOps
      ensures BulkValid() && receivedBulk == [] && sentBulk == []
      ensures receivedBulkOps == old(receivedBulkOps) + [Clear] && sentBulkOps == old(sentBulkOps) + [Clear]
    {
      receivedBulk, sentBulk := [], [];
      OneMoreOp(receivedBulkOps, Clear, BulkAt, RETENTION_MS);
      OneMoreOp(sentBulkOps, Clear, BulkAt, RETENTION_MS);
      receivedBulkOps, sentBulkOps := receivedBulkOps + [Clear], sentBulkOps + [Clear];
    }

    /** What a start of traffic and a stop of the traceroute have in common: everything shown starts afresh. */
    twostate predicate StartedAfresh()
      reads this
    {
      && metrics == NO_METRICS
      && receivedProbes == [] && echoedProbes == [] && receivedBulk == [] && sentBulk == []
      && probes == old(probes).(sent := [], bySeq := map[])
      && probeOps == old(probeOps) + [Reset]
      && echoOps == old(echoOps) + [Clear] && receiveOps == old(receiveOps) + [Clear]
      && receivedBulkOps == old(receivedBulkOps) + [Clear] && sentBulkOps == old(sentBulkOps) + [Clear]
    }

    /** A message of another connection is ignored. */
    method StartServerTraffic(fromConn: string)
      requires TrafficValid()
      modifies this`trafficActive, this`metrics, this`probes, this`probeOps, this`echoedProbes, this`echoOps,
               this`receivedProbes, this`receiveOps, this`receivedBulk, this`receivedBulkOps, this`sentBulk, this`sentBulkOps
      ensures TrafficValid()
      ensures fromConn != connId ==> unchanged(this)
      ensures fromConn == connId ==> trafficActive && StartedAfresh()
    {
      if fromConn != connId {
        return;
      }
      trafficActive := true;
      ClearMeasurements();
      metrics := NO_METRICS;
    }

    method StopTraceroute(fromConn: string)
      requires TrafficValid()
      modifies this`stopTraceroute, this`metrics, this`probes, this`probeOps, this`echoedProbes, this`echoOps,
               this`receivedProbes, this`receiveOps, this`receivedBulk, this`receivedBulkOps, this`sentBulk, this`sentBulkOps
      ensures TrafficValid()
      ensures fromConn != connId ==> unchanged(this)
      ensures fromConn == connId ==> stopTraceroute && StartedAfresh()
    {
      if fromConn != connId {
        return;
      }
      stopTraceroute := true;
      ClearMeasurements();
      metrics := NO_METRICS;
    }

    /** Starts the streams afresh; `limit` is what the magic key allows, if one is configured. */
    method StartProbeStreams(fromConn: string, now: nat, limit: Option<nat>)
      requires StreamValid() && ReportsValid()
      modifies this`probeStreamsActive, this`probeStreamsStartedAt, this`maxMeasuringDuration, this`measurementProbeSeq,
               this`measured, this`baseline, this`lastFeedback, this`probeStats, this`clientReportedS2c,
               this`streamOps, this`clientReports
      ensures StreamValid() && ReportsValid()
      ensures fromConn != connId ==> unchanged(this)
      ensures fromConn == connId ==>
                && probeStreamsActive && probeStreamsStartedAt == Some(now) && maxMeasuringDuration == limit
                && measurementProbeSeq == 0 && measured == [] && baseline == NO_BASELINE && lastFeedback == Feedback(0, 0, 0, 0)
                && probeStats == [] && clientReportedS2c == None && clientReports == []
                && streamOps == old(streamOps) + [Clear]
    {
      if fromConn != connId {
        return;
      }
      probeStreamsActive, probeStreamsStartedAt, maxMeasuringDuration := true, Some(now), limit;
      measurementProbeSeq, probeStats, clientReportedS2c, clientReports := 0, [], None, [];
      ClearStream();
    }

    method ClearStream()
      modifies this`measured, this`baseline, this`lastFeedback, this`streamOps
      ensures StreamValid() && measured == [] && baseline == NO_BASELINE && lastFeedback == Feedback(0, 0, 0, 0)
      ensures streamOps == old(streamOps) + [Clear]
    {
      measured, baseline, lastFeedback := [], NO_BASELINE, NO_FEEDBACK;
      OneMoreOp(streamOps, Clear, ReceivedAt, STATS_WINDOW_MS);
      streamOps := streamOps + [Clear];
    }

    /**
     One turn of the measurement sender: the next number with the latest feedback, or nothing once
     the streams are stopped or their time is up, which stops them.
     */
    method SendMeasurementProbe(now: nat) returns (probe: Option<(nat, Feedback)>)
      requires StreamValid()
      modifies this`probeStreamsActive, this`measurementProbeSeq
      ensures probeStreamsActive
         <==> && old(probeStreamsActive)
              && !(&& probeStreamsStartedAt.Some? && maxMeasuringDuration.Some?
                   && probeStreamsStartedAt.value + maxMeasuringDuration.value <= now)
      ensures probe == if probeStreamsActive then Some((old(measurementProbeSeq), lastFeedback)) else None
      ensures measurementProbeSeq == old(measurementProbeSeq) + if probe.Some? then 1 else 0
      ensures probe.Some? ==> Tops(probe.value.1.highestSeq, ProbeStats.SeqNos(History(streamOps)))
    {
      if !probeStreamsActive {
        return None;
      }
      if probeStreamsStartedAt.Some? && maxMeasuringDuration.Some? {
        if now - probeStreamsStartedAt.value >= maxMeasuringDuration.value {
          probeStreamsActive := false;
          return None;
        }
      }
      probe := Some((measurementProbeSeq, lastFeedback));
      measurementProbeSeq := measurementProbeSeq + 1;
    }

    /**
     A measurement probe: recorded, taken into the baseline unless an outlier, and summed up in the
     feedback for outgoing probes. With a clock that has not gone back, the feedback is that of the
     full history since the streams were started.
     */
    method HandleMeasurementProbe(fromConn: string, probe: ReceivedProbe)
      requires StreamValid()
      modifies this`measured, this`baseline, this`lastFeedback, this`streamOps
      ensures StreamValid()
      ensures fromConn != connId || !probeStreamsActive ==> unchanged(this)
      ensures fromConn == connId && probeStreamsActive ==>
                && streamOps == old(streamOps) + [Arrive(probe, probe.receivedAtMs)]
                && (NoLaterThan(streamOps, probe.receivedAtMs) ==>
                      SumsUp(lastFeedback, History(streamOps), probe.receivedAtMs))
    {
      if fromConn != connId || !probeStreamsActive {
        return;
      }
      var now := probe.receivedAtMs;
      OutlierExactly(baseline, Delay(probe));
      baseline := TakeIntoBaseline(baseline, Delay(probe));
      TopsMore(lastFeedback, History(streamOps), probe);
      measured, lastFeedback := Record(measured, lastFeedback, probe);

      OneMoreOp(streamOps, Arrive(probe, now), ReceivedAt, STATS_WINDOW_MS);
      OneMoreDelay(History(streamOps), probe);
      streamOps := streamOps + [Arrive(probe, now)];
      RecentOfHistory(streamOps, now);
    }

    /**
     Both directions over all three windows equal those over the full histories since the last clear:
     the client's probes and data as received here, the server's probes by the client's stamps on
     their echoes and its data as sent.
     */
    method CalculateMetrics(now: nat)
      requires WindowsValid() && BulkValid()
      modifies this`metrics
      ensures |metrics.c2s| == |metrics.s2c| == 3
      ensures NoLaterThan(receiveOps, now) && NoLaterThan(receivedBulkOps, now) ==>
                forall i | 0 <= i < 3 ::
                  Shown(metrics.c2s[i], History(receiveOps), ReceivedAt, SampleOf, History(receivedBulkOps), now, [1_000, 10_000, 60_000][i])
      ensures NoLaterThan(echoOps, now) && NoLaterThan(sentBulkOps, now) ==>
                forall i | 0 <= i < 3 ::
                  Shown(metrics.s2c[i], History(echoOps), EchoedAt, EchoSample, History(sentBulkOps), now, [1_000, 10_000, 60_000][i])
    {
      var c2s := MeasureWindows(receivedProbes, ReceivedAt, SampleOf, receivedBulk, now);
      var s2c := MeasureWindows(echoedProbes, EchoedAt, EchoSample, sentBulk, now);
      metrics := ClientMetrics(c2s, s2c);
      ShownOfHistory(c2s, receiveOps, ReceivedAt, SampleOf, receivedBulkOps, now);
      ShownOfHistory(s2c, echoOps, EchoedAt, EchoSample, sentBulkOps, now);
    }

    /** The client's own report on what it receives. */
    method StoreClientReport(fromConn: string, stats: DirectionStats)
      requires ReportsValid()
      modifies this`clientReportedS2c, this`clientReports
      ensures ReportsValid()
      ensures clientReports == if fromConn == connId then old(clientReports) + [stats] else old(clientReports)
    {
      if fromConn == connId {
        clientReportedS2c := Some(stats);
        clientReports := clientReports + [stats];
      }
    }

    /**
     One turn of the reporter: what both sides measured since the streams were started, or nothing once
     the streams are stopped, the control channel is closed or the time is up, which stops them.
     */
    method ReportProbeStats(channelOpen: bool, now: nat, nowMs: nat) returns (report: Option<(DirectionStats, DirectionStats)>)
      requires StreamValid() && ReportsValid()
      modifies this`probeStreamsActive
      ensures probeStreamsActive
         <==> && old(probeStreamsActive) && channelOpen
              && !(&& probeStreamsStartedAt.Some? && maxMeasuringDuration.Some?
                   && probeStreamsStartedAt.value + maxMeasuringDuration.value <= now)
      ensures report.Some? <==> probeStreamsActive
      ensures report.Some? && NoLaterThan(streamOps, nowMs) ==>
                && report.value.0 == Report(History(streamOps), nowMs)
                && Describes(report.value.0, Recent(History(streamOps), nowMs), Mean(BaselineOf(Delays(History(streamOps))), 0.0))
      ensures report.Some? ==>
                report.value.1 == if clientReports == [] then NO_STATS else clientReports[|clientReports| - 1]
    {
      if !probeStreamsActive {
        return None;
      }
      if !channelOpen {
        probeStreamsActive := false;
        return None;
      }
      if TimeIsUp(probeStreamsStartedAt, maxMeasuringDuration, now) {
        probeStreamsActive := false;
        return None;
      }
      var c2s := CalculateProbeStreamStats(nowMs);
      report := Some((c2s, if clientReportedS2c.Some? then clientReportedS2c.value else NO_STATS));
    }

    /** The statistics report equals the one over the full history since the streams were started. */
    method CalculateProbeStreamStats(now: nat) returns (stats: DirectionStats)
      requires StreamValid()
      ensures NoLaterThan(streamOps, now) ==>
                && stats == Report(History(streamOps), now)
                && Describes(stats, Recent(History(streamOps), now), Mean(BaselineOf(Delays(History(streamOps))), 0.0))
    {
      stats := CalculateStats(measured, Mean(baseline, 0.0), now);
      RecentOfHistory(streamOps, now);
    }
  }

  lemma ShownOfHistory<T>(m: seq<WindowMetrics>, ops: seq<Op<T>>, stamp: T -> nat, sample: T -> Sample,
                          bulkOps: seq<Op<Bulk>>, now: nat)
    requires |m| == |WINDOWS_MS|
    requires forall i | 0 <= i < |WINDOWS_MS| ::
               m[i] == View(Deque(ops, stamp, RETENTION_MS), stamp, sample, Deque(bulkOps, BulkAt, RETENTION_MS), now, WINDOWS_MS[i])
    ensures NoLaterThan(ops, now) && NoLaterThan(bulkOps, now) ==>
              forall i | 0 <= i < |WINDOWS_MS| ::
                Shown(m[i], History(ops), stamp, sample, History(bulkOps), now, WINDOWS_MS[i])
  {
    if NoLaterThan(ops, now) && NoLaterThan(bulkOps, now) {
      forall i | 0 <= i < |WINDOWS_MS|
        ensures Shown(m[i], History(ops), stamp, sample, History(bulkOps), now, WINDOWS_MS[i])
      {
        ViewOfHistory(ops, stamp, sample, bulkOps, RETENTION_MS, now, WINDOWS_MS[i]);
        ViewIsShown(History(ops), stamp, sample, History(bulkOps), now, WINDOWS_MS[i]);
      }
    }
  }

  lemma RecentOfHistory(ops: seq<Op<ReceivedProbe>>, now: nat)
    ensures NoLaterThan(ops, now) ==>
              Recent(Deque(ops, ReceivedAt, STATS_WINDOW_MS), now) == Recent(History(ops), now)
  {
    if NoLaterThan(ops, now) {
      PruningIsInvisible(ops, ReceivedAt, STATS_WINDOW_MS, FEEDBACK_WINDOW_MS, now);
    }
  }

  lemma {:induction false} NextSeqCounts(l: Ledger, cutoff: nat)
    ensures PopStale(l, cutoff).nextSeq == l.nextSeq
    decreases |l.sent|
  {
    if l.sent != [] && l.sent[0].sentAtMs < cutoff {
      NextSeqCounts(Popped(l), cutoff);
    }
  }
}
