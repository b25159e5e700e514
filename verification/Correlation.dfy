/**
 From an outgoing probe to the event for it: the checksum the server computes when a probe is
 handed to the network, the key the probe is stored under, and the key recovered from an ICMP
 error that quotes it.
 */
module Correlation {
  import opened Bytes
  import opened Checksum
  import opened IcmpParser
  import opened PacketTracker
  import opened TrackerRuns

  /** A UDP datagram on its way out, with the TTL and connection it was sent for. */
  datatype Probe =
    | ProbeV4(src4: Ipv4, dst4: Ipv4, srcPort: u16, dstPort: u16, payload: seq<u8>, ttl: u8, connId: string)
    | ProbeV6(src6: Ipv6, dst6: Ipv6, srcPort: u16, dstPort: u16, payload: seq<u8>, ttl: u8, connId: string)
  {
    function Dest(): SocketAddr {
      SocketAddr(if ProbeV4? then V4(dst4) else V6(dst6), dstPort)
    }

    function Source(): SocketAddr {
      SocketAddr(if ProbeV4? then V4(src4) else V6(src6), srcPort)
    }

    /** The checksum in the datagram's UDP header on the wire. */
    function WireChecksum(): u16 {
      if ProbeV4? then WireChecksumV4(src4, dst4, srcPort, dstPort, payload)
      else WireChecksumV6(src6, dst6, srcPort, dstPort, payload)
    }

    ghost predicate Sendable() {
      payload != [] && 8 + |payload| <= 0xFFFF
    }

    function WireHeader(): seq<u8> {
      UdpHeader(srcPort, dstPort, UdpLength(payload), WireChecksum())
    }

    /** Everything but the payload, TTL and connection: the flow, and the UDP length. */
    predicate SameFlowAndLength(other: Probe) {
      && Dest() == other.Dest() && Source() == other.Source()
      && |payload| == |other.payload|
    }
  }

  /** The send options the tracking callback records for every probe. */
  function TrackingOptions(ttl: u8): SendOptions {
    SendOptions(Some(ttl), Some(true), None, None, 5000, false, false)
  }

  /** The tracking record of a probe whose UDP length and checksum are those on the wire. */
  function Record(p: Probe, sentAt: nat): UdpPacketInfo {
    UdpPacketInfo(p.Dest(), Some(p.Source()), UdpLength(p.payload), p.payload,
                  TrackingOptions(p.ttl), sentAt, p.connId, p.WireChecksum())
  }

  /** What the network layer reports for a probe, with the UDP length it passes along. */
  method TrackUdpPacket(p: Probe, udpLength: u16, now: nat) returns (info: Option<UdpPacketInfo>)
    ensures info.None? <==> p.payload == []
    ensures info.Some? ==> Admitted(info.value)
    ensures info.Some? && p.Sendable() && udpLength == 8 + |p.payload| ==> info.value == Record(p, now)
  {
    if p.payload == [] {
      return None;
    }
    var checksum;
    match p {
      case ProbeV4(src, dst, srcPort, dstPort, payload, _, _) =>
        checksum := CalculateUdpChecksumV4(src, dst, srcPort, dstPort, payload);
      case ProbeV6(src, dst, srcPort, dstPort, payload, _, _) =>
        checksum := CalculateUdpChecksumV6(src, dst, srcPort, dstPort, payload);
    }
    info := Some(UdpPacketInfo(p.Dest(), Some(p.Source()), udpLength, p.payload,
                               TrackingOptions(p.ttl), now, p.connId, checksum));
  }

  /** The error quotes the probe: its destination address and its UDP header. */
  ghost predicate QuotesV4(m: ErrorV4, p: Probe) {
    p.ProbeV4? && m.Valid() && m.ipHeader[16..20] == p.dst4 && m.udpHeader == p.WireHeader()
  }

  ghost predicate QuotesV6(m: ErrorV6, p: Probe) {
    p.ProbeV6? && m.Valid() && m.ipHeader[24..40] == p.dst6 && m.udpHeader == p.WireHeader()
  }

  /** An arrival whose parsed content quotes the probe. */
  ghost predicate Reports(icmp: IcmpArrival, p: Probe) {
    && icmp.isIp6 == p.ProbeV6?
    && icmp.info.srcPort == p.srcPort
    && QuotedKey(icmp.info) == ChecksumKey(p.Dest(), UdpLength(p.payload), p.WireChecksum())
  }

  lemma HeaderFields(srcPort: u16, dstPort: u16, length: u16, checksum: u16)
    ensures var h := UdpHeader(srcPort, dstPort, length, checksum);
            Word(h, 0) == srcPort && Word(h, 2) == dstPort && Word(h, 4) == length && Word(h, 6) == checksum
  {
  }

  /** The IPv4 parser recovers the probe's key from any error that quotes it, whatever else it holds. */
  lemma ParsedErrorReportsV4(m: ErrorV4, p: Probe, routerIp: Option<string>)
    requires QuotesV4(m, p)
    ensures ParseIcmpError(m.Encode()).Some?
    ensures var (info, cls) := ParseIcmpError(m.Encode()).value;
            (cls == Error <==> m.icmpType == 3) && Reports(IcmpArrival(m.Encode(), cls, false, info, routerIp), p)
  {
    ParsesEveryErrorV4(m);
    HeaderFields(p.srcPort, p.dstPort, UdpLength(p.payload), p.WireChecksum());
  }

  lemma ParsedErrorReportsV6(m: ErrorV6, p: Probe, routerIp: Option<string>)
    requires QuotesV6(m, p)
    ensures ParseIcmpv6Error(m.Encode()).Some?
    ensures var (info, cls) := ParseIcmpv6Error(m.Encode()).value;
            (cls == Error <==> m.icmpType == 1) && Reports(IcmpArrival(m.Encode(), cls, true, info, routerIp), p)
  {
    ParsesEveryErrorV6(m);
    HeaderFields(p.srcPort, p.dstPort, UdpLength(p.payload), p.WireChecksum());
  }

  /** The event is about packet `s`, the probe, and the error that reported it. */
  ghost predicate Describes(e: TrackedPacketEvent, s: nat, p: Probe, sentAt: nat, icmp: IcmpArrival, now: nat) {
    && e.serial == s && e.connId == p.connId
    && e.sendOptions == SendOptions(Some(p.ttl), Some(true), None, None, 5000, false, false)
    && e.cleartext == p.payload && e.sentAt == sentAt
    && e.originalSrcPort == p.srcPort && e.originalDestAddr == p.Dest()
    && e.icmpPacket == icmp.packet && e.routerIp == icmp.routerIp && e.icmpReceivedAt == now
    && (8 + |p.payload| + (if p.ProbeV6? then 40 else 20) <= 0xFFFF ==>
          e.trackedIpLength == 8 + |p.payload| + if p.ProbeV6? then 40 else 20)
  }

  lemma EventDescribes(s: nat, p: Probe, sentAt: nat, icmp: IcmpArrival, now: nat)
    requires Reports(icmp, p)
    ensures Describes(EventFor(TrackedOf(Record(p, sentAt), s), icmp, now), s, p, sentAt, icmp, now)
  {
    IpLengthOfProbe(|p.payload|, p.ProbeV6?);
  }

  lemma IpLengthOfProbe(payload: nat, isIp6: bool)
    ensures var total := 8 + payload + if isIp6 then 40 else 20;
            total <= 0xFFFF ==> TrackedIpLength((8 + payload) % 0x1_0000, isIp6) == total
  {
  }

  /** Where a match under way is found after a step that does not end it. */
  function MovedSlot(task: nat, step: Step): nat {
    if step.EndMatch? && step.task < task then task - 1 else task
  }

  /** Where a match under way is found after the steps; nothing once one of them has ended it. */
  function Slot(task: nat, steps: seq<Step>): Option<nat>
    decreases |steps|
  {
    if steps == [] then Some(task)
    else if steps[0].EndMatch? && steps[0].task == task then None
    else Slot(MovedSlot(task, steps[0]), steps[1..])
  }

  /** Step `k` puts the event at the end of the queue. */
  ghost predicate QueuedBy(w: World, event: TrackedPacketEvent, steps: seq<Step>, k: nat) {
    k < |steps| && Run(w, steps[..k + 1]).queue == Run(w, steps[..k]).queue + [event]
  }

  /** Whatever else happens, ending the match queues its event; once it has ended, one of the steps has done so. */
  ghost predicate QueuedAtTheEnd(w: World, task: nat, others: seq<Step>)
    requires task < |w.matching|
  {
    var later := Run(w, others);
    match Slot(task, others)
    case None => exists k: nat :: QueuedBy(w, w.matching[task], others, k)
    case Some(now) =>
      && now < |later.matching| && later.matching[now] == w.matching[task]
      && Next(later, EndMatch(now)).queue == later.queue + [w.matching[task]]
  }

  lemma StepMovesSlot(w: World, task: nat, step: Step)
    requires task < |w.matching| && !(step.EndMatch? && step.task == task)
    ensures var now := MovedSlot(task, step);
            now < |Next(w, step).matching| && Next(w, step).matching[now] == w.matching[task]
  {
  }

  lemma {:induction false} SlotHolds(w: World, task: nat, steps: seq<Step>)
    requires task < |w.matching| && Slot(task, steps).Some?
    ensures var now := Slot(task, steps).value;
            now < |Run(w, steps).matching| && Run(w, steps).matching[now] == w.matching[task]
    decreases |steps|
  {
    if steps != [] {
      StepMovesSlot(w, task, steps[0]);
      SlotHolds(Next(w, steps[0]), MovedSlot(task, steps[0]), steps[1..]);
    }
  }

  /** A match that is no longer under way was ended by a step, which queued its event. */
  lemma {:induction false} EndedByAStep(w: World, task: nat, steps: seq<Step>) returns (k: nat)
    requires task < |w.matching| && Slot(task, steps).None?
    ensures k < |steps| && Slot(task, steps[..k]).Some? && steps[k] == EndMatch(Slot(task, steps[..k]).value)
    ensures QueuedBy(w, w.matching[task], steps, k)
  {
    k := EndingStep(task, steps);
    var before := steps[..k];
    SlotHolds(w, task, before);
    assert steps[..k + 1] == before + [steps[k]];
    RunConcat(w, before, [steps[k]]);
    RunFirst(Run(w, before), steps[k], []);
    assert [steps[k]] + [] == [steps[k]];
  }

  lemma {:induction false} EndingStep(task: nat, steps: seq<Step>) returns (k: nat)
    requires Slot(task, steps).None?
    ensures k < |steps| && Slot(task, steps[..k]).Some? && steps[k] == EndMatch(Slot(task, steps[..k]).value)
    decreases |steps|
  {
    if steps[0].EndMatch? && steps[0].task == task {
      k := 0;
    } else {
      var rest := EndingStep(MovedSlot(task, steps[0]), steps[1..]);
      k := rest + 1;
      assert steps[..k][1..] == steps[1..][..rest];
    }
  }

  lemma MatchIsQueued(w: World, task: nat, others: seq<Step>)
    requires task < |w.matching|
    ensures QueuedAtTheEnd(w, task, others)
  {
    if Slot(task, others).Some? {
      SlotHolds(w, task, others);
    } else {
      var k := EndedByAStep(w, task, others);
    }
  }

  /**
   The report takes packet `s` alone out of the index and starts a match whose event is about it; with
   any steps between, ending the match queues that event.
   */
  ghost predicate Answered(w: World, s: nat, p: Probe, sentAt: nat, icmp: IcmpArrival, now: nat, others: seq<Step>) {
    var begun := Next(w, BeginMatch(icmp, now));
    && begun.index == w.index - {KeyOf(Record(p, sentAt))}
    && (forall t :: Indexed(begun.index, t) <==> Indexed(w.index, t) && t != s)
    && begun.queue == w.queue
    && |begun.matching| == |w.matching| + 1 && begun.matching[..|w.matching|] == w.matching
    && Describes(begun.matching[|w.matching|], s, p, sentAt, icmp, now)
    && QueuedAtTheEnd(begun, |w.matching|, others)
  }

  lemma ReportFindsItsProbe(w: World, s: nat, p: Probe, sentAt: nat, icmp: IcmpArrival, now: nat, others: seq<Step>)
    requires IndexFaithful(w) && s < |w.admitted|
    requires w.admitted[s] == Record(p, sentAt) && Indexed(w.index, s)
    requires Reports(icmp, p)
    ensures Answered(w, s, p, sentAt, icmp, now, others)
  {
    var key := KeyOf(Record(p, sentAt));
    FoundUnderItsKey(w, s, p, sentAt, icmp);
    OnlyUnderItsKey(w, key, s);
    EventDescribes(s, p, sentAt, icmp, now);
    LeavesAlone(w, key, s);
    MatchIsQueued(Next(w, BeginMatch(icmp, now)), |w.matching|, others);
  }

  lemma FoundUnderItsKey(w: World, s: nat, p: Probe, sentAt: nat, icmp: IcmpArrival)
    requires IndexFaithful(w) && s < |w.admitted|
    requires w.admitted[s] == Record(p, sentAt) && Indexed(w.index, s)
    requires Reports(icmp, p)
    ensures Matched(w.index, icmp.info) == Some(TrackedOf(Record(p, sentAt), s))
  {
    NeverZero(p);
    OnlyUnderItsKey(w, KeyOf(Record(p, sentAt)), s);
  }

  lemma LeavesAlone(w: World, key: ChecksumKey, s: nat)
    requires IndexFaithful(w) && key in w.index && w.index[key].serial == s
    ensures forall t :: Indexed(w.index - {key}, t) <==> Indexed(w.index, t) && t != s
  {
    forall t ensures Indexed(w.index - {key}, t) <==> Indexed(w.index, t) && t != s {
      RemoveKeys(w, {key}, t);
      assert t in (set k | k in {key} :: w.index[k].serial) <==> t == s;
    }
  }

  /**
   The only steps that come between a probe and a report of it: tracking a packet with the same key,
   matching an error that quotes that key, and cleaning up five seconds after sending or later.
   */
  predicate Interferes(step: Step, p: Probe, sentAt: nat) {
    var key := ChecksumKey(p.Dest(), UdpLength(p.payload), p.WireChecksum());
    match step
    case Track(other) => Admitted(other) && KeyOf(other) == key
    case BeginMatch(icmp, _) => QuotedKey(icmp.info) == key
    case Expire(at) => at >= sentAt + 5000
    case _ => false
  }

  /** Other traffic, of any kind and amount, leaves a tracked probe where a report finds it. */
  lemma StaysFindable(w: World, p: Probe, sentAt: nat, traffic: seq<Step>)
    requires IndexFaithful(w) && forall i | 0 <= i < |traffic| :: !Interferes(traffic[i], p, sentAt)
    ensures var later := Run(Next(w, Track(Record(p, sentAt))), traffic);
            && IndexFaithful(later) && Indexed(later.index, |w.admitted|)
            && |w.admitted| < |later.admitted| && later.admitted[|w.admitted|] == Record(p, sentAt)
  {
    var s, record := |w.admitted|, Record(p, sentAt);
    NeverZero(p);
    var tracked := Next(w, Track(record));
    StepFaithful(w, Track(record));
    assert tracked.index[KeyOf(record)].serial == s;
    assert forall step :: Evicts(step, record) <==> Interferes(step, p, sentAt);
    StaysIndexed(tracked, traffic, s);
  }

  lemma ReportFindsProbeAmidTraffic(w: World, p: Probe, sentAt: nat, traffic: seq<Step>, icmp: IcmpArrival, now: nat,
                                    others: seq<Step>)
    requires IndexFaithful(w) && Reports(icmp, p)
    requires forall i | 0 <= i < |traffic| :: !Interferes(traffic[i], p, sentAt)
    ensures var later := Run(Next(w, Track(Record(p, sentAt))), traffic);
            Answered(later, |w.admitted|, p, sentAt, icmp, now, others)
  {
    StaysFindable(w, p, sentAt, traffic);
    ReportFindsItsProbe(Run(Next(w, Track(Record(p, sentAt))), traffic), |w.admitted|, p, sentAt, icmp, now, others);
  }

  /**
   End to end over IPv4, in every reachable state: a probe is tracked, any other traffic follows, and
   then an error arrives that quotes the probe, with any header options and any amount of trailing
   data. It takes that packet and no other out of the index, and when its match ends, after any other
   steps, one event with the probe's connection and TTL is queued.
   */
  lemma ErrorFindsItsProbeV4(steps: seq<Step>, p: Probe, sentAt: nat, traffic: seq<Step>, m: ErrorV4,
                             routerIp: Option<string>, now: nat, others: seq<Step>)
    requires QuotesV4(m, p)
    requires forall i | 0 <= i < |traffic| :: !Interferes(traffic[i], p, sentAt)
    ensures ParseIcmpError(m.Encode()).Some?
    ensures var w := Run(START, steps);
            var later := Run(Next(w, Track(Record(p, sentAt))), traffic);
            var (info, cls) := ParseIcmpError(m.Encode()).value;
            Answered(later, |w.admitted|, p, sentAt, IcmpArrival(m.Encode(), cls, false, info, routerIp), now, others)
  {
    ParsedErrorReportsV4(m, p, routerIp);
    RunFaithful(START, steps);
    var (info, cls) := ParseIcmpError(m.Encode()).value;
    ReportFindsProbeAmidTraffic(Run(START, steps), p, sentAt, traffic,
                                IcmpArrival(m.Encode(), cls, false, info, routerIp), now, others);
  }

  /** End to end over IPv6, with the fixed 40-byte quoted header. */
  lemma ErrorFindsItsProbeV6(steps: seq<Step>, p: Probe, sentAt: nat, traffic: seq<Step>, m: ErrorV6,
                             routerIp: Option<string>, now: nat, others: seq<Step>)
    requires QuotesV6(m, p)
    requires forall i | 0 <= i < |traffic| :: !Interferes(traffic[i], p, sentAt)
    ensures ParseIcmpv6Error(m.Encode()).Some?
    ensures var w := Run(START, steps);
            var later := Run(Next(w, Track(Record(p, sentAt))), traffic);
            var (info, cls) := ParseIcmpv6Error(m.Encode()).value;
            Answered(later, |w.admitted|, p, sentAt, IcmpArrival(m.Encode(), cls, true, info, routerIp), now, others)
  {
    ParsedErrorReportsV6(m, p, routerIp);
    RunFaithful(START, steps);
    var (info, cls) := ParseIcmpv6Error(m.Encode()).value;
    ReportFindsProbeAmidTraffic(Run(START, steps), p, sentAt, traffic,
                                IcmpArrival(m.Encode(), cls, true, info, routerIp), now, others);
  }

  lemma NeverZero(p: Probe)
    ensures p.WireChecksum() != 0
  {
  }

  /** Probes on one flow with equal lengths share a key exactly when their payload sums are congruent. */
  lemma KeyCollision(p: Probe, q: Probe, t: nat, u: nat)
    requires p.SameFlowAndLength(q)
    ensures KeyOf(Record(p, t)) == KeyOf(Record(q, u))
       <==> Sum(Words(p.payload)) % 0xFFFF == Sum(Words(q.payload)) % 0xFFFF
  {
    var length := UdpLength(p.payload);
    if p.ProbeV4? {
      PayloadCollision(PseudoV4(p.src4, p.dst4, length), p.srcPort, p.dstPort, length, p.payload, q.payload);
    } else {
      PayloadCollision(PseudoV6(p.src6, p.dst6, (8 + |p.payload|) % 0x1_0000_0000),
                       p.srcPort, p.dstPort, length, p.payload, q.payload);
    }
  }

  predicate Collide(p: Probe, q: Probe) {
    Sum(Words(p.payload)) % 0xFFFF == Sum(Words(q.payload)) % 0xFFFF
  }

  lemma RunFirst(w: World, step: Step, rest: seq<Step>)
    ensures Run(w, [step] + rest) == Run(Next(w, step), rest)
  {
    assert ([step] + rest)[1..] == rest;
  }

  /**
   Two probes on one flow, with any other traffic between and after them, in every reachable state: a
   report of the first finds the first, except exactly when the payload sums agree modulo 65535, and
   then it finds the second. The traffic must leave alone the one that is found.
   */
  lemma WrongProbeOnlyOnCollision(steps: seq<Step>, p: Probe, q: Probe, t: nat, u: nat,
                                  between: seq<Step>, after: seq<Step>, icmp: IcmpArrival)
    requires p.SameFlowAndLength(q) && Reports(icmp, p)
    requires !Collide(p, q) ==> forall i | 0 <= i < |between| :: !Interferes(between[i], p, t)
    requires !Collide(p, q) ==> forall i | 0 <= i < |after| :: !Interferes(after[i], p, t)
    requires Collide(p, q) ==> forall i | 0 <= i < |after| :: !Interferes(after[i], q, u)
    ensures var w := Run(START, steps);
            var middle := Run(Next(w, Track(Record(p, t))), between);
            var found := Matched(Run(Next(middle, Track(Record(q, u))), after).index, icmp.info);
            found == Some(if Collide(p, q) then TrackedOf(Record(q, u), |middle.admitted|)
                          else TrackedOf(Record(p, t), |w.admitted|))
  {
    var w := Run(START, steps);
    var first := Next(w, Track(Record(p, t)));
    var middle := Run(first, between);
    RunFaithful(START, steps);
    KeyCollision(p, q, t, u);
    if Collide(p, q) {
      StepFaithful(w, Track(Record(p, t)));
      RunFaithful(first, between);
      StaysFindable(middle, q, u, after);
      FoundUnderItsKey(Run(Next(middle, Track(Record(q, u))), after), |middle.admitted|, q, u, icmp);
    } else {
      var traffic := between + ([Track(Record(q, u))] + after);
      RunConcat(first, between, [Track(Record(q, u))] + after);
      RunFirst(middle, Track(Record(q, u)), after);
      StaysFindable(w, p, t, traffic);
      FoundUnderItsKey(Run(first, traffic), |w.admitted|, p, t, icmp);
    }
  }
}
