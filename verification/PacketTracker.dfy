/**
 The packet tracker: an index of sent probes keyed by destination, UDP length and UDP checksum,
 and a queue of events for probes that an ICMP error has been matched to. Each method below is
 what one task does while it holds the corresponding lock.
 */
module PacketTracker {
  import opened Bytes
  import opened IcmpParser

  datatype SendOptions = SendOptions(
    ttl: Option<u8>, dfBit: Option<bool>, tos: Option<u8>, flowLabel: Option<u32>,
    trackForMs: u32, bypassDtls: bool, bypassSctpFragmentation: bool)

  datatype UdpPacketInfo = UdpPacketInfo(
    destAddr: SocketAddr, srcAddr: Option<SocketAddr>, udpLength: u16, cleartext: seq<u8>,
    sendOptions: SendOptions, sentAt: nat, connId: string, udpChecksum: u16)

  /** `serial` numbers the indexed packets in arrival order, so that equal packets can be told apart. */
  datatype TrackedPacket = TrackedPacket(
    serial: nat, cleartext: seq<u8>, udpPacket: seq<u8>, sentAt: nat, expiresAt: nat, sendOptions: SendOptions,
    destAddr: SocketAddr, srcPort: u16, payloadPrefix: seq<u8>, connId: string, udpChecksum: u16)

  datatype ChecksumKey = ChecksumKey(destAddr: SocketAddr, udpLength: u16, udpChecksum: u16)

  datatype TrackedPacketEvent = TrackedPacketEvent(
    serial: nat, icmpPacket: seq<u8>, trackedIpLength: u16, udpPacket: seq<u8>, cleartext: seq<u8>,
    sentAt: nat, icmpReceivedAt: nat, sendOptions: SendOptions, routerIp: Option<string>, connId: string,
    originalSrcPort: u16, originalDestAddr: SocketAddr)

  /** An ICMP error as a listener hands it to the tracker. */
  datatype IcmpArrival = IcmpArrival(
    packet: seq<u8>, class_: IcmpMessageClass, isIp6: bool, info: EmbeddedUdpInfo, routerIp: Option<string>)

  type Index = map<ChecksumKey, TrackedPacket>

  type Queue = seq<TrackedPacketEvent>

  /** A packet is indexed unless it asks for no tracking or carries no checksum. */
  predicate Admitted(info: UdpPacketInfo) {
    info.sendOptions.trackForMs != 0 && info.udpChecksum != 0
  }

  function KeyOf(info: UdpPacketInfo): ChecksumKey {
    ChecksumKey(info.destAddr, info.udpLength, info.udpChecksum)
  }

  function QuotedKey(info: EmbeddedUdpInfo): ChecksumKey {
    ChecksumKey(info.destAddr, info.udpLength, info.udpChecksum)
  }

  function TrackedOf(info: UdpPacketInfo, serial: nat): TrackedPacket {
    TrackedPacket(serial, info.cleartext, [], info.sentAt, info.sentAt + info.sendOptions.trackForMs, info.sendOptions,
                  info.destAddr, 0, Prefix(info.cleartext), info.connId, info.udpChecksum)
  }

  /** The packet an ICMP error selects, if any: the one stored under the quoted key. */
  function Matched(index: Index, info: EmbeddedUdpInfo): Option<TrackedPacket> {
    if info.udpChecksum != 0 && QuotedKey(info) in index then Some(index[QuotedKey(info)]) else None
  }

  /** The IP length recorded in an event: added in 16 bits, so true exactly when it fits. */
  function TrackedIpLength(udpLength: u16, isIp6: bool): (r: u16)
    ensures var header := if isIp6 then 40 else 20;
            r == udpLength + header <==> udpLength + header <= 0xFFFF
  {
    (udpLength + if isIp6 then 40 else 20) % 0x1_0000
  }

  function EventFor(tracked: TrackedPacket, icmp: IcmpArrival, now: nat): TrackedPacketEvent {
    TrackedPacketEvent(
      tracked.serial, icmp.packet, TrackedIpLength(icmp.info.udpLength, icmp.isIp6), tracked.udpPacket,
      tracked.cleartext, tracked.sentAt, now, tracked.sendOptions, icmp.routerIp, tracked.connId,
      icmp.info.srcPort, icmp.info.destAddr)
  }

  function Expired(index: Index, now: nat): set<ChecksumKey> {
    set k | k in index && index[k].expiresAt <= now
  }

  function ForConn(connId: string): TrackedPacketEvent -> bool {
    (e: TrackedPacketEvent) => e.connId == connId
  }

  function NotForConn(connId: string): TrackedPacketEvent -> bool {
    (e: TrackedPacketEvent) => e.connId != connId
  }

  class PacketTracker {
    var checksumIndex: Index
    var eventQueue: Queue
    var admitted: nat  // packets indexed so far, the next serial

    constructor ()
      ensures checksumIndex == map[] && eventQueue == [] && admitted == 0
    {
      checksumIndex, eventQueue, admitted := map[], [], 0;
    }

    /** One turn of the receiver task, under the index lock. */
    method ReceiveTracking(info: UdpPacketInfo)
      modifies this
      ensures eventQueue == old(eventQueue)
      ensures Admitted(info) ==>
                && checksumIndex == old(checksumIndex)[KeyOf(info) := TrackedOf(info, old(admitted))]
                && admitted == old(admitted) + 1
      ensures !Admitted(info) ==> checksumIndex == old(checksumIndex) && admitted == old(admitted)
    {
      if info.sendOptions.trackForMs == 0 {
        return;
      }
      var tracked := TrackedOf(info, admitted);
      if info.udpChecksum != 0 {
        checksumIndex := checksumIndex[KeyOf(info) := tracked];
        admitted := admitted + 1;
      }
    }

    /** The part of matching that runs under the index lock: look up and remove. */
    method RemoveMatch(info: EmbeddedUdpInfo) returns (matched: Option<TrackedPacket>)
      modifies this`checksumIndex
      ensures matched == Matched(old(checksumIndex), info)
      ensures checksumIndex
           == if matched.Some? then old(checksumIndex) - {QuotedKey(info)} else old(checksumIndex)
    {
      matched := None;
      if info.udpChecksum != 0 {
        var key := QuotedKey(info);
        if key in checksumIndex {
          matched := Some(checksumIndex[key]);
          checksumIndex := checksumIndex - {key};
        }
      }
    }

    /** The part that runs under the queue lock. */
    method PushEvent(event: TrackedPacketEvent)
      modifies this`eventQueue
      ensures eventQueue == old(eventQueue) + [event]
    {
      eventQueue := eventQueue + [event];
    }

    /** A whole match with no other task in between; `unmatched` is what the error callback gets. */
    method MatchIcmpError(icmp: IcmpArrival, now: nat) returns (unmatched: Option<EmbeddedUdpInfo>)
      modifies this
      ensures admitted == old(admitted)
      ensures match Matched(old(checksumIndex), icmp.info)
              case Some(tracked) =>
                && checksumIndex == old(checksumIndex) - {QuotedKey(icmp.info)}
                && eventQueue == old(eventQueue) + [EventFor(tracked, icmp, now)]
                && unmatched == None
              case None =>
                && checksumIndex == old(checksumIndex) && eventQueue == old(eventQueue)
                && unmatched == if icmp.class_ == Error then Some(icmp.info) else None
    {
      unmatched := None;
      var matched := RemoveMatch(icmp.info);
      if matched.Some? {
        PushEvent(EventFor(matched.value, icmp, now));
      } else if icmp.class_ == Error {
        unmatched := Some(icmp.info);
      }
    }

    method DrainEvents() returns (events: Queue)
      modifies this`eventQueue
      ensures events == old(eventQueue) && eventQueue == []
    {
      events := eventQueue;
      eventQueue := [];
    }

    /** Returns this connection's events in order and keeps the others in order. */
    method DrainEventsForConnId(connId: string) returns (matching: Queue)
      modifies this`eventQueue
      ensures matching == Filter(old(eventQueue), ForConn(connId))
      ensures eventQueue == Filter(old(eventQueue), NotForConn(connId))
    {
      matching := [];
      var remaining := [];
      for i := 0 to |eventQueue|
        invariant eventQueue == old(eventQueue)
        invariant matching == Filter(eventQueue[..i], ForConn(connId))
        invariant remaining == Filter(eventQueue[..i], NotForConn(connId))
      {
        var event := eventQueue[i];
        assert eventQueue[..i + 1] == eventQueue[..i] + [event];
        FilterConcat(eventQueue[..i], [event], ForConn(connId));
        FilterConcat(eventQueue[..i], [event], NotForConn(connId));
        if event.connId == connId {
          matching := matching + [event];
        } else {
          remaining := remaining + [event];
        }
      }
      assert eventQueue[..|eventQueue|] == eventQueue;
      eventQueue := remaining;
    }

    /** Removes exactly the packets whose deadline has passed. */
    method CleanupExpired(now: nat)
      modifies this`checksumIndex
      ensures checksumIndex == old(checksumIndex) - Expired(old(checksumIndex), now)
      ensures forall k | k in old(checksumIndex) :: k in checksumIndex <==> now < old(checksumIndex)[k].expiresAt
    {
      var expiredKeys := Expired(checksumIndex, now);
      var left := expiredKeys;
      while left != {}
        invariant left <= expiredKeys
        invariant checksumIndex == old(checksumIndex) - (expiredKeys - left)
        decreases left
      {
        var key :| key in left;
        checksumIndex := checksumIndex - {key};
        left := left - {key};
      }
    }

    /** The statistics call: counts the queue by draining it and putting the events back one at a time. */
    method GetTrackedStats() returns (trackedCount: nat, queuedCount: nat)
      modifies this`eventQueue
      ensures trackedCount == |checksumIndex| && queuedCount == |old(eventQueue)|
      ensures eventQueue == old(eventQueue)
    {
      trackedCount := |checksumIndex|;
      var events := DrainEvents();
      queuedCount := |events|;
      for i := 0 to |events|
        invariant eventQueue == events[..i]
      {
        PushEvent(events[i]);
      }
    }
  }
}
