/**
 Every interleaving of the activities that share the packet tracker, as runs of a step machine. A step
 is what one activity does while it holds one lock, with the effect the methods of `PacketTracker`
 have. Matching and the statistics call let go of their locks half way, so each is two kinds of
 step, and what it holds in between is part of the state.
 */
module TrackerRuns {
  import opened Bytes
  import opened IcmpParser
  import opened PacketTracker

  datatype Delivery = Delivery(to: Option<string>, event: TrackedPacketEvent)

  datatype World = World(
    index: Index,
    queue: Queue,
    matching: seq<TrackedPacketEvent>,  // removed from the index, not yet queued
    held: seq<Queue>,                   // drained by statistics calls, not yet put back
    delivered: seq<Delivery>,           // returned by a drain
    expired: multiset<nat>,             // serials removed by the clean-up task
    overwritten: multiset<nat>,         // serials displaced by a later packet with an equal key
    admitted: seq<UdpPacketInfo>,       // every packet indexed so far; positions are serials
    unmatched: seq<EmbeddedUdpInfo>)    // calls of the error callback

  datatype Step =
    | Track(info: UdpPacketInfo)
    | BeginMatch(icmp: IcmpArrival, now: nat)
    | EndMatch(task: nat)
    | Expire(at: nat)
    | DrainFor(connId: string)
    | DrainAll
    | BeginStats
    | PutBack(call: nat)

  const START := World(map[], [], [], [], [], multiset{}, multiset{}, [], [])

  function Deliver(to: Option<string>, events: Queue): seq<Delivery> {
    seq(|events|, i requires 0 <= i < |events| => Delivery(to, events[i]))
  }

  function Events(deliveries: seq<Delivery>): seq<TrackedPacketEvent> {
    seq(|deliveries|, i requires 0 <= i < |deliveries| => deliveries[i].event)
  }

  function Without<T>(s: seq<T>, i: nat): seq<T>
    requires i < |s|
  {
    s[..i] + s[i + 1..]
  }

  /** One step of one task; a step that names no task in flight does nothing. */
  function Next(w: World, step: Step): World {
    match step
    case Track(info) =>
      if !Admitted(info) then w else
      var key := KeyOf(info);
      w.(index := w.index[key := TrackedOf(info, |w.admitted|)],
      overwritten := if key in w.index then w.overwritten + multiset{w.index[key].serial} else w.overwritten,
      admitted := w.admitted + [info])
    case BeginMatch(icmp, now) =>
      (match Matched(w.index, icmp.info)
       case Some(tracked) =>
         w.(index := w.index - {QuotedKey(icmp.info)}, matching := w.matching + [EventFor(tracked, icmp, now)])
       case None =>
         if icmp.class_ == Error then w.(unmatched := w.unmatched + [icmp.info]) else w)
    case EndMatch(task) =>
      if task >= |w.matching| then w else
      w.(matching := Without(w.matching, task), queue := w.queue + [w.matching[task]])
    case Expire(at) =>
      var keys := Expired(w.index, at);
      w.(index := w.index - keys, expired := w.expired + multiset(set k | k in keys :: w.index[k].serial))
    case DrainFor(connId) =>
      w.(queue := Filter(w.queue, NotForConn(connId)),
      delivered := w.delivered + Deliver(Some(connId), Filter(w.queue, ForConn(connId))))
    case DrainAll =>
      w.(queue := [], delivered := w.delivered + Deliver(None, w.queue))
    case BeginStats =>
      w.(queue := [], held := w.held + [w.queue])
    case PutBack(call) =>
      if call >= |w.held| || w.held[call] == [] then w else
      w.(held := w.held[call := w.held[call][1..]], queue := w.queue + [w.held[call][0]])
  }

  function Run(w: World, steps: seq<Step>): World
    decreases |steps|
  {
    if steps == [] then w else Run(Next(w, steps[0]), steps[1..])
  }

  /** The tracker object shows the shared part of a state. */
  ghost predicate Shows(tracker: PacketTracker, w: World)
    reads tracker
  {
    tracker.checksumIndex == w.index && tracker.eventQueue == w.queue && tracker.admitted == |w.admitted|
  }

  /** The tracker's methods carry out every step; `w` holds what the activities keep to themselves. */
  method Perform(tracker: PacketTracker, w: World, step: Step)
    requires Shows(tracker, w)
    modifies tracker
    ensures Shows(tracker, Next(w, step))
  {
    match step
    case Track(info) =>
      tracker.ReceiveTracking(info);
    case BeginMatch(icmp, now) =>
      var matched := tracker.RemoveMatch(icmp.info);
    case EndMatch(task) =>
      if task < |w.matching| { tracker.PushEvent(w.matching[task]); }
    case Expire(at) =>
      tracker.CleanupExpired(at);
    case DrainFor(connId) =>
      var events := tracker.DrainEventsForConnId(connId);
    case DrainAll =>
      var events := tracker.DrainEvents();
    case BeginStats =>
      var events := tracker.DrainEvents();
    case PutBack(call) =>
      if call < |w.held| && w.held[call] != [] { tracker.PushEvent(w.held[call][0]); }
  }

  lemma {:induction false} RunConcat(w: World, a: seq<Step>, b: seq<Step>)
    ensures Run(w, a + b) == Run(Run(w, a), b)
    decreases |a|
  {
    if a == [] {
      assert a + b == b;
    } else {
      RunConcat(Next(w, a[0]), a[1..], b);
      assert (a + b)[1..] == a[1..] + b;
    }
  }

  /** What every step keeps, every run keeps. */
  lemma {:induction false} RunKeeps(inv: World -> bool, w: World, steps: seq<Step>)
    requires inv(w) && forall v, step | inv(v) :: inv(Next(v, step))
    ensures inv(Run(w, steps))
    decreases |steps|
  {
    if steps != [] {
      RunKeeps(inv, Next(w, steps[0]), steps[1..]);
    }
  }

  // ---------------------------------------------------------------------------------------
  // Conservation
  // ---------------------------------------------------------------------------------------

  /** How many of these events belong to packet `s`. */
  function Count(events: seq<TrackedPacketEvent>, s: nat): nat {
    if events == [] then 0 else (if events[0].serial == s then 1 else 0) + Count(events[1..], s)
  }

  function HeldCount(held: seq<Queue>, s: nat): nat {
    if held == [] then 0 else Count(held[0], s) + HeldCount(held[1..], s)
  }

  ghost predicate Indexed(index: Index, s: nat) {
    exists k :: k in index && index[k].serial == s
  }

  /** In how many places packet `s` is. */
  ghost function Copies(w: World, s: nat): nat {
    (if Indexed(w.index, s) then 1 else 0) + Count(w.matching, s) + Count(w.queue, s) + HeldCount(w.held, s)
    + Count(Events(w.delivered), s) + w.expired[s] + w.overwritten[s]
  }

  /** The index stores admitted packets unchanged, each under its own key. */
  ghost predicate IndexFaithful(w: World) {
    forall k | k in w.index ::
      && w.index[k].serial < |w.admitted|
      && w.index[k] == TrackedOf(w.admitted[w.index[k].serial], w.index[k].serial)
      && k == KeyOf(w.admitted[w.index[k].serial])
      && Admitted(w.admitted[w.index[k].serial])
  }

  lemma {:induction false} CountConcat(a: seq<TrackedPacketEvent>, b: seq<TrackedPacketEvent>, s: nat)
    ensures Count(a + b, s) == Count(a, s) + Count(b, s)
  {
    if a == [] {
      assert a + b == b;
    } else {
      CountConcat(a[1..], b, s);
      assert (a + b)[1..] == a[1..] + b;
    }
  }

  lemma CountAppend(a: seq<TrackedPacketEvent>, e: TrackedPacketEvent, s: nat)
    ensures Count(a + [e], s) == Count(a, s) + if e.serial == s then 1 else 0
  {
    CountConcat(a, [e], s);
    assert [e][1..] == [];
  }

  lemma CountWithout(a: seq<TrackedPacketEvent>, i: nat, s: nat)
    requires i < |a|
    ensures Count(a, s) == Count(Without(a, i), s) + if a[i].serial == s then 1 else 0
  {
    assert a == a[..i] + a[i..];
    CountConcat(a[..i], a[i..], s);
    assert a[i..][1..] == a[i + 1..];
    CountConcat(a[..i], a[i + 1..], s);
  }

  lemma {:induction false} CountSplit(q: Queue, connId: string, s: nat)
    ensures Count(q, s) == Count(Filter(q, ForConn(connId)), s) + Count(Filter(q, NotForConn(connId)), s)
  {
    if q != [] {
      CountSplit(q[1..], connId, s);
      CountConcat([q[0]], Filter(q[1..], ForConn(connId)), s);
      CountConcat([q[0]], Filter(q[1..], NotForConn(connId)), s);
      CountAppend([], q[0], s);
    }
  }

  lemma CountDelivered(delivered: seq<Delivery>, to: Option<string>, q: Queue, s: nat)
    ensures Count(Events(delivered + Deliver(to, q)), s) == Count(Events(delivered), s) + Count(q, s)
  {
    assert Events(delivered + Deliver(to, q)) == Events(delivered) + q;
    CountConcat(Events(delivered), q, s);
  }

  lemma {:induction false} HeldAppend(held: seq<Queue>, q: Queue, s: nat)
    ensures HeldCount(held + [q], s) == HeldCount(held, s) + Count(q, s)
  {
    if held == [] {
      assert [q][1..] == [];
    } else {
      HeldAppend(held[1..], q, s);
      assert (held + [q])[1..] == held[1..] + [q];
    }
  }

  lemma {:induction false} HeldUpdate(held: seq<Queue>, c: nat, q: Queue, s: nat)
    requires c < |held|
    ensures HeldCount(held[c := q], s) + Count(held[c], s) == HeldCount(held, s) + Count(q, s)
  {
    if c == 0 {
      assert held[c := q][1..] == held[1..];
    } else {
      HeldUpdate(held[1..], c - 1, q, s);
      assert held[c := q][1..] == held[1..][c - 1 := q];
    }
  }

  /** Removing keys takes exactly their packets out of the index: no two keys hold one packet. */
  lemma RemoveKeys(w: World, keys: set<ChecksumKey>, s: nat)
    requires IndexFaithful(w) && keys <= w.index.Keys
    ensures Indexed(w.index - keys, s) <==> Indexed(w.index, s) && s !in (set k | k in keys :: w.index[k].serial)
    ensures s in (set k | k in keys :: w.index[k].serial) ==> Indexed(w.index, s)
  {
    var rest := w.index - keys;
    if Indexed(w.index, s) {
      var k :| k in w.index && w.index[k].serial == s;
      assert forall k' | k' in w.index && w.index[k'].serial == s :: k' == k;
      if k !in keys {
        assert k in rest && rest[k].serial == s;
      }
    }
  }

  lemma TrackCopies(w: World, info: UdpPacketInfo, s: nat)
    requires IndexFaithful(w) && Admitted(info)
    ensures Copies(Next(w, Track(info)), s) == Copies(w, s) + if s == |w.admitted| then 1 else 0
  {
    var key, n := KeyOf(info), |w.admitted|;
    var next := Next(w, Track(info));
    assert !Indexed(w.index, n);
    assert next.index[key].serial == n;
    assert Indexed(next.index, s) <==> Indexed(w.index - {key}, s) || s == n by {
      if Indexed(w.index - {key}, s) {
        var k :| k in w.index - {key} && (w.index - {key})[k].serial == s;
        assert next.index[k].serial == s;
      }
      if Indexed(next.index, s) && s != n {
        var k :| k in next.index && next.index[k].serial == s;
        assert (w.index - {key})[k].serial == s;
      }
    }
    if key in w.index {
      RemoveKeys(w, {key}, s);
      assert s in (set k | k in {key} :: w.index[k].serial) <==> s == w.index[key].serial;
    } else {
      assert w.index - {key} == w.index;
    }
  }

  lemma BeginMatchCopies(w: World, icmp: IcmpArrival, now: nat, s: nat)
    requires IndexFaithful(w)
    ensures Copies(Next(w, BeginMatch(icmp, now)), s) == Copies(w, s)
  {
    if Matched(w.index, icmp.info).Some? {
      var key := QuotedKey(icmp.info);
      RemoveKeys(w, {key}, s);
      assert s in (set k | k in {key} :: w.index[k].serial) <==> s == w.index[key].serial;
      CountAppend(w.matching, EventFor(w.index[key], icmp, now), s);
    }
  }

  lemma EndMatchCopies(w: World, task: nat, s: nat)
    ensures Copies(Next(w, EndMatch(task)), s) == Copies(w, s)
  {
    if task < |w.matching| {
      CountWithout(w.matching, task, s);
      CountAppend(w.queue, w.matching[task], s);
    }
  }

  lemma DrainCopies(w: World, connId: string, s: nat)
    ensures Copies(Next(w, DrainFor(connId)), s) == Copies(w, s)
    ensures Copies(Next(w, DrainAll), s) == Copies(w, s)
  {
    CountSplit(w.queue, connId, s);
    CountDelivered(w.delivered, Some(connId), Filter(w.queue, ForConn(connId)), s);
    CountDelivered(w.delivered, None, w.queue, s);
  }

  lemma StatsCopies(w: World, call: nat, s: nat)
    ensures Copies(Next(w, BeginStats), s) == Copies(w, s)
    ensures Copies(Next(w, PutBack(call)), s) == Copies(w, s)
  {
    HeldAppend(w.held, w.queue, s);
    if call < |w.held| && w.held[call] != [] {
      HeldUpdate(w.held, call, w.held[call][1..], s);
      CountAppend(w.queue, w.held[call][0], s);
    }
  }

  lemma ExpireCopies(w: World, at: nat, s: nat)
    requires IndexFaithful(w)
    ensures Copies(Next(w, Expire(at)), s) == Copies(w, s)
  {
    RemoveKeys(w, Expired(w.index, at), s);
  }

  /** No step makes or loses a packet: only indexing a new one adds, and it adds that one once. */
  lemma StepCopies(w: World, step: Step, s: nat)
    requires IndexFaithful(w)
    ensures Copies(Next(w, step), s)
         == Copies(w, s) + if step.Track? && Admitted(step.info) && s == |w.admitted| then 1 else 0
  {
    match step
    case Track(info) =>
      if Admitted(info) { TrackCopies(w, info, s); }
    case BeginMatch(icmp, now) => BeginMatchCopies(w, icmp, now, s);
    case EndMatch(task) => EndMatchCopies(w, task, s);
    case Expire(at) => ExpireCopies(w, at, s);
    case DrainFor(connId) => DrainCopies(w, connId, s);
    case DrainAll => DrainCopies(w, "", s);
    case BeginStats => StatsCopies(w, 0, s);
    case PutBack(call) => StatsCopies(w, call, s);
  }

  lemma StepFaithful(w: World, step: Step)
    requires IndexFaithful(w)
    ensures IndexFaithful(Next(w, step))
  {
  }

  lemma RunFaithful(w: World, steps: seq<Step>)
    requires IndexFaithful(w)
    ensures IndexFaithful(Run(w, steps))
  {
    forall v, step | IndexFaithful(v) ensures IndexFaithful(Next(v, step)) {
      StepFaithful(v, step);
    }
    RunKeeps(v => IndexFaithful(v), w, steps);
  }

  /** Packet `s` is in exactly one place if it was ever indexed, and in none otherwise. */
  ghost predicate InOnePlace(w: World, s: nat) {
    Copies(w, s) == if s < |w.admitted| then 1 else 0
  }

  lemma StepInOnePlace(w: World, step: Step, s: nat)
    requires IndexFaithful(w) && InOnePlace(w, s)
    ensures InOnePlace(Next(w, step), s)
  {
    StepCopies(w, step, s);
    AdmittedAfter(w, step);
  }

  lemma AdmittedAfter(w: World, step: Step)
    ensures Next(w, step).admitted
         == if step.Track? && Admitted(step.info) then w.admitted + [step.info] else w.admitted
  {
  }

  /**
   In every interleaving, each packet ever indexed is in exactly one place: still indexed, being
   matched, queued, held by a statistics call, delivered, expired, or overwritten by an equal key.
   */
  lemma EveryPacketInExactlyOnePlace(steps: seq<Step>, s: nat)
    ensures Copies(Run(START, steps), s) == if s < |Run(START, steps).admitted| then 1 else 0
  {
    var inv := v => IndexFaithful(v) && InOnePlace(v, s);
    forall v, step | inv(v) ensures inv(Next(v, step)) {
      StepFaithful(v, step);
      StepInOnePlace(v, step, s);
    }
    RunKeeps(inv, START, steps);
  }

  // ---------------------------------------------------------------------------------------
  // How long a packet stays indexed
  // ---------------------------------------------------------------------------------------

  /** The steps that take a packet out of the index: an equal key, an error that quotes it, its deadline. */
  predicate Evicts(step: Step, info: UdpPacketInfo) {
    match step
    case Track(other) => Admitted(other) && KeyOf(other) == KeyOf(info)
    case BeginMatch(icmp, _) => QuotedKey(icmp.info) == KeyOf(info)
    case Expire(at) => info.sentAt + info.sendOptions.trackForMs <= at
    case _ => false
  }

  /** What the index holds under a key after a step: the same packet exactly if the step does not evict it. */
  lemma KeyAfterStep(w: World, step: Step, key: ChecksumKey)
    requires IndexFaithful(w) && key in w.index
    ensures key in Next(w, step).index && Next(w, step).index[key].serial == w.index[key].serial
       <==> !Evicts(step, w.admitted[w.index[key].serial])
  {
    match step
    case Track(_) =>
    case BeginMatch(_, _) =>
    case Expire(_) =>
    case _ =>
  }

  /** An indexed packet leaves the index exactly at a step that evicts it. */
  lemma LeavesIndexExactlyWhenEvicted(w: World, step: Step, s: nat)
    requires IndexFaithful(w) && Indexed(w.index, s)
    ensures s < |Next(w, step).admitted| && Next(w, step).admitted[s] == w.admitted[s]
    ensures Indexed(Next(w, step).index, s) <==> !Evicts(step, w.admitted[s])
  {
    var key :| key in w.index && w.index[key].serial == s;
    AdmittedAfter(w, step);
    StepFaithful(w, step);
    KeyAfterStep(w, step, key);
    OnlyUnderItsKey(w, key, s);
    OnlyUnderItsKey(Next(w, step), key, s);
  }

  lemma OnlyUnderItsKey(w: World, key: ChecksumKey, s: nat)
    requires IndexFaithful(w) && s < |w.admitted| && key == KeyOf(w.admitted[s])
    ensures Indexed(w.index, s) <==> key in w.index && w.index[key].serial == s
  {
  }

  /** Any amount of other traffic leaves the packet indexed. */
  lemma {:induction false} StaysIndexed(w: World, steps: seq<Step>, s: nat)
    requires IndexFaithful(w) && Indexed(w.index, s)
    requires forall i | 0 <= i < |steps| :: !Evicts(steps[i], w.admitted[s])
    ensures IndexFaithful(Run(w, steps)) && Indexed(Run(w, steps).index, s)
    ensures s < |Run(w, steps).admitted| && Run(w, steps).admitted[s] == w.admitted[s]
    decreases |steps|
  {
    if steps != [] {
      LeavesIndexExactlyWhenEvicted(w, steps[0], s);
      StepFaithful(w, steps[0]);
      StaysIndexed(Next(w, steps[0]), steps[1..], s);
    }
  }

  /** No packet yields two events, whoever they are delivered to. */
  lemma NoPacketDeliveredTwice(steps: seq<Step>, i: nat, j: nat)
    requires i < j < |Run(START, steps).delivered|
    ensures var d := Run(START, steps).delivered; d[i].event.serial != d[j].event.serial
  {
    var events := Events(Run(START, steps).delivered);
    EveryPacketInExactlyOnePlace(steps, events[i].serial);
    if events[i].serial == events[j].serial {
      CountTwice(events, i, j);
    }
  }

  lemma CountTwice(a: seq<TrackedPacketEvent>, i: nat, j: nat)
    requires i < j < |a| && a[i].serial == a[j].serial
    ensures Count(a, a[i].serial) >= 2
  {
    CountWithout(a, j, a[i].serial);
    CountWithout(Without(a, j), i, a[i].serial);
  }

  // ---------------------------------------------------------------------------------------
  // Events tell the truth
  // ---------------------------------------------------------------------------------------

  /** The event carries the data of the packet it stands for. */
  ghost predicate Genuine(e: TrackedPacketEvent, admitted: seq<UdpPacketInfo>) {
    && e.serial < |admitted|
    && var p := admitted[e.serial];
    && e.connId == p.connId && e.sendOptions == p.sendOptions && e.cleartext == p.cleartext
    && e.sentAt == p.sentAt && e.originalDestAddr == p.destAddr
    && (e.trackedIpLength == TrackedIpLength(p.udpLength, false) || e.trackedIpLength == TrackedIpLength(p.udpLength, true))
  }

  ghost predicate AllGenuine(events: seq<TrackedPacketEvent>, admitted: seq<UdpPacketInfo>) {
    forall e | e in events :: Genuine(e, admitted)
  }

  ghost predicate Truthful(w: World) {
    && AllGenuine(w.matching, w.admitted)
    && AllGenuine(w.queue, w.admitted)
    && (forall q | q in w.held :: AllGenuine(q, w.admitted))
    && (forall d | d in w.delivered :: Genuine(d.event, w.admitted) && (d.to.Some? ==> d.event.connId == d.to.value))
  }

  lemma FilterGenuine(q: Queue, keep: TrackedPacketEvent -> bool, admitted: seq<UdpPacketInfo>)
    requires AllGenuine(q, admitted)
    ensures AllGenuine(Filter(q, keep), admitted)
    ensures forall e | e in Filter(q, keep) :: keep(e)
  {
    forall e | e in Filter(q, keep) ensures keep(e) && Genuine(e, admitted) {
      FilterMember(q, keep, e);
    }
  }

  lemma DrainForTruthful(w: World, connId: string)
    requires Truthful(w)
    ensures Truthful(Next(w, DrainFor(connId)))
  {
    FilterGenuine(w.queue, ForConn(connId), w.admitted);
    FilterGenuine(w.queue, NotForConn(connId), w.admitted);
    var out := Filter(w.queue, ForConn(connId));
    forall d | d in Deliver(Some(connId), out)
      ensures Genuine(d.event, w.admitted) && d.event.connId == connId
    {
      assert d.event in out;
    }
  }

  lemma DrainAllTruthful(w: World)
    requires Truthful(w)
    ensures Truthful(Next(w, DrainAll))
  {
    forall d | d in Deliver(None, w.queue) ensures Genuine(d.event, w.admitted) {
      assert d.event in w.queue;
    }
  }

  lemma PutBackTruthful(w: World, call: nat)
    requires Truthful(w)
    ensures Truthful(Next(w, PutBack(call)))
  {
    if call < |w.held| && w.held[call] != [] {
      var q := w.held[call];
      assert q in w.held && q[0] in q;
      assert AllGenuine(q[1..], w.admitted);
    }
  }

  lemma StepTruthful(w: World, step: Step)
    requires IndexFaithful(w) && Truthful(w)
    ensures Truthful(Next(w, step))
  {
    match step
    case Track(info) =>
    case BeginMatch(icmp, now) =>
    case EndMatch(task) =>
    case Expire(at) =>
    case DrainFor(connId) => DrainForTruthful(w, connId);
    case DrainAll => DrainAllTruthful(w);
    case BeginStats =>
    case PutBack(call) => PutBackTruthful(w, call);
  }

  lemma RunTruthful(steps: seq<Step>)
    ensures Truthful(Run(START, steps))
  {
    var inv := v => IndexFaithful(v) && Truthful(v);
    forall v, step | inv(v) ensures inv(Next(v, step)) {
      StepFaithful(v, step);
      StepTruthful(v, step);
    }
    RunKeeps(inv, START, steps);
  }

  /** Every delivered event describes a packet that was tracked, and goes to that packet's connection. */
  lemma DeliveriesAreTruthful(steps: seq<Step>, i: nat)
    requires i < |Run(START, steps).delivered|
    ensures var w := Run(START, steps);
            var d := w.delivered[i];
            && Genuine(d.event, w.admitted)
            && (d.to.Some? ==> w.admitted[d.event.serial].connId == d.to.value)
  {
    RunTruthful(steps);
  }
}
