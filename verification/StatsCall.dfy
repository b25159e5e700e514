/**
 The statistics call counts the event queue by draining it and putting the events back, one lock at a
 time. Matches that end meanwhile queue their events too, before, between or after the put-backs.
 */
module StatsCall {
  import opened Bytes
  import opened IcmpParser
  import opened PacketTracker
  import opened TrackerRuns

  /** What may happen while the call is under way: its own put-backs, and anything that takes nothing from the queue. */
  predicate DuringCall(step: Step, call: nat) {
    match step
    case Track(_) => true
    case BeginMatch(_, _) => true
    case EndMatch(_) => true
    case Expire(_) => true
    case PutBack(c) => c == call
    case _ => false
  }

  /** An event queued by a step: put back by the call, or newly arrived. */
  datatype Emission = Emission(event: TrackedPacketEvent, putBack: bool)

  function Emitted(w: World, step: Step): seq<Emission> {
    match step
    case EndMatch(task) => if task < |w.matching| then [Emission(w.matching[task], false)] else []
    case PutBack(call) => if call < |w.held| && w.held[call] != [] then [Emission(w.held[call][0], true)] else []
    case _ => []
  }

  /** What the steps of a schedule queue, in order. */
  function Emissions(w: World, steps: seq<Step>): seq<Emission>
    decreases |steps|
  {
    if steps == [] then [] else Emitted(w, steps[0]) + Emissions(Next(w, steps[0]), steps[1..])
  }

  function Merged(ems: seq<Emission>): Queue {
    if ems == [] then [] else [ems[0].event] + Merged(ems[1..])
  }

  function PutBackEvents(ems: seq<Emission>): Queue {
    if ems == [] then [] else (if ems[0].putBack then [ems[0].event] else []) + PutBackEvents(ems[1..])
  }

  function ArrivedEvents(ems: seq<Emission>): Queue {
    if ems == [] then [] else (if ems[0].putBack then [] else [ems[0].event]) + ArrivedEvents(ems[1..])
  }

  /** No arrival is queued before an event that is still to be put back. */
  predicate PutBackFirst(ems: seq<Emission>) {
    forall i, j | 0 <= i < j < |ems| :: ems[i].putBack || !ems[j].putBack
  }

  lemma OneMore(e: Emission, rest: seq<Emission>)
    ensures Merged([e] + rest) == [e.event] + Merged(rest)
    ensures PutBackEvents([e] + rest) == if e.putBack then [e.event] + PutBackEvents(rest) else PutBackEvents(rest)
    ensures ArrivedEvents([e] + rest) == if e.putBack then ArrivedEvents(rest) else [e.event] + ArrivedEvents(rest)
  {
    assert ([e] + rest)[1..] == rest;
    assert [] + PutBackEvents(rest) == PutBackEvents(rest);
    assert [] + ArrivedEvents(rest) == ArrivedEvents(rest);
  }

  /** A step emits at most one event, which then comes first. */
  lemma EmittedFirst(ems: seq<Emission>, rest: seq<Emission>)
    requires |ems| <= 1
    ensures Merged(ems + rest) == Merged(ems) + Merged(rest)
    ensures PutBackEvents(ems + rest) == PutBackEvents(ems) + PutBackEvents(rest)
  {
    if ems == [] {
      assert ems + rest == rest;
    } else {
      assert ems == [ems[0]] + [];
      OneMore(ems[0], rest);
      OneMore(ems[0], []);
    }
  }

  lemma EmittedQueued(w: World, step: Step, call: nat)
    requires DuringCall(step, call)
    ensures Next(w, step).queue == w.queue + Merged(Emitted(w, step))
  {
    var ems := Emitted(w, step);
    if ems != [] {
      assert ems == [ems[0]] + [];
      OneMore(ems[0], []);
    }
  }

  lemma EmittedReleased(w: World, step: Step, call: nat)
    requires DuringCall(step, call) && call < |w.held|
    ensures |Next(w, step).held| == |w.held|
    ensures w.held[call] == PutBackEvents(Emitted(w, step)) + Next(w, step).held[call]
  {
    var ems := Emitted(w, step);
    if ems != [] {
      assert ems == [ems[0]] + [];
      OneMore(ems[0], []);
    }
  }

  /** The queue grows by what the schedule emits. */
  lemma {:induction false} QueueFollowsSchedule(w: World, steps: seq<Step>, call: nat)
    requires forall i | 0 <= i < |steps| :: DuringCall(steps[i], call)
    ensures Run(w, steps).queue == w.queue + Merged(Emissions(w, steps))
    decreases |steps|
  {
    if steps != [] {
      var step, rest := steps[0], steps[1..];
      EmittedQueued(w, step, call);
      QueueFollowsSchedule(Next(w, step), rest, call);
      EmittedFirst(Emitted(w, step), Emissions(Next(w, step), rest));
      Reassociate(w.queue, Merged(Emitted(w, step)), Merged(Emissions(Next(w, step), rest)));
    }
  }

  lemma Reassociate(a: Queue, b: Queue, c: Queue)
    ensures (a + b) + c == a + (b + c)
  {
  }

  /** What was put back is what the call no longer holds. */
  lemma {:induction false} HeldFollowsSchedule(w: World, steps: seq<Step>, call: nat)
    requires call < |w.held| && forall i | 0 <= i < |steps| :: DuringCall(steps[i], call)
    ensures |Run(w, steps).held| == |w.held|
    ensures w.held[call] == PutBackEvents(Emissions(w, steps)) + Run(w, steps).held[call]
    decreases |steps|
  {
    if steps != [] {
      var step, rest := steps[0], steps[1..];
      EmittedReleased(w, step, call);
      HeldFollowsSchedule(Next(w, step), rest, call);
      EmittedFirst(Emitted(w, step), Emissions(Next(w, step), rest));
      Reassociate(PutBackEvents(Emitted(w, step)), PutBackEvents(Emissions(Next(w, step), rest)), Run(w, steps).held[call]);
    }
  }

  /** Put-backs and arrivals are different events. */
  ghost predicate Apart(ems: seq<Emission>) {
    forall i, j | 0 <= i < |ems| && 0 <= j < |ems| && ems[i].putBack && !ems[j].putBack :: ems[i].event != ems[j].event
  }

  lemma {:induction false} OnlyArrivals(ems: seq<Emission>)
    requires PutBackEvents(ems) == []
    ensures Merged(ems) == ArrivedEvents(ems)
    ensures forall i | 0 <= i < |ems| :: !ems[i].putBack
  {
    if ems != [] {
      OnlyArrivals(ems[1..]);
    }
  }

  lemma {:induction false} SomePutBack(ems: seq<Emission>) returns (j: nat)
    requires PutBackEvents(ems) != []
    ensures j < |ems| && ems[j].putBack && PutBackEvents(ems)[0] == ems[j].event
  {
    if ems[0].putBack {
      j := 0;
    } else {
      var k := SomePutBack(ems[1..]);
      j := k + 1;
    }
  }

  lemma {:induction false} MergeInOrderExactly(ems: seq<Emission>)
    requires Apart(ems)
    ensures Merged(ems) == PutBackEvents(ems) + ArrivedEvents(ems) <==> PutBackFirst(ems)
  {
    if ems != [] {
      var e, rest := ems[0], ems[1..];
      assert ems == [e] + rest;
      OneMore(e, rest);
      if e.putBack {
        assert Apart(rest) by {
          assert forall i | 0 <= i < |rest| :: rest[i] == ems[i + 1];
        }
        MergeInOrderExactly(rest);
        FirstPutBack(e, rest);
        SameHead(e.event, Merged(rest), PutBackEvents(rest), ArrivedEvents(rest));
      } else {
        FirstArrived(ems);
      }
    }
  }

  lemma SameHead(x: TrackedPacketEvent, m: Queue, p: Queue, a: Queue)
    ensures [x] + m == ([x] + p) + a <==> m == p + a
  {
    assert ([x] + p) + a == [x] + (p + a);
    assert ([x] + m)[1..] == m && ([x] + (p + a))[1..] == p + a;
  }

  /** An arrival in front is in order exactly if nothing is put back after it. */
  lemma {:induction false} FirstArrived(ems: seq<Emission>)
    requires Apart(ems) && ems != [] && !ems[0].putBack
    ensures Merged(ems) == PutBackEvents(ems) + ArrivedEvents(ems) <==> PutBackFirst(ems)
  {
    if PutBackEvents(ems) == [] {
      OnlyArrivals(ems);
    } else {
      var j := SomePutBack(ems);
      assert Merged(ems)[0] == ems[0].event != ems[j].event;
      assert (PutBackEvents(ems) + ArrivedEvents(ems))[0] == ems[j].event;
      assert !PutBackFirst(ems);
    }
  }

  lemma FirstPutBack(e: Emission, rest: seq<Emission>)
    requires e.putBack
    ensures PutBackFirst([e] + rest) <==> PutBackFirst(rest)
  {
    var ems := [e] + rest;
    assert forall i | 0 <= i < |rest| :: rest[i] == ems[i + 1];
    if PutBackFirst(rest) {
      forall i, j | 0 <= i < j < |ems| ensures ems[i].putBack || !ems[j].putBack {
        if i > 0 {
          assert rest[i - 1].putBack || !rest[j - 1].putBack;
        }
      }
    }
  }

  lemma {:induction false} MergedAt(ems: seq<Emission>, i: nat)
    requires i < |ems|
    ensures |Merged(ems)| == |ems| && Merged(ems)[i] == ems[i].event
  {
    if |ems| > 1 {
      MergedAt(ems[1..], if i > 0 then i - 1 else 0);
    }
  }

  /** In a reachable state, events queued at different places belong to different packets. */
  lemma QueuedOnce(steps: seq<Step>, i: nat, j: nat)
    requires i < j < |Run(START, steps).queue|
    ensures Run(START, steps).queue[i].serial != Run(START, steps).queue[j].serial
  {
    var queue := Run(START, steps).queue;
    EveryPacketInExactlyOnePlace(steps, queue[i].serial);
    if queue[i].serial == queue[j].serial {
      CountTwice(queue, i, j);
    }
  }

  /**
   Every schedule of a statistics call, from every reachable state: once all is put back, the queue is
   the merge the schedule makes of the old queue, in order, and the arrivals, in order; it is the old
   queue followed by the arrivals, as without the call, exactly when no arrival came before a put-back.
   */
  lemma StatsCallKeepsOrderExactly(before: seq<Step>, steps: seq<Step>)
    requires var w := Run(START, before);
             && (forall i | 0 <= i < |steps| :: DuringCall(steps[i], |w.held|))
             && |Run(Next(w, BeginStats), steps).held| > |w.held|
             && Run(Next(w, BeginStats), steps).held[|w.held|] == []
    ensures var w := Run(START, before);
            var ems := Emissions(Next(w, BeginStats), steps);
            var done := Run(Next(w, BeginStats), steps);
            && done.queue == Merged(ems)
            && PutBackEvents(ems) == w.queue
            && (done.queue == w.queue + ArrivedEvents(ems) <==> PutBackFirst(ems))
  {
    var w := Run(START, before);
    var begun := Next(w, BeginStats);
    var ems, done := Emissions(begun, steps), Run(begun, steps);
    assert begun.held[|w.held|] == w.queue;
    QueueFollowsSchedule(begun, steps, |w.held|);
    HeldFollowsSchedule(begun, steps, |w.held|);
    var whole := before + ([BeginStats] + steps);
    RunConcat(START, before, [BeginStats] + steps);
    assert ([BeginStats] + steps)[1..] == steps;
    assert Run(START, whole) == done;
    forall i, j | 0 <= i < |ems| && 0 <= j < |ems| && ems[i].putBack && !ems[j].putBack
      ensures ems[i].event != ems[j].event
    {
      MergedAt(ems, i);
      MergedAt(ems, j);
      QueuedOnce(whole, if i < j then i else j, if i < j then j else i);
    }
    MergeInOrderExactly(ems);
  }

  // ---------------------------------------------------------------------------------------
  // A run that reorders
  // ---------------------------------------------------------------------------------------

  /** Three probes to one address, told apart by their checksums. */
  function SamplePacket(checksum: u16): UdpPacketInfo {
    UdpPacketInfo(SampleAddress(), None, 9, [0], SendOptions(Some(1), None, None, None, 5000, false, false), 0, "c", checksum)
  }

  function SampleAddress(): SocketAddr {
    SocketAddr(V4([0, 0, 0, 0]), 1)
  }

  function SampleError(checksum: u16): IcmpArrival {
    IcmpArrival([], Error, false, EmbeddedUdpInfo(1, SampleAddress(), 9, [], checksum), None)
  }

  function SampleEvent(serial: nat, checksum: u16): TrackedPacketEvent {
    EventFor(TrackedOf(SamplePacket(checksum), serial), SampleError(checksum), 0)
  }

  /** The probe is tracked and the error quoting it starts its match. */
  function TrackAndMatch(checksum: u16): seq<Step> {
    [Track(SamplePacket(checksum)), BeginMatch(SampleError(checksum), 0)]
  }

  const SAMPLE_BEFORE := TrackAndMatch(1) + TrackAndMatch(2) + TrackAndMatch(3) + [EndMatch(0), EndMatch(0)]

  const SAMPLE_CALL := [PutBack(0), EndMatch(0), PutBack(0)]

  lemma RunOne(w: World, step: Step)
    ensures Run(w, [step]) == Next(w, step)
  {
  }

  lemma RunTwo(w: World, first: Step, second: Step)
    ensures Run(w, [first, second]) == Next(Next(w, first), second)
  {
    assert [first, second] == [first] + [second];
    RunConcat(w, [first], [second]);
    RunOne(w, first);
    RunOne(Next(w, first), second);
  }

  lemma MatchesSample(w: World, checksum: u16)
    requires w.index == map[] && checksum != 0 && w.held == [] && w.queue == []
    ensures var v := Run(w, TrackAndMatch(checksum));
            && v.index == map[] && v.held == [] && v.queue == [] && |v.admitted| == |w.admitted| + 1
            && v.matching == w.matching + [SampleEvent(|w.admitted|, checksum)]
  {
    var p, e := SamplePacket(checksum), SampleError(checksum);
    RunTwo(w, Track(p), BeginMatch(e, 0));
    assert Next(w, Track(p)).index - {KeyOf(p)} == map[];
  }

  lemma SampleMatched()
    ensures var w := Run(START, TrackAndMatch(1) + TrackAndMatch(2) + TrackAndMatch(3));
            w.held == [] && w.queue == [] && w.matching == [SampleEvent(0, 1), SampleEvent(1, 2), SampleEvent(2, 3)]
  {
    RunConcat(START, TrackAndMatch(1), TrackAndMatch(2));
    RunConcat(START, TrackAndMatch(1) + TrackAndMatch(2), TrackAndMatch(3));
    var first := Run(START, TrackAndMatch(1));
    MatchesSample(START, 1);
    MatchesSample(first, 2);
    MatchesSample(Run(first, TrackAndMatch(2)), 3);
  }

  lemma FirstTwoEnd(w: World, a: TrackedPacketEvent, b: TrackedPacketEvent, x: TrackedPacketEvent)
    requires w.held == [] && w.queue == [] && w.matching == [a, b, x]
    ensures var v := Run(w, [EndMatch(0), EndMatch(0)]);
            v.held == [] && v.queue == [a, b] && v.matching == [x]
  {
    RunTwo(w, EndMatch(0), EndMatch(0));
    assert Without([a, b, x], 0) == [b, x] && Without([b, x], 0) == [x];
  }

  lemma ArrivalBetween(w: World, a: TrackedPacketEvent, b: TrackedPacketEvent, x: TrackedPacketEvent)
    requires w.held == [] && w.queue == [a, b] && w.matching == [x]
    ensures Run(Next(w, BeginStats), SAMPLE_CALL).queue == [a, x, b]
  {
    var begun := Next(w, BeginStats);
    var second := Next(begun, PutBack(0));
    assert second.held == [[b]] && second.queue == [a];
    assert SAMPLE_CALL == [PutBack(0)] + [EndMatch(0), PutBack(0)];
    RunConcat(begun, [PutBack(0)], [EndMatch(0), PutBack(0)]);
    RunOne(begun, PutBack(0));
    RunTwo(second, EndMatch(0), PutBack(0));
  }

  /** A concrete run: two events are queued, a third arrives between the put-backs, and ends up between them. */
  lemma StatsCallCanReorder()
    ensures var w := Run(START, SAMPLE_BEFORE);
            var done := Run(Next(w, BeginStats), SAMPLE_CALL);
            && w.queue == [SampleEvent(0, 1), SampleEvent(1, 2)]
            && done.queue == [SampleEvent(0, 1), SampleEvent(2, 3), SampleEvent(1, 2)]
  {
    var a, b, x := SampleEvent(0, 1), SampleEvent(1, 2), SampleEvent(2, 3);
    var matched := TrackAndMatch(1) + TrackAndMatch(2) + TrackAndMatch(3);
    RunConcat(START, matched, [EndMatch(0), EndMatch(0)]);
    SampleMatched();
    FirstTwoEnd(Run(START, matched), a, b, x);
    ArrivalBetween(Run(START, SAMPLE_BEFORE), a, b, x);
  }
}
