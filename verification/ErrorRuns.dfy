/**
 From the packet tracker to the sessions: the errors that match no packet go to the callback that
 counts bursts. Once an error has taken its packet out of the index, every repeat of it is such an
 error and is charged.
 */
module ErrorRuns {
  import opened Bytes
  import opened IcmpParser
  import opened PacketTracker
  import opened TrackerRuns
  import opened ErrorBurst

  /** What a step of the tracker hands to the callback. */
  function Reported(w: World, step: Step): seq<UnmatchedError> {
    if step.BeginMatch? && step.icmp.class_ == Error && Matched(w.index, step.icmp.info).None?
    then [UnmatchedError(step.icmp.info.destAddr, step.now)] else []
  }

  function ReportedBy(w: World, steps: seq<Step>): seq<UnmatchedError> {
    if steps == [] then [] else
    var prev := steps[..|steps| - 1];
    ReportedBy(w, prev) + Reported(Run(w, prev), steps[|steps| - 1])
  }

  function Dests(errors: seq<UnmatchedError>): seq<SocketAddr> {
    seq(|errors|, i requires 0 <= i < |errors| => errors[i].dest)
  }

  function QuotedDests(infos: seq<EmbeddedUdpInfo>): seq<SocketAddr> {
    seq(|infos|, i requires 0 <= i < |infos| => infos[i].destAddr)
  }

  lemma RunLast(w: World, steps: seq<Step>)
    requires steps != []
    ensures Run(w, steps) == Next(Run(w, steps[..|steps| - 1]), steps[|steps| - 1])
  {
    var prev, last := steps[..|steps| - 1], steps[|steps| - 1];
    assert steps == prev + [last];
    RunConcat(w, prev, [last]);
    assert [last][1..] == [];
  }

  lemma StepRecords(w: World, step: Step)
    ensures QuotedDests(Next(w, step).unmatched) == QuotedDests(w.unmatched) + Dests(Reported(w, step))
  {
  }

  /** The record of callback calls lists the destinations of the errors reported, in order. */
  lemma {:induction false} RecordIsReported(w: World, steps: seq<Step>)
    ensures QuotedDests(Run(w, steps).unmatched) == QuotedDests(w.unmatched) + Dests(ReportedBy(w, steps))
  {
    if steps != [] {
      var prev, last := steps[..|steps| - 1], steps[|steps| - 1];
      RecordIsReported(w, prev);
      RunLast(w, steps);
      StepRecords(Run(w, prev), last);
      assert Dests(ReportedBy(w, prev) + Reported(Run(w, prev), last))
          == Dests(ReportedBy(w, prev)) + Dests(Reported(Run(w, prev), last));
    }
  }

  /** The table of sessions through a run of the callback on these errors. */
  ghost predicate Handles(states: seq<Sessions>, errors: seq<UnmatchedError>) {
    |states| == |errors| + 1 && forall i | 0 <= i < |errors| :: CallbackStep(states[i], states[i + 1], errors[i])
  }

  /**
   Tracker and callback together, over every run of the tracker: a session alone at its peer address
   is gone exactly when five errors in a row that quoted the address and matched no packet came less
   than a second apart.
   */
  lemma SessionEndsExactly(steps: seq<Step>, states: seq<Sessions>, id: string, dest: SocketAddr)
    requires Handles(states, ReportedBy(START, steps))
    requires AloneAt(states[0], id, dest) && states[0][id].lastError.None?
    ensures Explained(states[|states| - 1], id, states[0][id], TimesTo(ReportedBy(START, steps), dest))
  {
    CallbackCountsBursts(states, ReportedBy(START, steps), id, dest);
  }

  predicate Tracks(step: Step, key: ChecksumKey) {
    step.Track? && Admitted(step.info) && KeyOf(step.info) == key
  }

  /** A key that is not indexed stays so until a packet with it is tracked. */
  lemma {:induction false} StaysAbsent(w: World, steps: seq<Step>, key: ChecksumKey)
    requires key !in w.index && forall i | 0 <= i < |steps| :: !Tracks(steps[i], key)
    ensures key !in Run(w, steps).index
    decreases |steps|
  {
    if steps != [] {
      StaysAbsent(Next(w, steps[0]), steps[1..], key);
    }
  }

  /** An error about an absent key is reported each time it comes. */
  predicate Repeats(step: Step, key: ChecksumKey) {
    step.BeginMatch? && step.icmp.class_ == Error && QuotedKey(step.icmp.info) == key
  }

  lemma RepeatIsReported(w: World, steps: seq<Step>, key: ChecksumKey, step: Step)
    requires key !in w.index && forall i | 0 <= i < |steps| :: !Tracks(steps[i], key)
    requires Repeats(step, key)
    ensures Reported(Run(w, steps), step) == [UnmatchedError(key.destAddr, step.now)]
  {
    StaysAbsent(w, steps, key);
  }

  function RepeatTimes(steps: seq<Step>, key: ChecksumKey): seq<nat> {
    if steps == [] then [] else
    var last := steps[|steps| - 1];
    RepeatTimes(steps[..|steps| - 1], key) + if Repeats(last, key) then [last.now] else []
  }

  /** The errors that quote this address quote this packet. */
  predicate OnlyAbout(step: Step, key: ChecksumKey) {
    step.BeginMatch? && step.icmp.class_ == Error && step.icmp.info.destAddr == key.destAddr ==> Repeats(step, key)
  }

  lemma OneMoreTime(errors: seq<UnmatchedError>, more: seq<UnmatchedError>, dest: SocketAddr)
    requires |more| <= 1
    ensures TimesTo(errors + more, dest)
         == TimesTo(errors, dest) + if more != [] && more[0].dest == dest then [more[0].now] else []
  {
    if more == [] {
      assert errors + more == errors;
    } else {
      assert (errors + more)[..|errors|] == errors && (errors + more)[|errors|] == more[0];
    }
  }

  lemma {:induction false} RepeatsAreCharged(w: World, steps: seq<Step>, key: ChecksumKey)
    requires key !in w.index
    requires forall i | 0 <= i < |steps| :: !Tracks(steps[i], key) && OnlyAbout(steps[i], key)
    ensures TimesTo(ReportedBy(w, steps), key.destAddr) == RepeatTimes(steps, key)
  {
    if steps != [] {
      var prev, last := steps[..|steps| - 1], steps[|steps| - 1];
      RepeatsAreCharged(w, prev, key);
      OneMoreTime(ReportedBy(w, prev), Reported(Run(w, prev), last), key.destAddr);
      if Repeats(last, key) {
        RepeatIsReported(w, prev, key, last);
      }
    }
  }

  /**
   A probe's error matches once: in every reachable state, after an error has taken its packet, any
   traffic that tracks no equal key leaves each repeat of the error unmatched, and the session at that
   address, if it had no errors and only this packet is complained about, is gone exactly when five
   repeats came in a burst.
   */
  lemma RepeatedErrorEndsTheSession(before: seq<Step>, icmp: IcmpArrival, now: nat, steps: seq<Step>,
                                    states: seq<Sessions>, id: string)
    requires Matched(Run(START, before).index, icmp.info).Some?
    requires var key := QuotedKey(icmp.info);
             && (forall i | 0 <= i < |steps| :: !Tracks(steps[i], key) && OnlyAbout(steps[i], key))
             && var w := Next(Run(START, before), BeginMatch(icmp, now));
             && Handles(states, ReportedBy(w, steps))
             && AloneAt(states[0], id, key.destAddr) && states[0][id].lastError.None?
    ensures Explained(states[|states| - 1], id, states[0][id], RepeatTimes(steps, QuotedKey(icmp.info)))
  {
    var key, w := QuotedKey(icmp.info), Next(Run(START, before), BeginMatch(icmp, now));
    RepeatsAreCharged(w, steps, key);
    CallbackCountsBursts(states, ReportedBy(w, steps), id, key.destAddr);
  }
}
