/**
 The record of probes the server has sent and expects echoes for: the next sequence number, a deque
 in sending order, and a map from sequence number to probe that makes looking up an echo fast.
 Ordinary probes and traceroute test probes each have one.
 */
module ProbeLedger {
  import opened Bytes
  import opened Windows

  const RETENTION_MS := 60_000

  datatype SentProbe = SentProbe(seqNo: nat, sentAtMs: nat)

  datatype Ledger = Ledger(nextSeq: nat, sent: seq<SentProbe>, bySeq: map<nat, SentProbe>)

  const EMPTY := Ledger(0, [], map[])

  function SentAt(p: SentProbe): nat {
    p.sentAtMs
  }

  function SeqNos(probes: seq<SentProbe>): set<nat> {
    set p | p in probes :: p.seqNo
  }

  function Pushed(l: Ledger, now: nat): Ledger {
    var probe := SentProbe(l.nextSeq, now);
    Ledger(l.nextSeq + 1, l.sent + [probe], l.bySeq[probe.seqNo := probe])
  }

  function Popped(l: Ledger): Ledger
    requires l.sent != []
  {
    l.(sent := l.sent[1..], bySeq := l.bySeq - {l.sent[0].seqNo})
  }

  /** Pops from deque and map while the oldest probe is older than `cutoff`. */
  function PopStale(l: Ledger, cutoff: nat): Ledger
    decreases |l.sent|
  {
    if l.sent != [] && l.sent[0].sentAtMs < cutoff then PopStale(Popped(l), cutoff) else l
  }

  function AfterSend(l: Ledger, now: nat): Ledger {
    PopStale(Pushed(l, now), Cutoff(now, RETENTION_MS))
  }

  /** A clear forgets the probes but keeps counting. */
  function AfterClear(l: Ledger): Ledger {
    l.(sent := [], bySeq := map[])
  }

  /** Issues the next sequence number, records the probe and drops what is older than a minute. */
  method Issue(l: Ledger, now: nat) returns (r: Ledger, seqNo: nat)
    requires now >= RETENTION_MS
    ensures seqNo == l.nextSeq
    ensures r == AfterSend(l, now)
  {
    seqNo := l.nextSeq;
    var probe := SentProbe(seqNo, now);
    var sent := l.sent + [probe];
    var bySeq := l.bySeq[seqNo := probe];
    var cutoff := now - RETENTION_MS;
    while sent != [] && sent[0].sentAtMs < cutoff
      invariant PopStale(Ledger(seqNo + 1, sent, bySeq), cutoff) == AfterSend(l, now)
      decreases |sent|
    {
      var oldest := sent[0];
      sent := sent[1..];
      bySeq := bySeq - {oldest.seqNo};
    }
    r := Ledger(seqNo + 1, sent, bySeq);
  }

  // ---------------------------------------------------------------------------------------
  // Map and deque agree
  // ---------------------------------------------------------------------------------------

  /** Sequence numbers rise along the deque and stay below the next one. */
  ghost predicate Rising(sent: seq<SentProbe>, nextSeq: nat) {
    && (forall i, j | 0 <= i < j < |sent| :: sent[i].seqNo < sent[j].seqNo)
    && (forall i | 0 <= i < |sent| :: sent[i].seqNo < nextSeq)
  }

  /** The map lists exactly the probes in the deque. */
  ghost predicate SameProbes(sent: seq<SentProbe>, bySeq: map<nat, SentProbe>) {
    && (forall i | 0 <= i < |sent| :: sent[i].seqNo in bySeq && bySeq[sent[i].seqNo] == sent[i])
    && (forall k | k in bySeq :: bySeq[k] in sent && bySeq[k].seqNo == k)
  }

  ghost predicate Agrees(l: Ledger) {
    Rising(l.sent, l.nextSeq) && SameProbes(l.sent, l.bySeq)
  }

  datatype LedgerOp = Send(now: nat) | Reset

  function Apply(l: Ledger, op: LedgerOp): Ledger {
    match op
    case Send(now) => AfterSend(l, now)
    case Reset => AfterClear(l)
  }

  function Ran(ops: seq<LedgerOp>): Ledger {
    if ops == [] then EMPTY else Apply(Ran(ops[..|ops| - 1]), ops[|ops| - 1])
  }

  lemma OneMoreLedgerOp(ops: seq<LedgerOp>, op: LedgerOp)
    ensures Ran(ops + [op]) == Apply(Ran(ops), op)
  {
    assert (ops + [op])[..|ops|] == ops;
  }

  lemma PushKeepsAgreement(l: Ledger, now: nat)
    requires Agrees(l)
    ensures Agrees(Pushed(l, now))
  {
  }

  lemma PopRising(sent: seq<SentProbe>, nextSeq: nat)
    requires Rising(sent, nextSeq) && sent != []
    ensures Rising(sent[1..], nextSeq)
    ensures forall i | 0 <= i < |sent[1..]| :: sent[0].seqNo < sent[1..][i].seqNo
  {
    var rest := sent[1..];
    assert forall i | 0 <= i < |rest| :: rest[i] == sent[i + 1];
  }

  lemma PopSameProbes(oldest: SentProbe, rest: seq<SentProbe>, bySeq: map<nat, SentProbe>)
    requires SameProbes([oldest] + rest, bySeq)
    requires forall i | 0 <= i < |rest| :: oldest.seqNo < rest[i].seqNo
    ensures SameProbes(rest, bySeq - {oldest.seqNo})
  {
    var sent := [oldest] + rest;
    forall i | 0 <= i < |rest| ensures rest[i].seqNo in bySeq && bySeq[rest[i].seqNo] == rest[i] {
      assert sent[i + 1] == rest[i];
    }
    forall k | k in bySeq && k != oldest.seqNo ensures bySeq[k] in rest {
      assert bySeq[k] in sent && bySeq[k] != oldest;
    }
  }

  lemma PopKeepsAgreement(l: Ledger)
    requires Agrees(l) && l.sent != []
    ensures Agrees(Popped(l))
  {
    PopRising(l.sent, l.nextSeq);
    assert [l.sent[0]] + l.sent[1..] == l.sent;
    PopSameProbes(l.sent[0], l.sent[1..], l.bySeq);
  }

  lemma {:induction false} PopStaleKeepsAgreement(l: Ledger, cutoff: nat)
    requires Agrees(l)
    ensures Agrees(PopStale(l, cutoff))
    decreases |l.sent|
  {
    if l.sent != [] && l.sent[0].sentAtMs < cutoff {
      PopKeepsAgreement(l);
      PopStaleKeepsAgreement(Popped(l), cutoff);
    }
  }

  lemma {:induction false} PopStalePrunes(l: Ledger, cutoff: nat)
    ensures PopStale(l, cutoff).sent == Pruned(l.sent, SentAt, cutoff)
    decreases |l.sent|
  {
    if l.sent != [] && l.sent[0].sentAtMs < cutoff {
      PopStalePrunes(Popped(l), cutoff);
    }
  }

  /** Any interleaving of sends and clears, at any clock readings, keeps map and deque in agreement. */
  lemma {:induction false} AlwaysAgrees(ops: seq<LedgerOp>)
    ensures Agrees(Ran(ops))
  {
    if ops != [] {
      AlwaysAgrees(ops[..|ops| - 1]);
      if ops[|ops| - 1].Send? {
        var l, now := Ran(ops[..|ops| - 1]), ops[|ops| - 1].now;
        PushKeepsAgreement(l, now);
        PopStaleKeepsAgreement(Pushed(l, now), Cutoff(now, RETENTION_MS));
      }
    }
  }

  /** Linear search, which the map lookup replaces. */
  function Search(probes: seq<SentProbe>, seqNo: nat): Option<SentProbe> {
    if probes == [] then None
    else if probes[0].seqNo == seqNo then Some(probes[0])
    else Search(probes[1..], seqNo)
  }

  function Lookup(l: Ledger, seqNo: nat): Option<SentProbe> {
    if seqNo in l.bySeq then Some(l.bySeq[seqNo]) else None
  }

  lemma {:induction false} SearchFinds(probes: seq<SentProbe>, seqNo: nat)
    ensures Search(probes, seqNo).Some? <==> seqNo in SeqNos(probes)
    ensures Search(probes, seqNo).Some? ==> Search(probes, seqNo).value in probes && Search(probes, seqNo).value.seqNo == seqNo
  {
    if probes != [] {
      SearchFinds(probes[1..], seqNo);
      assert probes == [probes[0]] + probes[1..];
      assert SeqNos(probes) == {probes[0].seqNo} + SeqNos(probes[1..]);
    }
  }

  /** In every reachable state, looking an echo up in the map is searching the deque for it. */
  lemma LookupIsSearch(ops: seq<LedgerOp>, seqNo: nat)
    ensures Lookup(Ran(ops), seqNo) == Search(Ran(ops).sent, seqNo)
  {
    AlwaysAgrees(ops);
    SearchFinds(Ran(ops).sent, seqNo);
  }

  // ---------------------------------------------------------------------------------------
  // Which echoes are recognised
  // ---------------------------------------------------------------------------------------

  /** The same run seen as arrivals at a deque. */
  function Arrivals(ops: seq<LedgerOp>): seq<Op<SentProbe>> {
    if ops == [] then [] else
    var prev := ops[..|ops| - 1];
    Arrivals(prev) + [match ops[|ops| - 1] case Send(now) => Arrive(SentProbe(Ran(prev).nextSeq, now), now) case Reset => Clear]
  }

  lemma AfterSendSent(ops: seq<LedgerOp>, now: nat)
    ensures AfterSend(Ran(ops), now).sent
         == Pruned(Ran(ops).sent + [SentProbe(Ran(ops).nextSeq, now)], SentAt, Cutoff(now, RETENTION_MS))
  {
    PopStalePrunes(Pushed(Ran(ops), now), Cutoff(now, RETENTION_MS));
  }

  lemma {:induction false} ArrivalsMatch(ops: seq<LedgerOp>)
    ensures |Arrivals(ops)| == |ops|
    ensures forall i | 0 <= i < |ops| ::
              if ops[i].Reset? then Arrivals(ops)[i].Clear?
              else Arrivals(ops)[i].Arrive? && Arrivals(ops)[i].now == ops[i].now == Arrivals(ops)[i].item.sentAtMs
  {
    if ops != [] {
      ArrivalsMatch(ops[..|ops| - 1]);
    }
  }

  lemma {:induction false} LedgerIsDeque(ops: seq<LedgerOp>)
    ensures Ran(ops).sent == Deque(Arrivals(ops), SentAt, RETENTION_MS)
  {
    if ops != [] {
      var prev := ops[..|ops| - 1];
      LedgerIsDeque(prev);
      ArrivalsMatch(prev);
      var a := Arrivals(ops);
      assert a[..|a| - 1] == Arrivals(prev);
      if ops[|ops| - 1].Send? {
        AfterSendSent(prev, ops[|ops| - 1].now);
      }
    }
  }

  /** Every probe sent since the last clear. */
  function SentSinceClear(ops: seq<LedgerOp>): seq<SentProbe> {
    History(Arrivals(ops))
  }

  /** Sends at clock readings that do not go back, with clears anywhere between. */
  ghost predicate SendsForward(ops: seq<LedgerOp>) {
    forall i, j | 0 <= i < j < |ops| && ops[i].Send? && ops[j].Send? :: ops[i].now <= ops[j].now
  }

  /** When the last probe was sent; zero if none was. */
  function LastSend(ops: seq<LedgerOp>): nat {
    if ops == [] then 0 else
    match ops[|ops| - 1]
    case Send(now) => now
    case Reset => LastSend(ops[..|ops| - 1])
  }

  /**
   With a clock that does not go back, after any sends and clears, an echo is recognised exactly when
   its probe was sent since the last clear and no more than a minute before the last send. How late
   the echo itself comes does not matter: nothing is dropped between sends.
   */
  lemma EchoRecognisedExactly(ops: seq<LedgerOp>, seqNo: nat)
    requires SendsForward(ops)
    ensures Lookup(Ran(ops), seqNo).Some?
       <==> exists p | p in SentSinceClear(ops) ::
              p.seqNo == seqNo && p.sentAtMs + 60_000 >= LastSend(ops)
  {
    var sent := SentSinceClear(ops);
    var within := Fresh(SentAt, Cutoff(LastSend(ops), RETENTION_MS));
    RecentProbes(ops);
    AlwaysAgrees(ops);
    if seqNo in Ran(ops).bySeq {
      FilterMember(sent, within, Ran(ops).bySeq[seqNo]);
    }
    forall p | p in sent && p.seqNo == seqNo && within(p)
      ensures seqNo in Ran(ops).bySeq
    {
      FilterMember(sent, within, p);
      assert p in Ran(ops).sent;
    }
  }

  lemma RecentProbes(ops: seq<LedgerOp>)
    requires SendsForward(ops)
    ensures Ran(ops).sent == Filter(SentSinceClear(ops), Fresh(SentAt, Cutoff(LastSend(ops), RETENTION_MS)))
  {
    ArrivalsMatch(ops);
    if ops != [] && ops[|ops| - 1].Send? {
      LedgerIsDeque(ops);
      assert ClockForward(Arrivals(ops), SentAt);
      DequeIsRecentHistory(Arrivals(ops), SentAt, RETENTION_MS);
    } else {
      assert SentSinceClear(ops) == [];
    }
  }
}
