/**
 Starting and finishing traceroute rounds over one connection's control channel. The client counts
 rounds started and rounds done, and while it waits it computes `started - done` in unsigned
 arithmetic. The channel is reliable and ordered until it is closed.
 */
module TracerouteProtocol {
  datatype Kind = Plain | Mtu

  datatype Tally = Tally(plain: nat, mtu: nat) {
    function Of(k: Kind): nat {
      if k == Plain then plain else mtu
    }

    function Plus(k: Kind, n: nat): Tally {
      if k == Plain then Tally(plain + n, mtu) else Tally(plain, mtu + n)
    }

    function Minus1(k: Kind): Tally
      requires Of(k) > 0
    {
      if k == Plain then Tally(plain - 1, mtu) else Tally(plain, mtu - 1)
    }
  }

  /** Control messages; those that take no part in the protocol share the channel. */
  datatype Message = Start(kind: Kind, connId: string) | Completed(kind: Kind, connId: string) | Other

  /** The names the three parties know the connection by. */
  datatype Names = Names(client: string, clientState: string, session: string)

  datatype World = World(
    started: Tally, done: Tally,  // the client's counters
    requests: seq<Message>,       // client to server
    running: Tally,               // rounds in progress on the server
    replies: seq<Message>,        // server to client
    lost: Tally)                  // rounds that can no longer be reported as done

  const NOTHING_STARTED := World(Tally(0, 0), Tally(0, 0), [], Tally(0, 0), [], Tally(0, 0))

  datatype Step =
    | ClientStarts(kind: Kind, sent: bool)    // counts first, then sends; the send may fail
    | ClientSendsOther
    | ServerTakes
    | RoundAborts(kind: Kind)                 // control channel not ready
    | RoundEnds(kind: Kind, sent: bool)
    | ServerSendsOther
    | ClientTakes
    | ChannelCloses

  function InFlight(channel: seq<Message>, k: Kind): nat {
    if channel == [] then 0
    else (if !channel[0].Other? && channel[0].kind == k then 1 else 0) + InFlight(channel[1..], k)
  }

  function Next(names: Names, w: World, step: Step): World {
    match step
    case ClientStarts(k, sent) =>
      var counted := w.(started := w.started.Plus(k, 1));
      if sent then counted.(requests := w.requests + [Start(k, names.client)])
      else counted.(lost := w.lost.Plus(k, 1))
    case ClientSendsOther =>
      w.(requests := w.requests + [Other])
    case ServerTakes =>
      if w.requests == [] then w else
      var rest := w.(requests := w.requests[1..]);
      (match w.requests[0]
       case Start(k, id) =>
         if id != names.session then rest.(lost := w.lost.Plus(k, 1)) else rest.(running := w.running.Plus(k, 1))
       case Completed(k, _) => rest.(lost := w.lost.Plus(k, 1))
       case Other => rest)
    case RoundAborts(k) =>
      if w.running.Of(k) == 0 then w else w.(running := w.running.Minus1(k), lost := w.lost.Plus(k, 1))
    case RoundEnds(k, sent) =>
      if w.running.Of(k) == 0 then w else
      var rest := w.(running := w.running.Minus1(k));
      if sent then rest.(replies := w.replies + [Completed(k, names.session)]) else rest.(lost := w.lost.Plus(k, 1))
    case ServerSendsOther =>
      w.(replies := w.replies + [Other])
    case ClientTakes =>
      if w.replies == [] then w else
      var rest := w.(replies := w.replies[1..]);
      (match w.replies[0]
       case Completed(k, id) =>
         if names.clientState != "" && id != names.clientState then rest.(lost := w.lost.Plus(k, 1))
         else rest.(done := w.done.Plus(k, 1))
       case Start(k, _) => rest.(lost := w.lost.Plus(k, 1))
       case Other => rest)
    case ChannelCloses =>
      w.(requests := [], replies := [],
      lost := w.lost.Plus(Plain, InFlight(w.requests, Plain) + InFlight(w.replies, Plain))
      .Plus(Mtu, InFlight(w.requests, Mtu) + InFlight(w.replies, Mtu)))
  }

  function Run(names: Names, w: World, steps: seq<Step>): World
    decreases |steps|
  {
    if steps == [] then w else Run(names, Next(names, w, steps[0]), steps[1..])
  }

  /** Every started round is done, asked for, running, being reported, or lost. */
  predicate Balanced(w: World, k: Kind) {
    w.started.Of(k)
    == w.done.Of(k) + InFlight(w.requests, k) + w.running.Of(k) + InFlight(w.replies, k) + w.lost.Of(k)
  }

  lemma {:induction false} InFlightAppend(channel: seq<Message>, m: Message, k: Kind)
    ensures InFlight(channel + [m], k) == InFlight(channel, k) + InFlight([m], k)
  {
    if channel == [] {
      assert channel + [m] == [m];
    } else {
      InFlightAppend(channel[1..], m, k);
      assert (channel + [m])[1..] == channel[1..] + [m];
    }
  }

  lemma SendBalances(names: Names, w: World, step: Step, k: Kind)
    requires step.ClientStarts? || step.ClientSendsOther? || step.ServerSendsOther?
    requires Balanced(w, k)
    ensures Balanced(Next(names, w, step), k) && Next(names, w, step).lost.Of(k) >= w.lost.Of(k)
  {
    if step.ClientStarts? {
      InFlightAppend(w.requests, Start(step.kind, names.client), k);
    }
    InFlightAppend(w.requests, Other, k);
    InFlightAppend(w.replies, Other, k);
  }

  lemma AbortBalances(names: Names, w: World, j: Kind, k: Kind)
    requires Balanced(w, k)
    ensures Balanced(Next(names, w, RoundAborts(j)), k) && Next(names, w, RoundAborts(j)).lost.Of(k) >= w.lost.Of(k)
  {
  }

  lemma EndBalances(names: Names, w: World, j: Kind, sent: bool, k: Kind)
    requires Balanced(w, k)
    ensures Balanced(Next(names, w, RoundEnds(j, sent)), k) && Next(names, w, RoundEnds(j, sent)).lost.Of(k) >= w.lost.Of(k)
  {
    InFlightAppend(w.replies, Completed(j, names.session), k);
  }

  lemma ServerTakesBalances(names: Names, w: World, k: Kind)
    requires Balanced(w, k)
    ensures Balanced(Next(names, w, ServerTakes), k) && Next(names, w, ServerTakes).lost.Of(k) >= w.lost.Of(k)
  {
  }

  lemma ClientTakesBalances(names: Names, w: World, k: Kind)
    requires Balanced(w, k)
    ensures Balanced(Next(names, w, ClientTakes), k) && Next(names, w, ClientTakes).lost.Of(k) >= w.lost.Of(k)
  {
  }

  lemma CloseBalances(names: Names, w: World, k: Kind)
    requires Balanced(w, k)
    ensures Balanced(Next(names, w, ChannelCloses), k) && Next(names, w, ChannelCloses).lost.Of(k) >= w.lost.Of(k)
  {
  }

  lemma StepBalances(names: Names, w: World, step: Step, k: Kind)
    requires Balanced(w, k)
    ensures Balanced(Next(names, w, step), k)
    ensures Next(names, w, step).lost.Of(k) >= w.lost.Of(k)
  {
    match step
    case ClientStarts(_, _) => SendBalances(names, w, step, k);
    case ClientSendsOther => SendBalances(names, w, step, k);
    case ServerSendsOther => SendBalances(names, w, step, k);
    case ServerTakes => ServerTakesBalances(names, w, k);
    case ClientTakes => ClientTakesBalances(names, w, k);
    case RoundAborts(j) => AbortBalances(names, w, j, k);
    case RoundEnds(j, sent) => EndBalances(names, w, j, sent, k);
    case ChannelCloses => CloseBalances(names, w, k);
  }

  /** Rounds are never lost track of, and what is lost stays lost. */
  lemma {:induction false} RunBalances(names: Names, w: World, steps: seq<Step>, k: Kind)
    requires Balanced(w, k)
    ensures Balanced(Run(names, w, steps), k)
    ensures Run(names, w, steps).lost.Of(k) >= w.lost.Of(k)
    decreases |steps|
  {
    if steps != [] {
      StepBalances(names, w, steps[0], k);
      RunBalances(names, Next(names, w, steps[0]), steps[1..], k);
    }
  }

  ghost predicate Reachable(names: Names, w: World) {
    exists steps :: w == Run(names, NOTHING_STARTED, steps)
  }

  /** In every reachable state the subtraction is safe, and it counts the rounds not yet reported. */
  lemma SubtractionNeverUnderflows(names: Names, w: World, k: Kind)
    requires Reachable(names, w)
    ensures w.done.Of(k) <= w.started.Of(k)
    ensures w.started.Of(k) - w.done.Of(k)
         == InFlight(w.requests, k) + w.running.Of(k) + InFlight(w.replies, k) + w.lost.Of(k)
  {
    var steps :| w == Run(names, NOTHING_STARTED, steps);
    RunBalances(names, NOTHING_STARTED, steps, k);
  }

  /** No send fails, no round is aborted, and the channel stays open. */
  predicate Healthy(step: Step) {
    match step
    case ClientStarts(_, sent) => sent
    case RoundEnds(_, sent) => sent
    case RoundAborts(_) => false
    case ChannelCloses => false
    case _ => true
  }

  /** Every message in flight names the connection as the parties know it. */
  ghost predicate WellNamed(names: Names, w: World) {
    && (forall i | 0 <= i < |w.requests| :: w.requests[i].Other? || (w.requests[i].Start? && w.requests[i].connId == names.client))
    && (forall i | 0 <= i < |w.replies| :: w.replies[i].Other? || (w.replies[i].Completed? && w.replies[i].connId == names.session))
  }

  lemma StepWellNamed(names: Names, w: World, step: Step)
    requires WellNamed(names, w)
    ensures WellNamed(names, Next(names, w, step))
  {
  }

  /** The parties agree on the connection's name. */
  predicate Agree(names: Names) {
    names.client == names.session && (names.clientState == "" || names.clientState == names.session)
  }

  /** Among parties that agree on the connection's name, nothing is lost without a fault. */
  lemma {:induction false} NothingLostWithoutFault(names: Names, w: World, steps: seq<Step>, k: Kind)
    requires Agree(names) && WellNamed(names, w) && w.lost.Of(k) == 0
    requires forall i | 0 <= i < |steps| :: Healthy(steps[i])
    ensures Run(names, w, steps).lost.Of(k) == 0
    decreases |steps|
  {
    if steps != [] {
      StepWellNamed(names, w, steps[0]);
      NothingLostWithoutFault(names, Next(names, w, steps[0]), steps[1..], k);
    }
  }

  /** No round of this kind is running or being reported. */
  predicate Idle(w: World, k: Kind) {
    w.running.Of(k) == 0 && InFlight(w.replies, k) == 0
  }

  lemma StepStaysIdle(names: Names, w: World, step: Step, k: Kind)
    requires names.client != names.session && WellNamed(names, w) && Idle(w, k)
    ensures Idle(Next(names, w, step), k) && Next(names, w, step).done.Of(k) == w.done.Of(k)
  {
    InFlightAppend(w.replies, Other, k);
    if step.RoundEnds? {
      InFlightAppend(w.replies, Completed(step.kind, names.session), k);
    }
  }

  /** A server that knows the connection by another name never runs a round for it, so none is ever done. */
  lemma {:induction false} WrongNameRunsNothing(names: Names, w: World, steps: seq<Step>, k: Kind)
    requires names.client != names.session && WellNamed(names, w) && Idle(w, k)
    ensures Idle(Run(names, w, steps), k) && Run(names, w, steps).done.Of(k) == w.done.Of(k)
    decreases |steps|
  {
    if steps != [] {
      StepWellNamed(names, w, steps[0]);
      StepStaysIdle(names, w, steps[0], k);
      WrongNameRunsNothing(names, Next(names, w, steps[0]), steps[1..], k);
    }
  }

  /** A round that is lost counts as active for good: the client never sees fewer active rounds again. */
  lemma LostRoundsStayActive(names: Names, w: World, steps: seq<Step>, k: Kind)
    requires Reachable(names, w)
    ensures var later := Run(names, w, steps);
            later.started.Of(k) - later.done.Of(k) >= w.lost.Of(k)
  {
    var before :| w == Run(names, NOTHING_STARTED, before);
    RunBalances(names, NOTHING_STARTED, before, k);
    RunBalances(names, w, steps, k);
  }

  /** In particular one whose request could not be sent, since it is counted before it is sent. */
  lemma UnsentRoundStaysActive(names: Names, w: World, steps: seq<Step>, k: Kind)
    requires Reachable(names, w)
    ensures var tried := Next(names, w, ClientStarts(k, false));
            var later := Run(names, tried, steps);
            && tried.started.Of(k) == w.started.Of(k) + 1 && tried.requests == w.requests
            && later.started.Of(k) - later.done.Of(k) >= w.lost.Of(k) + 1
  {
    var before :| w == Run(names, NOTHING_STARTED, before);
    var tried := Next(names, w, ClientStarts(k, false));
    RunBalances(names, NOTHING_STARTED, before, k);
    StepBalances(names, w, ClientStarts(k, false), k);
    RunBalances(names, tried, steps, k);
  }

  /**
   The client's waiting loop: it reads the counters every 100 ms, up to 11 times, until fewer than
   `limit` rounds are active. `seen` is what successive reads would find.
   */
  method WaitForRounds(names: Names, seen: seq<World>, k: Kind, limit: nat) returns (polls: nat)
    requires |seen| > 10 && forall i | 0 <= i < |seen| :: Reachable(names, seen[i])
    ensures 1 <= polls <= 11
    ensures polls < 11 ==> seen[polls - 1].started.Of(k) < seen[polls - 1].done.Of(k) + limit
    ensures forall i | 0 <= i < polls - 1 :: seen[i].started.Of(k) >= seen[i].done.Of(k) + limit
  {
    polls := 0;
    var count := 10;
    while true
      invariant 0 <= polls == 10 - count <= 10
      invariant forall i | 0 <= i < polls :: seen[i].started.Of(k) >= seen[i].done.Of(k) + limit
      decreases count
    {
      var st := seen[polls];
      polls := polls + 1;
      SubtractionNeverUnderflows(names, st, k);
      var active: nat := st.started.Of(k) - st.done.Of(k);
      if count == 0 || active < limit {
        return;
      }
      count := count - 1;
    }
  }

  // ---------------------------------------------------------------------------------------
  // Progress
  // ---------------------------------------------------------------------------------------

  function OtherKind(k: Kind): Kind {
    if k == Plain then Mtu else Plain
  }

  /** Whether the client takes a report for its own. */
  predicate Accepts(names: Names, id: string) {
    names.clientState == "" || id == names.clientState
  }

  /** A start counts, of its own kind, whether or not the request goes out, which it does last in the channel. */
  lemma ClientStartsExactly(names: Names, w: World, k: Kind, sent: bool)
    ensures var next := Next(names, w, ClientStarts(k, sent));
            && next.started.Of(k) == w.started.Of(k) + 1 && next.started.Of(OtherKind(k)) == w.started.Of(OtherKind(k))
            && next.requests == w.requests + (if sent then [Start(k, names.client)] else [])
            && next.done == w.done && next.running == w.running && next.replies == w.replies
  {
  }

  /** What the client makes of the next reply: an accepted report is one round done, of its own kind, and nothing else is. */
  lemma ClientTakesExactly(names: Names, w: World)
    requires w.replies != []
    ensures var next := Next(names, w, ClientTakes);
            && next.replies == w.replies[1..] && next.requests == w.requests
            && next.started == w.started && next.running == w.running
            && match w.replies[0]
               case Completed(k, id) =>
                 && next.done.Of(OtherKind(k)) == w.done.Of(OtherKind(k)) && next.lost.Of(OtherKind(k)) == w.lost.Of(OtherKind(k))
                 && next.done.Of(k) == w.done.Of(k) + (if Accepts(names, id) then 1 else 0)
                 && next.lost.Of(k) == w.lost.Of(k) + (if Accepts(names, id) then 0 else 1)
               case Start(_, _) => next.done == w.done
               case Other => next.done == w.done && next.lost == w.lost
  {
  }

  /** What the server makes of the next request: a round of that kind for its own connection, none for another. */
  lemma ServerTakesExactly(names: Names, w: World)
    requires w.requests != []
    ensures var next := Next(names, w, ServerTakes);
            && next.requests == w.requests[1..] && next.replies == w.replies
            && next.started == w.started && next.done == w.done
            && match w.requests[0]
               case Start(k, id) =>
                 && next.running.Of(OtherKind(k)) == w.running.Of(OtherKind(k))
                 && next.running.Of(k) == w.running.Of(k) + (if id == names.session then 1 else 0)
               case Completed(_, _) => next.running == w.running
               case Other => next.running == w.running && next.lost == w.lost
  {
  }

  /** A round that ends and is reported: one fewer running, and the report of it last in the channel. */
  lemma RoundEndsExactly(names: Names, w: World, k: Kind)
    requires w.running.Of(k) > 0
    ensures var next := Next(names, w, RoundEnds(k, true));
            && next.running.Of(k) == w.running.Of(k) - 1 && next.running.Of(OtherKind(k)) == w.running.Of(OtherKind(k))
            && next.replies == w.replies + [Completed(k, names.session)]
            && next == w.(running := next.running, replies := next.replies)
  {
  }

  /** A round that is aborted, or whose report cannot be sent, is lost without a report. */
  lemma UnreportedExactly(names: Names, w: World, k: Kind, step: Step)
    requires w.running.Of(k) > 0 && (step == RoundAborts(k) || step == RoundEnds(k, false))
    ensures var next := Next(names, w, step);
            && next.running.Of(k) == w.running.Of(k) - 1 && next.running.Of(OtherKind(k)) == w.running.Of(OtherKind(k))
            && next.lost.Of(k) == w.lost.Of(k) + 1 && next.lost.Of(OtherKind(k)) == w.lost.Of(OtherKind(k))
            && next == w.(running := next.running, lost := next.lost)
  {
  }

  /** Closing the channel loses exactly what is in it. */
  lemma ClosingExactly(names: Names, w: World, k: Kind)
    ensures var next := Next(names, w, ChannelCloses);
            && next.requests == [] && next.replies == []
            && next.lost.Of(k) == w.lost.Of(k) + InFlight(w.requests, k) + InFlight(w.replies, k)
            && next == w.(requests := [], replies := [], lost := next.lost)
  {
  }

  lemma {:induction false} RunConcat(names: Names, w: World, a: seq<Step>, b: seq<Step>)
    ensures Run(names, w, a + b) == Run(names, Run(names, w, a), b)
    decreases |a|
  {
    if a == [] {
      assert a + b == b;
    } else {
      RunConcat(names, Next(names, w, a[0]), a[1..], b);
      assert (a + b)[1..] == a[1..] + b;
    }
  }

  function Times(n: nat, step: Step): (steps: seq<Step>)
    ensures |steps| == n && forall i | 0 <= i < n :: steps[i] == step
  {
    if n == 0 then [] else [step] + Times(n - 1, step)
  }

  lemma RunTimes(names: Names, w: World, n: nat, step: Step)
    requires n > 0
    ensures Run(names, w, Times(n, step)) == Run(names, Next(names, w, step), Times(n - 1, step))
  {
    assert Times(n, step)[1..] == Times(n - 1, step);
  }

  /** Taking every request starts a round for each. */
  lemma {:induction false} ServerTakesAll(names: Names, w: World)
    requires Agree(names) && WellNamed(names, w)
    ensures var done := Run(names, w, Times(|w.requests|, ServerTakes));
            && done == w.(requests := [], running := done.running)
            && forall k :: done.running.Of(k) == w.running.Of(k) + InFlight(w.requests, k)
    decreases |w.requests|
  {
    if w.requests != [] {
      var next := Next(names, w, ServerTakes);
      RunTimes(names, w, |w.requests|, ServerTakes);
      StepWellNamed(names, w, ServerTakes);
      ServerTakesAll(names, next);
    } else {
      assert w.requests == [];
    }
  }

  /** Ending every running round of a kind reports each. */
  lemma {:induction false} AllRoundsEnd(names: Names, w: World, k: Kind, n: nat)
    requires WellNamed(names, w) && w.running.Of(k) == n
    ensures var done := Run(names, w, Times(n, RoundEnds(k, true)));
            && done == w.(running := done.running, replies := done.replies)
            && WellNamed(names, done)
            && done.running.Of(k) == 0 && done.running.Of(OtherKind(k)) == w.running.Of(OtherKind(k))
            && InFlight(done.replies, k) == InFlight(w.replies, k) + n
            && InFlight(done.replies, OtherKind(k)) == InFlight(w.replies, OtherKind(k))
    decreases n
  {
    if n > 0 {
      var next := Next(names, w, RoundEnds(k, true));
      RunTimes(names, w, n, RoundEnds(k, true));
      StepWellNamed(names, w, RoundEnds(k, true));
      InFlightAppend(w.replies, Completed(k, names.session), k);
      InFlightAppend(w.replies, Completed(k, names.session), OtherKind(k));
      AllRoundsEnd(names, next, k, n - 1);
    }
  }

  /** Taking every reply counts each as done. */
  lemma {:induction false} ClientTakesAll(names: Names, w: World)
    requires Agree(names) && WellNamed(names, w)
    ensures var done := Run(names, w, Times(|w.replies|, ClientTakes));
            && done == w.(replies := [], done := done.done)
            && forall k :: done.done.Of(k) == w.done.Of(k) + InFlight(w.replies, k)
    decreases |w.replies|
  {
    if w.replies != [] {
      var next := Next(names, w, ClientTakes);
      RunTimes(names, w, |w.replies|, ClientTakes);
      StepWellNamed(names, w, ClientTakes);
      ClientTakesAll(names, next);
    } else {
      assert w.replies == [];
    }
  }

  /** Taking all requests, ending all rounds, and taking all replies, from `w` on. */
  ghost function SettlingSteps(names: Names, w: World): seq<Step> {
    var takes := Times(|w.requests|, ServerTakes);
    var taken := Run(names, w, takes);
    var plainEnds := Times(taken.running.plain, RoundEnds(Plain, true));
    var plain := Run(names, taken, plainEnds);
    var mtuEnds := Times(plain.running.mtu, RoundEnds(Mtu, true));
    var ended := Run(names, plain, mtuEnds);
    takes + (plainEnds + (mtuEnds + Times(|ended.replies|, ClientTakes)))
  }

  ghost function Settled(names: Names, w: World): World {
    Run(names, w, SettlingSteps(names, w))
  }

  lemma {:induction false} RunWellNamed(names: Names, w: World, steps: seq<Step>)
    requires WellNamed(names, w)
    ensures WellNamed(names, Run(names, w, steps))
    decreases |steps|
  {
    if steps != [] {
      StepWellNamed(names, w, steps[0]);
      RunWellNamed(names, Next(names, w, steps[0]), steps[1..]);
    }
  }

  /**
   Progress: from every reachable state, whatever faults there were, parties that agree on the name and
   go on without one end with both channels empty, nothing running, and every round done but those
   already lost.
   */
  lemma EveryRoundFinishes(names: Names, steps: seq<Step>, k: Kind)
    requires Agree(names)
    ensures var w := Run(names, NOTHING_STARTED, steps);
            var settled := Settled(names, w);
            && settled.requests == [] && settled.replies == [] && settled.running.Of(k) == 0
            && settled.started == w.started && settled.lost == w.lost
            && settled.done.Of(k) + w.lost.Of(k) == w.started.Of(k)
  {
    var w := Run(names, NOTHING_STARTED, steps);
    RunWellNamed(names, NOTHING_STARTED, steps);
    RunBalances(names, NOTHING_STARTED, steps, k);
    SettledCounts(names, w, k);
  }

  lemma SettledCounts(names: Names, w: World, k: Kind)
    requires Agree(names) && WellNamed(names, w)
    ensures var settled := Settled(names, w);
            && settled.requests == [] && settled.replies == [] && settled.running.Of(k) == 0
            && settled.started == w.started && settled.lost == w.lost
            && settled.done.Of(k) == w.done.Of(k) + InFlight(w.requests, k) + w.running.Of(k) + InFlight(w.replies, k)
  {
    var takes := Times(|w.requests|, ServerTakes);
    var taken := Run(names, w, takes);
    ServerTakesAll(names, w);
    assert WellNamed(names, taken);
    var plainEnds := Times(taken.running.plain, RoundEnds(Plain, true));
    var plain := Run(names, taken, plainEnds);
    AllRoundsEnd(names, taken, Plain, taken.running.plain);
    var mtuEnds := Times(plain.running.mtu, RoundEnds(Mtu, true));
    var ended := Run(names, plain, mtuEnds);
    AllRoundsEnd(names, plain, Mtu, plain.running.mtu);
    ClientTakesAll(names, ended);
    var replies := Times(|ended.replies|, ClientTakes);
    RunConcat(names, w, takes, plainEnds + (mtuEnds + replies));
    RunConcat(names, taken, plainEnds, mtuEnds + replies);
    RunConcat(names, plain, mtuEnds, replies);
  }

  /** Without faults, nothing is lost, so every round started is done. */
  lemma HealthyRoundsFinish(names: Names, steps: seq<Step>, k: Kind)
    requires Agree(names) && forall i | 0 <= i < |steps| :: Healthy(steps[i])
    ensures var settled := Settled(names, Run(names, NOTHING_STARTED, steps));
            settled.started.Of(k) == settled.done.Of(k)
  {
    EveryRoundFinishes(names, steps, k);
    NothingLostWithoutFault(names, NOTHING_STARTED, steps, k);
  }

  /** A connection as the client sees it. */
  datatype Connection = Connection(names: Names, world: World, failed: bool)

  function Outstanding(w: World, k: Kind): nat {
    InFlight(w.requests, k) + w.running.Of(k) + InFlight(w.replies, k) + w.lost.Of(k)
  }

  function TotalOutstanding(conns: seq<Connection>, k: Kind): nat {
    if conns == [] then 0 else
    var last := conns[|conns| - 1];
    TotalOutstanding(conns[..|conns| - 1], k) + if last.failed then 0 else Outstanding(last.world, k)
  }

  /** The sum over all connections that have not failed, which ends the MTU phase when it reaches zero. */
  method TotalActive(conns: seq<Connection>, k: Kind) returns (total: nat)
    requires forall i | 0 <= i < |conns| :: Reachable(conns[i].names, conns[i].world)
    ensures total == TotalOutstanding(conns, k)
    ensures total == 0 <==> forall i | 0 <= i < |conns| && !conns[i].failed ::
                              conns[i].world.started.Of(k) == conns[i].world.done.Of(k)
  {
    total := 0;
    for i := 0 to |conns|
      invariant total == TotalOutstanding(conns[..i], k)
      invariant total == 0 <==> forall j | 0 <= j < i && !conns[j].failed ::
                                  conns[j].world.started.Of(k) == conns[j].world.done.Of(k)
    {
      assert conns[..i + 1][..i] == conns[..i];
      var conn := conns[i];
      if !conn.failed {
        SubtractionNeverUnderflows(conn.names, conn.world, k);
        var active: nat := conn.world.started.Of(k) - conn.world.done.Of(k);
        total := total + active;
      }
    }
    assert conns[..|conns|] == conns;
  }
}
