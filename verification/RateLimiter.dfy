/**
 The bandwidth-limited senders of the iperf3 server. A sender sends blocks in a loop; when a second
 has passed since its last window began it begins a new one, and within a window it stops once the
 window's bytes reach the limit. What it reads from its surroundings on each turn of the loop is an
 input.
 */
module RateLimiter {
  import opened Bytes

  const SECOND := 1_000_000_000  // nanoseconds
  const DEFAULT_UDP_BLKSIZE := 8192
  const DEFAULT_UDP_BANDWIDTH_BPS := 1_000_000

  /** One turn: the cancel flag, the clock at each point it is read, and the result of a send. */
  datatype Turn = Turn(cancelled: bool, atCheck: nat, atElapsed: nat, atReset: nat, sent: Option<nat>, atSent: nat)

  /** Bytes per second of a TCP sender; a bandwidth of zero means no limit. */
  function TcpLimit(bandwidth: nat): Option<nat> {
    if bandwidth > 0 then Some(bandwidth / 8) else None
  }

  function UdpLimit(bandwidth: nat): Option<nat> {
    Some(if bandwidth > 0 then bandwidth / 8 else DEFAULT_UDP_BANDWIDTH_BPS / 8)
  }

  function UdpBlock(blksize: nat): nat {
    if blksize > 0 then blksize else DEFAULT_UDP_BLKSIZE
  }

  /** The clock does not go back, and a send reports no more than a block. */
  ghost predicate Plausible(turns: seq<Turn>, start: nat, blksize: nat) {
    && (forall i | 0 <= i < |turns| ::
          && turns[i].atCheck <= turns[i].atElapsed <= turns[i].atReset <= turns[i].atSent
          && start <= turns[i].atCheck
          && (turns[i].sent.Some? ==> turns[i].sent.value <= blksize))
    && (forall i, j | 0 <= i < j < |turns| :: turns[i].atSent <= turns[j].atCheck)
  }

  /** The most one window can carry: the limit is checked before a block, not after. */
  function PerWindow(limit: nat, blksize: nat): nat {
    if limit == 0 then blksize else limit - 1 + blksize
  }

  function Now(turns: seq<Turn>, start: nat): nat {
    if turns == [] then start else turns[|turns| - 1].atSent
  }

  /** The most that `n` windows can carry. */
  function Budget(n: nat, cap: nat): nat {
    if n == 0 then 0 else Budget(n - 1, cap) + cap
  }

  lemma {:induction false} BudgetIsProduct(n: nat, cap: nat)
    ensures Budget(n, cap) == n * cap
  {
    if n > 0 {
      BudgetIsProduct(n - 1, cap);
      assert n * cap == (n - 1) * cap + cap;
    }
  }

  lemma {:induction false} BudgetGrows(m: nat, n: nat, cap: nat)
    requires m <= n
    ensures Budget(m, cap) <= Budget(n, cap)
  {
    if m < n {
      BudgetGrows(m, n - 1, cap);
    }
  }

  lemma WindowsStarted(windows: nat, lastStart: int, start: nat, now: nat)
    requires windows >= 1 && start + (windows - 1) * SECOND <= lastStart <= now
    ensures windows <= (now - start) / SECOND + 1
  {
  }

  // ---------------------------------------------------------------------------------------
  // Which turns send
  // ---------------------------------------------------------------------------------------

  /** What happened on the turns before the sender stopped: whether each sent, and the window it fell into. */
  datatype Outcome = Outcome(did: bool, windowBegan: nat, windowFirst: nat)

  function SentBy(turns: seq<Turn>, log: seq<Outcome>, n: nat): nat
    requires n <= |log| <= |turns|
  {
    if n == 0 then 0 else
    SentBy(turns, log, n - 1) + if log[n - 1].did && turns[n - 1].sent.Some? then turns[n - 1].sent.value else 0
  }

  function Began(log: seq<Outcome>, start: nat, i: nat): nat
    requires i <= |log|
  {
    if i == 0 then start else log[i - 1].windowBegan
  }

  function First(log: seq<Outcome>, i: nat): nat
    requires i <= |log|
  {
    if i == 0 then 0 else log[i - 1].windowFirst
  }

  /** A limited sender begins a new window on a turn that comes a second or more after the last began. */
  predicate Opens(limit: Option<nat>, start: nat, turns: seq<Turn>, log: seq<Outcome>, i: nat)
    requires i <= |log| && i < |turns|
  {
    limit.Some? && turns[i].atElapsed - Began(log, start, i) >= 1_000_000_000
  }

  /**
   Turn `i` is skipped exactly if the sender is limited, its window began less than a second ago, and
   the turns since the window's first have sent as much as the limit.
   */
  ghost predicate Explained(limit: Option<nat>, start: nat, turns: seq<Turn>, log: seq<Outcome>, i: nat)
    requires i < |log| <= |turns|
  {
    var opens := Opens(limit, start, turns, log, i);
    && log[i].windowBegan == (if opens then turns[i].atReset else Began(log, start, i))
    && log[i].windowFirst == (if opens then i else First(log, i))
    && log[i].windowFirst <= i
    && (!log[i].did <==>
        && limit.Some? && !opens
        && SentBy(turns, log, i) - SentBy(turns, log, log[i].windowFirst) >= limit.value)
  }

  /** A turn on which the sender looks at its limit at all. */
  predicate Goes(turn: Turn, deadline: nat) {
    !turn.cancelled && turn.atCheck <= deadline
  }

  /** The sender went on at turn `i`, and the log explains what it did. */
  ghost predicate Accounted(limit: Option<nat>, start: nat, deadline: nat, turns: seq<Turn>, log: seq<Outcome>, i: nat)
    requires i < |log| <= |turns|
  {
    Goes(turns[i], deadline) && (log[i].did ==> turns[i].sent.Some?) && Explained(limit, start, turns, log, i)
  }

  /** The log explains every turn it covers. */
  ghost predicate SoFar(limit: Option<nat>, start: nat, deadline: nat, turns: seq<Turn>, log: seq<Outcome>) {
    && |log| <= |turns|
    && forall i | 0 <= i < |log| :: Accounted(limit, start, deadline, turns, log, i)
  }

  /** The turn after those covered is not one to be skipped. */
  predicate Due(limit: Option<nat>, start: nat, turns: seq<Turn>, log: seq<Outcome>)
    requires |log| < |turns|
  {
    || limit.None? || Opens(limit, start, turns, log, |log|)
    || (First(log, |log|) <= |log| && SentBy(turns, log, |log|) - SentBy(turns, log, First(log, |log|)) < limit.value)
  }

  /** It covers every turn up to the one on which the sender stopped, if it did: told to, late, or failing to send. */
  ghost predicate Complete(limit: Option<nat>, start: nat, deadline: nat, turns: seq<Turn>, log: seq<Outcome>) {
    && SoFar(limit, start, deadline, turns, log)
    && (|log| < |turns| ==>
          !Goes(turns[|log|], deadline) || (turns[|log|].sent.None? && Due(limit, start, turns, log)))
  }

  lemma {:induction false} SentByPrefix(turns: seq<Turn>, log: seq<Outcome>, more: Outcome, n: nat)
    requires n <= |log| < |turns|
    ensures SentBy(turns, log + [more], n) == SentBy(turns, log, n)
  {
    if n > 0 {
      SentByPrefix(turns, log, more, n - 1);
    }
  }

  lemma ExplainedStays(limit: Option<nat>, start: nat, turns: seq<Turn>, log: seq<Outcome>, more: Outcome, i: nat)
    requires i < |log| < |turns| && Explained(limit, start, turns, log, i)
    ensures Explained(limit, start, turns, log + [more], i)
  {
    SentByPrefix(turns, log, more, i);
    SentByPrefix(turns, log, more, log[i].windowFirst);
  }

  lemma LogGrows(limit: Option<nat>, start: nat, deadline: nat, turns: seq<Turn>, log: seq<Outcome>, more: Outcome)
    requires |log| < |turns| && SoFar(limit, start, deadline, turns, log)
    requires Goes(turns[|log|], deadline) && (more.did ==> turns[|log|].sent.Some?)
    requires Explained(limit, start, turns, log + [more], |log|)
    ensures SoFar(limit, start, deadline, turns, log + [more])
  {
    var grown := log + [more];
    forall i | 0 <= i < |grown| ensures Accounted(limit, start, deadline, turns, grown, i) {
      if i < |log| {
        assert Accounted(limit, start, deadline, turns, log, i);
        ExplainedStays(limit, start, turns, log, more, i);
      }
    }
  }

  /** What all of the turns could send. */
  function Offered(turns: seq<Turn>, a: nat, b: nat): nat
    requires a <= b <= |turns|
  {
    if a == b then 0 else Offered(turns, a, b - 1) + if turns[b - 1].sent.Some? then turns[b - 1].sent.value else 0
  }

  lemma {:induction false} SentByGrows(turns: seq<Turn>, log: seq<Outcome>, a: nat, b: nat)
    requires a <= b <= |log| <= |turns|
    ensures SentBy(turns, log, a) <= SentBy(turns, log, b)
  {
    if a < b {
      SentByGrows(turns, log, a, b - 1);
    }
  }

  lemma {:induction false} AllSent(turns: seq<Turn>, log: seq<Outcome>, a: nat, b: nat)
    requires a <= b <= |log| <= |turns| && forall i | a <= i < b :: log[i].did
    ensures SentBy(turns, log, b) - SentBy(turns, log, a) == Offered(turns, a, b)
  {
    if a < b {
      AllSent(turns, log, a, b - 1);
    }
  }

  /**
   Within one window, from its first turn on, a sender sends everything it can until it has sent as much
   as the limit: at least the smaller of the two.
   */
  lemma WindowIsFilled(limit: nat, start: nat, deadline: nat, turns: seq<Turn>, log: seq<Outcome>, a: nat, b: nat)
    requires Complete(Some(limit), start, deadline, turns, log) && a <= b <= |log|
    requires forall i | a <= i < b :: log[i].windowFirst == a
    ensures SentBy(turns, log, b) - SentBy(turns, log, a)
         >= (if limit <= Offered(turns, a, b) then limit else Offered(turns, a, b))
  {
    if i :| a <= i < b && !log[i].did {
      assert Accounted(Some(limit), start, deadline, turns, log, i);
      SentByGrows(turns, log, i, b);
    } else {
      AllSent(turns, log, a, b);
    }
  }

  /** The first turn on which the sender is told to stop, is late, or would fail to send. */
  function FirstStop(turns: seq<Turn>, deadline: nat): nat {
    if turns == [] || !Goes(turns[0], deadline) || turns[0].sent.None? then 0 else 1 + FirstStop(turns[1..], deadline)
  }

  lemma {:induction false} FirstStopBounds(turns: seq<Turn>, deadline: nat)
    ensures FirstStop(turns, deadline) <= |turns|
    ensures forall i | 0 <= i < FirstStop(turns, deadline) :: Goes(turns[i], deadline) && turns[i].sent.Some?
    ensures FirstStop(turns, deadline) < |turns| ==>
              var turn := turns[FirstStop(turns, deadline)]; !Goes(turn, deadline) || turn.sent.None?
  {
    if turns != [] && Goes(turns[0], deadline) && turns[0].sent.Some? {
      FirstStopBounds(turns[1..], deadline);
      assert forall i | 1 <= i < |turns| :: turns[i] == turns[1..][i - 1];
    }
  }

  /** Until then the sender goes on. */
  lemma NoStopBefore(limit: Option<nat>, start: nat, deadline: nat, turns: seq<Turn>, log: seq<Outcome>)
    requires Complete(limit, start, deadline, turns, log)
    ensures FirstStop(turns, deadline) <= |turns| && |log| >= FirstStop(turns, deadline)
  {
    FirstStopBounds(turns, deadline);
  }

  /** Without a limit every turn sends, up to the first stop. */
  lemma UnlimitedSendsAll(start: nat, deadline: nat, turns: seq<Turn>, log: seq<Outcome>)
    requires Complete(None, start, deadline, turns, log)
    ensures FirstStop(turns, deadline) <= |turns|
    ensures |log| == FirstStop(turns, deadline)
    ensures SentBy(turns, log, |log|) == Offered(turns, 0, FirstStop(turns, deadline))
  {
    NoStopBefore(None, start, deadline, turns, log);
    FirstStopBounds(turns, deadline);
    forall i | 0 <= i < |log| ensures log[i].did && Goes(turns[i], deadline) && turns[i].sent.Some? {
      assert Accounted(None, start, deadline, turns, log, i);
    }
    AllSent(turns, log, 0, |log|);
  }

  /** Turns within a second of the start. */
  ghost predicate FirstSecond(turns: seq<Turn>, start: nat, n: nat) {
    n <= |turns| && forall i | 0 <= i < n :: turns[i].atElapsed < start + 1_000_000_000
  }

  lemma {:induction false} OneWindow(limit: nat, start: nat, deadline: nat, turns: seq<Turn>, log: seq<Outcome>, n: nat)
    requires Complete(Some(limit), start, deadline, turns, log) && n <= |log| && FirstSecond(turns, start, n)
    ensures forall i | 0 <= i < n :: log[i].windowFirst == 0 && log[i].windowBegan == start
  {
    if n > 0 {
      OneWindow(limit, start, deadline, turns, log, n - 1);
      assert Accounted(Some(limit), start, deadline, turns, log, n - 1);
    }
  }

  /** Within a second of its start, a limited sender sends what it can, or as much as the limit. */
  lemma FirstSecondIsFilled(limit: nat, start: nat, deadline: nat, turns: seq<Turn>, log: seq<Outcome>, n: nat)
    requires Complete(Some(limit), start, deadline, turns, log)
    requires n <= FirstStop(turns, deadline) && FirstSecond(turns, start, n)
    ensures SentBy(turns, log, |log|) >= (if limit <= Offered(turns, 0, n) then limit else Offered(turns, 0, n))
  {
    NoStopBefore(Some(limit), start, deadline, turns, log);
    OneWindow(limit, start, deadline, turns, log, n);
    WindowIsFilled(limit, start, deadline, turns, log, 0, n);
    SentByGrows(turns, log, n, |log|);
  }

  /** How many windows were begun before turn `n`, the first at the start. */
  function WindowsBegun(log: seq<Outcome>, start: nat, n: nat): nat
    requires n <= |log|
  {
    if n == 0 then 1
    else WindowsBegun(log, start, n - 1) + if log[n - 1].windowBegan != Began(log, start, n - 1) then 1 else 0
  }

  function At(turns: seq<Turn>, start: nat, n: nat): nat
    requires n <= |turns|
  {
    if n == 0 then start else turns[n - 1].atSent
  }

  /** Windows begin at least a second apart. */
  ghost predicate Spaced(start: nat, turns: seq<Turn>, log: seq<Outcome>, n: nat)
    requires n <= |log| <= |turns|
  {
    var windows := WindowsBegun(log, start, n);
    windows >= 1 && start + (windows - 1) * SECOND <= Began(log, start, n) <= At(turns, start, n)
  }

  /** Each carries no more than the most one can. */
  ghost predicate Capped(start: nat, turns: seq<Turn>, log: seq<Outcome>, cap: nat, n: nat)
    requires n <= |log| <= |turns|
  {
    && WindowsBegun(log, start, n) >= 1 && First(log, n) <= n
    && SentBy(turns, log, First(log, n)) <= Budget(WindowsBegun(log, start, n) - 1, cap)
    && SentBy(turns, log, n) - SentBy(turns, log, First(log, n)) <= cap
  }

  /** A turn that opens a window comes a second or more after the last began, any other leaves it as it is. */
  lemma OpensLater(limit: nat, blksize: nat, start: nat, deadline: nat, turns: seq<Turn>, log: seq<Outcome>, i: nat)
    requires Plausible(turns, start, blksize) && SoFar(Some(limit), start, deadline, turns, log) && i < |log|
    ensures At(turns, start, i) <= turns[i].atReset <= At(turns, start, i + 1)
    ensures var opens := Opens(Some(limit), start, turns, log, i);
            && (opens <==> log[i].windowBegan != Began(log, start, i))
            && (opens ==> log[i].windowBegan == turns[i].atReset >= Began(log, start, i) + SECOND)
  {
    assert Accounted(Some(limit), start, deadline, turns, log, i);
    if i > 0 {
      assert turns[i - 1].atSent <= turns[i].atCheck;
    }
  }

  lemma SpacedStep(start: nat, turns: seq<Turn>, log: seq<Outcome>, i: nat)
    requires i < |log| <= |turns| && Spaced(start, turns, log, i)
    requires At(turns, start, i) <= At(turns, start, i + 1) && log[i].windowBegan <= At(turns, start, i + 1)
    requires log[i].windowBegan != Began(log, start, i) ==> log[i].windowBegan >= Began(log, start, i) + SECOND
    ensures Spaced(start, turns, log, i + 1)
  {
  }

  lemma {:induction false} StaysSpaced(limit: nat, blksize: nat, start: nat, deadline: nat, turns: seq<Turn>,
                                       log: seq<Outcome>, n: nat)
    requires Plausible(turns, start, blksize) && SoFar(Some(limit), start, deadline, turns, log) && n <= |log|
    ensures Spaced(start, turns, log, n)
  {
    if n > 0 {
      StaysSpaced(limit, blksize, start, deadline, turns, log, n - 1);
      OpensLater(limit, blksize, start, deadline, turns, log, n - 1);
      SpacedStep(start, turns, log, n - 1);
    }
  }

  lemma CappedStep(limit: nat, blksize: nat, start: nat, turns: seq<Turn>, log: seq<Outcome>, i: nat)
    requires i < |log| <= |turns| && Capped(start, turns, log, PerWindow(limit, blksize), i)
    requires Explained(Some(limit), start, turns, log, i)
    requires Opens(Some(limit), start, turns, log, i) <==> log[i].windowBegan != Began(log, start, i)
    requires turns[i].sent.Some? ==> turns[i].sent.value <= blksize
    ensures Capped(start, turns, log, PerWindow(limit, blksize), i + 1)
  {
    var sent, first := SentBy(turns, log, i), First(log, i);
    assert SentBy(turns, log, i + 1) <= sent + if log[i].did then blksize else 0;
    if Opens(Some(limit), start, turns, log, i) {
      assert First(log, i + 1) == i;
    } else {
      assert First(log, i + 1) == first;
      assert log[i].did ==> sent - SentBy(turns, log, first) < limit;
    }
  }

  lemma {:induction false} StaysCapped(limit: nat, blksize: nat, start: nat, deadline: nat, turns: seq<Turn>,
                                       log: seq<Outcome>, n: nat)
    requires Plausible(turns, start, blksize) && SoFar(Some(limit), start, deadline, turns, log) && n <= |log|
    ensures Capped(start, turns, log, PerWindow(limit, blksize), n)
  {
    if n > 0 {
      StaysCapped(limit, blksize, start, deadline, turns, log, n - 1);
      OpensLater(limit, blksize, start, deadline, turns, log, n - 1);
      assert Accounted(Some(limit), start, deadline, turns, log, n - 1);
      CappedStep(limit, blksize, start, turns, log, n - 1);
    }
  }

  lemma AtMostPerWindow(limit: nat, blksize: nat, start: nat, deadline: nat, turns: seq<Turn>, log: seq<Outcome>)
    requires Plausible(turns, start, blksize) && SoFar(Some(limit), start, deadline, turns, log)
    ensures SentBy(turns, log, |log|) <= ((Now(turns, start) - start) / SECOND + 1) * PerWindow(limit, blksize)
  {
    var n, cap := |log|, PerWindow(limit, blksize);
    var windows, end := WindowsBegun(log, start, n), (Now(turns, start) - start) / SECOND + 1;
    StaysSpaced(limit, blksize, start, deadline, turns, log, n);
    StaysCapped(limit, blksize, start, deadline, turns, log, n);
    NoLater(turns, start, blksize, n);
    WindowsStarted(windows, Began(log, start, n), start, Now(turns, start));
    BudgetGrows(windows, end, cap);
    BudgetIsProduct(end, cap);
  }

  lemma NoLater(turns: seq<Turn>, start: nat, blksize: nat, n: nat)
    requires Plausible(turns, start, blksize) && n <= |turns|
    ensures At(turns, start, n) <= Now(turns, start)
  {
    if 0 < n < |turns| {
      assert turns[n - 1].atSent <= turns[|turns| - 1].atCheck;
    }
  }

  // ---------------------------------------------------------------------------------------
  // The sender
  // ---------------------------------------------------------------------------------------

  /** The loop: on which turns it sends, and how much in all. */
  method SendLoop(limit: Option<nat>, start: nat, deadline: nat, turns: seq<Turn>)
    returns (sent: nat, ghost log: seq<Outcome>)
    ensures Complete(limit, start, deadline, turns, log) && sent == SentBy(turns, log, |log|)
  {
    sent := 0;
    var lastSend := start;
    var bytesThisSecond := 0;
    log := [];
    for i := 0 to |turns|
      invariant |log| == i && SoFar(limit, start, deadline, turns, log)
      invariant lastSend == Began(log, start, i) && First(log, i) <= i
      invariant sent == SentBy(turns, log, i) && bytesThisSecond == sent - SentBy(turns, log, First(log, i))
    {
      var turn := turns[i];
      if turn.cancelled || turn.atCheck > deadline {
        break;
      }
      ghost var was, first := log, First(log, i);
      if limit.Some? {
        var elapsed := turn.atElapsed - lastSend;
        if elapsed >= SECOND {
          lastSend := turn.atReset;
          bytesThisSecond := 0;
          first := i;
        } else if bytesThisSecond >= limit.value {
          log := log + [Outcome(false, lastSend, first)];
          Extend(limit, start, deadline, turns, was, Outcome(false, lastSend, first));
          continue;
        }
      }
      if turn.sent.None? {
        break;
      }
      sent := sent + turn.sent.value;
      bytesThisSecond := bytesThisSecond + turn.sent.value;
      log := log + [Outcome(true, lastSend, first)];
      Extend(limit, start, deadline, turns, was, Outcome(true, lastSend, first));
    }
  }

  /**
   What a sender sends over any number of turns. The log says on which turns it sent and why not on the
   others. Without a limit that is everything up to the first stop. With one, it is at most one window's
   worth for each second begun since the start, also when the limit rounds down to zero bytes per second,
   and at least what the first second allows.
   */
  method RunSender(limit: Option<nat>, blksize: nat, start: nat, deadline: nat, turns: seq<Turn>)
    returns (sent: nat, ghost log: seq<Outcome>)
    requires Plausible(turns, start, blksize)
    ensures Complete(limit, start, deadline, turns, log) && sent == SentBy(turns, log, |log|)
    ensures FirstStop(turns, deadline) <= |turns|
    ensures limit.None? ==> sent == Offered(turns, 0, FirstStop(turns, deadline))
    ensures limit.Some? ==>
              sent <= ((Now(turns, start) - start) / 1_000_000_000 + 1) * (if limit.value == 0 then blksize else limit.value - 1 + blksize)
    ensures limit.Some? ==>
              forall n: nat | n <= FirstStop(turns, deadline) && FirstSecond(turns, start, n) ::
                sent >= if limit.value <= Offered(turns, 0, n) then limit.value else Offered(turns, 0, n)
  {
    sent, log := SendLoop(limit, start, deadline, turns);
    Conclude(limit, start, deadline, turns, log);
    if limit.Some? {
      AtMostPerWindow(limit.value, blksize, start, deadline, turns, log);
    }
  }

  /** The log after one turn more. */
  lemma Extend(limit: Option<nat>, start: nat, deadline: nat, turns: seq<Turn>, log: seq<Outcome>, more: Outcome)
    requires |log| < |turns| && SoFar(limit, start, deadline, turns, log)
    requires Goes(turns[|log|], deadline) && (more.did ==> turns[|log|].sent.Some?)
    requires First(log, |log|) <= |log|
    requires var opens := Opens(limit, start, turns, log, |log|);
             && more.windowBegan == (if opens then turns[|log|].atReset else Began(log, start, |log|))
             && more.windowFirst == (if opens then |log| else First(log, |log|))
             && (!more.did <==>
                 && limit.Some? && !opens
                 && SentBy(turns, log, |log|) - SentBy(turns, log, First(log, |log|)) >= limit.value)
    ensures var grown := log + [more];
            && SoFar(limit, start, deadline, turns, grown)
            && SentBy(turns, grown, |log| + 1) == SentBy(turns, log, |log|) + (if more.did then turns[|log|].sent.value else 0)
            && SentBy(turns, grown, more.windowFirst) == SentBy(turns, log, more.windowFirst)
  {
    SentByPrefix(turns, log, more, |log|);
    SentByPrefix(turns, log, more, more.windowFirst);
    LogGrows(limit, start, deadline, turns, log, more);
  }

  lemma Conclude(limit: Option<nat>, start: nat, deadline: nat, turns: seq<Turn>, log: seq<Outcome>)
    requires Complete(limit, start, deadline, turns, log)
    ensures FirstStop(turns, deadline) <= |turns|
    ensures limit.None? ==> SentBy(turns, log, |log|) == Offered(turns, 0, FirstStop(turns, deadline))
    ensures limit.Some? ==>
              forall n: nat | n <= FirstStop(turns, deadline) && FirstSecond(turns, start, n) ::
                SentBy(turns, log, |log|) >= if limit.value <= Offered(turns, 0, n) then limit.value else Offered(turns, 0, n)
  {
    FirstStopBounds(turns, deadline);
    if limit.None? {
      UnlimitedSendsAll(start, deadline, turns, log);
    } else {
      forall n: nat | n <= FirstStop(turns, deadline) && FirstSecond(turns, start, n)
        ensures SentBy(turns, log, |log|) >= if limit.value <= Offered(turns, 0, n) then limit.value else Offered(turns, 0, n)
      {
        FirstSecondIsFilled(limit.value, start, deadline, turns, log, n);
      }
    }
  }

  /** A TCP sender: a write either sends a whole block or ends the loop; without a bandwidth there is no limit. */
  method RunTcpSender(bandwidth: nat, blksize: nat, start: nat, deadline: nat, turns: seq<Turn>)
    returns (sent: nat, ghost log: seq<Outcome>)
    requires Plausible(turns, start, blksize)
    requires forall i | 0 <= i < |turns| && turns[i].sent.Some? :: turns[i].sent.value == blksize
    ensures Complete(if bandwidth > 0 then Some(bandwidth / 8) else None, start, deadline, turns, log)
    ensures sent == SentBy(turns, log, |log|) && FirstStop(turns, deadline) <= |turns|
    ensures bandwidth == 0 ==> sent == Offered(turns, 0, FirstStop(turns, deadline))
    ensures bandwidth > 0 ==>
              sent <= ((Now(turns, start) - start) / 1_000_000_000 + 1) * (if bandwidth < 8 then blksize else bandwidth / 8 - 1 + blksize)
    ensures bandwidth > 0 ==>
              forall n: nat | n <= FirstStop(turns, deadline) && FirstSecond(turns, start, n) ::
                sent >= if bandwidth / 8 <= Offered(turns, 0, n) then bandwidth / 8 else Offered(turns, 0, n)
  {
    sent, log := RunSender(TcpLimit(bandwidth), blksize, start, deadline, turns);
  }

  /** A UDP sender is always limited, if need be by the default bandwidth and block size. */
  method RunUdpSender(bandwidth: nat, blksize: nat, start: nat, deadline: nat, turns: seq<Turn>)
    returns (sent: nat, ghost log: seq<Outcome>)
    requires Plausible(turns, start, UdpBlock(blksize))
    ensures Complete(Some(if bandwidth > 0 then bandwidth / 8 else 125_000), start, deadline, turns, log)
    ensures sent == SentBy(turns, log, |log|) && FirstStop(turns, deadline) <= |turns|
    ensures var limit, block := if bandwidth > 0 then bandwidth / 8 else 125_000, if blksize > 0 then blksize else 8192;
            sent <= ((Now(turns, start) - start) / 1_000_000_000 + 1) * (if limit == 0 then block else limit - 1 + block)
    ensures var limit := if bandwidth > 0 then bandwidth / 8 else 125_000;
            forall n: nat | n <= FirstStop(turns, deadline) && FirstSecond(turns, start, n) ::
              sent >= if limit <= Offered(turns, 0, n) then limit else Offered(turns, 0, n)
  {
    sent, log := RunSender(UdpLimit(bandwidth), UdpBlock(blksize), start, deadline, turns);
  }
}
