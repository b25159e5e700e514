/**
 Unmatched ICMP errors and the sessions they end. An error is charged to a session whose peer address
 it names; five errors with less than a second between neighbours remove the session. Errors are
 handled one at a time.
 */
module ErrorBurst {
  import opened Bytes
  import opened IcmpParser

  const SECOND_MS := 1000
  const THRESHOLD := 5

  datatype Session = Session(peer: Option<SocketAddr>, errorCount: nat, lastError: Option<nat>)

  type Sessions = map<string, Session>

  /** The session after an error at `now`: the count goes on within a second of the last, else starts over. */
  function Charged(s: Session, now: nat): Session {
    var count := if s.lastError.Some? && now - s.lastError.value < SECOND_MS then s.errorCount + 1 else 1;
    s.(errorCount := count, lastError := Some(now))
  }

  class SessionTable {
    var sessions: Sessions

    constructor (sessions: Sessions)
      ensures this.sessions == sessions
    {
      this.sessions := sessions;
    }

    /** The error callback; which of several sessions with that peer address is charged is left open. */
    method OnUnmatchedError(dest: SocketAddr, now: nat) returns (charged: Option<string>)
      modifies this
      ensures charged.None? <==> forall id | id in old(sessions) :: old(sessions)[id].peer != Some(dest)
      ensures charged.Some? ==> charged.value in old(sessions) && old(sessions)[charged.value].peer == Some(dest)
      ensures CallbackStep(old(sessions), sessions, UnmatchedError(dest, now))
      ensures sessions == if charged.None? then old(sessions) else AfterError(old(sessions), charged.value, now)
    {
      var target := FindSession(sessions, dest);
      if target.None? {
        return None;
      }
      var id := target.value;
      var s := sessions[id];
      var count: nat;
      if s.lastError.Some? {
        if now - s.lastError.value < SECOND_MS {
          count := s.errorCount + 1;
        } else {
          count := 1;
        }
      } else {
        count := 1;
      }
      sessions := sessions[id := s.(errorCount := count, lastError := Some(now))];
      if count >= THRESHOLD {
        sessions := sessions - {id};
      }
      charged := Some(id);
    }
  }

  method FindSession(sessions: Sessions, dest: SocketAddr) returns (target: Option<string>)
    ensures target.None? <==> forall id | id in sessions :: sessions[id].peer != Some(dest)
    ensures target.Some? ==> target.value in sessions && sessions[target.value].peer == Some(dest)
  {
    var left := sessions.Keys;
    while left != {}
      invariant left <= sessions.Keys
      invariant forall id | id in sessions.Keys - left :: sessions[id].peer != Some(dest)
      decreases left
    {
      var id :| id in left;
      if sessions[id].peer == Some(dest) {
        return Some(id);
      }
      left := left - {id};
    }
    target := None;
  }

  function AfterError(sessions: Sessions, id: string, now: nat): Sessions
    requires id in sessions
  {
    var s := Charged(sessions[id], now);
    if s.errorCount >= THRESHOLD then sessions - {id} else sessions[id := s]
  }

  // ---------------------------------------------------------------------------------------
  // Over a whole run
  // ---------------------------------------------------------------------------------------

  /** An error charged to a session. */
  datatype Charge = Charge(id: string, now: nat)

  /** A run of charges; one to a session that is no longer there finds nobody. */
  function Ran(sessions: Sessions, charges: seq<Charge>): Sessions {
    if charges == [] then sessions else
    var before, last := Ran(sessions, charges[..|charges| - 1]), charges[|charges| - 1];
    if last.id in before then AfterError(before, last.id, last.now) else before
  }

  /** The times of the errors charged to one session. */
  function Times(charges: seq<Charge>, id: string): seq<nat> {
    if charges == [] then [] else
    var last := charges[|charges| - 1];
    Times(charges[..|charges| - 1], id) + if last.id == id then [last.now] else []
  }

  /** Error `i` came less than a second after the one before. */
  predicate Close(times: seq<nat>, i: nat)
    requires 0 < i < |times|
  {
    times[i] < times[i - 1] + 1000
  }

  /** The last `n` errors come less than a second apart. */
  ghost predicate Burst(times: seq<nat>, n: nat) {
    n <= |times| && forall i | 0 < i < |times| && |times| - n < i :: Close(times, i)
  }

  /** `n` is the length of the longest burst the errors end with. */
  ghost predicate LongestBurst(times: seq<nat>, n: nat) {
    Burst(times, n) && forall m: nat | n < m <= |times| :: !Burst(times, m)
  }

  /** Some prefix of the errors ended with five in a burst. */
  ghost predicate BurstOfFive(times: seq<nat>) {
    exists k | 0 <= k <= |times| :: Burst(times[..k], 5)
  }

  lemma CloseInPrefix(times: seq<nat>, now: nat, i: nat)
    requires 0 < i < |times|
    ensures Close(times + [now], i) == Close(times, i)
  {
  }

  lemma BurstGrows(times: seq<nat>, m: nat, now: nat)
    requires times != [] && 0 < m <= |times| + 1
    ensures Burst(times + [now], m) <==> m == 1 || (now < times[|times| - 1] + 1000 && Burst(times, m - 1))
  {
    var grown := times + [now];
    assert Close(grown, |times|) <==> now < times[|times| - 1] + 1000;
    forall i | 0 < i < |times| ensures Close(grown, i) == Close(times, i) {
      CloseInPrefix(times, now, i);
    }
    if m > 1 && Burst(grown, m) {
      assert Close(grown, |times|);
      forall i | 0 < i < |times| && |times| - (m - 1) < i ensures Close(times, i) {
        assert Close(grown, i);
      }
    }
  }

  lemma LongestBurstGrows(times: seq<nat>, n: nat, now: nat)
    requires LongestBurst(times, n) && times != []
    ensures LongestBurst(times + [now], if now - times[|times| - 1] < SECOND_MS then n + 1 else 1)
  {
    var longest := if now - times[|times| - 1] < SECOND_MS then n + 1 else 1;
    BurstGrows(times, longest, now);
    forall m: nat | longest < m <= |times| + 1 ensures !Burst(times + [now], m) {
      BurstGrows(times, m, now);
    }
  }

  lemma BurstPrefix(times: seq<nat>, now: nat)
    ensures BurstOfFive(times + [now]) <==> BurstOfFive(times) || Burst(times + [now], THRESHOLD)
  {
    var grown := times + [now];
    if k :| 0 <= k <= |grown| && Burst(grown[..k], THRESHOLD) {
      if k <= |times| {
        assert grown[..k] == times[..k];
      } else {
        assert grown[..k] == grown;
      }
    }
    if k :| 0 <= k <= |times| && Burst(times[..k], THRESHOLD) {
      assert grown[..k] == times[..k];
    }
    assert grown[..|grown|] == grown;
  }

  /** What the errors charged to a session so far make of it. */
  ghost predicate Explained(after: Sessions, id: string, initial: Session, times: seq<nat>) {
    && (id in after <==> !BurstOfFive(times))
    && (id in after && times == [] ==> after[id] == initial)
    && (id in after && times != [] ==>
          && LongestBurst(times, after[id].errorCount) && after[id].errorCount < 5
          && after[id].lastError == Some(times[|times| - 1]))
  }

  lemma OneMoreError(before: Sessions, id: string, initial: Session, times: seq<nat>, now: nat)
    requires initial.lastError.None? && Explained(before, id, initial, times)
    ensures Explained(if id in before then AfterError(before, id, now) else before, id, initial, times + [now])
  {
    BurstPrefix(times, now);
    if id in before {
      var s := Charged(before[id], now);
      if times == [] {
        assert LongestBurst(times + [now], 1);
      } else {
        LongestBurstGrows(times, before[id].errorCount, now);
      }
      assert LongestBurst(times + [now], s.errorCount);
    }
  }

  lemma ErrorElsewhere(before: Sessions, id: string, initial: Session, times: seq<nat>, other: string, now: nat)
    requires Explained(before, id, initial, times) && other != id && other in before
    ensures Explained(AfterError(before, other, now), id, initial, times)
  {
    var after := AfterError(before, other, now);
    assert id in after <==> id in before;
    assert id in after ==> after[id] == before[id];
  }

  /**
   For every session without errors at first: it is gone exactly when five of its errors in a row came
   less than a second apart, and until then its counter is the length of the burst its errors end with.
   */
  lemma {:induction false} CounterIsLongestBurst(sessions: Sessions, charges: seq<Charge>, id: string)
    requires id in sessions && sessions[id].lastError.None?
    ensures Explained(Ran(sessions, charges), id, sessions[id], Times(charges, id))
  {
    if charges == [] {
      assert !BurstOfFive([]);
    } else {
      var prev, last := charges[..|charges| - 1], charges[|charges| - 1];
      CounterIsLongestBurst(sessions, prev, id);
      var before := Ran(sessions, prev);
      if last.id == id {
        OneMoreError(before, id, sessions[id], Times(prev, id), last.now);
      } else {
        assert Times(prev, id) + [] == Times(prev, id);
        if last.id in before {
          ErrorElsewhere(before, id, sessions[id], Times(prev, id), last.id, last.now);
        }
      }
    }
  }

  /** An error that matches no probe: the destination it quotes, and when it came. */
  datatype UnmatchedError = UnmatchedError(dest: SocketAddr, now: nat)

  /** What one call of the callback may do: nothing if nobody has that peer address, else charge somebody who has. */
  ghost predicate CallbackStep(before: Sessions, after: Sessions, error: UnmatchedError) {
    if forall id | id in before :: before[id].peer != Some(error.dest) then after == before
    else exists id | id in before :: before[id].peer == Some(error.dest) && after == AfterError(before, id, error.now)
  }

  /** The times of the errors that quote an address. */
  function TimesTo(errors: seq<UnmatchedError>, dest: SocketAddr): seq<nat> {
    if errors == [] then [] else
    var last := errors[|errors| - 1];
    TimesTo(errors[..|errors| - 1], dest) + if last.dest == dest then [last.now] else []
  }

  /** Nobody is added, and nobody's peer address changes. */
  ghost predicate SamePeers(after: Sessions, before: Sessions) {
    forall id | id in after :: id in before && after[id].peer == before[id].peer
  }

  /** Nobody else has the peer address of session `id`. */
  ghost predicate AloneAt(sessions: Sessions, id: string, dest: SocketAddr) {
    && id in sessions && sessions[id].peer == Some(dest)
    && forall other | other in sessions && other != id :: sessions[other].peer != Some(dest)
  }

  lemma CallbackExplained(sessions: Sessions, before: Sessions, after: Sessions, error: UnmatchedError,
                          id: string, dest: SocketAddr, times: seq<nat>)
    requires AloneAt(sessions, id, dest) && sessions[id].lastError.None?
    requires SamePeers(before, sessions) && Explained(before, id, sessions[id], times)
    requires CallbackStep(before, after, error)
    ensures SamePeers(after, sessions)
    ensures Explained(after, id, sessions[id], times + if error.dest == dest then [error.now] else [])
  {
    assert times + [] == times;
    if error.dest == dest {
      OneMoreError(before, id, sessions[id], times, error.now);
    } else if other :| other in before && before[other].peer == Some(error.dest) && after == AfterError(before, other, error.now) {
      ErrorElsewhere(before, id, sessions[id], times, other, error.now);
    }
  }

  /**
   The same over every run of the callback itself, on errors to any destinations: a session that has its
   peer address to itself is gone exactly when five errors in a row that quote the address came less
   than a second apart.
   */
  lemma {:induction false} CallbackCountsBursts(states: seq<Sessions>, errors: seq<UnmatchedError>, id: string, dest: SocketAddr)
    requires |states| == |errors| + 1 && forall i | 0 <= i < |errors| :: CallbackStep(states[i], states[i + 1], errors[i])
    requires AloneAt(states[0], id, dest) && states[0][id].lastError.None?
    ensures SamePeers(states[|errors|], states[0])
    ensures Explained(states[|errors|], id, states[0][id], TimesTo(errors, dest))
  {
    if errors == [] {
      assert !BurstOfFive([]);
    } else {
      var n := |errors| - 1;
      CallbackCountsBursts(states[..n + 1], errors[..n], id, dest);
      CallbackExplained(states[0], states[n], states[n + 1], errors[n], id, dest, TimesTo(errors[..n], dest));
    }
  }
}
