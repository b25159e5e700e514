/**
 Sliding windows: deques whose stale front is popped on every arrival, read later through a
 filter on time stamps. The stamp that is compared need not be the server's own: echoed probes
 carry the client's.
 */
module Windows {
  import opened Bytes

  /** `now.saturating_sub(window)`; also `now - window` wherever that does not underflow. */
  function Cutoff(now: nat, window: nat): nat {
    if now < window then 0 else now - window
  }

  /** What is left after popping from the front while the front is older than `cutoff`. */
  function Pruned<T>(q: seq<T>, stamp: T -> nat, cutoff: nat): seq<T> {
    if q != [] && stamp(q[0]) < cutoff then Pruned(q[1..], stamp, cutoff) else q
  }

  function Fresh<T>(stamp: T -> nat, cutoff: nat): T -> bool {
    (x: T) => stamp(x) >= cutoff
  }

  /** The pop loop that follows every push. */
  method PruneFront<T>(q: seq<T>, stamp: T -> nat, cutoff: nat) returns (r: seq<T>)
    ensures r == Pruned(q, stamp, cutoff)
  {
    r := q;
    while r != [] && stamp(r[0]) < cutoff
      invariant Pruned(r, stamp, cutoff) == Pruned(q, stamp, cutoff)
      decreases |r|
    {
      r := r[1..];
    }
  }

  /** What happens to one deque: an arrival at clock reading `now`, or a clear. */
  datatype Op<T> = Arrive(item: T, now: nat) | Clear

  /** The deque the code keeps. */
  function Deque<T>(ops: seq<Op<T>>, stamp: T -> nat, keep: nat): seq<T> {
    if ops == [] then [] else
    var last := ops[|ops| - 1];
    if last.Clear? then [] else
    Pruned(Deque(ops[..|ops| - 1], stamp, keep) + [last.item], stamp, Cutoff(last.now, keep))
  }

  /** Everything that has arrived since the last clear. */
  function History<T>(ops: seq<Op<T>>): seq<T> {
    if ops == [] then [] else
    var last := ops[|ops| - 1];
    if last.Clear? then [] else History(ops[..|ops| - 1]) + [last.item]
  }

  lemma OneMoreOp<T>(ops: seq<Op<T>>, op: Op<T>, stamp: T -> nat, keep: nat)
    ensures op.Clear? ==> Deque(ops + [op], stamp, keep) == [] && History(ops + [op]) == []
    ensures op.Arrive? ==>
              && Deque(ops + [op], stamp, keep) == Pruned(Deque(ops, stamp, keep) + [op.item], stamp, Cutoff(op.now, keep))
              && History(ops + [op]) == History(ops) + [op.item]
  {
    assert (ops + [op])[..|ops|] == ops;
  }

  ghost predicate NoLaterThan<T>(ops: seq<Op<T>>, now: nat) {
    forall i | 0 <= i < |ops| && ops[i].Arrive? :: ops[i].now <= now
  }

  lemma {:induction false} PrunedStillFresh<T>(q: seq<T>, stamp: T -> nat, cutoff: nat, later: nat)
    requires cutoff <= later
    ensures Filter(Pruned(q, stamp, cutoff), Fresh(stamp, later)) == Filter(q, Fresh(stamp, later))
  {
    if q != [] && stamp(q[0]) < cutoff {
      PrunedStillFresh(q[1..], stamp, cutoff, later);
    }
  }

  /**
   Pruning is invisible. A window no longer than the retention period, read at a time no earlier
   than any arrival, shows exactly what the full history since the last clear would show; the
   stamps themselves may come in any order.
   */
  lemma {:induction false} PruningIsInvisible<T>(ops: seq<Op<T>>, stamp: T -> nat, keep: nat, window: nat, now: nat)
    requires window <= keep && NoLaterThan(ops, now)
    ensures Filter(Deque(ops, stamp, keep), Fresh(stamp, Cutoff(now, window)))
         == Filter(History(ops), Fresh(stamp, Cutoff(now, window)))
  {
    if ops != [] {
      var prev, last := ops[..|ops| - 1], ops[|ops| - 1];
      if last.Arrive? {
        var inWindow := Fresh(stamp, Cutoff(now, window));
        var d := Deque(prev, stamp, keep);
        PruningIsInvisible(prev, stamp, keep, window, now);
        PrunedStillFresh(d + [last.item], stamp, Cutoff(last.now, keep), Cutoff(now, window));
        FilterConcat(d, [last.item], inWindow);
        FilterConcat(History(prev), [last.item], inWindow);
      }
    }
  }

  function Itself(x: nat): nat {
    x
  }

  /** On a queue of bare stamps: reading after pruning is like reading without it. */
  ghost predicate Unseen(q: seq<nat>, pruneAt: nat, readAt: nat) {
    Filter(Pruned(q, Itself, pruneAt), Fresh(Itself, readAt)) == Filter(q, Fresh(Itself, readAt))
  }

  /** A cutoff that moves back past an earlier pruning cutoff does show: the condition is exact. */
  lemma InvisibleExactlyForwards(pruneAt: nat, readAt: nat)
    ensures (forall q :: Unseen(q, pruneAt, readAt)) <==> pruneAt <= readAt
  {
    if pruneAt <= readAt {
      forall q ensures Unseen(q, pruneAt, readAt) {
        PrunedStillFresh(q, Itself, pruneAt, readAt);
      }
    } else {
      var q := [readAt];
      assert q[1..] == [];
      assert Pruned(q, Itself, pruneAt) == [];
      assert Filter(q, Fresh(Itself, readAt)) == q;
      assert !Unseen(q, pruneAt, readAt);
    }
  }

  lemma {:induction false} FilterAll<T>(q: seq<T>, keep: T -> bool)
    requires forall i | 0 <= i < |q| :: keep(q[i])
    ensures Filter(q, keep) == q
  {
    if q != [] {
      FilterAll(q[1..], keep);
    }
  }

  /** Arrivals stamped with the clock reading they arrive at, and a clock that does not go back. */
  ghost predicate ClockForward<T>(ops: seq<Op<T>>, stamp: T -> nat) {
    && (forall i | 0 <= i < |ops| && ops[i].Arrive? :: stamp(ops[i].item) == ops[i].now)
    && (forall i, j | 0 <= i < j < |ops| && ops[i].Arrive? && ops[j].Arrive? :: ops[i].now <= ops[j].now)
  }

  lemma {:induction false} PrunedIsSuffix<T>(q: seq<T>, stamp: T -> nat, cutoff: nat) returns (n: nat)
    ensures n <= |q| && Pruned(q, stamp, cutoff) == q[n..]
    ensures forall i | 0 <= i < n :: stamp(q[i]) < cutoff
    ensures n < |q| ==> stamp(q[n]) >= cutoff
  {
    n := 0;
    if q != [] && stamp(q[0]) < cutoff {
      var m := PrunedIsSuffix(q[1..], stamp, cutoff);
      n := m + 1;
      assert forall i | 0 < i < n :: q[i] == q[1..][i - 1];
    }
  }

  ghost predicate InOrder<T>(q: seq<T>, stamp: T -> nat, bound: nat) {
    && (forall i, j | 0 <= i < j < |q| :: stamp(q[i]) <= stamp(q[j]))
    && (forall i | 0 <= i < |q| :: stamp(q[i]) <= bound)
  }

  lemma InOrderSuffix<T>(q: seq<T>, stamp: T -> nat, bound: nat, n: nat)
    requires InOrder(q, stamp, bound) && n <= |q|
    ensures InOrder(q[n..], stamp, bound)
  {
  }

  lemma InOrderAppend<T>(q: seq<T>, stamp: T -> nat, x: T, bound: nat)
    requires InOrder(q, stamp, stamp(x)) && stamp(x) <= bound
    ensures InOrder(q + [x], stamp, bound)
  {
  }

  lemma {:induction false} DequeInOrder<T>(ops: seq<Op<T>>, stamp: T -> nat, keep: nat, bound: nat)
    requires ClockForward(ops, stamp) && NoLaterThan(ops, bound)
    ensures InOrder(Deque(ops, stamp, keep), stamp, bound)
  {
    if ops != [] {
      var prev, last := ops[..|ops| - 1], ops[|ops| - 1];
      if last.Arrive? {
        var d := Deque(prev, stamp, keep);
        DequeInOrder(prev, stamp, keep, last.now);
        InOrderAppend(d, stamp, last.item, bound);
        var n := PrunedIsSuffix(d + [last.item], stamp, Cutoff(last.now, keep));
        InOrderSuffix(d + [last.item], stamp, bound, n);
      }
    }
  }

  /** With a forward clock, right after an arrival the deque is exactly the retained part of the history. */
  lemma DequeIsRecentHistory<T>(ops: seq<Op<T>>, stamp: T -> nat, keep: nat)
    requires ops != [] && ops[|ops| - 1].Arrive? && ClockForward(ops, stamp)
    ensures Deque(ops, stamp, keep) == Filter(History(ops), Fresh(stamp, Cutoff(ops[|ops| - 1].now, keep)))
  {
    var now := ops[|ops| - 1].now;
    var d := Deque(ops, stamp, keep);
    PruningIsInvisible(ops, stamp, keep, keep, now);
    DequeInOrder(ops, stamp, keep, now);
    var n := PrunedIsSuffix(Deque(ops[..|ops| - 1], stamp, keep) + [ops[|ops| - 1].item], stamp, Cutoff(now, keep));
    FilterAll(d, Fresh(stamp, Cutoff(now, keep)));
  }
}
