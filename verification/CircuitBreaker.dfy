/** The circuit breaker (src/common/circuit-breaker.ts), driven by an explicit clock in milliseconds. */
module CircuitBreaker {

  datatype State = Closed | Open | HalfOpen

  /** `changes` lists what `onStateChange` was told. */
  datatype Fields = Fields(current: State, failures: nat, openedAt: int, changes: seq<State>)

  const FRESH := Fields(Closed, 0, 0, [])

  function Transition(f: Fields, next: State): Fields {
    f.(current := next, changes := f.changes + [next])
  }

  /** The `state` getter, which may itself move the breaker. */
  function Observe(f: Fields, now: int, resetMs: int): Fields {
    if f.current == Open && now - f.openedAt >= resetMs then Transition(f, HalfOpen) else f
  }

  function Succeed(f: Fields): Fields {
    var g := f.(failures := 0);
    if f.current != Closed then Transition(g, Closed) else g
  }

  function Fail(f: Fields, now: int, threshold: nat): Fields {
    var g := f.(failures := f.failures + 1);
    if f.current == HalfOpen || g.failures >= threshold then
      var h := g.(openedAt := now);
      if f.current != Open then Transition(h, Open) else h
    else g
  }

  /** How a guarded call ends; `isFailure` has already judged the error. */
  datatype Fate = Returns | Throws(isFailure: bool)

  class CircuitBreaker {
    const failureThreshold: nat
    const resetTimeoutMs: int
    var current: State
    var consecutiveFailures: nat
    var openedAt: int
    var changes: seq<State>

    function AsFields(): Fields
      reads this
    {
      Fields(current, consecutiveFailures, openedAt, changes)
    }

    constructor (failureThreshold: nat, resetTimeoutMs: int)
      ensures AsFields() == FRESH
      ensures this.failureThreshold == failureThreshold && this.resetTimeoutMs == resetTimeoutMs
    {
      this.failureThreshold, this.resetTimeoutMs := failureThreshold, resetTimeoutMs;
      current, consecutiveFailures, openedAt, changes := Closed, 0, 0, [];
    }

    method TransitionTo(next: State)
      modifies this
      ensures AsFields() == Transition(old(AsFields()), next)
    {
      current := next;
      changes := changes + [next];
    }

    method GetState(now: int) returns (s: State)
      modifies this
      ensures AsFields() == Observe(old(AsFields()), now, resetTimeoutMs) && s == current
    {
      if current == Open && now - openedAt >= resetTimeoutMs {
        TransitionTo(HalfOpen);
      }
      return current;
    }

    method IsOpen(now: int) returns (open: bool)
      modifies this
      ensures AsFields() == Observe(old(AsFields()), now, resetTimeoutMs) && open == (current == Open)
    {
      var s := GetState(now);
      return s == Open;
    }

    method RecordSuccess()
      modifies this
      ensures AsFields() == Succeed(old(AsFields()))
    {
      consecutiveFailures := 0;
      if current != Closed {
        TransitionTo(Closed);
      }
    }

    method RecordFailure(now: int)
      modifies this
      ensures AsFields() == Fail(old(AsFields()), now, failureThreshold)
    {
      consecutiveFailures := consecutiveFailures + 1;
      if current == HalfOpen || consecutiveFailures >= failureThreshold {
        openedAt := now;
        if current != Open {
          TransitionTo(Open);
        }
      }
    }

    /** A guarded call that nothing overlaps; false means it was turned away. */
    method Execute(startAt: int, endAt: int, fate: Fate) returns (ran: bool)
      modifies this
      ensures var seen := Observe(old(AsFields()), startAt, resetTimeoutMs);
        && ran == (seen.current != Open)
        && AsFields() ==
             if !ran || fate == Throws(false) then seen
             else if fate.Returns? then Succeed(seen)
             else Fail(seen, endAt, failureThreshold)
    {
      var open := IsOpen(startAt);
      if open {
        return false;
      }
      match fate {
        case Returns => RecordSuccess();
        case Throws(isFailure) =>
          if isFailure {
            RecordFailure(endAt);
          }
      }
      return true;
    }
  }
}

/**
 * Calls that overlap reach the breaker as a sequence of its three atomic
 * operations. Over every such sequence with a clock that does not go back, the
 * breaker's answer is a function of the recorded outcomes alone.
 */
module BreakerHistory {
  import opened CircuitBreaker

  datatype Op = Check(at: int) | Success(at: int) | Failure(at: int)

  function Step(f: Fields, op: Op, threshold: nat, resetMs: int): Fields {
    match op
    case Check(at) => Observe(f, at, resetMs)
    case Success(_) => Succeed(f)
    case Failure(at) => Fail(f, at, threshold)
  }

  function Run(ops: seq<Op>, threshold: nat, resetMs: int): Fields {
    if ops == [] then FRESH
    else Step(Run(ops[..|ops| - 1], threshold, resetMs), ops[|ops| - 1], threshold, resetMs)
  }

  /** The clock does not go back. */
  predicate Timed(ops: seq<Op>) {
    forall i, j | 0 <= i < j < |ops| :: ops[i].at <= ops[j].at
  }

  /** When the failures since the last recorded success happened. */
  function Streak(ops: seq<Op>): seq<int> {
    if ops == [] then []
    else
      var before, last := Streak(ops[..|ops| - 1]), ops[|ops| - 1];
      match last
      case Check(_) => before
      case Success(_) => []
      case Failure(at) => before + [at]
  }

  /** Fewer failures than the threshold since the last success, or long enough since the last failure. */
  predicate Admits(streak: seq<int>, now: int, threshold: nat, resetMs: int) {
    |streak| < threshold || |streak| == 0 || now - streak[|streak| - 1] >= resetMs
  }

  /** What the fields mean, at a moment no earlier than the last operation. */
  predicate Reflects(f: Fields, streak: seq<int>, now: int, threshold: nat, resetMs: int) {
    && f.failures == |streak|
    && (f.current == Closed <==> |streak| < threshold)
    && (f.current != Closed ==> |streak| > 0 && f.openedAt == streak[|streak| - 1])
    && (f.current == HalfOpen ==> now - f.openedAt >= resetMs)
  }

  lemma {:induction false} RunReflects(ops: seq<Op>, now: int, threshold: nat, resetMs: int)
    requires threshold >= 1 && Timed(ops) && forall i | 0 <= i < |ops| :: ops[i].at <= now
    ensures Reflects(Run(ops, threshold, resetMs), Streak(ops), now, threshold, resetMs)
  {
    if ops != [] {
      var front, last := ops[..|ops| - 1], ops[|ops| - 1];
      assert forall i | 0 <= i < |front| :: front[i] == ops[i];
      RunReflects(front, last.at, threshold, resetMs);
    }
  }

  /** In every interleaving a call is let through exactly when the recorded outcomes say so. */
  lemma AdmitsExactly(ops: seq<Op>, now: int, threshold: nat, resetMs: int)
    requires threshold >= 1 && Timed(ops) && forall i | 0 <= i < |ops| :: ops[i].at <= now
    ensures Observe(Run(ops, threshold, resetMs), now, resetMs).current != Open <==>
      Admits(Streak(ops), now, threshold, resetMs)
  {
    RunReflects(ops, now, threshold, resetMs);
  }

  /** Whether the breaker may tell its listener `next` after having been in `previous`. */
  predicate Edge(previous: State, next: State) {
    match previous
    case Closed => next == Open
    case Open => next == HalfOpen || next == Closed
    case HalfOpen => next == Open || next == Closed
  }

  function Latest(changes: seq<State>): State {
    if changes == [] then Closed else changes[|changes| - 1]
  }

  /** Every report moves on from the one before it. */
  predicate AllMoves(changes: seq<State>) {
    changes == [] ||
    (AllMoves(changes[..|changes| - 1]) && Edge(Latest(changes[..|changes| - 1]), changes[|changes| - 1]))
  }

  /**
   * The listener hears every change once and no other: its last word is the
   * current state, and each report is a real move. In particular the circuit is
   * reported open once each time it opens.
   */
  lemma {:induction false} ListenerHearsEachChange(ops: seq<Op>, threshold: nat, resetMs: int)
    requires threshold >= 1
    ensures var f := Run(ops, threshold, resetMs);
      Latest(f.changes) == f.current && AllMoves(f.changes)
  {
    if ops != [] {
      var front := ops[..|ops| - 1];
      ListenerHearsEachChange(front, threshold, resetMs);
      var f, g := Run(front, threshold, resetMs), Run(ops, threshold, resetMs);
      if g.changes != f.changes {
        assert g.changes == f.changes + [g.current];
        assert g.changes[..|f.changes|] == f.changes;
      }
    }
  }
}
