/** Retry, fallback and circuit breaking around RPC calls (src/stellar/soroban-rpc-resilience.ts). */
module SorobanRpcResilience {
  import opened Wrappers
  import opened CircuitBreaker
  import opened BreakerHistory

  const RPC_MAX_ATTEMPTS := 3
  const RPC_BASE_DELAY_MS := 250
  const RPC_CIRCUIT_FAILURE_THRESHOLD := 5
  const RPC_CIRCUIT_RESET_MS := 30_000

  /** How one attempt ends; `isRetryable` has already classified the error. */
  datatype Reply = Ok(value: int) | Retryable | Fatal

  /** What each attempt at an endpoint, counted from 1, would give. */
  type Endpoint = nat -> Reply

  /** How the last of the attempts at an endpoint ends. */
  function LastReply(endpoint: Endpoint): Reply {
    if !endpoint(1).Retryable? then endpoint(1)
    else if !endpoint(2).Retryable? then endpoint(2)
    else endpoint(3)
  }

  method WithBackoff(endpoint: Endpoint) returns (reply: Reply, attempts: nat, delays: seq<nat>)
    ensures 1 <= attempts <= RPC_MAX_ATTEMPTS
    ensures reply == endpoint(attempts) == LastReply(endpoint)
    ensures forall k | 1 <= k < attempts :: endpoint(k).Retryable?
    ensures reply.Retryable? ==> attempts == RPC_MAX_ATTEMPTS
    ensures delays == [250, 500][..attempts - 1]
  {
    var delay := RPC_BASE_DELAY_MS;
    attempts, delays := 1, [];
    while true
      invariant 1 <= attempts <= RPC_MAX_ATTEMPTS
      invariant forall k | 1 <= k < attempts :: endpoint(k).Retryable?
      invariant attempts < 3 ==> delay == [250, 500][attempts - 1]
      invariant delays == [250, 500][..attempts - 1]
      decreases RPC_MAX_ATTEMPTS - attempts
    {
      reply := endpoint(attempts);
      if !reply.Retryable? || attempts >= RPC_MAX_ATTEMPTS {
        return;
      }
      delays := delays + [delay];
      delay := delay * 2;
      attempts := attempts + 1;
    }
  }

  /** How an admitted call ends: the fallback answers only after the primary kept failing. */
  function CallReply(primary: Endpoint, fallback: Option<Endpoint>): Reply {
    match (LastReply(primary), fallback)
    case (Retryable, Some(second)) => LastReply(second)
    case (reply, _) => reply
  }

  /** Attempt `k` at the endpoint gives this after nothing but retryable errors. */
  predicate Gives(endpoint: Endpoint, k: nat, reply: Reply) {
    1 <= k <= 3 && endpoint(k) == reply && forall j | 1 <= j < k :: endpoint(j).Retryable?
  }

  lemma LastReplyIs(endpoint: Endpoint, reply: Reply)
    requires !reply.Retryable?
    ensures LastReply(endpoint) == reply <==> exists k: nat :: Gives(endpoint, k, reply)
    ensures LastReply(endpoint).Retryable? <==> AlwaysRetryable(endpoint)
  {
    assert LastReply(endpoint) == reply ==>
      Gives(endpoint, 1, reply) || Gives(endpoint, 2, reply) || Gives(endpoint, 3, reply);
  }

  /**
   * A call's value, or its fatal error, is what some attempt at the first
   * endpoint gives after retryable errors only; or at the second one, when the
   * first never stopped being retryable.
   */
  lemma CallAnswers(primary: Endpoint, fallback: Option<Endpoint>, reply: Reply)
    requires !reply.Retryable?
    ensures CallReply(primary, fallback) == reply <==>
      || (exists k: nat :: Gives(primary, k, reply))
      || (AlwaysRetryable(primary) && fallback.Some? && exists k: nat :: Gives(fallback.value, k, reply))
  {
    LastReplyIs(primary, reply);
    if fallback.Some? {
      LastReplyIs(fallback.value, reply);
    }
    hide LastReply;
    assert AlwaysRetryable(primary) ==> forall k: nat :: !Gives(primary, k, reply);
  }

  /** What an admitted call records with the breaker. */
  function Recorded(reply: Reply, at: int): seq<Op> {
    match reply
    case Ok(_) => [Success(at)]
    case Retryable => [Failure(at)]
    case Fatal => []
  }

  predicate AlwaysRetryable(endpoint: Endpoint) {
    endpoint(1).Retryable? && endpoint(2).Retryable? && endpoint(3).Retryable?
  }

  /** A failure is recorded exactly when every configured endpoint used up its attempts on retryable errors. */
  lemma FailureMeansEveryEndpoint(primary: Endpoint, fallback: Option<Endpoint>, at: int)
    ensures Recorded(CallReply(primary, fallback), at) == [Failure(at)] <==>
      AlwaysRetryable(primary) && (fallback.Some? ==> AlwaysRetryable(fallback.value))
    ensures Recorded(CallReply(primary, fallback), at) == [Success(at)] <==>
      LastReply(primary).Ok? || (AlwaysRetryable(primary) && fallback.Some? && LastReply(fallback.value).Ok?)
  {
  }

  function StepAll(f: Fields, ops: seq<Op>): Fields
    decreases |ops|
  {
    if ops == [] then f
    else
      StepAll(Step(f, ops[0], RPC_CIRCUIT_FAILURE_THRESHOLD, RPC_CIRCUIT_RESET_MS), ops[1..])
  }

  class SorobanRpcResilience {
    const primary: Endpoint
    const fallback: Option<Endpoint>
    const breaker: CircuitBreaker

    constructor (primary: Endpoint, fallback: Option<Endpoint>)
      ensures this.primary == primary && this.fallback == fallback && fresh(breaker)
      ensures Ready() && breaker.AsFields() == FRESH
    {
      this.primary, this.fallback := primary, fallback;
      breaker := new CircuitBreaker(RPC_CIRCUIT_FAILURE_THRESHOLD, RPC_CIRCUIT_RESET_MS);
    }

    predicate Ready() {
      && breaker.failureThreshold == RPC_CIRCUIT_FAILURE_THRESHOLD
      && breaker.resetTimeoutMs == RPC_CIRCUIT_RESET_MS
    }

    /** None means the circuit was open and nothing was attempted; `first` and `second` count the attempts. */
    method Call(startAt: int, endAt: int) returns (reply: Option<Reply>, first: nat, second: nat)
      requires Ready()
      modifies breaker
      ensures first <= RPC_MAX_ATTEMPTS && second <= RPC_MAX_ATTEMPTS
      ensures var f := Observe(old(breaker.AsFields()), startAt, RPC_CIRCUIT_RESET_MS);
        if f.current == Open then reply == None && first == second == 0 && breaker.AsFields() == f
        else
          && reply == Some(CallReply(primary, fallback))
          && first >= 1
          && (second >= 1 <==> fallback.Some? && AlwaysRetryable(primary))
          && breaker.AsFields() == StepAll(f, Recorded(reply.value, endAt))
    {
      first, second := 0, 0;
      var open := breaker.IsOpen(startAt);
      if open {
        return None, 0, 0;
      }
      var result, n, _ := WithBackoff(primary);
      first := n;
      if result.Retryable? && fallback.Some? {
        var answer, m, _ := WithBackoff(fallback.value);
        result, second := answer, m;
      }
      match result {
        case Ok(_) => breaker.RecordSuccess();
        case Fatal =>
        case Retryable => breaker.RecordFailure(endAt);
      }
      return Some(result), first, second;
    }
  }
}

/** Overlapping calls: each begins with a check of the breaker and, if let through, ends later with a reply. */
module OverlappingCalls {
  import opened Wrappers
  import opened CircuitBreaker
  import opened BreakerHistory
  import opened SorobanRpcResilience

  datatype Event =
    | Begin(call: nat, at: int)
    | End(call: nat, at: int, primary: Endpoint, fallback: Option<Endpoint>)

  /** `ops` is what the breaker has seen; `owner[i]` is the call that `ops[i]` belongs to. */
  datatype Calls = Calls(ops: seq<Op>, owner: seq<nat>, admitted: set<nat>, refused: set<nat>, ended: set<nat>)

  const NO_CALLS := Calls([], [], {}, {}, {})

  function Breaker(s: Calls): Fields {
    Run(s.ops, RPC_CIRCUIT_FAILURE_THRESHOLD, RPC_CIRCUIT_RESET_MS)
  }

  predicate Enabled(s: Calls, e: Event) {
    && (s.ops != [] ==> s.ops[|s.ops| - 1].at <= e.at)
    && match e
       case Begin(call, _) => call !in s.admitted && call !in s.refused
       case End(call, _, _, _) => call in s.admitted && call !in s.ended
  }

  function Owners(call: nat, n: nat): seq<nat> {
    seq(n, _ => call)
  }

  function Apply(s: Calls, e: Event): Calls {
    match e
    case Begin(call, at) =>
      var open := Observe(Breaker(s), at, RPC_CIRCUIT_RESET_MS).current == Open;
      var seen := s.(ops := s.ops + [Check(at)], owner := s.owner + [call]);
      if open then seen.(refused := s.refused + {call}) else seen.(admitted := s.admitted + {call})
    case End(call, at, primary, fallback) =>
      var recorded := Recorded(CallReply(primary, fallback), at);
      s.(ops := s.ops + recorded, owner := s.owner + Owners(call, |recorded|), ended := s.ended + {call})
  }

  predicate Possible(events: seq<Event>) {
    events == [] || (Possible(events[..|events| - 1]) && Enabled(After(events[..|events| - 1]), events[|events| - 1]))
  }

  function After(events: seq<Event>): Calls {
    if events == [] then NO_CALLS else Apply(After(events[..|events| - 1]), events[|events| - 1])
  }

  /** The outcomes a call has recorded. */
  function OutcomesOf(s: Calls, call: nat): set<nat> {
    set i | 0 <= i < |s.ops| && i < |s.owner| && s.owner[i] == call && !s.ops[i].Check?
  }

  predicate Inv(s: Calls) {
    && |s.ops| == |s.owner|
    && Timed(s.ops)
    && s.ended <= s.admitted && s.admitted !! s.refused
    && (forall i | 0 <= i < |s.ops| && !s.ops[i].Check? :: s.owner[i] in s.ended)
    && (forall i, j | 0 <= i < j < |s.ops| && !s.ops[i].Check? && !s.ops[j].Check? :: s.owner[i] != s.owner[j])
  }

  lemma InvStep(s: Calls, e: Event)
    requires Inv(s) && Enabled(s, e)
    ensures Inv(Apply(s, e))
  {
    hide Breaker, CallReply, Observe;
    var t := Apply(s, e);
    assert t.ops == s.ops || t.ops == s.ops + [t.ops[|s.ops|]];
    assert forall i | 0 <= i < |s.ops| :: t.ops[i] == s.ops[i] && t.owner[i] == s.owner[i];
  }

  lemma {:induction false} InvHolds(events: seq<Event>)
    requires Possible(events)
    ensures Inv(After(events))
  {
    hide Inv, Apply, Enabled;
    if events == [] {
      InvInit();
    } else {
      InvHolds(events[..|events| - 1]);
      InvStep(After(events[..|events| - 1]), events[|events| - 1]);
    }
  }

  lemma InvInit()
    ensures Inv(NO_CALLS)
  {
  }

  /** However calls overlap, each records at most one outcome and a refused call records none. */
  lemma OneOutcomePerCall(events: seq<Event>, call: nat)
    requires Possible(events)
    ensures |OutcomesOf(After(events), call)| <= 1
    ensures call in After(events).refused ==> OutcomesOf(After(events), call) == {}
  {
    InvHolds(events);
    var s := After(events);
    var outcomes := OutcomesOf(s, call);
    if outcomes != {} {
      var i :| i in outcomes;
      assert forall j | j in outcomes :: j == i;
      assert outcomes == {i};
    }
  }

  /** However calls overlap, a call is let through exactly when the outcomes recorded so far admit it. */
  lemma OverlappingCallsAdmitted(events: seq<Event>, call: nat, at: int)
    requires Possible(events) && Enabled(After(events), Begin(call, at))
    ensures call in Apply(After(events), Begin(call, at)).admitted <==>
      Admits(Streak(After(events).ops), at, 5, 30_000)
  {
    InvHolds(events);
    var s := After(events);
    AdmitsExactly(s.ops, at, RPC_CIRCUIT_FAILURE_THRESHOLD, RPC_CIRCUIT_RESET_MS);
  }
}
