/**
 * Webhook delivery and its circuit (src/webhooks/webhook-delivery.processor.ts:60-152, 183-266;
 * src/webhooks/webhooks.service.ts:34-42). Times are in milliseconds.
 */
module WebhookDelivery {
  import opened Wrappers
  import opened Updates

  const WEBHOOK_CIRCUIT_FAILURE_THRESHOLD := 5
  const WEBHOOK_CIRCUIT_OPEN_MS := 86_400_000
  const DISABLE_AFTER := 10

  datatype Webhook = Webhook(isActive: bool, failureCount: nat, circuitOpenUntil: Option<int>)

  const NEW := Webhook(true, 0, None)

  /**
   * What goes wrong in a delivery, step by step: the reads and calls that throw
   * and how the updates go. The failure alert to the merchant only logs and
   * does not throw; `notices` are the admin alert, the second read of the
   * merchant and the mail, after the circuit has been opened.
   */
  datatype Faults = Faults(
    firstRead: bool, request: bool, successLog: bool, clearing: Write, failureLog: bool, counting: Write,
    rowRead: bool, disabling: Write, merchantRead: bool, tripping: Write, notices: bool, requeue: bool)

  /** The last update that a counted failure got past, whether or not that update had anything to do. */
  datatype Reached = Count | Disabling | Circuit

  /**
   * What a delivery that was sent does to the row. `cleared`: the endpoint
   * answered and the row was cleared, but that update threw and the delivery is
   * handled as a failure.
   */
  datatype Attempt = Success | Uncounted(cleared: bool) | Failure(cleared: bool, reached: Reached)

  predicate IsOpen(w: Webhook, at: int) {
    w.circuitOpenUntil.Some? && w.circuitOpenUntil.value > at
  }

  function Clear(w: Webhook): Webhook {
    w.(failureCount := 0, circuitOpenUntil := None)
  }

  predicate MustDisable(w: Webhook) {
    w.failureCount >= DISABLE_AFTER && w.isActive
  }

  predicate Opens(w: Webhook, at: int) {
    w.failureCount >= WEBHOOK_CIRCUIT_FAILURE_THRESHOLD && !IsOpen(w, at)
  }

  function MarkFailure(w: Webhook, at: int, reached: Reached): Webhook {
    var counted := w.(failureCount := w.failureCount + 1);
    if reached.Count? then counted
    else
      var left := counted.(isActive := counted.isActive && counted.failureCount < DISABLE_AFTER);
      if reached.Circuit? && Opens(left, at) then left.(circuitOpenUntil := Some(at + WEBHOOK_CIRCUIT_OPEN_MS))
      else left
  }

  /** A whole delivery: the check at `startAt`, the end at `endAt`. */
  function Deliver(w: Webhook, startAt: int, endAt: int, attempt: Attempt): Webhook {
    if IsOpen(w, startAt) then w
    else
      match attempt
      case Success => Clear(w)
      case Uncounted(cleared) => if cleared then Clear(w) else w
      case Failure(cleared, reached) => MarkFailure(if cleared then Clear(w) else w, endAt, reached)
  }

  /** How far the bookkeeping of a failure gets on a row that already has it counted, and whether it throws. */
  function Bookkeeping(counted: Webhook, at: int, f: Faults): (Reached, bool) {
    if f.counting.MadeUnheard? || f.rowRead then (Count, true)
    else if MustDisable(counted) && f.disabling.Refused? then (Count, true)
    else if (MustDisable(counted) && f.disabling.MadeUnheard?) || f.merchantRead then (Disabling, true)
    else if Opens(counted, at) && f.tripping.Refused? then (Disabling, true)
    else (Circuit, Opens(counted, at) && (f.tripping.MadeUnheard? || f.notices))
  }

  predicate Answered(f: Faults) {
    !f.request && !f.successLog
  }

  function AttemptOf(w: Webhook, at: int, f: Faults): Attempt {
    var cleared := Answered(f) && f.clearing.MadeUnheard?;
    if Answered(f) && f.clearing.Made? then Success
    else if f.failureLog || f.counting.Refused? then Uncounted(cleared)
    else
      var before := if cleared then Clear(w) else w;
      Failure(cleared, Bookkeeping(before.(failureCount := before.failureCount + 1), at, f).0)
  }

  /** Every kind of attempt happens, on any row, with steps that throw. */
  lemma EveryAttemptHappens(w: Webhook, at: int, attempt: Attempt) returns (f: Faults)
    ensures !f.firstRead && AttemptOf(w, at, f) == attempt
  {
    f := Faults(false, true, false, Made, false, Made, false, Made, false, Made, false, false);
    match attempt
    case Success => f := f.(request := false);
    case Uncounted(cleared) => f := f.(request := !cleared, clearing := MadeUnheard, failureLog := true);
    case Failure(cleared, reached) =>
      f := f.(request := !cleared, clearing := MadeUnheard, rowRead := reached.Count?,
              merchantRead := reached.Disabling?);
  }

  /** How a delivery ends: nothing was sent, it was delivered, it failed and maybe is sent again, or the job threw. */
  datatype Outcome = Skipped | Delivered | Failed(tripped: bool, retry: Option<nat>) | Thrown

  function Requeued(tripped: bool, attemptNumber: nat, maxAttempts: nat, f: Faults): Outcome {
    if tripped || attemptNumber >= maxAttempts then Failed(tripped, None)
    else if f.requeue then Thrown
    else Failed(false, Some(attemptNumber + 1))
  }

  /** How a job on this row, or on none, ends. */
  function JobOutcome(row: Option<Webhook>, attemptNumber: nat, maxAttempts: nat, startAt: int, endAt: int, f: Faults):
    Outcome
  {
    if f.firstRead then Thrown
    else
      match row
      case Some(w) =>
        if IsOpen(w, startAt) then Skipped
        else
          (match AttemptOf(w, endAt, f)
           case Success => Delivered
           case Uncounted(_) => Thrown
           case Failure(cleared, _) =>
             var before := if cleared then Clear(w) else w;
             var counted := before.(failureCount := before.failureCount + 1);
             if Bookkeeping(counted, endAt, f).1 then Thrown
             else Requeued(Opens(counted, endAt), attemptNumber, maxAttempts, f))
      case None =>
        if Answered(f) && f.clearing.Made? then Delivered
        else if f.failureLog || !f.counting.Made? then Thrown
        else Requeued(false, attemptNumber, maxAttempts, f)
  }

  /**
   * What a failed delivery leaves of the row, read off the steps that went
   * wrong: the count, the disabling from ten failures on, and the circuit of 24
   * hours from five on.
   */
  lemma FailureExactly(w: Webhook, startAt: int, endAt: int, f: Faults)
    requires !IsOpen(w, startAt) && (f.request || f.successLog)
    ensures var t, n := Deliver(w, startAt, endAt, AttemptOf(w, endAt, f)), w.failureCount + 1;
      var counts := !f.failureLog && !f.counting.Refused?;
      var sees := counts && f.counting.Made? && !f.rowRead;
      var goesOn := sees && !f.merchantRead && !(n >= 10 && w.isActive && !f.disabling.Made?);
      var until := w.circuitOpenUntil;
      && t.failureCount == (if counts then n else w.failureCount)
      && (t.isActive <==> w.isActive && !(sees && n >= 10 && !f.disabling.Refused?))
      && t.circuitOpenUntil ==
           if goesOn && n >= 5 && (until == None || until.value <= endAt) && !f.tripping.Refused?
           then Some(endAt + 24 * 3_600_000)
           else until
  {
  }

  type Id = string

  class WebhookDeliveryProcessor {
    var webhooks: map<Id, Webhook>

    /** A deleted webhook's queued delivery is sent all the same, and counted nowhere. */
    method Process(id: Id, attemptNumber: nat, maxAttempts: nat, startAt: int, endAt: int, f: Faults)
      returns (outcome: Outcome)
      modifies this
      ensures webhooks ==
        if f.firstRead || id !in old(webhooks) then old(webhooks)
        else var w := old(webhooks)[id]; old(webhooks)[id := Deliver(w, startAt, endAt, AttemptOf(w, endAt, f))]
      ensures outcome ==
        JobOutcome(if id in old(webhooks) then Some(old(webhooks)[id]) else None, attemptNumber, maxAttempts,
                   startAt, endAt, f)
    {
      if f.firstRead {
        return Thrown;
      }
      if id in webhooks && IsOpen(webhooks[id], startAt) {
        assert webhooks == webhooks[id := webhooks[id]];
        return Skipped;
      }
      ghost var before := webhooks;
      if Answered(f) {
        if id in webhooks && !f.clearing.Refused? {
          webhooks := webhooks[id := webhooks[id].(failureCount := 0, circuitOpenUntil := None)];
        }
        if f.clearing.Made? {
          return Delivered;
        }
      }
      if f.failureLog {
        assert id in before ==> before[id := before[id]] == before;
        return Thrown;
      }
      var thrown, tripped := MarkWebhookFailure(id, endAt, f);
      assert id in before ==> before[id := before[id]] == before;
      if thrown {
        return Thrown;
      }
      if !tripped && attemptNumber < maxAttempts {
        return if f.requeue then Thrown else Failed(false, Some(attemptNumber + 1));
      }
      return Failed(tripped, None);
    }

    method MarkWebhookFailure(id: Id, at: int, f: Faults) returns (thrown: bool, tripped: bool)
      modifies this
      ensures id !in old(webhooks) ==>
        webhooks == old(webhooks) && thrown == !f.counting.Made? && !tripped
      ensures id in old(webhooks) && f.counting.Refused? ==> webhooks == old(webhooks) && thrown
      ensures id in old(webhooks) && !f.counting.Refused? ==>
        var w := old(webhooks)[id];
        var counted := w.(failureCount := w.failureCount + 1);
        var (reached, throws) := Bookkeeping(counted, at, f);
        && webhooks == old(webhooks)[id := MarkFailure(w, at, reached)]
        && thrown == throws
        && (!thrown ==> tripped == Opens(counted, at))
    {
      thrown, tripped := !f.counting.Made?, false;
      if id !in webhooks || f.counting.Refused? {
        return;
      }
      var webhook := webhooks[id];
      webhook := webhook.(failureCount := webhook.failureCount + 1);
      webhooks := webhooks[id := webhook];
      if thrown || f.rowRead {
        return true, false;
      }
      if webhook.failureCount >= DISABLE_AFTER && webhook.isActive {
        if f.disabling.Refused? {
          return true, false;
        }
        webhook := webhook.(isActive := false);
        webhooks := webhooks[id := webhook];
        if f.disabling.MadeUnheard? {
          return true, false;
        }
      }
      if f.merchantRead {
        return true, false;
      }
      thrown, tripped := OpenCircuitIfNeeded(id, at, f);
    }

    method OpenCircuitIfNeeded(id: Id, at: int, f: Faults) returns (thrown: bool, tripped: bool)
      requires id in webhooks
      modifies this
      ensures tripped == Opens(old(webhooks)[id], at)
      ensures thrown == (tripped && (!f.tripping.Made? || f.notices))
      ensures webhooks == if tripped && !f.tripping.Refused?
        then old(webhooks)[id := old(webhooks)[id].(circuitOpenUntil := Some(at + WEBHOOK_CIRCUIT_OPEN_MS))]
        else old(webhooks)
    {
      var webhook := webhooks[id];
      var alreadyOpen := webhook.circuitOpenUntil.Some? && webhook.circuitOpenUntil.value > at;
      if webhook.failureCount < WEBHOOK_CIRCUIT_FAILURE_THRESHOLD || alreadyOpen {
        return false, false;
      }
      var reopensAt := at + WEBHOOK_CIRCUIT_OPEN_MS;
      if f.tripping.Refused? {
        return true, true;
      }
      webhooks := webhooks[id := webhook.(circuitOpenUntil := Some(reopensAt))];
      return !f.tripping.Made? || f.notices, true;
    }

    /** False: there is no such webhook. */
    method ResetCircuit(id: Id) returns (found: bool)
      modifies this
      ensures found == (id in old(webhooks))
      ensures webhooks == if found then old(webhooks)[id := Clear(old(webhooks)[id])] else old(webhooks)
    {
      if id !in webhooks {
        return false;
      }
      var webhook := webhooks[id];
      webhook := webhook.(circuitOpenUntil := None);
      webhook := webhook.(failureCount := 0);
      webhooks := webhooks[id := webhook];
      return true;
    }
  }
}

/** One webhook over any history of deliveries, one at a time, and resets. */
module WebhookHistory {
  import opened Wrappers
  import opened WebhookDelivery

  datatype Event = Delivery(startAt: int, endAt: int, attempt: Attempt) | AdminReset(endAt: int)

  /** What became of a delivery that was sent, or a reset. */
  datatype Sent = Sent(at: int, attempt: Attempt) | Cleared

  /** The row, and everything that was sent or reset so far. */
  datatype History = History(row: Webhook, sent: seq<Sent>)

  const START := History(NEW, [])

  function Step(h: History, e: Event): History {
    match e
    case AdminReset(_) => History(Clear(h.row), h.sent + [Cleared])
    case Delivery(startAt, endAt, attempt) =>
      if IsOpen(h.row, startAt) then h
      else History(Deliver(h.row, startAt, endAt, attempt), h.sent + [Sent(endAt, attempt)])
  }

  function Run(events: seq<Event>): History {
    if events == [] then START else Step(Run(events[..|events| - 1]), events[|events| - 1])
  }

  /** A counted failure: when, and which update it got past. */
  datatype Fail = Fail(at: int, reached: Reached)

  /** The counted failures since the last success or reset, from what was sent alone. */
  function Streak(sent: seq<Sent>): seq<Fail> {
    if sent == [] then []
    else
      var front := sent[..|sent| - 1];
      match sent[|sent| - 1]
      case Cleared => []
      case Sent(at, attempt) =>
        match attempt
        case Success => []
        case Uncounted(cleared) => if cleared then [] else Streak(front)
        case Failure(cleared, reached) => (if cleared then [] else Streak(front)) + [Fail(at, reached)]
  }

  function StreakOf(events: seq<Event>): seq<Fail> {
    Streak(Run(events).sent)
  }

  /** One at a time, with a clock that does not go back. */
  predicate Serial(events: seq<Event>) {
    && (forall i | 0 <= i < |events| && events[i].Delivery? :: events[i].startAt <= events[i].endAt)
    && (forall i, j | 0 <= i < j < |events| ::
          events[i].endAt <= if events[j].Delivery? then events[j].startAt else events[j].endAt)
  }

  /** A failure that opens the circuit: the fifth or a later one, past its last update. */
  predicate Trips(streak: seq<Fail>, i: int) {
    WEBHOOK_CIRCUIT_FAILURE_THRESHOLD - 1 <= i < |streak| && streak[i].reached.Circuit?
  }

  /** Some failure that opens the circuit was less than 24 hours ago. */
  predicate ShouldSkip(streak: seq<Fail>, at: int) {
    exists i | 0 <= i < |streak| :: Trips(streak, i) && at < streak[i].at + WEBHOOK_CIRCUIT_OPEN_MS
  }

  predicate Spaced(streak: seq<Fail>) {
    forall i, j | 0 <= i < j < |streak| && Trips(streak, i) ::
      streak[j].at >= streak[i].at + WEBHOOK_CIRCUIT_OPEN_MS
  }

  /** The end of the circuit is 24 hours after the last failure that opened it. */
  predicate UntilOk(row: Webhook, streak: seq<Fail>) {
    match row.circuitOpenUntil
    case None => forall i | 0 <= i < |streak| :: !Trips(streak, i)
    case Some(until) =>
      exists i | 0 <= i < |streak| ::
        && Trips(streak, i) && until == streak[i].at + WEBHOOK_CIRCUIT_OPEN_MS
        && forall j | i < j < |streak| :: !Trips(streak, j)
  }

  predicate Fits(row: Webhook, streak: seq<Fail>, now: int) {
    && row.failureCount == |streak|
    && (forall i | 0 <= i < |streak| :: streak[i].at <= now)
    && (forall i, j | 0 <= i < j < |streak| :: streak[i].at <= streak[j].at)
    && Spaced(streak)
    && UntilOk(row, streak)
  }

  predicate Inv(h: History, now: int) {
    Fits(h.row, Streak(h.sent), now)
  }

  lemma SkipFollowsStreak(row: Webhook, streak: seq<Fail>, now: int, at: int)
    requires Fits(row, streak, now)
    ensures IsOpen(row, at) <==> ShouldSkip(streak, at)
  {
    if row.circuitOpenUntil.Some? {
      var i :| 0 <= i < |streak| && Trips(streak, i)
        && row.circuitOpenUntil.value == streak[i].at + WEBHOOK_CIRCUIT_OPEN_MS
        && forall j | i < j < |streak| :: !Trips(streak, j);
      forall j | 0 <= j < |streak| && Trips(streak, j) ensures streak[j].at <= streak[i].at {
      }
    }
  }

  lemma FailureKeepsSpacing(streak: seq<Fail>, startAt: int, fail: Fail)
    requires Spaced(streak) && !ShouldSkip(streak, startAt) && startAt <= fail.at
    ensures Spaced(streak + [fail])
  {
    var longer := streak + [fail];
    assert forall i | 0 <= i < |streak| :: longer[i] == streak[i] && (Trips(longer, i) <==> Trips(streak, i));
  }

  lemma FailureKeepsUntil(row: Webhook, t: Webhook, streak: seq<Fail>, fail: Fail)
    requires UntilOk(row, streak)
    requires t.circuitOpenUntil ==
      if Trips(streak + [fail], |streak|) then Some(fail.at + WEBHOOK_CIRCUIT_OPEN_MS) else row.circuitOpenUntil
    ensures UntilOk(t, streak + [fail])
  {
    var longer, n := streak + [fail], |streak|;
    assert forall i | 0 <= i < n :: longer[i] == streak[i] && (Trips(longer, i) <==> Trips(streak, i));
    if Trips(longer, n) {
      assert longer[n].at == fail.at;
    } else if row.circuitOpenUntil.Some? {
      var i :| 0 <= i < n && Trips(streak, i)
        && row.circuitOpenUntil.value == streak[i].at + WEBHOOK_CIRCUIT_OPEN_MS
        && forall j | i < j < n :: !Trips(streak, j);
      assert Trips(longer, i) && t.circuitOpenUntil == Some(longer[i].at + WEBHOOK_CIRCUIT_OPEN_MS);
    }
  }

  lemma FailureStep(row: Webhook, streak: seq<Fail>, now: int, startAt: int, endAt: int, reached: Reached)
    requires Fits(row, streak, now) && now <= startAt <= endAt && !IsOpen(row, startAt)
    ensures Fits(MarkFailure(row, endAt, reached), streak + [Fail(endAt, reached)], endAt)
  {
    var t, fail := MarkFailure(row, endAt, reached), Fail(endAt, reached);
    SkipFollowsStreak(row, streak, now, startAt);
    FailureKeepsSpacing(streak, startAt, fail);
    assert Trips(streak + [fail], |streak|) <==>
      reached.Circuit? && |streak| + 1 >= WEBHOOK_CIRCUIT_FAILURE_THRESHOLD;
    FailureKeepsUntil(row, t, streak, fail);
    hide Spaced, UntilOk, Trips, ShouldSkip;
  }

  predicate InTime(now: int, e: Event) {
    if e.Delivery? then now <= e.startAt <= e.endAt else now <= e.endAt
  }

  /** The streak after one more thing was sent. */
  function NextStreak(streak: seq<Fail>, s: Sent): seq<Fail> {
    if s.Cleared? || s.attempt.Success? then []
    else
      var kept := if s.attempt.cleared then [] else streak;
      if s.attempt.Failure? then kept + [Fail(s.at, s.attempt.reached)] else kept
  }

  lemma StreakAppend(sent: seq<Sent>, s: Sent)
    ensures Streak(sent + [s]) == NextStreak(Streak(sent), s)
  {
    assert (sent + [s])[..|sent|] == sent;
  }

  lemma ClearFits(row: Webhook, now: int)
    ensures Fits(Clear(row), [], now)
  {
  }

  lemma InvStep(h: History, now: int, e: Event)
    requires Inv(h, now) && InTime(now, e)
    ensures Inv(Step(h, e), e.endAt)
  {
    hide Streak, Spaced, UntilOk, MarkFailure;
    ClearFits(h.row, e.endAt);
    ClearFits(h.row, now);
    if e.AdminReset? {
      StreakAppend(h.sent, Cleared);
    } else if !IsOpen(h.row, e.startAt) {
      StreakAppend(h.sent, Sent(e.endAt, e.attempt));
      if e.attempt.Failure? {
        if e.attempt.cleared {
          FailureStep(Clear(h.row), [], now, e.startAt, e.endAt, e.attempt.reached);
        } else {
          FailureStep(h.row, Streak(h.sent), now, e.startAt, e.endAt, e.attempt.reached);
        }
      }
    }
  }

  lemma {:induction false} InvHolds(events: seq<Event>) returns (now: int)
    requires Serial(events)
    ensures Inv(Run(events), now)
    ensures events != [] ==> now == events[|events| - 1].endAt
    ensures events == [] ==> Run(events) == START
  {
    hide Inv, Step;
    if events == [] {
      now := 0;
      InvInit(now);
    } else {
      var front, e := events[..|events| - 1], events[|events| - 1];
      var before := InvHolds(front);
      now := e.endAt;
      if front == [] {
        before := if e.Delivery? then e.startAt else e.endAt;
        InvInit(before);
      }
      InvStep(Run(front), before, e);
    }
  }

  lemma InvInit(now: int)
    ensures Inv(START, now)
  {
  }

  /** The stored count is the number of counted failures since the last success or reset. */
  lemma CountIsStreak(events: seq<Event>)
    requires Serial(events)
    ensures Run(events).row.failureCount == |StreakOf(events)|
  {
    var now := InvHolds(events);
  }

  /**
   * A delivery is sent exactly when no failure of the running streak, from the
   * fifth on and past its last update, lies less than 24 hours back.
   */
  lemma SentExactlyWhenClosed(events: seq<Event>, startAt: int)
    requires Serial(events)
    ensures IsOpen(Run(events).row, startAt) <==> ShouldSkip(StreakOf(events), startAt)
  {
    var now := InvHolds(events);
    SkipFollowsStreak(Run(events).row, StreakOf(events), now, startAt);
  }

  /** No failure of the streak was cut short before the circuit. */
  predicate NoneCutShort(streak: seq<Fail>) {
    forall i | 0 <= i < |streak| :: streak[i].reached.Circuit?
  }

  /** When none is: sent exactly when there are fewer than 5 failures or the last is 24 hours old. */
  lemma SentAfterADay(events: seq<Event>, startAt: int)
    requires Serial(events) && NoneCutShort(StreakOf(events))
    ensures var streak := StreakOf(events);
      !IsOpen(Run(events).row, startAt) <==>
        |streak| < WEBHOOK_CIRCUIT_FAILURE_THRESHOLD || startAt >= streak[|streak| - 1].at + WEBHOOK_CIRCUIT_OPEN_MS
  {
    var now := InvHolds(events);
    var streak := StreakOf(events);
    SkipFollowsStreak(Run(events).row, streak, now, startAt);
    hide UntilOk, Spaced, Streak, Run, IsOpen;
    if |streak| >= WEBHOOK_CIRCUIT_FAILURE_THRESHOLD {
      assert Trips(streak, |streak| - 1);
      assert forall i | 0 <= i < |streak| - 1 && Trips(streak, i) :: streak[i].at <= streak[|streak| - 1].at;
    }
  }

  // ── days between failures ──

  /** How many of the failures from `i` up to `j` got past their last update. */
  function Whole(streak: seq<Fail>, i: nat, j: nat): nat
    requires i <= j <= |streak|
    decreases j - i
  {
    if i == j then 0 else Whole(streak, i, j - 1) + if streak[j - 1].reached.Circuit? then 1 else 0
  }

  lemma {:induction false} WholeAtMostAll(streak: seq<Fail>, i: nat, j: nat)
    requires i <= j <= |streak|
    ensures Whole(streak, i, j) <= j - i
    ensures Whole(streak, i, j) == j - i <==> forall k | i <= k < j :: streak[k].reached.Circuit?
    decreases j - i
  {
    if i < j {
      WholeAtMostAll(streak, i, j - 1);
    }
  }

  lemma {:induction false} DaysBetween(streak: seq<Fail>, i: nat, j: nat)
    requires Spaced(streak) && WEBHOOK_CIRCUIT_FAILURE_THRESHOLD - 1 <= i <= j < |streak|
    requires forall i, j | 0 <= i < j < |streak| :: streak[i].at <= streak[j].at
    ensures streak[j].at - streak[i].at >= Whole(streak, i, j) * WEBHOOK_CIRCUIT_OPEN_MS
    decreases j - i
  {
    if i < j {
      DaysBetween(streak, i, j - 1);
      if streak[j - 1].reached.Circuit? {
        assert Trips(streak, j - 1);
      }
    }
  }

  /**
   * From the fifth failure of a streak on, one of the failures that follow
   * comes at least as many days later as failures in between, the first
   * included, got past their last update.
   */
  lemma DaysPerWholeFailure(events: seq<Event>, i: nat, j: nat)
    requires Serial(events) && WEBHOOK_CIRCUIT_FAILURE_THRESHOLD - 1 <= i <= j < |StreakOf(events)|
    ensures var streak := StreakOf(events);
      streak[j].at - streak[i].at >= Whole(streak, i, j) * WEBHOOK_CIRCUIT_OPEN_MS
  {
    var now := InvHolds(events);
    hide Spaced, UntilOk;
    DaysBetween(StreakOf(events), i, j);
  }

  // ── the bound is attained ──

  /** When failure `n` of the fastest streak that gets as far as this is counted. */
  function Fastest(reached: seq<Reached>, n: nat): nat
    requires n <= |reached|
  {
    if n == 0 then 0
    else
      Fastest(reached, n - 1)
        + if n - 1 >= WEBHOOK_CIRCUIT_FAILURE_THRESHOLD - 1 && reached[n - 1].Circuit? then WEBHOOK_CIRCUIT_OPEN_MS
          else 0
  }

  function FastestEvent(reached: seq<Reached>, k: nat): Event
    requires k < |reached|
  {
    Delivery(Fastest(reached, k), Fastest(reached, k), Failure(false, reached[k]))
  }

  /** Failures only, each as soon as a delivery is sent again. */
  function FastestEvents(reached: seq<Reached>, n: nat): seq<Event>
    requires n <= |reached|
  {
    seq(n, k requires 0 <= k < n => FastestEvent(reached, k))
  }

  function FastestStreak(reached: seq<Reached>, n: nat): seq<Fail>
    requires n <= |reached|
  {
    seq(n, k requires 0 <= k < n => Fail(Fastest(reached, k), reached[k]))
  }

  lemma {:induction false} FastestAscends(reached: seq<Reached>, i: nat, j: nat)
    requires i <= j <= |reached|
    ensures Fastest(reached, i) <= Fastest(reached, j)
    ensures i < j && i >= WEBHOOK_CIRCUIT_FAILURE_THRESHOLD - 1 && reached[i].Circuit? ==>
      Fastest(reached, i) + WEBHOOK_CIRCUIT_OPEN_MS <= Fastest(reached, j)
    decreases j
  {
    if i < j {
      FastestAscends(reached, i, j - 1);
    }
  }

  lemma FastestIsSerial(reached: seq<Reached>, n: nat)
    requires n <= |reached|
    ensures Serial(FastestEvents(reached, n))
  {
    forall i: nat, j: nat | i <= j < n ensures Fastest(reached, i) <= Fastest(reached, j) {
      FastestAscends(reached, i, j);
    }
    hide Fastest;
  }

  lemma NotSkipped(reached: seq<Reached>, n: nat)
    requires n <= |reached|
    ensures !ShouldSkip(FastestStreak(reached, n), Fastest(reached, n))
  {
    var streak := FastestStreak(reached, n);
    forall k: nat | k < n ensures Trips(streak, k) ==> streak[k].at + WEBHOOK_CIRCUIT_OPEN_MS <= Fastest(reached, n) {
      FastestAscends(reached, k, n);
    }
    hide Fastest;
  }

  lemma StreakGrows(h: History, at: int, reached: Reached)
    requires !IsOpen(h.row, at)
    ensures Streak(Step(h, Delivery(at, at, Failure(false, reached))).sent) == Streak(h.sent) + [Fail(at, reached)]
  {
    hide Streak;
    StreakAppend(h.sent, Sent(at, Failure(false, reached)));
  }

  lemma FastestFront(reached: seq<Reached>, n: nat)
    requires 0 < n <= |reached|
    ensures FastestEvents(reached, n) == FastestEvents(reached, n - 1) + [FastestEvent(reached, n - 1)]
    ensures FastestStreak(reached, n)
      == FastestStreak(reached, n - 1) + [Fail(Fastest(reached, n - 1), reached[n - 1])]
  {
    hide Fastest, FastestEvent;
  }

  lemma RunAppend(events: seq<Event>, e: Event)
    ensures Run(events + [e]) == Step(Run(events), e)
  {
    assert (events + [e])[..|events|] == events;
    hide Step;
  }

  lemma {:induction false} FastestRuns(reached: seq<Reached>, n: nat)
    requires n <= |reached|
    ensures StreakOf(FastestEvents(reached, n)) == FastestStreak(reached, n)
  {
    hide Fastest, FastestEvents, FastestStreak, Step, ShouldSkip, IsOpen, Serial, Streak, Run;
    if n == 0 {
      NothingYet(reached);
    } else {
      var front, at := FastestEvents(reached, n - 1), Fastest(reached, n - 1);
      FastestRuns(reached, n - 1);
      FastestFront(reached, n);
      FastestIsSerial(reached, n - 1);
      SentExactlyWhenClosed(front, at);
      NotSkipped(reached, n - 1);
      RunAppend(front, FastestEvent(reached, n - 1));
      StreakGrows(Run(front), at, reached[n - 1]);
    }
  }

  lemma NothingYet(reached: seq<Reached>)
    ensures StreakOf(FastestEvents(reached, 0)) == FastestStreak(reached, 0) == []
  {
  }

  lemma {:induction false} FastestDays(reached: seq<Reached>, n: nat, i: nat, j: nat)
    requires WEBHOOK_CIRCUIT_FAILURE_THRESHOLD - 1 <= i <= j < n <= |reached|
    ensures Fastest(reached, j) - Fastest(reached, i)
      == Whole(FastestStreak(reached, n), i, j) * WEBHOOK_CIRCUIT_OPEN_MS
    decreases j
  {
    if i < j {
      FastestDays(reached, n, i, j - 1);
    }
  }

  /** How far the failures of a streak got. */
  function ReachedBy(streak: seq<Fail>): seq<Reached> {
    seq(|streak|, k requires 0 <= k < |streak| => streak[k].reached)
  }

  lemma ReachedTells(streak: seq<Fail>, reached: seq<Reached>)
    requires ReachedBy(streak) == reached
    ensures |streak| == |reached| && forall k | 0 <= k < |reached| :: streak[k].reached == reached[k]
  {
    assert forall k | 0 <= k < |reached| :: ReachedBy(streak)[k] == reached[k];
  }

  /** However far the failures get, some serial history is exactly as fast as `DaysPerWholeFailure` allows. */
  lemma DaysAreAttained(reached: seq<Reached>) returns (events: seq<Event>)
    ensures Serial(events) && ReachedBy(StreakOf(events)) == reached
    ensures forall i: nat, j: nat | WEBHOOK_CIRCUIT_FAILURE_THRESHOLD - 1 <= i <= j < |reached| ::
      StreakOf(events)[j].at - StreakOf(events)[i].at == Whole(StreakOf(events), i, j) * WEBHOOK_CIRCUIT_OPEN_MS
  {
    var n := |reached|;
    events := FastestEvents(reached, n);
    FastestIsSerial(reached, n);
    FastestRuns(reached, n);
    assert StreakOf(events) == FastestStreak(reached, n);
    hide StreakOf, Fastest, FastestEvents, Whole;
    forall i: nat, j: nat | WEBHOOK_CIRCUIT_FAILURE_THRESHOLD - 1 <= i <= j < n
      ensures StreakOf(events)[j].at - StreakOf(events)[i].at
        == Whole(StreakOf(events), i, j) * WEBHOOK_CIRCUIT_OPEN_MS
    {
      FastestDays(reached, n, i, j);
    }
  }

  /** In every history whose streak got as far as this, the tenth failure comes five days after the fifth. */
  ghost predicate FiveDaysGuaranteed(reached: seq<Reached>) {
    forall events: seq<Event> | Serial(events) && ReachedBy(StreakOf(events)) == reached ::
      FiveDaysIn(StreakOf(events))
  }

  predicate FiveDaysIn(streak: seq<Fail>) {
    |streak| >= DISABLE_AFTER ==> streak[9].at - streak[4].at >= 5 * WEBHOOK_CIRCUIT_OPEN_MS
  }

  /**
   * The tenth failure is sure to come at least five days after the fifth if and
   * only if failures five to nine all get past their last update; one that is
   * cut short by a read or an update that throws leaves the circuit closed.
   */
  lemma FiveDaysExactlyWhenWhole(reached: seq<Reached>)
    requires |reached| >= DISABLE_AFTER
    ensures FiveDaysGuaranteed(reached) <==> forall k | 4 <= k < 9 :: reached[k].Circuit?
  {
    var fastest := DaysAreAttained(reached);
    hide StreakOf, Serial, Whole, ReachedBy;
    ReachedTells(StreakOf(fastest), reached);
    WholeAtMostAll(StreakOf(fastest), 4, 9);
    if forall k | 4 <= k < 9 :: reached[k].Circuit? {
      forall events: seq<Event> | Serial(events) && ReachedBy(StreakOf(events)) == reached
        ensures FiveDaysIn(StreakOf(events))
      {
        ReachedTells(StreakOf(events), reached);
        WholeAtMostAll(StreakOf(events), 4, 9);
        DaysPerWholeFailure(events, 4, 9);
      }
    } else {
      assert StreakOf(fastest)[9].at - StreakOf(fastest)[4].at
        == Whole(StreakOf(fastest), 4, 9) * WEBHOOK_CIRCUIT_OPEN_MS;
      assert !FiveDaysIn(StreakOf(fastest));
    }
  }

  // ── disabling ──

  /** A failure that disables: the tenth or a later one, past the disabling update. */
  predicate Disables(streak: seq<Fail>, i: int) {
    DISABLE_AFTER - 1 <= i < |streak| && !streak[i].reached.Count?
  }

  predicate HasDisabling(streak: seq<Fail>) {
    exists i | 0 <= i < |streak| :: Disables(streak, i)
  }

  /** At some moment the running streak held a failure that disables. */
  predicate EverDisabled(events: seq<Event>) {
    exists n: nat | n <= |events| :: HasDisabling(StreakOf(events[..n]))
  }

  /**
   * A webhook is disabled exactly when some streak's tenth or later failure got
   * past the disabling update; nothing here enables it again.
   */
  lemma {:induction false} DisabledExactlyByTen(events: seq<Event>)
    requires Serial(events)
    ensures !Run(events).row.isActive <==> EverDisabled(events)
  {
    if events == [] {
      assert events[..0] == [];
    } else {
      var m := |events| - 1;
      var front := events[..m];
      DisabledExactlyByTen(front);
      EverGrows(events);
      var now := InvHolds(front);
      hide EverDisabled, Serial, Spaced, UntilOk, Streak;
      DisablingLast(front);
      DisablingStep(Run(front), now, events[m]);
    }
  }

  /** Disabled before, or within the last streak. */
  lemma EverGrows(events: seq<Event>)
    requires events != []
    ensures EverDisabled(events) <==>
      EverDisabled(events[..|events| - 1]) || HasDisabling(StreakOf(events))
  {
    var m := |events| - 1;
    hide StreakOf, HasDisabling;
    assert forall n: nat | n <= m :: events[..m][..n] == events[..n];
    assert events[..|events|] == events;
    if EverDisabled(events[..m]) {
      var n: nat :| n <= m && HasDisabling(StreakOf(events[..m][..n]));
      assert HasDisabling(StreakOf(events[..n]));
    }
    if EverDisabled(events) {
      var n: nat :| n <= |events| && HasDisabling(StreakOf(events[..n]));
      assert n <= m ==> HasDisabling(StreakOf(events[..m][..n]));
    }
  }

  lemma DisablingLast(events: seq<Event>)
    ensures HasDisabling(StreakOf(events)) ==> EverDisabled(events)
  {
    hide StreakOf, Disables;
    assert events[..|events|] == events;
  }

  lemma DisablingStep(h: History, now: int, e: Event)
    requires Fits(h.row, Streak(h.sent), now)
    requires HasDisabling(Streak(h.sent)) ==> !h.row.isActive
    ensures !Step(h, e).row.isActive <==> !h.row.isActive || HasDisabling(Streak(Step(h, e).sent))
  {
    hide Spaced, UntilOk, Streak, IsOpen;
    if e.AdminReset? {
      StreakAppend(h.sent, Cleared);
    } else if !IsOpen(h.row, e.startAt) {
      StreakAppend(h.sent, Sent(e.endAt, e.attempt));
      if e.attempt.Failure? {
        var kept := if e.attempt.cleared then [] else Streak(h.sent);
        DisablingAppend(kept, Fail(e.endAt, e.attempt.reached));
      }
    }
  }

  lemma DisablingAppend(streak: seq<Fail>, fail: Fail)
    ensures HasDisabling(streak + [fail]) <==>
      HasDisabling(streak) || (|streak| + 1 >= DISABLE_AFTER && !fail.reached.Count?)
  {
    var longer := streak + [fail];
    assert forall i | 0 <= i < |streak| :: longer[i] == streak[i] && (Disables(longer, i) <==> Disables(streak, i));
    assert Disables(longer, |streak|) <==> |streak| + 1 >= DISABLE_AFTER && !fail.reached.Count?;
  }

  // ── what failures that are cut short can do ──

  /** Failures at one moment, each cut short at the same place. */
  function AtOnce(n: nat, reached: Reached): seq<Event> {
    seq(n, _ => Delivery(0, 0, Failure(false, reached)))
  }

  function Alike(n: nat, reached: Reached): seq<Reached> {
    seq(n, _ => reached)
  }

  lemma {:induction false} NoTime(reached: seq<Reached>, n: nat)
    requires n <= |reached| && forall k | 0 <= k < |reached| :: !reached[k].Circuit?
    ensures Fastest(reached, n) == 0
  {
    if n > 0 {
      NoTime(reached, n - 1);
    }
  }

  lemma AtOnceRuns(n: nat, reached: Reached)
    requires !reached.Circuit?
    ensures Serial(AtOnce(n, reached))
    ensures StreakOf(AtOnce(n, reached)) == seq(n, _ => Fail(0, reached))
  {
    var pattern := Alike(n, reached);
    forall k: nat | k < n ensures Fastest(pattern, k) == 0 {
      NoTime(pattern, k);
    }
    hide Fastest;
    assert FastestEvents(pattern, n) == AtOnce(n, reached);
    assert FastestStreak(pattern, n) == seq(n, _ => Fail(0, reached));
    FastestRuns(pattern, n);
    FastestIsSerial(pattern, n);
  }

  /** Ten failures at one moment, each cut short after the disabling, disable a webhook at once. */
  lemma DisabledAtOnce()
    ensures Serial(AtOnce(10, Disabling)) && !Run(AtOnce(10, Disabling)).row.isActive
    ensures |StreakOf(AtOnce(10, Disabling))| == 10
    ensures StreakOf(AtOnce(10, Disabling))[9].at - StreakOf(AtOnce(10, Disabling))[4].at == 0
  {
    var events := AtOnce(10, Disabling);
    AtOnceRuns(10, Disabling);
    hide AtOnce, StreakOf, Serial, Run;
    assert Disables(StreakOf(events), 9);
    DisablingLast(events);
    DisabledExactlyByTen(events);
  }

  /** Any number of failures, each cut short before the disabling, are all counted and leave a webhook enabled. */
  lemma NeverDisabled(n: nat)
    ensures Serial(AtOnce(n, Count))
    ensures Run(AtOnce(n, Count)).row.failureCount == n && Run(AtOnce(n, Count)).row.isActive
  {
    var events := AtOnce(n, Count);
    AtOnceRuns(n, Count);
    CountIsStreak(events);
    DisabledExactlyByTen(events);
    if EverDisabled(events) {
      var k: nat :| k <= |events| && HasDisabling(StreakOf(events[..k]));
      assert events[..k] == AtOnce(k, Count);
      AtOnceRuns(k, Count);
      assert false;
    }
  }
}

/** The jobs that one delivery leads to: each failed one puts the next into the queue. */
module WebhookRetries {
  import opened Wrappers
  import opened Updates
  import opened WebhookDelivery

  /** What a job finds and meets: the row, or none, its times, and what goes wrong. */
  datatype Job = Job(row: Option<Webhook>, startAt: int, endAt: int, f: Faults)

  function Ends(job: Job, attemptNumber: nat, maxAttempts: nat): Outcome {
    JobOutcome(job.row, attemptNumber, maxAttempts, job.startAt, job.endAt, job.f)
  }

  /** The job of each attempt number, if it comes to run. */
  type Jobs = nat -> Job

  /** The attempt that a job puts into the queue. */
  function Next(outcome: Outcome): Option<nat> {
    if outcome.Failed? then outcome.retry else None
  }

  lemma NextIsOneMore(job: Job, attemptNumber: nat, maxAttempts: nat)
    ensures var next := Next(Ends(job, attemptNumber, maxAttempts));
      next.Some? ==> next.value == attemptNumber + 1 <= maxAttempts
  {
  }

  /** The attempt numbers of the jobs that run, following what each puts into the queue. */
  function Chain(jobs: Jobs, attemptNumber: nat, maxAttempts: nat): seq<nat>
    decreases maxAttempts - attemptNumber
  {
    NextIsOneMore(jobs(attemptNumber), attemptNumber, maxAttempts);
    match Next(Ends(jobs(attemptNumber), attemptNumber, maxAttempts))
    case None => [attemptNumber]
    case Some(next) => [attemptNumber] + Chain(jobs, next, maxAttempts)
  }

  /**
   * The endpoint was asked and the delivery failed, every step of the failure's
   * bookkeeping was made, it did not open the circuit, and the queue took the retry.
   */
  predicate FailsPlainly(job: Job) {
    var f := job.f;
    && !f.firstRead && !f.failureLog && !f.requeue && f.counting.Made?
    && (f.request || f.successLog || !f.clearing.Made?)
    && match job.row
       case None => true
       case Some(w) =>
         var cleared := !f.request && !f.successLog && f.clearing.MadeUnheard?;
         var n := if cleared then 1 else w.failureCount + 1;
         var until := if cleared then None else w.circuitOpenUntil;
         && (w.circuitOpenUntil == None || w.circuitOpenUntil.value <= job.startAt)
         && !f.rowRead && !f.merchantRead
         && (n >= 10 && w.isActive ==> f.disabling.Made?)
         && (n < 5 || (until.Some? && until.value > job.endAt))
  }

  /** A job is followed by another exactly when it fails plainly and attempts are left. */
  lemma FollowedExactly(job: Job, attemptNumber: nat, maxAttempts: nat)
    ensures Next(Ends(job, attemptNumber, maxAttempts)) ==
      if FailsPlainly(job) && attemptNumber < maxAttempts then Some(attemptNumber + 1) else None
  {
  }

  /** All jobs from one attempt number up to another fail plainly. */
  predicate AllFail(jobs: Jobs, from: nat, to: nat) {
    forall k: nat | from <= k < to :: FailsPlainly(jobs(k))
  }

  /**
   * Attempt numbers go up by one from the first job's. There are at most
   * `maxAttempts - attemptNumber + 1` jobs, or one if that is less, and exactly
   * as many if and only if all but the last of them fail plainly.
   */
  lemma {:induction false} RetriesEnd(jobs: Jobs, attemptNumber: nat, maxAttempts: nat)
    ensures forall i | 0 <= i < |Chain(jobs, attemptNumber, maxAttempts)| ::
      Chain(jobs, attemptNumber, maxAttempts)[i] == attemptNumber + i
    ensures attemptNumber > maxAttempts ==> |Chain(jobs, attemptNumber, maxAttempts)| == 1
    ensures attemptNumber <= maxAttempts ==>
      && |Chain(jobs, attemptNumber, maxAttempts)| <= maxAttempts - attemptNumber + 1
      && (|Chain(jobs, attemptNumber, maxAttempts)| == maxAttempts - attemptNumber + 1
          <==> AllFail(jobs, attemptNumber, maxAttempts))
    decreases maxAttempts - attemptNumber
  {
    FollowedExactly(jobs(attemptNumber), attemptNumber, maxAttempts);
    hide FailsPlainly, Ends;
    if FailsPlainly(jobs(attemptNumber)) && attemptNumber < maxAttempts {
      RetriesEnd(jobs, attemptNumber + 1, maxAttempts);
      assert AllFail(jobs, attemptNumber, maxAttempts) <==> AllFail(jobs, attemptNumber + 1, maxAttempts);
    }
  }
}

/** Replay of missed events (src/webhooks/webhooks.service.ts:162-195). */
module WebhookReplay {
  import opened Wrappers
  import opened Text

  const TAKE := 500

  datatype Log = Log(webhookId: string, event: string, requestBody: string, createdAt: int)

  function Key(log: Log): string {
    log.webhookId + ":" + log.event
  }

  predicate NoColon(id: string) {
    forall i | 0 <= i < |id| :: id[i] != ':'
  }

  lemma {:induction false} SameStart(a: string, b: string, x: string, y: string)
    requires NoColon(a) && NoColon(b) && a + ":" + x == b + ":" + y
    ensures a == b && x == y
  {
    var s := a + ":" + x;
    assert s[0] == if a == "" then ':' else a[0];
    assert s[0] == if b == "" then ':' else b[0];
    if a == "" || b == "" {
      assert s[1..] == x && (b == "" ==> s[1..] == y);
    } else {
      assert s[1..] == a[1..] + ":" + x && s[1..] == b[1..] + ":" + y;
      SameStart(a[1..], b[1..], x, y);
      assert a == [a[0]] + a[1..] && b == [b[0]] + b[1..];
    }
  }

  /** Identifiers hold no colon, so the key tells webhook and event apart. */
  lemma KeyIsPair(a: Log, b: Log)
    requires NoColon(a.webhookId) && NoColon(b.webhookId)
    ensures Key(a) == Key(b) <==> SamePair(a, b)
  {
    if Key(a) == Key(b) {
      SameStart(a.webhookId, b.webhookId, a.event, b.event);
    }
  }

  predicate NewestFirst(logs: seq<Log>) {
    forall i, j | 0 <= i < j < |logs| :: logs[i].createdAt >= logs[j].createdAt
  }

  predicate SamePair(a: Log, b: Log) {
    a.webhookId == b.webhookId && a.event == b.event
  }

  /** Position `i` holds the first log of its webhook and event. */
  predicate IsFirst(logs: seq<Log>, i: nat)
    requires i < |logs|
  {
    forall j | 0 <= j < i :: !SamePair(logs[j], logs[i])
  }

  /** The logs to send again, by position. */
  function Firsts(logs: seq<Log>, n: nat): seq<nat>
    requires n <= |logs|
  {
    if n == 0 then [] else Firsts(logs, n - 1) + if IsFirst(logs, n - 1) then [n - 1] else []
  }

  /**
   * `found` is the answer to the query without its limit, newest first; every
   * log belongs to one of the active webhooks that were asked for.
   */
  method Replay(found: seq<Log>, byId: set<string>) returns (enqueued: seq<Log>, replayed: nat)
    requires forall i | 0 <= i < |found| :: found[i].webhookId in byId && NoColon(found[i].webhookId)
    ensures var logs := if |found| > 500 then found[..500] else found;
      && replayed == |enqueued| == |Firsts(logs, |logs|)|
      && forall k | 0 <= k < |enqueued| && Firsts(logs, |logs|)[k] < |logs| ::
           enqueued[k] == logs[Firsts(logs, |logs|)[k]]
  {
    var logs := if |found| > TAKE then found[..TAKE] else found;
    var seen: set<string> := {};
    enqueued, replayed := [], 0;
    for i := 0 to |logs|
      invariant seen == set j | 0 <= j < i :: Key(logs[j])
      invariant replayed == |enqueued| == |Firsts(logs, i)|
      invariant forall k | 0 <= k < |enqueued| :: Firsts(logs, i)[k] < i && enqueued[k] == logs[Firsts(logs, i)[k]]
    {
      var key := Key(logs[i]);
      SeenMeansEarlier(logs, i, seen);
      if key !in seen && logs[i].webhookId in byId {
        enqueued := enqueued + [logs[i]];
        replayed := replayed + 1;
      }
      seen := seen + {key};
    }
  }

  lemma SeenMeansEarlier(logs: seq<Log>, i: nat, seen: set<string>)
    requires i < |logs| && forall j | 0 <= j < |logs| :: NoColon(logs[j].webhookId)
    requires seen == set j | 0 <= j < i :: Key(logs[j])
    ensures Key(logs[i]) in seen <==> !IsFirst(logs, i)
  {
    forall j | 0 <= j < i ensures Key(logs[j]) == Key(logs[i]) <==> SamePair(logs[j], logs[i]) {
      KeyIsPair(logs[j], logs[i]);
    }
  }

  lemma {:induction false} FirstsAscend(logs: seq<Log>, n: nat)
    requires n <= |logs|
    ensures forall k | 0 <= k < |Firsts(logs, n)| :: Firsts(logs, n)[k] < n && IsFirst(logs, Firsts(logs, n)[k])
    ensures forall k, l | 0 <= k < l < |Firsts(logs, n)| :: Firsts(logs, n)[k] < Firsts(logs, n)[l]
    ensures forall j: nat | j < n && IsFirst(logs, j) :: j in Firsts(logs, n)
  {
    hide IsFirst;
    if n > 0 {
      FirstsAscend(logs, n - 1);
    }
  }

  lemma {:induction false} FirstOf(logs: seq<Log>, j: nat) returns (i: nat)
    requires j < |logs|
    ensures i <= j && IsFirst(logs, i) && SamePair(logs[i], logs[j])
  {
    if IsFirst(logs, j) {
      i := j;
    } else {
      var earlier: nat :| earlier < j && SamePair(logs[earlier], logs[j]);
      i := FirstOf(logs, earlier);
    }
  }

  /** Each webhook and event in the logs is sent exactly once, and what is sent is its latest log. */
  lemma EachPairOnce(logs: seq<Log>, j: nat)
    requires NewestFirst(logs) && j < |logs|
    ensures exists k :: 0 <= k < |Firsts(logs, |logs|)| && IsSentFor(logs, k, j)
    ensures forall k, l | 0 <= k < |Firsts(logs, |logs|)| && 0 <= l < |Firsts(logs, |logs|)|
      && IsSentFor(logs, k, j) && IsSentFor(logs, l, j) :: k == l
  {
    var firsts := Firsts(logs, |logs|);
    FirstsAscend(logs, |logs|);
    hide Firsts;
    var i := FirstOf(logs, j);
    var k :| 0 <= k < |firsts| && firsts[k] == i;
    assert IsSentFor(logs, k, j);
    forall k, l | 0 <= k < l < |firsts| && IsSentFor(logs, k, j) ensures !IsSentFor(logs, l, j) {
      assert IsFirst(logs, firsts[l]) && firsts[k] < firsts[l];
    }
  }

  /** The `k`-th log to be sent is for the same webhook and event as log `j`, and no older. */
  predicate IsSentFor(logs: seq<Log>, k: nat, j: nat)
    requires j < |logs|
  {
    && k < |Firsts(logs, |logs|)| && Firsts(logs, |logs|)[k] < |logs|
    && SamePair(logs[Firsts(logs, |logs|)[k]], logs[j])
    && logs[Firsts(logs, |logs|)[k]].createdAt >= logs[j].createdAt
  }
}
