/**
 * The Soroban event indexer (src/stellar/soroban-event-indexer.service.ts).
 * `log` is everything the contract will ever emit; the part of it up to ledger
 * `latest` is visible, whole ledgers at a time. A paging token is the position
 * of an event in the log.
 */
module SorobanEventIndexer {
  import opened Wrappers

  const PAGE_LIMIT := 200
  const MAX_SKIPPED_POLLS := 3

  /** `Number(value.amount ?? 0)` is all that is asked of an amount. */
  datatype Amount = NoAmount | Numeric | NotANumber

  datatype Payload = Payload(
    paymentReference: Option<string>,
    settlementId: Option<string>,
    reference: Option<string>,
    txHash: Option<string>,
    amount: Amount)

  datatype Event = Event(pagingToken: nat, ledger: nat, topic: seq<string>, value: Option<Payload>)

  /** What the listeners get. */
  datatype Dto = PaymentConfirmed(paymentReference: string, txHash: string) | SettlementCompleted(settlementId: string)

  datatype Parsed = Parsed(dto: Dto) | Unknown | Invalid

  function Text(first: Option<string>, second: Option<string>): string {
    match (first, second)
    case (Some(text), _) => text
    case (None, Some(text)) => text
    case _ => ""
  }

  function ParseEvent(raw: Event): Parsed {
    var value := if raw.value.Some? then raw.value.value else Payload(None, None, None, None, NoAmount);
    if raw.topic == [] || raw.topic[0] == "" then Unknown
    else if raw.topic[0] == "payment_confirmed" then
      var paymentReference := Text(value.paymentReference, value.reference);
      var txHash := Text(value.txHash, None);
      if paymentReference == "" || txHash == "" || value.amount.NotANumber? then Invalid
      else Parsed(PaymentConfirmed(paymentReference, txHash))
    else if raw.topic[0] == "settlement_completed" then
      var settlementId := Text(value.settlementId, value.reference);
      if settlementId == "" then Invalid else Parsed(SettlementCompleted(settlementId))
    else Unknown
  }

  // ── what the fields of an event say ──

  predicate KnownTopic(e: Event) {
    e.topic != [] && (e.topic[0] == "payment_confirmed" || e.topic[0] == "settlement_completed")
  }

  /** A text that is given under its own name or, that missing, as the general reference. */
  predicate Gives(own: Option<string>, reference: Option<string>, text: string) {
    text != "" && (own == Some(text) || (own == None && reference == Some(text)))
  }

  /** The topic and the payload of the event hold this notice. */
  predicate Carries(e: Event, dto: Dto) {
    && e.topic != [] && e.value.Some?
    && var value := e.value.value;
       match dto
       case PaymentConfirmed(paymentReference, txHash) =>
         && e.topic[0] == "payment_confirmed"
         && Gives(value.paymentReference, value.reference, paymentReference)
         && txHash != "" && value.txHash == Some(txHash)
         && (value.amount.NoAmount? || value.amount.Numeric?)
       case SettlementCompleted(settlementId) =>
         && e.topic[0] == "settlement_completed"
         && Gives(value.settlementId, value.reference, settlementId)
  }

  ghost predicate ValidPayload(e: Event) {
    exists dto: Dto :: Carries(e, dto)
  }

  datatype Outcome = Dispatched(dto: Dto) | Ignored | DeadLettered

  /** What the environment does: growth of the chain and RPC failures by request, listeners, dead letters, the cache. */
  datatype Env = Env(
    growth: nat -> nat,
    rpcFails: nat -> bool,
    listenerFails: nat -> bool,
    deadLetterFails: nat -> bool,
    save: Save)

  /** `SaveLost` stores the cursor and throws all the same. */
  datatype Save = Saved | SaveFails | SaveLost

  /** None: the dead letter could not be written, which ends the poll. */
  function OutcomeOf(e: Event, env: Env): Option<Outcome> {
    var parsed := ParseEvent(e);
    if parsed.Unknown? then Some(Ignored)
    else if parsed.Parsed? && !env.listenerFails(e.pagingToken) then Some(Dispatched(parsed.dto))
    else if env.deadLetterFails(e.pagingToken) then None
    else Some(DeadLettered)
  }

  lemma ParsedIsCarried(e: Event, dto: Dto)
    ensures ParseEvent(e) == Parsed(dto) <==> Carries(e, dto)
    ensures ParseEvent(e) == Unknown <==> !KnownTopic(e)
  {
  }

  /** An event is valid exactly when the parser makes something of it. */
  lemma ValidIsParsed(e: Event)
    ensures ValidPayload(e) <==> ParseEvent(e).Parsed?
    ensures ValidPayload(e) ==> KnownTopic(e)
  {
    if ParseEvent(e).Parsed? {
      ParsedIsCarried(e, ParseEvent(e).dto);
    }
    if ValidPayload(e) {
      var dto :| Carries(e, dto);
      ParsedIsCarried(e, dto);
    }
  }

  /**
   * From the fields alone: a notice goes to the listeners exactly when the event
   * carries it and they succeed; exactly the other topics are ignored; all else
   * is a dead letter, or the end of the poll if that cannot be written.
   */
  lemma OutcomeExactly(e: Event, env: Env)
    ensures forall dto: Dto ::
      OutcomeOf(e, env) == Some(Dispatched(dto)) <==> Carries(e, dto) && !env.listenerFails(e.pagingToken)
    ensures OutcomeOf(e, env) == Some(Ignored) <==> !KnownTopic(e)
    ensures var fails := KnownTopic(e) && (!ValidPayload(e) || env.listenerFails(e.pagingToken));
      && (OutcomeOf(e, env) == Some(DeadLettered) <==> fails && !env.deadLetterFails(e.pagingToken))
      && (OutcomeOf(e, env) == None <==> fails && env.deadLetterFails(e.pagingToken))
  {
    ValidIsParsed(e);
    forall dto: Dto
      ensures ParseEvent(e) == Parsed(dto) <==> Carries(e, dto)
      ensures ParseEvent(e) == Unknown <==> !KnownTopic(e)
    {
      ParsedIsCarried(e, dto);
    }
    hide ParseEvent, KnownTopic, Carries, ValidPayload;
    assert ParseEvent(e) == Unknown <==> !KnownTopic(e) by {
      ParsedIsCarried(e, SettlementCompleted(""));
    }
  }

  /** One handled event: its position, what became of it, and the poll that handled it. */
  datatype Visit = Visit(index: nat, outcome: Outcome, poll: nat)

  predicate WellFormed(log: seq<Event>) {
    && (forall i | 0 <= i < |log| :: log[i].pagingToken == i && log[i].ledger >= 1)
    && (forall i, j | 0 <= i < j < |log| :: log[i].ledger <= log[j].ledger)
  }

  /** The number of events up to and including `ledger`. */
  function Count(log: seq<Event>, ledger: int): nat {
    if log == [] then 0
    else if log[|log| - 1].ledger <= ledger then |log|
    else Count(log[..|log| - 1], ledger)
  }

  lemma {:induction false} CountSplits(log: seq<Event>, ledger: int)
    requires WellFormed(log)
    ensures Count(log, ledger) <= |log|
    ensures forall i | 0 <= i < |log| :: i < Count(log, ledger) <==> log[i].ledger <= ledger
  {
    var n := |log| - 1;
    if log != [] && log[n].ledger > ledger {
      CountSplits(log[..n], ledger);
      assert forall i | 0 <= i < n :: log[..n][i] == log[i];
    }
  }

  lemma NothingAtZero(log: seq<Event>)
    requires WellFormed(log)
    ensures Count(log, 0) == 0
  {
    CountSplits(log, 0);
    if log != [] {
      assert log[0].ledger >= 1;
    }
  }

  lemma CountGrows(log: seq<Event>, a: int, b: int)
    requires WellFormed(log) && a <= b
    ensures Count(log, a) <= Count(log, b) <= |log|
  {
    CountSplits(log, a);
    CountSplits(log, b);
  }

  /** Where a request starts to read. */
  function Position(log: seq<Event>, startLedger: Option<nat>, pageCursor: Option<nat>): nat {
    if pageCursor.Some? then pageCursor.value + 1
    else if startLedger.Some? then Count(log, startLedger.value as int - 1)
    else 0
  }

  function PageFrom(log: seq<Event>, from: nat, end: nat): seq<Event>
    requires from <= end <= |log|
  {
    log[from..if end - from > PAGE_LIMIT then from + PAGE_LIMIT else end]
  }

  lemma PageIs(log: seq<Event>, from: nat, end: nat)
    requires WellFormed(log) && from <= end <= |log|
    ensures var page := PageFrom(log, from, end);
      && |page| <= PAGE_LIMIT && from + |page| <= end
      && page == log[from..from + |page|]
      && (page == [] || |page| < PAGE_LIMIT ==> from + |page| == end)
      && (page != [] ==> page[|page| - 1].pagingToken + 1 == from + |page|)
  {
  }

  function Max(a: int, b: int): int {
    if a < b then b else a
  }

  function Last(cursor: Option<nat>): nat {
    if cursor.Some? then cursor.value else 0
  }

  /** The highest ledger dispatched so far, starting from the stored cursor. */
  function Best(log: seq<Event>, last: nat, visits: seq<Visit>): nat {
    if visits == [] then last
    else
      var v := visits[|visits| - 1];
      var best := Best(log, last, visits[..|visits| - 1]);
      if v.outcome.Dispatched? && v.index < |log| then Max(best, log[v.index].ledger) else best
  }

  /** The visits of poll `poll` to the `n` events from position `from` on. */
  function Visits(log: seq<Event>, from: nat, n: nat, env: Env, poll: nat): seq<Visit> {
    seq(n, k requires 0 <= k < n => Visit(from + k, Handled(log, from + k, env), poll))
  }

  function Handled(log: seq<Event>, i: nat, env: Env): Outcome {
    if i < |log| && OutcomeOf(log[i], env).Some? then OutcomeOf(log[i], env).value else Ignored
  }

  /** Only full pages so far, so the next request may well return nothing. */
  predicate WholePages(n: nat) {
    n % PAGE_LIMIT == 0
  }

  lemma WholePagesNext(n: nat, m: nat)
    requires WholePages(n) && m <= PAGE_LIMIT
    ensures WholePages(n + m) <==> m == 0 || m == PAGE_LIMIT
  {
  }

  /** The cursor a poll ends with; only an empty page, which comes after full ones, counts the reported ledger. */
  function NextCursor(log: seq<Event>, last: nat, visits: seq<Visit>, reported: nat): nat {
    var best := Best(log, last, visits);
    if WholePages(|visits|) then Max(best, reported) else best
  }

  datatype State = State(latest: nat, cursor: Option<nat>, trace: seq<Visit>, polls: nat, completed: set<nat>)

  /**
   * A poll handles the `n` events after the cursor in order, once each. If it
   * gets to the end, they are all the events up to the ledger of the last
   * reply, and the cursor moves; if it ends early the cursor stays, unless the
   * last thing to fail was the reply to storing it.
   */
  predicate PollStep(log: seq<Event>, s: State, t: State, n: nat, reported: nat, done: bool, env: Env) {
    var last := Last(s.cursor);
    var from := Count(log, last);
    && from + n <= Count(log, t.latest) <= |log|
    && s.latest <= t.latest
    && (forall i | from <= i < from + n :: OutcomeOf(log[i], env).Some?)
    && t.trace == s.trace + Visits(log, from, n, env, s.polls)
    && t.polls == s.polls + 1
    && t.completed == s.completed + (if done then {s.polls} else {})
    && var next := NextCursor(log, last, Visits(log, from, n, env, s.polls), reported);
       if done then AtEnd(log, s, t, n, reported) && t.cursor == (if next > last then Some(next) else s.cursor)
       else t.cursor == s.cursor || (AtEnd(log, s, t, n, reported) && next > last && t.cursor == Some(next))
  }

  /** The `n` events after the cursor are all up to the ledger of the last reply. */
  predicate AtEnd(log: seq<Event>, s: State, t: State, n: nat, reported: nat) {
    s.latest <= reported <= t.latest && Count(log, Last(s.cursor)) + n == Count(log, reported)
  }

  lemma VisitsAppend(log: seq<Event>, from: nat, n: nat, env: Env, poll: nat)
    requires from + n < |log|
    requires OutcomeOf(log[from + n], env).Some?
    ensures Visits(log, from, n + 1, env, poll)
      == Visits(log, from, n, env, poll) + [Visit(from + n, OutcomeOf(log[from + n], env).value, poll)]
  {
    hide OutcomeOf;
    assert Handled(log, from + n, env) == OutcomeOf(log[from + n], env).value;
    hide Handled;
  }

  lemma BestAppend(log: seq<Event>, last: nat, visits: seq<Visit>, v: Visit)
    requires v.index < |log|
    ensures Best(log, last, visits + [v])
      == if v.outcome.Dispatched? then Max(Best(log, last, visits), log[v.index].ledger) else Best(log, last, visits)
  {
    assert (visits + [v])[..|visits|] == visits;
  }

  /** How far a poll has come: `n` events after position `from`, on top of an earlier trace. */
  datatype Progress = Progress(base: seq<Visit>, last: nat, from: nat, n: nat)

  datatype PageEnd = Failed | LastPage | FullPage

  /** How progress `p` turns into `q` with one page; `best` is the highest ledger dispatched by then. */
  predicate PageTaken(log: seq<Event>, reported: nat, p: Progress, q: Progress, end: PageEnd, cursorLedger: nat,
                      token: nat, best: nat)
  {
    && q == p.(n := q.n) && q.from + q.n <= Count(log, reported)
    && (end.LastPage? ==>
          && q.from + q.n == Count(log, reported)
          && cursorLedger == if WholePages(q.n) then Max(best, reported) else best)
    && (end.FullPage? ==>
          q.n > p.n && WholePages(q.n) && token + 1 == q.from + q.n && cursorLedger == best)
  }

  predicate InProgress(log: seq<Event>, env: Env, poll: nat, p: Progress, trace: seq<Visit>, cursorLedger: nat) {
    && p.from + p.n <= |log|
    && (forall i | p.from <= i < p.from + p.n :: OutcomeOf(log[i], env).Some?)
    && trace == p.base + Visits(log, p.from, p.n, env, poll)
    && cursorLedger == Best(log, p.last, Visits(log, p.from, p.n, env, poll))
  }

  lemma ProgressStep(log: seq<Event>, env: Env, poll: nat, p: Progress, trace: seq<Visit>, before: nat,
                     outcome: Outcome)
    requires InProgress(log, env, poll, p, trace, before)
    requires p.from + p.n < |log| && OutcomeOf(log[p.from + p.n], env) == Some(outcome)
    ensures InProgress(log, env, poll, p.(n := p.n + 1), trace + [Visit(p.from + p.n, outcome, poll)],
      if outcome.Dispatched? then Max(before, log[p.from + p.n].ledger) else before)
  {
    hide OutcomeOf, Visits, Best;
    VisitsAppend(log, p.from, p.n, env, poll);
    BestAppend(log, p.last, Visits(log, p.from, p.n, env, poll), Visit(p.from + p.n, outcome, poll));
  }

  class SorobanEventIndexer {
    const log: seq<Event>
    const contractId: string
    var latest: nat
    var cursor: Option<nat>
    var polling: bool
    var skippedPolls: nat
    var alerts: nat
    ghost var trace: seq<Visit>
    ghost var polls: nat
    ghost var completed: set<nat>

    constructor (log: seq<Event>, contractId: string)
      requires WellFormed(log)
      ensures Valid() && this.log == log && this.contractId == contractId
      ensures AsState() == State(0, None, [], 0, {}) && !polling && skippedPolls == 0
    {
      this.log, this.contractId := log, contractId;
      latest, cursor, polling, skippedPolls, alerts := 0, None, false, 0, 0;
      trace, polls, completed := [], 0, {};
    }

    ghost predicate Valid()
      reads this
    {
      WellFormed(log) && Last(cursor) <= latest
    }

    ghost function AsState(): State
      reads this
    {
      State(latest, cursor, trace, polls, completed)
    }

    /** One RPC request; the chain may have grown since the last one. None: it failed. */
    method GetEvents(startLedger: Option<nat>, pageCursor: Option<nat>, growth: nat, fails: bool)
      returns (reply: Option<(seq<Event>, nat)>)
      requires WellFormed(log) && Position(log, startLedger, pageCursor) <= Count(log, latest)
      modifies this`latest
      ensures old(latest) <= latest && Count(log, old(latest)) <= Count(log, latest) <= |log|
      ensures fails <==> reply.None?
      ensures !fails ==>
        && reply.value.1 == latest
        && reply.value.0 == PageFrom(log, Position(log, startLedger, pageCursor), Count(log, latest))
    {
      CountGrows(log, latest, latest + growth);
      latest := latest + growth;
      if fails {
        return None;
      }
      return Some((PageFrom(log, Position(log, startLedger, pageCursor), Count(log, latest)), latest));
    }

    /** The body of the event loop; None when the dead letter could not be written. */
    method HandleEvent(event: Event, env: Env) returns (outcome: Option<Outcome>)
      ensures outcome == OutcomeOf(event, env)
      ensures forall dto: Dto ::
        outcome == Some(Dispatched(dto)) <==> Carries(event, dto) && !env.listenerFails(event.pagingToken)
      ensures outcome == Some(Ignored) <==> !KnownTopic(event)
      ensures outcome == None ==> env.deadLetterFails(event.pagingToken)
    {
      OutcomeExactly(event, env);
      hide ParseEvent, KnownTopic, Carries, ValidPayload;
      var parsed := ParseEvent(event);
      if parsed.Unknown? {
        return Some(Ignored);
      }
      var failed := parsed.Invalid?;
      if !failed {
        failed := env.listenerFails(event.pagingToken);
      }
      if !failed {
        return Some(Dispatched(parsed.dto));
      }
      if env.deadLetterFails(event.pagingToken) {
        return None;
      }
      return Some(DeadLettered);
    }

    /** The events of one page, handled one after another until one fails for good. */
    method HandlePage(events: seq<Event>, before: nat, env: Env, ghost p: Progress)
      returns (cursorLedger: nat, ok: bool, ghost q: Progress)
      requires WellFormed(log) && InProgress(log, env, polls, p, trace, before)
      requires p.from + p.n + |events| <= |log| && events == log[p.from + p.n..p.from + p.n + |events|]
      modifies this`trace
      ensures InProgress(log, env, polls, q, trace, cursorLedger)
      ensures q == p.(n := q.n) && p.n <= q.n <= p.n + |events|
      ensures ok <==> q.n == p.n + |events|
    {
      cursorLedger, ok, q := before, true, p;
      hide OutcomeOf, InProgress;
      for j := 0 to |events|
        invariant ok && q == p.(n := p.n + j)
        invariant InProgress(log, env, polls, q, trace, cursorLedger)
      {
        var event := events[j];
        assert event == log[p.from + p.n + j];
        var outcome := HandleEvent(event, env);
        if outcome.None? {
          ok := false;
          return;
        }
        ProgressStep(log, env, polls, q, trace, cursorLedger, outcome.value);
        if outcome.value.Dispatched? {
          cursorLedger := Max(cursorLedger, event.ledger);
        }
        trace := trace + [Visit(p.from + p.n + j, outcome.value, polls)];
        q := q.(n := q.n + 1);
      }
    }

    /**
     * `busy` means that the cron service still runs a job of this name; it then
     * returns at once, and the poll takes that for a success. `done` means that
     * the job itself ran and ended without an exception.
     */
    method PollEvents(busy: bool, env: Env) returns (done: bool, ghost n: nat, ghost reported: nat)
      requires Valid()
      modifies this
      ensures Valid()
      ensures if old(polling) then
          && !done && AsState() == old(AsState()) && polling
          && skippedPolls == old(skippedPolls) + 1
          && alerts == old(alerts) + if skippedPolls > 3 then 1 else 0
        else
          && !polling && alerts == old(alerts)
          && if contractId == "" then
               !done && AsState() == old(AsState()) && skippedPolls == old(skippedPolls)
             else if busy then
               !done && AsState() == old(AsState()) && skippedPolls == 0
             else
               && skippedPolls == (if done then 0 else old(skippedPolls))
               && PollStep(log, old(AsState()), AsState(), n, reported, done, env)
    {
      done, n, reported := false, 0, latest;
      if polling {
        skippedPolls := skippedPolls + 1;
        if skippedPolls > MAX_SKIPPED_POLLS {
          alerts := alerts + 1;
        }
        return;
      }
      if contractId == "" {
        return;
      }
      polling := true;
      if busy {
        skippedPolls := 0;
      } else {
        done, n, reported := IndexEvents(env);
        if done {
          skippedPolls := 0;
        }
      }
      polling := false;
    }

    /** The job itself: page after page, then the cursor. */
    method IndexEvents(env: Env) returns (done: bool, ghost n: nat, ghost reported: nat)
      requires Valid()
      modifies this`latest, this`cursor, this`trace, this`polls, this`completed
      ensures Valid() && PollStep(log, old(AsState()), AsState(), n, reported, done, env)
    {
      var lastLedger := Last(cursor);
      var cursorLedger;
      ghost var q;
      ghost var best;
      done, cursorLedger, q, best, reported := ReadPages(lastLedger, env);
      n := q.n;
      BestAtMost(log, lastLedger, q.from, n, env, polls, latest);
      if done && cursorLedger > lastLedger {
        if env.save != SaveFails {
          cursor := Some(cursorLedger);
        }
        done := env.save == Saved;
      }
      completed := completed + if done then {polls} else {};
      polls := polls + 1;
    }

    /** What a turn of the paging loop does with the page it got. */
    method TakePage(events: seq<Event>, latestLedger: nat, before: nat, env: Env, ghost p: Progress)
      returns (end: PageEnd, cursorLedger: nat, token: nat, ghost q: Progress, ghost best: nat)
      requires WellFormed(log) && p.from + p.n <= Count(log, latestLedger) <= |log|
      requires events == PageFrom(log, p.from + p.n, Count(log, latestLedger))
      requires InProgress(log, env, polls, p, trace, before) && WholePages(p.n)
      modifies this`trace
      ensures InProgress(log, env, polls, q, trace, best)
      ensures PageTaken(log, latestLedger, p, q, end, cursorLedger, token, best)
    {
      PageIs(log, p.from + p.n, Count(log, latestLedger));
      WholePagesNext(p.n, |events|);
      hide Count, OutcomeOf, WellFormed, InProgress, Position, WholePages, PageFrom, Best, Visits, Max;
      end, cursorLedger, token, q, best := Failed, before, 0, p, before;
      if events == [] {
        cursorLedger := Max(before, latestLedger);
        end := LastPage;
      } else {
        var ok;
        cursorLedger, ok, q := HandlePage(events, before, env, p);
        best := cursorLedger;
        if ok {
          token := events[|events| - 1].pagingToken;
          end := if |events| < PAGE_LIMIT then LastPage else FullPage;
        }
      }
    }

    /** One turn of the paging loop; `best` is the highest ledger dispatched so far. */
    method ReadPage(startLedger: Option<nat>, pageCursor: Option<nat>, before: nat, growth: nat, fails: bool,
                    env: Env, ghost p: Progress)
      returns (end: PageEnd, cursorLedger: nat, token: nat, ghost q: Progress, ghost best: nat)
      requires WellFormed(log) && Position(log, startLedger, pageCursor) == p.from + p.n <= Count(log, latest)
      requires InProgress(log, env, polls, p, trace, before) && WholePages(p.n)
      modifies this`latest, this`trace
      ensures old(latest) <= latest && Count(log, latest) <= |log|
      ensures InProgress(log, env, polls, q, trace, best)
      ensures PageTaken(log, latest, p, q, end, cursorLedger, token, best)
    {
      end, cursorLedger, token, q, best := Failed, before, 0, p, before;
      hide Count, OutcomeOf, WellFormed, InProgress, Position, WholePages, PageFrom, Best, Visits, Max;
      var reply := GetEvents(startLedger, pageCursor, growth, fails);
      if reply.Some? {
        end, cursorLedger, token, q, best := TakePage(reply.value.0, reply.value.1, before, env, p);
      }
    }

    /** The paging loop; the number of events after the paging token goes down with every full page. */
    method ReadPages(lastLedger: nat, env: Env)
      returns (done: bool, cursorLedger: nat, ghost q: Progress, ghost best: nat, ghost reported: nat)
      requires Valid() && lastLedger == Last(cursor)
      modifies this`latest, this`trace
      ensures Valid() && old(latest) <= latest && q == Progress(old(trace), lastLedger, Count(log, lastLedger), q.n)
      ensures q.from + q.n <= Count(log, latest) <= |log|
      ensures InProgress(log, env, polls, q, trace, best)
      ensures done ==>
        && old(latest) <= reported <= latest && q.from + q.n == Count(log, reported)
        && cursorLedger == if WholePages(q.n) then Max(best, reported) else best
    {
      ghost var none: nat :| none == 0;
      q := Progress(old(trace), lastLedger, Count(log, lastLedger), none);
      cursorLedger, best := lastLedger, lastLedger;
      var startLedger: Option<nat> := if lastLedger > 0 then Some(lastLedger + 1) else None;
      var pageCursor: Option<nat> := None;
      var requests: nat := 0;
      reported := latest;
      done := false;
      NothingAtZero(log);
      CountGrows(log, lastLedger, latest);
      assert InProgress(log, env, polls, q, trace, cursorLedger) && WholePages(q.n);
      hide Count, OutcomeOf, WellFormed, InProgress, WholePages;
      while true
        invariant Valid() && old(latest) <= latest
        invariant q == Progress(old(trace), lastLedger, Count(log, lastLedger), q.n)
        invariant InProgress(log, env, polls, q, trace, cursorLedger) && WholePages(q.n)
        invariant Position(log, startLedger, pageCursor) == q.from + q.n <= Count(log, latest) <= |log|
        decreases |log| - q.n
      {
        var end, token;
        end, cursorLedger, token, q, best :=
          ReadPage(startLedger, pageCursor, cursorLedger, env.growth(requests), env.rpcFails(requests), env, q);
        requests := requests + 1;
        reported := latest;
        if !end.FullPage? {
          done := end.LastPage?;
          return;
        }
        pageCursor := Some(token);
        startLedger := None;
      }
    }
  }

  lemma {:induction false} BestAtMost(log: seq<Event>, last: nat, from: nat, n: nat, env: Env, poll: nat, latest: nat)
    requires WellFormed(log) && from + n <= Count(log, latest) <= |log| && last <= latest
    ensures last <= Best(log, last, Visits(log, from, n, env, poll)) <= latest
  {
    if n > 0 {
      BestAtMost(log, last, from, n - 1, env, poll, latest);
      CountSplits(log, latest);
      hide OutcomeOf;
      assert Visits(log, from, n, env, poll)[..n - 1] == Visits(log, from, n - 1, env, poll);
    }
  }
}

/** Runs: polls, completed or not, while the chain grows. */
module IndexerRuns {
  import opened Wrappers
  import opened SorobanEventIndexer

  datatype Step = Poll(n: nat, reported: nat, done: bool, env: Env) | Grow(ledgers: nat)

  const START := State(0, None, [], 0, {})

  predicate StepOk(log: seq<Event>, s: State, t: State, step: Step) {
    match step
    case Poll(n, reported, done, env) => PollStep(log, s, t, n, reported, done, env)
    case Grow(ledgers) => t == s.(latest := s.latest + ledgers)
  }

  predicate Run(log: seq<Event>, states: seq<State>, steps: seq<Step>) {
    && WellFormed(log)
    && |states| == |steps| + 1 && states[0] == START
    && forall i | 0 <= i < |steps| :: StepOk(log, states[i], states[i + 1], steps[i])
  }

  ghost predicate Seen(trace: seq<Visit>, i: nat) {
    exists k | 0 <= k < |trace| :: trace[k].index == i
  }

  /** An event is ignored exactly when its topic is unknown, and dispatched only as what it carries. */
  predicate Fits(log: seq<Event>, v: Visit) {
    v.index < |log| &&
    match v.outcome
    case Ignored => !KnownTopic(log[v.index])
    case Dispatched(dto) => Carries(log[v.index], dto)
    case DeadLettered => KnownTopic(log[v.index])
  }

  /** Dispatched by a poll that ended well. */
  predicate Settled(s: State, v: Visit) {
    v.outcome.Dispatched? && v.poll in s.completed
  }

  predicate VisitOk(log: seq<Event>, s: State, v: Visit) {
    Fits(log, v) && v.poll < s.polls && (Settled(s, v) ==> log[v.index].ledger <= Last(s.cursor))
  }

  /** Within a poll positions go up; and nothing comes after a settled visit to the same event. */
  predicate PairOk(s: State, a: Visit, b: Visit) {
    (a.poll == b.poll ==> a.index < b.index) && (Settled(s, a) ==> a.index != b.index)
  }

  ghost predicate Inv(log: seq<Event>, s: State) {
    && Last(s.cursor) <= s.latest
    && (forall p | p in s.completed :: p < s.polls)
    && (forall i: nat | i < Count(log, Last(s.cursor)) :: Seen(s.trace, i))
    && (forall k | 0 <= k < |s.trace| :: VisitOk(log, s, s.trace[k]))
    && (forall a, b | 0 <= a < b < |s.trace| :: PairOk(s, s.trace[a], s.trace[b]))
  }

  lemma HandledFits(log: seq<Event>, i: nat, env: Env, poll: nat)
    requires i < |log| && OutcomeOf(log[i], env).Some?
    ensures Fits(log, Visit(i, Handled(log, i, env), poll))
  {
    OutcomeExactly(log[i], env);
    hide OutcomeOf, KnownTopic, Carries, ValidPayload;
  }

  lemma {:induction false} BestBounds(log: seq<Event>, last: nat, visits: seq<Visit>)
    ensures Best(log, last, visits) >= last
    ensures forall k | 0 <= k < |visits| && visits[k].outcome.Dispatched? && visits[k].index < |log| ::
      log[visits[k].index].ledger <= Best(log, last, visits)
    ensures Best(log, last, visits) == last
      || exists k | 0 <= k < |visits| :: visits[k].outcome.Dispatched? && visits[k].index < |log|
           && log[visits[k].index].ledger == Best(log, last, visits)
  {
    if visits != [] {
      BestBounds(log, last, visits[..|visits| - 1]);
    }
  }

  /** The next cursor is at least what was dispatched and at most what was reported. */
  lemma NextBounds(log: seq<Event>, last: nat, from: nat, n: nat, env: Env, poll: nat, reported: nat)
    requires WellFormed(log) && last <= reported && from + n == Count(log, reported) <= |log|
    ensures last <= NextCursor(log, last, Visits(log, from, n, env, poll), reported) <= reported
    ensures forall k | 0 <= k < n && Visits(log, from, n, env, poll)[k].outcome.Dispatched? ::
      log[from + k].ledger <= NextCursor(log, last, Visits(log, from, n, env, poll), reported)
  {
    BestAtMost(log, last, from, n, env, poll, reported);
    BestBounds(log, last, Visits(log, from, n, env, poll));
    hide Handled, Best, WholePages;
  }

  lemma PollCursor(log: seq<Event>, s: State, t: State, n: nat, reported: nat, done: bool, env: Env)
    requires WellFormed(log) && Last(s.cursor) <= s.latest && PollStep(log, s, t, n, reported, done, env)
    ensures Last(s.cursor) <= Last(t.cursor) <= t.latest
    ensures Count(log, Last(t.cursor)) <= Count(log, Last(s.cursor)) + n <= |log|
    ensures forall v | v in Visits(log, Count(log, Last(s.cursor)), n, env, s.polls) && done && v.outcome.Dispatched? ::
      v.index < |log| && log[v.index].ledger <= Last(t.cursor)
  {
    var last, from := Last(s.cursor), Count(log, Last(s.cursor));
    var atEnd := s.latest <= reported <= t.latest && from + n == Count(log, reported);
    if atEnd {
      NextBounds(log, last, from, n, env, s.polls, reported);
      CountGrows(log, Last(t.cursor), reported);
    }
    hide Handled, NextCursor, Count;
  }

  lemma PollSeen(log: seq<Event>, s: State, t: State, n: nat, reported: nat, done: bool, env: Env, i: nat)
    requires WellFormed(log) && Inv(log, s) && PollStep(log, s, t, n, reported, done, env)
    requires i < Count(log, Last(t.cursor))
    ensures Seen(t.trace, i)
  {
    PollCursor(log, s, t, n, reported, done, env);
    hide NextCursor, Count, Handled, VisitOk, PairOk;
    var from := Count(log, Last(s.cursor));
    if i < from {
      assert Seen(s.trace, i);
      var k :| 0 <= k < |s.trace| && s.trace[k].index == i;
      assert t.trace[k].index == i;
    } else {
      assert t.trace[|s.trace| + (i - from)].index == i;
    }
  }

  lemma PollVisits(log: seq<Event>, s: State, t: State, n: nat, reported: nat, done: bool, env: Env, k: nat)
    requires WellFormed(log) && Inv(log, s) && PollStep(log, s, t, n, reported, done, env)
    requires k < |t.trace|
    ensures VisitOk(log, t, t.trace[k])
  {
    PollCursor(log, s, t, n, reported, done, env);
    hide NextCursor, Count, Handled, PairOk, OutcomeOf;
    var from := Count(log, Last(s.cursor));
    if k < |s.trace| {
      assert VisitOk(log, s, s.trace[k]);
      assert t.trace[k] == s.trace[k];
    } else {
      HandledFits(log, from + (k - |s.trace|), env, s.polls);
      assert t.trace[k] in Visits(log, from, n, env, s.polls);
    }
  }

  lemma PollPairs(log: seq<Event>, s: State, t: State, n: nat, reported: nat, done: bool, env: Env, a: nat, b: nat)
    requires WellFormed(log) && Inv(log, s) && PollStep(log, s, t, n, reported, done, env)
    requires a < b < |t.trace|
    ensures PairOk(t, t.trace[a], t.trace[b])
  {
    CountSplits(log, Last(s.cursor));
    hide NextCursor, Count, Handled, OutcomeOf, Fits;
    if a < |s.trace| {
      assert t.trace[a] == s.trace[a] && VisitOk(log, s, s.trace[a]);
      if b < |s.trace| {
        assert t.trace[b] == s.trace[b] && PairOk(s, s.trace[a], s.trace[b]);
      }
    }
  }

  lemma InvStep(log: seq<Event>, s: State, t: State, step: Step)
    requires WellFormed(log) && Inv(log, s) && StepOk(log, s, t, step)
    ensures Inv(log, t) && Last(s.cursor) <= Last(t.cursor)
  {
    if step.Poll? {
      PollCursor(log, s, t, step.n, step.reported, step.done, step.env);
      forall i: nat | i < Count(log, Last(t.cursor)) ensures Seen(t.trace, i) {
        PollSeen(log, s, t, step.n, step.reported, step.done, step.env, i);
      }
      forall k: nat | k < |t.trace| ensures VisitOk(log, t, t.trace[k]) {
        PollVisits(log, s, t, step.n, step.reported, step.done, step.env, k);
      }
      forall a: nat, b: nat | a < b < |t.trace| ensures PairOk(t, t.trace[a], t.trace[b]) {
        PollPairs(log, s, t, step.n, step.reported, step.done, step.env, a, b);
      }
    } else {
      assert forall k | 0 <= k < |s.trace| :: VisitOk(log, s, s.trace[k]) ==> VisitOk(log, t, s.trace[k]);
      assert forall a, b | 0 <= a < b < |s.trace| ::
        PairOk(s, s.trace[a], s.trace[b]) ==> PairOk(t, s.trace[a], s.trace[b]);
    }
    hide VisitOk, PairOk, Seen, NextCursor, Count;
  }

  lemma InvInit(log: seq<Event>)
    requires WellFormed(log)
    ensures Inv(log, START)
  {
    NothingAtZero(log);
  }

  lemma {:induction false} InvHolds(log: seq<Event>, states: seq<State>, steps: seq<Step>, i: nat)
    requires Run(log, states, steps) && i < |states|
    ensures Inv(log, states[i])
  {
    hide Inv, StepOk;
    if i == 0 {
      InvInit(log);
    } else {
      InvHolds(log, states, steps, i - 1);
      InvStep(log, states[i - 1], states[i], steps[i - 1]);
    }
  }

  /** The stored cursor never goes back. */
  lemma {:induction false} CursorNeverDecreases(log: seq<Event>, states: seq<State>, steps: seq<Step>, i: nat, j: nat)
    requires Run(log, states, steps) && i <= j < |states|
    ensures Last(states[i].cursor) <= Last(states[j].cursor)
    decreases j
  {
    hide Inv, StepOk;
    if i < j {
      CursorNeverDecreases(log, states, steps, i, j - 1);
      InvHolds(log, states, steps, j - 1);
      InvStep(log, states[j - 1], states[j], steps[j - 1]);
    }
  }

  /** No event is lost: at every moment, each event up to the cursor has been dispatched, ignored or dead-lettered. */
  lemma NothingIsLost(log: seq<Event>, states: seq<State>, steps: seq<Step>, j: nat, i: nat)
    requires Run(log, states, steps) && j < |states|
    requires i < |log| && log[i].ledger <= Last(states[j].cursor)
    ensures exists k | 0 <= k < |states[j].trace| :: states[j].trace[k].index == i && Fits(log, states[j].trace[k])
  {
    InvHolds(log, states, steps, j);
    CountSplits(log, Last(states[j].cursor));
    hide Count, PairOk;
    var s := states[j];
    assert Seen(s.trace, i);
    var k :| 0 <= k < |s.trace| && s.trace[k].index == i;
    assert VisitOk(log, s, s.trace[k]);
  }

  /** What a poll that ended well has dispatched is never handled again, by it or by a later poll. */
  lemma DispatchedOnce(log: seq<Event>, states: seq<State>, steps: seq<Step>, j: nat, a: nat, b: nat)
    requires Run(log, states, steps) && j < |states|
    requires a < b < |states[j].trace| && Settled(states[j], states[j].trace[a])
    ensures states[j].trace[a].index != states[j].trace[b].index
  {
    InvHolds(log, states, steps, j);
    assert PairOk(states[j], states[j].trace[a], states[j].trace[b]);
  }

  ghost predicate Handles(s: State, t: State, i: nat) {
    exists k | |s.trace| <= k < |t.trace| :: t.trace[k].index == i
  }

  /**
   * A poll that gets to its end, whether or not it can store the cursor, handles
   * each event between the cursor and the reported ledger exactly once, in order.
   */
  lemma PollVisitsExactly(log: seq<Event>, s: State, t: State, n: nat, reported: nat, done: bool, env: Env, i: nat)
    requires WellFormed(log) && Last(s.cursor) <= s.latest && PollStep(log, s, t, n, reported, done, env)
    requires AtEnd(log, s, t, n, reported) && i < |log|
    ensures Handles(s, t, i) <==> Last(s.cursor) < log[i].ledger <= reported
    ensures forall k, l | |s.trace| <= k < l < |t.trace| :: t.trace[k].index < t.trace[l].index
  {
    CountSplits(log, Last(s.cursor));
    CountSplits(log, reported);
    hide Count, Handled, NextCursor;
    var from := Count(log, Last(s.cursor));
    if Last(s.cursor) < log[i].ledger <= reported {
      assert t.trace[|s.trace| + (i - from)].index == i;
    }
  }

  /** What a poll dispatched lies strictly before `ledger`. */
  predicate DispatchedBefore(log: seq<Event>, s: State, t: State, ledger: int) {
    forall k | |s.trace| <= k < |t.trace| && t.trace[k].outcome.Dispatched? && t.trace[k].index < |log| ::
      log[t.trace[k].index].ledger < ledger
  }

  lemma NewVisits(before: seq<Visit>, visits: seq<Visit>)
    ensures forall k | |before| <= k < |before + visits| :: (before + visits)[k] == visits[k - |before|]
    ensures forall k | 0 <= k < |visits| :: visits[k] == (before + visits)[|before| + k]
  {
  }

  lemma BestBelow(log: seq<Event>, s: State, t: State, n: nat, reported: nat, done: bool, env: Env, i: nat)
    requires WellFormed(log) && PollStep(log, s, t, n, reported, done, env)
    requires i < |log| && Last(s.cursor) < log[i].ledger
    ensures Best(log, Last(s.cursor), Visits(log, Count(log, Last(s.cursor)), n, env, s.polls)) < log[i].ledger
      <==> DispatchedBefore(log, s, t, log[i].ledger)
  {
    var visits := Visits(log, Count(log, Last(s.cursor)), n, env, s.polls);
    BestBounds(log, Last(s.cursor), visits);
    NewVisits(s.trace, visits);
    hide Handled, Best, Count, Visits, NextCursor, AtEnd;
  }

  /**
   * A poll leaves an event behind that it handled: its cursor was not stored, or
   * its last page was neither empty nor full and everything that it dispatched
   * lies on earlier ledgers.
   */
  predicate LeavesBehind(log: seq<Event>, s: State, t: State, n: nat, ledger: int) {
    t.cursor == s.cursor || (!WholePages(n) && DispatchedBefore(log, s, t, ledger))
  }

  /** Exactly then its cursor has not passed the event; when it ended well, exactly by its last page and dispatches. */
  lemma LeftBehindExactly(log: seq<Event>, s: State, t: State, n: nat, reported: nat, done: bool, env: Env, i: nat)
    requires WellFormed(log) && Last(s.cursor) <= s.latest && PollStep(log, s, t, n, reported, done, env)
    requires AtEnd(log, s, t, n, reported) && i < |log| && Last(s.cursor) < log[i].ledger <= reported
    ensures log[i].ledger > Last(t.cursor) <==> LeavesBehind(log, s, t, n, log[i].ledger)
    ensures done ==>
      (LeavesBehind(log, s, t, n, log[i].ledger) <==> n % 200 != 0 && DispatchedBefore(log, s, t, log[i].ledger))
  {
    BestBelow(log, s, t, n, reported, done, env, i);
    var from := Count(log, Last(s.cursor));
    NextBounds(log, Last(s.cursor), from, n, env, s.polls, reported);
    hide Handled, Best, Count, Visits, WholePages, DispatchedBefore;
  }

  // ── handled again, over runs ──

  /** Step `j` is a poll that gets to its end. */
  predicate Ends(log: seq<Event>, states: seq<State>, steps: seq<Step>, j: nat)
    requires Run(log, states, steps) && j < |steps|
  {
    steps[j].Poll? && AtEnd(log, states[j], states[j + 1], steps[j].n, steps[j].reported)
  }

  /** Nothing that grows, and no poll that ends early, moves the cursor. */
  lemma {:induction false} CursorWaits(log: seq<Event>, states: seq<State>, steps: seq<Step>, j: nat, k: nat)
    requires Run(log, states, steps) && j <= k < |states|
    requires forall m | j <= m < k :: !Ends(log, states, steps, m)
    ensures states[k].cursor == states[j].cursor && states[j].latest <= states[k].latest
    decreases k
  {
    hide AtEnd, Count, NextCursor, Visits;
    if j < k {
      CursorWaits(log, states, steps, j, k - 1);
      assert StepOk(log, states[k - 1], states[k], steps[k - 1]);
      assert !Ends(log, states, steps, k - 1);
    }
  }

  /**
   * Handled once or again: of the events that a poll handled on its way to the
   * end, the next poll that gets to its end, whatever fails and grows in
   * between, handles exactly those again that the first left behind.
   */
  lemma HandledAgainExactly(log: seq<Event>, states: seq<State>, steps: seq<Step>, j: nat, k: nat, i: nat)
    requires Run(log, states, steps) && j < k < |steps| && i < |log|
    requires Ends(log, states, steps, j) && Ends(log, states, steps, k)
    requires forall m | j < m < k :: !Ends(log, states, steps, m)
    requires Handles(states[j], states[j + 1], i)
    ensures Handles(states[k], states[k + 1], i)
      <==> LeavesBehind(log, states[j], states[j + 1], steps[j].n, log[i].ledger)
  {
    InvHolds(log, states, steps, j);
    InvHolds(log, states, steps, k);
    assert StepOk(log, states[j], states[j + 1], steps[j]) && StepOk(log, states[k], states[k + 1], steps[k]);
    var a, b := steps[j], steps[k];
    CursorWaits(log, states, steps, j + 1, k);
    hide NextCursor, Visits, WholePages, Count, LeavesBehind, Handles;
    PollVisitsExactly(log, states[j], states[j + 1], a.n, a.reported, a.done, a.env, i);
    LeftBehindExactly(log, states[j], states[j + 1], a.n, a.reported, a.done, a.env, i);
    PollVisitsExactly(log, states[k], states[k + 1], b.n, b.reported, b.done, b.env, i);
  }

  /** Step `k` takes the cursor past event `i`. */
  predicate Passes(log: seq<Event>, states: seq<State>, steps: seq<Step>, k: nat, i: nat)
    requires Run(log, states, steps) && k < |steps| && i < |log|
  {
    && Ends(log, states, steps, k)
    && Last(states[k].cursor) < log[i].ledger <= steps[k].reported
    && !LeavesBehind(log, states[k], states[k + 1], steps[k].n, log[i].ledger)
  }

  lemma StepPasses(log: seq<Event>, states: seq<State>, steps: seq<Step>, k: nat, i: nat)
    requires Run(log, states, steps) && k < |steps| && i < |log|
    ensures Last(states[k + 1].cursor) >= log[i].ledger
      <==> Last(states[k].cursor) >= log[i].ledger || Passes(log, states, steps, k, i)
  {
    InvHolds(log, states, steps, k);
    var s, t, a := states[k], states[k + 1], steps[k];
    assert StepOk(log, s, t, a);
    CursorNeverDecreases(log, states, steps, k, k + 1);
    if Ends(log, states, steps, k) {
      if Last(s.cursor) < log[i].ledger <= a.reported {
        LeftBehindExactly(log, s, t, a.n, a.reported, a.done, a.env, i);
      } else {
        NextBounds(log, Last(s.cursor), Count(log, Last(s.cursor)), a.n, a.env, s.polls, a.reported);
      }
    } else {
      CursorWaits(log, states, steps, k, k + 1);
    }
    hide NextCursor, Visits, WholePages, Count, DispatchedBefore, Inv;
  }

  /**
   * Over every run: the cursor lies past an event exactly when some poll got to
   * its end, stored its cursor, and had either read whole pages only or
   * dispatched something on the event's ledger or a later one.
   */
  lemma {:induction false} PassedExactly(log: seq<Event>, states: seq<State>, steps: seq<Step>, j: nat, i: nat)
    requires Run(log, states, steps) && j < |states| && i < |log|
    ensures Last(states[j].cursor) >= log[i].ledger <==> exists k: nat | k < j :: Passes(log, states, steps, k, i)
  {
    hide Passes, StepOk;
    if j > 0 {
      PassedExactly(log, states, steps, j - 1, i);
      StepPasses(log, states, steps, j - 1, i);
    }
  }

  predicate DeadLetters(s: State, t: State, i: nat) {
    Visit(i, DeadLettered, s.polls) in t.trace
  }

  /** Until then, every poll that gets to its end with the event visible handles it; an invalid one is dead-lettered. */
  lemma HandledUntilPassed(log: seq<Event>, states: seq<State>, steps: seq<Step>, j: nat, i: nat)
    requires Run(log, states, steps) && j < |steps| && i < |log|
    requires Ends(log, states, steps, j) && states[j].latest >= log[i].ledger
    requires forall k: nat | k < j :: !Passes(log, states, steps, k, i)
    ensures Handles(states[j], states[j + 1], i)
    ensures KnownTopic(log[i]) && !ValidPayload(log[i]) ==> DeadLetters(states[j], states[j + 1], i)
  {
    PassedExactly(log, states, steps, j, i);
    InvHolds(log, states, steps, j);
    InvHolds(log, states, steps, j + 1);
    var s, t, a := states[j], states[j + 1], steps[j];
    assert StepOk(log, s, t, a);
    PollVisitsExactly(log, s, t, a.n, a.reported, a.done, a.env, i);
    hide NextCursor, WholePages, Count, Passes, KnownTopic, Carries, Handled;
    var k :| |s.trace| <= k < |t.trace| && t.trace[k].index == i;
    assert VisitOk(log, t, t.trace[k]);
    assert t.trace[k].poll == s.polls;
    if KnownTopic(log[i]) && !ValidPayload(log[i]) {
      InvalidVisit(log, t.trace[k]);
      assert t.trace[k] == Visit(i, DeadLettered, s.polls);
    }
  }

  lemma InvalidVisit(log: seq<Event>, v: Visit)
    requires Fits(log, v) && KnownTopic(log[v.index]) && !ValidPayload(log[v.index])
    ensures v.outcome.DeadLettered?
  {
    hide KnownTopic, Carries;
  }

  /**
   * In a log of fewer events than a page holds, an event that is followed, and
   * joined on its ledger, by no event with a valid payload is never passed, in
   * any run; so an invalid one is dead-lettered by every poll that gets to its end.
   */
  lemma DeadLetterForever(log: seq<Event>, states: seq<State>, steps: seq<Step>, j: nat, i: nat)
    requires Run(log, states, steps) && j < |states| && i < |log| < 200
    requires forall k | 0 <= k < |log| && log[k].ledger >= log[i].ledger :: !ValidPayload(log[k])
    ensures Last(states[j].cursor) < log[i].ledger
    ensures forall k: nat | k < j :: !Passes(log, states, steps, k, i)
  {
    forall k: nat | k < j ensures !Passes(log, states, steps, k, i) {
      NotPassed(log, states, steps, k, i);
    }
    PassedExactly(log, states, steps, j, i);
  }

  lemma NotPassed(log: seq<Event>, states: seq<State>, steps: seq<Step>, k: nat, i: nat)
    requires Run(log, states, steps) && k < |steps| && i < |log| < 200
    requires forall m | 0 <= m < |log| && log[m].ledger >= log[i].ledger :: !ValidPayload(log[m])
    ensures !Passes(log, states, steps, k, i)
  {
    InvHolds(log, states, steps, k);
    InvHolds(log, states, steps, k + 1);
    var s, t, a := states[k], states[k + 1], steps[k];
    assert StepOk(log, s, t, a);
    hide NextCursor, Count, KnownTopic, Carries, Handled;
    if Ends(log, states, steps, k) && Last(s.cursor) < log[i].ledger <= a.reported {
      PollVisitsExactly(log, s, t, a.n, a.reported, a.done, a.env, i);
      forall m | |s.trace| <= m < |t.trace| && t.trace[m].outcome.Dispatched?
        ensures log[t.trace[m].index].ledger < log[i].ledger
      {
        assert VisitOk(log, t, t.trace[m]);
        assert ValidPayload(log[t.trace[m].index]);
      }
      assert 0 < a.n < PAGE_LIMIT;
    }
  }
}
