/**
 * The treasury transaction queue (src/stellar/stellar-tx-queue.service.ts:57-112, 167-176).
 * A call is known by its position in the order of calls; the promise stored for
 * an account is the position of the call it belongs to. Every step between two
 * awaits is atomic and the steps of different calls interleave.
 */
module StellarTxQueue {
  import opened Wrappers

  type Account = string

  /** `Loaded` holds the sequence number that was read, and how many other writes the account had then seen. */
  datatype Phase =
    | Waiting
    | Loaded(sequence: int, retry: bool, foreign: nat)
    | Stale
    | Done(ok: bool)

  datatype Promise = Pending | Fulfilled | Rejected

  /**
   * `stored` is the promise kept for the next call to chain onto, and `handled`
   * whether one has: the handler on it is what keeps its rejection from going
   * unnoticed. `answers` are the network's so far.
   */
  datatype Call = Call(
    account: Account,
    previous: Option<nat>,
    phase: Phase,
    answers: seq<Reply>,
    reloaded: bool,
    stored: Promise,
    handled: bool)

  /**
   * A transaction that was sent: its number, what the account stood at, and how
   * many others wrote to the account after its number was read.
   */
  datatype Sent = Sent(call: nat, account: Account, sequence: int, ledger: int, missed: int)

  datatype Queue = Queue(
    calls: seq<Call>,
    submissionQueues: map<Account, nat>,
    ledger: map<Account, int>,
    foreign: map<Account, nat>,
    sent: seq<Sent>)

  /** `Failed` consumes a sequence number, `Refused` does not; `badSeq` is what `isBadSeqError` makes of the error. */
  datatype Reply = Applied | Failed(badSeq: bool) | Refused(badSeq: bool)

  datatype Act =
    | Submit(account: Account)
    | Load(call: nat, ok: bool)
    | BuildFails(call: nat)
    | Send(call: nat, reply: Reply)
    | Reload(call: nat, ok: bool)
    | Settle(call: nat)
    | OtherWriter(account: Account)

  const NO_CALLS := Queue([], map[], map[], map[], [])

  function LedgerOf(q: Queue, a: Account): int {
    if a in q.ledger then q.ledger[a] else 0
  }

  function ForeignOf(q: Queue, a: Account): nat {
    if a in q.foreign then q.foreign[a] else 0
  }

  /** `previous.catch(() => {}).then(...)`: the section starts once the previous promise has settled, either way. */
  predicate MayStart(q: Queue, i: nat) {
    && i < |q.calls| && q.calls[i].phase.Waiting?
    && (q.calls[i].previous.Some? ==>
          q.calls[i].previous.value < |q.calls| && !q.calls[q.calls[i].previous.value].stored.Pending?)
  }

  predicate BadSeq(reply: Reply) {
    !reply.Applied? && reply.badSeq
  }

  /**
   * What Horizon may answer: the network takes a transaction only with the next
   * sequence number, and `tx_bad_seq` means that the number was another.
   */
  predicate MayReply(q: Queue, i: nat, reply: Reply)
    requires i < |q.calls| && q.calls[i].phase.Loaded?
  {
    var next := q.calls[i].phase.sequence == LedgerOf(q, q.calls[i].account);
    match reply
    case Applied => next
    case Failed(_) => next
    case Refused(badSeq) => badSeq ==> !next
  }

  predicate Enabled(q: Queue, a: Act) {
    match a
    case Submit(_) => true
    case OtherWriter(_) => true
    case Load(i, _) => MayStart(q, i)
    case BuildFails(i) => i < |q.calls| && q.calls[i].phase.Loaded?
    case Send(i, reply) => i < |q.calls| && q.calls[i].phase.Loaded? && MayReply(q, i, reply)
    case Reload(i, _) => i < |q.calls| && q.calls[i].phase.Stale?
    case Settle(i) => i < |q.calls| && q.calls[i].phase.Done? && q.calls[i].stored.Pending?
  }

  function SetPhase(q: Queue, i: nat, phase: Phase): Queue
    requires i < |q.calls|
  {
    q.(calls := q.calls[i := q.calls[i].(phase := phase)])
  }

  function LoadAccount(q: Queue, i: nat, ok: bool, retry: bool): Queue
    requires i < |q.calls|
  {
    var c := q.calls[i];
    var phase := if ok then Loaded(LedgerOf(q, c.account), retry, ForeignOf(q, c.account)) else Done(false);
    q.(calls := q.calls[i := c.(phase := phase, reloaded := ok && retry)])
  }

  /** The stored promise follows its call: its own handler throws the error again. */
  function SettleStored(q: Queue, i: nat): Queue
    requires i < |q.calls| && q.calls[i].phase.Done?
  {
    q.(calls := q.calls[i := q.calls[i].(stored := if q.calls[i].phase.ok then Fulfilled else Rejected)])
  }

  /** A new call puts a handler on the promise stored for its account and stores its own. */
  function ApplySubmit(q: Queue, account: Account): Queue {
    var previous := if account in q.submissionQueues then Some(q.submissionQueues[account]) else None;
    var chained :=
      if previous.Some? && previous.value < |q.calls|
      then q.calls[previous.value := q.calls[previous.value].(handled := true)]
      else q.calls;
    q.(calls := chained + [Call(account, previous, Waiting, [], false, Pending, false)],
       submissionQueues := q.submissionQueues[account := |q.calls|])
  }

  function AfterReply(phase: Phase, reply: Reply): Phase
    requires phase.Loaded?
  {
    if reply.Applied? then Done(true)
    else if BadSeq(reply) && !phase.retry then Stale
    else Done(false)
  }

  function ApplySend(q: Queue, i: nat, reply: Reply): Queue
    requires i < |q.calls| && q.calls[i].phase.Loaded?
  {
    var c := q.calls[i];
    var consumed := !reply.Refused?;
    q.(calls := q.calls[i := c.(phase := AfterReply(c.phase, reply), answers := c.answers + [reply])],
       ledger := if consumed then q.ledger[c.account := LedgerOf(q, c.account) + 1] else q.ledger,
       sent := q.sent
         + [Sent(i, c.account, c.phase.sequence + 1, LedgerOf(q, c.account),
                 ForeignOf(q, c.account) - c.phase.foreign)])
  }

  function Apply(q: Queue, a: Act): Queue
    requires Enabled(q, a)
  {
    match a
    case Submit(account) => ApplySubmit(q, account)
    case Load(i, ok) => LoadAccount(q, i, ok, false)
    case BuildFails(i) => SetPhase(q, i, Done(false))
    case Send(i, reply) => ApplySend(q, i, reply)
    case Reload(i, ok) => LoadAccount(q, i, ok, true)
    case Settle(i) => SettleStored(q, i)
    case OtherWriter(account) =>
      q.(ledger := q.ledger[account := LedgerOf(q, account) + 1],
         foreign := q.foreign[account := ForeignOf(q, account) + 1])
  }

  predicate Possible(acts: seq<Act>)
    decreases |acts|, 0
  {
    acts == [] || (Possible(acts[..|acts| - 1]) && Enabled(After(acts[..|acts| - 1]), acts[|acts| - 1]))
  }

  function After(acts: seq<Act>): Queue
    requires Possible(acts)
    decreases |acts|, 1
  {
    if acts == [] then NO_CALLS else Apply(After(acts[..|acts| - 1]), acts[|acts| - 1])
  }
}

module TxQueueRuns {
  import opened Wrappers
  import opened StellarTxQueue

  predicate Active(c: Call) {
    c.phase.Loaded? || c.phase.Stale?
  }

  /** What the answers and the reload of a call say about how far it has come. */
  predicate AnswersFit(c: Call) {
    match c.phase
    case Waiting => c.answers == [] && !c.reloaded
    case Loaded(_, retry, _) =>
      c.reloaded == retry && if retry then |c.answers| == 1 && BadSeq(c.answers[0]) else c.answers == []
    case Stale => !c.reloaded && |c.answers| == 1 && BadSeq(c.answers[0])
    case Done(ok) =>
      && |c.answers| <= 2
      && (c.reloaded || |c.answers| == 2 ==> c.reloaded && |c.answers| >= 1 && BadSeq(c.answers[0]))
      && (ok <==> c.answers != [] && c.answers[|c.answers| - 1].Applied?)
  }

  predicate HasLater(q: Queue, i: nat)
    requires i < |q.calls|
  {
    exists j | i < j < |q.calls| :: q.calls[j].account == q.calls[i].account
  }

  /** The stored promise settles as its call ended, and is handled when a later call has chained onto it. */
  predicate StoredOk(q: Queue, i: nat)
    requires i < |q.calls|
  {
    var c := q.calls[i];
    && (!c.stored.Pending? ==> c.phase.Done? && (c.stored.Rejected? <==> c.phase == Done(false)))
    && (c.handled <==> HasLater(q, i))
  }

  predicate CallOk(q: Queue, i: nat)
    requires i < |q.calls|
  {
    var c := q.calls[i];
    && (c.previous.Some? ==> c.previous.value < i && q.calls[c.previous.value].account == c.account)
    && (forall j | 0 <= j < i && q.calls[j].account == c.account :: c.previous.Some? && j <= c.previous.value)
    && AnswersFit(c) && StoredOk(q, i)
    && (c.phase.Loaded? ==>
          c.phase.foreign <= ForeignOf(q, c.account)
          && LedgerOf(q, c.account) - c.phase.sequence == ForeignOf(q, c.account) - c.phase.foreign)
  }

  /** Once a call has started, every earlier call on its account is over. */
  predicate InTurn(q: Queue, i: nat, j: nat)
    requires i < j < |q.calls|
  {
    q.calls[i].account == q.calls[j].account && !q.calls[j].phase.Waiting? ==> q.calls[i].phase.Done?
  }

  predicate TailOk(q: Queue, a: Account) {
    match if a in q.submissionQueues then Some(q.submissionQueues[a]) else None
    case Some(t) => t < |q.calls| && q.calls[t].account == a && forall j | t < j < |q.calls| :: q.calls[j].account != a
    case None => forall j | 0 <= j < |q.calls| :: q.calls[j].account != a
  }

  predicate SentOk(e: Sent) {
    e.missed >= 0 && e.ledger + 1 - e.sequence == e.missed
  }

  ghost predicate Inv(q: Queue) {
    && (forall k | 0 <= k < |q.sent| :: SentOk(q.sent[k]))
    && (forall i | 0 <= i < |q.calls| :: CallOk(q, i))
    && (forall i, j | 0 <= i < j < |q.calls| :: InTurn(q, i, j))
    && (forall a: Account :: TailOk(q, a))
  }

  /** The others on its account are over or have not started. */
  lemma OnlyActive(q: Queue, i: nat, j: nat)
    requires Inv(q) && i < |q.calls| && j < |q.calls| && i != j
    requires Active(q.calls[i]) && q.calls[j].account == q.calls[i].account
    ensures if j < i then q.calls[j].phase.Done? else q.calls[j].phase.Waiting?
  {
    if j < i {
      assert InTurn(q, j, i);
    } else {
      assert InTurn(q, i, j);
    }
  }

  lemma EarlierAreOver(q: Queue, i: nat, j: nat)
    requires Inv(q) && MayStart(q, i) && j < i && q.calls[j].account == q.calls[i].account
    ensures q.calls[j].phase.Done?
  {
    assert CallOk(q, i);
    var p := q.calls[i].previous.value;
    assert CallOk(q, p);
    if j < p {
      assert InTurn(q, j, p);
    }
  }

  /** `i` moves on, and whatever else changes concerns its account. */
  predicate Moves(q: Queue, r: Queue, i: nat) {
    && |r.calls| == |q.calls| && i < |q.calls| && r.submissionQueues == q.submissionQueues
    && (forall j | 0 <= j < |q.calls| && j != i :: r.calls[j] == q.calls[j])
    && r.calls[i].account == q.calls[i].account && r.calls[i].previous == q.calls[i].previous
    && r.calls[i].handled == q.calls[i].handled
    && !r.calls[i].phase.Waiting?
    && (q.calls[i].phase.Done? ==> r.calls[i].phase == q.calls[i].phase)
    && r.foreign == q.foreign
    && var account := q.calls[i].account;
       r.ledger == q.ledger || (Active(q.calls[i]) && r.ledger == q.ledger[account := LedgerOf(q, account) + 1])
  }

  predicate MayMove(q: Queue, i: nat) {
    MayStart(q, i) || (i < |q.calls| && !q.calls[i].phase.Waiting?)
  }

  lemma MoveKeepsTurns(q: Queue, r: Queue, i: nat, j: nat, k: nat)
    requires Inv(q) && Moves(q, r, i) && MayMove(q, i) && j < k < |r.calls|
    ensures InTurn(r, j, k)
  {
    assert InTurn(q, j, k);
    if q.calls[j].account == q.calls[k].account {
      if k == i && MayStart(q, i) {
        EarlierAreOver(q, i, j);
      }
    }
  }

  lemma MoveKeepsLater(q: Queue, r: Queue, i: nat, j: nat)
    requires Moves(q, r, i) && j < |r.calls|
    ensures HasLater(r, j) == HasLater(q, j)
  {
    assert forall k | 0 <= k < |q.calls| :: r.calls[k].account == q.calls[k].account;
  }

  lemma MoveKeepsCalls(q: Queue, r: Queue, i: nat, j: nat)
    requires Inv(q) && Moves(q, r, i) && j < |r.calls| && j != i
    ensures CallOk(r, j)
  {
    assert CallOk(q, j);
    MoveKeepsLater(q, r, i, j);
    hide AnswersFit, HasLater;
    if q.calls[j].account == q.calls[i].account && Active(q.calls[i]) {
      OnlyActive(q, i, j);
    }
    assert forall k | 0 <= k < |q.calls| :: r.calls[k].account == q.calls[k].account;
  }

  /** What a step has to show of the call that moved. */
  predicate MovedOk(r: Queue, i: nat)
    requires i < |r.calls|
  {
    var c := r.calls[i];
    && AnswersFit(c)
    && (!c.stored.Pending? ==> c.phase.Done? && (c.stored.Rejected? <==> c.phase == Done(false)))
    && (c.phase.Loaded? ==>
          c.phase.foreign <= ForeignOf(r, c.account)
          && LedgerOf(r, c.account) - c.phase.sequence == ForeignOf(r, c.account) - c.phase.foreign)
  }

  lemma MovedCallOk(q: Queue, r: Queue, i: nat)
    requires Inv(q) && Moves(q, r, i) && MovedOk(r, i)
    ensures CallOk(r, i)
  {
    assert CallOk(q, i);
    MoveKeepsLater(q, r, i, i);
    hide AnswersFit, HasLater;
    assert forall k | 0 <= k < |q.calls| :: r.calls[k].account == q.calls[k].account;
  }

  lemma MoveStep(q: Queue, r: Queue, i: nat)
    requires Inv(q) && Moves(q, r, i) && MayMove(q, i)
    requires MovedOk(r, i) && forall k | 0 <= k < |r.sent| :: SentOk(r.sent[k])
    ensures Inv(r)
  {
    MovedCallOk(q, r, i);
    forall j: nat | j < |r.calls| ensures CallOk(r, j) {
      if j != i {
        MoveKeepsCalls(q, r, i, j);
      }
    }
    forall j: nat, k: nat | j < k < |r.calls| ensures InTurn(r, j, k) {
      MoveKeepsTurns(q, r, i, j, k);
    }
    forall a: Account ensures TailOk(r, a) {
      assert TailOk(q, a);
      assert forall k | 0 <= k < |q.calls| :: r.calls[k].account == q.calls[k].account;
    }
    hide CallOk, InTurn, TailOk, SentOk, MovedOk;
  }

  lemma SubmitHandles(q: Queue, account: Account, i: nat)
    requires Inv(q) && i < |q.calls|
    ensures var r := ApplySubmit(q, account);
      && r.calls[i] == q.calls[i].(handled := r.calls[i].handled)
      && (r.calls[i].handled <==> HasLater(r, i))
  {
    var r := ApplySubmit(q, account);
    assert TailOk(q, account) && CallOk(q, i);
    assert forall j | 0 <= j < |q.calls| :: r.calls[j].account == q.calls[j].account;
    if q.calls[i].account == account {
      assert r.calls[|q.calls|].account == r.calls[i].account;
      var t := q.submissionQueues[account];
      if i < t {
        assert q.calls[t].account == q.calls[i].account;
      }
    } else if HasLater(q, i) {
      var j :| i < j < |q.calls| && q.calls[j].account == q.calls[i].account;
      assert r.calls[j].account == r.calls[i].account;
    }
  }

  lemma SubmitKeepsCall(q: Queue, account: Account, i: nat)
    requires Inv(q) && i <= |q.calls|
    ensures CallOk(ApplySubmit(q, account), i)
  {
    var r := ApplySubmit(q, account);
    assert TailOk(q, account);
    forall j: nat | j < |q.calls| ensures r.calls[j].account == q.calls[j].account {
      SubmitHandles(q, account, j);
    }
    if i < |q.calls| {
      SubmitHandles(q, account, i);
      assert CallOk(q, i);
    }
  }

  lemma SubmitStep(q: Queue, account: Account)
    requires Inv(q)
    ensures Inv(ApplySubmit(q, account))
  {
    var r := ApplySubmit(q, account);
    var n := |q.calls|;
    assert TailOk(q, account);
    forall j: nat | j < n ensures r.calls[j].account == q.calls[j].account && r.calls[j].phase == q.calls[j].phase {
      SubmitHandles(q, account, j);
    }
    forall j: nat | j <= n ensures CallOk(r, j) {
      SubmitKeepsCall(q, account, j);
    }
    hide CallOk;
    forall j: nat, k: nat | j < k <= n ensures InTurn(r, j, k) {
      if k < n {
        assert InTurn(q, j, k);
      }
    }
    forall a: Account ensures TailOk(r, a) {
      assert TailOk(q, a);
    }
  }

  lemma WriterStep(q: Queue, account: Account)
    requires Inv(q)
    ensures Inv(Apply(q, OtherWriter(account)))
  {
    var r := Apply(q, OtherWriter(account));
    forall j: nat | j < |r.calls| ensures CallOk(r, j) {
      assert CallOk(q, j);
    }
    forall j: nat, k: nat | j < k < |r.calls| ensures InTurn(r, j, k) {
      assert InTurn(q, j, k);
    }
    forall a: Account ensures TailOk(r, a) {
      assert TailOk(q, a);
    }
  }

  lemma LoadStep(q: Queue, i: nat, ok: bool, retry: bool)
    requires Inv(q) && i < |q.calls|
    requires if retry then q.calls[i].phase.Stale? else MayStart(q, i)
    ensures Inv(LoadAccount(q, i, ok, retry))
  {
    assert CallOk(q, i);
    hide HasLater, InTurn, TailOk;
    MoveStep(q, LoadAccount(q, i, ok, retry), i);
  }

  lemma StopStep(q: Queue, i: nat)
    requires Inv(q) && i < |q.calls| && q.calls[i].phase.Loaded?
    ensures Inv(SetPhase(q, i, Done(false)))
  {
    assert CallOk(q, i);
    hide HasLater, InTurn, TailOk;
    MoveStep(q, SetPhase(q, i, Done(false)), i);
  }

  lemma AnswerFits(c: Call, reply: Reply)
    requires c.phase.Loaded? && AnswersFit(c)
    ensures AnswersFit(c.(phase := AfterReply(c.phase, reply), answers := c.answers + [reply]))
  {
  }

  lemma SendMoves(q: Queue, i: nat, reply: Reply)
    requires Inv(q) && i < |q.calls| && q.calls[i].phase.Loaded? && MayReply(q, i, reply)
    ensures Moves(q, ApplySend(q, i, reply), i) && MovedOk(ApplySend(q, i, reply), i)
  {
    assert CallOk(q, i);
    AnswerFits(q.calls[i], reply);
    hide AnswersFit, HasLater, InTurn, TailOk, SentOk;
  }

  lemma SendStep(q: Queue, i: nat, reply: Reply)
    requires Inv(q) && i < |q.calls| && q.calls[i].phase.Loaded? && MayReply(q, i, reply)
    ensures Inv(ApplySend(q, i, reply))
  {
    assert CallOk(q, i);
    SendMoves(q, i, reply);
    var r := ApplySend(q, i, reply);
    hide CallOk, MovedOk, InTurn, TailOk, Moves;
    MoveStep(q, r, i);
  }

  lemma SettleStep(q: Queue, i: nat)
    requires Inv(q) && i < |q.calls| && q.calls[i].phase.Done?
    ensures Inv(SettleStored(q, i))
  {
    assert CallOk(q, i);
    hide HasLater, InTurn, TailOk;
    MoveStep(q, SettleStored(q, i), i);
  }

  lemma InvStep(q: Queue, a: Act)
    requires Inv(q) && Enabled(q, a)
    ensures Inv(Apply(q, a))
  {
    hide Inv;
    match a
    case Submit(account) => SubmitStep(q, account);
    case OtherWriter(account) => WriterStep(q, account);
    case Load(i, ok) => LoadStep(q, i, ok, false);
    case Reload(i, ok) => LoadStep(q, i, ok, true);
    case BuildFails(i) => StopStep(q, i);
    case Send(i, reply) => SendStep(q, i, reply);
    case Settle(i) => SettleStep(q, i);
  }

  lemma {:induction false} InvHolds(acts: seq<Act>)
    requires Possible(acts)
    ensures Inv(After(acts))
  {
    hide Inv, Apply, Enabled;
    if acts == [] {
      InvInit();
    } else {
      InvHolds(acts[..|acts| - 1]);
      InvStep(After(acts[..|acts| - 1]), acts[|acts| - 1]);
    }
  }

  lemma InvInit()
    ensures Inv(NO_CALLS)
  {
  }

  /** Sections on one account never overlap, and run in call order. */
  lemma OneSectionAtATime(acts: seq<Act>, i: nat, j: nat)
    requires Possible(acts) && i < j < |After(acts).calls|
    requires After(acts).calls[i].account == After(acts).calls[j].account
    ensures !(Active(After(acts).calls[i]) && Active(After(acts).calls[j]))
    ensures !After(acts).calls[j].phase.Waiting? ==> After(acts).calls[i].phase.Done?
  {
    InvHolds(acts);
    assert InTurn(After(acts), i, j);
  }

  /** Every section sends at most twice, and a second time only after a stale answer and a reload. */
  lemma AtMostTwoSends(acts: seq<Act>, i: nat)
    requires Possible(acts) && i < |After(acts).calls|
    ensures var c := After(acts).calls[i];
      |c.answers| <= 2 && (|c.answers| == 2 ==> BadSeq(c.answers[0]) && c.reloaded)
  {
    InvHolds(acts);
    assert CallOk(After(acts), i);
    hide StoredOk;
  }

  /**
   * The promise stored for an account, as it is and not as its comment says:
   * it rejects exactly when its call failed, and the rejection is handled
   * exactly when a later call on the account has chained onto it, that is, when
   * it is no longer the one that is stored.
   */
  lemma StoredPromise(acts: seq<Act>, i: nat)
    requires Possible(acts) && i < |After(acts).calls|
    ensures var q, c := After(acts), After(acts).calls[i];
      && (c.stored.Rejected? <==> !c.stored.Pending? && c.phase == Done(false))
      && (c.stored.Fulfilled? <==> !c.stored.Pending? && c.phase == Done(true))
      && (c.handled <==> HasLater(q, i))
      && c.account in q.submissionQueues
      && (c.handled <==> q.submissionQueues[c.account] != i)
  {
    InvHolds(acts);
    var q := After(acts);
    assert CallOk(q, i) && TailOk(q, q.calls[i].account);
    hide AnswersFit;
  }

  /** What a call can still do on its own. */
  predicate CanMove(q: Queue, i: nat) {
    && (Enabled(q, Load(i, true)) || Enabled(q, BuildFails(i)) || Enabled(q, Reload(i, true)) || Enabled(q, Settle(i)))
    && (Enabled(q, BuildFails(i)) ==> Enabled(q, Send(i, Refused(false))))
  }

  /**
   * No failure blocks the queue: as long as the promise of a call has not
   * settled, the call or an earlier one on its account can move.
   */
  lemma {:induction false} NeverBlocked(acts: seq<Act>, i: nat)
    requires Possible(acts) && i < |After(acts).calls| && After(acts).calls[i].stored.Pending?
    ensures exists j: nat | j <= i ::
      After(acts).calls[j].account == After(acts).calls[i].account && CanMove(After(acts), j)
    decreases i
  {
    InvHolds(acts);
    var q := After(acts);
    assert CallOk(q, i);
    hide After, Possible, AnswersFit, StoredOk;
    if q.calls[i].phase.Waiting? && !MayStart(q, i) {
      NeverBlocked(acts, q.calls[i].previous.value);
    } else {
      assert CanMove(q, i);
    }
  }

  /** The steps a call has left; every one of its own steps uses at least one up. */
  function StepsLeft(c: Call): nat {
    match c.phase
    case Waiting => 5
    case Loaded(_, retry, _) => if retry then 2 else 4
    case Stale => 3
    case Done(_) => if c.stored.Pending? then 1 else 0
  }

  lemma SectionsEnd(q: Queue, a: Act)
    requires Enabled(q, a) && !a.Submit? && !a.OtherWriter?
    ensures StepsLeft(Apply(q, a).calls[a.call]) < StepsLeft(q.calls[a.call])
    ensures forall j | 0 <= j < |q.calls| && j != a.call :: Apply(q, a).calls[j] == q.calls[j]
  {
  }

  /** A transaction carries the next number exactly when nobody else wrote to the account since its number was read. */
  lemma NextNumberExactlyWhenAlone(acts: seq<Act>, k: nat)
    requires Possible(acts) && k < |After(acts).sent|
    ensures var e := After(acts).sent[k];
      e.missed >= 0 && (e.sequence == e.ledger + 1 <==> e.missed == 0)
  {
    InvHolds(acts);
    assert SentOk(After(acts).sent[k]);
  }

  ghost predicate NoOtherWriter(acts: seq<Act>, account: Account) {
    forall k | 0 <= k < |acts| :: acts[k] != OtherWriter(account)
  }

  lemma {:induction false} NobodyElse(acts: seq<Act>, account: Account)
    requires Possible(acts) && NoOtherWriter(acts, account)
    ensures ForeignOf(After(acts), account) == 0
    ensures forall k | 0 <= k < |After(acts).sent| && After(acts).sent[k].account == account ::
      After(acts).sent[k].missed <= 0
  {
    if acts != [] {
      var front := acts[..|acts| - 1];
      NobodyElse(front, account);
      hide After, Possible;
      assert front[..] == acts[..|acts| - 1];
    }
  }

  /**
   * Without other writers every transaction carries the next number, so none is
   * refused as stale. An answer that counts as a sequence error is then an
   * operation's, of a transaction that took its number and failed; that one
   * stays possible.
   */
  lemma AloneNeverStale(acts: seq<Act>, account: Account)
    requires Possible(acts) && NoOtherWriter(acts, account)
    ensures forall k | 0 <= k < |After(acts).sent| && After(acts).sent[k].account == account ::
      After(acts).sent[k].sequence == After(acts).sent[k].ledger + 1
    ensures forall i: nat, reply: Reply | i < |After(acts).calls| && After(acts).calls[i].account == account ::
      Enabled(After(acts), Send(i, reply)) <==>
        After(acts).calls[i].phase.Loaded? && reply != Refused(true)
  {
    InvHolds(acts);
    NobodyElse(acts, account);
    var q := After(acts);
    forall k | 0 <= k < |q.sent| && q.sent[k].account == account ensures q.sent[k].sequence == q.sent[k].ledger + 1 {
      assert SentOk(q.sent[k]);
    }
    forall i: nat, reply: Reply | i < |q.calls| && q.calls[i].account == account
      ensures Enabled(q, Send(i, reply)) <==> q.calls[i].phase.Loaded? && reply != Refused(true)
    {
      assert CallOk(q, i);
    }
  }
}

/** The service: calls are chained, and each section runs while everything else goes on. */
module TxQueueSections {
  import opened Wrappers
  import opened StellarTxQueue
  import opened TxQueueRuns

  /** What happens to one section: the loads, the build, the two answers. */
  datatype Fate = Fate(loads: bool, builds: bool, reply: Reply, reloads: bool, rebuilds: bool, second: Reply)

  predicate Own(a: Act, i: nat) {
    (a.Load? || a.BuildFails? || a.Send? || a.Reload? || a.Settle?) && a.call == i
  }

  /** The network's answer: the one intended, if the sequence number allows it. */
  function Answer(q: Queue, i: nat, intended: Reply): (reply: Reply)
    requires i < |q.calls| && q.calls[i].phase.Loaded?
    ensures MayReply(q, i, reply) && (MayReply(q, i, intended) ==> reply == intended)
  {
    if MayReply(q, i, intended) then intended
    else Refused(q.calls[i].phase.sequence != LedgerOf(q, q.calls[i].account))
  }

  /** Whether a finished section did what its answers and failures call for. */
  predicate Played(fate: Fate, answers: seq<Reply>, ok: bool) {
    && (|answers| == 0 <==> !fate.loads || !fate.builds)
    && |answers| <= 2
    && (|answers| == 2 ==> BadSeq(answers[0]) && fate.reloads && fate.rebuilds)
    && (|answers| == 1 && BadSeq(answers[0]) ==> !fate.reloads || !fate.rebuilds)
    && (ok <==> answers != [] && answers[|answers| - 1].Applied?)
  }

  /** A later call may have chained onto it in the meantime. */
  predicate SameCall(c: Call, d: Call) {
    c == d.(handled := c.handled)
  }

  class StellarTxQueueService {
    const publicKey: Option<Account>
    var q: Queue
    ghost var acts: seq<Act>

    constructor (publicKey: Option<Account>)
      ensures Valid() && this.publicKey == publicKey && q == NO_CALLS
    {
      this.publicKey := publicKey;
      q, acts := NO_CALLS, [];
    }

    ghost predicate Valid()
      reads this
    {
      Possible(acts) && After(acts) == q
    }

    ghost method Log(before: Queue, act: Act)
      requires Possible(acts) && After(acts) == before && Enabled(before, act) && q == Apply(before, act)
      modifies this`acts
      ensures Valid() && acts == old(acts) + [act]
    {
      assert (acts + [act])[..|acts|] == acts;
      acts := acts + [act];
    }

    /** None: no key is configured. Otherwise the call's place in the queue. */
    method SubmitFromTreasury() returns (call: Option<nat>)
      requires Valid()
      modifies this
      ensures Valid()
      ensures publicKey.None? ==> call == None && q == old(q)
      ensures publicKey.Some? ==>
        && call == Some(|old(q).calls|)
        && q == Apply(old(q), Submit(publicKey.value)) && acts == old(acts) + [Submit(publicKey.value)]
    {
      if publicKey.None? {
        return None;
      }
      ghost var before := q;
      var queueKey := publicKey.value;
      var previous := if queueKey in q.submissionQueues then Some(q.submissionQueues[queueKey]) else None;
      var id := |q.calls|;
      if previous.Some? && previous.value < |q.calls| {
        q := q.(calls := q.calls[previous.value := q.calls[previous.value].(handled := true)]);
      }
      q := q.(calls := q.calls + [Call(queueKey, previous, Waiting, [], false, Pending, false)]);
      q := q.(submissionQueues := q.submissionQueues[queueKey := id]);
      hide Possible, After;
      Log(before, Submit(queueKey));
      return Some(id);
    }

    /** Whatever else happens while call `i` waits. */
    method Others(schedule: seq<Act>, i: nat)
      requires Valid() && i < |q.calls|
      modifies this
      ensures Valid() && |q.calls| >= |old(q).calls| && SameCall(q.calls[i], old(q).calls[i])
    {
      hide Enabled, After, Possible, Apply;
      for k := 0 to |schedule|
        invariant Valid() && |q.calls| >= |old(q).calls| && SameCall(q.calls[i], old(q).calls[i])
      {
        if !Own(schedule[k], i) && Enabled(q, schedule[k]) {
          OthersKeep(q, schedule[k], i);
          ghost var before := q;
          q := Apply(q, schedule[k]);
          Log(before, schedule[k]);
        }
      }
    }

    method LoadAccount(i: nat, ok: bool, retry: bool)
      requires Valid() && i < |q.calls| && if retry then q.calls[i].phase.Stale? else MayStart(q, i)
      modifies this
      ensures Valid() && q == StellarTxQueue.LoadAccount(old(q), i, ok, retry)
    {
      ghost var before := q;
      var account := q.calls[i].account;
      var phase := if ok then Loaded(LedgerOf(q, account), retry, ForeignOf(q, account)) else Done(false);
      q := q.(calls := q.calls[i := q.calls[i].(phase := phase, reloaded := ok && retry)]);
      hide Possible, After;
      Log(before, if retry then Reload(i, ok) else Load(i, ok));
    }

    /** `buildTx` and `sign`; when one throws the section is over. */
    method Build(i: nat, ok: bool)
      requires Valid() && i < |q.calls| && q.calls[i].phase.Loaded?
      modifies this
      ensures Valid() && q == if ok then old(q) else SetPhase(old(q), i, Done(false))
    {
      if !ok {
        ghost var before := q;
        q := q.(calls := q.calls[i := q.calls[i].(phase := Done(false))]);
        hide Possible, After;
        Log(before, BuildFails(i));
      }
    }

    method SubmitTransaction(i: nat, intended: Reply) returns (reply: Reply)
      requires Valid() && i < |q.calls| && q.calls[i].phase.Loaded?
      modifies this
      ensures Valid() && reply == Answer(old(q), i, intended) && q == ApplySend(old(q), i, reply)
    {
      ghost var before := q;
      reply := Answer(q, i, intended);
      q := ApplySend(q, i, reply);
      hide Possible, After;
      Log(before, Send(i, reply));
    }

    /** `submissionPromise.catch((e) => { throw e; })`: the stored promise follows its call. */
    method SettlePromise(i: nat)
      requires Valid() && i < |q.calls| && q.calls[i].phase.Done? && q.calls[i].stored.Pending?
      modifies this
      ensures Valid() && q == SettleStored(old(q), i)
    {
      ghost var before := q;
      var outcome := if q.calls[i].phase.ok then Fulfilled else Rejected;
      q := q.(calls := q.calls[i := q.calls[i].(stored := outcome)]);
      hide Possible, After;
      Log(before, Settle(i));
    }

    /** The section of call `i`, from the load to its end, with others running at every await. */
    method RunSection(i: nat, fate: Fate, env: nat -> seq<Act>) returns (ok: bool)
      requires Valid() && MayStart(q, i) && q.calls[i].answers == []
      modifies this
      ensures Valid() && i < |q.calls| && q.calls[i].phase == Done(ok)
      ensures Played(fate, q.calls[i].answers, ok)
    {
      hide Possible, After, Valid;
      ok := false;
      LoadAccount(i, fate.loads, false);
      Others(env(0), i);
      if !fate.loads {
        return;
      }
      Build(i, fate.builds);
      Others(env(1), i);
      if !fate.builds {
        return;
      }
      var reply := SubmitTransaction(i, fate.reply);
      Others(env(2), i);
      if BadSeq(reply) {
        ok := RetrySection(i, fate, env);
        return;
      }
      ok := reply.Applied?;
    }

    /** Reload, rebuild and send once more. */
    method RetrySection(i: nat, fate: Fate, env: nat -> seq<Act>)
      returns (ok: bool)
      requires Valid() && i < |q.calls| && q.calls[i].phase.Stale? && |q.calls[i].answers| == 1
      requires BadSeq(q.calls[i].answers[0]) && fate.loads && fate.builds
      modifies this
      ensures Valid() && i < |q.calls| && q.calls[i].phase == Done(ok)
      ensures Played(fate, q.calls[i].answers, ok)
    {
      hide Possible, After, Valid;
      ok := false;
      LoadAccount(i, fate.reloads, true);
      Others(env(3), i);
      if !fate.reloads {
        return;
      }
      Build(i, fate.rebuilds);
      Others(env(4), i);
      if !fate.rebuilds {
        return;
      }
      var reply := SubmitTransaction(i, fate.second);
      ok := reply.Applied?;
    }
  }

  lemma OthersKeep(q: Queue, a: Act, i: nat)
    requires Enabled(q, a) && i < |q.calls| && !Own(a, i)
    ensures |Apply(q, a).calls| >= |q.calls| && SameCall(Apply(q, a).calls[i], q.calls[i])
  {
  }
}
