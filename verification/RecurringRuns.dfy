/**
 * Order of the charges, and agreement of charges and schedule, over all runs of
 * the two jobs (src/recurring-payments/recurring-payments.service.ts:43-137).
 */
module RecurringRuns {
  import opened Wrappers
  import opened RecurringPayments

  /** When cycle `j` of a subscription is due. */
  function Cycle(row: Row, j: nat): int {
    if j == 0 then row.start else Cycle(row, j - 1) + row.interval
  }

  lemma {:induction false} CycleOfSameRow(row: Row, row': Row, j: nat)
    requires row.start == row'.start && row.interval == row'.interval
    ensures Cycle(row, j) == Cycle(row', j)
  {
    if j > 0 {
      CycleOfSameRow(row, row', j - 1);
    }
  }

  lemma {:induction false} CycleAscends(row: Row, i: nat, j: nat)
    requires row.interval > 0 && i <= j
    ensures Cycle(row, i) <= Cycle(row, j) && (i < j ==> Cycle(row, i) < Cycle(row, j))
  {
    if i < j {
      CycleAscends(row, i, j - 1);
    }
  }

  lemma {:induction false} CycleIsLinear(row: Row, j: nat)
    ensures Cycle(row, j) - row.start == j * row.interval
  {
    if j > 0 {
      CycleIsLinear(row, j - 1);
    }
  }

  /** Worker `w` has claimed a cycle of `id` and may still pay it. */
  predicate Creates(s: World, w: Worker, id: Id) {
    ChargerOf(s, w).Creating? && ChargerOf(s, w).id == id
  }

  /** Worker `w` has claimed a cycle of `id`, and its payment has not been made. */
  predicate Owes(s: World, w: Worker, id: Id) {
    match ChargerOf(s, w)
    case Creating(x, _, _) => x == id
    case Undoing(x, _, _, paid) => x == id && !paid
    case _ => false
  }

  ghost predicate Pending(s: World, id: Id) {
    exists w: Worker :: Creates(s, w, id)
  }

  ghost predicate Owing(s: World, id: Id) {
    exists w: Worker :: Owes(s, w, id)
  }

  function Charged(s: World, id: Id): nat {
    if id in s.charges then |s.charges[id]| else 0
  }

  // ── two guards ──

  /** A claim takes the first cycle without a charge, and no other payment may still be made. */
  ghost predicate InTurn(s: World, a: Act)
    requires Enabled(s, a)
  {
    a.Claim? ==>
      var d := ChargerOf(s, a.w).queue[0];
      ClaimSucceeds(s, d) ==> d.at == Cycle(s.rows[d.id], Charged(s, d.id)) && !Pending(s, d.id)
  }

  ghost predicate Orderly(acts: seq<Act>)
    requires Possible(acts)
  {
    acts == [] || (Orderly(acts[..|acts| - 1]) && InTurn(After(acts[..|acts| - 1]), acts[|acts| - 1]))
  }

  /**
   * No claim succeeds while another one is unpaid and not released, no claim is
   * released whose payment was made, and none is left behind unpaid.
   */
  ghost predicate Settles(s: World, a: Act)
    requires Enabled(s, a)
  {
    match a
    case Claim(w) => ClaimSucceeds(s, ChargerOf(s, w).queue[0]) ==> !Owing(s, ChargerOf(s, w).queue[0].id)
    case Release(w) => !ChargerOf(s, w).paid
    case Abandon(w) => ChargerOf(s, w).Undoing? && ChargerOf(s, w).paid
    case _ => true
  }

  ghost predicate Sound(acts: seq<Act>)
    requires Possible(acts)
  {
    acts == [] || (Sound(acts[..|acts| - 1]) && Settles(After(acts[..|acts| - 1]), acts[|acts| - 1]))
  }

  // ── what orderly runs keep ──

  /** The payments made are cycles 0, 1, 2, ... each once, when due and announced. */
  predicate InOrder(s: World, id: Id) {
    id in s.rows && id in s.charges &&
    forall j | 0 <= j < |s.charges[id]| ::
      var c := s.charges[id][j];
      c.cycle == Cycle(s.rows[id], j) && c.cycle <= c.at <= s.now && Due(id, c.cycle) in s.emails
  }

  predicate RowOk(s: World, id: Id)
    requires id in s.rows
  {
    && s.rows[id].interval > 0
    && (s.rows[id].notified.Some? ==> Due(id, s.rows[id].notified.value) in s.emails)
    && InOrder(s, id)
  }

  predicate DueOk(s: World, d: Due) {
    d.id in s.rows && d.at <= s.now && d in s.emails
  }

  predicate ChargerOk(s: World, c: Charger) {
    match c
    case Idle => true
    case Charging(queue) => forall i | 0 <= i < |queue| :: DueOk(s, queue[i])
    case Creating(id, at, rest) =>
      && DueOk(s, Due(id, at)) && at == Cycle(s.rows[id], Charged(s, id))
      && forall i | 0 <= i < |rest| :: DueOk(s, rest[i])
    case Undoing(_, _, rest, _) => forall i | 0 <= i < |rest| :: DueOk(s, rest[i])
  }

  predicate NotifierOk(s: World, n: Notifier) {
    n.Emailed? ==> Due(n.id, n.at) in s.emails
  }

  ghost predicate Alone(s: World, id: Id) {
    forall w: Worker, v: Worker | Creates(s, w, id) && Creates(s, v, id) :: w == v
  }

  ghost predicate Inv(s: World) {
    && (forall id | id in s.rows :: RowOk(s, id))
    && (forall w: Worker :: ChargerOk(s, ChargerOf(s, w)))
    && (forall w: Worker :: NotifierOk(s, NotifierOf(s, w)))
    && (forall id: Id :: Alone(s, id))
  }

  /** Time and mail only grow, and no row changes its schedule. */
  predicate Grows(s: World, t: World) {
    && s.now <= t.now && s.emails <= t.emails
    && forall id | id in s.rows ::
         id in t.rows && t.rows[id].start == s.rows[id].start && t.rows[id].interval == s.rows[id].interval
  }

  predicate NotifiedOk(s: World, t: World, id: Id)
    requires id in s.rows && id in t.rows
  {
    || t.rows[id].notified == s.rows[id].notified
    || (t.rows[id].notified.Some? && Due(id, t.rows[id].notified.value) in t.emails)
  }

  lemma RowStays(s: World, t: World, id: Id)
    requires id in s.rows && RowOk(s, id) && Grows(s, t) && NotifiedOk(s, t, id)
    requires id in t.charges && t.charges[id] == s.charges[id]
    ensures RowOk(t, id)
  {
    forall j: nat {
      CycleOfSameRow(s.rows[id], t.rows[id], j);
    }
    hide Cycle;
  }

  lemma ChargerStays(s: World, t: World, c: Charger)
    requires ChargerOk(s, c) && Grows(s, t)
    requires c.Creating? ==> Charged(t, c.id) == Charged(s, c.id)
    ensures ChargerOk(t, c)
  {
    hide Cycle;
    if c.Creating? {
      CycleOfSameRow(s.rows[c.id], t.rows[c.id], Charged(s, c.id));
    }
  }

  /** Steps after which no more payments may be made than before. */
  lemma CalmStep(s: World, t: World)
    requires Inv(s) && Grows(s, t) && t.rows.Keys == s.rows.Keys && t.charges == s.charges
    requires forall w: Worker ::
      ChargerOf(t, w) == ChargerOf(s, w) || (!ChargerOf(t, w).Creating? && ChargerOk(t, ChargerOf(t, w)))
    requires forall w: Worker :: NotifierOf(t, w) == NotifierOf(s, w) || NotifierOk(t, NotifierOf(t, w))
    requires forall id | id in s.rows :: NotifiedOk(s, t, id)
    ensures Inv(t)
  {
    forall id | id in t.rows ensures RowOk(t, id) {
      RowStays(s, t, id);
    }
    forall id: Id ensures Alone(t, id) {
      assert Alone(s, id);
      assert forall w: Worker | Creates(t, w, id) :: Creates(s, w, id);
    }
    hide RowOk, Alone, Creates, Cycle;
    forall w: Worker ensures ChargerOk(t, ChargerOf(t, w)) {
      if ChargerOf(t, w) == ChargerOf(s, w) {
        ChargerStays(s, t, ChargerOf(s, w));
      }
    }
  }

  lemma StepSubscribe(s: World, id: Id, days: nat, start: int)
    requires Inv(s) && Enabled(s, Subscribe(id, days, start))
    ensures Inv(Apply(s, Subscribe(id, days, start)))
  {
    var t := Apply(s, Subscribe(id, days, start));
    forall x | x in t.rows ensures RowOk(t, x) {
      if x != id {
        RowStays(s, t, x);
      }
    }
    forall x: Id ensures Alone(t, x) {
      assert Alone(s, x);
      assert forall w: Worker | Creates(t, w, x) :: Creates(s, w, x);
    }
    hide RowOk, Alone, Cycle;
    forall w: Worker ensures ChargerOk(t, ChargerOf(t, w)) && NotifierOk(t, NotifierOf(t, w)) {
      assert ChargerOk(s, ChargerOf(s, w)) && NotifierOk(s, NotifierOf(s, w));
      ChargerStays(s, t, ChargerOf(s, w));
    }
    hide ChargerOk, NotifierOk, Apply;
  }

  lemma StepNotifier(s: World, a: Act)
    requires Inv(s) && Enabled(s, a)
    requires a.FindUpcoming? || a.Email? || a.Mark? || a.RestAgain?
    ensures Inv(Apply(s, a))
  {
    hide RowOk, ChargerOk, Alone, Lists, Cycle;
    assert NotifierOk(s, NotifierOf(s, a.w));
    CalmStep(s, Apply(s, a));
  }

  /** Steps of a charger that neither claim a cycle nor make a payment. */
  predicate CalmCharger(s: World, a: Act)
    requires Enabled(s, a)
  {
    || a.FindDue? || a.Stop? || a.Release? || a.Abandon? || (a.CreateThrows? && !a.made)
    || (a.Claim? && !ClaimSucceeds(s, ChargerOf(s, a.w).queue[0]))
  }

  lemma StepCalmCharger(s: World, a: Act)
    requires Inv(s) && Enabled(s, a) && CalmCharger(s, a)
    ensures Inv(Apply(s, a))
  {
    var t := Apply(s, a);
    assert ChargerOk(s, ChargerOf(s, a.w));
    if a.FindDue? {
      forall i | 0 <= i < |a.found| ensures DueOk(s, a.found[i]) {
        assert RowOk(s, a.found[i].id);
      }
    }
    hide RowOk, Alone, Lists, Cycle;
    CalmStep(s, t);
  }

  /** Only `w` changes, and what it changes is subscription `id`. */
  ghost predicate Touches(s: World, t: World, w: Worker, id: Id) {
    && Grows(s, t) && t.rows.Keys == s.rows.Keys
    && t.now == s.now && t.emails == s.emails && t.notifiers == s.notifiers
    && (forall x | x in s.rows && x != id :: t.rows[x] == s.rows[x])
    && (forall x | x != id :: (x in t.charges <==> x in s.charges) && (x in s.charges ==> t.charges[x] == s.charges[x]))
    && (forall v: Worker | v != w :: ChargerOf(t, v) == ChargerOf(s, v))
  }

  lemma TouchStep(s: World, t: World, w: Worker, id: Id)
    requires Inv(s) && Touches(s, t, w, id)
    requires forall v: Worker | v != w :: !Creates(s, v, id)
    requires forall x: Id | x != id :: !Creates(t, w, x)
    requires id in s.rows && RowOk(t, id) && ChargerOk(t, ChargerOf(t, w))
    ensures Inv(t)
  {
    forall x | x in t.rows ensures RowOk(t, x) {
      if x != id {
        RowStays(s, t, x);
      }
    }
    forall x: Id ensures Alone(t, x) {
      assert Alone(s, x);
      assert forall v: Worker | v != w :: Creates(t, v, x) <==> Creates(s, v, x);
    }
    forall v: Worker ensures NotifierOk(t, NotifierOf(t, v)) {
      assert NotifierOk(s, NotifierOf(s, v));
    }
    hide RowOk, Alone, Cycle, NotifierOk;
    forall v: Worker ensures ChargerOk(t, ChargerOf(t, v)) {
      if v != w {
        assert ChargerOk(s, ChargerOf(s, v)) && !Creates(s, v, id);
        ChargerStays(s, t, ChargerOf(s, v));
      }
    }
  }

  lemma StepClaim(s: World, w: Worker)
    requires Inv(s) && Enabled(s, Claim(w)) && InTurn(s, Claim(w))
    requires ClaimSucceeds(s, ChargerOf(s, w).queue[0])
    ensures Inv(Apply(s, Claim(w)))
  {
    var d := ChargerOf(s, w).queue[0];
    var t := Apply(s, Claim(w));
    assert RowOk(s, d.id) && ChargerOk(s, ChargerOf(s, w));
    CycleOfSameRow(s.rows[d.id], t.rows[d.id], Charged(s, d.id));
    RowStays(s, t, d.id);
    hide Cycle, RowOk;
    assert ChargerOk(t, ChargerOf(t, w));
    forall v: Worker | v != w ensures !Creates(s, v, d.id) {
      assert Creates(s, v, d.id) ==> Pending(s, d.id);
    }
    TouchStep(s, t, w, d.id);
  }

  lemma PaymentInOrder(s: World, t: World, w: Worker)
    requires Inv(s) && ChargerOf(s, w).Creating?
    requires t.rows == s.rows && t.emails == s.emails && t.now == s.now
    requires var c := ChargerOf(s, w); t.charges == AddCharge(s, c.id, c.at).charges
    ensures ChargerOf(s, w).id in s.rows && RowOk(t, ChargerOf(s, w).id)
  {
    var c := ChargerOf(s, w);
    assert ChargerOk(s, c) && RowOk(s, c.id);
    hide Cycle;
    assert t.charges[c.id] == s.charges[c.id] + [Charge(c.at, s.now)];
  }

  lemma NoOtherCreates(s: World, w: Worker)
    requires ChargerOf(s, w).Creating? && Alone(s, ChargerOf(s, w).id)
    ensures forall v: Worker | v != w :: !Creates(s, v, ChargerOf(s, w).id)
  {
    assert Creates(s, w, ChargerOf(s, w).id);
  }

  /** A payment is made, whether or not the worker hears of it. */
  lemma StepPay(s: World, a: Act)
    requires Inv(s) && Enabled(s, a) && (a.CreateOk? || (a.CreateThrows? && a.made))
    ensures Inv(Apply(s, a))
  {
    var c := ChargerOf(s, a.w);
    var t := Apply(s, a);
    assert ChargerOk(s, c) && Alone(s, c.id);
    PaymentInOrder(s, t, a.w);
    hide Cycle, RowOk;
    NoOtherCreates(s, a.w);
    TouchStep(s, t, a.w, c.id);
  }

  lemma InvStep(s: World, a: Act)
    requires Inv(s) && Enabled(s, a) && InTurn(s, a)
    ensures Inv(Apply(s, a))
  {
    hide RowOk, ChargerOk, Alone, Lists, Cycle, NotifierOk;
    match a
    case Tick(_) => CalmStep(s, Apply(s, a));
    case Cancel(_) => CalmStep(s, Apply(s, a));
    case Subscribe(id, days, start) => StepSubscribe(s, id, days, start);
    case CreateOk(_) => StepPay(s, a);
    case CreateThrows(_, made) =>
      if made {
        StepPay(s, a);
      } else {
        StepCalmCharger(s, a);
      }
    case Claim(w) =>
      if ClaimSucceeds(s, ChargerOf(s, w).queue[0]) {
        StepClaim(s, w);
      } else {
        StepCalmCharger(s, a);
      }
    case FindDue(_, _) => StepCalmCharger(s, a);
    case Stop(_) => StepCalmCharger(s, a);
    case Release(_) => StepCalmCharger(s, a);
    case Abandon(_) => StepCalmCharger(s, a);
    case _ => StepNotifier(s, a);
  }

  lemma InvInit()
    ensures Inv(EMPTY)
  {
  }

  lemma {:induction false} InvHolds(acts: seq<Act>)
    requires Possible(acts) && Orderly(acts)
    ensures Inv(After(acts))
  {
    hide Inv, Apply, Enabled, InTurn;
    if acts == [] {
      InvInit();
    } else {
      InvHolds(acts[..|acts| - 1]);
      InvStep(After(acts[..|acts| - 1]), acts[|acts| - 1]);
    }
  }

  // ── order is exactly orderliness ──

  predicate OnlyPayments(more: seq<Act>) {
    forall k | 0 <= k < |more| :: more[k].CreateOk?
  }

  /** Whatever the run has done so far, and whichever of its payments still go through, the charges are in order. */
  ghost predicate AlwaysInOrder(acts: seq<Act>) {
    forall n: nat, more: seq<Act>, id: Id | n <= |acts| :: OrderAfter(acts[..n], more, id)
  }

  ghost predicate OrderAfter(acts: seq<Act>, more: seq<Act>, id: Id) {
    OnlyPayments(more) && Possible(acts + more) && id in After(acts + more).rows ==> InOrder(After(acts + more), id)
  }

  lemma {:induction false} PrefixOfRun(acts: seq<Act>, n: nat)
    requires Possible(acts) && n <= |acts|
    ensures Possible(acts[..n]) && (Orderly(acts) ==> Orderly(acts[..n])) && (Sound(acts) ==> Sound(acts[..n]))
  {
    hide Apply, Enabled, InTurn, Settles;
    if n == |acts| {
      assert acts[..n] == acts;
    } else {
      PrefixOfRun(acts[..|acts| - 1], n);
      assert acts[..|acts| - 1][..n] == acts[..n];
    }
  }

  lemma {:induction false} PaymentsAreOrderly(acts: seq<Act>, more: seq<Act>)
    requires Possible(acts) && Orderly(acts) && OnlyPayments(more) && Possible(acts + more)
    ensures Orderly(acts + more)
  {
    if more == [] {
      assert acts + more == acts;
    } else {
      var front := more[..|more| - 1];
      assert (acts + more)[..|acts + more| - 1] == acts + front;
      PaymentsAreOrderly(acts, front);
    }
  }

  lemma Extend(acts: seq<Act>, a: Act)
    requires Possible(acts) && Enabled(After(acts), a)
    ensures Possible(acts + [a]) && After(acts + [a]) == Apply(After(acts), a)
    ensures Orderly(acts + [a]) <==> Orderly(acts) && InTurn(After(acts), a)
    ensures Sound(acts + [a]) <==> Sound(acts) && Settles(After(acts), a)
  {
    assert (acts + [a])[..|acts|] == acts;
    hide InTurn, Settles, Apply, Enabled;
  }

  /** After a claim out of turn, the payments that it and an earlier claim may still make break the order. */
  lemma OutOfTurnBreaksOrder(acts: seq<Act>, w: Worker) returns (more: seq<Act>)
    requires Possible(acts) && Orderly(acts) && Enabled(After(acts), Claim(w)) && !InTurn(After(acts), Claim(w))
    ensures !OrderAfter(acts + [Claim(w)], more, ChargerOf(After(acts), w).queue[0].id)
  {
    InvHolds(acts);
    var s := After(acts);
    var d := ChargerOf(s, w).queue[0];
    var run := acts + [Claim(w)];
    Extend(acts, Claim(w));
    hide Possible, After, Orderly, Apply, Inv;
    PayOutOfTurn(s, w);
    Extend(run, CreateOk(w));
    more := [CreateOk(w)];
    if d.at == Cycle(s.rows[d.id], Charged(s, d.id)) {
      var v: Worker :| Creates(s, v, d.id);
      PayBoth(s, w, v);
      Extend(run + more, CreateOk(v));
      assert run + more + [CreateOk(v)] == run + (more + [CreateOk(v)]);
      more := more + [CreateOk(v)];
    }
  }

  lemma PayOutOfTurn(s: World, w: Worker)
    requires Inv(s) && Enabled(s, Claim(w)) && ClaimSucceeds(s, ChargerOf(s, w).queue[0])
    ensures var d, t := ChargerOf(s, w).queue[0], Apply(s, Claim(w));
      && Enabled(t, CreateOk(w)) && d.id in Apply(t, CreateOk(w)).rows
      && (d.at != Cycle(s.rows[d.id], Charged(s, d.id)) ==> !InOrder(Apply(t, CreateOk(w)), d.id))
  {
    var d := ChargerOf(s, w).queue[0];
    var u := Apply(Apply(s, Claim(w)), CreateOk(w));
    assert RowOk(s, d.id);
    var n := Charged(s, d.id);
    assert u.charges[d.id][n].cycle == d.at;
    CycleOfSameRow(s.rows[d.id], u.rows[d.id], n);
    hide Cycle;
  }

  lemma PayBoth(s: World, w: Worker, v: Worker)
    requires Inv(s) && Enabled(s, Claim(w)) && ClaimSucceeds(s, ChargerOf(s, w).queue[0])
    requires var d := ChargerOf(s, w).queue[0];
      Creates(s, v, d.id) && d.at == Cycle(s.rows[d.id], Charged(s, d.id))
    ensures var id, t := ChargerOf(s, w).queue[0].id, Apply(s, Claim(w));
      && Enabled(t, CreateOk(w)) && Enabled(Apply(t, CreateOk(w)), CreateOk(v))
      && id in Apply(Apply(t, CreateOk(w)), CreateOk(v)).rows
      && !InOrder(Apply(Apply(t, CreateOk(w)), CreateOk(v)), id)
  {
    var d := ChargerOf(s, w).queue[0];
    var u := Apply(Apply(s, Claim(w)), CreateOk(w));
    assert RowOk(s, d.id) && ChargerOk(s, ChargerOf(s, v));
    var n := Charged(s, d.id);
    CycleOfSameRow(s.rows[d.id], u.rows[d.id], n);
    hide Cycle;
    assert ChargerOf(u, v) == ChargerOf(s, v);
    PayTwice(u, v, n, d.at);
  }

  /** Charging the last charged cycle once more is out of order. */
  lemma PayTwice(u: World, v: Worker, n: nat, at: int)
    requires ChargerOf(u, v).Creating? && ChargerOf(u, v).at == at
    requires var id := ChargerOf(u, v).id;
      && id in u.rows && u.rows[id].interval > 0
      && id in u.charges && |u.charges[id]| == n + 1 && at == Cycle(u.rows[id], n)
    ensures !InOrder(Apply(u, CreateOk(v)), ChargerOf(u, v).id)
  {
    var id := ChargerOf(u, v).id;
    var t := Apply(u, CreateOk(v));
    assert t.charges[id][n + 1].cycle == at;
    assert Cycle(t.rows[id], n + 1) == Cycle(t.rows[id], n) + t.rows[id].interval;
    hide Cycle;
  }

  lemma {:induction false} DisorderShows(acts: seq<Act>) returns (n: nat, more: seq<Act>, id: Id)
    requires Possible(acts) && !Orderly(acts)
    ensures n <= |acts| && !OrderAfter(acts[..n], more, id)
  {
    var m := |acts| - 1;
    if Orderly(acts[..m]) {
      var w := acts[m].w;
      more := OutOfTurnBreaksOrder(acts[..m], w);
      n, id := |acts|, ChargerOf(After(acts[..m]), w).queue[0].id;
      assert acts[..n] == acts == acts[..m] + [Claim(w)];
    } else {
      n, more, id := DisorderShows(acts[..m]);
      assert acts[..m][..n] == acts[..n];
    }
  }

  /**
   * A run, with the payments it may still make, keeps the charges in order if and
   * only if every claim takes the first cycle without a charge while no other
   * payment may still be made.
   */
  lemma OrderedExactlyWhenOrderly(acts: seq<Act>)
    requires Possible(acts)
    ensures AlwaysInOrder(acts) <==> Orderly(acts)
  {
    if Orderly(acts) {
      forall n: nat, more: seq<Act>, id: Id | n <= |acts| ensures OrderAfter(acts[..n], more, id) {
        PrefixOfRun(acts, n);
        if OnlyPayments(more) && Possible(acts[..n] + more) {
          PaymentsAreOrderly(acts[..n], more);
          InvHolds(acts[..n] + more);
          assert forall x | x in After(acts[..n] + more).rows :: RowOk(After(acts[..n] + more), x);
        }
      }
    } else {
      var n, more, id := DisorderShows(acts);
      assert !OrderAfter(acts[..n], more, id);
    }
  }

  // ── charges and schedule ──

  /** The row stands at the first cycle without a charge, or at the one after it while a claim is unpaid. */
  ghost predicate Stands(s: World, id: Id)
    requires id in s.rows
  {
    s.rows[id].next == Cycle(s.rows[id], Charged(s, id) + if Owing(s, id) then 1 else 0)
  }

  /** What is about to be released was the first cycle without a charge, or has been charged. */
  predicate DebtOk(s: World, c: Charger) {
    c.Undoing? ==>
      && c.id in s.rows
      && if c.paid then c.at < Cycle(s.rows[c.id], Charged(s, c.id)) else c.at == Cycle(s.rows[c.id], Charged(s, c.id))
  }

  ghost predicate OweAlone(s: World, id: Id) {
    forall w: Worker, v: Worker | Owes(s, w, id) && Owes(s, v, id) :: w == v
  }

  ghost predicate Debts(s: World) {
    && (forall id | id in s.rows :: Stands(s, id))
    && (forall w: Worker :: DebtOk(s, ChargerOf(s, w)))
    && (forall id: Id :: OweAlone(s, id))
  }

  lemma OwingStays(s: World, t: World, id: Id)
    requires forall w: Worker :: Owes(t, w, id) <==> Owes(s, w, id)
    ensures Owing(t, id) == Owing(s, id)
    ensures OweAlone(s, id) ==> OweAlone(t, id)
  {
    if Owing(s, id) {
      var w: Worker :| Owes(s, w, id);
      assert Owes(t, w, id);
    }
  }

  lemma StandsStays(s: World, t: World, id: Id)
    requires id in s.rows && Stands(s, id) && Grows(s, t) && Owing(t, id) == Owing(s, id)
    requires t.rows[id].next == s.rows[id].next && Charged(t, id) == Charged(s, id)
    ensures Stands(t, id)
  {
    CycleOfSameRow(s.rows[id], t.rows[id], Charged(s, id));
    CycleOfSameRow(s.rows[id], t.rows[id], Charged(s, id) + 1);
    hide Cycle, Owing;
  }

  lemma DebtStays(s: World, t: World, c: Charger)
    requires DebtOk(s, c) && Grows(s, t) && (c.Undoing? ==> Charged(t, c.id) == Charged(s, c.id))
    ensures DebtOk(t, c)
  {
    if c.Undoing? {
      CycleOfSameRow(s.rows[c.id], t.rows[c.id], Charged(s, c.id));
    }
    hide Cycle;
  }

  lemma CalmDebts(s: World, t: World)
    requires Debts(s) && Grows(s, t) && t.rows.Keys == s.rows.Keys && t.charges == s.charges
    requires forall id | id in s.rows :: t.rows[id].next == s.rows[id].next
    requires forall w: Worker, id: Id :: Owes(t, w, id) <==> Owes(s, w, id)
    requires forall w: Worker :: ChargerOf(t, w) == ChargerOf(s, w) || DebtOk(t, ChargerOf(t, w))
    ensures Debts(t)
  {
    forall id: Id ensures OweAlone(t, id) && (id in t.rows ==> Stands(t, id)) {
      OwingStays(s, t, id);
      if id in s.rows {
        StandsStays(s, t, id);
      }
    }
    hide Stands, OweAlone, Owes, Cycle;
    forall w: Worker ensures DebtOk(t, ChargerOf(t, w)) {
      if ChargerOf(t, w) == ChargerOf(s, w) {
        DebtStays(s, t, ChargerOf(s, w));
      }
    }
  }

  lemma OtherDebt(s: World, t: World, id: Id, c: Charger)
    requires DebtOk(s, c) && Grows(s, t) && id in s.rows && s.rows[id].interval > 0
    requires forall x: Id | x != id :: Charged(t, x) == Charged(s, x)
    requires Charged(t, id) >= Charged(s, id) && !(c.Undoing? && c.id == id && !c.paid)
    ensures DebtOk(t, c)
  {
    if c.Undoing? && c.id == id {
      CycleOfSameRow(s.rows[id], t.rows[id], Charged(s, id));
      CycleAscends(t.rows[id], Charged(s, id), Charged(t, id));
    } else {
      DebtStays(s, t, c);
    }
    hide Cycle;
  }

  lemma TouchDebts(s: World, t: World, w: Worker, id: Id)
    requires Debts(s) && Touches(s, t, w, id) && id in s.rows && s.rows[id].interval > 0
    requires forall v: Worker | v != w :: !Owes(s, v, id)
    requires forall x: Id | x != id :: !Owes(s, w, x) && !Owes(t, w, x)
    requires Charged(t, id) >= Charged(s, id)
    requires Stands(t, id) && DebtOk(t, ChargerOf(t, w))
    ensures Debts(t)
  {
    assert forall v: Worker, x: Id | v != w :: Owes(t, v, x) <==> Owes(s, v, x);
    forall x: Id ensures OweAlone(t, x) && (x in t.rows ==> Stands(t, x)) {
      if x != id {
        OwingStays(s, t, x);
        if x in s.rows {
          StandsStays(s, t, x);
        }
      }
    }
    hide Stands, OweAlone, Cycle;
    forall v: Worker ensures DebtOk(t, ChargerOf(t, v)) {
      if v != w {
        assert DebtOk(s, ChargerOf(s, v)) && !Owes(s, v, id);
        OtherDebt(s, t, id, ChargerOf(s, v));
      }
    }
  }

  /** What settles is in turn. */
  lemma SettlesInTurn(s: World, a: Act)
    requires Inv(s) && Debts(s) && Enabled(s, a) && Settles(s, a)
    ensures InTurn(s, a)
  {
    hide Cycle, ChargerOk, RowOk;
    if a.Claim? && ClaimSucceeds(s, ChargerOf(s, a.w).queue[0]) {
      var id := ChargerOf(s, a.w).queue[0].id;
      assert Stands(s, id);
      assert forall v: Worker | Creates(s, v, id) :: Owes(s, v, id);
    }
  }

  lemma DebtsSubscribe(s: World, id: Id, days: nat, start: int)
    requires Inv(s) && Debts(s) && Enabled(s, Subscribe(id, days, start))
    ensures Debts(Apply(s, Subscribe(id, days, start)))
  {
    var t := Apply(s, Subscribe(id, days, start));
    forall w: Worker ensures !Owes(s, w, id) && DebtOk(t, ChargerOf(t, w)) {
      assert ChargerOk(s, ChargerOf(s, w)) && DebtOk(s, ChargerOf(s, w));
      DebtStays(s, t, ChargerOf(s, w));
    }
    forall x: Id ensures OweAlone(t, x) && (x in t.rows ==> Stands(t, x)) {
      OwingStays(s, t, x);
      if x in s.rows {
        StandsStays(s, t, x);
      }
    }
    hide Stands, OweAlone, Cycle, Owes, DebtOk;
  }

  lemma DebtsClaim(s: World, w: Worker)
    requires Inv(s) && Debts(s) && Enabled(s, Claim(w)) && Settles(s, Claim(w))
    requires ClaimSucceeds(s, ChargerOf(s, w).queue[0])
    ensures Debts(Apply(s, Claim(w)))
  {
    var d := ChargerOf(s, w).queue[0];
    var t := Apply(s, Claim(w));
    var n := Charged(s, d.id);
    assert RowOk(s, d.id) && Stands(s, d.id);
    assert Owes(t, w, d.id);
    CycleOfSameRow(s.rows[d.id], t.rows[d.id], n);
    assert Cycle(t.rows[d.id], n + 1) == Cycle(t.rows[d.id], n) + t.rows[d.id].interval;
    hide Cycle, RowOk;
    TouchDebts(s, t, w, d.id);
  }

  lemma NoOtherOwes(s: World, t: World, w: Worker, id: Id)
    requires OweAlone(s, id) && Owes(s, w, id) && !Owes(t, w, id)
    requires forall v: Worker | v != w :: ChargerOf(t, v) == ChargerOf(s, v)
    ensures Owing(s, id) && !Owing(t, id)
    ensures forall v: Worker | v != w :: !Owes(s, v, id)
  {
    assert forall v: Worker :: Owes(s, v, id) ==> v == w;
    assert forall v: Worker | v != w :: Owes(t, v, id) <==> Owes(s, v, id);
  }

  lemma Settling(s: World, w: Worker, id: Id)
    requires Inv(s) && Debts(s) && Owes(s, w, id)
    ensures id in s.rows && s.rows[id].interval > 0 && OweAlone(s, id)
    ensures ChargerOf(s, w).id == id && ChargerOf(s, w).at == Cycle(s.rows[id], Charged(s, id))
    ensures s.rows[id].next == Cycle(s.rows[id], Charged(s, id) + 1)
  {
    assert ChargerOk(s, ChargerOf(s, w)) && DebtOk(s, ChargerOf(s, w));
    assert RowOk(s, id) && Stands(s, id);
    hide Cycle, RowOk, ChargerOk, DebtOk;
  }

  /** A payment that is made. */
  lemma DebtsPaid(s: World, a: Act)
    requires Inv(s) && Debts(s) && Enabled(s, a) && (a.CreateOk? || (a.CreateThrows? && a.made))
    ensures Debts(Apply(s, a))
  {
    var id := ChargerOf(s, a.w).id;
    var t := Apply(s, a);
    Settling(s, a.w, id);
    hide RowOk, ChargerOk, Stands, Inv, Debts;
    NoOtherOwes(s, t, a.w, id);
    CycleOfSameRow(s.rows[id], t.rows[id], Charged(s, id) + 1);
    CycleAscends(t.rows[id], Charged(s, id), Charged(s, id) + 1);
    hide Cycle;
    assert Stands(t, id) by {
      assert t.rows[id].next == s.rows[id].next && Charged(t, id) == Charged(s, id) + 1;
    }
    TouchDebts(s, t, a.w, id);
  }

  /** A claim that is released without a payment. */
  lemma DebtsReleased(s: World, w: Worker)
    requires Inv(s) && Debts(s) && Enabled(s, Release(w)) && Settles(s, Release(w))
    ensures Debts(Apply(s, Release(w)))
  {
    var id := ChargerOf(s, w).id;
    var t := Apply(s, Release(w));
    Settling(s, w, id);
    hide RowOk, ChargerOk, Stands, Inv, Debts;
    NoOtherOwes(s, t, w, id);
    CycleOfSameRow(s.rows[id], t.rows[id], Charged(s, id));
    hide Cycle;
    assert Stands(t, id) by {
      assert Charged(t, id) == Charged(s, id);
    }
    TouchDebts(s, t, w, id);
  }

  lemma DebtsNotifier(s: World, a: Act)
    requires Debts(s) && Enabled(s, a)
    requires a.FindUpcoming? || a.Email? || a.Mark? || a.RestAgain? || a.Tick? || a.Cancel?
    ensures Debts(Apply(s, a))
  {
    hide Cycle, Lists, Stands, OweAlone, DebtOk;
    CalmDebts(s, Apply(s, a));
  }

  lemma DebtsCalm(s: World, a: Act)
    requires Inv(s) && Debts(s) && Enabled(s, a) && Settles(s, a) && CalmCharger(s, a) && !a.Release?
    ensures Debts(Apply(s, a))
  {
    assert ChargerOk(s, ChargerOf(s, a.w));
    hide Cycle, RowOk, Lists, Stands, OweAlone, Inv;
    CalmDebts(s, Apply(s, a));
  }

  lemma DebtsStep(s: World, a: Act)
    requires Inv(s) && Debts(s) && Enabled(s, a) && Settles(s, a)
    ensures Debts(Apply(s, a))
  {
    hide Inv, Debts, Apply;
    if a.Subscribe? {
      DebtsSubscribe(s, a.id, a.days, a.start);
    } else if a.Claim? && ClaimSucceeds(s, ChargerOf(s, a.w).queue[0]) {
      DebtsClaim(s, a.w);
    } else if a.CreateOk? || (a.CreateThrows? && a.made) {
      DebtsPaid(s, a);
    } else if a.Release? {
      DebtsReleased(s, a.w);
    } else if CalmCharger(s, a) {
      DebtsCalm(s, a);
    } else {
      DebtsNotifier(s, a);
    }
  }

  lemma DebtsInit()
    ensures Debts(EMPTY)
  {
    assert forall w: Worker, id: Id :: !Owes(EMPTY, w, id);
  }

  lemma {:induction false} DebtsHold(acts: seq<Act>)
    requires Possible(acts) && Sound(acts)
    ensures Orderly(acts) && Inv(After(acts)) && Debts(After(acts))
  {
    hide Inv, Debts, Apply, Enabled, InTurn, Settles;
    if acts == [] {
      InvInit();
      DebtsInit();
    } else {
      var s, a := After(acts[..|acts| - 1]), acts[|acts| - 1];
      DebtsHold(acts[..|acts| - 1]);
      SettlesInTurn(s, a);
      InvStep(s, a);
      DebtsStep(s, a);
    }
  }

  /** Charges and schedule of a subscription agree: in order, and the row stands where they end. */
  ghost predicate Agrees(s: World, id: Id) {
    id in s.rows ==> InOrder(s, id) && Stands(s, id)
  }

  ghost predicate AgreesAfter(acts: seq<Act>, id: Id) {
    Possible(acts) ==> Agrees(After(acts), id)
  }

  ghost predicate AlwaysAgrees(acts: seq<Act>) {
    forall n: nat, id: Id | n <= |acts| :: AgreesAfter(acts[..n], id)
  }

  function Touched(s: World, a: Act): Id
    requires Enabled(s, a) && (a.Claim? || a.Release? || a.Abandon?)
  {
    if a.Claim? then ChargerOf(s, a.w).queue[0].id else ChargerOf(s, a.w).id
  }

  /** A step that does not settle ends the agreement. */
  lemma UnsettledDisagrees(s: World, a: Act)
    requires Inv(s) && Debts(s) && Enabled(s, a) && !Settles(s, a)
    ensures !Agrees(Apply(s, a), Touched(s, a))
  {
    var t, id := Apply(s, a), Touched(s, a);
    assert ChargerOk(s, ChargerOf(s, a.w)) && DebtOk(s, ChargerOf(s, a.w));
    assert RowOk(s, id) && Stands(s, id) && OweAlone(s, id);
    var n := Charged(s, id);
    CycleOfSameRow(s.rows[id], t.rows[id], n);
    CycleOfSameRow(s.rows[id], t.rows[id], n + 1);
    CycleAscends(t.rows[id], n, n + 1);
    if a.Claim? {
      assert Owes(t, a.w, id);
    } else if a.Abandon? {
      NoOtherOwes(s, t, a.w, id);
    }
    hide Cycle, InOrder, RowOk, ChargerOk;
  }

  lemma {:induction false} DisagreementShows(acts: seq<Act>) returns (n: nat, id: Id)
    requires Possible(acts) && !Sound(acts)
    ensures n <= |acts| && !AgreesAfter(acts[..n], id)
  {
    hide Agrees, Enabled, Apply, Inv, Debts;
    var m := |acts| - 1;
    if Sound(acts[..m]) {
      DebtsHold(acts[..m]);
      UnsettledDisagrees(After(acts[..m]), acts[m]);
      n, id := |acts|, Touched(After(acts[..m]), acts[m]);
      assert acts[..n] == acts;
    } else {
      n, id := DisagreementShows(acts[..m]);
      assert acts[..m][..n] == acts[..n];
    }
  }

  /**
   * Charges and schedule agree throughout a run if and only if no claim succeeds
   * while another is owed, no claim is released whose payment was made although
   * `create` threw, and none is left behind unpaid.
   */
  lemma AgreesExactlyWhenSound(acts: seq<Act>)
    requires Possible(acts)
    ensures AlwaysAgrees(acts) <==> Sound(acts)
  {
    if Sound(acts) {
      forall n: nat, id: Id | n <= |acts| ensures AgreesAfter(acts[..n], id) {
        PrefixOfRun(acts, n);
        DebtsHold(acts[..n]);
        assert id in After(acts[..n]).rows ==> RowOk(After(acts[..n]), id) && Stands(After(acts[..n]), id);
      }
    } else {
      var n, id := DisagreementShows(acts);
      assert !AgreesAfter(acts[..n], id);
    }
  }

  /**
   * In every sound run: the payments created for a subscription are its cycles
   * in order, none twice and none skipped, each due and announced when it was
   * created; when no claim is owed there are exactly as many as intervals have
   * passed; and at most one claim is owed.
   */
  lemma ChargesFollowTheSchedule(acts: seq<Act>, id: Id)
    requires Possible(acts) && Sound(acts) && id in After(acts).rows
    ensures var s := After(acts);
      && InOrder(s, id) && Stands(s, id) && OweAlone(s, id)
      && (!Owing(s, id) ==> s.rows[id].next - s.rows[id].start == |s.charges[id]| * s.rows[id].interval)
  {
    DebtsHold(acts);
    var s := After(acts);
    assert RowOk(s, id) && Stands(s, id);
    CycleIsLinear(s.rows[id], |s.charges[id]|);
  }
}
