/**
 * When a cycle is charged twice, over every run of the two jobs, orderly or not
 * (src/recurring-payments/recurring-payments.service.ts:103-137).
 */
module RecurringRepeats {
  import opened Wrappers
  import opened RecurringPayments
  import opened RecurringRuns

  ghost predicate OnCycle(row: Row, x: int) {
    exists i: nat :: x == Cycle(row, i)
  }

  // ── what every run keeps ──

  ghost predicate RowBase(s: World, id: Id)
    requires id in s.rows
  {
    && s.rows[id].interval > 0 && id in s.charges && OnCycle(s.rows[id], s.rows[id].next)
    && forall j | 0 <= j < |s.charges[id]| :: OnCycle(s.rows[id], s.charges[id][j].cycle)
  }

  ghost predicate ChargerBase(s: World, c: Charger) {
    c.Creating? || c.Undoing? ==> c.id in s.rows && OnCycle(s.rows[c.id], c.at)
  }

  /** Whatever is charged, claimed or scheduled is a cycle of its subscription. */
  ghost predicate Base(s: World) {
    && (forall id | id in s.rows :: RowBase(s, id))
    && (forall id | id in s.charges :: id in s.rows)
    && (forall w: Worker :: ChargerBase(s, ChargerOf(s, w)))
  }

  lemma OnSameCycle(row: Row, row': Row, x: int)
    requires OnCycle(row, x) && row.start == row'.start && row.interval == row'.interval
    ensures OnCycle(row', x)
  {
    var i: nat :| x == Cycle(row, i);
    CycleOfSameRow(row, row', i);
  }

  lemma OnNextCycle(row: Row, x: int)
    requires OnCycle(row, x)
    ensures OnCycle(row, x + row.interval)
  {
    var i: nat :| x == Cycle(row, i);
    assert x + row.interval == Cycle(row, i + 1);
  }

  predicate SameSchedule(s: World, t: World) {
    forall id | id in s.rows ::
      id in t.rows && t.rows[id].start == s.rows[id].start && t.rows[id].interval == s.rows[id].interval
  }

  lemma RowBaseStays(s: World, t: World, id: Id)
    requires id in s.rows && RowBase(s, id) && SameSchedule(s, t) && OnCycle(s.rows[id], t.rows[id].next)
    requires id in t.charges && |t.charges[id]| >= |s.charges[id]|
    requires forall j | 0 <= j < |s.charges[id]| :: t.charges[id][j].cycle == s.charges[id][j].cycle
    requires forall j | |s.charges[id]| <= j < |t.charges[id]| :: OnCycle(s.rows[id], t.charges[id][j].cycle)
    ensures RowBase(t, id)
  {
    hide OnCycle;
    OnSameCycle(s.rows[id], t.rows[id], t.rows[id].next);
    forall j | 0 <= j < |t.charges[id]| ensures OnCycle(t.rows[id], t.charges[id][j].cycle) {
      OnSameCycle(s.rows[id], t.rows[id], t.charges[id][j].cycle);
    }
  }

  lemma ChargerBaseStays(s: World, t: World, c: Charger)
    requires ChargerBase(s, c) && SameSchedule(s, t)
    ensures ChargerBase(t, c)
  {
    hide OnCycle;
    if c.Creating? || c.Undoing? {
      OnSameCycle(s.rows[c.id], t.rows[c.id], c.at);
    }
  }

  /** Subscription `id` and worker `w` are all that changes. */
  lemma BaseTouch(s: World, t: World, w: Worker, id: Id)
    requires Base(s) && SameSchedule(s, t) && t.rows.Keys == s.rows.Keys && t.charges.Keys == s.charges.Keys
    requires forall x | x in s.rows && x != id :: t.rows[x].next == s.rows[x].next
    requires forall x | x in s.charges && x != id :: t.charges[x] == s.charges[x]
    requires forall v: Worker | v != w :: ChargerOf(t, v) == ChargerOf(s, v)
    requires ChargerBase(s, ChargerOf(t, w)) && (id in s.rows ==> RowBase(t, id))
    ensures Base(t)
  {
    hide OnCycle;
    forall x | x in t.rows ensures RowBase(t, x) {
      assert RowBase(s, x);
      if x != id {
        RowBaseStays(s, t, x);
      }
    }
    hide RowBase;
    forall v: Worker ensures ChargerBase(t, ChargerOf(t, v)) {
      assert ChargerBase(s, ChargerOf(s, v));
      ChargerBaseStays(s, t, ChargerOf(t, v));
    }
  }

  lemma BaseClaim(s: World, w: Worker)
    requires Base(s) && Enabled(s, Claim(w))
    ensures Base(Apply(s, Claim(w)))
  {
    var t, id := Apply(s, Claim(w)), ChargerOf(s, w).queue[0].id;
    hide OnCycle;
    if id in s.rows {
      assert RowBase(s, id);
      OnNextCycle(s.rows[id], s.rows[id].next);
      RowBaseStays(s, t, id);
    }
    hide RowBase;
    BaseTouch(s, t, w, id);
  }

  lemma BaseMade(s: World, a: Act)
    requires Base(s) && Enabled(s, a) && (a.CreateOk? || (a.CreateThrows? && a.made))
    ensures Base(Apply(s, a))
  {
    var t, id := Apply(s, a), ChargerOf(s, a.w).id;
    assert ChargerBase(s, ChargerOf(s, a.w));
    assert RowBase(s, id);
    hide OnCycle;
    RowBaseStays(s, t, id);
    hide RowBase;
    BaseTouch(s, t, a.w, id);
  }

  /** A payment is not made, or a claim is released. */
  lemma BaseUnmade(s: World, a: Act)
    requires Base(s) && Enabled(s, a) && ((a.CreateThrows? && !a.made) || a.Release?)
    ensures Base(Apply(s, a))
  {
    var t, id := Apply(s, a), ChargerOf(s, a.w).id;
    assert ChargerBase(s, ChargerOf(s, a.w));
    assert RowBase(s, id);
    hide OnCycle;
    RowBaseStays(s, t, id);
    hide RowBase;
    BaseTouch(s, t, a.w, id);
  }

  lemma BaseSubscribe(s: World, id: Id, days: nat, start: int)
    requires Base(s) && Enabled(s, Subscribe(id, days, start))
    ensures Base(Apply(s, Subscribe(id, days, start)))
  {
    var t := Apply(s, Subscribe(id, days, start));
    assert start == Cycle(t.rows[id], 0);
    assert OnCycle(t.rows[id], start);
    hide OnCycle;
    forall x | x in t.rows ensures RowBase(t, x) {
      if x != id {
        assert RowBase(s, x);
        RowBaseStays(s, t, x);
      }
    }
    hide RowBase;
    forall v: Worker ensures ChargerBase(t, ChargerOf(t, v)) {
      assert ChargerBase(s, ChargerOf(s, v));
      ChargerBaseStays(s, t, ChargerOf(t, v));
    }
  }

  predicate Elsewhere(a: Act) {
    a.Tick? || a.Cancel? || a.FindUpcoming? || a.Email? || a.Mark? || a.RestAgain?
  }

  /** Steps that change neither a charge nor a claim nor the time of one. */
  lemma ElsewhereKeeps(s: World, a: Act)
    requires Enabled(s, a) && Elsewhere(a)
    ensures var t := Apply(s, a);
      && t.charges == s.charges && t.chargers == s.chargers && SameSchedule(s, t) && t.rows.Keys == s.rows.Keys
      && forall id | id in s.rows :: t.rows[id].next == s.rows[id].next
  {
    hide Lists;
  }

  lemma BaseStep(s: World, a: Act)
    requires Base(s) && Enabled(s, a)
    ensures Base(Apply(s, a))
  {
    if a.Subscribe? {
      BaseSubscribe(s, a.id, a.days, a.start);
    } else if a.Claim? {
      BaseClaim(s, a.w);
    } else if a.CreateOk? || (a.CreateThrows? && a.made) {
      BaseMade(s, a);
    } else if a.CreateThrows? || a.Release? {
      BaseUnmade(s, a);
    } else {
      var w, id: Id := if Elsewhere(a) then 0 else a.w, 0;
      if Elsewhere(a) {
        ElsewhereKeeps(s, a);
      }
      hide OnCycle, Lists;
      var t := Apply(s, a);
      assert ChargerBase(s, ChargerOf(s, w));
      if id in s.rows {
        assert RowBase(s, id);
        RowBaseStays(s, t, id);
      }
      hide RowBase;
      assert ChargerOf(t, w) == ChargerOf(s, w) || !(ChargerOf(t, w).Creating? || ChargerOf(t, w).Undoing?);
      BaseTouch(s, t, w, id);
    }
  }

  // ── releases that go back too far ──

  /** Everything charged, or claimed and still payable, is before `x`. */
  ghost predicate Ahead(s: World, id: Id, x: int) {
    && (forall j | 0 <= j < Charged(s, id) :: s.charges[id][j].cycle < x)
    && (forall w: Worker | Creates(s, w, id) :: ChargerOf(s, w).at < x)
  }

  ghost predicate Forward(s: World, id: Id) {
    id in s.rows ==> Ahead(s, id, s.rows[id].next)
  }

  /** A release that sets the row back to, or before, a cycle that was charged or may still be. */
  ghost predicate GoesBack(s: World, a: Act, id: Id) {
    a.Release? && ChargerOf(s, a.w).Undoing? && ChargerOf(s, a.w).id == id && !Ahead(s, id, ChargerOf(s, a.w).at)
  }

  ghost predicate NeverBack(acts: seq<Act>, id: Id)
    requires Possible(acts)
  {
    acts == [] || (NeverBack(acts[..|acts| - 1], id) && !GoesBack(After(acts[..|acts| - 1]), acts[|acts| - 1], id))
  }

  /** No charge is for the same cycle as another, nor may a claim still make one that is. */
  ghost predicate Once(s: World, id: Id) {
    && Distinct(s, id)
    && (forall w: Worker, j | Creates(s, w, id) && 0 <= j < Charged(s, id) ::
          s.charges[id][j].cycle != ChargerOf(s, w).at)
    && (forall w: Worker, v: Worker | Creates(s, w, id) && Creates(s, v, id) && w != v ::
          ChargerOf(s, w).at != ChargerOf(s, v).at)
  }

  predicate Distinct(s: World, id: Id) {
    forall i, j | 0 <= i < j < Charged(s, id) :: s.charges[id][i].cycle != s.charges[id][j].cycle
  }

  predicate SameCharges(s: World, t: World, id: Id) {
    && Charged(t, id) == Charged(s, id)
    && forall j | 0 <= j < Charged(s, id) :: t.charges[id][j] == s.charges[id][j]
  }

  lemma AheadStays(s: World, t: World, id: Id, x: int)
    requires SameCharges(s, t, id)
    requires forall w: Worker | Creates(t, w, id) :: Creates(s, w, id) && ChargerOf(t, w) == ChargerOf(s, w)
    ensures Ahead(s, id, x) ==> Ahead(t, id, x)
    ensures Once(s, id) ==> Once(t, id)
  {
  }

  lemma QuietStep(s: World, a: Act, id: Id)
    requires Enabled(s, a) && !a.CreateOk? && !(a.CreateThrows? && a.made)
    requires Base(s)
    requires a.Claim? && ClaimSucceeds(s, ChargerOf(s, a.w).queue[0]) ==> ChargerOf(s, a.w).queue[0].id != id
    ensures SameCharges(s, Apply(s, a), id)
    ensures forall w: Worker | Creates(Apply(s, a), w, id) ::
      Creates(s, w, id) && ChargerOf(Apply(s, a), w) == ChargerOf(s, w)
  {
    if Elsewhere(a) {
      ElsewhereKeeps(s, a);
    }
    hide Lists, RowBase;
  }

  /** A payment that is made goes from payable to charged. */
  lemma PaidStep(s: World, a: Act, id: Id, x: int)
    requires Enabled(s, a) && (a.CreateOk? || (a.CreateThrows? && a.made))
    ensures Ahead(s, id, x) ==> Ahead(Apply(s, a), id, x)
    ensures Once(s, id) ==> Once(Apply(s, a), id)
  {
    var t := Apply(s, a);
    var c := ChargerOf(s, a.w);
    assert Creates(s, a.w, c.id);
    if c.id == id {
      assert Charged(t, id) == Charged(s, id) + 1 && t.charges[id][Charged(s, id)] == Charge(c.at, s.now);
      assert forall j | 0 <= j < Charged(s, id) :: t.charges[id][j] == s.charges[id][j];
    }
    assert forall w: Worker | Creates(t, w, id) :: w != a.w && Creates(s, w, id) && ChargerOf(t, w) == ChargerOf(s, w);
  }

  lemma ClaimStep(s: World, w: Worker)
    requires Base(s) && Enabled(s, Claim(w)) && ClaimSucceeds(s, ChargerOf(s, w).queue[0])
    requires Forward(s, ChargerOf(s, w).queue[0].id)
    ensures var id, t := ChargerOf(s, w).queue[0].id, Apply(s, Claim(w));
      Forward(t, id) && (Once(s, id) ==> Once(t, id))
  {
    var id, t := ChargerOf(s, w).queue[0].id, Apply(s, Claim(w));
    assert RowBase(s, id);
    assert forall v: Worker | Creates(t, v, id) && v != w :: Creates(s, v, id) && ChargerOf(t, v) == ChargerOf(s, v);
    assert ChargerOf(t, w).at == s.rows[id].next < t.rows[id].next;
  }

  /** Nothing but a release that goes back puts a row before what was charged or may be. */
  lemma ForwardStep(s: World, a: Act, id: Id)
    requires Base(s) && Enabled(s, a) && Forward(s, id)
    ensures Forward(Apply(s, a), id) <==> !GoesBack(s, a, id)
    ensures Once(s, id) ==> Once(Apply(s, a), id)
  {
    var t := Apply(s, a);
    if a.Claim? && ClaimSucceeds(s, ChargerOf(s, a.w).queue[0]) && ChargerOf(s, a.w).queue[0].id == id {
      ClaimStep(s, a.w);
    } else if a.CreateOk? || (a.CreateThrows? && a.made) {
      PaidStep(s, a, id, if id in s.rows then s.rows[id].next else 0);
      assert t.rows == s.rows;
    } else {
      QuietStep(s, a, id);
      OtherStep(s, a, id);
    }
  }

  lemma OtherStep(s: World, a: Act, id: Id)
    requires Base(s) && Enabled(s, a) && Forward(s, id) && SameCharges(s, Apply(s, a), id)
    requires !a.CreateOk? && !(a.CreateThrows? && a.made)
    requires a.Claim? && ClaimSucceeds(s, ChargerOf(s, a.w).queue[0]) ==> ChargerOf(s, a.w).queue[0].id != id
    requires forall w: Worker | Creates(Apply(s, a), w, id) ::
      Creates(s, w, id) && ChargerOf(Apply(s, a), w) == ChargerOf(s, w)
    ensures Forward(Apply(s, a), id) <==> !GoesBack(s, a, id)
    ensures Once(s, id) ==> Once(Apply(s, a), id)
  {
    var t := Apply(s, a);
    AheadStays(s, t, id, if id in t.rows then t.rows[id].next else 0);
    hide Once, RowBase, Lists;
    if a.Release? && ChargerOf(s, a.w).id == id {
      assert ChargerBase(s, ChargerOf(s, a.w));
      var x := ChargerOf(s, a.w).at;
      assert forall w: Worker | Creates(s, w, id) :: Creates(t, w, id) && ChargerOf(t, w) == ChargerOf(s, w);
      AheadStays(t, s, id, x);
      assert t.rows[id].next == x;
    } else if a.Subscribe? && a.id == id {
      NobodyCreates(s, id);
    } else {
      hide Ahead;
      NextStays(s, a, id);
    }
  }

  lemma NobodyCreates(s: World, id: Id)
    requires Base(s) && id !in s.rows
    ensures forall w: Worker :: !Creates(s, w, id)
    ensures forall x: int :: Ahead(s, id, x)
  {
    forall w: Worker ensures !Creates(s, w, id) {
      assert ChargerBase(s, ChargerOf(s, w));
    }
  }

  lemma NextStays(s: World, a: Act, id: Id)
    requires Enabled(s, a)
    requires a.Claim? && ClaimSucceeds(s, ChargerOf(s, a.w).queue[0]) ==> ChargerOf(s, a.w).queue[0].id != id
    requires a.Release? ==> ChargerOf(s, a.w).id != id
    requires a.Subscribe? ==> a.id != id
    ensures id in Apply(s, a).rows <==> id in s.rows
    ensures id in s.rows ==> Apply(s, a).rows[id].next == s.rows[id].next
  {
    hide Lists;
  }

  lemma Init(id: Id)
    ensures Base(EMPTY) && Forward(EMPTY, id) && Once(EMPTY, id)
  {
    assert forall w: Worker :: ChargerOf(EMPTY, w) == Idle;
  }

  lemma {:induction false} BaseHolds(acts: seq<Act>)
    requires Possible(acts)
    ensures Base(After(acts))
  {
    hide Base, Apply, Enabled;
    if acts == [] {
      Init(0);
    } else {
      BaseHolds(acts[..|acts| - 1]);
      BaseStep(After(acts[..|acts| - 1]), acts[|acts| - 1]);
    }
  }

  /**
   * Whatever claims overlap, whatever throws and whichever workers vanish: as
   * long as no release goes back too far, no cycle is charged twice.
   */
  lemma {:induction false} ChargedOnce(acts: seq<Act>, id: Id)
    requires Possible(acts) && NeverBack(acts, id)
    ensures Forward(After(acts), id) && Once(After(acts), id)
  {
    hide Base, Apply, Enabled, Forward, Once, GoesBack;
    if acts == [] {
      Init(id);
    } else {
      ChargedOnce(acts[..|acts| - 1], id);
      BaseHolds(acts[..|acts| - 1]);
      ForwardStep(After(acts[..|acts| - 1]), acts[|acts| - 1], id);
    }
  }

  // ── continuing a run ──

  /** A run goes on without a release. */
  predicate Continues(acts: seq<Act>, longer: seq<Act>) {
    && Possible(longer) && acts <= longer
    && forall k | |acts| <= k < |longer| :: !longer[k].Release?
  }

  lemma Go(acts: seq<Act>, longer: seq<Act>, a: Act) returns (more: seq<Act>)
    requires Possible(acts) && Continues(acts, longer) && Enabled(After(longer), a) && !a.Release?
    ensures more == longer + [a] && Possible(more) && Continues(acts, more) && After(more) == Apply(After(longer), a)
    ensures Sound(longer) && Settles(After(longer), a) ==> Sound(more)
  {
    hide Apply, Enabled, Settles, After;
    Extend(longer, a);
    more := longer + [a];
  }

  lemma Chain(a: seq<Act>, b: seq<Act>, c: seq<Act>)
    requires Continues(a, b) && Continues(b, c)
    ensures Possible(c) && Continues(a, c)
  {
    hide Possible;
    assert forall k | |a| <= k < |b| :: c[k] == b[k];
  }

  lemma {:induction false} ListOf(s: World, ids: set<Id>) returns (found: seq<Due>)
    requires ids <= s.rows.Keys
    ensures forall i | 0 <= i < |found| :: found[i].id in ids && found[i].at == s.rows[found[i].id].next
    ensures forall i, j | 0 <= i < j < |found| :: found[i].id != found[j].id
    ensures forall id | id in ids :: Due(id, s.rows[id].next) in found
    decreases |ids|
  {
    if ids == {} {
      found := [];
    } else {
      var id :| id in ids;
      var rest := ListOf(s, ids - {id});
      found := [Due(id, s.rows[id].next)] + rest;
    }
  }

  /** A query may return any of its rows first. */
  lemma ListFirst(s: World, id: Id, selected: Row -> bool) returns (found: seq<Due>)
    requires id in s.rows && selected(s.rows[id])
    ensures Lists(s, found, selected) && found != [] && found[0] == Due(id, s.rows[id].next)
  {
    var ids := set x | x in s.rows && selected(s.rows[x]);
    var rest := ListOf(s, ids - {id});
    found := [Due(id, s.rows[id].next)] + rest;
    forall x | x in s.rows && selected(s.rows[x]) ensures Due(x, s.rows[x].next) in found {
      assert x in ids;
      assert x != id ==> Due(x, s.rows[x].next) in rest;
    }
    assert forall i | 0 <= i < |rest| :: rest[i].id in ids;
  }

  lemma {:induction false} Above(ws: set<Worker>) returns (w: Worker)
    ensures forall v | v in ws :: v < w
    decreases |ws|
  {
    if ws == {} {
      w := 0;
    } else {
      var v :| v in ws;
      var u := Above(ws - {v});
      w := if u <= v then v + 1 else u;
      forall x | x in ws ensures x < w {
        assert x == v || x in ws - {v};
      }
    }
  }

  lemma FreshWorker(s: World) returns (w: Worker)
    ensures w !in s.chargers && w !in s.notifiers
  {
    w := Above(s.chargers.Keys + s.notifiers.Keys);
  }

  /** Subscription `id` is announced and due, and nothing else about its charges has changed. */
  predicate Readied(s: World, t: World, id: Id) {
    && id in s.rows && id in t.rows && t.rows[id] == s.rows[id].(notified := Some(s.rows[id].next))
    && t.charges == s.charges && t.chargers == s.chargers && t.rows[id].next <= t.now
  }

  lemma Wait(acts: seq<Act>, id: Id) returns (longer: seq<Act>)
    requires Possible(acts) && id in After(acts).rows
    ensures Possible(longer) && Continues(acts, longer) && After(acts).rows[id].next <= After(longer).now
    ensures After(longer) == After(acts).(now := After(longer).now)
    ensures Sound(acts) ==> Sound(longer)
  {
    hide Possible, After, Sound;
    var s := After(acts);
    longer := Go(acts, acts, Tick(if s.rows[id].next <= s.now then 0 else s.rows[id].next - s.now));
  }

  lemma Announce(acts: seq<Act>, id: Id) returns (longer: seq<Act>)
    requires Possible(acts) && id in After(acts).rows && After(acts).rows[id].active
    requires After(acts).rows[id].next <= After(acts).now
    ensures Possible(longer) && Continues(acts, longer) && Readied(After(acts), After(longer), id)
    ensures Sound(acts) ==> Sound(longer)
  {
    hide Possible, After, Sound, Continues;
    var s := After(acts);
    longer := acts;
    assert Continues(acts, longer) by { ContinuesItself(acts); }
    if s.rows[id].notified != Some(s.rows[id].next) {
      var w := FreshWorker(s);
      var found := ListFirst(s, id, row => Upcoming(s, row));
      longer := Go(acts, longer, FindUpcoming(w, found));
      hide Lists;
      longer := Go(acts, longer, Email(w, true, false));
      longer := Go(acts, longer, Mark(w, true));
    }
  }

  lemma ContinuesItself(acts: seq<Act>)
    requires Possible(acts)
    ensures Continues(acts, acts)
  {
  }

  /** Worker `w` has claimed the next cycle of `id`, and no other charger has moved. */
  ghost predicate Claimed(s: World, t: World, w: Worker, id: Id) {
    && id in s.rows && id in t.rows && t.charges == s.charges
    && t.rows[id].active == s.rows[id].active && t.rows[id].start == s.rows[id].start
    && t.rows[id].interval == s.rows[id].interval && t.rows[id].next == s.rows[id].next + s.rows[id].interval
    && ChargerOf(s, w) == Idle && Creates(t, w, id) && ChargerOf(t, w).at == s.rows[id].next
    && forall v: Worker | v != w :: ChargerOf(t, v) == ChargerOf(s, v)
  }

  lemma Take(acts: seq<Act>, id: Id) returns (longer: seq<Act>, w: Worker)
    requires Possible(acts) && id in After(acts).rows
    requires var s := After(acts);
      && s.rows[id].active && s.rows[id].next <= s.now
      && s.rows[id].notified == Some(s.rows[id].next)
    ensures Possible(longer) && Continues(acts, longer) && Claimed(After(acts), After(longer), w, id)
    ensures Sound(acts) && !Owing(After(acts), id) ==> Sound(longer)
  {
    hide Possible, After, Sound, Continues;
    var s := After(acts);
    w := FreshWorker(s);
    var found := ListFirst(s, id, row => Chargeable(s, row));
    ContinuesItself(acts);
    longer := Go(acts, acts, FindDue(w, found));
    hide Lists;
    if !Owing(s, id) {
      assert forall v: Worker :: Owes(After(longer), v, id) ==> Owes(s, v, id);
    }
    longer := Go(acts, longer, Claim(w));
  }

  /** Any active subscription's next cycle can be announced and claimed by some idle worker. */
  lemma ClaimNext(acts: seq<Act>, id: Id) returns (longer: seq<Act>, w: Worker)
    requires Possible(acts) && id in After(acts).rows && After(acts).rows[id].active
    ensures Possible(longer) && Continues(acts, longer) && Claimed(After(acts), After(longer), w, id)
    ensures Sound(acts) && !Owing(After(acts), id) ==> Sound(longer)
  {
    hide Possible, After, Sound, Continues, Apply, Enabled;
    var waited := Wait(acts, id);
    var told := Announce(waited, id);
    if !Owing(After(acts), id) {
      assert forall v: Worker :: Owes(After(told), v, id) ==> Owes(After(acts), v, id);
    }
    longer, w := Take(told, id);
    Chain(acts, waited, told);
    Chain(acts, told, longer);
  }

  /** The charges of `id` were followed by one more. */
  predicate ChargedMore(s: World, t: World, id: Id, cycle: int) {
    && id in s.charges && id in t.charges && |t.charges[id]| == |s.charges[id]| + 1
    && (forall j | 0 <= j < |s.charges[id]| :: t.charges[id][j] == s.charges[id][j])
    && t.charges[id][|s.charges[id]|].cycle == cycle
  }

  /** Worker `w` has paid its claim, and nothing else has moved. */
  ghost predicate PaidBy(s: World, t: World, w: Worker, id: Id) {
    && t.rows == s.rows && ChargedMore(s, t, id, if ChargerOf(s, w).Creating? then ChargerOf(s, w).at else 0)
    && forall v: Worker | v != w :: ChargerOf(t, v) == ChargerOf(s, v)
  }

  lemma Pay(acts: seq<Act>, w: Worker, id: Id) returns (longer: seq<Act>)
    requires Possible(acts) && Creates(After(acts), w, id) && id in After(acts).charges
    ensures Possible(longer) && Continues(acts, longer) && PaidBy(After(acts), After(longer), w, id)
  {
    hide Possible, After, Sound, Continues;
    ContinuesItself(acts);
    longer := Go(acts, acts, CreateOk(w));
  }

  ghost predicate BusyStay(s: World, t: World) {
    forall v: Worker | ChargerOf(s, v) != Idle :: ChargerOf(t, v) == ChargerOf(s, v)
  }

  ghost predicate NextCharged(s: World, t: World, id: Id) {
    && id in s.rows && id in t.rows && ChargedMore(s, t, id, s.rows[id].next) && BusyStay(s, t)
    && t.rows[id].active == s.rows[id].active && t.rows[id].start == s.rows[id].start
    && t.rows[id].interval == s.rows[id].interval && t.rows[id].next == s.rows[id].next + s.rows[id].interval
  }

  /** The next cycle is charged, by a worker that was idle. */
  lemma ChargeNext(acts: seq<Act>, id: Id) returns (longer: seq<Act>)
    requires Possible(acts) && id in After(acts).rows && After(acts).rows[id].active
    ensures Possible(longer) && Continues(acts, longer)
    ensures NextCharged(After(acts), After(longer), id)
  {
    BaseHolds(acts);
    assert RowBase(After(acts), id);
    hide Possible, After, Sound, Continues, Apply, Enabled, Base, RowBase;
    var claimed, w := ClaimNext(acts, id);
    longer := Pay(claimed, w, id);
    Chain(acts, claimed, longer);
  }

  /** The charges of `id` were followed by some more, the last of them for this cycle. */
  predicate ChargedTo(s: World, t: World, id: Id, cycle: int) {
    && id in s.charges && id in t.charges && |s.charges[id]| < |t.charges[id]|
    && (forall k | 0 <= k < |s.charges[id]| :: t.charges[id][k] == s.charges[id][k])
    && t.charges[id][|t.charges[id]| - 1].cycle == cycle
  }

  /** The cycles up to the `j`-th are charged, the last of them last. */
  lemma {:induction false} ChargeUpTo(acts: seq<Act>, id: Id, i: nat, j: nat) returns (longer: seq<Act>)
    requires Possible(acts) && id in After(acts).rows && After(acts).rows[id].active
    requires i <= j && After(acts).rows[id].next == Cycle(After(acts).rows[id], i)
    ensures Possible(longer) && Continues(acts, longer) && BusyStay(After(acts), After(longer))
    ensures ChargedTo(After(acts), After(longer), id, Cycle(After(acts).rows[id], j))
    decreases j - i
  {
    hide Possible, After, Continues;
    longer := ChargeNext(acts, id);
    var row, row' := After(acts).rows[id], After(longer).rows[id];
    if i < j {
      CycleOfSameRow(row, row', i + 1);
      CycleOfSameRow(row, row', j);
      assert Cycle(row, i + 1) == Cycle(row, i) + row.interval;
      var more := ChargeUpTo(longer, id, i + 1, j);
      Chain(acts, longer, more);
      longer := more;
    }
  }

  lemma Later(row: Row, x: int, y: int) returns (i: nat, j: nat)
    requires row.interval > 0 && OnCycle(row, x) && OnCycle(row, y) && x <= y
    ensures i <= j && x == Cycle(row, i) && y == Cycle(row, j)
  {
    i :| x == Cycle(row, i);
    j :| y == Cycle(row, j);
    if j < i {
      CycleAscends(row, j, i);
    }
  }

  /** Once an active row stands at or before a cycle charged already, notifying, claiming and paying charge it again. */
  lemma RepeatsCharged(acts: seq<Act>, id: Id, k: nat) returns (longer: seq<Act>)
    requires Possible(acts) && id in After(acts).rows && After(acts).rows[id].active
    requires k < Charged(After(acts), id) && After(acts).charges[id][k].cycle >= After(acts).rows[id].next
    ensures Possible(longer) && Continues(acts, longer) && !Distinct(After(longer), id)
  {
    BaseHolds(acts);
    var s := After(acts);
    assert RowBase(s, id);
    hide Possible, After, Continues, OnCycle, Base;
    var i, j := Later(s.rows[id], s.rows[id].next, s.charges[id][k].cycle);
    longer := ChargeUpTo(acts, id, i, j);
    var d := After(longer).charges[id];
    assert d[k].cycle == d[|d| - 1].cycle;
  }

  /** The same for a cycle that another worker has claimed and may still pay. */
  lemma RepeatsClaimed(acts: seq<Act>, id: Id, v: Worker) returns (longer: seq<Act>)
    requires Possible(acts) && id in After(acts).rows && After(acts).rows[id].active
    requires Creates(After(acts), v, id) && ChargerOf(After(acts), v).at >= After(acts).rows[id].next
    ensures Possible(longer) && Continues(acts, longer) && !Distinct(After(longer), id)
  {
    BaseHolds(acts);
    var s := After(acts);
    assert RowBase(s, id) && ChargerBase(s, ChargerOf(s, v));
    hide Possible, After, Continues, OnCycle, Base;
    var i, j := Later(s.rows[id], s.rows[id].next, ChargerOf(s, v).at);
    var charged := ChargeUpTo(acts, id, i, j);
    longer := Pay(charged, v, id);
    Chain(acts, charged, longer);
    var n := |After(charged).charges[id]|;
    var d := After(longer).charges[id];
    assert d[n - 1].cycle == d[n].cycle;
  }

  lemma Repeats(acts: seq<Act>, id: Id) returns (longer: seq<Act>)
    requires Possible(acts) && id in After(acts).rows && After(acts).rows[id].active && !Forward(After(acts), id)
    ensures Possible(longer) && Continues(acts, longer) && !Distinct(After(longer), id)
  {
    hide Possible, After, Continues, Distinct;
    var s := After(acts);
    if j :| 0 <= j < Charged(s, id) && s.charges[id][j].cycle >= s.rows[id].next {
      longer := RepeatsCharged(acts, id, j);
    } else {
      var w: Worker :| Creates(s, w, id) && ChargerOf(s, w).at >= s.rows[id].next;
      longer := RepeatsClaimed(acts, id, w);
    }
  }

  // ── exactly when ──

  lemma {:induction false} ContinuesNeverBack(acts: seq<Act>, longer: seq<Act>, id: Id)
    requires Possible(acts) && Continues(acts, longer) && NeverBack(acts, id)
    ensures NeverBack(longer, id)
    decreases |longer|
  {
    hide After, GoesBack, Enabled;
    if |longer| == |acts| {
      assert longer == acts;
    } else {
      var front := longer[..|longer| - 1];
      assert Continues(acts, front);
      ContinuesNeverBack(acts, front, id);
      assert !GoesBack(After(front), longer[|longer| - 1], id) by { NotBack(After(front), longer[|longer| - 1], id); }
    }
  }

  lemma NotBack(s: World, a: Act, id: Id)
    requires !a.Release?
    ensures !GoesBack(s, a, id)
  {
  }

  lemma {:induction false} NeverBackPrefix(acts: seq<Act>, n: nat, id: Id)
    requires Possible(acts) && n <= |acts|
    ensures Possible(acts[..n]) && (NeverBack(acts, id) ==> NeverBack(acts[..n], id))
  {
    hide After, GoesBack, Enabled;
    if n == |acts| {
      assert acts[..n] == acts;
    } else {
      NeverBackPrefix(acts[..|acts| - 1], n, id);
      assert acts[..|acts| - 1][..n] == acts[..n];
    }
  }

  lemma ActiveStep(s: World, a: Act, id: Id)
    requires Enabled(s, a) && id in s.rows
    ensures id in Apply(s, a).rows && (Apply(s, a).rows[id].active ==> s.rows[id].active)
  {
    hide Lists;
  }

  /** Nothing makes a cancelled subscription active again. */
  lemma {:induction false} ActiveBefore(acts: seq<Act>, n: nat, id: Id)
    requires Possible(acts) && n <= |acts| && Possible(acts[..n]) && id in After(acts[..n]).rows
    ensures id in After(acts).rows && (After(acts).rows[id].active ==> After(acts[..n]).rows[id].active)
    decreases |acts|
  {
    hide Enabled, Apply;
    if n == |acts| {
      assert acts[..n] == acts;
    } else {
      var front := acts[..|acts| - 1];
      assert front[..n] == acts[..n];
      ActiveBefore(front, n, id);
      ActiveStep(After(front), acts[|acts| - 1], id);
    }
  }

  /** The first release that goes back. */
  lemma {:induction false} FirstBack(acts: seq<Act>, id: Id) returns (n: nat)
    requires Possible(acts) && !NeverBack(acts, id)
    ensures n < |acts| && Possible(acts[..n]) && Possible(acts[..n + 1])
    ensures NeverBack(acts[..n], id) && GoesBack(After(acts[..n]), acts[n], id)
    ensures Enabled(After(acts[..n]), acts[n]) && After(acts[..n + 1]) == Apply(After(acts[..n]), acts[n])
  {
    hide GoesBack, Enabled, Apply;
    var m := |acts| - 1;
    if NeverBack(acts[..m], id) {
      n := m;
      assert acts[..n + 1] == acts;
    } else {
      n := FirstBack(acts[..m], id);
      assert acts[..m][..n] == acts[..n] && acts[..m][..n + 1] == acts[..n + 1];
    }
  }

  /** However a run up to here goes on without further releases, every cycle is charged at most once. */
  ghost predicate OnceFrom(acts: seq<Act>, id: Id) {
    forall longer: seq<Act> | Continues(acts, longer) :: Distinct(After(longer), id)
  }

  /**
   * A subscription that is not cancelled: at every moment of a run, no way of
   * going on without a release charges a cycle twice, if and only if no release
   * has set the row back to or before a cycle that was charged or may still be.
   */
  lemma ChargedTwiceExactlyWhenSetBack(acts: seq<Act>, id: Id)
    requires Possible(acts) && id in After(acts).rows && After(acts).rows[id].active
    ensures NeverBack(acts, id) <==> forall n: nat | n <= |acts| :: OnceFrom(acts[..n], id)
  {
    if NeverBack(acts, id) {
      forall n: nat, longer: seq<Act> | n <= |acts| && Continues(acts[..n], longer)
        ensures Distinct(After(longer), id)
      {
        NeverBackPrefix(acts, n, id);
        ContinuesNeverBack(acts[..n], longer, id);
        ChargedOnce(longer, id);
      }
    } else {
      var n := FirstBack(acts, id);
      SetBack(acts, n, id);
    }
  }

  lemma SetBack(acts: seq<Act>, n: nat, id: Id)
    requires Possible(acts) && id in After(acts).rows && After(acts).rows[id].active
    requires n < |acts| && Possible(acts[..n]) && Possible(acts[..n + 1]) && NeverBack(acts[..n], id)
    requires GoesBack(After(acts[..n]), acts[n], id) && Enabled(After(acts[..n]), acts[n])
    requires After(acts[..n + 1]) == Apply(After(acts[..n]), acts[n])
    ensures !OnceFrom(acts[..n + 1], id)
  {
    var s := After(acts[..n]);
    BaseHolds(acts[..n]);
    ChargedOnce(acts[..n], id);
    ForwardStep(s, acts[n], id);
    assert ChargerBase(s, ChargerOf(s, acts[n].w));
    ActiveStep(s, acts[n], id);
    hide Possible, After, Base, Forward, Once, NeverBack, GoesBack, Apply, Enabled;
    ActiveBefore(acts, n + 1, id);
    var longer := Repeats(acts[..n + 1], id);
  }

  // ── runs that go wrong ──

  lemma JustOne() returns (acts: seq<Act>)
    ensures Possible(acts) && Sound(acts) && 0 in After(acts).rows && 0 in After(acts).charges
    ensures var s := After(acts);
      s.rows[0] == Row(true, DAY_MS, 0, 0, None) && s.charges[0] == [] && !Owing(s, 0)
  {
    acts := [Subscribe(0, 1, 0)];
    Extend([], Subscribe(0, 1, 0));
    assert [] + acts == acts;
  }

  /** In any run, an active subscription can be claimed while another claim of it is in flight. */
  lemma OverlapHappens(acts: seq<Act>, id: Id) returns (longer: seq<Act>)
    requires Possible(acts) && id in After(acts).rows && After(acts).rows[id].active
    ensures Possible(longer) && Continues(acts, longer) && !Orderly(longer)
  {
    hide Possible, After, Sound, Continues, Orderly, Apply, Enabled;
    var first, v := ClaimNext(acts, id);
    var w;
    longer, w := ClaimNext(first, id);
    Chain(acts, first, longer);
    TwoClaims(longer, v, w, id);
  }

  lemma TwoClaims(acts: seq<Act>, v: Worker, w: Worker, id: Id)
    requires Possible(acts) && v != w && Creates(After(acts), v, id) && Creates(After(acts), w, id)
    ensures !Orderly(acts)
  {
    if Orderly(acts) {
      InvHolds(acts);
      ClaimsAlone(After(acts), v, w, id);
    }
  }

  lemma ClaimsAlone(s: World, v: Worker, w: Worker, id: Id)
    requires Inv(s) && Creates(s, v, id) && Creates(s, w, id)
    ensures v == w
  {
    assert Alone(s, id);
  }

  /** Worker `w` saw `create` throw and released its claim. */
  ghost predicate SetBackBy(s: World, t: World, w: Worker, id: Id, made: bool) {
    && id in s.rows && id in t.rows && Creates(s, w, id)
    && t.rows[id] == s.rows[id].(next := ChargerOf(s, w).at)
    && (if made then ChargedMore(s, t, id, ChargerOf(s, w).at) else t.charges == s.charges)
    && forall v: Worker | v != w :: ChargerOf(t, v) == ChargerOf(s, v)
  }

  lemma ThrowAndRelease(acts: seq<Act>, w: Worker, id: Id, made: bool) returns (thrown: seq<Act>, released: seq<Act>)
    requires Possible(acts) && Creates(After(acts), w, id) && id in After(acts).rows && id in After(acts).charges
    ensures Possible(thrown) && Continues(acts, thrown) && released == thrown + [Release(w)] && Possible(released)
    ensures Sound(acts) ==> Sound(thrown)
    ensures SetBackBy(After(acts), After(released), w, id, made)
  {
    ContinuesItself(acts);
    hide Possible, After, Sound, Continues, Orderly;
    thrown := Go(acts, acts, CreateThrows(w, made));
    Extend(thrown, Release(w));
    released := thrown + [Release(w)];
  }

  /** The charges of `id` were followed by two more for one cycle. */
  predicate ChargedAgain(s: World, t: World, id: Id, cycle: int) {
    && id in s.charges && id in t.charges && |t.charges[id]| == |s.charges[id]| + 2
    && t.charges[id][|s.charges[id]|].cycle == t.charges[id][|s.charges[id]| + 1].cycle == cycle
  }

  /**
   * One worker after another, and a payment that was made although `create`
   * threw: everything is sound up to the release, and the cycle is charged twice.
   */
  lemma MadePaymentRepeats(acts: seq<Act>, id: Id) returns (thrown: seq<Act>, w: Worker, longer: seq<Act>)
    requires Possible(acts) && Sound(acts) && id in After(acts).rows && After(acts).rows[id].active
    requires !Owing(After(acts), id)
    ensures Possible(thrown) && Continues(acts, thrown) && Sound(thrown)
    ensures Possible(thrown + [Release(w)]) && Possible(longer) && Continues(thrown + [Release(w)], longer)
    ensures ChargedAgain(After(acts), After(longer), id, After(acts).rows[id].next)
  {
    BaseHolds(acts);
    assert RowBase(After(acts), id);
    hide Possible, After, Sound, Continues, Orderly, Apply, Enabled, Base, RowBase;
    var claimed, released;
    claimed, w := ClaimNext(acts, id);
    thrown, released := ThrowAndRelease(claimed, w, id, true);
    Chain(acts, claimed, thrown);
    longer := ChargeNext(released, id);
  }

  /** A worker that is gone after its claim leaves a cycle out: the next charge is for the one after. */
  lemma VanishedWorkerSkips(acts: seq<Act>, id: Id) returns (longer: seq<Act>)
    requires Possible(acts) && id in After(acts).rows && After(acts).rows[id].active
    ensures Possible(longer) && Continues(acts, longer)
    ensures ChargedMore(After(acts), After(longer), id, After(acts).rows[id].next + After(acts).rows[id].interval)
  {
    hide Possible, After, Sound, Continues, Orderly;
    var claimed, w := ClaimNext(acts, id);
    ContinuesItself(claimed);
    var gone := Go(claimed, claimed, Abandon(w));
    longer := ChargeNext(gone, id);
    Chain(acts, claimed, gone);
    Chain(acts, gone, longer);
  }

  function CyclesOf(charges: seq<Charge>): seq<int> {
    seq(|charges|, i requires 0 <= i < |charges| => charges[i].cycle)
  }

  /**
   * When the first of two overlapping payments fails, its release takes the
   * subscription back to before the cycle that the second has already charged,
   * and that cycle is charged once more.
   */
  lemma OverlapChargesTwice() returns (acts: seq<Act>)
    ensures Possible(acts) && 0 in After(acts).charges && CyclesOf(After(acts).charges[0]) == [DAY_MS, 0, DAY_MS]
  {
    acts := JustOne();
    hide Possible, After, Sound, Continues, Orderly, Apply, Enabled;
    var v, w, thrown;
    acts, v := ClaimNext(acts, 0);
    acts, w := ClaimNext(acts, 0);
    acts := Pay(acts, w, 0);
    thrown, acts := ThrowAndRelease(acts, v, 0, false);
    acts := ChargeNext(acts, 0);
    acts := ChargeNext(acts, 0);
  }
}
