/**
 * Whom the jobs leave alone: cancelled subscriptions, and merchants that have
 * been told (src/recurring-payments/recurring-payments.service.ts:43-137).
 */
module RecurringNotices {
  import opened Wrappers
  import opened RecurringPayments
  import opened RecurringRuns
  import opened RecurringRepeats

  predicate ListsId(queue: seq<Due>, id: Id) {
    exists i | 0 <= i < |queue| :: queue[i].id == id
  }

  /** A job has loaded the row, and may still charge it. */
  predicate MayCharge(c: Charger, id: Id) {
    match c
    case Idle => false
    case Charging(queue) => ListsId(queue, id)
    case Creating(x, _, rest) => x == id || ListsId(rest, id)
    case Undoing(_, _, rest, _) => ListsId(rest, id)
  }

  /** A job has loaded the row, and may still send its mail. */
  predicate MayMail(n: Notifier, id: Id) {
    match n
    case Resting => false
    case Notifying(queue) => ListsId(queue, id)
    case Emailed(_, _, rest) => ListsId(rest, id)
  }

  predicate Cancelled(s: World, id: Id) {
    id in s.rows && !s.rows[id].active
  }

  /** The step makes a payment for `id`. */
  predicate Pays(s: World, a: Act, id: Id) {
    Enabled(s, a) && (a.CreateOk? || (a.CreateThrows? && a.made)) && ChargerOf(s, a.w).id == id
  }

  /** The step queues a mail for `id`. */
  predicate Mails(s: World, a: Act, id: Id) {
    Enabled(s, a) && a.Email? && a.queued && NotifierOf(s, a.w).queue[0].id == id
  }

  lemma FewerListed(queue: seq<Due>, id: Id)
    requires queue != []
    ensures ListsId(queue, id) <==> queue[0].id == id || ListsId(queue[1..], id)
  {
    if ListsId(queue, id) && queue[0].id != id {
      var i :| 0 <= i < |queue| && queue[i].id == id;
      assert queue[1..][i - 1].id == id;
    }
    if ListsId(queue[1..], id) {
      var i :| 0 <= i < |queue[1..]| && queue[1..][i].id == id;
      assert queue[i + 1].id == id;
    }
  }

  /** A cancelled row stays cancelled, and no job that has not loaded it will. */
  lemma CancelledStep(s: World, a: Act, w: Worker, id: Id)
    requires Enabled(s, a) && Cancelled(s, id)
    ensures Cancelled(Apply(s, a), id)
    ensures MayCharge(ChargerOf(Apply(s, a), w), id) ==> MayCharge(ChargerOf(s, w), id)
    ensures MayMail(NotifierOf(Apply(s, a), w), id) ==> MayMail(NotifierOf(s, w), id)
  {
    if a.Claim? {
      FewerListed(ChargerOf(s, a.w).queue, id);
    } else if a.Email? {
      FewerListed(NotifierOf(s, a.w).queue, id);
    }
    hide Possible;
  }

  /** Who pays or mails had loaded the row. */
  lemma ActsOnLoaded(s: World, a: Act, id: Id)
    ensures Pays(s, a, id) ==> MayCharge(ChargerOf(s, a.w), id)
    ensures Mails(s, a, id) ==> MayMail(NotifierOf(s, a.w), id)
  {
    hide Lists;
    if Mails(s, a, id) {
      FewerListed(NotifierOf(s, a.w).queue, id);
    }
  }

  lemma OnlyPaysCharge(s: World, a: Act, id: Id)
    requires Enabled(s, a) && id in s.rows && !Pays(s, a, id)
    ensures Charged(Apply(s, a), id) == Charged(s, id)
    ensures id in s.charges ==> id in Apply(s, a).charges && Apply(s, a).charges[id] == s.charges[id]
  {
    hide Lists;
  }

  lemma OnlyMailsMail(s: World, a: Act, id: Id)
    requires Enabled(s, a) && !Mails(s, a, id)
    ensures forall at: int :: Due(id, at) in Apply(s, a).emails ==> Due(id, at) in s.emails
  {
    hide Lists;
  }

  predicate Prefix(acts: seq<Act>, longer: seq<Act>) {
    Possible(longer) && acts <= longer
  }

  lemma PrefixFront(acts: seq<Act>, longer: seq<Act>)
    requires Possible(acts) && Prefix(acts, longer) && acts != longer
    ensures Prefix(acts, longer[..|longer| - 1])
    ensures Enabled(After(longer[..|longer| - 1]), longer[|longer| - 1])
    ensures After(longer) == Apply(After(longer[..|longer| - 1]), longer[|longer| - 1])
  {
    hide Enabled, Apply;
  }

  /** Whatever happens after a cancellation, only jobs that had loaded the row before it may still charge or mail. */
  lemma {:induction false} NeverLoadedAgain(acts: seq<Act>, longer: seq<Act>, w: Worker, id: Id)
    requires Possible(acts) && Prefix(acts, longer) && Cancelled(After(acts), id)
    ensures Cancelled(After(longer), id)
    ensures MayCharge(ChargerOf(After(longer), w), id) ==> MayCharge(ChargerOf(After(acts), w), id)
    ensures MayMail(NotifierOf(After(longer), w), id) ==> MayMail(NotifierOf(After(acts), w), id)
    decreases |longer|
  {
    hide Enabled, Apply, Cancelled, MayCharge, MayMail, After;
    if longer != acts {
      var front := longer[..|longer| - 1];
      PrefixFront(acts, longer);
      NeverLoadedAgain(acts, front, w, id);
      CancelledStep(After(front), longer[|longer| - 1], w, id);
    }
  }

  ghost predicate NobodyMayCharge(s: World, id: Id) {
    forall w: Worker :: !MayCharge(ChargerOf(s, w), id)
  }

  ghost predicate NobodyMayMail(s: World, id: Id) {
    forall w: Worker :: !MayMail(NotifierOf(s, w), id)
  }

  /**
   * Once a subscription is cancelled and no job has it loaded, nothing that may
   * follow charges it.
   */
  lemma {:induction false} CancelledIsNotCharged(acts: seq<Act>, longer: seq<Act>, id: Id)
    requires Possible(acts) && Prefix(acts, longer)
    requires Cancelled(After(acts), id) && NobodyMayCharge(After(acts), id)
    ensures Charged(After(longer), id) == Charged(After(acts), id)
    ensures id in After(acts).charges ==>
      id in After(longer).charges && After(longer).charges[id] == After(acts).charges[id]
    decreases |longer|
  {
    hide Enabled, Apply, MayCharge, MayMail, After;
    if longer != acts {
      var front := longer[..|longer| - 1];
      var a := longer[|longer| - 1];
      PrefixFront(acts, longer);
      CancelledIsNotCharged(acts, front, id);
      NeverLoadedAgain(acts, front, if a.CreateOk? || a.CreateThrows? then a.w else 0, id);
      ActsOnLoaded(After(front), a, id);
      OnlyPaysCharge(After(front), a, id);
    }
  }

  /** Nor does anything mail its merchant. */
  lemma {:induction false} CancelledIsNotMailed(acts: seq<Act>, longer: seq<Act>, id: Id)
    requires Possible(acts) && Prefix(acts, longer)
    requires Cancelled(After(acts), id) && NobodyMayMail(After(acts), id)
    ensures forall at: int :: Due(id, at) in After(longer).emails ==> Due(id, at) in After(acts).emails
    decreases |longer|
  {
    hide Enabled, Apply, MayCharge, MayMail, After;
    if longer != acts {
      var front := longer[..|longer| - 1];
      var a := longer[|longer| - 1];
      PrefixFront(acts, longer);
      CancelledIsNotMailed(acts, front, id);
      NeverLoadedAgain(acts, front, if a.Email? then a.w else 0, id);
      ActsOnLoaded(After(front), a, id);
      OnlyMailsMail(After(front), a, id);
    }
  }

  // ── a charge or a mail after a cancellation ──

  /** Step `k` is worker `w`'s query for rows to charge, and `id` was among them: active, due and announced. */
  predicate LoadsToCharge(acts: seq<Act>, k: nat, w: Worker, id: Id)
    requires Possible(acts) && k < |acts|
  {
    && acts[k].FindDue? && acts[k].w == w && ListsId(acts[k].found, id)
  }

  predicate LoadsToMail(acts: seq<Act>, k: nat, w: Worker, id: Id)
    requires Possible(acts) && k < |acts|
  {
    && acts[k].FindUpcoming? && acts[k].w == w && ListsId(acts[k].found, id)
  }

  lemma LoadStep(s: World, a: Act, w: Worker, id: Id)
    requires Enabled(s, a)
    ensures MayCharge(ChargerOf(Apply(s, a), w), id) ==>
      MayCharge(ChargerOf(s, w), id) || (a.FindDue? && a.w == w && ListsId(a.found, id))
    ensures MayMail(NotifierOf(Apply(s, a), w), id) ==>
      MayMail(NotifierOf(s, w), id) || (a.FindUpcoming? && a.w == w && ListsId(a.found, id))
  {
    if a.Claim? {
      FewerListed(ChargerOf(s, a.w).queue, id);
    } else if a.Email? {
      FewerListed(NotifierOf(s, a.w).queue, id);
    }
    hide Lists, ListsId;
  }

  lemma {:induction false} LoadedByQuery(acts: seq<Act>, w: Worker, id: Id)
    requires Possible(acts)
    ensures MayCharge(ChargerOf(After(acts), w), id) ==> exists k: nat | k < |acts| :: LoadsToCharge(acts, k, w, id)
    ensures MayMail(NotifierOf(After(acts), w), id) ==> exists k: nat | k < |acts| :: LoadsToMail(acts, k, w, id)
  {
    if acts != [] {
      var front, a := acts[..|acts| - 1], acts[|acts| - 1];
      LoadedByQuery(front, w, id);
      LoadStep(After(front), a, w, id);
      hide Enabled, Apply, MayCharge, MayMail, After, ListsId;
      if k: nat :| k < |front| && LoadsToCharge(front, k, w, id) {
        assert LoadsToCharge(acts, k, w, id);
      }
      if k: nat :| k < |front| && LoadsToMail(front, k, w, id) {
        assert LoadsToMail(acts, k, w, id);
      }
      assert a.FindDue? && a.w == w && ListsId(a.found, id) ==> LoadsToCharge(acts, |front|, w, id);
      assert a.FindUpcoming? && a.w == w && ListsId(a.found, id) ==> LoadsToMail(acts, |front|, w, id);
    }
  }

  lemma {:induction false} PrefixPossible(acts: seq<Act>, n: nat)
    requires Possible(acts) && n <= |acts|
    ensures Possible(acts[..n])
  {
    hide Enabled, Apply, After;
    if n == |acts| {
      assert acts[..n] == acts;
    } else {
      PrefixPossible(acts[..|acts| - 1], n);
      assert acts[..|acts| - 1][..n] == acts[..n];
    }
  }

  /** A charge, or a mail, after a cancellation comes from a worker that had loaded the row before it. */
  lemma ActsAfterCancelWereLoaded(acts: seq<Act>, n: nat, m: nat, id: Id)
    requires Possible(acts) && n <= m < |acts| && Possible(acts[..n]) && Possible(acts[..m])
    requires Cancelled(After(acts[..n]), id)
    ensures Pays(After(acts[..m]), acts[m], id) ==>
      exists k: nat | k < n :: LoadsToCharge(acts[..n], k, acts[m].w, id)
    ensures Mails(After(acts[..m]), acts[m], id) ==>
      exists k: nat | k < n :: LoadsToMail(acts[..n], k, acts[m].w, id)
  {
    hide Enabled, Apply, MayCharge, MayMail, After, Cancelled, Possible, LoadsToCharge, LoadsToMail;
    assert acts[..n] <= acts[..m];
    ActsOnLoaded(After(acts[..m]), acts[m], id);
    if Pays(After(acts[..m]), acts[m], id) || Mails(After(acts[..m]), acts[m], id) {
      NeverLoadedAgain(acts[..n], acts[..m], acts[m].w, id);
      LoadedByQuery(acts[..n], acts[m].w, id);
    }
  }

  lemma LoadThenCancel(told: seq<Act>, id: Id) returns (cancelled: seq<Act>, w: Worker)
    requires Possible(told) && id in After(told).rows && Chargeable(After(told), After(told).rows[id])
    ensures Possible(cancelled) && Continues(told, cancelled) && Cancelled(After(cancelled), id)
    ensures ChargerOf(After(cancelled), w).Charging? && ChargerOf(After(cancelled), w).queue != []
    ensures ChargerOf(After(cancelled), w).queue[0] == Due(id, After(told).rows[id].next)
    ensures After(cancelled).rows[id].next == After(told).rows[id].next
  {
    hide Possible, After, Continues;
    var s := After(told);
    w := FreshWorker(s);
    var found := ListFirst(s, id, row => Chargeable(s, row));
    ContinuesItself(told);
    cancelled := Go(told, told, FindDue(w, found));
    hide Lists;
    cancelled := Go(told, cancelled, Cancel(id));
  }

  /** A job that has loaded the row goes on: in any run an active subscription can be cancelled and charged after it. */
  lemma ChargedAfterCancel(acts: seq<Act>, id: Id) returns (cancelled: seq<Act>, longer: seq<Act>)
    requires Possible(acts) && id in After(acts).rows && After(acts).rows[id].active
    ensures Prefix(acts, cancelled) && Cancelled(After(cancelled), id)
    ensures Prefix(cancelled, longer) && Charged(After(longer), id) == Charged(After(cancelled), id) + 1
  {
    hide Possible, After, Continues, Lists;
    var waited := Wait(acts, id);
    var told := Announce(waited, id);
    Chain(acts, waited, told);
    var w;
    cancelled, w := LoadThenCancel(told, id);
    Chain(acts, told, cancelled);
    ContinuesIsPrefix(acts, cancelled);
    ContinuesItself(cancelled);
    longer := Go(cancelled, cancelled, Claim(w));
    longer := Go(cancelled, longer, CreateOk(w));
    ContinuesIsPrefix(cancelled, longer);
  }

  lemma ContinuesIsPrefix(acts: seq<Act>, longer: seq<Act>)
    requires Continues(acts, longer)
    ensures Prefix(acts, longer)
  {
    hide Possible;
  }

  // ── one mail per charge, in time ──

  predicate HoldsMail(n: Notifier, d: Due) {
    match n
    case Resting => false
    case Notifying(queue) => d in queue
    case Emailed(_, _, rest) => d in rest
  }

  /** The row remembers that this charge was announced. */
  predicate Told(s: World, d: Due) {
    d.id in s.rows && s.rows[d.id].notified == Some(d.at)
  }

  /** The step makes the row remember another charge instead. */
  predicate TellsOther(s: World, a: Act, d: Due) {
    Enabled(s, a) && a.Mark? && a.ok && NotifierOf(s, a.w).id == d.id && NotifierOf(s, a.w).at != d.at
  }

  ghost predicate NobodyTellsOther(acts: seq<Act>, longer: seq<Act>, d: Due)
    requires Prefix(acts, longer)
    decreases |longer|
  {
    longer == acts || |longer| <= |acts| || (
      PrefixPossible(longer, |longer| - 1);
      !TellsOther(After(longer[..|longer| - 1]), longer[|longer| - 1], d)
      && NobodyTellsOther(acts, longer[..|longer| - 1], d))
  }

  lemma ToldStep(s: World, a: Act, w: Worker, d: Due)
    requires Enabled(s, a) && Told(s, d) && !TellsOther(s, a, d)
    ensures Told(Apply(s, a), d)
    ensures HoldsMail(NotifierOf(Apply(s, a), w), d) ==> HoldsMail(NotifierOf(s, w), d)
  {
  }

  /**
   * As long as the row remembers it, a charge is not announced again by any job
   * that had not already loaded it.
   */
  lemma {:induction false} ToldOnce(acts: seq<Act>, longer: seq<Act>, w: Worker, d: Due)
    requires Possible(acts) && Prefix(acts, longer) && Told(After(acts), d) && NobodyTellsOther(acts, longer, d)
    ensures Told(After(longer), d)
    ensures HoldsMail(NotifierOf(After(longer), w), d) ==> HoldsMail(NotifierOf(After(acts), w), d)
    decreases |longer|
  {
    hide Enabled, Apply, Told, HoldsMail, TellsOther, After;
    if longer != acts {
      var front := longer[..|longer| - 1];
      PrefixFront(acts, longer);
      ToldOnce(acts, front, w, d);
      ToldStep(After(front), longer[|longer| - 1], w, d);
    }
  }

  /** The step queues the mail that announces `d`. */
  predicate MailsFor(s: World, a: Act, d: Due) {
    Enabled(s, a) && a.Email? && a.queued && NotifierOf(s, a.w).queue[0] == d
  }

  lemma MailsHeld(s: World, a: Act, d: Due)
    requires MailsFor(s, a, d)
    ensures HoldsMail(NotifierOf(s, a.w), d)
  {
    hide Lists;
  }

  /** As long as the row remembers a charge, a second mail for it comes only from a job that had loaded it before. */
  lemma MailedOnce(acts: seq<Act>, longer: seq<Act>, a: Act, d: Due)
    requires Possible(acts) && Prefix(acts, longer) && Told(After(acts), d) && NobodyTellsOther(acts, longer, d)
    requires MailsFor(After(longer), a, d)
    ensures HoldsMail(NotifierOf(After(acts), a.w), d)
  {
    hide Enabled, After, Told, HoldsMail, NobodyTellsOther;
    MailsHeld(After(longer), a, d);
    ToldOnce(acts, longer, a.w, d);
  }

  /** When the row cannot be marked after the mail, the next job sends it again. */
  lemma UnmarkedIsMailedAgain(acts: seq<Act>, id: Id) returns (longer: seq<Act>, w: Worker, d: Due)
    requires Possible(acts) && id in After(acts).rows && Upcoming(After(acts), After(acts).rows[id])
    ensures Possible(longer) && Continues(acts, longer)
    ensures d.id == id && d in After(longer).emails && MailsFor(After(longer), Email(w, true, false), d)
  {
    hide Possible, After, Continues;
    var s := After(acts);
    d := Due(id, s.rows[id].next);
    var v := FreshWorker(s);
    var found := ListFirst(s, id, row => Upcoming(s, row));
    ContinuesItself(acts);
    longer := Go(acts, acts, FindUpcoming(v, found));
    longer := MailUnmarked(acts, longer, v, d);
    var t := After(longer);
    w := FreshWorker(t);
    found := ListFirst(t, id, row => Upcoming(t, row));
    longer := Go(acts, longer, FindUpcoming(w, found));
    hide Lists;
  }

  lemma MailUnmarked(acts: seq<Act>, found: seq<Act>, v: Worker, d: Due) returns (longer: seq<Act>)
    requires Possible(acts) && Possible(found) && Continues(acts, found)
    requires NotifierOf(After(found), v).Notifying? && NotifierOf(After(found), v).queue != []
    requires NotifierOf(After(found), v).queue[0] == d
    ensures Possible(longer) && Continues(acts, longer) && d in After(longer).emails
    ensures After(longer).rows == After(found).rows && After(longer).now == After(found).now
  {
    hide Possible, After, Continues, Lists;
    longer := Go(acts, found, Email(v, true, false));
    longer := Go(acts, longer, Mark(v, false));
  }

  /** Nobody loads a charge before the day ahead of it. */
  predicate InTime(s: World, n: Notifier) {
    match n
    case Resting => true
    case Notifying(queue) => forall i | 0 <= i < |queue| :: queue[i].at <= s.now + NOTIFY_LEAD_MS
    case Emailed(_, at, rest) =>
      at <= s.now + NOTIFY_LEAD_MS && forall i | 0 <= i < |rest| :: rest[i].at <= s.now + NOTIFY_LEAD_MS
  }

  lemma InTimeStep(s: World, a: Act, w: Worker)
    requires Enabled(s, a) && InTime(s, NotifierOf(s, w))
    ensures InTime(Apply(s, a), NotifierOf(Apply(s, a), w))
  {
  }

  lemma InTimeInit(w: Worker)
    ensures InTime(EMPTY, NotifierOf(EMPTY, w))
  {
  }

  lemma {:induction false} MailsAreInTime(acts: seq<Act>, w: Worker)
    requires Possible(acts)
    ensures InTime(After(acts), NotifierOf(After(acts), w))
  {
    hide Enabled, Apply, InTime;
    if acts == [] {
      InTimeInit(w);
    } else {
      MailsAreInTime(acts[..|acts| - 1], w);
      InTimeStep(After(acts[..|acts| - 1]), acts[|acts| - 1], w);
    }
  }

  /** No mail goes out more than a day before its charge is due. */
  lemma MailedADayAhead(acts: seq<Act>, w: Worker, threw: bool)
    requires Possible(acts) && Enabled(After(acts), Email(w, true, threw))
    ensures NotifierOf(After(acts), w).queue[0].at <= After(acts).now + 24 * 3_600_000
  {
    MailsAreInTime(acts, w);
  }

  // ── the schedule of a subscription ──

  /** The row of a subscription keeps its first charge time and its interval in days. */
  predicate Scheduled(s: World, id: Id, days: nat, start: int) {
    id in s.rows && s.rows[id].start == start && s.rows[id].interval == days * (24 * 3_600_000)
  }

  lemma ScheduledStep(s: World, a: Act, id: Id, days: nat, start: int)
    requires Enabled(s, a) && Scheduled(s, id, days, start)
    ensures Scheduled(Apply(s, a), id, days, start)
  {
    hide Lists;
  }

  /** From the subscription on, whatever happens, the cycles lie the chosen number of days apart. */
  lemma {:induction false} ScheduleIsFixed(acts: seq<Act>, longer: seq<Act>, id: Id, days: nat, start: int)
    requires Possible(acts) && Enabled(After(acts), Subscribe(id, days, start))
    requires Prefix(acts + [Subscribe(id, days, start)], longer)
    ensures Scheduled(After(longer), id, days, start)
    decreases |longer|
  {
    var subscribed := acts + [Subscribe(id, days, start)];
    Extend(acts, Subscribe(id, days, start));
    if longer != subscribed {
      PrefixFront(subscribed, longer);
      hide Enabled, Apply, Scheduled, After;
      ScheduleIsFixed(acts, longer[..|longer| - 1], id, days, start);
      ScheduledStep(After(longer[..|longer| - 1]), longer[|longer| - 1], id, days, start);
    }
  }
}
