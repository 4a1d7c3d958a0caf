/**
 * Notifying and charging recurring payments (src/recurring-payments/recurring-payments.service.ts:43-137).
 * Any number of workers run the two cron jobs; every database statement is one
 * atomic step and the steps of different workers interleave. Times are in
 * milliseconds.
 */
module RecurringPayments {
  import opened Wrappers

  const NOTIFY_LEAD_MS := 86_400_000
  const DAY_MS := 86_400_000

  type Id = nat
  type Worker = nat

  /** `start` is the first charge time and never changes; `interval` is `intervalDays * DAY_MS`. */
  datatype Row = Row(active: bool, interval: int, start: int, next: int, notified: Option<int>)

  /** A loaded row: what the loops keep of it. */
  datatype Due = Due(id: Id, at: int)

  /** A payment that was created: the cycle it is for and when it was created. */
  datatype Charge = Charge(cycle: int, at: int)

  /**
   * `Creating` has claimed a cycle and waits for its payment; `Undoing` has seen
   * that throw and not yet released the claim. Whether the payment was made all
   * the same is `paid`, which the worker does not know.
   */
  datatype Charger =
    | Idle
    | Charging(queue: seq<Due>)
    | Creating(id: Id, at: int, rest: seq<Due>)
    | Undoing(id: Id, at: int, rest: seq<Due>, paid: bool)

  datatype Notifier = Resting | Notifying(queue: seq<Due>) | Emailed(id: Id, at: int, rest: seq<Due>)

  datatype World = World(
    now: int,
    rows: map<Id, Row>,
    charges: map<Id, seq<Charge>>,
    emails: set<Due>,
    chargers: map<Worker, Charger>,
    notifiers: map<Worker, Notifier>)

  const EMPTY := World(0, map[], map[], {}, map[], map[])

  /** `Abandon`: a worker is gone before it has settled its claim, or an update of the claimed row threw. */
  datatype Act =
    | Tick(passed: nat)
    | Subscribe(id: Id, days: nat, start: int)
    | Cancel(id: Id)
    | FindUpcoming(w: Worker, found: seq<Due>)
    | Email(w: Worker, queued: bool, threw: bool)
    | Mark(w: Worker, ok: bool)
    | RestAgain(w: Worker)
    | FindDue(w: Worker, found: seq<Due>)
    | Claim(w: Worker)
    | CreateOk(w: Worker)
    | CreateThrows(w: Worker, made: bool)
    | Release(w: Worker)
    | Abandon(w: Worker)
    | Stop(w: Worker)

  function ChargerOf(s: World, w: Worker): Charger {
    if w in s.chargers then s.chargers[w] else Idle
  }

  function NotifierOf(s: World, w: Worker): Notifier {
    if w in s.notifiers then s.notifiers[w] else Resting
  }

  predicate Upcoming(s: World, row: Row) {
    row.active && row.next <= s.now + NOTIFY_LEAD_MS && row.notified != Some(row.next)
  }

  predicate Chargeable(s: World, row: Row) {
    row.active && row.next <= s.now && row.notified == Some(row.next)
  }

  /** `found` lists the selected rows once each, in any order. */
  predicate Lists(s: World, found: seq<Due>, selected: Row -> bool) {
    && (forall i | 0 <= i < |found| ::
          found[i].id in s.rows && found[i].at == s.rows[found[i].id].next && selected(s.rows[found[i].id]))
    && (forall i, j | 0 <= i < j < |found| :: found[i].id != found[j].id)
    && (forall id | id in s.rows && selected(s.rows[id]) :: Due(id, s.rows[id].next) in found)
  }

  /** The conditional update finds the row as it was loaded; the status is not looked at again. */
  predicate ClaimSucceeds(s: World, d: Due) {
    d.id in s.rows && s.rows[d.id].next == d.at
  }

  predicate Enabled(s: World, a: Act) {
    match a
    case Tick(_) => true
    case Subscribe(id, days, _) => id !in s.rows && 1 <= days <= 365
    case Cancel(id) => id in s.rows
    case FindUpcoming(w, found) => NotifierOf(s, w).Resting? && Lists(s, found, row => Upcoming(s, row))
    case Email(w, _, _) => NotifierOf(s, w).Notifying? && NotifierOf(s, w).queue != []
    case Mark(w, _) => NotifierOf(s, w).Emailed?
    case RestAgain(w) => NotifierOf(s, w).Notifying?
    case FindDue(w, found) => ChargerOf(s, w).Idle? && Lists(s, found, row => Chargeable(s, row))
    case Claim(w) => ChargerOf(s, w).Charging? && ChargerOf(s, w).queue != []
    case CreateOk(w) => ChargerOf(s, w).Creating?
    case CreateThrows(w, _) => ChargerOf(s, w).Creating?
    case Release(w) => ChargerOf(s, w).Undoing?
    case Abandon(w) => ChargerOf(s, w).Creating? || ChargerOf(s, w).Undoing?
    case Stop(w) => ChargerOf(s, w).Charging?
  }

  function SetCharger(s: World, w: Worker, c: Charger): World {
    s.(chargers := s.chargers[w := c])
  }

  function SetNotifier(s: World, w: Worker, n: Notifier): World {
    s.(notifiers := s.notifiers[w := n])
  }

  function SetRow(s: World, id: Id, row: Row): World {
    s.(rows := s.rows[id := row])
  }

  function ApplyClaim(s: World, w: Worker): World
    requires Enabled(s, Claim(w))
  {
    var queue := ChargerOf(s, w).queue;
    var d := queue[0];
    if ClaimSucceeds(s, d) then
      var row := s.rows[d.id];
      SetCharger(SetRow(s, d.id, row.(next := d.at + row.interval)), w, Creating(d.id, d.at, queue[1..]))
    else SetCharger(s, w, Charging(queue[1..]))
  }

  function AddCharge(s: World, id: Id, at: int): World {
    s.(charges := s.charges[id := (if id in s.charges then s.charges[id] else []) + [Charge(at, s.now)]])
  }

  function ApplyCreate(s: World, w: Worker): World
    requires ChargerOf(s, w).Creating?
  {
    var c := ChargerOf(s, w);
    AddCharge(SetCharger(s, w, Charging(c.rest)), c.id, c.at)
  }

  function ApplyThrow(s: World, w: Worker, made: bool): World
    requires ChargerOf(s, w).Creating?
  {
    var c := ChargerOf(s, w);
    var t := SetCharger(s, w, Undoing(c.id, c.at, c.rest, made));
    if made then AddCharge(t, c.id, c.at) else t
  }

  function ApplyRelease(s: World, w: Worker): World
    requires ChargerOf(s, w).Undoing?
  {
    var c := ChargerOf(s, w);
    var t := SetCharger(s, w, Charging(c.rest));
    if c.id in s.rows then SetRow(t, c.id, s.rows[c.id].(next := c.at)) else t
  }

  function ApplyEmail(s: World, w: Worker, queued: bool, threw: bool): World
    requires Enabled(s, Email(w, queued, threw))
  {
    var queue := NotifierOf(s, w).queue;
    var t := if queued then s.(emails := s.emails + {queue[0]}) else s;
    SetNotifier(t, w, if queued && !threw then Emailed(queue[0].id, queue[0].at, queue[1..]) else Notifying(queue[1..]))
  }

  function ApplyMark(s: World, w: Worker, ok: bool): World
    requires Enabled(s, Mark(w, ok))
  {
    var n := NotifierOf(s, w);
    var t := SetNotifier(s, w, Notifying(n.rest));
    if ok && n.id in s.rows then SetRow(t, n.id, s.rows[n.id].(notified := Some(n.at))) else t
  }

  function Apply(s: World, a: Act): World
    requires Enabled(s, a)
  {
    match a
    case Tick(passed) => s.(now := s.now + passed)
    case Subscribe(id, days, start) =>
      s.(rows := s.rows[id := Row(true, days * DAY_MS, start, start, None)], charges := s.charges[id := []])
    case Cancel(id) => SetRow(s, id, s.rows[id].(active := false))
    case FindUpcoming(w, found) => SetNotifier(s, w, Notifying(found))
    case Email(w, queued, threw) => ApplyEmail(s, w, queued, threw)
    case Mark(w, ok) => ApplyMark(s, w, ok)
    case RestAgain(w) => SetNotifier(s, w, Resting)
    case FindDue(w, found) => SetCharger(s, w, Charging(found))
    case Claim(w) => ApplyClaim(s, w)
    case CreateOk(w) => ApplyCreate(s, w)
    case CreateThrows(w, made) => ApplyThrow(s, w, made)
    case Release(w) => ApplyRelease(s, w)
    case Abandon(w) => SetCharger(s, w, Idle)
    case Stop(w) => SetCharger(s, w, Idle)
  }

  predicate Possible(acts: seq<Act>)
    decreases |acts|, 0
  {
    acts == [] || (Possible(acts[..|acts| - 1]) && Enabled(After(acts[..|acts| - 1]), acts[|acts| - 1]))
  }

  function After(acts: seq<Act>): World
    requires Possible(acts)
    decreases |acts|, 1
  {
    if acts == [] then EMPTY else Apply(After(acts[..|acts| - 1]), acts[|acts| - 1])
  }
}

/** The loops of the two jobs, with every other worker running in between. */
module RecurringWorkers {
  import opened Wrappers
  import opened Updates
  import opened RecurringPayments

  /** What `create` does: it returns, or it throws, with or without having made the payment. */
  datatype Creation = Paid | Threw(made: bool)

  /** How the statements for one due row go. */
  datatype Turn = Turn(claim: Write, creation: Creation, release: Write)

  predicate ChargerAct(a: Act, w: Worker) {
    || ((a.FindDue? || a.Claim? || a.CreateOk? || a.CreateThrows?) && a.w == w)
    || ((a.Release? || a.Abandon? || a.Stop?) && a.w == w)
  }

  predicate NotifierAct(a: Act, w: Worker) {
    (a.FindUpcoming? || a.Email? || a.Mark? || a.RestAgain?) && a.w == w
  }

  /** What worker `w` did as a charger, or as a notifier. */
  function Own(acts: seq<Act>, w: Worker, charging: bool): seq<Act> {
    if acts == [] then []
    else
      var a := acts[|acts| - 1];
      Own(acts[..|acts| - 1], w, charging)
        + if (if charging then ChargerAct(a, w) else NotifierAct(a, w)) then [a] else []
  }

  lemma OwnAppend(acts: seq<Act>, a: Act, w: Worker, charging: bool)
    ensures Own(acts + [a], w, charging) == Own(acts, w, charging)
      + if (if charging then ChargerAct(a, w) else NotifierAct(a, w)) then [a] else []
  {
    assert (acts + [a])[..|acts|] == acts;
  }

  /** The steps of a turn; `won` says whether the claim found the row as it was loaded. */
  function TurnActs(w: Worker, won: bool, turn: Turn): seq<Act> {
    if turn.claim.Refused? then []
    else if !won then [Claim(w)]
    else if turn.claim.MadeUnheard? then [Claim(w), Abandon(w)]
    else [Claim(w)] + Settling(w, turn)
  }

  /** The steps of a turn once the cycle is claimed. */
  function Settling(w: Worker, turn: Turn): seq<Act> {
    if turn.creation.Paid? then [CreateOk(w)]
    else [CreateThrows(w, turn.creation.made), if turn.release.Refused? then Abandon(w) else Release(w)]
  }

  /** An update that throws ends the job: the claim stands outside the `try`, the release in its `catch`. */
  predicate EndsJob(won: bool, turn: Turn) {
    !turn.claim.Made? || (won && turn.creation.Threw? && !turn.release.Made?)
  }

  /** The worker is not in the loop any more, rather than between two rows. */
  predicate Gone(won: bool, turn: Turn) {
    won && (turn.claim.MadeUnheard? || (turn.claim.Made? && turn.creation.Threw? && turn.release.Refused?))
  }

  function Turns(w: Worker, won: seq<bool>, turns: nat -> Turn): seq<Act> {
    if won == [] then []
    else
      var n := |won| - 1;
      Turns(w, won[..n], turns) + TurnActs(w, won[n], turns(n))
  }

  /** How the job ends after these turns. */
  function Closing(w: Worker, won: seq<bool>, turns: nat -> Turn): seq<Act> {
    if won != [] && Gone(won[|won| - 1], turns(|won| - 1)) then [] else [Stop(w)]
  }

  /** What the mail queue and the row update do with one upcoming charge. */
  datatype Mail = NoMerchant | QueueThrows(queued: bool) | Queued(marked: bool)

  function MailActs(w: Worker, mail: Mail): seq<Act> {
    match mail
    case NoMerchant => [Email(w, false, false)]
    case QueueThrows(queued) => [Email(w, queued, true)]
    case Queued(marked) => [Email(w, true, false), Mark(w, marked)]
  }

  function Mails(w: Worker, mail: nat -> Mail, n: nat): seq<Act> {
    if n == 0 then [] else Mails(w, mail, n - 1) + MailActs(w, mail(n - 1))
  }

  class Database {
    var world: World
    ghost var acts: seq<Act>

    constructor ()
      ensures Valid() && world == EMPTY && acts == []
    {
      world, acts := EMPTY, [];
    }

    ghost predicate Valid()
      reads this
    {
      Possible(acts) && After(acts) == world
    }

    /** `act` is what has just happened to the world before it. */
    ghost method Log(before: World, act: Act)
      requires Possible(acts) && After(acts) == before && Enabled(before, act) && world == Apply(before, act)
      modifies this`acts
      ensures Valid() && acts == old(acts) + [act]
    {
      assert (acts + [act])[..|acts|] == acts;
      acts := acts + [act];
    }

    /** Whatever else happens while worker `w` waits: the enabled steps of a schedule, none of them its own. */
    method Others(schedule: seq<Act>, w: Worker, charging: bool)
      requires Valid()
      modifies this
      ensures Valid() && Own(acts, w, charging) == Own(old(acts), w, charging)
      ensures if charging then ChargerOf(world, w) == ChargerOf(old(world), w)
              else NotifierOf(world, w) == NotifierOf(old(world), w)
    {
      hide Enabled, Own, After, Possible;
      for i := 0 to |schedule|
        invariant Valid() && Own(acts, w, charging) == Own(old(acts), w, charging)
        invariant if charging then ChargerOf(world, w) == ChargerOf(old(world), w)
                  else NotifierOf(world, w) == NotifierOf(old(world), w)
      {
        var a := schedule[i];
        var own := if charging then ChargerAct(a, w) else NotifierAct(a, w);
        if !own && Enabled(world, a) {
          OthersKeep(world, a, w, charging);
          OwnAppend(acts, a, w, charging);
          ghost var before := world;
          world := Apply(world, a);
          Log(before, a);
        }
      }
    }

    /** `update({ id, nextChargeAt }, { nextChargeAt: later })`. */
    method ClaimCycle(w: Worker, d: Due) returns (affected: bool)
      requires Valid() && ChargerOf(world, w).Charging? && ChargerOf(world, w).queue != []
      requires d == ChargerOf(world, w).queue[0]
      modifies this
      ensures Valid() && acts == old(acts) + [Claim(w)] && world == Apply(old(world), Claim(w))
      ensures affected == ClaimSucceeds(old(world), d)
    {
      ghost var before := world;
      var rest := ChargerOf(world, w).queue[1..];
      affected := d.id in world.rows && world.rows[d.id].next == d.at;
      if affected {
        var row := world.rows[d.id];
        world := world.(rows := world.rows[d.id := row.(next := d.at + row.interval)]);
        world := world.(chargers := world.chargers[w := Creating(d.id, d.at, rest)]);
      } else {
        world := world.(chargers := world.chargers[w := Charging(rest)]);
      }
      hide Possible, After;
      Log(before, Claim(w));
    }

    /** `create`: whether it returned. The payment stands if it was made, even when `create` throws. */
    method Create(w: Worker, creation: Creation) returns (returned: bool)
      requires Valid() && ChargerOf(world, w).Creating?
      modifies this
      ensures Valid() && returned == creation.Paid?
      ensures var act := if creation.Paid? then CreateOk(w) else CreateThrows(w, creation.made);
        acts == old(acts) + [act] && world == Apply(old(world), act)
    {
      ghost var before := world;
      var c := ChargerOf(world, w);
      returned := creation.Paid?;
      if returned || creation.made {
        var made := if c.id in world.charges then world.charges[c.id] else [];
        world := world.(charges := world.charges[c.id := made + [Charge(c.at, world.now)]]);
      }
      var after := if returned then Charging(c.rest) else Undoing(c.id, c.at, c.rest, creation.made);
      world := world.(chargers := world.chargers[w := after]);
      hide Possible, After;
      Log(before, if returned then CreateOk(w) else CreateThrows(w, creation.made));
    }

    /** `update(id, { nextChargeAt: chargeAt })`: the claim is released, whatever the row says now. */
    method ReleaseClaim(w: Worker)
      requires Valid() && ChargerOf(world, w).Undoing?
      modifies this
      ensures Valid() && acts == old(acts) + [Release(w)] && world == Apply(old(world), Release(w))
    {
      ghost var before := world;
      var c := ChargerOf(world, w);
      if c.id in world.rows {
        world := world.(rows := world.rows[c.id := world.rows[c.id].(next := c.at)]);
      }
      world := world.(chargers := world.chargers[w := Charging(c.rest)]);
      hide Possible, After;
      Log(before, Release(w));
    }

    method SetQueue(w: Worker, a: Act)
      requires a.FindDue? || a.Stop? || a.Abandon? || a.FindUpcoming? || a.RestAgain?
      requires Valid() && Enabled(world, a) && a.w == w
      modifies this
      ensures Valid() && acts == old(acts) + [a] && world == Apply(old(world), a)
      ensures a.FindDue? ==> ChargerOf(world, w) == Charging(a.found)
      ensures a.Stop? || a.Abandon? ==> ChargerOf(world, w) == Idle
      ensures a.FindUpcoming? ==> NotifierOf(world, w) == Notifying(a.found)
      ensures a.RestAgain? ==> NotifierOf(world, w) == Resting
    {
      ghost var before := world;
      hide Possible, After, Enabled;
      match a {
        case FindDue(_, found) => world := world.(chargers := world.chargers[w := Charging(found)]);
        case Stop(_) => world := world.(chargers := world.chargers[w := Idle]);
        case Abandon(_) => world := world.(chargers := world.chargers[w := Idle]);
        case FindUpcoming(_, found) => world := world.(notifiers := world.notifiers[w := Notifying(found)]);
        case RestAgain(_) => world := world.(notifiers := world.notifiers[w := Resting]);
      }
      Log(before, a);
    }

    /**
     * The charging job of worker `w` over the rows it found due. `turns` says how
     * the statements for each row go, `env` what others do meanwhile. Each row
     * is tried once, in order, until one ends the job.
     */
    method ChargeDueSubscriptions(w: Worker, found: seq<Due>, turns: nat -> Turn, env: nat -> seq<Act>)
      returns (won: seq<bool>)
      requires Valid() && Enabled(world, FindDue(w, found))
      modifies this
      ensures Valid() && ChargerOf(world, w) == Idle
      ensures |won| <= |found| && forall i | 0 <= i < |won| - 1 :: !EndsJob(won[i], turns(i))
      ensures |won| < |found| ==> won != [] && EndsJob(won[|won| - 1], turns(|won| - 1))
      ensures Own(acts, w, true)
        == Own(old(acts), w, true) + ([FindDue(w, found)] + Turns(w, won, turns) + Closing(w, won, turns))
    {
      hide Lists, Own, After, Possible, Valid, Apply, Enabled, ChargerOf, Turns, EndsJob, Gone;
      OwnAppend(acts, FindDue(w, found), w, true);
      SetQueue(w, FindDue(w, found));
      won := TakeTurns(w, found, turns, env);
      if won == [] || !Gone(won[|won| - 1], turns(|won| - 1)) {
        OwnAppend(acts, Stop(w), w, true);
        MayStop(world, w);
        SetQueue(w, Stop(w));
      }
      Regroup(Own(old(acts), w, true), [FindDue(w, found)], Turns(w, won, turns), Closing(w, won, turns));
    }

    /** The loop of the job. */
    method TakeTurns(w: Worker, found: seq<Due>, turns: nat -> Turn, env: nat -> seq<Act>) returns (won: seq<bool>)
      requires Valid() && ChargerOf(world, w) == Charging(found)
      modifies this
      ensures Valid()
      ensures if won != [] && Gone(won[|won| - 1], turns(|won| - 1)) then ChargerOf(world, w) == Idle
              else ChargerOf(world, w).Charging?
      ensures |won| <= |found| && forall i | 0 <= i < |won| - 1 :: !EndsJob(won[i], turns(i))
      ensures |won| < |found| ==> won != [] && EndsJob(won[|won| - 1], turns(|won| - 1))
      ensures Own(acts, w, true) == Own(old(acts), w, true) + Turns(w, won, turns)
    {
      hide Own, After, Possible, Valid, ChargerOf, TurnActs, EndsJob, Gone;
      won := [];
      var ended := false;
      while |won| < |found| && !ended
        invariant Valid() && |won| <= |found|
        invariant forall i | 0 <= i < |won| - 1 :: !EndsJob(won[i], turns(i))
        invariant ended <==> won != [] && EndsJob(won[|won| - 1], turns(|won| - 1))
        invariant !ended ==> ChargerOf(world, w) == Charging(found[|won|..])
        invariant if won != [] && Gone(won[|won| - 1], turns(|won| - 1)) then ChargerOf(world, w) == Idle
                  else ChargerOf(world, w).Charging?
        invariant Own(acts, w, true) == Own(old(acts), w, true) + Turns(w, won, turns)
        decreases |found| - |won|
      {
        var i := |won|;
        Others(env(2 * i), w, true);
        var one := ChargeOne(w, found[i], turns(i), env(2 * i + 1));
        TurnsAppend(w, won, one, turns);
        Assoc(Own(old(acts), w, true), Turns(w, won, turns), TurnActs(w, one, turns(i)));
        GoesOn(one, turns(i));
        won := won + [one];
        ended := EndsJob(one, turns(i));
      }
      Others(env(2 * |won|), w, true);
    }

    /** One turn of the loop: claim, then create the payment, and release the claim if that throws. */
    method ChargeOne(w: Worker, d: Due, turn: Turn, meanwhile: seq<Act>) returns (won: bool)
      requires Valid() && ChargerOf(world, w).Charging? && ChargerOf(world, w).queue != []
      requires d == ChargerOf(world, w).queue[0]
      modifies this
      ensures Valid()
      ensures ChargerOf(world, w) ==
        if Gone(won, turn) then Idle
        else if turn.claim.Refused? then ChargerOf(old(world), w)
        else Charging(ChargerOf(old(world), w).queue[1..])
      ensures Own(acts, w, true) == Own(old(acts), w, true) + TurnActs(w, won, turn)
    {
      hide Own, After, Possible, Valid;
      if turn.claim.Refused? {
        return false;
      }
      OwnAppend(acts, Claim(w), w, true);
      won := ClaimCycle(w, d);
      if !won {
        return;
      }
      if turn.claim.MadeUnheard? {
        OwnAppend(acts, Abandon(w), w, true);
        SetQueue(w, Abandon(w));
        return;
      }
      Settle(w, turn, meanwhile);
    }

    method Settle(w: Worker, turn: Turn, meanwhile: seq<Act>)
      requires Valid() && ChargerOf(world, w).Creating?
      modifies this
      ensures Valid()
      ensures ChargerOf(world, w) ==
        if turn.creation.Threw? && turn.release.Refused? then Idle else Charging(ChargerOf(old(world), w).rest)
      ensures Own(acts, w, true) == Own(old(acts), w, true) + Settling(w, turn)
    {
      hide Own, After, Possible, Valid;
      Others(meanwhile, w, true);
      if turn.creation.Paid? {
        OwnAppend(acts, CreateOk(w), w, true);
        var _ := Create(w, turn.creation);
        return;
      }
      OwnAppend(acts, CreateThrows(w, turn.creation.made), w, true);
      var _ := Create(w, turn.creation);
      ReleaseOrLeave(w, turn.release, meanwhile);
    }

    /** The `catch`: an update that throws there ends the job. */
    method ReleaseOrLeave(w: Worker, release: Write, meanwhile: seq<Act>)
      requires Valid() && ChargerOf(world, w).Undoing?
      modifies this
      ensures Valid()
      ensures ChargerOf(world, w) == if release.Refused? then Idle else Charging(ChargerOf(old(world), w).rest)
      ensures Own(acts, w, true)
        == Own(old(acts), w, true) + [if release.Refused? then Abandon(w) else Release(w)]
    {
      hide Own, After, Possible, Valid;
      Others(meanwhile, w, true);
      OwnAppend(acts, Abandon(w), w, true);
      OwnAppend(acts, Release(w), w, true);
      if release.Refused? {
        SetQueue(w, Abandon(w));
      } else {
        ReleaseClaim(w);
      }
    }

    method QueueMail(w: Worker, queued: bool, threw: bool)
      requires Valid() && NotifierOf(world, w).Notifying? && NotifierOf(world, w).queue != []
      modifies this
      ensures Valid() && acts == old(acts) + [Email(w, queued, threw)]
      ensures world == Apply(old(world), Email(w, queued, threw))
    {
      ghost var before := world;
      var queue := NotifierOf(world, w).queue;
      if queued {
        world := world.(emails := world.emails + {queue[0]});
      }
      var n := if queued && !threw then Emailed(queue[0].id, queue[0].at, queue[1..]) else Notifying(queue[1..]);
      world := world.(notifiers := world.notifiers[w := n]);
      hide Possible, After;
      Log(before, Email(w, queued, threw));
    }

    /** `update(id, { notifiedForChargeAt: chargeAt })`, which may throw. */
    method MarkNotified(w: Worker, ok: bool)
      requires Valid() && NotifierOf(world, w).Emailed?
      modifies this
      ensures Valid() && acts == old(acts) + [Mark(w, ok)] && world == Apply(old(world), Mark(w, ok))
    {
      ghost var before := world;
      var n := NotifierOf(world, w);
      if ok && n.id in world.rows {
        world := world.(rows := world.rows[n.id := world.rows[n.id].(notified := Some(n.at))]);
      }
      world := world.(notifiers := world.notifiers[w := Notifying(n.rest)]);
      hide Possible, After;
      Log(before, Mark(w, ok));
    }

    /** One upcoming charge: a failure is logged and the loop goes on. */
    method NotifyOne(w: Worker, mail: Mail, meanwhile: seq<Act>)
      requires Valid() && NotifierOf(world, w).Notifying? && NotifierOf(world, w).queue != []
      modifies this
      ensures Valid() && NotifierOf(world, w) == Notifying(NotifierOf(old(world), w).queue[1..])
      ensures Own(acts, w, false) == Own(old(acts), w, false) + MailActs(w, mail)
    {
      hide Own, After, Possible, Valid;
      match mail {
        case NoMerchant =>
          OwnAppend(acts, Email(w, false, false), w, false);
          QueueMail(w, false, false);
        case QueueThrows(queued) =>
          OwnAppend(acts, Email(w, queued, true), w, false);
          QueueMail(w, queued, true);
        case Queued(marked) =>
          OwnAppend(acts, Email(w, true, false), w, false);
          QueueMail(w, true, false);
          Others(meanwhile, w, false);
          OwnAppend(acts, Mark(w, marked), w, false);
          MarkNotified(w, marked);
      }
    }

    /** The notifying job: every upcoming charge is tried once, in the order found. */
    method NotifyUpcomingCharges(w: Worker, found: seq<Due>, mail: nat -> Mail, env: nat -> seq<Act>)
      requires Valid() && Enabled(world, FindUpcoming(w, found))
      modifies this
      ensures Valid() && NotifierOf(world, w) == Resting
      ensures Own(acts, w, false)
        == Own(old(acts), w, false) + ([FindUpcoming(w, found)] + Mails(w, mail, |found|) + [RestAgain(w)])
    {
      hide Lists, Own, After, Possible, Valid, Apply, Enabled, NotifierOf;
      OwnAppend(acts, FindUpcoming(w, found), w, false);
      SetQueue(w, FindUpcoming(w, found));
      for i := 0 to |found|
        invariant Valid() && NotifierOf(world, w) == Notifying(found[i..])
        invariant Own(acts, w, false) == Own(old(acts), w, false) + ([FindUpcoming(w, found)] + Mails(w, mail, i))
      {
        Others(env(2 * i), w, false);
        NotifyOne(w, mail(i), env(2 * i + 1));
        Regroup(Own(old(acts), w, false), [FindUpcoming(w, found)], Mails(w, mail, i), MailActs(w, mail(i)));
      }
      Others(env(2 * |found|), w, false);
      OwnAppend(acts, RestAgain(w), w, false);
      MayStop(world, w);
      SetQueue(w, RestAgain(w));
      Regroup(Own(old(acts), w, false), [FindUpcoming(w, found)], Mails(w, mail, |found|), [RestAgain(w)]);
    }
  }

  lemma MayStop(s: World, w: Worker)
    ensures ChargerOf(s, w).Charging? ==> Enabled(s, Stop(w))
    ensures NotifierOf(s, w).Notifying? ==> Enabled(s, RestAgain(w))
  {
  }

  lemma Regroup(a: seq<Act>, b: seq<Act>, c: seq<Act>, d: seq<Act>)
    ensures (a + (b + c)) + d == a + (b + c + d) == a + (b + (c + d))
  {
  }

  lemma TurnsAppend(w: Worker, won: seq<bool>, one: bool, turns: nat -> Turn)
    ensures Turns(w, won + [one], turns) == Turns(w, won, turns) + TurnActs(w, one, turns(|won|))
  {
    assert (won + [one])[..|won|] == won;
  }

  lemma GoesOn(won: bool, turn: Turn)
    ensures !EndsJob(won, turn) ==> turn.claim.Made? && !Gone(won, turn)
  {
  }

  lemma Assoc(a: seq<Act>, b: seq<Act>, c: seq<Act>)
    ensures (a + b) + c == a + (b + c)
  {
  }

  lemma OthersKeep(s: World, a: Act, w: Worker, charging: bool)
    requires Enabled(s, a)
    requires if charging then !ChargerAct(a, w) else !NotifierAct(a, w)
    ensures if charging then ChargerOf(Apply(s, a), w) == ChargerOf(s, w)
            else NotifierOf(Apply(s, a), w) == NotifierOf(s, w)
  {
    hide Lists;
  }
}
