/**
 * How many calls interleaving callers get admitted by the Redis limiter
 * (src/cache/cache.service.ts:207-241), with old clock readings, and with keys
 * that expire between one command of a call and the next.
 */
module InterleavedAdmissions {
  import opened Wrappers
  import opened SlidingWindow
  import opened SlidingWindowHistory
  import opened InterleavedChecks

  /** The clock readings of the calls that Redis admitted: those that got through their last command. */
  function Admitted(k: nat, actions: seq<Action>, limit: int, window: int): seq<int> {
    if actions == [] then []
    else
      var front, a := actions[..|actions| - 1], actions[|actions| - 1];
      Admitted(k, front, limit, window) + Admits(Run(k, front, limit, window), a)
  }

  function Admits(s: System, a: Action): (readings: seq<int>)
    ensures |readings| <= 1
  {
    if a.Expire? && Enabled(s, a) then [s.pcs[a.c].now] else []
  }

  /** Callers on their way to take a place, or that have taken one and not finished. */
  datatype Stage = Pending | Storing

  predicate Within(now: int, x: int, window: int) {
    x < now <= x + window
  }

  predicate At(pc: Pc, stage: Stage, x: int, window: int) {
    match pc
    case Idle => false
    case Stored(now) => stage.Storing? && Within(now, x, window)
    case Started(now) => stage.Pending? && Within(now, x, window)
    case Trimmed(now) => stage.Pending? && Within(now, x, window)
    case Passed(now) => stage.Pending? && Within(now, x, window)
  }

  /** How many callers are at a stage with a reading in the window after `x`. */
  function Callers(pcs: seq<Pc>, stage: Stage, x: int, window: int): nat {
    if pcs == [] then 0
    else
      Callers(pcs[..|pcs| - 1], stage, x, window) + if At(pcs[|pcs| - 1], stage, x, window) then 1 else 0
  }

  lemma {:induction false} CallersUpdate(pcs: seq<Pc>, c: nat, pc: Pc, stage: Stage, x: int, window: int)
    requires c < |pcs|
    ensures Callers(pcs[c := pc], stage, x, window) == Callers(pcs, stage, x, window)
      - (if At(pcs[c], stage, x, window) then 1 else 0) + if At(pc, stage, x, window) then 1 else 0
  {
    hide At;
    var n := |pcs| - 1;
    if c == n {
      assert pcs[c := pc][..n] == pcs[..n];
    } else {
      assert pcs[c := pc][..n] == pcs[..n][c := pc];
      CallersUpdate(pcs[..n], c, pc, stage, x, window);
    }
  }

  lemma {:induction false} CallersAtMostAll(pcs: seq<Pc>, stage: Stage, x: int, window: int)
    ensures Callers(pcs, stage, x, window) <= |pcs|
  {
    if pcs != [] {
      CallersAtMostAll(pcs[..|pcs| - 1], stage, x, window);
    }
  }

  lemma {:induction false} NoCallers(pcs: seq<Pc>, stage: Stage, x: int, window: int)
    requires forall c | 0 <= c < |pcs| :: !At(pcs[c], stage, x, window)
    ensures Callers(pcs, stage, x, window) == 0
  {
    if pcs != [] {
      NoCallers(pcs[..|pcs| - 1], stage, x, window);
    }
  }

  lemma {:induction false} CountAtMostAll(xs: seq<int>, lo: int, hi: int)
    ensures CountIn(xs, lo, hi) <= |xs|
  {
    if xs != [] {
      CountAtMostAll(xs[..|xs| - 1], lo, hi);
    }
  }

  lemma {:induction false} PruneKeepsLater(xs: seq<int>, start: int, lo: int, hi: int)
    requires start <= lo
    ensures CountIn(After(xs, start), lo, hi) == CountIn(xs, lo, hi)
  {
    if xs != [] {
      var front, last := xs[..|xs| - 1], xs[|xs| - 1];
      PruneKeepsLater(front, start, lo, hi);
      CountAppend(After(front, start), last, lo, hi);
      if last <= start {
        assert After(xs, start) == After(front, start);
      }
    }
  }

  lemma CountAppend(xs: seq<int>, last: int, lo: int, hi: int)
    ensures CountIn(xs + [last], lo, hi) == CountIn(xs, lo, hi) + if lo < last <= hi then 1 else 0
  {
    assert (xs + [last])[..|xs|] == xs;
  }

  lemma {:induction false} InsertCounts(xs: seq<int>, score: int, lo: int, hi: int)
    ensures CountIn(Insert(xs, score), lo, hi) == CountIn(xs, lo, hi) + if lo < score <= hi then 1 else 0
  {
    if xs == [] || xs[|xs| - 1] <= score {
      CountAppend(xs, score, lo, hi);
    } else {
      InsertCounts(xs[..|xs| - 1], score, lo, hi);
      CountAppend(Insert(xs[..|xs| - 1], score), xs[|xs| - 1], lo, hi);
    }
  }

  // ── the invariant, for the window after `x` ──

  predicate Late(s: System, x: int, window: int) {
    Seconds(s.ms) > x + window
  }

  /** The key expires while clock readings still fall into the window. */
  predicate EndsEarly(z: Zset, x: int, window: int) {
    z.expiresAt.Some? && Seconds(z.expiresAt.value) <= x + window
  }

  predicate ReadingOk(pc: Pc, ms: int) {
    pc.Idle? || pc.now <= Seconds(ms)
  }

  function Members(s: System, x: int, window: int): nat {
    CountIn(s.z.scores, x, x + window)
  }

  /** Calls with a reading in the window that took a place and did not fail. */
  function Taken(s: System, admitted: nat, x: int, window: int): nat {
    admitted + Callers(s.pcs, Storing, x, window)
  }

  /**
   * Early on, what was taken is still there, but for one place of each caller:
   * a key can end early only once, when nobody's call is through.
   */
  predicate EarlyOk(s: System, admitted: nat, k: nat, x: int, window: int) {
    && Taken(s, admitted, x, window) <= Members(s, x, window) + k
    && (EndsEarly(s.z, x, window) ==> admitted == 0 && Taken(s, admitted, x, window) <= Members(s, x, window))
    && (Seconds(s.ms) <= x ==> Taken(s, admitted, x, window) == 0)
  }

  predicate LateOk(s: System, admitted: nat, k: nat, limit: int, x: int, window: int) {
    Taken(s, admitted, x, window) + Callers(s.pcs, Pending, x, window) <= limit + 3 * k - 1
  }

  predicate Fits(s: System, admitted: nat, k: nat, limit: int, x: int, window: int) {
    && Bounded(s, k, limit)
    && (s.z.scores == [] ==> s.z.expiresAt == None)
    && (forall c | 0 <= c < |s.pcs| :: ReadingOk(s.pcs[c], s.ms))
    && (if Late(s, x, window) then LateOk(s, admitted, k, limit, x, window) else EarlyOk(s, admitted, k, x, window))
  }

  /** What the first part of a command does: an expired key is dropped. */
  function Dropped(s: System): System {
    s.(z := Live(s.z, s.ms))
  }

  lemma DropFits(s: System, admitted: nat, k: nat, limit: int, x: int, window: int)
    requires Fits(s, admitted, k, limit, x, window)
    ensures Fits(Dropped(s), admitted, k, limit, x, window)
  {
    CallersAtMostAll(s.pcs, Storing, x, window);
    hide Callers, PassedIn, Seconds;
    if Live(s.z, s.ms) != s.z {
      assert Dropped(s).z == NO_KEY;
      SecondsAscend(s.z.expiresAt.value, s.ms);
    }
  }

  lemma SecondsAscend(a: int, b: int)
    requires a <= b
    ensures Seconds(a) <= Seconds(b)
  {
  }

  lemma SecondsAdd(ms: int, window: int)
    ensures Seconds(ms + window * 1000) == Seconds(ms) + window
  {
  }

  /** Time passes: at the end of the window every caller may be on its way with a reading from it. */
  lemma TickFits(s: System, passed: nat, admitted: nat, k: nat, limit: int, x: int, window: int)
    requires Fits(s, admitted, k, limit, x, window)
    ensures Fits(s.(ms := s.ms + passed), admitted, k, limit, x, window)
  {
    CallersAtMostAll(s.pcs, Pending, x, window);
    CountAtMostAll(s.z.scores, x, x + window);
    SecondsAscend(s.ms, s.ms + passed);
    hide Callers, PassedIn, Seconds, CountIn;
  }

  /** The callers that one command leaves alone. */
  lemma OneMoves(s: System, c: nat, pc: Pc, x: int, window: int)
    requires c < |s.pcs|
    ensures Callers(s.pcs[c := pc], Storing, x, window) == Callers(s.pcs, Storing, x, window)
      - (if At(s.pcs[c], Storing, x, window) then 1 else 0) + if At(pc, Storing, x, window) then 1 else 0
    ensures Callers(s.pcs[c := pc], Pending, x, window) == Callers(s.pcs, Pending, x, window)
      - (if At(s.pcs[c], Pending, x, window) then 1 else 0) + if At(pc, Pending, x, window) then 1 else 0
  {
    CallersUpdate(s.pcs, c, pc, Storing, x, window);
    CallersUpdate(s.pcs, c, pc, Pending, x, window);
  }

  lemma StepFits(s: System, a: Action, admitted: nat, k: nat, limit: int, x: int, window: int)
    requires limit >= 1 && k >= 1 && Enabled(s, a) && !a.Tick? && Fits(s, admitted, k, limit, x, window)
    requires a.Start? || a.Fail? || Live(s.z, s.ms) == s.z
    ensures Fits(Apply(s, a, limit, window), admitted + CountIn(Admits(s, a), x, x + window), k, limit, x, window)
  {
    var t := Apply(s, a, limit, window);
    StepBounded(s, a, k, limit, window);
    OneMoves(s, a.c, t.pcs[a.c], x, window);
    assert ReadingOk(s.pcs[a.c], s.ms);
    match a
    case Start(c) => StartFits(s, c, admitted, k, limit, x, window);
    case Prune(c) => PruneFits(s, c, admitted, k, limit, x, window);
    case Count(c) => PassFits(s, a, admitted, k, limit, x, window);
    case Fail(c) => PassFits(s, a, admitted, k, limit, x, window);
    case Add(c) => AddFits(s, c, admitted, k, limit, x, window);
    case Expire(c) => ExpireFits(s, c, admitted, k, limit, x, window);
  }

  lemma StartFits(s: System, c: nat, admitted: nat, k: nat, limit: int, x: int, window: int)
    requires Enabled(s, Start(c)) && Fits(s, admitted, k, limit, x, window)
    requires Bounded(Apply(s, Start(c), limit, window), k, limit)
    ensures Fits(Apply(s, Start(c), limit, window), admitted, k, limit, x, window)
  {
    OneMoves(s, c, Started(Seconds(s.ms)), x, window);
    hide Callers, PassedIn, Seconds, CountIn, Bounded;
  }

  lemma PrunedSet(z: Zset, start: int, lo: int, hi: int)
    requires z.scores == [] ==> z.expiresAt == None
    ensures var pruned := ZRemRangeByScore(z, start);
      && (start <= lo ==> CountIn(pruned.scores, lo, hi) == CountIn(z.scores, lo, hi))
      && (pruned.expiresAt == None || pruned.expiresAt == z.expiresAt)
      && (pruned.scores == [] ==> pruned.expiresAt == None)
  {
    if start <= lo {
      PruneKeepsLater(z.scores, start, lo, hi);
    }
    hide CountIn, After;
  }

  lemma PruneFits(s: System, c: nat, admitted: nat, k: nat, limit: int, x: int, window: int)
    requires Enabled(s, Prune(c)) && Fits(s, admitted, k, limit, x, window) && Live(s.z, s.ms) == s.z
    requires Bounded(Apply(s, Prune(c), limit, window), k, limit)
    ensures Fits(Apply(s, Prune(c), limit, window), admitted, k, limit, x, window)
  {
    var now := s.pcs[c].now;
    OneMoves(s, c, Trimmed(now), x, window);
    assert ReadingOk(s.pcs[c], s.ms);
    PrunedSet(s.z, now - window, x, x + window);
    var pruned := ZRemRangeByScore(s.z, now - window);
    assert Apply(s, Prune(c), limit, window) == s.(z := pruned, pcs := s.pcs[c := Trimmed(now)]);
    hide Callers, PassedIn, CountIn, Bounded, ZRemRangeByScore, Live, Apply;
    PrunedFits(s, c, pruned, admitted, k, limit, x, window);
  }

  /** A set that keeps what lies in the window, as far as the clock has not left it. */
  lemma PrunedFits(s: System, c: nat, z: Zset, admitted: nat, k: nat, limit: int, x: int, window: int)
    requires Fits(s, admitted, k, limit, x, window) && c < |s.pcs| && s.pcs[c].Started?
    requires z.scores == [] ==> z.expiresAt == None
    requires z.expiresAt == None || z.expiresAt == s.z.expiresAt
    requires Seconds(s.ms) <= x + window ==> CountIn(z.scores, x, x + window) == CountIn(s.z.scores, x, x + window)
    requires var t := s.(z := z, pcs := s.pcs[c := Trimmed(s.pcs[c].now)]);
      && Bounded(t, k, limit)
      && Callers(t.pcs, Storing, x, window) == Callers(s.pcs, Storing, x, window)
      && Callers(t.pcs, Pending, x, window) == Callers(s.pcs, Pending, x, window)
    ensures Fits(s.(z := z, pcs := s.pcs[c := Trimmed(s.pcs[c].now)]), admitted, k, limit, x, window)
  {
    assert ReadingOk(s.pcs[c], s.ms);
    hide Callers, PassedIn, CountIn, Bounded, Seconds;
  }

  /** Seeing room or none, or failing. */
  lemma PassFits(s: System, a: Action, admitted: nat, k: nat, limit: int, x: int, window: int)
    requires (a.Count? || a.Fail?) && Enabled(s, a)
    requires Fits(s, admitted, k, limit, x, window) && (a.Fail? || Live(s.z, s.ms) == s.z)
    requires Bounded(Apply(s, a, limit, window), k, limit)
    ensures Fits(Apply(s, a, limit, window), admitted, k, limit, x, window)
  {
    OneMoves(s, a.c, Apply(s, a, limit, window).pcs[a.c], x, window);
    assert ReadingOk(s.pcs[a.c], s.ms);
    hide Callers, PassedIn, Seconds, CountIn, Bounded;
  }

  lemma AddFits(s: System, c: nat, admitted: nat, k: nat, limit: int, x: int, window: int)
    requires Enabled(s, Add(c)) && Fits(s, admitted, k, limit, x, window) && Live(s.z, s.ms) == s.z
    requires Bounded(Apply(s, Add(c), limit, window), k, limit)
    ensures Fits(Apply(s, Add(c), limit, window), admitted, k, limit, x, window)
  {
    var now := s.pcs[c].now;
    OneMoves(s, c, Stored(now), x, window);
    assert ReadingOk(s.pcs[c], s.ms);
    InsertCounts(s.z.scores, now, x, x + window);
    InsertGrows(s.z.scores, now);
    hide Callers, PassedIn, Seconds, CountIn, Bounded, Insert;
  }

  lemma ExpireFits(s: System, c: nat, admitted: nat, k: nat, limit: int, x: int, window: int)
    requires Enabled(s, Expire(c)) && Fits(s, admitted, k, limit, x, window) && Live(s.z, s.ms) == s.z
    requires Bounded(Apply(s, Expire(c), limit, window), k, limit)
    ensures Fits(Apply(s, Expire(c), limit, window), admitted + CountIn([s.pcs[c].now], x, x + window),
      k, limit, x, window)
  {
    var now := s.pcs[c].now;
    OneMoves(s, c, Idle, x, window);
    assert ReadingOk(s.pcs[c], s.ms);
    SecondsAdd(s.ms, window);
    CountAppend([], now, x, x + window);
    assert [] + [now] == [now];
    assert CountIn([], x, x + window) == 0;
    hide Callers, PassedIn, Seconds, CountIn, Bounded;
  }

  /** A command that touches the key does what it does once an expired key is dropped. */
  lemma DropFirst(s: System, a: Action, limit: int, window: int)
    requires Enabled(s, a) && !a.Tick? && !a.Start? && !a.Fail?
    ensures Enabled(Dropped(s), a) && Admits(Dropped(s), a) == Admits(s, a)
    ensures Live(Dropped(s).z, s.ms) == Dropped(s).z
    ensures Apply(Dropped(s), a, limit, window) == Apply(s, a, limit, window)
  {
    hide ZRemRangeByScore, Insert;
  }

  lemma {:induction false} CountConcat(a: seq<int>, b: seq<int>, lo: int, hi: int)
    requires |b| <= 1
    ensures CountIn(a + b, lo, hi) == CountIn(a, lo, hi) + CountIn(b, lo, hi)
  {
    if b == [] {
      assert a + b == a;
    } else {
      assert b == [b[0]] && [] + b == b;
      CountAppend(a, b[0], lo, hi);
      CountAppend([], b[0], lo, hi);
    }
  }

  lemma {:induction false} InvHolds(k: nat, actions: seq<Action>, limit: int, window: int, x: int)
    requires limit >= 1 && k >= 1
    ensures Fits(Run(k, actions, limit, window), CountIn(Admitted(k, actions, limit, window), x, x + window),
      k, limit, x, window)
  {
    hide Fits, Apply, Enabled, CountIn, Admits;
    if actions == [] {
      InvInit(k, limit, window, x);
    } else {
      var front, a := actions[..|actions| - 1], actions[|actions| - 1];
      InvHolds(k, front, limit, window, x);
      var s, before := Run(k, front, limit, window), Admitted(k, front, limit, window);
      CountConcat(before, Admits(s, a), x, x + window);
      InvStep(s, a, CountIn(before, x, x + window), k, limit, x, window);
    }
  }

  lemma InvInit(k: nat, limit: int, window: int, x: int)
    requires limit >= 1 && k >= 1
    ensures Fits(Run(k, [], limit, window), CountIn([], x, x + window), k, limit, x, window)
  {
    NonePassed(k);
    NoCallers(seq(k, _ => Idle), Storing, x, window);
    NoCallers(seq(k, _ => Idle), Pending, x, window);
    hide Callers, PassedIn;
  }

  lemma InvStep(s: System, a: Action, admitted: nat, k: nat, limit: int, x: int, window: int)
    requires limit >= 1 && k >= 1 && Fits(s, admitted, k, limit, x, window)
    ensures var t := if Enabled(s, a) then Apply(s, a, limit, window) else s;
      Fits(t, admitted + CountIn(Admits(s, a), x, x + window), k, limit, x, window)
  {
    assert CountIn([], x, x + window) == 0;
    if !Enabled(s, a) {
      assert Admits(s, a) == [];
    } else if a.Tick? {
      assert Admits(s, a) == [];
      TickFits(s, a.passed, admitted, k, limit, x, window);
    } else if a.Start? || a.Fail? {
      StepFits(s, a, admitted, k, limit, x, window);
    } else {
      hide Fits, Apply, Enabled, Admits, CountIn, Live;
      DropFits(s, admitted, k, limit, x, window);
      DropFirst(s, a, limit, window);
      StepFits(Dropped(s), a, admitted, k, limit, x, window);
    }
  }

  /**
   * However `k` callers interleave, however old their clock readings are when
   * they act, wherever they fail and whenever the key expires: Redis admits at
   * most `limit + 3 * k - 1` calls with readings in any window.
   */
  lemma AdmittedWhenInterleaved(k: nat, actions: seq<Action>, limit: int, window: int, x: int)
    requires limit >= 1 && k >= 1
    ensures CountIn(Admitted(k, actions, limit, window), x, x + window) <= limit + 3 * k - 1
  {
    InvHolds(k, actions, limit, window, x);
    var s := Run(k, actions, limit, window);
    CountAtMostAll(s.z.scores, x, x + window);
    hide Run, Admitted, CountIn, Callers, PassedIn, Seconds;
  }

  // ── the bound is reached, by one caller ──

  predicate Leads(actions: seq<Action>, s: System, admitted: seq<int>) {
    Run(1, actions, 2, 2) == s && Admitted(1, actions, 2, 2) == admitted
  }

  lemma Step(actions: seq<Action>, s: System, admitted: seq<int>, a: Action) returns (more: seq<Action>)
    requires Leads(actions, s, admitted) && Enabled(s, a)
    ensures more == actions + [a] && Leads(more, Apply(s, a, 2, 2), admitted + Admits(s, a))
  {
    more := actions + [a];
    assert more[..|actions|] == actions;
    hide Apply, Admits, Enabled;
  }

  lemma StepTo(actions: seq<Action>, s: System, admitted: seq<int>, a: Action, t: System) returns (more: seq<Action>)
    requires Leads(actions, s, admitted) && Enabled(s, a) && !a.Expire? && t == Apply(s, a, 2, 2)
    ensures more == actions + [a] && Leads(more, t, admitted)
  {
    more := Step(actions, s, admitted, a);
    assert admitted + [] == admitted;
  }

  /** From the pruned set to a place taken, all at one moment. */
  lemma TakePlace(actions: seq<Action>, z: Zset, pruned: Zset, ms: int, now: int, admitted: seq<int>)
    returns (more: seq<Action>)
    requires Leads(actions, System(z, ms, [Started(now)]), admitted)
    requires pruned == ZRemRangeByScore(Live(z, ms), now - 2) && Live(pruned, ms) == pruned && |pruned.scores| < 2
    ensures Leads(more, System(pruned.(scores := Insert(pruned.scores, now)), ms, [Stored(now)]), admitted)
  {
    hide Leads, ZRemRangeByScore, Insert, Live;
    more := StepTo(actions, System(z, ms, [Started(now)]), admitted, Prune(0), System(pruned, ms, [Trimmed(now)]));
    more := StepTo(more, System(pruned, ms, [Trimmed(now)]), admitted, Count(0), System(pruned, ms, [Passed(now)]));
    more := StepTo(more, System(pruned, ms, [Passed(now)]), admitted, Add(0),
      System(pruned.(scores := Insert(pruned.scores, now)), ms, [Stored(now)]));
  }

  lemma Finish(actions: seq<Action>, z: Zset, live: Zset, ms: int, now: int, admitted: seq<int>)
    returns (more: seq<Action>)
    requires Leads(actions, System(z, ms, [Stored(now)]), admitted) && live == Live(z, ms)
    ensures Leads(more,
      System(if live.scores == [] then live else live.(expiresAt := Some(ms + 2000)), ms, [Idle]), admitted + [now])
  {
    more := Step(actions, System(z, ms, [Stored(now)]), admitted, Expire(0));
    hide Leads;
    assert [Stored(now)][0 := Idle] == [Idle];
  }

  lemma Begin(actions: seq<Action>, z: Zset, ms: int, admitted: seq<int>) returns (more: seq<Action>)
    requires Leads(actions, System(z, ms, [Idle]), admitted)
    ensures Leads(more, System(z, ms, [Started(Seconds(ms))]), admitted)
  {
    hide Leads;
    more := StepTo(actions, System(z, ms, [Idle]), admitted, Start(0), System(z, ms, [Started(Seconds(ms))]));
  }

  lemma Pass(actions: seq<Action>, z: Zset, ms: int, pc: Pc, passed: nat, admitted: seq<int>)
    returns (more: seq<Action>)
    requires Leads(actions, System(z, ms, [pc]), admitted)
    ensures Leads(more, System(z, ms + passed, [pc]), admitted)
  {
    hide Leads;
    more := StepTo(actions, System(z, ms, [pc]), admitted, Tick(passed), System(z, ms + passed, [pc]));
  }

  lemma Sets()
    ensures ZRemRangeByScore(NO_KEY, -2) == NO_KEY && ZRemRangeByScore(NO_KEY, 0) == NO_KEY
    ensures ZRemRangeByScore(Zset([0], Some(2000)), -1) == Zset([0], Some(2000))
    ensures ZRemRangeByScore(Zset([2], Some(4000)), 0) == Zset([2], Some(4000))
    ensures Insert([], 0) == [0] && Insert([], 2) == [2] && Insert([0], 1) == [0, 1] && Insert([2], 2) == [2, 2]
  {
    assert After([], -2) == [] && After([], 0) == [];
    assert After([0], -1) == After([], -1) + [0] == [0];
    assert After([2], 0) == After([], 0) + [2] == [2];
  }

  lemma FirstThree() returns (actions: seq<Action>)
    ensures Leads(actions, System(Zset([2], Some(4000)), 2000, [Idle]), [0, 1, 2])
  {
    Sets();
    actions := [];
    assert seq(1, _ => Idle) == [Idle];
    assert Leads(actions, System(NO_KEY, 0, [Idle]), []);
    hide Leads, ZRemRangeByScore, Insert;
    actions := Begin(actions, NO_KEY, 0, []);
    actions := TakePlace(actions, NO_KEY, NO_KEY, 0, 0, []);
    actions := Finish(actions, Zset([0], None), Zset([0], None), 0, 0, []);
    assert [] + [0] == [0];
    actions := Pass(actions, Zset([0], Some(2000)), 0, Idle, 1999, [0]);
    actions := Begin(actions, Zset([0], Some(2000)), 1999, [0]);
    actions := TakePlace(actions, Zset([0], Some(2000)), Zset([0], Some(2000)), 1999, 1, [0]);
    actions := Pass(actions, Zset([0, 1], Some(2000)), 1999, Stored(1), 1, [0]);
    actions := Finish(actions, Zset([0, 1], Some(2000)), NO_KEY, 2000, 1, [0]);
    assert [0] + [1] == [0, 1];
    actions := Begin(actions, NO_KEY, 2000, [0, 1]);
    actions := TakePlace(actions, NO_KEY, NO_KEY, 2000, 2, [0, 1]);
    actions := Finish(actions, Zset([2], None), Zset([2], None), 2000, 2, [0, 1]);
    assert [0, 1] + [2] == [0, 1, 2];
  }

  /**
   * A single caller whose commands straddle the end of the key twice is admitted
   * four times in a window of two seconds with a limit of two.
   */
  lemma OneCallerReachesIt() returns (actions: seq<Action>)
    ensures CountIn(Admitted(1, actions, 2, 2), 0, 0 + 2) == 2 + 3 * 1 - 1
  {
    actions := FirstThree();
    var z, full := Zset([2], Some(4000)), Zset([2, 2], Some(4000));
    actions := FourthCall(actions, z, full, [0, 1, 2]);
    assert [0, 1, 2] + [2] == [0, 1, 2, 2];
    actions := FifthCall(actions, full, [0, 1, 2, 2]);
    FourOf([0, 1, 2, 2] + [2]);
  }

  lemma LastTwo(z: Zset, full: Zset)
    requires z == Zset([2], Some(4000)) && full == Zset([2, 2], Some(4000))
    ensures ZRemRangeByScore(Live(z, 2000), 0) == z && Live(z, 2000) == z && Live(full, 2000) == full
    ensures Insert(z.scores, 2) == full.scores && Live(full, 4000) == NO_KEY
    ensures ZRemRangeByScore(NO_KEY, 0) == NO_KEY && Insert([], 2) == [2]
  {
    Sets();
  }

  lemma FourthCall(actions: seq<Action>, z: Zset, full: Zset, before: seq<int>) returns (more: seq<Action>)
    requires Leads(actions, System(z, 2000, [Idle]), before)
    requires z == Zset([2], Some(4000)) && full == Zset([2, 2], Some(4000))
    ensures Leads(more, System(full, 2000, [Idle]), before + [2])
  {
    LastTwo(z, full);
    assert Seconds(2000) == 2;
    hide *;
    more := Begin(actions, z, 2000, before);
    more := TakePlace(more, z, z, 2000, 2, before);
    more := Finish(more, full, full, 2000, 2, before);
  }

  /** The key ends while the last call waits with its reading. */
  lemma FifthCall(actions: seq<Action>, full: Zset, before: seq<int>) returns (more: seq<Action>)
    requires Leads(actions, System(full, 2000, [Idle]), before) && full == Zset([2, 2], Some(4000))
    ensures Admitted(1, more, 2, 2) == before + [2]
  {
    LastTwo(Zset([2], Some(4000)), full);
    hide Leads, ZRemRangeByScore, Insert;
    more := Begin(actions, full, 2000, before);
    more := Pass(more, full, 2000, Started(2), 2000, before);
    more := TakePlace(more, full, NO_KEY, 4000, 2, before);
    more := Finish(more, Zset([2], None), Zset([2], None), 4000, 2, before);
    LeadsMeans(more, System(Zset([2], Some(6000)), 4000, [Idle]), before + [2]);
  }

  lemma LeadsMeans(actions: seq<Action>, s: System, admitted: seq<int>)
    requires Leads(actions, s, admitted)
    ensures Admitted(1, actions, 2, 2) == admitted
  {
  }

  lemma FourOf(all: seq<int>)
    requires all == [0, 1, 2, 2, 2]
    ensures CountIn(all, 0, 0 + 2) == 4
  {
    CountAppend([0, 1, 2, 2], 2, 0, 2);
    CountAppend([0, 1, 2], 2, 0, 2);
    CountAppend([0, 1], 2, 0, 2);
    CountAppend([0], 1, 0, 2);
    CountAppend([], 0, 0, 2);
    assert [] + [0] == [0] && [0] + [1] == [0, 1] && [0, 1] + [2] == [0, 1, 2];
    assert [0, 1, 2] + [2] == [0, 1, 2, 2] && [0, 1, 2, 2] + [2] == all;
  }
}
