/** The sliding-window limiter and its two stores (src/cache/cache.service.ts:186-280). Times are in milliseconds. */
module SlidingWindow {
  import opened Wrappers

  datatype Decision = Decision(allowed: bool, remaining: int, resetAt: int, retryAfter: Option<int>)

  /** `Math.floor(Date.now() / 1000)`. */
  function Seconds(ms: int): int {
    ms / 1000
  }

  /** The scores after `start`, in order. */
  function After(scores: seq<int>, start: int): seq<int> {
    if scores == [] then []
    else
      var last := scores[|scores| - 1];
      After(scores[..|scores| - 1], start) + if last > start then [last] else []
  }

  function Min(scores: seq<int>): (m: int)
    requires scores != []
    ensures m in scores && forall i | 0 <= i < |scores| :: m <= scores[i]
  {
    if |scores| == 1 then scores[0]
    else
      var rest, last := Min(scores[..|scores| - 1]), scores[|scores| - 1];
      if last < rest then last else rest
  }

  function Refuse(oldest: int, now: int, windowSeconds: int): Decision {
    var resetAt := oldest + windowSeconds;
    Decision(false, 0, resetAt, Some(if resetAt - now > 0 then resetAt - now else 0))
  }

  function Admit(count: nat, now: int, limit: int, windowSeconds: int): Decision {
    Decision(true, limit - count - 1, now + windowSeconds, None)
  }

  // ── the Redis sorted set behind one key ──

  /** Scores in ascending order; the whole key expires at `expiresAt`. */
  datatype Zset = Zset(scores: seq<int>, expiresAt: Option<int>)

  const NO_KEY := Zset([], None)

  /** What a command at `ms` finds. */
  function Live(z: Zset, ms: int): Zset {
    if z.expiresAt.Some? && z.expiresAt.value <= ms then NO_KEY else z
  }

  /** `ZREMRANGEBYSCORE key -inf max`; a set that becomes empty takes its key and expiry with it. */
  function ZRemRangeByScore(z: Zset, max: int): Zset {
    var kept := After(z.scores, max);
    if kept == [] then NO_KEY else z.(scores := kept)
  }

  /** `ZADD key score member` with a member that is not in the set. */
  function Insert(scores: seq<int>, score: int): seq<int> {
    if scores == [] || scores[|scores| - 1] <= score then scores + [score]
    else Insert(scores[..|scores| - 1], score) + [scores[|scores| - 1]]
  }

  function RedisCheck(z: Zset, ms: int, limit: int, windowSeconds: int): (Zset, Decision) {
    var now := Seconds(ms);
    var pruned := ZRemRangeByScore(Live(z, ms), now - windowSeconds);
    if |pruned.scores| >= limit then
      (pruned, Refuse(if pruned.scores == [] then now else pruned.scores[0], now, windowSeconds))
    else
      (Zset(Insert(pruned.scores, now), Some(ms + windowSeconds * 1000)),
       Admit(|pruned.scores|, now, limit, windowSeconds))
  }

  // ── the process-local list ──

  /** None: `withinWindow[0].score` throws on an empty list. */
  function MemoryCheck(scores: seq<int>, ms: int, limit: int, windowSeconds: int): Option<(seq<int>, Decision)> {
    var now := Seconds(ms);
    var within := After(scores, now - windowSeconds);
    if |within| < limit then Some((within + [now], Admit(|within|, now, limit, windowSeconds)))
    else if within == [] then None
    else Some((within, Refuse(Min(within), now, windowSeconds)))
  }

  class CacheService {
    var redis: map<string, Zset>
    var memoryWindows: map<string, seq<int>>

    function RedisKey(key: string): Zset
      reads this
    {
      if key in redis then redis[key] else NO_KEY
    }

    function MemoryKey(key: string): seq<int>
      reads this
    {
      if key in memoryWindows then memoryWindows[key] else []
    }

    method CheckRedis(key: string, ms: int, limit: int, windowSeconds: int) returns (d: Decision)
      modifies this`redis
      ensures (RedisKey(key), d) == RedisCheck(old(RedisKey(key)), ms, limit, windowSeconds)
      ensures redis - {key} == old(redis) - {key}
    {
      hide After, Insert;
      var now := Seconds(ms);
      var pruned := ZRemRangeByScore(Live(RedisKey(key), ms), now - windowSeconds);
      redis := redis[key := pruned];
      var count := |pruned.scores|;
      if count >= limit {
        var oldestScore := now;
        if count > 0 {
          oldestScore := pruned.scores[0];
        }
        return Refuse(oldestScore, now, windowSeconds);
      }
      redis := redis[key := redis[key].(scores := Insert(redis[key].scores, now))];
      redis := redis[key := redis[key].(expiresAt := Some(ms + windowSeconds * 1000))];
      return Decision(true, limit - count - 1, now + windowSeconds, None);
    }

    method CheckMemory(key: string, ms: int, limit: int, windowSeconds: int) returns (d: Option<Decision>)
      modifies this`memoryWindows
      ensures match MemoryCheck(old(MemoryKey(key)), ms, limit, windowSeconds)
        case Some(checked) => d == Some(checked.1) && memoryWindows == old(memoryWindows)[key := checked.0]
        case None => d == None && memoryWindows == old(memoryWindows)
    {
      var now := Seconds(ms);
      var within := FilterAfter(MemoryKey(key), now - windowSeconds);
      if |within| >= limit {
        if within == [] {
          return None;
        }
        var oldestScore := Oldest(within);
        memoryWindows := memoryWindows[key := within];
        return Some(Refuse(oldestScore, now, windowSeconds));
      }
      within := within + [now];
      memoryWindows := memoryWindows[key := within];
      return Some(Decision(true, limit - |within|, now + windowSeconds, None));
    }
  }

  /** `existing.filter((entry) => entry.score > start)`. */
  method FilterAfter(existing: seq<int>, start: int) returns (within: seq<int>)
    ensures within == After(existing, start)
  {
    within := [];
    for i := 0 to |existing|
      invariant within == After(existing[..i], start)
    {
      assert existing[..i + 1][..i] == existing[..i];
      if existing[i] > start {
        within := within + [existing[i]];
      }
    }
    assert existing[..|existing|] == existing;
  }

  /** `within.reduce((min, entry) => ..., within[0].score)`. */
  method Oldest(within: seq<int>) returns (oldest: int)
    requires within != []
    ensures oldest == Min(within)
  {
    oldest := within[0];
    for i := 0 to |within|
      invariant i == 0 ==> oldest == within[0]
      invariant i > 0 ==> oldest == Min(within[..i])
    {
      assert within[..i + 1][..i] == within[..i];
      if within[i] < oldest {
        oldest := within[i];
      }
    }
    assert within[..|within|] == within;
  }
}

/** Serial histories: calls one after another, with a clock that does not go back. */
module SlidingWindowHistory {
  import opened Wrappers
  import opened SlidingWindow

  /** How many scores lie after `lo` and not after `hi`. */
  function CountIn(scores: seq<int>, lo: int, hi: int): nat {
    if scores == [] then 0
    else
      var last := scores[|scores| - 1];
      CountIn(scores[..|scores| - 1], lo, hi) + if lo < last <= hi then 1 else 0
  }

  predicate Ascending(xs: seq<int>) {
    forall i, j | 0 <= i < j < |xs| :: xs[i] <= xs[j]
  }

  predicate AllAtMost(xs: seq<int>, top: int) {
    forall i | 0 <= i < |xs| :: xs[i] <= top
  }

  /** The limiter's list after a history, and the calls it let through, in milliseconds and in clock seconds. */
  datatype Serial = Serial(scores: seq<int>, admitted: seq<int>, secs: seq<int>)

  function Call(s: Serial, ms: int, limit: int, window: int): Serial {
    match MemoryCheck(s.scores, ms, limit, window)
    case None => s
    case Some(checked) =>
      if checked.1.allowed then Serial(checked.0, s.admitted + [ms], s.secs + [Seconds(ms)])
      else s.(scores := checked.0)
  }

  function Calls(times: seq<int>, limit: int, window: int): Serial {
    if times == [] then Serial([], [], [])
    else Call(Calls(times[..|times| - 1], limit, window), times[|times| - 1], limit, window)
  }

  lemma {:induction false} AfterOfAfter(xs: seq<int>, a: int, b: int)
    requires a <= b
    ensures After(After(xs, a), b) == After(xs, b)
  {
    if xs != [] {
      var front, last := xs[..|xs| - 1], xs[|xs| - 1];
      AfterOfAfter(front, a, b);
      if last > a {
        AfterAppend(After(front, a), last, b);
      } else {
        assert After(xs, a) == After(front, a) && After(xs, b) == After(front, b);
      }
    }
  }

  lemma AfterAppend(xs: seq<int>, x: int, start: int)
    ensures After(xs + [x], start) == After(xs, start) + if x > start then [x] else []
  {
    assert (xs + [x])[..|xs|] == xs;
  }

  lemma {:induction false} CountAfter(xs: seq<int>, lo: int, hi: int)
    ensures CountIn(xs, lo, hi) <= |After(xs, lo)|
    ensures AllAtMost(xs, hi) ==> CountIn(xs, lo, hi) == |After(xs, lo)|
  {
    if xs != [] {
      CountAfter(xs[..|xs| - 1], lo, hi);
    }
  }

  lemma {:induction false} CountMono(xs: seq<int>, lo: int, lo': int, hi: int, hi': int)
    requires lo' <= lo && hi <= hi'
    ensures CountIn(xs, lo, hi) <= CountIn(xs, lo', hi')
  {
    if xs != [] {
      CountMono(xs[..|xs| - 1], lo, lo', hi, hi');
    }
  }

  lemma CountAppend(xs: seq<int>, x: int, lo: int, hi: int)
    ensures CountIn(xs + [x], lo, hi) == CountIn(xs, lo, hi) + if lo < x <= hi then 1 else 0
  {
    assert (xs + [x])[..|xs|] == xs;
  }

  /** The list is the part of the admitted calls that the window ending now still sees. */
  predicate Tracks(s: Serial, now: int, limit: int, window: int) {
    && s.scores == After(s.secs, now - window)
    && AllAtMost(s.secs, now)
    && |s.scores| <= limit
  }

  lemma CallTracks(s: Serial, before: int, ms: int, limit: int, window: int, start: int)
    requires limit >= 1 && window >= 1 && before <= Seconds(ms) && Tracks(s, before, limit, window)
    requires CountIn(s.secs, start, start + window) <= limit
    ensures var t := Call(s, ms, limit, window);
      Tracks(t, Seconds(ms), limit, window) && CountIn(t.secs, start, start + window) <= limit
  {
    hide After, CountIn, Seconds, Min;
    var now := Seconds(ms);
    AfterDropsSome(s.scores, now - window);
    AfterOfAfter(s.secs, before - window, now - window);
    AfterAppend(s.secs, now, now - window);
    CountAppend(s.secs, now, start, start + window);
    CountAfter(s.secs, now - window, now);
    if start < now <= start + window {
      CountMono(s.secs, start, now - window, start + window, start + window);
      CountAfter(s.secs, now - window, start + window);
    }
  }

  /** Every span of `window` clock seconds contains at most `limit` admitted calls. */
  lemma {:induction false} AtMostLimitPerWindow(times: seq<int>, limit: int, window: int, start: int)
    requires limit >= 1 && window >= 1 && Ascending(times)
    ensures var s := Calls(times, limit, window);
      && CountIn(s.secs, start, start + window) <= limit
      && (times != [] ==> Tracks(s, Seconds(times[|times| - 1]), limit, window))
  {
    if times != [] {
      var front, ms := times[..|times| - 1], times[|times| - 1];
      AtMostLimitPerWindow(front, limit, window, start);
      var before := if front == [] then Seconds(ms) else Seconds(front[|front| - 1]);
      hide CountIn, Call;
      if front == [] {
        NothingTracks(Seconds(ms), limit, window);
      }
      CallTracks(Calls(front, limit, window), before, ms, limit, window, start);
    }
  }

  lemma NothingTracks(now: int, limit: int, window: int)
    requires limit >= 1
    ensures Tracks(Serial([], [], []), now, limit, window)
  {
  }

  // ── real time ──

  lemma SecondsOfSpan(ms: int, start: int, span: nat)
    ensures start < ms <= start + span * 1000 + 1 ==>
      Seconds(start + 1) - 1 < Seconds(ms) <= Seconds(start + 1) + span
  {
  }

  lemma SecondsOfCall(s: Serial, ms: int, limit: int, window: int, start: int, span: nat)
    requires CountIn(s.admitted, start, start + span * 1000 + 1)
          <= CountIn(s.secs, Seconds(start + 1) - 1, Seconds(start + 1) + span)
    ensures var t := Call(s, ms, limit, window);
      CountIn(t.admitted, start, start + span * 1000 + 1)
        <= CountIn(t.secs, Seconds(start + 1) - 1, Seconds(start + 1) + span)
  {
    hide CountIn, MemoryCheck, Seconds;
    SecondsOfSpan(ms, start, span);
    CountAppend(s.admitted, ms, start, start + span * 1000 + 1);
    CountAppend(s.secs, Seconds(ms), Seconds(start + 1) - 1, Seconds(start + 1) + span);
  }

  lemma {:induction false} SecondsOfAdmitted(times: seq<int>, limit: int, window: int, start: int, span: nat)
    ensures var s := Calls(times, limit, window);
      CountIn(s.admitted, start, start + span * 1000 + 1)
        <= CountIn(s.secs, Seconds(start + 1) - 1, Seconds(start + 1) + span)
  {
    hide Call, Seconds;
    if times != [] {
      SecondsOfAdmitted(times[..|times| - 1], limit, window, start, span);
      SecondsOfCall(Calls(times[..|times| - 1], limit, window), times[|times| - 1], limit, window, start, span);
    }
  }

  /** In real time the promise holds for spans about one second shorter than the window. */
  lemma AtMostLimitInRealTime(times: seq<int>, limit: int, window: int, start: int)
    requires limit >= 1 && window >= 1 && Ascending(times)
    ensures CountIn(Calls(times, limit, window).admitted, start, start + (window - 1) * 1000 + 1) <= limit
  {
    hide CountIn, Calls;
    SecondsOfAdmitted(times, limit, window, start, window - 1);
    AtMostLimitPerWindow(times, limit, window, Seconds(start + 1) - 1);
  }

  // ── and for none longer ──

  function Repeat(n: nat, x: int): seq<int> {
    seq(n, _ => x)
  }

  lemma RepeatAppend(n: nat, x: int)
    requires n > 0
    ensures Repeat(n, x) == Repeat(n - 1, x) + [x]
  {
  }

  lemma SecondsAtEnds(window: int)
    ensures Seconds(999) == 0 && Seconds(window * 1000) == window
  {
  }

  lemma CallsAppend(times: seq<int>, ms: int, limit: int, window: int)
    ensures Calls(times + [ms], limit, window) == Call(Calls(times, limit, window), ms, limit, window)
  {
    assert (times + [ms])[..|times|] == times;
  }

  /** A call that finds room, with its list already pruned. */
  lemma Admitted(s: Serial, ms: int, limit: int, window: int, within: seq<int>)
    requires After(s.scores, Seconds(ms) - window) == within && |within| < limit
    ensures Call(s, ms, limit, window) == Serial(within + [Seconds(ms)], s.admitted + [ms], s.secs + [Seconds(ms)])
  {
  }

  /** One more call at a moment whose window sees only calls of the same second. */
  lemma OneMore(before: seq<int>, n: nat, ms: int, at: int, limit: int, window: int)
    requires n < limit && window >= 1 && Seconds(ms) == at
    requires After(Calls(before, limit, window).scores, at - window) == Repeat(n, at)
    ensures var s, t := Calls(before, limit, window), Calls(before + [ms], limit, window);
      && t.scores == Repeat(n + 1, at) && t.admitted == s.admitted + [ms]
      && After(t.scores, at - window) == Repeat(n + 1, at)
  {
    hide Calls, Call, After, Seconds;
    CallsAppend(before, ms, limit, window);
    Admitted(Calls(before, limit, window), ms, limit, window, Repeat(n, at));
    RepeatAppend(n + 1, at);
    AfterKeepsAll(Repeat(n + 1, at), at - window);
  }

  lemma NoCalls(limit: int, window: int, x: int, start: int)
    ensures Calls([], limit, window) == Serial([], [], []) && After([], start) == [] && Repeat(0, x) == []
  {
  }

  /** `n` calls at `early`, in second 0. */
  lemma {:induction false} EarlyCalls(n: nat, early: int, limit: int, window: int)
    requires n <= limit && window >= 1 && Seconds(early) == 0
    ensures var s := Calls(Repeat(n, early), limit, window);
      s.scores == After(s.scores, 0 - window) == Repeat(n, 0) && s.admitted == Repeat(n, early)
  {
    hide *;
    if n == 0 {
      NoCalls(limit, window, early, 0 - window);
      NoCalls(limit, window, 0, 0 - window);
    } else {
      EarlyCalls(n - 1, early, limit, window);
      OneMore(Repeat(n - 1, early), n - 1, early, 0, limit, window);
      RepeatAppend(n, early);
    }
  }

  lemma {:induction false} ZerosPass(n: nat)
    ensures After(Repeat(n, 0), 0) == []
  {
    if n > 0 {
      assert Repeat(n, 0)[..n - 1] == Repeat(n - 1, 0);
      ZerosPass(n - 1);
    }
  }

  /** Then `n` calls at `late`, when the window of second 0 has passed. */
  lemma {:induction false} LateCalls(n: nat, early: int, late: int, limit: nat, window: int)
    requires n <= limit && limit >= 1 && window >= 1 && Seconds(early) == 0 && Seconds(late) == window
    ensures var s := Calls(Repeat(limit, early) + Repeat(n, late), limit, window);
      s.admitted == Repeat(limit, early) + Repeat(n, late) && After(s.scores, 0) == Repeat(n, window)
  {
    hide *;
    var before := Repeat(limit, early);
    if n == 0 {
      EarlyCalls(limit, early, limit, window);
      ZerosPass(limit);
      NoCalls(limit, window, late, 0);
      NoCalls(limit, window, window, 0);
      assert before + [] == before;
    } else {
      LateCalls(n - 1, early, late, limit, window);
      OneMore(before + Repeat(n - 1, late), n - 1, late, window, limit, window);
      RepeatAppend(n, late);
      assert before + Repeat(n - 1, late) + [late] == before + Repeat(n, late);
    }
  }

  lemma {:induction false} CountAll(xs: seq<int>, lo: int, hi: int)
    requires forall i | 0 <= i < |xs| :: lo < xs[i] <= hi
    ensures CountIn(xs, lo, hi) == |xs|
  {
    if xs != [] {
      CountAll(xs[..|xs| - 1], lo, hi);
    }
  }

  /** One millisecond more can contain twice the limit, for every limit and window. */
  lemma RealTimeBoundIsTight(limit: nat, window: int) returns (times: seq<int>)
    requires limit >= 1 && window >= 1
    ensures Ascending(times)
    ensures CountIn(Calls(times, limit, window).admitted, 998, 998 + (window - 1) * 1000 + 2) == 2 * limit
  {
    var early: int, late: int :| early == 999 && late == window * 1000;
    times := Repeat(limit, early) + Repeat(limit, late);
    SecondsAtEnds(window);
    LateCalls(limit, early, late, limit, window);
    hide Calls, CountIn, Seconds;
    CountAll(times, 998, 998 + (window - 1) * 1000 + 2);
  }

  predicate SpanFits(times: seq<int>, start: int, span: int, limit: int, window: int) {
    CountIn(Calls(times, limit, window).admitted, start, start + span) <= limit
  }

  /** No serial history puts more than `limit` admitted calls into a span of `span` milliseconds. */
  ghost predicate SpanIsLimited(span: int, limit: int, window: int) {
    forall times: seq<int>, start: int | Ascending(times) :: SpanFits(times, start, span, limit, window)
  }

  /** In real time the promise is kept for spans of up to `(window - 1) * 1000 + 1` milliseconds, and for no others. */
  lemma RealTimeSpanExactly(span: int, limit: nat, window: int)
    requires limit >= 1 && window >= 1
    ensures SpanIsLimited(span, limit, window) <==> span <= (window - 1) * 1000 + 1
  {
    hide Calls, CountIn;
    if span <= (window - 1) * 1000 + 1 {
      forall times: seq<int>, start: int | Ascending(times)
        ensures SpanFits(times, start, span, limit, window)
      {
        AtMostLimitInRealTime(times, limit, window, start);
        CountMono(Calls(times, limit, window).admitted, start, start,
          start + span, start + (window - 1) * 1000 + 1);
      }
    } else {
      var times := RealTimeBoundIsTight(limit, window);
      var admitted := Calls(times, limit, window).admitted;
      CountMono(admitted, 998, 998, 998 + (window - 1) * 1000 + 2, 998 + span);
      assert !SpanFits(times, 998, span, limit, window);
    }
  }

  // ── how long to wait ──

  lemma {:induction false} AfterKeepsAll(xs: seq<int>, start: int)
    requires forall i | 0 <= i < |xs| :: xs[i] > start
    ensures After(xs, start) == xs
  {
    if xs != [] {
      AfterKeepsAll(xs[..|xs| - 1], start);
      assert xs == xs[..|xs| - 1] + [xs[|xs| - 1]];
    }
  }

  lemma {:induction false} AfterDropsSome(xs: seq<int>, start: int)
    ensures |After(xs, start)| <= |xs|
    ensures (exists i | 0 <= i < |xs| :: xs[i] <= start) ==> |After(xs, start)| < |xs|
    ensures forall i | 0 <= i < |After(xs, start)| :: After(xs, start)[i] > start
  {
    if xs != [] {
      AfterDropsSome(xs[..|xs| - 1], start);
    }
  }

  lemma KeptIsFull(scores: seq<int>, ms: int, limit: int, window: int)
    requires limit >= 1 && |scores| <= limit <= |After(scores, Seconds(ms) - window)|
    ensures var kept := After(scores, Seconds(ms) - window);
      && |kept| == limit
      && MemoryCheck(scores, ms, limit, window) == Some((kept, Refuse(Min(kept), Seconds(ms), window)))
  {
    AfterDropsSome(scores, Seconds(ms) - window);
  }

  lemma FullListAnswers(kept: seq<int>, ms: int, limit: int, window: int)
    requires limit >= 1 && |kept| == limit
    ensures var answer := MemoryCheck(kept, ms, limit, window);
      && answer.Some?
      && (Seconds(ms) >= Min(kept) + window ==> answer.value.1.allowed)
      && (Seconds(ms) < Min(kept) + window ==> answer.value == (kept, Refuse(Min(kept), Seconds(ms), window)))
  {
    hide After, Min;
    var i :| 0 <= i < |kept| && kept[i] == Min(kept);
    if Seconds(ms) < Min(kept) + window {
      AfterKeepsAll(kept, Seconds(ms) - window);
    } else {
      assert kept[i] <= Seconds(ms) - window;
      AfterDropsSome(kept, Seconds(ms) - window);
    }
  }

  lemma RetryFromFullList(scores: seq<int>, ms: int, waiting: seq<int>, later: int, limit: int, window: int)
    requires limit >= 1 && |scores| <= limit <= |After(scores, Seconds(ms) - window)|
    requires MemoryCheck(scores, ms, limit, window).Some?
    requires var refused := MemoryCheck(scores, ms, limit, window).value;
      forall i | 0 <= i < |waiting| :: Seconds(waiting[i]) < refused.1.resetAt
    ensures var refused := MemoryCheck(scores, ms, limit, window).value;
      var left := Waited(refused.0, waiting, limit, window);
      && !refused.1.allowed
      && left == Some(refused.0)
      && MemoryCheck(left.value, later, limit, window).Some?
      && (MemoryCheck(left.value, later, limit, window).value.1.allowed <==> Seconds(later) >= refused.1.resetAt)
  {
    KeptIsFull(scores, ms, limit, window);
    var kept := After(scores, Seconds(ms) - window);
    hide After, MemoryCheck, Min, Seconds, Waited;
    WaitingChangesNothing(kept, waiting, limit, window);
    FullListAnswers(kept, later, limit, window);
  }

  /** The list after some calls that were all refused; None if one was not. */
  function Waited(scores: seq<int>, waiting: seq<int>, limit: int, window: int): Option<seq<int>>
    decreases |waiting|
  {
    if waiting == [] then Some(scores)
    else
      match MemoryCheck(scores, waiting[0], limit, window)
      case Some(checked) => if checked.1.allowed then None else Waited(checked.0, waiting[1..], limit, window)
      case None => None
  }

  lemma {:induction false} WaitingChangesNothing(kept: seq<int>, waiting: seq<int>, limit: int, window: int)
    requires limit >= 1 && |kept| == limit
    requires forall i | 0 <= i < |waiting| :: Seconds(waiting[i]) < Min(kept) + window
    ensures Waited(kept, waiting, limit, window) == Some(kept)
    decreases |waiting|
  {
    hide After, MemoryCheck, Min, Seconds;
    if waiting != [] {
      FullListAnswers(kept, waiting[0], limit, window);
      WaitingChangesNothing(kept, waiting[1..], limit, window);
    }
  }

  /**
   * `resetAt` is exact: when a call after any serial history is refused, any
   * number of calls before `resetAt` are refused too, and the next call is
   * admitted exactly when it comes at or after `resetAt`.
   */
  lemma RetryIsExact(times: seq<int>, ms: int, waiting: seq<int>, later: int, limit: int, window: int)
    requires limit >= 1 && window >= 1 && Ascending(times)
    requires var answer := MemoryCheck(Calls(times, limit, window).scores, ms, limit, window);
      && answer.Some? && !answer.value.1.allowed
      && forall i | 0 <= i < |waiting| :: Seconds(waiting[i]) < answer.value.1.resetAt
    ensures var refused := MemoryCheck(Calls(times, limit, window).scores, ms, limit, window).value;
      var left := Waited(refused.0, waiting, limit, window);
      && left.Some?
      && MemoryCheck(left.value, later, limit, window).Some?
      && (MemoryCheck(left.value, later, limit, window).value.1.allowed <==> Seconds(later) >= refused.1.resetAt)
  {
    AtMostLimitPerWindow(times, limit, window, 0);
    hide Calls, After, Waited, Min;
    RetryFromFullList(Calls(times, limit, window).scores, ms, waiting, later, limit, window);
  }

  /** The calls of a history that the window ending at `now` still sees. */
  function Used(s: Serial, now: int, window: int): nat {
    CountIn(s.secs, now - window, now)
  }

  lemma WithinIsUsed(s: Serial, before: int, now: int, limit: int, window: int)
    requires Tracks(s, before, limit, window) && before <= now
    ensures |After(s.scores, now - window)| == Used(s, now, window)
  {
    AfterOfAfter(s.secs, before - window, now - window);
    CountAfter(s.secs, now - window, now);
    hide After, CountIn;
  }

  /** `remaining` and `retryAfter` tell the truth about the window, counted by the calls let through. */
  predicate TellsTheTruth(s: Serial, d: Decision, now: int, limit: int, window: int) {
    if d.allowed then
      && d.remaining == limit - (Used(s, now, window) + 1) >= 0
      && d.resetAt == now + window && d.retryAfter == None
    else
      && Used(s, now, window) == limit && d.remaining == 0
      && d.resetAt > now && d.retryAfter == Some(d.resetAt - now)
  }

  lemma RefusalTellsTheTruth(s: Serial, ms: int, limit: int, window: int)
    requires limit >= 1 && |s.scores| <= limit <= |After(s.scores, Seconds(ms) - window)|
    requires |After(s.scores, Seconds(ms) - window)| == Used(s, Seconds(ms), window)
    ensures var answer := MemoryCheck(s.scores, ms, limit, window);
      answer.Some? && TellsTheTruth(s, answer.value.1, Seconds(ms), limit, window)
  {
    KeptIsFull(s.scores, ms, limit, window);
    AfterDropsSome(s.scores, Seconds(ms) - window);
    hide After, Used, Seconds, MemoryCheck, Min;
    var within := After(s.scores, Seconds(ms) - window);
    var i :| 0 <= i < |within| && within[i] == Min(within);
  }

  lemma AdmissionTellsTheTruth(s: Serial, ms: int, limit: int, window: int)
    requires |After(s.scores, Seconds(ms) - window)| < limit
    requires |After(s.scores, Seconds(ms) - window)| == Used(s, Seconds(ms), window)
    ensures var answer := MemoryCheck(s.scores, ms, limit, window);
      answer.Some? && TellsTheTruth(s, answer.value.1, Seconds(ms), limit, window)
  {
    hide After, Used, Seconds, Min;
  }

  lemma CheckTellsTheTruth(s: Serial, before: int, ms: int, limit: int, window: int)
    requires limit >= 1 && window >= 1 && Tracks(s, before, limit, window) && before <= Seconds(ms)
    ensures var answer := MemoryCheck(s.scores, ms, limit, window);
      answer.Some? && TellsTheTruth(s, answer.value.1, Seconds(ms), limit, window)
  {
    WithinIsUsed(s, before, Seconds(ms), limit, window);
    hide After, Used, Seconds, MemoryCheck, TellsTheTruth;
    if |After(s.scores, Seconds(ms) - window)| >= limit {
      RefusalTellsTheTruth(s, ms, limit, window);
    } else {
      AdmissionTellsTheTruth(s, ms, limit, window);
    }
  }

  /**
   * Every answer in every serial history is exact: an admitted call is told how
   * many places are left, a refused one that the window is full and, to the
   * second, how long it stays so.
   */
  lemma AnswersAreExact(times: seq<int>, ms: int, limit: int, window: int)
    requires limit >= 1 && window >= 1 && Ascending(times + [ms])
    ensures var s := Calls(times, limit, window);
      var answer := MemoryCheck(s.scores, ms, limit, window);
      answer.Some? && TellsTheTruth(s, answer.value.1, Seconds(ms), limit, window)
  {
    assert forall i | 0 <= i < |times| :: (times + [ms])[i] == times[i];
    AtMostLimitPerWindow(times, limit, window, 0);
    var before := if times == [] then Seconds(ms) else Seconds(times[|times| - 1]);
    if times == [] {
      NothingTracks(before, limit, window);
    } else {
      assert (times + [ms])[|times| - 1] <= (times + [ms])[|times|];
    }
    hide TellsTheTruth, MemoryCheck, Tracks;
    CheckTellsTheTruth(Calls(times, limit, window), before, ms, limit, window);
  }
}

/** The two stores on one history, and histories that switch between them. */
module TwoStores {
  import opened Wrappers
  import opened SlidingWindow
  import opened SlidingWindowHistory

  // ── one history, either store ──

  datatype Both = Both(z: Zset, list: seq<int>, viaRedis: seq<Decision>, viaMemory: seq<Option<Decision>>)

  function RunBoth(times: seq<int>, limit: int, window: int): Both {
    if times == [] then Both(NO_KEY, [], [], [])
    else
      var b, ms := RunBoth(times[..|times| - 1], limit, window), times[|times| - 1];
      var redis := RedisCheck(b.z, ms, limit, window);
      match MemoryCheck(b.list, ms, limit, window)
      case Some(memory) => Both(redis.0, memory.0, b.viaRedis + [redis.1], b.viaMemory + [Some(memory.1)])
      case None => Both(redis.0, b.list, b.viaRedis + [redis.1], b.viaMemory + [None])
  }

  /** The stores hold the same scores, and the key outlives every one of them. */
  predicate Same(z: Zset, list: seq<int>, ms: int, window: int) {
    && z.scores == list && Ascending(list) && AllAtMost(list, Seconds(ms))
    && (z.expiresAt.Some? ==> forall i | 0 <= i < |list| :: (list[i] + window) * 1000 <= z.expiresAt.value)
  }

  lemma {:induction false} AfterAscends(xs: seq<int>, start: int, top: int)
    requires Ascending(xs) && AllAtMost(xs, top)
    ensures Ascending(After(xs, start)) && AllAtMost(After(xs, start), top)
    ensures forall i | 0 <= i < |After(xs, start)| :: After(xs, start)[i] in xs
  {
    if xs != [] {
      AfterAscends(xs[..|xs| - 1], start, xs[|xs| - 1]);
      AfterAscends(xs[..|xs| - 1], start, top);
    }
  }

  lemma {:induction false} NoneAfter(xs: seq<int>, start: int)
    requires AllAtMost(xs, start)
    ensures After(xs, start) == []
  {
    if xs != [] {
      NoneAfter(xs[..|xs| - 1], start);
    }
  }

  /** Key expiry never takes a score the window still counts. */
  lemma ExpiryIsHarmless(z: Zset, list: seq<int>, ms: int, window: int)
    requires z.scores == list
    requires z.expiresAt.Some? ==> forall i | 0 <= i < |list| :: (list[i] + window) * 1000 <= z.expiresAt.value
    ensures After(Live(z, ms).scores, Seconds(ms) - window) == After(list, Seconds(ms) - window)
  {
    if Live(z, ms) != z {
      NoneAfter(list, Seconds(ms) - window);
    }
  }

  lemma PruneKeepsScores(z: Zset, max: int)
    ensures ZRemRangeByScore(z, max).scores == After(z.scores, max)
    ensures ZRemRangeByScore(z, max).expiresAt == None || ZRemRangeByScore(z, max).expiresAt == z.expiresAt
  {
  }

  lemma InsertLast(xs: seq<int>, x: int)
    requires AllAtMost(xs, x)
    ensures Insert(xs, x) == xs + [x]
  {
  }

  lemma MinIsFirst(xs: seq<int>)
    requires Ascending(xs) && xs != []
    ensures Min(xs) == xs[0]
  {
    hide Min;
  }

  lemma PruneAgrees(z: Zset, list: seq<int>, before: int, ms: int, window: int)
    requires before <= ms && Same(z, list, before, window)
    ensures Same(ZRemRangeByScore(Live(z, ms), Seconds(ms) - window), After(list, Seconds(ms) - window), ms, window)
  {
    ExpiryIsHarmless(z, list, ms, window);
    PruneKeepsScores(Live(z, ms), Seconds(ms) - window);
    assert AllAtMost(list, Seconds(ms));
    AfterAscends(list, Seconds(ms) - window, Seconds(ms));
    hide After, ZRemRangeByScore, Seconds;
  }

  lemma AddAgrees(list: seq<int>, z: Zset, ms: int, window: int)
    requires Same(z, list, ms, window)
    ensures Same(Zset(list + [Seconds(ms)], Some(ms + window * 1000)), list + [Seconds(ms)], ms, window)
  {
    assert Seconds(ms) * 1000 <= ms;
    hide Seconds;
  }

  lemma CheckAgrees(z: Zset, list: seq<int>, before: int, ms: int, limit: int, window: int)
    requires limit >= 1 && window >= 1 && before <= ms && Same(z, list, before, window)
    ensures var redis, memory := RedisCheck(z, ms, limit, window), MemoryCheck(list, ms, limit, window);
      memory.Some? && redis.1 == memory.value.1 && Same(redis.0, memory.value.0, ms, window)
  {
    PruneAgrees(z, list, before, ms, window);
    var within := After(list, Seconds(ms) - window);
    InsertLast(within, Seconds(ms));
    if within != [] {
      MinIsFirst(within);
    }
    AddAgrees(within, ZRemRangeByScore(Live(z, ms), Seconds(ms) - window), ms, window);
    assert within == ZRemRangeByScore(Live(z, ms), Seconds(ms) - window).scores;
    hide After, ZRemRangeByScore, Live, Insert, Min, Seconds, Same;
  }

  /** With a positive limit both stores give the same answer to every call of every serial history. */
  lemma {:induction false} StoresAgree(times: seq<int>, limit: int, window: int)
    requires limit >= 1 && window >= 1 && Ascending(times)
    ensures var b := RunBoth(times, limit, window);
      && |b.viaRedis| == |b.viaMemory| == |times|
      && (forall i | 0 <= i < |times| :: b.viaMemory[i] == Some(b.viaRedis[i]))
      && (if times == [] then b.z == NO_KEY && b.list == [] else Same(b.z, b.list, times[|times| - 1], window))
  {
    if times != [] {
      var front, ms := times[..|times| - 1], times[|times| - 1];
      StoresAgree(front, limit, window);
      var b := RunBoth(front, limit, window);
      hide RedisCheck, MemoryCheck;
      CheckAgrees(b.z, b.list, if front == [] then ms else front[|front| - 1], ms, limit, window);
    }
  }

  /**
   * Without one they never do: in every history Redis refuses every call, while
   * the memory list has no oldest entry and every call throws.
   */
  lemma {:induction false} StoresDisagreeWithoutLimit(times: seq<int>, limit: int, window: int)
    requires limit <= 0
    ensures var b := RunBoth(times, limit, window);
      && |b.viaRedis| == |b.viaMemory| == |times|
      && (forall i | 0 <= i < |times| :: !b.viaRedis[i].allowed && b.viaMemory[i] == None)
      && b.z.scores == [] && b.list == []
  {
    if times != [] {
      StoresDisagreeWithoutLimit(times[..|times| - 1], limit, window);
    }
  }

  // ── switching stores ──

  /** How far the Redis commands of a call got before one of them failed. */
  datatype Progress = Nothing | Pruned | Added | Expiring

  /** A call Redis answers, or one that falls back to the memory list. */
  datatype Route = Redis | Fallback(ran: Progress)

  /** `viaRedis` and `viaMemory` are the clock seconds of the calls each store admitted. */
  datatype Switching = Switching(z: Zset, list: seq<int>, viaRedis: seq<int>, viaMemory: seq<int>)

  /** The set a call leaves when its commands stop after `ran`; only a call with room adds. */
  function Leftover(z: Zset, ms: int, ran: Progress, limit: int, window: int): Zset {
    var pruned := ZRemRangeByScore(Live(z, ms), Seconds(ms) - window);
    if ran == Nothing then z
    else if ran == Pruned || |pruned.scores| >= limit then pruned
    else
      var added := pruned.(scores := Insert(pruned.scores, Seconds(ms)));
      if ran == Added then added else added.(expiresAt := Some(ms + window * 1000))
  }

  function SwitchingCall(s: Switching, ms: int, route: Route, limit: int, window: int): Switching {
    match route
    case Redis =>
      var answer := RedisCheck(s.z, ms, limit, window);
      s.(z := answer.0, viaRedis := if answer.1.allowed then s.viaRedis + [Seconds(ms)] else s.viaRedis)
    case Fallback(ran) =>
      var t := s.(z := Leftover(s.z, ms, ran, limit, window));
      match MemoryCheck(s.list, ms, limit, window)
      case Some(answer) =>
        t.(list := answer.0, viaMemory := if answer.1.allowed then s.viaMemory + [Seconds(ms)] else s.viaMemory)
      case None => t
  }

  function RunSwitching(times: seq<int>, routes: seq<Route>, limit: int, window: int): Switching
    requires |times| == |routes|
  {
    if times == [] then Switching(NO_KEY, [], [], [])
    else
      var n := |times| - 1;
      SwitchingCall(RunSwitching(times[..n], routes[..n], limit, window), times[n], routes[n], limit, window)
  }

  predicate Counted(admitted: seq<int>, scores: seq<int>, start: int) {
    |After(admitted, start)| <= |After(scores, start)|
  }

  /**
   * From the start of the window on, the sorted set counts at least what Redis
   * admitted, and its key expires no earlier than the last of it.
   */
  ghost predicate Covers(z: Zset, admitted: seq<int>, now: int, window: int) {
    && (forall start | start >= now - window :: Counted(admitted, z.scores, start))
    && (z.expiresAt.Some? ==> forall i | 0 <= i < |admitted| :: (admitted[i] + window) * 1000 <= z.expiresAt.value)
    && AllAtMost(admitted, now)
  }

  /** The memory list stays as the last fallback left it. */
  ghost predicate ListTracks(s: Switching, now: int, limit: int, window: int) {
    exists last | last <= now :: Tracks(Serial(s.list, [], s.viaMemory), last, limit, window)
  }

  lemma {:induction false} AfterInsert(xs: seq<int>, x: int, start: int)
    ensures |After(Insert(xs, x), start)| == |After(xs, start)| + if x > start then 1 else 0
  {
    if xs == [] || xs[|xs| - 1] <= x {
      AfterAppend(xs, x, start);
    } else {
      AfterInsert(xs[..|xs| - 1], x, start);
      AfterAppend(Insert(xs[..|xs| - 1], x), xs[|xs| - 1], start);
    }
  }

  lemma LiveCounts(z: Zset, admitted: seq<int>, before: int, ms: int, window: int, start: int)
    requires Covers(z, admitted, before, window) && before <= Seconds(ms) && start >= Seconds(ms) - window
    ensures Counted(admitted, Live(z, ms).scores, start)
  {
    if Live(z, ms) == z {
      assert start >= before - window;
    } else {
      assert AllAtMost(admitted, start);
      NoneAfter(admitted, start);
    }
  }

  lemma PruneCovers(z: Zset, admitted: seq<int>, before: int, ms: int, window: int)
    requires Covers(z, admitted, before, window) && before <= Seconds(ms)
    ensures Covers(z, admitted, Seconds(ms), window)
    ensures Covers(ZRemRangeByScore(Live(z, ms), Seconds(ms) - window), admitted, Seconds(ms), window)
    ensures |After(admitted, Seconds(ms) - window)| <= |ZRemRangeByScore(Live(z, ms), Seconds(ms) - window).scores|
  {
    var from := Seconds(ms) - window;
    var live := Live(z, ms);
    PruneKeepsScores(live, from);
    forall start | start >= from
      ensures Counted(admitted, After(live.scores, from), start)
    {
      AfterOfAfter(live.scores, from, start);
      LiveCounts(z, admitted, before, ms, window, start);
    }
    LiveCounts(z, admitted, before, ms, window, from);
    hide After, ZRemRangeByScore, Seconds;
  }

  lemma InsertCovers(z: Zset, admitted: seq<int>, ms: int, window: int)
    requires Covers(z, admitted, Seconds(ms), window)
    ensures var added := Insert(z.scores, Seconds(ms));
      && Covers(z.(scores := added), admitted, Seconds(ms), window)
      && Covers(Zset(added, Some(ms + window * 1000)), admitted, Seconds(ms), window)
      && Covers(Zset(added, Some(ms + window * 1000)), admitted + [Seconds(ms)], Seconds(ms), window)
  {
    var now := Seconds(ms);
    assert now * 1000 <= ms;
    hide After, Insert, Seconds;
    forall start | start >= now - window
      ensures Counted(admitted, Insert(z.scores, now), start)
      ensures Counted(admitted + [now], Insert(z.scores, now), start)
    {
      assert Counted(admitted, z.scores, start);
      AfterInsert(z.scores, now, start);
      AfterAppend(admitted, now, start);
    }
  }

  lemma RedisCovers(s: Switching, before: int, ms: int, route: Route, limit: int, window: int, start: int)
    requires limit >= 1 && window >= 1 && before <= Seconds(ms)
    requires Covers(s.z, s.viaRedis, before, window)
    requires CountIn(s.viaRedis, start, start + window) <= limit
    ensures var t := SwitchingCall(s, ms, route, limit, window);
      Covers(t.z, t.viaRedis, Seconds(ms), window) && CountIn(t.viaRedis, start, start + window) <= limit
  {
    var now := Seconds(ms);
    var pruned := ZRemRangeByScore(Live(s.z, ms), now - window);
    PruneCovers(s.z, s.viaRedis, before, ms, window);
    InsertCovers(pruned, s.viaRedis, ms, window);
    hide After, CountIn, ZRemRangeByScore, Insert, Seconds, MemoryCheck, Covers, Live;
    CountAppend(s.viaRedis, now, start, start + window);
    if start < now <= start + window {
      CountMono(s.viaRedis, start, now - window, start + window, start + window);
      CountAfter(s.viaRedis, now - window, start + window);
    }
  }

  lemma FallbackTracks(s: Switching, before: int, ms: int, route: Route, limit: int, window: int, start: int)
    requires limit >= 1 && window >= 1 && before <= Seconds(ms)
    requires ListTracks(s, before, limit, window)
    requires CountIn(s.viaMemory, start, start + window) <= limit
    ensures var t := SwitchingCall(s, ms, route, limit, window);
      ListTracks(t, Seconds(ms), limit, window) && CountIn(t.viaMemory, start, start + window) <= limit
  {
    var t := SwitchingCall(s, ms, route, limit, window);
    var last :| last <= before && Tracks(Serial(s.list, [], s.viaMemory), last, limit, window);
    hide CountIn, RedisCheck, Leftover;
    if route.Redis? {
      assert Tracks(Serial(t.list, [], t.viaMemory), last, limit, window);
    } else {
      CallTracks(Serial(s.list, [], s.viaMemory), last, ms, limit, window, start);
      assert Serial(t.list, [], t.viaMemory)
        == Call(Serial(s.list, [], s.viaMemory), ms, limit, window).(admitted := []);
      assert Tracks(Serial(t.list, [], t.viaMemory), Seconds(ms), limit, window);
    }
  }

  /**
   * Calls that switch between the stores in any way, whatever Redis had already
   * done when it failed: each store keeps its own promise, so a span of `window`
   * clock seconds contains at most twice `limit` admitted calls.
   */
  lemma {:induction false} SwitchingAdmitsTwice(
      times: seq<int>, routes: seq<Route>, limit: int, window: int, start: int)
    requires limit >= 1 && window >= 1 && Ascending(times) && |times| == |routes|
    ensures var s := RunSwitching(times, routes, limit, window);
      && CountIn(s.viaRedis, start, start + window) <= limit
      && CountIn(s.viaMemory, start, start + window) <= limit
      && CountIn(s.viaRedis, start, start + window) + CountIn(s.viaMemory, start, start + window) <= 2 * limit
    ensures times != [] ==>
      var s, now := RunSwitching(times, routes, limit, window), Seconds(times[|times| - 1]);
      Covers(s.z, s.viaRedis, now, window) && ListTracks(s, now, limit, window)
  {
    if times != [] {
      var n := |times| - 1;
      SwitchingAdmitsTwice(times[..n], routes[..n], limit, window, start);
      var s := RunSwitching(times[..n], routes[..n], limit, window);
      var before := if n == 0 then Seconds(times[0]) else Seconds(times[n - 1]);
      if n == 0 {
        NothingTracks(before, limit, window);
        assert Tracks(Serial(s.list, [], s.viaMemory), before, limit, window);
      }
      hide CountIn, SwitchingCall;
      RedisCovers(s, before, times[n], routes[n], limit, window, start);
      FallbackTracks(s, before, times[n], routes[n], limit, window, start);
    }
  }

  // ── the bound is met ──

  /** `n` calls that Redis answers, then `m` that fall back before it has done anything. */
  function FailOver(n: nat, m: nat): seq<Route> {
    seq(n + m, i => if i < n then Redis else Fallback(Nothing))
  }

  lemma SwitchingAppend(times: seq<int>, routes: seq<Route>, ms: int, route: Route, limit: int, window: int)
    requires |times| == |routes|
    ensures RunSwitching(times + [ms], routes + [route], limit, window)
      == SwitchingCall(RunSwitching(times, routes, limit, window), ms, route, limit, window)
  {
    assert (times + [ms])[..|times|] == times && (routes + [route])[..|routes|] == routes;
  }

  /** The state after `n` calls through Redis and `m` through the list, all at one moment. */
  predicate Filled(s: Switching, n: nat, m: nat, ms: int, window: int) {
    && s.z.scores == s.viaRedis == Repeat(n, Seconds(ms))
    && (s.z.expiresAt == None || s.z.expiresAt == Some(ms + window * 1000))
    && s.list == s.viaMemory == Repeat(m, Seconds(ms))
  }

  lemma RedisFills(s: Switching, n: nat, ms: int, limit: int, window: int)
    requires Filled(s, n, 0, ms, window) && n < limit && window >= 1
    ensures Filled(SwitchingCall(s, ms, Redis, limit, window), n + 1, 0, ms, window)
  {
    AfterKeepsAll(Repeat(n, Seconds(ms)), Seconds(ms) - window);
    InsertLast(Repeat(n, Seconds(ms)), Seconds(ms));
    RepeatAppend(n + 1, Seconds(ms));
    hide After, Insert, Seconds, MemoryCheck, Leftover;
    assert Live(s.z, ms) == s.z;
    assert ZRemRangeByScore(s.z, Seconds(ms) - window).scores == Repeat(n, Seconds(ms));
    hide ZRemRangeByScore, Live, Repeat;
  }

  lemma ListAdmits(m: nat, ms: int, limit: int, window: int)
    requires m < limit && window >= 1
    ensures MemoryCheck(Repeat(m, Seconds(ms)), ms, limit, window)
      == Some((Repeat(m + 1, Seconds(ms)), Admit(m, Seconds(ms), limit, window)))
  {
    RepeatIs(m, Seconds(ms), Seconds(ms) - window);
    hide *;
    AfterKeepsAll(Repeat(m, Seconds(ms)), Seconds(ms) - window);
    RepeatAppend(m + 1, Seconds(ms));
    MemoryAdmits(Repeat(m, Seconds(ms)), Repeat(m, Seconds(ms)), ms, limit, window);
  }

  lemma RepeatIs(n: nat, x: int, below: int)
    ensures |Repeat(n, x)| == n && (below < x ==> forall i | 0 <= i < n :: Repeat(n, x)[i] > below)
  {
  }

  lemma MemoryAdmits(scores: seq<int>, within: seq<int>, ms: int, limit: int, window: int)
    requires After(scores, Seconds(ms) - window) == within && |within| < limit
    ensures MemoryCheck(scores, ms, limit, window)
      == Some((within + [Seconds(ms)], Admit(|within|, Seconds(ms), limit, window)))
  {
    hide After, Seconds, Admit;
  }

  lemma ListFills(s: Switching, n: nat, m: nat, ms: int, limit: int, window: int)
    requires Filled(s, n, m, ms, window) && m < limit && window >= 1
    ensures Filled(SwitchingCall(s, ms, Fallback(Nothing), limit, window), n, m + 1, ms, window)
  {
    ListAdmits(m, ms, limit, window);
    RepeatAppend(m + 1, Seconds(ms));
    hide After, Seconds, RedisCheck, MemoryCheck, Repeat;
  }

  lemma FillStep(times: seq<int>, routes: seq<Route>, n: nat, m: nat, ms: int, viaRedis: bool, limit: int, window: int)
    requires |times| == |routes| && window >= 1
    requires Filled(RunSwitching(times, routes, limit, window), n, m, ms, window)
    requires if viaRedis then n < limit && m == 0 else m < limit
    ensures var route := if viaRedis then Redis else Fallback(Nothing);
      Filled(RunSwitching(times + [ms], routes + [route], limit, window),
             n + if viaRedis then 1 else 0, m + if viaRedis then 0 else 1, ms, window)
  {
    hide *;
    if viaRedis {
      SwitchingAppend(times, routes, ms, Redis, limit, window);
      RedisFills(RunSwitching(times, routes, limit, window), n, ms, limit, window);
    } else {
      SwitchingAppend(times, routes, ms, Fallback(Nothing), limit, window);
      ListFills(RunSwitching(times, routes, limit, window), n, m, ms, limit, window);
    }
  }

  lemma FailOverAppend(n: nat, m: nat)
    ensures |FailOver(n, m)| == n + m
    ensures FailOver(n, m + 1) == FailOver(n, m) + [Fallback(Nothing)]
    ensures FailOver(n + 1, 0) == FailOver(n, 0) + [Redis]
  {
  }

  lemma NothingFilled(ms: int, limit: int, window: int, zero: nat)
    requires zero == 0
    ensures Repeat(zero, ms) == [] && FailOver(zero, zero) == []
    ensures Filled(RunSwitching([], [], limit, window), zero, zero, ms, window)
  {
  }

  lemma {:induction false} FailOverFills(n: nat, m: nat, ms: int, limit: int, window: int)
    requires n <= limit && m <= limit && window >= 1
    ensures |Repeat(n + m, ms)| == |FailOver(n, m)|
    ensures Filled(RunSwitching(Repeat(n + m, ms), FailOver(n, m), limit, window), n, m, ms, window)
    decreases n + m
  {
    hide *;
    if m > 0 {
      FailOverFills(n, m - 1, ms, limit, window);
      FillStep(Repeat(n + m - 1, ms), FailOver(n, m - 1), n, m - 1, ms, false, limit, window);
      FailOverAppend(n, m - 1);
      RepeatAppend(n + m, ms);
    } else if n > 0 {
      FailOverFills(n - 1, m, ms, limit, window);
      FillStep(Repeat(n - 1, ms), FailOver(n - 1, m), n - 1, m, ms, true, limit, window);
      FailOverAppend(n - 1, m);
      RepeatAppend(n, ms);
    } else {
      NothingFilled(ms, limit, window, n);
    }
  }

  lemma FilledCounts(s: Switching, n: nat, m: nat, ms: int, window: int)
    requires Filled(s, n, m, ms, window) && window >= 1
    ensures CountIn(s.viaRedis, Seconds(ms) - 1, Seconds(ms) - 1 + window) == n
    ensures CountIn(s.viaMemory, Seconds(ms) - 1, Seconds(ms) - 1 + window) == m
  {
    CountAll(Repeat(n, Seconds(ms)), Seconds(ms) - 1, Seconds(ms) - 1 + window);
    CountAll(Repeat(m, Seconds(ms)), Seconds(ms) - 1, Seconds(ms) - 1 + window);
    hide CountIn, Seconds;
  }

  /** For every limit and window some calls in one second reach the bound, when Redis fails halfway. */
  lemma SwitchingDoubles(ms: int, limit: nat, window: int) returns (times: seq<int>, routes: seq<Route>)
    requires limit >= 1 && window >= 1
    ensures |times| == |routes| && Ascending(times)
    ensures var s := RunSwitching(times, routes, limit, window);
      CountIn(s.viaRedis, Seconds(ms) - 1, Seconds(ms) - 1 + window)
        + CountIn(s.viaMemory, Seconds(ms) - 1, Seconds(ms) - 1 + window) == 2 * limit
  {
    times, routes := Repeat(limit + limit, ms), FailOver(limit, limit);
    assert Ascending(times);
    hide *;
    FailOverFills(limit, limit, ms, limit, window);
    FilledCounts(RunSwitching(times, routes, limit, window), limit, limit, ms, window);
  }
}

/** Callers whose Redis commands interleave on one key; a call is not one transaction. */
module InterleavedChecks {
  import opened Wrappers
  import opened SlidingWindow
  import opened SlidingWindowHistory
  import opened TwoStores

  /** Where a caller stands between two commands, with the second it read the clock. */
  datatype Pc = Idle | Started(now: int) | Trimmed(now: int) | Passed(now: int) | Stored(now: int)

  /** `Fail` is a command that throws, whether or not Redis ran it. */
  datatype Action =
    | Tick(passed: nat)
    | Start(c: nat)
    | Prune(c: nat)
    | Count(c: nat)
    | Add(c: nat)
    | Expire(c: nat)
    | Fail(c: nat)

  datatype System = System(z: Zset, ms: int, pcs: seq<Pc>)

  predicate Enabled(s: System, a: Action) {
    a.Tick? || (a.c < |s.pcs| && match a
      case Start(c) => s.pcs[c].Idle?
      case Prune(c) => s.pcs[c].Started?
      case Count(c) => s.pcs[c].Trimmed?
      case Add(c) => s.pcs[c].Passed?
      case Expire(c) => s.pcs[c].Stored?
      case Fail(c) => !s.pcs[c].Idle?
      case Tick(_) => true)
  }

  /** One command; the first thing Redis does is to drop a key that has expired. */
  function Apply(s: System, a: Action, limit: int, window: int): System
    requires Enabled(s, a)
  {
    var z := Live(s.z, s.ms);
    match a
    case Tick(passed) => s.(ms := s.ms + passed)
    case Start(c) => s.(pcs := s.pcs[c := Started(Seconds(s.ms))])
    case Prune(c) =>
      s.(z := ZRemRangeByScore(z, s.pcs[c].now - window), pcs := s.pcs[c := Trimmed(s.pcs[c].now)])
    case Count(c) => s.(z := z, pcs := s.pcs[c := if |z.scores| >= limit then Idle else Passed(s.pcs[c].now)])
    case Add(c) => s.(z := z.(scores := Insert(z.scores, s.pcs[c].now)), pcs := s.pcs[c := Stored(s.pcs[c].now)])
    case Expire(c) =>
      s.(z := if z.scores == [] then z else z.(expiresAt := Some(s.ms + window * 1000)), pcs := s.pcs[c := Idle])
    case Fail(c) => s.(pcs := s.pcs[c := Idle])
  }

  /** A run of `k` callers; an action that is not enabled does not happen. */
  function Run(k: nat, actions: seq<Action>, limit: int, window: int): System {
    if actions == [] then System(NO_KEY, 0, seq(k, _ => Idle))
    else
      var s, a := Run(k, actions[..|actions| - 1], limit, window), actions[|actions| - 1];
      if Enabled(s, a) then Apply(s, a, limit, window) else s
  }

  /** A call that nothing interrupts. */
  function Uninterrupted(s: System, c: nat, limit: int, window: int): System
    requires c < |s.pcs| && s.pcs[c].Idle?
  {
    var counted := Apply(Apply(Apply(s, Start(c), limit, window), Prune(c), limit, window), Count(c), limit, window);
    if counted.pcs[c].Passed? then Apply(Apply(counted, Add(c), limit, window), Expire(c), limit, window) else counted
  }

  lemma PrunedIsLive(z: Zset, ms: int, max: int)
    ensures var pruned := ZRemRangeByScore(Live(z, ms), max);
      Live(pruned, ms) == pruned
  {
    hide After, Insert;
  }

  lemma InsertedIsLive(z: Zset, ms: int, score: int)
    requires Live(z, ms) == z
    ensures Live(z.(scores := Insert(z.scores, score)), ms) == z.(scores := Insert(z.scores, score))
    ensures Insert(z.scores, score) != []
  {
  }

  /** Its commands do to the set what the limiter's call does, and it passes exactly when that admits it. */
  lemma UninterruptedIsRedisCheck(s: System, c: nat, limit: int, window: int)
    requires c < |s.pcs| && s.pcs[c].Idle? && limit >= 1
    ensures Uninterrupted(s, c, limit, window)
      == s.(z := RedisCheck(s.z, s.ms, limit, window).0)
    ensures RedisCheck(s.z, s.ms, limit, window).1.allowed
      <==> Apply(Apply(Apply(s, Start(c), limit, window), Prune(c), limit, window), Count(c), limit, window)
             .pcs[c].Passed?
  {
    var now := Seconds(s.ms);
    var pruned := ZRemRangeByScore(Live(s.z, s.ms), now - window);
    PrunedIsLive(s.z, s.ms, now - window);
    InsertedIsLive(pruned, s.ms, now);
    hide Live, ZRemRangeByScore, Insert, Seconds;
    var one := s.pcs[c := Started(now)];
    assert one[c := Trimmed(now)] == s.pcs[c := Trimmed(now)];
    assert s.pcs[c := Trimmed(now)][c := Passed(now)] == s.pcs[c := Passed(now)];
    assert s.pcs[c := Trimmed(now)][c := Idle] == s.pcs;
    assert s.pcs[c := Passed(now)][c := Stored(now)] == s.pcs[c := Stored(now)];
    assert s.pcs[c := Stored(now)][c := Idle] == s.pcs;
  }

  /** Callers that have seen room and not yet taken it. */
  function PassedIn(pcs: seq<Pc>): nat {
    if pcs == [] then 0
    else PassedIn(pcs[..|pcs| - 1]) + if pcs[|pcs| - 1].Passed? then 1 else 0
  }

  lemma {:induction false} PassedUpdate(pcs: seq<Pc>, c: nat, pc: Pc)
    requires c < |pcs|
    ensures PassedIn(pcs[c := pc]) == PassedIn(pcs) - (if pcs[c].Passed? then 1 else 0) + if pc.Passed? then 1 else 0
  {
    var n := |pcs| - 1;
    if c == n {
      assert pcs[c := pc][..n] == pcs[..n];
    } else {
      assert pcs[c := pc][..n] == pcs[..n][c := pc];
      PassedUpdate(pcs[..n], c, pc);
    }
  }

  lemma {:induction false} PassedAtMostAll(pcs: seq<Pc>)
    ensures PassedIn(pcs) <= |pcs|
  {
    if pcs != [] {
      PassedAtMostAll(pcs[..|pcs| - 1]);
    }
  }

  lemma {:induction false} NonePassed(k: nat)
    ensures PassedIn(seq(k, _ => Idle)) == 0
  {
    if k > 0 {
      assert seq(k, _ => Idle)[..k - 1] == seq(k - 1, _ => Idle);
      NonePassed(k - 1);
    }
  }

  lemma {:induction false} InsertGrows(xs: seq<int>, x: int)
    ensures |Insert(xs, x)| == |xs| + 1
  {
    if xs != [] {
      InsertGrows(xs[..|xs| - 1], x);
    }
  }

  lemma {:induction false} AfterShrinks(xs: seq<int>, start: int)
    ensures |After(xs, start)| <= |xs|
  {
    if xs != [] {
      AfterShrinks(xs[..|xs| - 1], start);
    }
  }

  /** Members, and members on their way, stay within the limit and one overshoot per other caller. */
  predicate Bounded(s: System, k: nat, limit: int) {
    |s.pcs| == k && |s.z.scores| + PassedIn(s.pcs) <= limit + k - 1
  }

  lemma StepBounded(s: System, a: Action, k: nat, limit: int, window: int)
    requires limit >= 1 && k >= 1 && Enabled(s, a) && Bounded(s, k, limit)
    ensures Bounded(Apply(s, a, limit, window), k, limit)
  {
    hide PassedIn, Insert, After, Seconds;
    var z := Live(s.z, s.ms);
    if !a.Tick? {
      var pcs := Apply(s, a, limit, window).pcs;
      assert pcs == s.pcs[a.c := pcs[a.c]];
      PassedUpdate(s.pcs, a.c, pcs[a.c]);
      PassedAtMostAll(pcs);
      InsertGrows(z.scores, if a.Add? then s.pcs[a.c].now else 0);
      AfterShrinks(z.scores, if a.Prune? then s.pcs[a.c].now - window else 0);
    }
  }

  /** However `k` callers interleave, and wherever they fail, the set holds at most `limit + k - 1` members. */
  lemma {:induction false} SetStaysBounded(k: nat, actions: seq<Action>, limit: int, window: int)
    requires limit >= 1 && k >= 1
    ensures Bounded(Run(k, actions, limit, window), k, limit)
    ensures |Run(k, actions, limit, window).z.scores| <= limit + k - 1
  {
    if actions == [] {
      NonePassed(k);
    } else {
      var n := |actions| - 1;
      SetStaysBounded(k, actions[..n], limit, window);
      hide Bounded, Apply, Enabled;
      if Enabled(Run(k, actions[..n], limit, window), actions[n]) {
        StepBounded(Run(k, actions[..n], limit, window), actions[n], k, limit, window);
      }
      BoundedMeans(Run(k, actions, limit, window), k, limit);
    }
  }

  lemma BoundedMeans(s: System, k: nat, limit: int)
    requires Bounded(s, k, limit)
    ensures |s.z.scores| <= limit + k - 1
  {
  }

  // ── the bound is reached ──

  /** Caller 0 takes all places but one, then `j` callers see the last place. */
  function Crowd(limit: nat, j: nat): seq<Action>
    decreases limit, j
  {
    if j > 0 then Crowd(limit, j - 1) + [Start(j - 1)] + [Prune(j - 1)] + [Count(j - 1)]
    else if limit > 1 then Crowd(limit - 1, 0) + [Start(0)] + [Prune(0)] + [Count(0)] + [Add(0)] + [Expire(0)]
    else []
  }

  /** Then `j` of them take it. */
  function Burst(limit: nat, k: nat, j: nat): seq<Action> {
    if j == 0 then Crowd(limit, k) else Burst(limit, k, j - 1) + [Add(j - 1)]
  }

  function Members(n: nat, window: int): Zset {
    Zset(seq(n, _ => 0), if n == 0 then None else Some(window * 1000))
  }

  lemma RunAppend(k: nat, actions: seq<Action>, a: Action, limit: int, window: int)
    requires Enabled(Run(k, actions, limit, window), a)
    ensures Run(k, actions + [a], limit, window) == Apply(Run(k, actions, limit, window), a, limit, window)
  {
    assert (actions + [a])[..|actions|] == actions;
  }

  lemma PruneKeepsMembers(n: nat, window: int)
    requires window >= 1
    ensures Live(Members(n, window), 0) == Members(n, window)
    ensures ZRemRangeByScore(Members(n, window), 0 - window) == Members(n, window)
  {
    AfterKeepsAll(seq(n, _ => 0), 0 - window);
  }

  lemma AddMember(n: nat, window: int)
    ensures Insert(seq(n, _ => 0), 0) == seq(n + 1, _ => 0)
  {
    InsertLast(seq(n, _ => 0), 0);
  }

  /** One caller's first three commands, when there is room. */
  lemma SeesRoom(k: nat, actions: seq<Action>, c: nat, n: nat, limit: int, window: int)
    requires c < k && n < limit && window >= 1
    requires var s := Run(k, actions, limit, window);
      s.z == Members(n, window) && s.ms == 0 && |s.pcs| == k && s.pcs[c] == Idle
    ensures var s := Run(k, actions, limit, window);
      Run(k, actions + [Start(c)] + [Prune(c)] + [Count(c)], limit, window) == s.(pcs := s.pcs[c := Passed(0)])
  {
    PruneKeepsMembers(n, window);
    hide Run, ZRemRangeByScore, Live;
    var s := Run(k, actions, limit, window);
    RunAppend(k, actions, Start(c), limit, window);
    RunAppend(k, actions + [Start(c)], Prune(c), limit, window);
    RunAppend(k, actions + [Start(c)] + [Prune(c)], Count(c), limit, window);
    assert s.pcs[c := Started(0)][c := Trimmed(0)][c := Passed(0)] == s.pcs[c := Passed(0)];
  }

  lemma {:induction false} PlacesTaken(k: nat, limit: nat, n: nat, window: int)
    requires 1 <= n <= limit && k >= 1 && window >= 1
    ensures Run(k, Crowd(n, 0), limit, window) == System(Members(n - 1, window), 0, seq(k, _ => Idle))
    decreases n
  {
    if n > 1 {
      PlacesTaken(k, limit, n - 1, window);
      var before := Crowd(n - 1, 0);
      SeesRoom(k, before, 0, n - 2, limit, window);
      PruneKeepsMembers(n - 2, window);
      AddMember(n - 2, window);
      var seen := before + [Start(0)] + [Prune(0)] + [Count(0)];
      hide Run, Crowd, Insert, Live;
      RunAppend(k, seen, Add(0), limit, window);
      LiveAtStart(Run(k, seen + [Add(0)], limit, window).z, window);
      RunAppend(k, seen + [Add(0)], Expire(0), limit, window);
      assert Run(k, seen + [Add(0)] + [Expire(0)], limit, window).pcs == seq(k, _ => Idle);
    }
  }

  lemma LiveAtStart(z: Zset, window: int)
    requires window >= 1 && (z.expiresAt == None || z.expiresAt == Some(window * 1000))
    ensures Live(z, 0) == z
  {
  }

  /** The first `j` of `k` callers are at `a`, the others at `b`. */
  function Standing(k: nat, j: nat, a: Pc, b: Pc): seq<Pc> {
    seq(k, i => if i < j then a else b)
  }

  lemma {:induction false} CrowdSeesRoom(k: nat, limit: nat, j: nat, window: int)
    requires limit >= 1 && j <= k && k >= 1 && window >= 1
    ensures Run(k, Crowd(limit, j), limit, window)
      == System(Members(limit - 1, window), 0, Standing(k, j, Passed(0), Idle))
    decreases j
  {
    if j == 0 {
      PlacesTaken(k, limit, limit, window);
      assert seq(k, _ => Idle) == Standing(k, 0, Passed(0), Idle);
    } else {
      CrowdSeesRoom(k, limit, j - 1, window);
      hide Run;
      SeesRoom(k, Crowd(limit, j - 1), j - 1, limit - 1, limit, window);
      assert Standing(k, j - 1, Passed(0), Idle)[j - 1 := Passed(0)] == Standing(k, j, Passed(0), Idle);
    }
  }

  lemma TakesRoom(k: nat, actions: seq<Action>, j: nat, n: nat, expiresAt: Option<int>, limit: int, window: int)
    requires j < k && window >= 1 && (expiresAt == None || expiresAt == Some(window * 1000))
    requires Run(k, actions, limit, window)
      == System(Zset(seq(n, _ => 0), expiresAt), 0, Standing(k, j, Stored(0), Passed(0)))
    ensures Run(k, actions + [Add(j)], limit, window)
      == System(Zset(seq(n + 1, _ => 0), expiresAt), 0, Standing(k, j + 1, Stored(0), Passed(0)))
  {
    AddMember(n, window);
    hide Run, Insert, Live;
    LiveAtStart(Run(k, actions, limit, window).z, window);
    RunAppend(k, actions, Add(j), limit, window);
    assert Standing(k, j, Stored(0), Passed(0))[j := Stored(0)] == Standing(k, j + 1, Stored(0), Passed(0));
  }

  lemma ExpiryOfMembers(n: nat, window: int)
    ensures Members(n, window).expiresAt == None || Members(n, window).expiresAt == Some(window * 1000)
    ensures Members(n, window).scores == seq(n, _ => 0)
  {
  }

  lemma {:induction false} BurstFills(k: nat, limit: nat, j: nat, window: int)
    requires limit >= 1 && j <= k && k >= 1 && window >= 1
    ensures Run(k, Burst(limit, k, j), limit, window)
      == System(Zset(seq(limit - 1 + j, _ => 0), Members(limit - 1, window).expiresAt), 0,
                Standing(k, j, Stored(0), Passed(0)))
    decreases j
  {
    hide Run, Crowd, Members;
    if j == 0 {
      CrowdSeesRoom(k, limit, k, window);
      ExpiryOfMembers(limit - 1, window);
      assert Standing(k, k, Passed(0), Idle) == Standing(k, 0, Stored(0), Passed(0));
    } else {
      BurstFills(k, limit, j - 1, window);
      hide Standing;
      ExpiryOfMembers(limit - 1, window);
      TakesRoom(k, Burst(limit, k, j - 1), j - 1, limit - 2 + j, Members(limit - 1, window).expiresAt, limit, window);
    }
  }

  /** For every limit and every number of callers some run reaches the bound. */
  lemma BoundIsReached(k: nat, limit: nat, window: int)
    requires limit >= 1 && k >= 1 && window >= 1
    ensures exists actions :: |Run(k, actions, limit, window).z.scores| == limit + k - 1
  {
    BurstFills(k, limit, k, window);
    assert |Run(k, Burst(limit, k, k), limit, window).z.scores| == limit + k - 1;
  }
}
