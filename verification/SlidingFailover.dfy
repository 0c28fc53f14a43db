/** The sliding-window strategy while calls move between Redis and memory, each with a window of its own. */
module SlidingFailover {
  import opened Wrappers
  import opened Numbers
  import opened RateSpec
  import opened Sorting
  import opened SlidingWindow
  import F = FixedWindow

  /** One request: the caller's clock in seconds, the script's view of it, and the path it takes. */
  datatype Request = Request(now: real, script: LuaRequest, via: F.Via)

  /** Both windows of a key, and per request: the decision given, whether the deque took it, and
      whether the script did, its answer lost or not. */
  datatype State = State(stamps: seq<real>, zset: Zset, allowed: seq<bool>, queued: seq<bool>, scored: seq<bool>)

  function After(s: State, q: Request, window: nat, limit: nat): State
    requires limit >= 1
  {
    var byScript := LuaVerdict(s.zset, q.script, window * 1000, limit).Allow?;
    var byDeque := DequeVerdict(s.stamps, q.now, window, limit).Allow?;
    State(if q.via.Redis? then s.stamps else DequeAfter(s.stamps, q.now, window, limit),
          if q.via.Memory? then s.zset else LuaAfter(s.zset, q.script, window * 1000, limit),
          s.allowed + [if q.via.Redis? then byScript else byDeque],
          s.queued + [!q.via.Redis? && byDeque],
          s.scored + [!q.via.Memory? && byScript])
  }

  function Run(reqs: seq<Request>, n: nat, window: nat, limit: nat): (s: State)
    requires limit >= 1 && n <= |reqs|
    ensures |s.allowed| == |s.queued| == |s.scored| == n
  {
    if n == 0 then State([], Zset([], None), [], [], [])
    else After(Run(reqs, n - 1, window, limit), reqs[n - 1], window, limit)
  }

  function Times(reqs: seq<Request>): (times: seq<real>)
    ensures |times| == |reqs| && forall i :: 0 <= i < |reqs| ==> times[i] == reqs[i].now
  {
    seq(|reqs|, i requires 0 <= i < |reqs| => reqs[i].now)
  }

  function Scripts(reqs: seq<Request>): (r: seq<LuaRequest>)
    ensures |r| == |reqs| && forall i :: 0 <= i < |reqs| ==> r[i] == reqs[i].script
  {
    seq(|reqs|, i requires 0 <= i < |reqs| => reqs[i].script)
  }

  /** The caller's clock does not run back and the script gets its whole milliseconds; the server's
      clock gains at most a second on it. */
  ghost predicate Clocks(reqs: seq<Request>) {
    && NonDecreasing(Times(reqs)) && LuaClocks(Scripts(reqs))
    && forall i :: 0 <= i < |reqs| ==> reqs[i].script.now == Trunc(reqs[i].now * 1000.0)
  }

  /** Which requests reach the deque, and which the script. */
  function ToMemory(reqs: seq<Request>): (r: seq<bool>)
    ensures |r| == |reqs| && forall i :: 0 <= i < |reqs| ==> r[i] == !reqs[i].via.Redis?
  {
    seq(|reqs|, i requires 0 <= i < |reqs| => !reqs[i].via.Redis?)
  }

  function ToRedis(reqs: seq<Request>): (r: seq<bool>)
    ensures |r| == |reqs| && forall i :: 0 <= i < |reqs| ==> r[i] == !reqs[i].via.Memory?
  {
    seq(|reqs|, i requires 0 <= i < |reqs| => !reqs[i].via.Memory?)
  }

  /** A window holds what it took, as it stood when it was last used, and of the requests that
      reached it it took exactly those its quota admits. */
  ghost predicate Holds(
      kept: seq<real>, times: seq<real>, reached: seq<bool>, taken: seq<bool>, window: real, limit: nat, at: real)
  {
    && |taken| <= |times| == |reached|
    && kept == Survivors(times, taken, |taken|, at, window)
    && Admits(Recent(times, window), limit, reached, taken)
    && (|taken| < |times| ==> at <= times[|taken|])
  }

  lemma NothingHeld(times: seq<real>, reached: seq<bool>, window: real, limit: nat) returns (at: real)
    requires |reached| == |times|
    ensures Holds([], times, reached, [], window, limit, at)
  {
    at := if times == [] then 0.0 else times[0];
  }

  /** A request that passes a window by leaves it alone. */
  lemma PassedBy(
      kept: seq<real>, times: seq<real>, reached: seq<bool>, taken: seq<bool>, window: real, limit: nat, at: real)
    requires Holds(kept, times, reached, taken, window, limit, at)
    requires |taken| < |times| && NonDecreasing(times) && !reached[|taken|]
    ensures Holds(kept, times, reached, taken + [false], window, limit, at)
  {
    hide Admits, Recent;
    AdmitsExtend(Recent(times, window), limit, reached, taken, false);
    SurvivorsPrefix(times, taken, false, |taken|, at, window);
  }

  lemma SurvivorsNext(times: seq<real>, taken: seq<bool>, n: nat, now: real, window: real)
    requires n < |taken| && n < |times| && now - times[n] < window
    ensures Survivors(times, taken, n + 1, now, window)
         == Survivors(times, taken, n, now, window) + if taken[n] then [times[n]] else []
  {
  }

  /** What a window has left when a request comes is what it took within the last window. */
  lemma LiveCounted(
      kept: seq<real>, times: seq<real>, reached: seq<bool>, taken: seq<bool>, window: real, limit: nat, at: real)
    requires Holds(kept, times, reached, taken, window, limit, at) && |taken| < |times| && NonDecreasing(times)
    ensures var n := |taken|;
      && NonDecreasing(kept) && (forall k :: 0 <= k < |kept| ==> kept[k] <= times[n])
      && Above(kept, times[n] - window) == Survivors(times, taken, n, times[n], window)
      && |Above(kept, times[n] - window)| == Count(On(Recent(times, window), n), taken, n)
  {
    hide Admits, Above, Survivors, Count, Recent;
    SurvivorsOrdered(times, taken, |taken|, at, window);
    AboveSurvivors(times, taken, |taken|, at, times[|taken|], window);
    SurvivorsCounted(times, taken, |taken|, |taken|, window);
  }

  /** A request that reaches a window: what is left in it now decides. */
  lemma Used(
      kept: seq<real>, times: seq<real>, reached: seq<bool>, taken: seq<bool>, window: real, limit: nat, at: real,
      next: bool)
    requires Holds(kept, times, reached, taken, window, limit, at) && |taken| < |times| && NonDecreasing(times)
    requires window > 0.0 && reached[|taken|]
    requires next <==> |Above(kept, times[|taken|] - window)| < limit
    ensures var now := times[|taken|];
      && NonDecreasing(kept) && (forall k :: 0 <= k < |kept| ==> kept[k] <= now)
      && var kept' := Above(kept, now - window) + (if next then [now] else []);
         Holds(kept', times, reached, taken + [next], window, limit, now)
  {
    hide Admits, Above, Survivors, Count, Recent;
    var n, now := |taken|, times[|taken|];
    LiveCounted(kept, times, reached, taken, window, limit, at);
    SurvivorsNext(times, taken + [next], n, now, window);
    AdmitsExtend(Recent(times, window), limit, reached, taken, next);
    SurvivorsPrefix(times, taken, next, n, now, window);
  }

  ghost predicate BothHold(reqs: seq<Request>, n: nat, window: nat, limit: nat, queuedAt: real, scoredAt: real)
    requires limit >= 1 && n <= |reqs|
  {
    var s := Run(reqs, n, window, limit);
    && Holds(s.stamps, Times(reqs), ToMemory(reqs), s.queued, window as real, limit, queuedAt)
    && Holds(s.zset.scores, Nows(Scripts(reqs)), ToRedis(reqs), s.scored, (window * 1000) as real, limit, scoredAt)
    && ZsetOk(s.zset, window * 1000, limit, LeastOffset(Scripts(reqs), n))
  }

  lemma DequeStep(
      s: State, q: Request, times: seq<real>, reached: seq<bool>, window: nat, limit: nat, at: real)
    returns (at': real)
    requires limit >= 1 && window >= 1 && Holds(s.stamps, times, reached, s.queued, window as real, limit, at)
    requires |s.queued| < |times| && times[|s.queued|] == q.now && NonDecreasing(times)
    requires reached[|s.queued|] == !q.via.Redis?
    ensures var s' := After(s, q, window, limit);
      Holds(s'.stamps, times, reached, s'.queued, window as real, limit, at')
  {
    hide Holds, Above, LuaVerdict, LuaAfter;
    at' := at;
    if q.via.Redis? {
      PassedBy(s.stamps, times, reached, s.queued, window as real, limit, at);
    } else {
      var next := |Above(s.stamps, q.now - window as real)| < limit;
      Used(s.stamps, times, reached, s.queued, window as real, limit, at, next);
      DropIsFilter(s.stamps, q.now, window as real);
      var live := Above(s.stamps, q.now - window as real);
      assert live + [] == live;
      at' := q.now;
    }
  }

  lemma ScriptStep(
      s: State, q: Request, times: seq<real>, reached: seq<bool>, window: nat, limit: nat, at: real, least: int)
    returns (at': real)
    requires limit >= 1 && window >= 1
    requires Holds(s.zset.scores, times, reached, s.scored, (window * 1000) as real, limit, at)
    requires ZsetOk(s.zset, window * 1000, limit, least) && ClocksAgree(q.script, least)
    requires |s.scored| < |times| && times[|s.scored|] == q.script.now as real && NonDecreasing(times)
    requires reached[|s.scored|] == !q.via.Memory?
    ensures var s' := After(s, q, window, limit);
      && Holds(s'.zset.scores, times, reached, s'.scored, (window * 1000) as real, limit, at')
      && ZsetOk(s'.zset, window * 1000, limit, Min(least, Offset(q.script)))
  {
    hide Holds, Above, LuaLive, ZsetOk, DequeVerdict, DequeAfter;
    at' := at;
    if q.via.Memory? {
      LeastFalls(s.zset, window * 1000, limit, least, Min(least, Offset(q.script)));
      PassedBy(s.zset.scores, times, reached, s.scored, (window * 1000) as real, limit, at);
    } else {
      var live := LuaLive(s.zset, q.script, window * 1000);
      var now, next := q.script.now as real, |live| < limit;
      ScriptLive(s.zset, q.script, window, limit, least);
      Used(s.zset.scores, times, reached, s.scored, (window * 1000) as real, limit, at, next);
      LuaKeepsOk(s.zset, q.script, window * 1000, limit, least);
      at' := q.script.now as real;
    }
  }

  lemma ScriptLive(z: Zset, q: LuaRequest, window: nat, limit: nat, least: int)
    requires ZsetOk(z, window * 1000, limit, least) && ClocksAgree(q, least)
    ensures LuaLive(z, q, window * 1000) == Above(z.scores, q.now as real - (window * 1000) as real)
  {
    hide Above, LuaLive, ZsetOk;
    EvictionHarmless(z, q, window * 1000, limit, least);
    assert (q.now - window * 1000) as real == q.now as real - (window * 1000) as real;
  }

  lemma LeastFalls(z: Zset, windowMs: nat, limit: nat, least: int, lower: int)
    requires ZsetOk(z, windowMs, limit, least) && lower <= least
    ensures ZsetOk(z, windowMs, limit, lower)
  {
    forall k | 0 <= k < |z.scores| ensures ScoreOk(z.scores[k], z.expiresAt, windowMs, lower) {
      assert ScoreOk(z.scores[k], z.expiresAt, windowMs, least);
    }
  }

  lemma {:induction false} FailoverHolds(reqs: seq<Request>, n: nat, window: nat, limit: nat)
    returns (queuedAt: real, scoredAt: real)
    requires window >= 1 && limit >= 1 && n <= |reqs| && Clocks(reqs)
    ensures BothHold(reqs, n, window, limit, queuedAt, scoredAt)
  {
    hide Holds, ZsetOk, After;
    if n == 0 {
      queuedAt := NothingHeld(Times(reqs), ToMemory(reqs), window as real, limit);
      scoredAt := NothingHeld(Nows(Scripts(reqs)), ToRedis(reqs), (window * 1000) as real, limit);
      EmptyZsetOk(window * 1000, limit, LeastOffset(Scripts(reqs), 0));
    } else {
      queuedAt, scoredAt := FailoverHolds(reqs, n - 1, window, limit);
      var s := Run(reqs, n - 1, window, limit);
      ClocksStayClose(Scripts(reqs), n - 1);
      queuedAt := DequeStep(s, reqs[n - 1], Times(reqs), ToMemory(reqs), window, limit, queuedAt);
      var least := LeastOffset(Scripts(reqs), n - 1);
      var times, reached := Nows(Scripts(reqs)), ToRedis(reqs);
      scoredAt := ScriptStep(s, reqs[n - 1], times, reached, window, limit, scoredAt, least);
    }
  }

  /** Whatever was allowed, one of the two windows took. */
  ghost predicate Backed(s: State, i: nat) {
    i < |s.allowed| && i < |s.queued| && i < |s.scored| && (s.allowed[i] ==> s.queued[i] || s.scored[i])
  }

  lemma {:induction false} AllBacked(reqs: seq<Request>, n: nat, window: nat, limit: nat)
    requires limit >= 1 && n <= |reqs|
    ensures forall i: nat :: i < n ==> Backed(Run(reqs, n, window, limit), i)
  {
    hide LuaVerdict, DequeVerdict, LuaAfter, DequeAfter;
    if n > 0 {
      AllBacked(reqs, n - 1, window, limit);
      forall i: nat | i < n ensures Backed(Run(reqs, n, window, limit), i) {
        assert i < n - 1 ==> Backed(Run(reqs, n - 1, window, limit), i);
      }
    }
  }

  lemma {:induction false} CountUnion(p: nat -> bool, s: State, n: nat)
    requires n <= |s.allowed| && n <= |s.queued| && n <= |s.scored| && forall i: nat :: i < n ==> Backed(s, i)
    ensures Count(p, s.allowed, n) <= Count(p, s.queued, n) + Count(p, s.scored, n)
  {
    if n > 0 {
      assert Backed(s, n - 1);
      CountUnion(p, s, n - 1);
    }
  }

  /** The requests of a half-open span (to - span, to]. */
  function Spanned(reqs: seq<Request>, span: real, to: real): nat -> bool {
    InSpan(Times(reqs), to - span, to)
  }

  ghost predicate WholeMillis(reqs: seq<Request>) {
    forall i :: 0 <= i < |reqs| ==> reqs[i].now * 1000.0 == reqs[i].script.now as real
  }

  /** A span that neither window can look past: the length of a window, or a millisecond less where
      the script sees the caller's clock truncated. */
  ghost predicate Fits(reqs: seq<Request>, window: nat, span: real) {
    span <= window as real - 0.001 || (span <= window as real && WholeMillis(reqs))
  }

  /** Two requests of such a span count against each other in both windows. */
  lemma SpanIsRecent(reqs: seq<Request>, window: nat, span: real, to: real, i: nat, j: nat)
    requires Clocks(reqs) && Fits(reqs, window, span) && j < i < |reqs|
    requires Spanned(reqs, span, to)(i) && Spanned(reqs, span, to)(j)
    ensures Recent(Times(reqs), window as real)(i, j)
    ensures Recent(Nows(Scripts(reqs)), (window * 1000) as real)(i, j)
  {
    hide LuaClocks, Recent, InSpan;
    ScriptSpanRecent(Scripts(reqs), Times(reqs), window, span, to, i, j);
  }

  /** Whatever the pattern of Redis failures, lost answers and fallbacks, in any span of a window's
      length at most twice the limit is allowed. */
  lemma SlidingFailoverCap(reqs: seq<Request>, window: nat, limit: nat, span: real, to: real)
    requires window >= 1 && limit >= 1 && Clocks(reqs) && Fits(reqs, window, span)
    ensures Count(Spanned(reqs, span, to), Run(reqs, |reqs|, window, limit).allowed, |reqs|) <= 2 * limit
  {
    hide Sound, Admits, Clocks, ZsetOk, Survivors, Count, Spanned, Recent, Run, Fits, Backed;
    var s, p := Run(reqs, |reqs|, window, limit), Spanned(reqs, span, to);
    var queuedAt, scoredAt := FailoverHolds(reqs, |reqs|, window, limit);
    forall i: nat, j: nat | j < i < |reqs| && p(i) && p(j)
      ensures Recent(Times(reqs), window as real)(i, j) && Recent(Nows(Scripts(reqs)), (window * 1000) as real)(i, j)
    {
      SpanIsRecent(reqs, window, span, to, i, j);
    }
    AdmitsSound(Recent(Times(reqs), window as real), limit, ToMemory(reqs), s.queued);
    AdmitsSound(Recent(Nows(Scripts(reqs)), (window * 1000) as real), limit, ToRedis(reqs), s.scored);
    Cap(Recent(Times(reqs), window as real), limit, s.queued, p, |reqs|);
    Cap(Recent(Nows(Scripts(reqs)), (window * 1000) as real), limit, s.scored, p, |reqs|);
    AllBacked(reqs, |reqs|, window, limit);
    CountUnion(p, s, |reqs|);
  }

  // ---------------------------------------------------------------- when the limit itself holds

  /** Those requests of `p` that Redis answered, or those that it did not. */
  function ByRedis(reqs: seq<Request>, p: nat -> bool, answered: bool): nat -> bool {
    (j: nat) => j < |reqs| && p(j) && (reqs[j].via.Redis? <==> answered)
  }

  /** What each request did to the two windows. */
  ghost predicate Shared(reqs: seq<Request>, s: State, i: nat) {
    && i < |reqs| && i < |s.allowed| && i < |s.queued| && i < |s.scored|
    && (s.allowed[i] <==> s.queued[i] || (s.scored[i] && reqs[i].via.Redis?))
    && !(s.queued[i] && reqs[i].via.Redis?)
  }

  lemma {:induction false} AllShared(reqs: seq<Request>, n: nat, window: nat, limit: nat)
    requires limit >= 1 && n <= |reqs|
    ensures forall i: nat :: i < n ==> Shared(reqs, Run(reqs, n, window, limit), i)
  {
    hide LuaVerdict, DequeVerdict, LuaAfter, DequeAfter;
    if n > 0 {
      AllShared(reqs, n - 1, window, limit);
      forall i: nat | i < n ensures Shared(reqs, Run(reqs, n, window, limit), i) {
        assert i < n - 1 ==> Shared(reqs, Run(reqs, n - 1, window, limit), i);
      }
    }
  }

  /** The allowed requests are those the deque took and those the script took and answered. */
  lemma {:induction false} CountShared(reqs: seq<Request>, p: nat -> bool, s: State, n: nat)
    requires n <= |s.allowed| && n <= |s.queued| && n <= |s.scored| && n <= |reqs|
    requires forall i: nat :: i < n ==> Shared(reqs, s, i)
    ensures Count(p, s.allowed, n) == Count(p, s.queued, n) + Count(ByRedis(reqs, p, true), s.scored, n)
    ensures Count(p, s.scored, n)
         == Count(ByRedis(reqs, p, true), s.scored, n) + Count(ByRedis(reqs, p, false), s.scored, n)
  {
    if n > 0 {
      assert Shared(reqs, s, n - 1);
      CountShared(reqs, p, s, n - 1);
    }
  }

  /** What a window has in use when request n comes: the stamps still in the deque, and what the
      script took and answered. */
  function InUse(reqs: seq<Request>, n: nat, window: nat, limit: nat): nat
    requires limit >= 1 && n < |reqs|
  {
    var s, now := Run(reqs, n, window, limit), reqs[n].now;
    |DropExpired(s.stamps, now, window as real)|
    + Count(ByRedis(reqs, Spanned(reqs, window as real, now), true), s.scored, n)
  }

  lemma {:induction false} SpanOfNow(reqs: seq<Request>, window: real, n: nat, taken: seq<bool>)
    requires n < |reqs| && n <= |taken| && NonDecreasing(Times(reqs))
    ensures Count(On(Recent(Times(reqs), window), n), taken, n) == Count(Spanned(reqs, window, reqs[n].now), taken, n)
  {
    var times := Times(reqs);
    var p, q := On(Recent(times, window), n), Spanned(reqs, window, reqs[n].now);
    forall j: nat | j < n ensures p(j) <==> q(j) {
      assert times[j] <= times[n];
    }
    CountPrefix(p, q, taken, taken, n);
  }

  lemma DequeUse(reqs: seq<Request>, n: nat, window: nat, limit: nat)
    requires window >= 1 && limit >= 1 && n < |reqs| && Clocks(reqs)
    ensures var s := Run(reqs, n, window, limit);
      |DropExpired(s.stamps, reqs[n].now, window as real)|
      == Count(Spanned(reqs, window as real, reqs[n].now), s.queued, n)
  {
    hide Holds, ZsetOk, Spanned, Count, Recent, Run, LuaClocks;
    var s := Run(reqs, n, window, limit);
    var queuedAt, scoredAt := FailoverHolds(reqs, n, window, limit);
    LiveCounted(s.stamps, Times(reqs), ToMemory(reqs), s.queued, window as real, limit, queuedAt);
    DropIsFilter(s.stamps, reqs[n].now, window as real);
    SpanOfNow(reqs, window as real, n, s.queued);
  }

  /** Before request n its window holds as many allowed requests as are in use. */
  lemma UseIsCount(reqs: seq<Request>, n: nat, window: nat, limit: nat)
    requires window >= 1 && limit >= 1 && n < |reqs| && Clocks(reqs)
    ensures Count(Spanned(reqs, window as real, reqs[n].now), Run(reqs, n, window, limit).allowed, n)
         == InUse(reqs, n, window, limit)
  {
    hide Spanned, Count, Clocks, Run, DropExpired, Shared;
    DequeUse(reqs, n, window, limit);
    AllShared(reqs, n, window, limit);
    CountShared(reqs, Spanned(reqs, window as real, reqs[n].now), Run(reqs, n, window, limit), n);
  }

  lemma MillisMatch(reqs: seq<Request>, window: nat, n: nat, taken: seq<bool>)
    requires n < |reqs| && n <= |taken| && WholeMillis(reqs)
    ensures Count(On(Recent(Nows(Scripts(reqs)), (window * 1000) as real), n), taken, n)
         == Count(On(Recent(Times(reqs), window as real), n), taken, n)
  {
    var p, q := Recent(Nows(Scripts(reqs)), (window * 1000) as real), Recent(Times(reqs), window as real);
    forall j: nat | j < n ensures On(p, n)(j) <==> On(q, n)(j) {
      assert (reqs[n].now - reqs[j].now) * 1000.0 == reqs[n].script.now as real - reqs[j].script.now as real;
    }
    CountPrefix(On(p, n), On(q, n), taken, taken, n);
  }

  /** On whole-millisecond clocks what the script still counts is what it took and answered in the
      window and what it took and whose answer was lost. */
  lemma ScriptUse(reqs: seq<Request>, n: nat, window: nat, limit: nat)
    requires window >= 1 && limit >= 1 && n < |reqs| && Clocks(reqs) && WholeMillis(reqs)
    ensures var s, p := Run(reqs, n, window, limit), Spanned(reqs, window as real, reqs[n].now);
      |LuaLive(s.zset, reqs[n].script, window * 1000)|
      == Count(ByRedis(reqs, p, true), s.scored, n) + Count(ByRedis(reqs, p, false), s.scored, n)
  {
    hide Holds, ZsetOk, Spanned, Count, Recent, Run, LuaLive, Above, Shared, WholeMillis;
    var s, p := Run(reqs, n, window, limit), Spanned(reqs, window as real, reqs[n].now);
    var scripts := Scripts(reqs);
    var times, w := Nows(scripts), (window * 1000) as real;
    var queuedAt, scoredAt := FailoverHolds(reqs, n, window, limit);
    ClocksStayClose(scripts, n);
    LiveCounted(s.zset.scores, times, ToRedis(reqs), s.scored, w, limit, scoredAt);
    ScriptLive(s.zset, reqs[n].script, window, limit, LeastOffset(scripts, n));
    MillisMatch(reqs, window, n, s.scored);
    SpanOfNow(reqs, window as real, n, s.scored);
    AllShared(reqs, n, window, limit);
    CountShared(reqs, p, s, n);
  }

  /** Where no answer was lost that is the length of the two windows. */
  lemma UseIsLengths(reqs: seq<Request>, n: nat, window: nat, limit: nat)
    requires window >= 1 && limit >= 1 && n < |reqs| && Clocks(reqs) && WholeMillis(reqs)
    requires forall i :: 0 <= i < n ==> !reqs[i].via.LostThenMemory?
    ensures var s := Run(reqs, n, window, limit);
      InUse(reqs, n, window, limit)
      == |DropExpired(s.stamps, reqs[n].now, window as real)| + |LuaLive(s.zset, reqs[n].script, window * 1000)|
  {
    hide Clocks, WholeMillis, DropExpired, LuaLive, Spanned;
    var s, p := Run(reqs, n, window, limit), Spanned(reqs, window as real, reqs[n].now);
    ScriptUse(reqs, n, window, limit);
    NoneLost(reqs, p, n, window, limit, n);
  }

  lemma {:induction false} NoneLost(reqs: seq<Request>, p: nat -> bool, n: nat, window: nat, limit: nat, k: nat)
    requires limit >= 1 && k <= n <= |reqs| && forall i :: 0 <= i < n ==> !reqs[i].via.LostThenMemory?
    ensures Count(ByRedis(reqs, p, false), Run(reqs, n, window, limit).scored, k) == 0
  {
    hide After, Spanned;
    if k > 0 {
      NoneLost(reqs, p, n, window, limit, k - 1);
      ScoredReached(reqs, n, window, limit, k - 1);
    }
  }

  lemma {:induction false} ScoredReached(reqs: seq<Request>, n: nat, window: nat, limit: nat, i: nat)
    requires limit >= 1 && i < n <= |reqs|
    ensures Run(reqs, n, window, limit).scored[i] ==> !reqs[i].via.Memory?
  {
    hide LuaVerdict, DequeVerdict, LuaAfter, DequeAfter;
    if i < n - 1 { ScoredReached(reqs, n - 1, window, limit, i); }
  }

  /** An allowed request leaves its window within the limit if and only if fewer than the limit were
      in use before it, which both windows show before the call. */
  lemma WithinLimitIff(reqs: seq<Request>, n: nat, window: nat, limit: nat)
    requires window >= 1 && limit >= 1 && n < |reqs| && Clocks(reqs)
    requires Run(reqs, n + 1, window, limit).allowed[n]
    ensures Count(Spanned(reqs, window as real, reqs[n].now), Run(reqs, n + 1, window, limit).allowed, n + 1) <= limit
       <==> InUse(reqs, n, window, limit) < limit
  {
    hide Count, Clocks, InUse, LuaVerdict, DequeVerdict;
    var before, all := Run(reqs, n, window, limit).allowed, Run(reqs, n + 1, window, limit).allowed;
    assert all == before + [all[n]];
    UseIsCount(reqs, n, window, limit);
    CountNext(Spanned(reqs, window as real, reqs[n].now), before, all[n]);
  }

  lemma {:induction false} RunPrefix(reqs: seq<Request>, n: nat, m: nat, window: nat, limit: nat)
    requires limit >= 1 && n <= m <= |reqs|
    ensures Run(reqs, m, window, limit).allowed[..n] == Run(reqs, n, window, limit).allowed
  {
    hide LuaVerdict, DequeVerdict, LuaAfter, DequeAfter;
    if n < m {
      RunPrefix(reqs, n, m - 1, window, limit);
      var init := Run(reqs, m - 1, window, limit).allowed;
      assert Run(reqs, m, window, limit).allowed[..m - 1] == init;
    }
  }

  /** No window-long span that ends at `to` goes over the limit. */
  ghost predicate Kept(reqs: seq<Request>, window: nat, limit: nat, to: real)
    requires limit >= 1
  {
    Count(Spanned(reqs, window as real, to), Run(reqs, |reqs|, window, limit).allowed, |reqs|) <= limit
  }

  /** Request n was denied or found the limit not yet in use. */
  ghost predicate HadRoom(reqs: seq<Request>, n: nat, window: nat, limit: nat)
    requires limit >= 1 && n < |reqs|
  {
    Run(reqs, |reqs|, window, limit).allowed[n] ==> InUse(reqs, n, window, limit) < limit
  }

  lemma UseInRun(reqs: seq<Request>, n: nat, window: nat, limit: nat)
    requires window >= 1 && limit >= 1 && n < |reqs| && Clocks(reqs)
    ensures var p, all := Spanned(reqs, window as real, reqs[n].now), Run(reqs, |reqs|, window, limit).allowed;
      && Count(p, all, n) == InUse(reqs, n, window, limit)
      && Count(p, all, n + 1) == InUse(reqs, n, window, limit) + if all[n] then 1 else 0
  {
    hide Clocks, InUse, Run;
    var p, all := Spanned(reqs, window as real, reqs[n].now), Run(reqs, |reqs|, window, limit).allowed;
    RunPrefix(reqs, n, |reqs|, window, limit);
    var before := Run(reqs, n, window, limit).allowed;
    assert before[..n] == before;
    CountPrefix(p, p, all, before, n);
    UseIsCount(reqs, n, window, limit);
  }

  lemma {:induction false} CountGrows(p: nat -> bool, allowed: seq<bool>, n: nat, m: nat)
    requires n <= m <= |allowed|
    ensures Count(p, allowed, n) <= Count(p, allowed, m)
  {
    if n < m { CountGrows(p, allowed, n, m - 1); }
  }

  lemma {:induction false} RoomKeeps(reqs: seq<Request>, window: nat, limit: nat, to: real, n: nat)
    requires window >= 1 && limit >= 1 && n <= |reqs| && Clocks(reqs)
    requires forall i: nat :: i < |reqs| ==> HadRoom(reqs, i, window, limit)
    ensures Count(Spanned(reqs, window as real, to), Run(reqs, |reqs|, window, limit).allowed, n) <= limit
  {
    hide Clocks, InUse, Run, Spanned;
    if n > 0 {
      var p, all := Spanned(reqs, window as real, to), Run(reqs, |reqs|, window, limit).allowed;
      RoomKeeps(reqs, window, limit, to, n - 1);
      if all[n - 1] && p(n - 1) {
        var q := Spanned(reqs, window as real, reqs[n - 1].now);
        assert HadRoom(reqs, n - 1, window, limit);
        UseInRun(reqs, n - 1, window, limit);
        EarlierSpan(reqs, window, to, n - 1);
        CountWeaker(p, q, all, n - 1);
      }
    }
  }

  lemma EarlierSpan(reqs: seq<Request>, window: nat, to: real, n: nat)
    requires n < |reqs| && Clocks(reqs) && Spanned(reqs, window as real, to)(n)
    ensures var p, q := Spanned(reqs, window as real, to), Spanned(reqs, window as real, reqs[n].now);
      forall j: nat :: j < n && p(j) ==> q(j)
  {
    hide LuaClocks;
    var times := Times(reqs);
    var p, q := Spanned(reqs, window as real, to), Spanned(reqs, window as real, reqs[n].now);
    forall j: nat | j < n && p(j) ensures q(j) {
      assert times[j] <= times[n];
    }
  }

  /** Over a whole run, under any pattern of failures, every window-long span stays within the limit
      if and only if every allowed request found the limit not yet in use. */
  lemma SlidingLimitIff(reqs: seq<Request>, window: nat, limit: nat)
    requires window >= 1 && limit >= 1 && Clocks(reqs)
    ensures (forall to: real :: Kept(reqs, window, limit, to))
       <==> (forall n: nat :: n < |reqs| ==> HadRoom(reqs, n, window, limit))
  {
    hide Clocks, InUse, Run, Spanned;
    if forall n: nat :: n < |reqs| ==> HadRoom(reqs, n, window, limit) {
      forall to: real ensures Kept(reqs, window, limit, to) {
        RoomKeeps(reqs, window, limit, to, |reqs|);
      }
    } else {
      var n: nat :| n < |reqs| && !HadRoom(reqs, n, window, limit);
      UseInRun(reqs, n, window, limit);
      var p, all := Spanned(reqs, window as real, reqs[n].now), Run(reqs, |reqs|, window, limit).allowed;
      CountGrows(p, all, n + 1, |reqs|);
      assert !Kept(reqs, window, limit, reqs[n].now);
    }
  }

  // ---------------------------------------------------------------- the cap is attained, and no more

  /** A full window in Redis from instant `b` on, then at the end of it Redis again and, after an
      outage, memory. */
  function Hurried(b: real, window: nat, limit: nat): (reqs: seq<Request>)
    ensures |reqs| == 3 * limit
    ensures forall i :: 0 <= i < |reqs| ==> reqs[i] == HurriedAt(b, window, limit, i)
  {
    seq(3 * limit, i => HurriedAt(b, window, limit, i))
  }

  function HurriedAt(b: real, window: nat, limit: nat, i: int): Request {
    if i < limit then Request(b, LuaRequest(0, 0, false), F.Redis)
    else
      var script := LuaRequest(window * 1000, window * 1000, false);
      Request(window as real, script, if i < 2 * limit then F.Redis else F.Memory)
  }

  ghost predicate Copies(s: seq<real>, n: nat, x: real) {
    |s| == n && forall k :: 0 <= k < n ==> s[k] == x
  }

  /** Copies of one stamp are all dropped, or all kept and joined by one more. */
  lemma CopiesCut(s: seq<real>, n: nat, x: real, now: real, window: real)
    requires Copies(s, n, x)
    ensures now - x >= window ==> DropExpired(s, now, window) == [] && Above(s, now - window) == []
    ensures now - x < window ==> DropExpired(s, now, window) == s && Above(s, now - window) == s
    ensures x == now ==> Insert(ScoreLeq, now, s) == s + [now] && Copies(s + [now], n + 1, now)
  {
    hide DropExpired, Above, Insert;
    AboveAll(s, now - window);
    DropIsFilter(s, now, window);
    if x == now { AddedLast(s, now); }
  }

  lemma NothingCut(now: real, window: real)
    ensures DropExpired([], now, window) == [] == Above([], now - window) && Insert(ScoreLeq, now, []) == [now]
  {
  }

  /** One more request in Redis: it finds `m` of the current stamp, or only stamps a window old. */
  lemma RedisStep(s: State, q: Request, m: nat, x: real, window: nat, limit: nat)
    requires window >= 1 && limit >= 1 && q.via.Redis? && !q.script.evicted
    requires Copies(s.zset.scores, m, x)
    requires if x == q.script.now as real then m < limit else q.script.now as real - x >= (window * 1000) as real
    ensures var s', live := After(s, q, window, limit), if x == q.script.now as real then m else 0;
      && s'.allowed == s.allowed + [true] && s'.stamps == s.stamps
      && Copies(s'.zset.scores, live + 1, q.script.now as real)
  {
    hide DropExpired, Above, Insert, DequeVerdict;
    var now, w := q.script.now as real, (window * 1000) as real;
    CopiesCut(s.zset.scores, m, x, now, w);
    NothingCut(now, w);
    assert (q.script.now - window * 1000) as real == now - w;
  }

  /** One more request in memory: it finds fewer than the limit of its own stamp. */
  lemma MemoryStep(s: State, q: Request, m: nat, window: nat, limit: nat)
    requires window >= 1 && limit >= 1 && q.via.Memory? && Copies(s.stamps, m, q.now) && m < limit
    ensures var s' := After(s, q, window, limit);
      && s'.allowed == s.allowed + [true] && s'.zset == s.zset
      && Copies(s'.stamps, m + 1, q.now)
  {
    hide DropExpired, Above, Insert, LuaVerdict;
    CopiesCut(s.stamps, m, q.now, q.now, window as real);
  }

  /** Whether `b` lies in the first millisecond. */
  ghost predicate FirstMilli(b: real) {
    0.0 <= b < 0.001
  }

  lemma HurriedClocks(b: real, window: nat, limit: nat)
    requires window >= 1 && FirstMilli(b)
    ensures Clocks(Hurried(b, window, limit))
    ensures b == 0.0 ==> WholeMillis(Hurried(b, window, limit))
  {
    hide Trunc;
    TruncFirst(b);
    TruncWhole(window);
    HurriedOrder(b, window, limit);
    assert window as real * 1000.0 == (window * 1000) as real;
  }

  lemma HurriedOrder(b: real, window: nat, limit: nat)
    requires window >= 1 && FirstMilli(b)
    ensures NonDecreasing(Times(Hurried(b, window, limit))) && LuaClocks(Scripts(Hurried(b, window, limit)))
  {
    hide HurriedAt;
    var reqs := Hurried(b, window, limit);
    var times, scripts, nows := Times(reqs), Scripts(reqs), Nows(Scripts(reqs));
    forall i, j | 0 <= i < j < |reqs|
      ensures times[i] <= times[j] && nows[i] <= nows[j] && Offset(scripts[j]) <= Offset(scripts[i]) + 1000
    {
      HurriedPair(b, window, limit, i, j);
    }
  }

  lemma HurriedPair(b: real, window: nat, limit: nat, i: nat, j: nat)
    requires window >= 1 && FirstMilli(b) && i < j
    ensures var q, r := HurriedAt(b, window, limit, i), HurriedAt(b, window, limit, j);
      q.now <= r.now && q.script.now <= r.script.now && Offset(q.script) == Offset(r.script) == 0
  {
  }

  lemma TruncFirst(b: real)
    requires FirstMilli(b)
    ensures Trunc(b * 1000.0) == 0
  {
    assert 0.0 <= b * 1000.0 < 1.0;
  }

  lemma TruncWhole(window: nat)
    ensures Trunc(window as real * 1000.0) == window * 1000
  {
    assert window as real * 1000.0 == (window * 1000) as real;
  }

  function Lead(n: nat, first: nat, limit: nat): nat {
    if n <= first then 0 else if n - first < limit then n - first else limit
  }

  ghost predicate HurriedState(s: State, b: real, window: nat, limit: nat, n: nat) {
    && (if n <= limit then Copies(s.zset.scores, n, 0.0)
        else Copies(s.zset.scores, Lead(n, limit, limit), (window * 1000) as real))
    && Copies(s.stamps, Lead(n, 2 * limit, limit), window as real)
    && |s.allowed| == n && (forall i :: 0 <= i < n ==> s.allowed[i])
  }

  lemma HurriedToRedis(s: State, b: real, window: nat, limit: nat, n: nat)
    requires window >= 1 && limit >= 1 && n < 2 * limit && HurriedState(s, b, window, limit, n)
    ensures HurriedState(After(s, HurriedAt(b, window, limit, n), window, limit), b, window, limit, n + 1)
  {
    hide After, Copies;
    var x := if n <= limit then 0.0 else (window * 1000) as real;
    CopiesLength(s.zset.scores, n, 0.0);
    CopiesLength(s.zset.scores, Lead(n, limit, limit), (window * 1000) as real);
    RedisStep(s, HurriedAt(b, window, limit, n), |s.zset.scores|, x, window, limit);
  }

  lemma HurriedToMemory(s: State, b: real, window: nat, limit: nat, n: nat)
    requires window >= 1 && limit >= 1 && 2 * limit <= n < 3 * limit && HurriedState(s, b, window, limit, n)
    ensures HurriedState(After(s, HurriedAt(b, window, limit, n), window, limit), b, window, limit, n + 1)
  {
    hide After, Copies;
    MemoryStep(s, HurriedAt(b, window, limit, n), Lead(n, 2 * limit, limit), window, limit);
  }

  lemma CopiesLength(s: seq<real>, n: nat, x: real)
    ensures Copies(s, n, x) ==> |s| == n
  {
  }

  lemma {:induction false} HurriedRun(b: real, window: nat, limit: nat, n: nat)
    requires window >= 1 && limit >= 1 && n <= 3 * limit
    ensures HurriedState(Run(Hurried(b, window, limit), n, window, limit), b, window, limit, n)
  {
    hide After, HurriedState, Hurried;
    if n == 0 {
      NoneHurried(b, window, limit);
    } else {
      HurriedRun(b, window, limit, n - 1);
      var s := Run(Hurried(b, window, limit), n - 1, window, limit);
      if n - 1 < 2 * limit {
        HurriedToRedis(s, b, window, limit, n - 1);
      } else {
        HurriedToMemory(s, b, window, limit, n - 1);
      }
    }
  }

  lemma NoneHurried(b: real, window: nat, limit: nat)
    ensures HurriedState(State([], Zset([], None), [], [], []), b, window, limit, 0)
  {
  }

  lemma {:induction false} CountAll(p: nat -> bool, allowed: seq<bool>, n: nat)
    requires n <= |allowed| && forall i: nat :: i < n ==> allowed[i] && p(i)
    ensures Count(p, allowed, n) == n
  {
    if n > 0 { CountAll(p, allowed, n - 1); }
  }

  /** All three times the limit are allowed, and any span that reaches back before `b` holds them. */
  lemma HurriedCount(b: real, window: nat, limit: nat, span: real)
    requires window >= 1 && limit >= 1 && FirstMilli(b) && window as real - span < b
    ensures var reqs := Hurried(b, window, limit);
      && Clocks(reqs)
      && Count(Spanned(reqs, span, window as real), Run(reqs, |reqs|, window, limit).allowed, |reqs|) == 3 * limit
  {
    hide Clocks, Run, LuaVerdict, DequeVerdict;
    var reqs := Hurried(b, window, limit);
    HurriedClocks(b, window, limit);
    HurriedRun(b, window, limit, |reqs|);
    CountAll(Spanned(reqs, span, window as real), Run(reqs, |reqs|, window, limit).allowed, |reqs|);
  }

  /** At most twice the limit in the span of that length that ends at `to`. */
  ghost predicate CapHolds(reqs: seq<Request>, window: nat, limit: nat, span: real, to: real)
    requires limit >= 1
  {
    Count(Spanned(reqs, span, to), Run(reqs, |reqs|, window, limit).allowed, |reqs|) <= 2 * limit
  }

  /** The cap of twice the limit holds on every run exactly for spans that are at least a millisecond
      shorter than the window. */
  lemma CapIff(window: nat, limit: nat, span: real)
    requires window >= 1 && limit >= 1
    ensures (forall reqs, to :: Clocks(reqs) ==> CapHolds(reqs, window, limit, span, to))
       <==> span <= window as real - 0.001
  {
    hide Clocks, Run, Spanned, Count;
    if span <= window as real - 0.001 {
      forall reqs, to | Clocks(reqs) ensures CapHolds(reqs, window, limit, span, to) {
        SlidingFailoverCap(reqs, window, limit, span, to);
      }
    } else {
      var early := window as real - span;
      var b := if early < 0.0 then 0.0 else (early + 0.001) / 2.0;
      HurriedCount(b, window, limit, span);
      assert !CapHolds(Hurried(b, window, limit), window, limit, span, window as real);
    }
  }

  /** On every run of whole milliseconds it holds exactly for spans no longer than the window. */
  lemma WholeCapIff(window: nat, limit: nat, span: real)
    requires window >= 1 && limit >= 1
    ensures (forall reqs, to :: Clocks(reqs) && WholeMillis(reqs) ==> CapHolds(reqs, window, limit, span, to))
       <==> span <= window as real
  {
    hide Clocks, Run, Spanned, Count, WholeMillis;
    if span <= window as real {
      forall reqs, to | Clocks(reqs) && WholeMillis(reqs) ensures CapHolds(reqs, window, limit, span, to) {
        SlidingFailoverCap(reqs, window, limit, span, to);
      }
    } else {
      HurriedCount(0.0, window, limit, span);
      HurriedClocks(0.0, window, limit);
      assert !CapHolds(Hurried(0.0, window, limit), window, limit, span, window as real);
    }
  }

  /** Two requests in Redis less than a second apart, a whole second to the script, and one in
      memory: three in a window of one second, where twice the limit is two. */
  lemma MillisecondLost()
    ensures var reqs := Hurried(0.0005, 1, 1);
      && reqs == [Request(0.0005, LuaRequest(0, 0, false), F.Redis),
                  Request(1.0, LuaRequest(1000, 1000, false), F.Redis),
                  Request(1.0, LuaRequest(1000, 1000, false), F.Memory)]
      && Clocks(reqs) && !CapHolds(reqs, 1, 1, 1.0, 1.0)
  {
    hide Clocks, Run, Spanned, Count;
    HurriedCount(0.0005, 1, 1, 1.0);
  }

  // ---------------------------------------------------------------- one instant

  function Outage(limit: nat): (reqs: seq<Request>)
    ensures |reqs| == 2 * limit
    ensures forall i :: 0 <= i < |reqs| ==>
      reqs[i] == Request(0.0, LuaRequest(0, 0, false), if i < limit then F.Redis else F.Memory)
  {
    seq(2 * limit, i => Request(0.0, LuaRequest(0, 0, false), if i < limit then F.Redis else F.Memory))
  }

  lemma OutageClocks(limit: nat)
    ensures Clocks(Outage(limit)) && WholeMillis(Outage(limit))
  {
  }

  /** Redis going down once its window is full lets twice the limit through at one instant. */
  lemma {:induction false} SlidingFailoverAttained(window: nat, limit: nat, n: nat)
    requires window >= 1 && limit >= 1 && n <= 2 * limit
    ensures Clocks(Outage(limit)) && WholeMillis(Outage(limit))
    ensures var s := Run(Outage(limit), n, window, limit);
      && Copies(s.zset.scores, if n < limit then n else limit, 0.0)
      && Copies(s.stamps, if n < limit then 0 else n - limit, 0.0)
      && Count(Spanned(Outage(limit), window as real, 0.0), s.allowed, n) == n
  {
    hide After, Clocks, WholeMillis, Outage, Copies;
    OutageClocks(limit);
    if n == 0 {
      NoCopies(0.0);
    } else {
      SlidingFailoverAttained(window, limit, n - 1);
      var s, q := Run(Outage(limit), n - 1, window, limit), Outage(limit)[n - 1];
      if n - 1 < limit {
        RedisStep(s, q, n - 1, 0.0, window, limit);
      } else {
        MemoryStep(s, q, n - 1 - limit, window, limit);
      }
      CountNext(Spanned(Outage(limit), window as real, 0.0), s.allowed, true);
    }
  }

  lemma NoCopies(x: real)
    ensures Copies([], 0, x)
  {
  }
}
