/** The in-process deque and the Redis sorted set of the sliding-window strategy. */
module SlidingWindow {
  import opened Wrappers
  import opened Numbers
  import opened Sorting
  import opened RateSpec

  // ---------------------------------------------------------------- the deque

  /** Pop from the left while the oldest stamp has left the window. */
  function DropExpired(stamps: seq<real>, now: real, window: real): seq<real> {
    if stamps != [] && now - stamps[0] >= window then DropExpired(stamps[1..], now, window) else stamps
  }

  function DequeVerdict(stamps: seq<real>, now: real, window: nat, limit: nat): Verdict
    requires limit >= 1
  {
    var live := DropExpired(stamps, now, window as real);
    if |live| >= limit then
      var wait := window as real - (now - live[0]);
      Deny(Trunc(if wait > 1.0 then wait else 1.0))
    else Allow
  }

  function DequeAfter(stamps: seq<real>, now: real, window: nat, limit: nat): seq<real> {
    var live := DropExpired(stamps, now, window as real);
    if |live| >= limit then live else live + [now]
  }

  /** The deque and the decisions after the first `n` requests on one key. */
  function DequeRun(times: seq<real>, n: nat, window: nat, limit: nat): (r: (seq<real>, seq<bool>))
    requires limit >= 1 && n <= |times|
    ensures |r.1| == n
  {
    if n == 0 then ([], [])
    else
      var (stamps, allowed) := DequeRun(times, n - 1, window, limit);
      var now := times[n - 1];
      (DequeAfter(stamps, now, window, limit), allowed + [DequeVerdict(stamps, now, window, limit).Allow?])
  }

  // ---------------------------------------------------------------- the sorted set

  /** Scores in ascending order and the instant from which Redis may drop the key. */
  datatype Zset = Zset(scores: seq<real>, expiresAt: Option<int>)

  /** One evaluation of the script: the caller's clock and the server's clock in milliseconds, and
      whether the server had dropped an expired key by then. */
  datatype LuaRequest = LuaRequest(now: int, server: int, evicted: bool)

  predicate ScoreLeq(a: real, b: real) { a <= b }

  function Evicted(z: Zset, q: LuaRequest): seq<real> {
    if q.evicted && z.expiresAt.Some? && q.server >= z.expiresAt.value then [] else z.scores
  }

  /** ZREMRANGEBYSCORE key -inf cutoff. */
  function Above(scores: seq<real>, cutoff: real): seq<real> {
    if scores == [] then []
    else
      var last := scores[|scores| - 1];
      Above(scores[..|scores| - 1], cutoff) + if last > cutoff then [last] else []
  }

  function LuaLive(z: Zset, q: LuaRequest, windowMs: nat): seq<real> {
    Above(Evicted(z, q), (q.now - windowMs) as real)
  }

  function LuaVerdict(z: Zset, q: LuaRequest, windowMs: nat, limit: nat): Verdict
    requires limit >= 1
  {
    var live := LuaLive(z, q, windowMs);
    if |live| < limit then Allow
    else
      var retryMs := windowMs as real - (q.now as real - live[0]);
      var atLeastOne := if retryMs < 1.0 then 1.0 else retryMs;
      var seconds := (Trunc(atLeastOne) + 999) / 1000;
      Deny(if seconds > 1 then seconds else 1)
  }

  function LuaAfter(z: Zset, q: LuaRequest, windowMs: nat, limit: nat): Zset {
    var live := LuaLive(z, q, windowMs);
    if |live| < limit
    then Zset(Insert(ScoreLeq, q.now as real, live), Some(q.server + windowMs + 1000))
    else Zset(live, z.expiresAt)
  }

  function LuaRun(reqs: seq<LuaRequest>, n: nat, windowMs: nat, limit: nat): (r: (Zset, seq<bool>))
    requires limit >= 1 && n <= |reqs|
    ensures |r.1| == n
  {
    if n == 0 then (Zset([], None), [])
    else
      var (z, allowed) := LuaRun(reqs, n - 1, windowMs, limit);
      var q := reqs[n - 1];
      (LuaAfter(z, q, windowMs, limit), allowed + [LuaVerdict(z, q, windowMs, limit).Allow?])
  }

  // ---------------------------------------------------------------- against the specification

  /** Request j is less than a window older than request i. */
  function Recent(times: seq<real>, window: real): Against {
    (i: nat, j: nat) => i < |times| && j < |times| && times[i] - times[j] < window
  }

  /** The stamps of the allowed requests among the first n that are still in the window. */
  function Survivors(times: seq<real>, allowed: seq<bool>, n: nat, now: real, window: real): seq<real>
    requires n <= |allowed| && n <= |times|
  {
    if n == 0 then []
    else
      Survivors(times, allowed, n - 1, now, window)
      + if allowed[n - 1] && now - times[n - 1] < window then [times[n - 1]] else []
  }

  lemma {:induction false} SurvivorsCounted(times: seq<real>, allowed: seq<bool>, n: nat, i: nat, window: real)
    requires n <= |allowed| && n <= i < |times|
    ensures |Survivors(times, allowed, n, times[i], window)| == Count(On(Recent(times, window), i), allowed, n)
  {
    if n > 0 {
      SurvivorsCounted(times, allowed, n - 1, i, window);
      assert On(Recent(times, window), i)(n - 1) <==> times[i] - times[n - 1] < window;
    }
  }

  lemma {:induction false} SurvivorsOrdered(times: seq<real>, allowed: seq<bool>, n: nat, now: real, window: real)
    requires n <= |allowed| && n <= |times| && NonDecreasing(times)
    ensures var s := Survivors(times, allowed, n, now, window);
      && NonDecreasing(s)
      && (forall k :: 0 <= k < |s| ==> now - s[k] < window)
      && (n > 0 ==> forall k :: 0 <= k < |s| ==> s[k] <= times[n - 1])
      && (s != [] ==> n > 0)
  {
    if n > 0 {
      SurvivorsOrdered(times, allowed, n - 1, now, window);
    }
  }

  lemma {:induction false} SurvivorsPrefix(
    times: seq<real>, a: seq<bool>, next: bool, n: nat, now: real, window: real)
    requires n <= |a| && n <= |times|
    ensures Survivors(times, a + [next], n, now, window) == Survivors(times, a, n, now, window)
  {
    if n > 0 { SurvivorsPrefix(times, a, next, n - 1, now, window); }
  }

  /** Filtering out what has left the window: cutting at an earlier instant first is harmless. */
  lemma {:induction false} AboveSurvivors(
    times: seq<real>, allowed: seq<bool>, n: nat, then_: real, now: real, window: real)
    requires n <= |allowed| && n <= |times| && then_ <= now
    ensures Above(Survivors(times, allowed, n, then_, window), now - window)
         == Survivors(times, allowed, n, now, window)
  {
    if n > 0 {
      AboveSurvivors(times, allowed, n - 1, then_, now, window);
      var s := Survivors(times, allowed, n - 1, then_, window);
      assert (s + [times[n - 1]])[..|s|] == s && s + [] == s;
    }
  }

  lemma {:induction false} AboveAll(scores: seq<real>, cutoff: real)
    ensures (forall k :: 0 <= k < |scores| ==> scores[k] > cutoff) ==> Above(scores, cutoff) == scores
    ensures (forall k :: 0 <= k < |scores| ==> scores[k] <= cutoff) ==> Above(scores, cutoff) == []
  {
    if scores != [] { AboveAll(scores[..|scores| - 1], cutoff); }
  }

  lemma {:induction false} AboveFirst(x: real, rest: seq<real>, cutoff: real)
    ensures Above([x] + rest, cutoff) == (if x > cutoff then [x] else []) + Above(rest, cutoff)
  {
    if rest == [] {
      assert ([x] + rest)[..0] == [];
    } else {
      assert ([x] + rest)[..|rest|] == [x] + rest[..|rest| - 1];
      AboveFirst(x, rest[..|rest| - 1], cutoff);
    }
  }

  /** On ordered stamps, popping from the left is filtering. */
  lemma {:induction false} DropIsFilter(stamps: seq<real>, now: real, window: real)
    requires NonDecreasing(stamps)
    ensures DropExpired(stamps, now, window) == Above(stamps, now - window)
  {
    hide Above;
    if stamps == [] {
      AboveAll(stamps, now - window);
    } else {
      assert stamps == [stamps[0]] + stamps[1..];
      if now - stamps[0] >= window {
        DropIsFilter(stamps[1..], now, window);
        AboveFirst(stamps[0], stamps[1..], now - window);
        assert [] + Above(stamps[1..], now - window) == Above(stamps[1..], now - window);
      } else {
        AboveAll(stamps, now - window);
      }
    }
  }

  /** After n requests the deque holds exactly the allowed stamps still in the window, and every
      decision so far was the specified one. */
  ghost predicate DequeTracks(times: seq<real>, n: nat, window: nat, limit: nat)
    requires limit >= 1 && n <= |times|
  {
    var (stamps, allowed) := DequeRun(times, n, window, limit);
    && stamps == (if n == 0 then [] else Survivors(times, allowed, n, times[n - 1], window as real))
    && Conforms(Recent(times, window as real), limit, allowed)
  }

  lemma DequeLive(times: seq<real>, n: nat, window: nat, limit: nat)
    requires limit >= 1 && n < |times| && DequeTracks(times, n, window, limit) && NonDecreasing(times)
    ensures var (stamps, allowed) := DequeRun(times, n, window, limit);
      DropExpired(stamps, times[n], window as real) == Survivors(times, allowed, n, times[n], window as real)
  {
    hide DequeRun, Above;
    var (stamps, allowed) := DequeRun(times, n, window, limit);
    if n > 0 {
      SurvivorsOrdered(times, allowed, n, times[n - 1], window as real);
      DropIsFilter(stamps, times[n], window as real);
      AboveSurvivors(times, allowed, n, times[n - 1], times[n], window as real);
    }
  }

  /** On every non-decreasing request sequence the deque allows a request iff fewer than `limit`
      earlier allowed ones lie in (now - window, now]. */
  lemma {:induction false} DequeRefinesSpec(times: seq<real>, n: nat, window: nat, limit: nat)
    requires window >= 1 && limit >= 1 && n <= |times| && NonDecreasing(times)
    ensures DequeTracks(times, n, window, limit)
  {
    hide Survivors, DropExpired;
    if n > 0 {
      var now, w := times[n - 1], window as real;
      DequeRefinesSpec(times, n - 1, window, limit);
      DequeLive(times, n - 1, window, limit);
      var (stamps, before) := DequeRun(times, n - 1, window, limit);
      Extended(times, n - 1, before, w, limit, |DropExpired(stamps, now, w)| < limit);
    }
  }

  /** One more decision by the number of survivors keeps the specification. */
  lemma Extended(times: seq<real>, n: nat, before: seq<bool>, window: real, limit: nat, next: bool)
    requires n == |before| < |times| && window > 0.0
    requires Conforms(Recent(times, window), limit, before)
    requires next <==> |Survivors(times, before, n, times[n], window)| < limit
    ensures Conforms(Recent(times, window), limit, before + [next])
    ensures Survivors(times, before + [next], n + 1, times[n], window)
         == Survivors(times, before, n, times[n], window) + if next then [times[n]] else []
  {
    SurvivorsCounted(times, before, n, n, window);
    ConformsExtend(Recent(times, window), limit, before, next);
    SurvivorsPrefix(times, before, next, n, times[n], window);
  }

  // ---------------------------------------------------------------- the script

  function Nows(reqs: seq<LuaRequest>): (times: seq<real>)
    ensures |times| == |reqs| && forall i :: 0 <= i < |reqs| ==> times[i] == reqs[i].now as real
  {
    seq(|reqs|, i requires 0 <= i < |reqs| => reqs[i].now as real)
  }

  /** How far the server's clock is ahead of the caller's. */
  function Offset(q: LuaRequest): int {
    q.server - q.now
  }

  /** The caller's clock does not run back, and between two requests the server's gains at most a
      second on it; a constant offset of any size is harmless. */
  ghost predicate LuaClocks(reqs: seq<LuaRequest>) {
    && NonDecreasing(Nows(reqs))
    && forall i, j :: 0 <= i < j < |reqs| ==> Offset(reqs[j]) <= Offset(reqs[i]) + 1000
  }

  /** The smallest offset among the first n requests, or of the first if there are none yet. */
  function LeastOffset(reqs: seq<LuaRequest>, n: nat): int
    requires n <= |reqs|
  {
    if n == 0 then (if reqs == [] then 0 else Offset(reqs[0]))
    else Min(LeastOffset(reqs, n - 1), Offset(reqs[n - 1]))
  }

  /** The server's clock has gained at most a second since it was `least` ahead. */
  predicate ClocksAgree(q: LuaRequest, least: int) {
    Offset(q) <= least + 1000
  }

  lemma {:induction false} LeastIsOne(reqs: seq<LuaRequest>, n: nat) returns (j: nat)
    requires n <= |reqs| && reqs != []
    ensures j <= n && j < |reqs| && (n > 0 ==> j < n) && LeastOffset(reqs, n) == Offset(reqs[j])
  {
    j := 0;
    if n > 0 {
      j := LeastIsOne(reqs, n - 1);
      if j == n - 1 || Offset(reqs[n - 1]) < Offset(reqs[j]) { j := n - 1; }
    }
  }

  lemma ClocksStayClose(reqs: seq<LuaRequest>, n: nat)
    requires n < |reqs| && LuaClocks(reqs)
    ensures ClocksAgree(reqs[n], LeastOffset(reqs, n))
  {
    var j := LeastIsOne(reqs, n);
  }

  /** Whole-millisecond scores in order, at most `limit` of them, and an expiry that no score
      still in the window can live to see. */
  ghost predicate ZsetOk(z: Zset, windowMs: nat, limit: nat, least: int) {
    && NonDecreasing(z.scores) && |z.scores| <= limit
    && (forall k :: 0 <= k < |z.scores| ==> ScoreOk(z.scores[k], z.expiresAt, windowMs, least))
  }

  ghost predicate ScoreOk(score: real, expiresAt: Option<int>, windowMs: nat, least: int) {
    && score == score.Floor as real
    && expiresAt.Some? && score + (windowMs + 1000 + least) as real <= expiresAt.value as real
  }

  /** An allowed request keeps its key for a window and a second on the server's clock, no more and
      no less; a denied one does not prolong it. */
  lemma KeyForgottenIff(z: Zset, q: LuaRequest, later: LuaRequest, windowMs: nat, limit: nat)
    requires limit >= 1 && later.evicted
    ensures LuaVerdict(z, q, windowMs, limit).Allow? ==>
      (Evicted(LuaAfter(z, q, windowMs, limit), later) == [] <==> later.server >= q.server + windowMs + 1000)
    ensures LuaVerdict(z, q, windowMs, limit).Deny? ==> LuaAfter(z, q, windowMs, limit).expiresAt == z.expiresAt
  {
    hide LuaLive;
    InsertPermutes(ScoreLeq, q.now as real, LuaLive(z, q, windowMs));
    assert q.now as real in multiset(Insert(ScoreLeq, q.now as real, LuaLive(z, q, windowMs)));
  }

  /** Dropping an expired key only loses what the script would have removed. */
  lemma EvictionHarmless(z: Zset, q: LuaRequest, windowMs: nat, limit: nat, least: int)
    requires ZsetOk(z, windowMs, limit, least) && ClocksAgree(q, least)
    ensures LuaLive(z, q, windowMs) == Above(z.scores, (q.now - windowMs) as real)
  {
    if q.evicted && z.expiresAt.Some? && q.server >= z.expiresAt.value {
      AboveAll(z.scores, (q.now - windowMs) as real);
    }
  }

  lemma {:induction false} AboveOnly(scores: seq<real>, cutoff: real)
    ensures forall k :: 0 <= k < |Above(scores, cutoff)| ==> Above(scores, cutoff)[k] > cutoff
  {
    if scores != [] { AboveOnly(scores[..|scores| - 1], cutoff); }
  }

  /** On ordered scores, filtering cuts off the first `d`. */
  lemma {:induction false} AboveCut(scores: seq<real>, cutoff: real) returns (d: nat)
    requires NonDecreasing(scores)
    ensures d <= |scores| && Above(scores, cutoff) == scores[d..]
    ensures d > 0 ==> scores[d - 1] <= cutoff
  {
    hide Above, NonDecreasing;
    OrderedParts(scores);
    d := |scores|;
    if scores == [] || scores[|scores| - 1] <= cutoff {
      AboveAll(scores, cutoff);
      assert scores[d..] == [];
    } else {
      var init, last := scores[..|scores| - 1], scores[|scores| - 1];
      d := AboveCut(init, cutoff);
      AboveLast(init, last, cutoff);
      assert init + [last] == scores && init[d..] + [last] == scores[d..];
      assert d > 0 ==> scores[d - 1] == init[d - 1];
    }
  }

  lemma OrderedParts(scores: seq<real>)
    requires NonDecreasing(scores)
    ensures scores != [] ==> NonDecreasing(scores[..|scores| - 1])
    ensures forall k :: 0 <= k < |scores| ==> scores[k] <= scores[|scores| - 1]
  {
  }

  lemma AboveLast(init: seq<real>, last: real, cutoff: real)
    ensures Above(init + [last], cutoff) == Above(init, cutoff) + (if last > cutoff then [last] else [])
  {
    assert (init + [last])[..|init|] == init;
  }

  /** The same in terms of what is left. */
  lemma AboveSuffix(scores: seq<real>, cutoff: real)
    requires NonDecreasing(scores)
    ensures var live := Above(scores, cutoff);
      && |live| <= |scores| && live == scores[|scores| - |live|..]
      && (forall k :: 0 <= k < |live| ==> live[k] > cutoff)
      && (|live| < |scores| ==> scores[|scores| - |live| - 1] <= cutoff)
  {
    hide Above;
    AboveOnly(scores, cutoff);
    var d := AboveCut(scores, cutoff);
  }

  lemma LuaKeepsOk(z: Zset, q: LuaRequest, windowMs: nat, limit: nat, least: int)
    requires limit >= 1 && ZsetOk(z, windowMs, limit, least) && ClocksAgree(q, least)
    requires forall k :: 0 <= k < |z.scores| ==> z.scores[k] <= q.now as real
    ensures var live := LuaLive(z, q, windowMs);
      LuaAfter(z, q, windowMs, limit).scores == live + if |live| < limit then [q.now as real] else []
    ensures ZsetOk(LuaAfter(z, q, windowMs, limit), windowMs, limit, Min(least, Offset(q)))
  {
    hide Above, LuaLive, ZsetOk, Insert;
    var live := LuaLive(z, q, windowMs);
    EvictionHarmless(z, q, windowMs, limit, least);
    ZsetOrdered(z, windowMs, limit, least);
    AboveSuffix(z.scores, (q.now - windowMs) as real);
    SuffixOk(z, |z.scores| - |live|, windowMs, limit, least, Min(least, Offset(q)));
    LiveWhole(z, |z.scores| - |live|, windowMs, limit, least, q.now as real);
    assert live + [] == live;
    if |live| < limit {
      AddedLast(live, q.now as real);
      AddedOk(live, q, windowMs, limit, least);
    }
  }

  lemma ZsetOrdered(z: Zset, windowMs: nat, limit: nat, least: int)
    requires ZsetOk(z, windowMs, limit, least)
    ensures NonDecreasing(z.scores) && |z.scores| <= limit
  {
  }

  lemma SuffixOk(z: Zset, d: nat, windowMs: nat, limit: nat, least: int, lower: int)
    requires ZsetOk(z, windowMs, limit, least) && d <= |z.scores| && lower <= least
    ensures ZsetOk(Zset(z.scores[d..], z.expiresAt), windowMs, limit, lower)
  {
  }

  lemma LiveWhole(z: Zset, d: nat, windowMs: nat, limit: nat, least: int, now: real)
    requires ZsetOk(z, windowMs, limit, least) && d <= |z.scores|
    requires forall k :: 0 <= k < |z.scores| ==> z.scores[k] <= now
    ensures var live := z.scores[d..];
      NonDecreasing(live) && forall k :: 0 <= k < |live| ==> live[k] == live[k].Floor as real && live[k] <= now
  {
  }

  lemma AddedLast(live: seq<real>, now: real)
    requires forall k :: 0 <= k < |live| ==> live[k] <= now
    ensures Insert(ScoreLeq, now, live) == live + [now]
  {
  }

  lemma AddedOk(live: seq<real>, q: LuaRequest, windowMs: nat, limit: nat, least: int)
    requires NonDecreasing(live) && |live| < limit
    requires forall k :: 0 <= k < |live| ==> live[k] == live[k].Floor as real && live[k] <= q.now as real
    ensures var z := Zset(live + [q.now as real], Some(q.server + windowMs + 1000));
      ZsetOk(z, windowMs, limit, Min(least, Offset(q)))
  {
    var scores, now := live + [q.now as real], q.now as real;
    var expiry := q.server + windowMs + 1000;
    assert now.Floor == q.now;
    assert now + (windowMs + 1000 + Min(least, Offset(q))) as real <= expiry as real;
    forall k | 0 <= k < |scores| ensures scores[k] <= now && scores[k] == scores[k].Floor as real {
      assert k < |live| ==> scores[k] == live[k];
    }
    forall i, j | 0 <= i < j < |scores| ensures scores[i] <= scores[j] {
      assert j < |live| ==> scores[i] == live[i] && scores[j] == live[j];
    }
  }

  /** After n requests the sorted set holds exactly the allowed stamps still in the window, and
      every decision so far was the specified one. */
  ghost predicate LuaTracks(reqs: seq<LuaRequest>, n: nat, windowMs: nat, limit: nat)
    requires limit >= 1 && n <= |reqs|
  {
    var (z, allowed) := LuaRun(reqs, n, windowMs, limit);
    && ZsetOk(z, windowMs, limit, LeastOffset(reqs, n))
    && z.scores == (if n == 0 then [] else Survivors(Nows(reqs), allowed, n, reqs[n - 1].now as real, windowMs as real))
    && Conforms(Recent(Nows(reqs), windowMs as real), limit, allowed)
  }

  lemma NoneYet(times: seq<real>, allowed: seq<bool>, now: real, window: real)
    ensures Survivors(times, allowed, 0, now, window) == [] == Above([], now - window)
  {
  }

  lemma LuaLiveTracks(reqs: seq<LuaRequest>, n: nat, windowMs: nat, limit: nat)
    requires limit >= 1 && n < |reqs| && LuaTracks(reqs, n, windowMs, limit) && LuaClocks(reqs)
    ensures var (z, allowed) := LuaRun(reqs, n, windowMs, limit);
      && LuaLive(z, reqs[n], windowMs) == Survivors(Nows(reqs), allowed, n, reqs[n].now as real, windowMs as real)
      && (forall k :: 0 <= k < |z.scores| ==> z.scores[k] <= reqs[n].now as real)
  {
    hide LuaRun, LuaLive, Above, Survivors, Conforms, ClocksAgree;
    ClocksStayClose(reqs, n);
    var (z, allowed) := LuaRun(reqs, n, windowMs, limit);
    EvictionHarmless(z, reqs[n], windowMs, limit, LeastOffset(reqs, n));
    NoneYet(Nows(reqs), allowed, reqs[n].now as real, windowMs as real);
    if n > 0 {
      SurvivorsOrdered(Nows(reqs), allowed, n, reqs[n - 1].now as real, windowMs as real);
      AboveSurvivors(Nows(reqs), allowed, n, reqs[n - 1].now as real, reqs[n].now as real, windowMs as real);
    }
  }

  /** The script, key expiry included, meets the same specification on its millisecond stamps. */
  lemma {:induction false} LuaRefinesSpec(reqs: seq<LuaRequest>, n: nat, windowMs: nat, limit: nat)
    requires windowMs >= 1 && limit >= 1 && n <= |reqs| && LuaClocks(reqs)
    ensures LuaTracks(reqs, n, windowMs, limit)
  {
    hide Survivors, LuaLive, Above, ZsetOk;
    if n == 0 {
      EmptyZsetOk(windowMs, limit, LeastOffset(reqs, 0));
    } else {
      LuaRefinesSpec(reqs, n - 1, windowMs, limit);
      LuaLiveTracks(reqs, n - 1, windowMs, limit);
      var (z, before) := LuaRun(reqs, n - 1, windowMs, limit);
      var q := reqs[n - 1];
      ClocksStayClose(reqs, n - 1);
      LuaKeepsOk(z, q, windowMs, limit, LeastOffset(reqs, n - 1));
      Extended(Nows(reqs), n - 1, before, windowMs as real, limit, |LuaLive(z, q, windowMs)| < limit);
    }
  }

  lemma EmptyZsetOk(windowMs: nat, limit: nat, least: int)
    ensures ZsetOk(Zset([], None), windowMs, limit, least)
  {}

  /** On every millisecond-valued sequence the script and the deque decide alike. */
  lemma LuaAgreesWithDeque(reqs: seq<LuaRequest>, times: seq<real>, window: nat, limit: nat)
    requires window >= 1 && limit >= 1 && LuaClocks(reqs)
    requires |times| == |reqs| && forall i :: 0 <= i < |reqs| ==> times[i] * 1000.0 == reqs[i].now as real
    ensures LuaRun(reqs, |reqs|, window * 1000, limit).1 == DequeRun(times, |reqs|, window, limit).1
  {
    var ms := Nows(reqs);
    forall i, j | 0 <= i < j < |times| ensures times[i] <= times[j] {
      assert ms[i] <= ms[j];
    }
    LuaRefinesSpec(reqs, |reqs|, window * 1000, limit);
    DequeRefinesSpec(times, |reqs|, window, limit);
    var a, b := LuaRun(reqs, |reqs|, window * 1000, limit).1, DequeRun(times, |reqs|, window, limit).1;
    var p, q := Recent(ms, (window * 1000) as real), Recent(times, window as real);
    forall i: nat, j: nat | j < i < |reqs| ensures p(i, j) <==> q(i, j) {
      assert ms[i] - ms[j] == (times[i] - times[j]) * 1000.0;
    }
    ConformsUnique(p, q, limit, a, b, |reqs|);
    assert a[..|reqs|] == a && b[..|reqs|] == b;
  }

  /** A span the script cannot look past: a window, or a millisecond less where it gets the caller's
      clock truncated. */
  ghost predicate ScriptFits(reqs: seq<LuaRequest>, times: seq<real>, window: nat, span: real) {
    && |times| == |reqs| && (forall i :: 0 <= i < |reqs| ==> reqs[i].now == Trunc(times[i] * 1000.0))
    && (span <= window as real - 0.001
        || (span <= window as real && forall i :: 0 <= i < |reqs| ==> times[i] * 1000.0 == reqs[i].now as real))
  }

  lemma TruncApart(a: real, b: real, d: int)
    requires b <= a
    ensures a - b < d as real - 1.0 ==> Trunc(a) - Trunc(b) < d
  {
  }

  lemma ScriptSpanRecent(
      reqs: seq<LuaRequest>, times: seq<real>, window: nat, span: real, to: real, i: nat, j: nat)
    requires ScriptFits(reqs, times, window, span) && NonDecreasing(times) && j < i < |reqs|
    requires InSpan(times, to - span, to)(i) && InSpan(times, to - span, to)(j)
    ensures Recent(Nows(reqs), (window * 1000) as real)(i, j) && Recent(times, window as real)(i, j)
  {
    hide Trunc;
    assert 0.0 <= times[i] - times[j] < span;
    if span <= window as real - 0.001 {
      assert times[i] * 1000.0 - times[j] * 1000.0 < (window * 1000) as real - 1.0;
      TruncApart(times[i] * 1000.0, times[j] * 1000.0, window * 1000);
    }
  }

  /** In any such span the script allows at most `limit` requests. */
  lemma ScriptCap(reqs: seq<LuaRequest>, times: seq<real>, window: nat, limit: nat, span: real, to: real)
    requires window >= 1 && limit >= 1 && LuaClocks(reqs) && NonDecreasing(times)
    requires ScriptFits(reqs, times, window, span)
    ensures Count(InSpan(times, to - span, to), LuaRun(reqs, |reqs|, window * 1000, limit).1, |reqs|) <= limit
  {
    hide ScriptFits, InSpan, Recent, Conforms, LuaRun, Survivors, ZsetOk;
    var allowed, counts := LuaRun(reqs, |reqs|, window * 1000, limit).1, Recent(Nows(reqs), (window * 1000) as real);
    LuaRefinesSpec(reqs, |reqs|, window * 1000, limit);
    ConformsSound(counts, limit, allowed);
    var p := InSpan(times, to - span, to);
    forall i: nat, j: nat | j < i < |reqs| && p(i) && p(j) ensures counts(i, j) {
      ScriptSpanRecent(reqs, times, window, span, to, i, j);
    }
    Cap(counts, limit, allowed, p, |reqs|);
  }

  /** In any window-long span (to - window, to] at most `limit` requests are allowed. */
  lemma SlidingCap(times: seq<real>, window: nat, limit: nat, to: real)
    requires window >= 1 && limit >= 1 && NonDecreasing(times)
    ensures Count(InSpan(times, to - window as real, to), DequeRun(times, |times|, window, limit).1, |times|) <= limit
  {
    DequeRefinesSpec(times, |times|, window, limit);
    var allowed := DequeRun(times, |times|, window, limit).1;
    ConformsSound(Recent(times, window as real), limit, allowed);
    Cap(Recent(times, window as real), limit, allowed, InSpan(times, to - window as real, to), |times|);
  }

  function InSpan(times: seq<real>, after: real, to: real): nat -> bool {
    (j: nat) => j < |times| && after < times[j] <= to
  }

  // ---------------------------------------------------------------- retry-after

  /** After a denial by the script, with no other request on the key, the returned number of
      whole seconds is the least that leads to an allow. */
  lemma LuaRetryExact(z: Zset, q: LuaRequest, windowMs: nat, limit: nat, least: int, later: LuaRequest, seconds: nat)
    requires limit >= 1 && ZsetOk(z, windowMs, limit, least)
    requires ClocksAgree(q, least) && ClocksAgree(later, Min(least, Offset(q)))
    requires forall k :: 0 <= k < |z.scores| ==> z.scores[k] <= q.now as real
    requires LuaVerdict(z, q, windowMs, limit).Deny? && later.now == q.now + 1000 * seconds
    ensures var r := LuaVerdict(z, q, windowMs, limit).retryAfter;
      r >= 1 && (LuaVerdict(LuaAfter(z, q, windowMs, limit), later, windowMs, limit).Allow? <==> seconds >= r)
  {
    hide Above;
    var live := LuaLive(z, q, windowMs);
    var z' := LuaAfter(z, q, windowMs, limit);
    EvictionHarmless(z, q, windowMs, limit, least);
    AboveSuffix(z.scores, (q.now - windowMs) as real);
    LuaKeepsOk(z, q, windowMs, limit, least);
    assert z'.scores == live;
    EvictionHarmless(z', later, windowMs, limit, Min(least, Offset(q)));
    AboveSuffix(live, (later.now - windowMs) as real);
    assert live[0] == live[0].Floor as real;
    RetryArithmetic(live[0].Floor, q.now, windowMs, seconds);
  }

  /** The same on the sorted set that any run leaves behind. */
  lemma LuaRetryReachable(reqs: seq<LuaRequest>, n: nat, windowMs: nat, limit: nat, later: LuaRequest, seconds: nat)
    requires windowMs >= 1 && limit >= 1 && n < |reqs| && LuaClocks(reqs)
    requires ClocksAgree(later, LeastOffset(reqs, n + 1)) && later.now == reqs[n].now + 1000 * seconds
    requires LuaVerdict(LuaRun(reqs, n, windowMs, limit).0, reqs[n], windowMs, limit).Deny?
    ensures var z := LuaRun(reqs, n, windowMs, limit).0;
      var r := LuaVerdict(z, reqs[n], windowMs, limit).retryAfter;
      var after := LuaVerdict(LuaAfter(z, reqs[n], windowMs, limit), later, windowMs, limit);
      r >= 1 && (after.Allow? <==> seconds >= r)
  {
    hide LuaVerdict, LuaAfter, LuaRun, LuaLive, Survivors, ZsetOk, Conforms;
    LuaRefinesSpec(reqs, n, windowMs, limit);
    LuaLiveTracks(reqs, n, windowMs, limit);
    ClocksStayClose(reqs, n);
    var z := LuaRun(reqs, n, windowMs, limit).0;
    LuaRetryExact(z, reqs[n], windowMs, limit, LeastOffset(reqs, n), later, seconds);
  }

  /** The script's rounding in plain numbers: at least one second, and enough exactly when the
      oldest score has left the window. */
  lemma RetryArithmetic(oldest: int, now: int, windowMs: nat, seconds: nat)
    requires oldest > now - windowMs
    ensures var retryMs := windowMs as real - (now as real - oldest as real);
      var atLeastOne := if retryMs < 1.0 then 1.0 else retryMs;
      var whole := (Trunc(atLeastOne) + 999) / 1000;
      && whole >= 1
      && (seconds >= whole <==> !(oldest as real > (now + 1000 * seconds - windowMs) as real))
  {
    var ms := windowMs - (now - oldest);
    assert windowMs as real - (now as real - oldest as real) == ms as real;
    assert Trunc(ms as real) == ms;
  }

  /** The deque's value is short of the true wait by less than a second, and it is long enough
      exactly when the true wait is whole or at most one second. */
  lemma DequeRetryShort(stamps: seq<real>, now: real, window: nat, limit: nat)
    requires limit >= 1 && |stamps| <= limit && NonDecreasing(stamps)
    requires DequeVerdict(stamps, now, window, limit).Deny?
    ensures var r := DequeVerdict(stamps, now, window, limit).retryAfter;
      var wait := window as real - (now - stamps[0]);
      && r >= 1 && wait - r as real < 1.0
      && (DequeVerdict(DequeAfter(stamps, now, window, limit), now + r as real, window, limit).Allow?
          <==> wait <= 1.0 || wait == wait.Floor as real)
  {
    var live := DropExpired(stamps, now, window as real);
    DropSuffix(stamps, now, window as real);
    assert live == stamps;
    var r := DequeVerdict(stamps, now, window, limit).retryAfter;
    DropSuffix(live, now + r as real, window as real);
  }

  lemma {:induction false} DequeBounded(times: seq<real>, n: nat, window: nat, limit: nat)
    requires limit >= 1 && n <= |times|
    ensures |DequeRun(times, n, window, limit).0| <= limit
  {
    if n > 0 {
      DequeBounded(times, n - 1, window, limit);
      DropSuffix(DequeRun(times, n - 1, window, limit).0, times[n - 1], window as real);
    }
  }

  /** The same on the deque that any run leaves behind. */
  lemma DequeRetryReachable(times: seq<real>, n: nat, window: nat, limit: nat)
    requires window >= 1 && limit >= 1 && n < |times| && NonDecreasing(times)
    requires DequeVerdict(DequeRun(times, n, window, limit).0, times[n], window, limit).Deny?
    ensures var stamps := DequeRun(times, n, window, limit).0;
      stamps != [] &&
      var r := DequeVerdict(stamps, times[n], window, limit).retryAfter;
      var wait := window as real - (times[n] - stamps[0]);
      var after := DequeVerdict(DequeAfter(stamps, times[n], window, limit), times[n] + r as real, window, limit);
      && r >= 1 && wait - r as real < 1.0
      && (after.Allow? <==> wait <= 1.0 || wait == wait.Floor as real)
  {
    hide DequeRun, Survivors, Conforms, DequeAfter;
    var (stamps, allowed) := DequeRun(times, n, window, limit);
    DequeRefinesSpec(times, n, window, limit);
    DequeBounded(times, n, window, limit);
    DropSuffix(stamps, times[n], window as real);
    if n > 0 { SurvivorsOrdered(times, allowed, n, times[n - 1], window as real); }
    DequeRetryShort(stamps, times[n], window, limit);
  }

  /** Half a second into a window of sixty, with its only place taken, the deque answers 59 seconds,
      and after 59 seconds it still denies. */
  lemma DequeStillDenies()
    ensures DequeVerdict([0.0], 0.5, 60, 1) == Deny(59)
    ensures DequeVerdict(DequeAfter([0.0], 0.5, 60, 1), 59.5, 60, 1).Deny?
  {
    assert DropExpired([0.0], 0.5, 60.0) == [0.0];
    assert (59.5 as real).Floor == 59;
  }

  lemma {:induction false} DropSuffix(stamps: seq<real>, now: real, window: real)
    ensures var live := DropExpired(stamps, now, window);
      && |live| <= |stamps|
      && (|live| == |stamps| ==> live == stamps)
      && (stamps != [] ==> (|live| < |stamps| <==> now - stamps[0] >= window))
  {
    if stamps != [] && now - stamps[0] >= window {
      DropSuffix(stamps[1..], now, window);
    }
  }
}
