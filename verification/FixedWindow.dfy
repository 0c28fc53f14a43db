/** The counter tuple and the Redis counters of the fixed-window strategy, and failover. */
module FixedWindow {
  import opened Wrappers
  import opened Numbers
  import opened RateSpec

  /** The start of the aligned bucket that holds `now`. */
  function WindowStart(now: real, window: nat): (start: int)
    requires window >= 1
  {
    (now / window as real).Floor * window
  }

  lemma WindowStartAligned(now: real, window: nat)
    requires window >= 1
    ensures var start := WindowStart(now, window);
      start as real <= now < (start + window) as real
  {
    var x := now / window as real;
    AlignedProduct(x, x.Floor, window);
    Quotient(now, window as real);
  }

  lemma Quotient(now: real, w: real)
    requires w > 0.0
    ensures now / w * w == now
  {
  }

  lemma AlignedProduct(x: real, q: int, window: nat)
    requires window >= 1 && q as real <= x < q as real + 1.0
    ensures (q * window) as real <= x * window as real < (q * window + window) as real
  {
    var w := window as real;
    Scale(q as real, x, w);
    Scale(x, q as real + 1.0, w);
    CastProduct(q, window);
    OneMoreReal(q as real, w);
  }

  lemma OneMoreReal(x: real, w: real)
    ensures (x + 1.0) * w == x * w + w
  {
  }

  lemma {:induction false} CastProduct(q: int, n: nat)
    ensures (q * n) as real == q as real * n as real
  {
    if n > 0 {
      CastProduct(q, n - 1);
      LastFactor(q, n - 1);
      LastFactorReal(q as real, (n - 1) as real);
    }
  }

  lemma LastFactor(q: int, n: int)
    ensures q * (n + 1) == q * n + q
  {
  }

  lemma LastFactorReal(q: real, n: real)
    ensures q * (n + 1.0) == q * n + q
  {
  }

  lemma Scale(x: real, y: real, w: real)
    requires w > 0.0
    ensures x <= y ==> x * w <= y * w
    ensures x < y ==> x * w < y * w
  {
    DifferenceScaled(x, y, w);
    if x < y { PositiveReal(y - x, w); }
  }

  lemma DifferenceScaled(x: real, y: real, w: real)
    ensures (y - x) * w == y * w - x * w
  {
  }

  lemma PositiveReal(a: real, b: real)
    requires a > 0.0 && b > 0.0
    ensures a * b > 0.0
  {
  }

  lemma WindowStartMonotone(a: real, b: real, window: nat)
    requires window >= 1 && a <= b
    ensures WindowStart(a, window) <= WindowStart(b, window)
  {
    var w := window as real;
    Scale(b / w, a / w, w);
    Quotient(a, w);
    Quotient(b, w);
    NextMultiple((a / w).Floor, (b / w).Floor, window);
  }

  function SecondsLeft(now: real, window: nat): int
    requires window >= 1
  {
    var left := WindowStart(now, window) + window - Trunc(now);
    if left > 1 then left else 1
  }

  // ---------------------------------------------------------------- the counter tuple

  datatype Slot = Slot(start: int, count: nat)

  function SlotCount(slot: Option<Slot>, start: int): nat {
    if slot.Some? && slot.value.start == start then slot.value.count else 0
  }

  function MemoryVerdict(slot: Option<Slot>, now: real, window: nat, limit: nat): Verdict
    requires window >= 1
  {
    if SlotCount(slot, WindowStart(now, window)) >= limit then Deny(SecondsLeft(now, window)) else Allow
  }

  /** Only an allowed request is counted. */
  function MemoryAfter(slot: Option<Slot>, now: real, window: nat, limit: nat): Option<Slot>
    requires window >= 1
  {
    var start := WindowStart(now, window);
    var count := SlotCount(slot, start);
    if count >= limit then slot else Some(Slot(start, count + 1))
  }

  function MemoryRun(times: seq<real>, n: nat, window: nat, limit: nat): (r: (Option<Slot>, seq<bool>))
    requires window >= 1 && n <= |times|
    ensures |r.1| == n
  {
    if n == 0 then (None, [])
    else
      var (slot, allowed) := MemoryRun(times, n - 1, window, limit);
      (MemoryAfter(slot, times[n - 1], window, limit),
       allowed + [MemoryVerdict(slot, times[n - 1], window, limit).Allow?])
  }

  // ---------------------------------------------------------------- the Redis counters

  datatype Counter = Counter(count: nat, expiresAt: int)

  /** How a request reached a limiter: Redis answered, Redis counted it but the answer was lost,
      or it went straight to memory. */
  datatype Via = Redis | LostThenMemory | Memory

  datatype FixedRequest = FixedRequest(now: real, server: real, evicted: bool, via: Via)

  function LiveCount(counters: map<int, Counter>, q: FixedRequest, start: int): nat {
    if start !in counters || (q.evicted && q.server >= counters[start].expiresAt as real) then 0
    else counters[start].count
  }

  /** INCR then EXPIREAT window_end + 1: every request is counted, denied ones too. */
  function RedisAfter(counters: map<int, Counter>, q: FixedRequest, window: nat): map<int, Counter>
    requires window >= 1
  {
    var start := WindowStart(q.now, window);
    counters[start := Counter(LiveCount(counters, q, start) + 1, start + window + 1)]
  }

  function RedisVerdict(counters: map<int, Counter>, q: FixedRequest, window: nat, limit: nat): Verdict
    requires window >= 1
  {
    if LiveCount(counters, q, WindowStart(q.now, window)) + 1 <= limit then Allow
    else Deny(SecondsLeft(q.now, window))
  }

  /** Both stores of one key. */
  datatype FixedState = FixedState(slot: Option<Slot>, counters: map<int, Counter>)

  function FixedVerdict(s: FixedState, q: FixedRequest, window: nat, limit: nat): Verdict
    requires window >= 1
  {
    if q.via.Redis? then RedisVerdict(s.counters, q, window, limit)
    else MemoryVerdict(s.slot, q.now, window, limit)
  }

  function FixedAfter(s: FixedState, q: FixedRequest, window: nat, limit: nat): FixedState
    requires window >= 1
  {
    FixedState(if q.via.Redis? then s.slot else MemoryAfter(s.slot, q.now, window, limit),
               if q.via.Memory? then s.counters else RedisAfter(s.counters, q, window))
  }

  function FixedRun(reqs: seq<FixedRequest>, n: nat, window: nat, limit: nat): (r: (FixedState, seq<bool>))
    requires window >= 1 && n <= |reqs|
    ensures |r.1| == n
  {
    if n == 0 then (FixedState(None, map[]), [])
    else
      var (s, allowed) := FixedRun(reqs, n - 1, window, limit);
      (FixedAfter(s, reqs[n - 1], window, limit), allowed + [FixedVerdict(s, reqs[n - 1], window, limit).Allow?])
  }

  // ---------------------------------------------------------------- against the specification

  function InBucket(times: seq<real>, window: nat, start: int): nat -> bool
    requires window >= 1
  {
    (j: nat) => j < |times| && WindowStart(times[j], window) == start
  }

  /** Requests of one aligned bucket count against one another. */
  function SameBucket(times: seq<real>, window: nat): Against
    requires window >= 1
  {
    (i: nat, j: nat) => i < |times| && j < |times| && WindowStart(times[i], window) == WindowStart(times[j], window)
  }

  lemma OnBucket(times: seq<real>, window: nat, i: nat, allowed: seq<bool>, n: nat)
    requires window >= 1 && i < |times| && n <= |allowed| && n <= |times|
    ensures Count(On(SameBucket(times, window), i), allowed, n)
         == Count(InBucket(times, window, WindowStart(times[i], window)), allowed, n)
  {
    hide WindowStart;
    var start := WindowStart(times[i], window);
    CountPrefix(On(SameBucket(times, window), i), InBucket(times, window, start), allowed, allowed, n);
  }

  /** The tuple holds the allowed count of its bucket, for the current bucket and any later one. */
  ghost predicate MemoryTracks(times: seq<real>, n: nat, window: nat, limit: nat)
    requires window >= 1 && n <= |times|
  {
    var (slot, allowed) := MemoryRun(times, n, window, limit);
    && (forall b: int :: (n > 0 ==> WindowStart(times[n - 1], window) <= b) ==>
          SlotCount(slot, b) == Count(InBucket(times, window, b), allowed, n))
    && Conforms(SameBucket(times, window), limit, allowed)
  }

  lemma {:induction false} MemoryRefinesSpec(times: seq<real>, n: nat, window: nat, limit: nat)
    requires window >= 1 && n <= |times| && NonDecreasing(times)
    ensures MemoryTracks(times, n, window, limit)
  {
    hide WindowStart;
    if n > 0 {
      MemoryRefinesSpec(times, n - 1, window, limit);
      var (slot, before) := MemoryRun(times, n - 1, window, limit);
      var (slot', allowed) := MemoryRun(times, n, window, limit);
      var start := WindowStart(times[n - 1], window);
      if n > 1 { WindowStartMonotone(times[n - 2], times[n - 1], window); }
      OnBucket(times, window, n - 1, before, n - 1);
      ConformsExtend(SameBucket(times, window), limit, before, SlotCount(slot, start) < limit);
      forall b: int | start <= b ensures SlotCount(slot', b) == Count(InBucket(times, window, b), allowed, n) {
        CountNext(InBucket(times, window, b), before, SlotCount(slot, start) < limit);
      }
    }
  }

  function Times(reqs: seq<FixedRequest>): (times: seq<real>)
    ensures |times| == |reqs| && forall i :: 0 <= i < |reqs| ==> times[i] == reqs[i].now
  {
    seq(|reqs|, i requires 0 <= i < |reqs| => reqs[i].now)
  }

  /** Clocks run forward and caller and server agree to within a second. */
  ghost predicate FixedClocks(reqs: seq<FixedRequest>) {
    NonDecreasing(Times(reqs)) && forall i :: 0 <= i < |reqs| ==> Synchronised(reqs[i])
  }

  predicate Synchronised(q: FixedRequest) {
    q.server <= q.now + 1.0
  }

  function CounterCount(counters: map<int, Counter>, start: int): nat {
    if start in counters then counters[start].count else 0
  }

  ghost predicate ExpiriesOk(counters: map<int, Counter>, window: nat) {
    forall b :: b in counters ==> counters[b].expiresAt == b + window + 1
  }

  /** A counter outlives its bucket, so eviction never resets a live one. */
  lemma EvictionTooLate(counters: map<int, Counter>, q: FixedRequest, window: nat)
    requires window >= 1 && ExpiriesOk(counters, window) && Synchronised(q)
    ensures LiveCount(counters, q, WindowStart(q.now, window)) == CounterCount(counters, WindowStart(q.now, window))
  {
    hide WindowStart;
    WindowStartAligned(q.now, window);
  }

  /** A counter is dropped one second after its bucket ends, no sooner and no later. */
  lemma CounterForgottenIff(counters: map<int, Counter>, q: FixedRequest, later: FixedRequest, window: nat)
    requires window >= 1 && later.evicted
    ensures LiveCount(RedisAfter(counters, q, window), later, WindowStart(q.now, window)) == 0
       <==> later.server >= (WindowStart(q.now, window) + window + 1) as real
  {
    hide WindowStart;
  }

  function Total(times: seq<real>, n: nat, window: nat, start: int): nat
    requires window >= 1 && n <= |times|
  {
    if n == 0 then 0
    else Total(times, n - 1, window, start) + if WindowStart(times[n - 1], window) == start then 1 else 0
  }

  /** Of the requests of a bucket, the first `limit` were allowed. */
  ghost predicate FirstAllowed(times: seq<real>, n: nat, window: nat, limit: nat, allowed: seq<bool>, b: int)
    requires window >= 1 && n <= |times| && n <= |allowed|
  {
    var total := Total(times, n, window, b);
    Count(InBucket(times, window, b), allowed, n) == if total <= limit then total else limit
  }

  /** The counters hold the request totals, for the current bucket and any later one. */
  ghost predicate RedisTracks(reqs: seq<FixedRequest>, n: nat, window: nat, limit: nat)
    requires window >= 1 && n <= |reqs|
  {
    var (s, allowed) := FixedRun(reqs, n, window, limit);
    var times := Times(reqs);
    && ExpiriesOk(s.counters, window)
    && (forall b: int :: (n > 0 ==> WindowStart(times[n - 1], window) <= b) ==>
          CounterCount(s.counters, b) == Total(times, n, window, b))
    && (forall b: int :: FirstAllowed(times, n, window, limit, allowed, b))
    && Conforms(SameBucket(times, window), limit, allowed)
  }

  lemma FirstAllowedStep(times: seq<real>, n: nat, window: nat, limit: nat, before: seq<bool>, b: int)
    requires window >= 1 && 0 < n <= |times| && |before| == n - 1
        && FirstAllowed(times, n - 1, window, limit, before, b)
    ensures var next := Total(times, n - 1, window, WindowStart(times[n - 1], window)) < limit;
      FirstAllowed(times, n, window, limit, before + [next], b)
  {
    hide WindowStart, Count;
    var next := Total(times, n - 1, window, WindowStart(times[n - 1], window)) < limit;
    CountNext(InBucket(times, window, b), before, next);
  }

  lemma RedisTracksNone(reqs: seq<FixedRequest>, window: nat, limit: nat)
    requires window >= 1
    ensures RedisTracks(reqs, 0, window, limit)
  {
  }

  /** Counting denied requests as well changes no decision. */
  lemma {:induction false} RedisRefinesSpec(reqs: seq<FixedRequest>, n: nat, window: nat, limit: nat)
    requires window >= 1 && n <= |reqs| && FixedClocks(reqs)
    requires forall i :: 0 <= i < |reqs| ==> reqs[i].via.Redis?
    ensures RedisTracks(reqs, n, window, limit)
  {
    hide WindowStart, Conforms, Count, SameBucket, InBucket;
    if n == 0 {
      RedisTracksNone(reqs, window, limit);
    } else {
      var times, q := Times(reqs), reqs[n - 1];
      RedisRefinesSpec(reqs, n - 1, window, limit);
      var (s, before) := FixedRun(reqs, n - 1, window, limit);
      var start := WindowStart(q.now, window);
      if n > 1 { WindowStartMonotone(times[n - 2], times[n - 1], window); }
      EvictionTooLate(s.counters, q, window);
      OnBucket(times, window, n - 1, before, n - 1);
      assert FirstAllowed(times, n - 1, window, limit, before, start);
      var next := Total(times, n - 1, window, start) < limit;
      var (s', allowed) := FixedRun(reqs, n, window, limit);
      assert allowed == before + [next];
      assert s'.counters == s.counters[start := Counter(Total(times, n - 1, window, start) + 1, start + window + 1)];
      ConformsExtend(SameBucket(times, window), limit, before, next);
      forall b: int | start <= b ensures CounterCount(s'.counters, b) == Total(times, n, window, b) {
        assert CounterCount(s.counters, b) == Total(times, n - 1, window, b);
      }
      forall b: int ensures FirstAllowed(times, n, window, limit, allowed, b) {
        FirstAllowedStep(times, n, window, limit, before, b);
      }
    }
  }

  /** The two fixed-window limiters decide identically. */
  lemma RedisAgreesWithMemory(reqs: seq<FixedRequest>, window: nat, limit: nat)
    requires window >= 1 && FixedClocks(reqs)
    requires forall i :: 0 <= i < |reqs| ==> reqs[i].via.Redis?
    ensures FixedRun(reqs, |reqs|, window, limit).1 == MemoryRun(Times(reqs), |reqs|, window, limit).1
  {
    var times := Times(reqs);
    RedisRefinesSpec(reqs, |reqs|, window, limit);
    MemoryRefinesSpec(times, |reqs|, window, limit);
    var a, b := FixedRun(reqs, |reqs|, window, limit).1, MemoryRun(times, |reqs|, window, limit).1;
    ConformsUnique(SameBucket(times, window), SameBucket(times, window), limit, a, b, |reqs|);
    assert a[..|reqs|] == a && b[..|reqs|] == b;
  }

  // ---------------------------------------------------------------- caps

  function InInterval(times: seq<real>, from: real, to: real): nat -> bool {
    (j: nat) => j < |times| && from <= times[j] < to
  }

  /** At most `limit` per aligned bucket and at most twice that in any window-long interval. */
  lemma FixedCaps(times: seq<real>, window: nat, limit: nat, start: int, from: real)
    requires window >= 1 && NonDecreasing(times)
    ensures var allowed := MemoryRun(times, |times|, window, limit).1;
      && Count(InBucket(times, window, start), allowed, |times|) <= limit
      && Count(InInterval(times, from, from + window as real), allowed, |times|) <= 2 * limit
  {
    hide WindowStart;
    MemoryRefinesSpec(times, |times|, window, limit);
    var allowed := MemoryRun(times, |times|, window, limit).1;
    ConformsSound(SameBucket(times, window), limit, allowed);
    BucketCap(times, window, limit, allowed, start);
    var first := WindowStart(from, window);
    BucketCap(times, window, limit, allowed, first);
    BucketCap(times, window, limit, allowed, first + window);
    forall j: nat | j < |times| && InInterval(times, from, from + window as real)(j)
      ensures InBucket(times, window, first)(j) || InBucket(times, window, first + window)(j)
    {
      NextBucket(from, times[j], window);
    }
    CountEither(InInterval(times, from, from + window as real), InBucket(times, window, first),
                InBucket(times, window, first + window), allowed, |times|);
  }

  lemma BucketCap(times: seq<real>, window: nat, limit: nat, allowed: seq<bool>, start: int)
    requires window >= 1 && |allowed| == |times| && Sound(SameBucket(times, window), limit, allowed)
    ensures Count(InBucket(times, window, start), allowed, |times|) <= limit
  {
    hide WindowStart;
    Cap(SameBucket(times, window), limit, allowed, InBucket(times, window, start), |times|);
  }

  /** A window-long interval meets two aligned buckets. */
  lemma NextBucket(from: real, t: real, window: nat)
    requires window >= 1 && from <= t < from + window as real
    ensures WindowStart(t, window) == WindowStart(from, window)
         || WindowStart(t, window) == WindowStart(from, window) + window
  {
    hide WindowStart;
    var p, q := BucketIndex(from, window), BucketIndex(t, window);
    WindowStartAligned(from, window);
    WindowStartAligned(t, window);
    WindowStartMonotone(from, t, window);
    MultiplesApart(p, q, window);
  }

  function BucketIndex(now: real, window: nat): (p: int)
    requires window >= 1
    ensures WindowStart(now, window) == p * window
  {
    (now / window as real).Floor
  }

  lemma MultiplesApart(p: int, q: int, window: nat)
    requires p * window <= q * window < p * window + 2 * window
    ensures q * window == p * window || q * window == p * window + window
  {
    NextMultiple(q, p, window);
    NextMultiple(p + 1, q, window);
    Distribute(p, 0, window);
  }

  // ---------------------------------------------------------------- retry-after

  /** The returned number of whole seconds is the least that reaches the next bucket. */
  lemma SecondsLeftExact(now: real, window: nat, seconds: nat)
    requires window >= 1 && now >= 0.0
    ensures var start := WindowStart(now, window);
      && SecondsLeft(now, window) >= 1
      && (seconds >= SecondsLeft(now, window) <==> WindowStart(now + seconds as real, window) != start)
      && WindowStart(now + seconds as real, window) >= start
  {
    hide WindowStart;
    var later := now + seconds as real;
    var start, start' := WindowStart(now, window), WindowStart(later, window);
    WindowStartAligned(now, window);
    WindowStartAligned(later, window);
    WindowStartMonotone(now, later, window);
    assert now.Floor <= start + window - 1;
    if seconds >= SecondsLeft(now, window) {
      assert later >= (start + window) as real;
    } else {
      assert later < (start + window) as real;
      BetweenStarts(now, later, window);
    }
  }

  lemma BetweenStarts(a: real, b: real, window: nat)
    requires window >= 1 && a <= b < (WindowStart(a, window) + window) as real
    ensures WindowStart(a, window) == WindowStart(b, window)
  {
    hide WindowStart;
    var p, q := BucketIndex(a, window), BucketIndex(b, window);
    WindowStartMonotone(a, b, window);
    WindowStartAligned(b, window);
    NextMultiple(p, q, window);
    NextMultiple(q, p, window);
  }

  lemma NextMultiple(p: int, q: int, window: nat)
    ensures q > p ==> q * window >= p * window + window
  {
    if q > p {
      Distribute(p, q - p - 1, window);
      NonNegative(q - p - 1, window);
    }
  }

  lemma NonNegative(a: int, b: int)
    requires 0 <= a && 0 <= b
    ensures 0 <= a * b
  {
  }

  lemma Distribute(p: int, more: int, window: int)
    ensures (p + 1 + more) * window == p * window + window + more * window
    ensures (p + 1) * window == p * window + window
  {
  }

  /** After a denial by the counter tuple, with no other request on the key, waiting leads to an
      allow exactly when it lasts the returned number of whole seconds. */
  lemma MemoryRetryExact(slot: Option<Slot>, now: real, window: nat, limit: nat, seconds: nat)
    requires window >= 1 && limit >= 1 && now >= 0.0 && MemoryVerdict(slot, now, window, limit).Deny?
    ensures var r := MemoryVerdict(slot, now, window, limit).retryAfter;
      var later := MemoryVerdict(MemoryAfter(slot, now, window, limit), now + seconds as real, window, limit);
      r >= 1 && (later.Allow? <==> seconds >= r)
  {
    hide WindowStart;
    SecondsLeftExact(now, window, seconds);
  }

  /** The same for the Redis counters. */
  lemma RedisRetryExact(counters: map<int, Counter>, q: FixedRequest, window: nat, limit: nat,
                        later: FixedRequest, seconds: nat)
    requires window >= 1 && limit >= 1 && q.now >= 0.0 && ExpiriesOk(counters, window)
    requires Synchronised(q) && Synchronised(later) && later.now == q.now + seconds as real
    requires forall b :: b in counters ==> b <= WindowStart(q.now, window)
    requires RedisVerdict(counters, q, window, limit).Deny?
    ensures var r := RedisVerdict(counters, q, window, limit).retryAfter;
      r >= 1 && (RedisVerdict(RedisAfter(counters, q, window), later, window, limit).Allow? <==> seconds >= r)
  {
    hide WindowStart;
    SecondsLeftExact(q.now, window, seconds);
    EvictionTooLate(RedisAfter(counters, q, window), later, window);
  }

  // ---------------------------------------------------------------- failover

  /** Requests of one bucket that Redis answered, and those that memory answered. */
  function Answered(reqs: seq<FixedRequest>, window: nat, start: int, byRedis: bool): nat -> bool
    requires window >= 1
  {
    (j: nat) => j < |reqs| && WindowStart(reqs[j].now, window) == start && (reqs[j].via.Redis? <==> byRedis)
  }

  function InIt(reqs: seq<FixedRequest>, i: nat, window: nat, start: int): bool
    requires window >= 1 && i < |reqs|
  {
    WindowStart(reqs[i].now, window) == start
  }

  /** The requests of a bucket that Redis counted, whether or not its answer arrived. */
  function Reached(reqs: seq<FixedRequest>, n: nat, window: nat, start: int): nat
    requires window >= 1 && n <= |reqs|
  {
    if n == 0 then 0
    else
      Reached(reqs, n - 1, window, start)
      + if InIt(reqs, n - 1, window, start) && !reqs[n - 1].via.Memory? then 1 else 0
  }

  /** Those that fell back to memory. */
  function FellBack(reqs: seq<FixedRequest>, n: nat, window: nat, start: int): nat
    requires window >= 1 && n <= |reqs|
  {
    if n == 0 then 0
    else
      FellBack(reqs, n - 1, window, start)
      + if InIt(reqs, n - 1, window, start) && !reqs[n - 1].via.Redis? then 1 else 0
  }

  /** Those that Redis answered and that were among the first `limit` to reach it. */
  function Served(reqs: seq<FixedRequest>, n: nat, window: nat, limit: nat, start: int): nat
    requires window >= 1 && n <= |reqs|
  {
    if n == 0 then 0
    else
      Served(reqs, n - 1, window, limit, start)
      + if InIt(reqs, n - 1, window, start) && reqs[n - 1].via.Redis? && Reached(reqs, n - 1, window, start) < limit
        then 1 else 0
  }

  ghost predicate Current(reqs: seq<FixedRequest>, n: nat, window: nat, start: int)
    requires window >= 1 && n <= |reqs|
  {
    n > 0 ==> WindowStart(reqs[n - 1].now, window) <= start
  }

  /** What each store has let through in a bucket, and what it holds while the bucket lasts. */
  ghost predicate BothExact(reqs: seq<FixedRequest>, n: nat, window: nat, limit: nat, start: int)
    requires window >= 1 && n <= |reqs|
  {
    var (s, allowed) := FixedRun(reqs, n, window, limit);
    var memory := Min(limit, FellBack(reqs, n, window, start));
    && Count(Answered(reqs, window, start, true), allowed, n) == Served(reqs, n, window, limit, start)
    && Count(Answered(reqs, window, start, false), allowed, n) == memory
    && (Current(reqs, n, window, start) ==>
          CounterCount(s.counters, start) == Reached(reqs, n, window, start) && SlotCount(s.slot, start) == memory)
  }

  /** Neither store knows a bucket later than the last request's, and counters expire when they should. */
  ghost predicate NoneLater(reqs: seq<FixedRequest>, n: nat, window: nat, s: FixedState)
    requires window >= 1 && n <= |reqs|
  {
    && ExpiriesOk(s.counters, window)
    && (forall b :: b in s.counters ==> n > 0 && b <= WindowStart(reqs[n - 1].now, window))
    && (s.slot.Some? ==> n > 0 && s.slot.value.start <= WindowStart(reqs[n - 1].now, window))
  }

  lemma StartsOrdered(reqs: seq<FixedRequest>, n: nat, window: nat)
    requires window >= 1 && 1 < n <= |reqs| && FixedClocks(reqs)
    ensures WindowStart(reqs[n - 2].now, window) <= WindowStart(reqs[n - 1].now, window)
  {
    assert Times(reqs)[n - 2] <= Times(reqs)[n - 1];
    WindowStartMonotone(reqs[n - 2].now, reqs[n - 1].now, window);
  }

  lemma {:induction false} FailoverKnowsNoneLater(reqs: seq<FixedRequest>, n: nat, window: nat, limit: nat)
    requires window >= 1 && n <= |reqs| && FixedClocks(reqs)
    ensures NoneLater(reqs, n, window, FixedRun(reqs, n, window, limit).0)
  {
    hide WindowStart;
    if n > 0 {
      FailoverKnowsNoneLater(reqs, n - 1, window, limit);
      if n > 1 { StartsOrdered(reqs, n, window); }
    }
  }

  /** Under any pattern of outages, lost answers and fallbacks: memory lets through as many requests
      of a bucket as fell back to it, up to the limit, and Redis those it answered among the first
      `limit` that reached it. */
  lemma {:induction false} FailoverExact(reqs: seq<FixedRequest>, n: nat, window: nat, limit: nat, start: int)
    requires window >= 1 && n <= |reqs| && FixedClocks(reqs)
    ensures BothExact(reqs, n, window, limit, start)
  {
    hide WindowStart, Count, Answered;
    if n == 0 {
      NoneAnswered(reqs, window, start);
    } else {
      FailoverExact(reqs, n - 1, window, limit, start);
      FailoverKnowsNoneLater(reqs, n - 1, window, limit);
      if n > 1 { StartsOrdered(reqs, n, window); }
      ExactStep(reqs, n, window, limit, start);
    }
  }

  lemma NoneAnswered(reqs: seq<FixedRequest>, window: nat, start: int)
    requires window >= 1
    ensures forall p :: Count(p, [], 0) == 0
  {
  }

  lemma AnsweredNext(reqs: seq<FixedRequest>, window: nat, start: int, before: seq<bool>, next: bool, byRedis: bool)
    requires window >= 1 && |before| < |reqs|
    ensures var p, q := Answered(reqs, window, start, byRedis), reqs[|before|];
      Count(p, before + [next], |before| + 1) == Count(p, before, |before|)
        + if next && InIt(reqs, |before|, window, start) && (q.via.Redis? <==> byRedis) then 1 else 0
  {
    hide WindowStart;
    CountNext(Answered(reqs, window, start, byRedis), before, next);
  }

  lemma ExactStep(reqs: seq<FixedRequest>, n: nat, window: nat, limit: nat, start: int)
    requires window >= 1 && 0 < n <= |reqs| && Synchronised(reqs[n - 1])
    requires BothExact(reqs, n - 1, window, limit, start)
    requires NoneLater(reqs, n - 1, window, FixedRun(reqs, n - 1, window, limit).0)
    requires n > 1 ==> WindowStart(reqs[n - 2].now, window) <= WindowStart(reqs[n - 1].now, window)
    ensures BothExact(reqs, n, window, limit, start)
  {
    hide WindowStart, Count, Answered, SecondsLeft;
    var q := reqs[n - 1];
    var (s, before) := FixedRun(reqs, n - 1, window, limit);
    var next := FixedVerdict(s, q, window, limit).Allow?;
    EvictionTooLate(s.counters, q, window);
    AnsweredNext(reqs, window, start, before, next, true);
    AnsweredNext(reqs, window, start, before, next, false);
  }

  lemma {:induction false} ServedWithin(reqs: seq<FixedRequest>, n: nat, window: nat, limit: nat, start: int)
    requires window >= 1 && n <= |reqs|
    ensures Served(reqs, n, window, limit, start) <= Min(limit, Reached(reqs, n, window, start))
  {
    hide WindowStart;
    if n > 0 { ServedWithin(reqs, n - 1, window, limit, start); }
  }

  lemma {:induction false} CountSplit(reqs: seq<FixedRequest>, window: nat, start: int, allowed: seq<bool>, n: nat)
    requires window >= 1 && n <= |reqs| && n <= |allowed|
    ensures Count(InBucket(Times(reqs), window, start), allowed, n)
         == Count(Answered(reqs, window, start, true), allowed, n)
            + Count(Answered(reqs, window, start, false), allowed, n)
  {
    hide WindowStart;
    if n > 0 { CountSplit(reqs, window, start, allowed, n - 1); }
  }

  /** How many requests of an aligned bucket are allowed, whatever the pattern of Redis failures;
      it is at most twice the limit, and within the limit exactly when Redis served none or both
      shares together fit. */
  lemma FailoverCap(reqs: seq<FixedRequest>, window: nat, limit: nat, start: int)
    requires window >= 1 && FixedClocks(reqs)
    ensures var total := Count(InBucket(Times(reqs), window, start), FixedRun(reqs, |reqs|, window, limit).1, |reqs|);
      var served, fell := Served(reqs, |reqs|, window, limit, start), FellBack(reqs, |reqs|, window, start);
      && total == served + Min(limit, fell)
      && total <= 2 * limit
      && (total <= limit <==> served == 0 || served + fell <= limit)
  {
    hide WindowStart, Count, Answered, InBucket;
    FailoverExact(reqs, |reqs|, window, limit, start);
    ServedWithin(reqs, |reqs|, window, limit, start);
    CountSplit(reqs, window, start, FixedRun(reqs, |reqs|, window, limit).1, |reqs|);
  }

  /** Retry-after on the counters any run leaves behind. */
  lemma RedisRetryReachable(
      reqs: seq<FixedRequest>, n: nat, window: nat, limit: nat, later: FixedRequest, seconds: nat)
    requires window >= 1 && limit >= 1 && n < |reqs| && FixedClocks(reqs) && reqs[n].now >= 0.0
    requires Synchronised(later) && later.now == reqs[n].now + seconds as real
    requires RedisVerdict(FixedRun(reqs, n, window, limit).0.counters, reqs[n], window, limit).Deny?
    ensures var counters := FixedRun(reqs, n, window, limit).0.counters;
      var r := RedisVerdict(counters, reqs[n], window, limit).retryAfter;
      r >= 1 && (RedisVerdict(RedisAfter(counters, reqs[n], window), later, window, limit).Allow? <==> seconds >= r)
  {
    hide WindowStart, RedisVerdict, RedisAfter;
    FailoverKnowsNoneLater(reqs, n, window, limit);
    if n > 0 { StartsOrdered(reqs, n + 1, window); }
    RedisRetryExact(FixedRun(reqs, n, window, limit).0.counters, reqs[n], window, limit, later, seconds);
  }

  function Outage(limit: nat): (reqs: seq<FixedRequest>)
    ensures |reqs| == 2 * limit
    ensures forall i :: 0 <= i < |reqs| ==>
      reqs[i] == FixedRequest(0.0, 0.0, false, if i < limit then Redis else Memory)
  {
    seq(2 * limit, i => FixedRequest(0.0, 0.0, false, if i < limit then Redis else Memory))
  }

  /** Redis going down once its quota is spent doubles the bucket's quota: the cap is attained. */
  lemma {:induction false} FailoverCapAttained(window: nat, limit: nat, n: nat)
    requires window >= 1 && n <= 2 * limit
    ensures FixedClocks(Outage(limit))
    ensures var (s, allowed) := FixedRun(Outage(limit), n, window, limit);
      && Count(InBucket(Times(Outage(limit)), window, 0), allowed, n) == n
      && CounterCount(s.counters, 0) == (if n < limit then n else limit)
      && SlotCount(s.slot, 0) == (if n < limit then 0 else n - limit)
  {
    hide WindowStart, SecondsLeft, Count, InBucket;
    OutageStart(window, limit);
    if n > 0 {
      FailoverCapAttained(window, limit, n - 1);
      var (s, before) := FixedRun(Outage(limit), n - 1, window, limit);
      OutageStep(s, if n - 1 < limit then Redis else Memory, window, limit);
      InOutage(window, limit, n - 1);
      CountNext(InBucket(Times(Outage(limit)), window, 0), before, true);
    }
  }

  lemma OutageStart(window: nat, limit: nat)
    requires window >= 1
    ensures WindowStart(0.0, window) == 0 && FixedClocks(Outage(limit))
    ensures Count(InBucket(Times(Outage(limit)), window, 0), [], 0) == 0
  {
  }

  lemma InOutage(window: nat, limit: nat, i: nat)
    requires window >= 1 && i < 2 * limit && WindowStart(0.0, window) == 0
    ensures InBucket(Times(Outage(limit)), window, 0)(i)
  {
    hide WindowStart;
  }

  lemma OutageStep(s: FixedState, via: Via, window: nat, limit: nat)
    requires window >= 1 && !via.LostThenMemory? && WindowStart(0.0, window) == 0
    requires if via.Redis? then CounterCount(s.counters, 0) < limit else SlotCount(s.slot, 0) < limit
    ensures var q := FixedRequest(0.0, 0.0, false, via);
      var s' := FixedAfter(s, q, window, limit);
      && FixedVerdict(s, q, window, limit).Allow?
      && CounterCount(s'.counters, 0) == CounterCount(s.counters, 0) + (if via.Redis? then 1 else 0)
      && SlotCount(s'.slot, 0) == SlotCount(s.slot, 0) + (if via.Memory? then 1 else 0)
  {
    hide WindowStart, SecondsLeft;
  }
}
