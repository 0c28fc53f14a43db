/** The per-key limiter state as `check_rate_limit` mutates it. */
module ApiKeyManager {
  import opened Wrappers
  import opened RateSpec
  import S = SlidingWindow
  import F = FixedWindow

  type KeyId = string

  datatype KeyRecord = KeyRecord(active: bool, limit: nat)

  /** What happens to a call that reaches out to Redis. */
  datatype Fault = NoFault | LostRequest | LostAnswer

  /** The server's clocks, whether it has dropped an expired key, and the fate of the call. */
  datatype Env = Env(serverSeconds: real, serverMs: int, evicted: bool, fault: Fault)

  const DEGRADE_RETRY_SECONDS: real := 30.0

  lemma FirstSlot(now: real, window: nat, limit: nat)
    requires window >= 1 && limit >= 1
    ensures F.MemoryAfter(None, now, window, limit).Some?
  {
  }

  function AtLeastOne(n: int): (m: nat)
    ensures m >= 1 && m >= n && (m == n || m == 1)
  {
    if n > 1 then n else 1
  }

  class RedisServer {
    var zsets: map<KeyId, S.Zset>
    var counters: map<KeyId, map<int, F.Counter>>

    constructor ()
      ensures zsets == map[] && counters == map[]
    {
      zsets, counters := map[], map[];
    }

    function ZsetOf(key: KeyId): S.Zset
      reads this
    {
      if key in zsets then zsets[key] else S.Zset([], None)
    }

    function CountersOf(key: KeyId): map<int, F.Counter>
      reads this
    {
      if key in counters then counters[key] else map[]
    }
  }

  predicate Gives(v: Verdict, allowed: bool, retryAfter: Option<int>) {
    allowed == v.Allow? && retryAfter == if v.Allow? then None else Some(v.retryAfter)
  }

  class Manager {
    const window: nat
    const sliding: bool
    const memoryOnly: bool
    const redis: RedisServer
    const defaultLimit: nat
    var records: map<KeyId, KeyRecord>
    var requestWindows: map<KeyId, seq<real>>
    var fixedWindowCounts: map<KeyId, F.Slot>
    var redisUnavailableUntil: real

    /** The window and every limit are at least one, and only known keys hold limiter state. */
    ghost predicate Valid()
      reads this
    {
      && window >= 1 && defaultLimit >= 1
      && (forall k :: k in records ==> records[k].limit >= 1)
      && (forall k :: k in requestWindows ==> k in records)
      && (forall k :: k in fixedWindowCounts ==> k in records)
    }

    predicate Active(key: KeyId)
      reads this
    {
      key in records && records[key].active
    }

    /** Only active keys hold limiter state in memory. */
    ghost predicate Tidy()
      reads this
    {
      && (forall k :: k in requestWindows ==> Active(k))
      && (forall k :: k in fixedWindowCounts ==> Active(k))
    }

    constructor (windowSeconds: int, defaultPerMinute: int, sliding: bool, memoryOnly: bool, redis: RedisServer)
      ensures Valid() && Tidy() && this.sliding == sliding && this.memoryOnly == memoryOnly && this.redis == redis
      ensures window == AtLeastOne(windowSeconds) && defaultLimit == AtLeastOne(defaultPerMinute)
      ensures records == map[] && requestWindows == map[] && fixedWindowCounts == map[] && redisUnavailableUntil == 0.0
    {
      window, defaultLimit := AtLeastOne(windowSeconds), AtLeastOne(defaultPerMinute);
      this.sliding, this.memoryOnly, this.redis := sliding, memoryOnly, redis;
      records, requestWindows, fixedWindowCounts := map[], map[], map[];
      redisUnavailableUntil := 0.0;
    }

    function WindowOf(key: KeyId): seq<real>
      reads this
    {
      if key in requestWindows then requestWindows[key] else []
    }

    function SlotOf(key: KeyId): Option<F.Slot>
      reads this
    {
      if key in fixedWindowCounts then Some(fixedWindowCounts[key]) else None
    }

    function FixedStateOf(key: KeyId): F.FixedState
      reads this, redis
    {
      F.FixedState(SlotOf(key), redis.CountersOf(key))
    }

    /** The path a call takes: straight to memory while degraded, else as Redis fares. */
    function Path(now: real, env: Env): F.Via
      reads this
    {
      if memoryOnly || now < redisUnavailableUntil || env.fault.LostRequest? then F.Memory
      else if env.fault.LostAnswer? then F.LostThenMemory
      else F.Redis
    }

    /** The server has not been touched. */
    twostate predicate RedisRests()
      reads redis
    {
      redis.zsets == old(redis.zsets) && redis.counters == old(redis.counters)
    }

    /** The server has taken one request of the configured strategy for that key. */
    twostate predicate RedisCounts(key: KeyId, limit: nat, now: real, env: Env)
      requires window >= 1
      reads redis
    {
      var z := S.LuaRequest(Trunc(now * 1000.0), env.serverMs, env.evicted);
      var c := F.FixedRequest(now, env.serverSeconds, env.evicted, F.Redis);
      if sliding then
        && redis.zsets == old(redis.zsets)[key := S.LuaAfter(old(redis.ZsetOf(key)), z, window * 1000, limit)]
        && redis.counters == old(redis.counters)
      else
        && redis.counters == old(redis.counters)[key := F.RedisAfter(old(redis.CountersOf(key)), c, window)]
        && redis.zsets == old(redis.zsets)
    }

    /** The answer is that of the in-memory limiter, which has taken the request. */
    twostate predicate MemoryAnswers(key: KeyId, limit: nat, now: real, allowed: bool, new retryAfter: Option<int>)
      requires window >= 1 && limit >= 1
      reads this
    {
      if sliding then
        && Gives(S.DequeVerdict(old(WindowOf(key)), now, window, limit), allowed, retryAfter)
        && WindowOf(key) == S.DequeAfter(old(WindowOf(key)), now, window, limit)
        && SlotOf(key) == old(SlotOf(key))
      else
        && Gives(F.MemoryVerdict(old(SlotOf(key)), now, window, limit), allowed, retryAfter)
        && SlotOf(key) == F.MemoryAfter(old(SlotOf(key)), now, window, limit)
        && WindowOf(key) == old(WindowOf(key))
    }

    /** The answer is that of the server, and memory has not been touched. */
    twostate predicate RedisAnswers(
        key: KeyId, limit: nat, now: real, env: Env, allowed: bool, new retryAfter: Option<int>)
      requires window >= 1 && limit >= 1
      reads this, redis
    {
      var z := S.LuaRequest(Trunc(now * 1000.0), env.serverMs, env.evicted);
      var c := F.FixedRequest(now, env.serverSeconds, env.evicted, F.Redis);
      && WindowOf(key) == old(WindowOf(key)) && SlotOf(key) == old(SlotOf(key))
      && Gives(if sliding then S.LuaVerdict(old(redis.ZsetOf(key)), z, window * 1000, limit)
               else F.RedisVerdict(old(redis.CountersOf(key)), c, window, limit), allowed, retryAfter)
    }

    /** What becomes of a call. On the way to memory alone, by configuration or while the server is
        marked down, nothing reaches the server. A lost request reaches nobody else, a lost answer
        leaves the request counted there; either marks the server down for 30 seconds. */
    twostate predicate Fares(
        key: KeyId, limit: nat, now: real, env: Env, allowed: bool, new retryAfter: Option<int>)
      requires window >= 1 && limit >= 1
      reads this, redis
    {
      if memoryOnly || now < old(redisUnavailableUntil) then
        && RedisRests() && MemoryAnswers(key, limit, now, allowed, retryAfter)
        && redisUnavailableUntil == old(redisUnavailableUntil)
      else
        match env.fault
        case NoFault =>
          && RedisCounts(key, limit, now, env) && RedisAnswers(key, limit, now, env, allowed, retryAfter)
          && redisUnavailableUntil == old(redisUnavailableUntil)
        case LostRequest =>
          && RedisRests() && MemoryAnswers(key, limit, now, allowed, retryAfter)
          && redisUnavailableUntil == now + 30.0
        case LostAnswer =>
          && RedisCounts(key, limit, now, env) && MemoryAnswers(key, limit, now, allowed, retryAfter)
          && redisUnavailableUntil == now + 30.0
    }

    /** The same as one step of the limiters' runs, along the path of the call. */
    twostate predicate StepsAlongPath(
        key: KeyId, limit: nat, now: real, env: Env, allowed: bool, new retryAfter: Option<int>)
      requires window >= 1 && limit >= 1
      reads this, redis
    {
      var path := old(Path(now, env));
      if sliding then
        var q := S.LuaRequest(Trunc(now * 1000.0), env.serverMs, env.evicted);
        && Gives(if path.Redis? then S.LuaVerdict(old(redis.ZsetOf(key)), q, window * 1000, limit)
                 else S.DequeVerdict(old(WindowOf(key)), now, window, limit), allowed, retryAfter)
        && WindowOf(key) == (if path.Redis? then old(WindowOf(key))
                             else S.DequeAfter(old(WindowOf(key)), now, window, limit))
        && redis.ZsetOf(key) == (if path.Memory? then old(redis.ZsetOf(key))
                                 else S.LuaAfter(old(redis.ZsetOf(key)), q, window * 1000, limit))
      else
        var q := F.FixedRequest(now, env.serverSeconds, env.evicted, path);
        && Gives(F.FixedVerdict(old(FixedStateOf(key)), q, window, limit), allowed, retryAfter)
        && FixedStateOf(key) == F.FixedAfter(old(FixedStateOf(key)), q, window, limit)
    }

    twostate lemma FaresAlongPath(
        key: KeyId, limit: nat, now: real, env: Env, allowed: bool, new retryAfter: Option<int>)
      requires window >= 1 && limit >= 1 && Fares(key, limit, now, env, allowed, retryAfter)
      ensures StepsAlongPath(key, limit, now, env, allowed, retryAfter)
    {
      hide S.LuaVerdict, S.LuaAfter, S.DequeVerdict, S.DequeAfter, F.MemoryVerdict, F.MemoryAfter;
    }

    /** Without a limit of its own a key gets the default one. */
    method CreateKey(key: KeyId, limit: Option<int>)
      requires Valid() && key !in records
      modifies this`records
      ensures Valid() && Active(key) && records - {key} == old(records)
      ensures old(Tidy()) ==> Tidy()
      ensures records[key].limit == if limit.Some? then AtLeastOne(limit.value) else defaultLimit
    {
      var configured := if limit.None? then defaultLimit else AtLeastOne(limit.value);
      ghost var before := records;
      records := records[key := KeyRecord(true, configured)];
      assert records - {key} == before;
    }

    method RevokeKey(key: KeyId) returns (revoked: bool)
      requires Valid()
      modifies this`records, this`requestWindows, this`fixedWindowCounts
      ensures Valid() && (old(Tidy()) ==> Tidy())
      ensures revoked <==> key in old(records) && old(records)[key].active
      ensures revoked ==>
        && records == old(records)[key := old(records)[key].(active := false)]
        && requestWindows == old(requestWindows) - {key} && fixedWindowCounts == old(fixedWindowCounts) - {key}
      ensures !revoked ==>
        && records == old(records) && requestWindows == old(requestWindows)
        && fixedWindowCounts == old(fixedWindowCounts)
    {
      if key !in records || !records[key].active {
        return false;
      }
      records := records[key := records[key].(active := false)];
      requestWindows := requestWindows - {key};
      fixedWindowCounts := fixedWindowCounts - {key};
      revoked := true;
    }

    /** The replacement keeps the limit and starts with a clean slate. */
    method RotateKey(key: KeyId, replacement: KeyId) returns (rotated: bool)
      requires Valid() && replacement !in records
      modifies this`records, this`requestWindows, this`fixedWindowCounts
      ensures Valid() && (old(Tidy()) ==> Tidy())
      ensures rotated <==> key in old(records) && old(records)[key].active
      ensures rotated ==>
        && records == old(records)[replacement := old(records)[key]][key := old(records)[key].(active := false)]
        && requestWindows == old(requestWindows) - {key} && fixedWindowCounts == old(fixedWindowCounts) - {key}
        && WindowOf(replacement) == [] && SlotOf(replacement) == None
      ensures !rotated ==>
        && records == old(records) && requestWindows == old(requestWindows)
        && fixedWindowCounts == old(fixedWindowCounts)
    {
      if key !in records || !records[key].active {
        return false;
      }
      records := records[replacement := KeyRecord(true, records[key].limit)];
      records := records[key := records[key].(active := false)];
      requestWindows := requestWindows - {key};
      fixedWindowCounts := fixedWindowCounts - {key};
      rotated := true;
    }

    method CheckMemorySlidingWindow(key: KeyId, limit: nat, now: real) returns (v: Verdict)
      requires limit >= 1
      modifies this`requestWindows
      ensures v == S.DequeVerdict(old(WindowOf(key)), now, window, limit)
      ensures requestWindows == old(requestWindows)[key := S.DequeAfter(old(WindowOf(key)), now, window, limit)]
    {
      var stamps := WindowOf(key);
      while stamps != [] && now - stamps[0] >= window as real
        invariant S.DropExpired(stamps, now, window as real) == S.DropExpired(old(WindowOf(key)), now, window as real)
        decreases |stamps|
      {
        stamps := stamps[1..];
      }
      if |stamps| >= limit {
        var wait := window as real - (now - stamps[0]);
        v := Deny(Trunc(if wait > 1.0 then wait else 1.0));
      } else {
        stamps := stamps + [now];
        v := Allow;
      }
      requestWindows := requestWindows[key := stamps];
    }

    method CheckMemoryFixedWindow(key: KeyId, limit: nat, now: real) returns (v: Verdict)
      requires window >= 1
      modifies this`fixedWindowCounts
      ensures v == F.MemoryVerdict(old(SlotOf(key)), now, window, limit)
      ensures SlotOf(key) == F.MemoryAfter(old(SlotOf(key)), now, window, limit)
      ensures forall k :: k != key ==> SlotOf(k) == old(SlotOf(k))
      ensures forall k :: k in fixedWindowCounts ==> k == key || k in old(fixedWindowCounts)
    {
      var windowStart := F.WindowStart(now, window);
      var windowEnd := windowStart + window;
      var previous := if key in fixedWindowCounts then fixedWindowCounts[key] else F.Slot(windowStart, 0);
      var currentCount := if previous.start == windowStart then previous.count else 0;
      if currentCount >= limit {
        var left := windowEnd - Trunc(now);
        return Deny(if left > 1 then left else 1);
      }
      fixedWindowCounts := fixedWindowCounts[key := F.Slot(windowStart, currentCount + 1)];
      v := Allow;
    }

    /** The in-process limiter of the configured strategy. */
    method CheckMemory(key: KeyId, limit: nat, now: real) returns (v: Verdict)
      requires Valid() && limit >= 1 && key in records
      modifies this`requestWindows, this`fixedWindowCounts
      ensures Valid() && (old(Tidy()) ==> (Tidy() <==> Active(key)))
      ensures sliding ==>
        && v == S.DequeVerdict(old(WindowOf(key)), now, window, limit)
        && WindowOf(key) == S.DequeAfter(old(WindowOf(key)), now, window, limit)
        && SlotOf(key) == old(SlotOf(key))
      ensures !sliding ==>
        && v == F.MemoryVerdict(old(SlotOf(key)), now, window, limit)
        && SlotOf(key) == F.MemoryAfter(old(SlotOf(key)), now, window, limit)
        && WindowOf(key) == old(WindowOf(key))
      ensures forall k :: k != key ==> WindowOf(k) == old(WindowOf(k)) && SlotOf(k) == old(SlotOf(k))
    {
      hide S.DequeVerdict, S.DequeAfter, F.MemoryVerdict, F.MemoryAfter;
      FirstSlot(now, window, limit);
      if sliding {
        v := CheckMemorySlidingWindow(key, limit, now);
      } else {
        v := CheckMemoryFixedWindow(key, limit, now);
      }
    }

    /** None means: fall back to memory. A failed call degrades the backend for a while. */
    method CheckDistributed(key: KeyId, limit: nat, now: real, env: Env) returns (v: Option<Verdict>)
      requires window >= 1 && limit >= 1
      modifies this`redisUnavailableUntil, redis
      ensures memoryOnly || now < old(redisUnavailableUntil) ==> v == None && RedisRests()
      ensures !(memoryOnly || now < old(redisUnavailableUntil)) ==>
        && (v.Some? <==> env.fault.NoFault?)
        && if env.fault.LostRequest? then RedisRests() else RedisCounts(key, limit, now, env)
      ensures v.Some? <==> old(Path(now, env)).Redis?
      ensures redisUnavailableUntil ==
        if !memoryOnly && now >= old(redisUnavailableUntil) && env.fault != NoFault then now + DEGRADE_RETRY_SECONDS
        else old(redisUnavailableUntil)
      ensures sliding ==>
        && redis.counters == old(redis.counters)
        && var q := S.LuaRequest(Trunc(now * 1000.0), env.serverMs, env.evicted);
        && (v.Some? ==> v.value == S.LuaVerdict(old(redis.ZsetOf(key)), q, window * 1000, limit))
        && redis.zsets == (if old(Path(now, env)).Memory? then old(redis.zsets)
                           else old(redis.zsets)[key := S.LuaAfter(old(redis.ZsetOf(key)), q, window * 1000, limit)])
      ensures !sliding ==>
        && redis.zsets == old(redis.zsets)
        && var q := F.FixedRequest(now, env.serverSeconds, env.evicted, old(Path(now, env)));
        && (v.Some? ==> v.value == F.RedisVerdict(old(redis.CountersOf(key)), q, window, limit))
        && redis.counters == (if old(Path(now, env)).Memory? then old(redis.counters)
                              else old(redis.counters)[key := F.RedisAfter(old(redis.CountersOf(key)), q, window)])
    {
      if memoryOnly || now < redisUnavailableUntil {
        return None;
      }
      if !env.fault.LostRequest? {
        if sliding {
          var q := S.LuaRequest(Trunc(now * 1000.0), env.serverMs, env.evicted);
          var z := redis.ZsetOf(key);
          v := Some(S.LuaVerdict(z, q, window * 1000, limit));
          redis.zsets := redis.zsets[key := S.LuaAfter(z, q, window * 1000, limit)];
        } else {
          var q := F.FixedRequest(now, env.serverSeconds, env.evicted, Path(now, env));
          var c := redis.CountersOf(key);
          v := Some(F.RedisVerdict(c, q, window, limit));
          redis.counters := redis.counters[key := F.RedisAfter(c, q, window)];
        }
      }
      if env.fault != NoFault {
        redisUnavailableUntil := now + DEGRADE_RETRY_SECONDS;
        v := None;
      }
    }

    /** The first locked section: the limit of an active key. */
    method LimitOf(key: KeyId) returns (limit: Option<nat>)
      requires Valid()
      ensures limit == if Active(key) then Some(records[key].limit) else None
      ensures limit.Some? ==> limit.value >= 1
    {
      limit := if Active(key) then Some(records[key].limit) else None;
    }

    /** The rest of a call, whatever became of the key since its limit was read: one step of the
        strategy along the path of the call, and no other key's state moves. It leaves memory tidy
        exactly if the key is still active or Redis answered. */
    method Consume(key: KeyId, limit: nat, now: real, env: Env) returns (allowed: bool, retryAfter: Option<int>)
      requires Valid() && limit >= 1 && key in records
      modifies this`requestWindows, this`fixedWindowCounts, this`redisUnavailableUntil, redis
      ensures Fares(key, limit, now, env, allowed, retryAfter)
      ensures Valid() && (old(Tidy()) ==> (Tidy() <==> Active(key) || old(Path(now, env)).Redis?))
      ensures forall k :: k != key ==> WindowOf(k) == old(WindowOf(k)) && FixedStateOf(k) == old(FixedStateOf(k))
                                       && redis.ZsetOf(k) == old(redis.ZsetOf(k))
    {
      hide S.LuaVerdict, S.LuaAfter, S.DequeVerdict, S.DequeAfter;
      hide F.MemoryVerdict, F.MemoryAfter, F.RedisVerdict, F.RedisAfter;
      var distributed := CheckDistributed(key, limit, now, env);
      var v: Verdict;
      if distributed.Some? {
        v := distributed.value;
      } else {
        v := CheckMemory(key, limit, now);
      }
      allowed := v.Allow?;
      retryAfter := if v.Allow? then None else Some(v.retryAfter);
    }

    /** A denied unknown or revoked key leaves everything alone; otherwise one key's state takes
        one step of its strategy along the path of the call, and no other key's moves. */
    method CheckRateLimit(key: KeyId, now: real, env: Env) returns (allowed: bool, retryAfter: Option<int>)
      requires Valid()
      modifies this`requestWindows, this`fixedWindowCounts, this`redisUnavailableUntil, redis
      ensures Valid() && (old(Tidy()) ==> Tidy())
      ensures Active(key) ==> Fares(key, records[key].limit, now, env, allowed, retryAfter)
      ensures !Active(key) ==>
        && !allowed && retryAfter == None && redisUnavailableUntil == old(redisUnavailableUntil)
        && requestWindows == old(requestWindows) && fixedWindowCounts == old(fixedWindowCounts)
        && redis.zsets == old(redis.zsets) && redis.counters == old(redis.counters)
      ensures forall k :: k != key ==> WindowOf(k) == old(WindowOf(k)) && FixedStateOf(k) == old(FixedStateOf(k))
                                       && redis.ZsetOf(k) == old(redis.ZsetOf(k))
    {
      hide S.LuaVerdict, S.LuaAfter, S.DequeVerdict, S.DequeAfter;
      hide F.MemoryVerdict, F.MemoryAfter, F.RedisVerdict, F.RedisAfter;
      var limit := LimitOf(key);
      if limit.None? {
        return false, None;
      }
      allowed, retryAfter := Consume(key, limit.value, now, env);
    }
  }

  /** A key revoked between the two sections of a call in memory: the call is served by the window
      the revocation has just emptied, and leaves a window behind for a key that is no longer active. */
  method RevokedInFlight(m: Manager, key: KeyId, now: real, env: Env) returns (allowed: bool)
    requires m.Valid() && m.Tidy() && m.Active(key) && m.sliding && m.memoryOnly
    modifies m, m.redis
    ensures allowed && !m.Active(key) && m.WindowOf(key) == [now] && !m.Tidy()
  {
    var limit := m.LimitOf(key);
    var revoked := m.RevokeKey(key);
    var retryAfter;
    allowed, retryAfter := m.Consume(key, limit.value, now, env);
    assert S.DequeAfter([], now, m.window, limit.value) == [now];
    assert key in m.requestWindows;
  }

  datatype Call = Call(key: KeyId, now: real, env: Env)

  /** The server's data and how long it is marked down, between two calls. */
  datatype Snapshot = Snapshot(
    zsets: map<KeyId, S.Zset>, counters: map<KeyId, map<int, F.Counter>>, downUntil: real)

  ghost predicate Touched(before: Snapshot, after: Snapshot) {
    before.zsets != after.zsets || before.counters != after.counters
  }

  /** The call reaches out to the server and its request or the answer is lost. */
  ghost predicate Fails(m: Manager, call: Call, before: Snapshot)
    reads m
  {
    m.Active(call.key) && !m.memoryOnly && call.now >= before.downUntil && call.env.fault != NoFault
  }

  ghost function SnapshotOf(m: Manager): Snapshot
    reads m, m.redis
  {
    Snapshot(m.redis.zsets, m.redis.counters, m.redisUnavailableUntil)
  }

  /** Calls in a row, for any keys and at any times: for 30 seconds after one has failed, none touches
      the server. */
  method Serve(m: Manager, calls: seq<Call>) returns (answers: seq<bool>, ghost trace: seq<Snapshot>)
    requires m.Valid()
    modifies m`requestWindows, m`fixedWindowCounts, m`redisUnavailableUntil, m.redis
    ensures m.Valid() && |answers| == |calls| && |trace| == |calls| + 1
    ensures trace[0] == old(SnapshotOf(m)) && trace[|calls|] == SnapshotOf(m)
    ensures forall i, j :: 0 <= i < j < |calls| && Fails(m, calls[i], trace[i]) && calls[j].now < calls[i].now + 30.0
                           ==> !Touched(trace[j], trace[j + 1])
  {
    hide Manager.RedisCounts, Manager.MemoryAnswers, Manager.RedisAnswers, Manager.WindowOf, Manager.FixedStateOf;
    answers, trace := [], [SnapshotOf(m)];
    for n := 0 to |calls|
      invariant m.Valid() && |answers| == n && |trace| == n + 1
      invariant trace[0] == old(SnapshotOf(m)) && trace[n] == SnapshotOf(m)
      invariant forall i :: 0 <= i < n && Fails(m, calls[i], trace[i]) ==>
        m.redisUnavailableUntil >= calls[i].now + 30.0
      invariant forall i, j :: 0 <= i < j < n && Fails(m, calls[i], trace[i]) && calls[j].now < calls[i].now + 30.0
                               ==> !Touched(trace[j], trace[j + 1])
    {
      var allowed, _ := m.CheckRateLimit(calls[n].key, calls[n].now, calls[n].env);
      answers, trace := answers + [allowed], trace + [SnapshotOf(m)];
    }
  }
}
