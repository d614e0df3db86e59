/**
 The two-level cache (src/cache/cache.service.ts): the bounded in-memory level over a second level,
 which is a map without a size limit whose entries expire (the contract of src/cache/backends/redis-cache.ts).
 */
module CacheService {
  import opened Common
  import opened OrderedMap
  import opened MemoryCache

  datatype Config = Config(enabled: bool, defaultTtlMs: int, maxKeys: nat)

  datatype Stats = Stats(hits: nat, misses: nat, sets: nat, invalidations: nat)

  datatype State = State(l1: Store, l2: map<string, Entry>, online: bool, stats: Stats)

  // The second level refuses entries without a positive time to live.
  function StoreInL2(s: State, key: string, e: Entry, now: int): map<string, Entry> {
    if s.online && e.expiresAt > now then s.l2[key := e] else s.l2
  }

  function LookupL2(s: State, key: string, now: int): Option<Entry> {
    if s.online then Lookup(s.l2, key, now) else None
  }

  function Hit(s: State): State {
    s.(stats := s.stats.(hits := s.stats.hits + 1))
  }

  function Miss(s: State): State {
    s.(stats := s.stats.(misses := s.stats.misses + 1))
  }

  lemma TouchValid(m: Store, key: string, now: int)
    requires m.Valid()
    ensures Touch(m, key, now).Valid()
  {
    RemoveValid(m, key);
    match m.Get(key)
    case None =>
    case Some(e) => PutValid(m.Remove(key), key, e);
  }

  lemma InsertValid(m: Store, maxKeys: nat, key: string, e: Entry, now: int)
    requires m.Valid()
    ensures Insert(m, maxKeys, key, e, now).Valid()
  {
    var kept := m.Keep(LiveKeys(m.data, now));
    KeepValid(m, LiveKeys(m.data, now));
    LastValid(kept, Room(maxKeys));
    PutValid(kept.Last(Room(maxKeys)), key, e);
  }

  function GetStep(c: Config, s: State, key: string, now: int): (State, Option<Value>)
    requires s.l1.Valid()
  {
    if !c.enabled then (s, None) else
    var touched := s.(l1 := Touch(s.l1, key, now));
    match Lookup(s.l1.data, key, now)
    case Some(e) => (Hit(touched), Some(e.value))
    case None =>
      match LookupL2(s, key, now)
      case None => (Miss(touched), None)
      case Some(e) =>
        TouchValid(s.l1, key, now);
        var promoted := Entry(e.value, now + Max(1, e.expiresAt - now));
        (Hit(touched.(l1 := Insert(touched.l1, c.maxKeys, key, promoted, now))), Some(e.value))
  }

  function SetStep(c: Config, s: State, key: string, value: Value, ttlMs: Option<int>, now: int): State
    requires s.l1.Valid()
  {
    if !c.enabled then s else
    var e := Entry(value, now + if ttlMs.Some? then ttlMs.value else c.defaultTtlMs);
    s.(l1 := Insert(s.l1, c.maxKeys, key, e, now),
       l2 := StoreInL2(s, key, e, now),
       stats := s.stats.(sets := s.stats.sets + 1))
  }

  function DelStep(c: Config, s: State, key: string): State {
    if !c.enabled then s
    else s.(l1 := s.l1.Remove(key), l2 := if s.online then s.l2 - {key} else s.l2)
  }

  // `wrap` reads at `now`; a value that had to be produced is stored when it is there, at `later`.
  function WrapStep(c: Config, s: State, key: string, produced: Option<Value>, ttlMs: Option<int>, now: int, later: int)
    : (State, Option<Value>)
    requires s.l1.Valid()
  {
    var (s', cached) := GetStep(c, s, key, now);
    GetKeepsValid(c, s, key, now);
    if cached.Some? then (s', cached)
    else if produced.Some? && produced.value != Null then (SetStep(c, s', key, produced.value, ttlMs, later), produced)
    else (s', produced)
  }

  lemma GetKeepsValid(c: Config, s: State, key: string, now: int)
    requires s.l1.Valid()
    ensures GetStep(c, s, key, now).0.l1.Valid()
  {
    TouchValid(s.l1, key, now);
    var e := LookupL2(s, key, now);
    if e.Some? {
      var promoted := Entry(e.value.value, now + Max(1, e.value.expiresAt - now));
      InsertValid(Touch(s.l1, key, now), c.maxKeys, key, promoted, now);
    }
  }

  function Matching(m: map<string, Entry>, prefix: string, now: int): set<string> {
    set k | k in m && m[k].expiresAt > now && HasPrefix(k, prefix)
  }

  function InvalidateStep(c: Config, s: State, prefix: string, now: int): (State, nat)
    requires s.l1.Valid()
  {
    if !c.enabled then (s, 0) else
    var l1 := s.l1.Keep(Outside(s.l1.data, prefix));
    FilterExact(s.l1.keys, Outside(s.l1.data, prefix));
    var l2 := if s.online then map k | k in s.l2 && !HasPrefix(k, prefix) :: s.l2[k] else s.l2;
    (s.(l1 := l1, l2 := l2, stats := s.stats.(invalidations := s.stats.invalidations + 1)),
     |s.l1.keys| - |l1.keys| + if s.online then |Matching(s.l2, prefix, now)| else 0)
  }

  function ClearStep(c: Config, s: State): State {
    if !c.enabled then s
    else s.(l1 := EMPTY, l2 := if s.online then map[] else s.l2,
            stats := s.stats.(invalidations := s.stats.invalidations + 1))
  }

  const START: State := State(EMPTY, map[], true, Stats(0, 0, 0, 0))

  // The contract of the second level.
  class RedisCacheBackend {
    const online: bool
    var store: map<string, Entry>

    constructor (online: bool)
      ensures this.online == online && store == map[]
    {
      this.online := online;
      store := map[];
    }

    method GetWithTtl(key: string, now: int) returns (r: Option<(Value, int)>)
      ensures r == if online && Lookup(store, key, now).Some?
        then Some((store[key].value, store[key].expiresAt - now)) else None
    {
      if !online || key !in store || store[key].expiresAt <= now {
        return None;
      }
      return Some((store[key].value, store[key].expiresAt - now));
    }

    method Set(key: string, value: Value, ttlMs: int, now: int)
      modifies this
      ensures store == if online && ttlMs > 0 then old(store)[key := Entry(value, now + ttlMs)] else old(store)
    {
      if online && ttlMs > 0 {
        store := store[key := Entry(value, now + ttlMs)];
      }
    }

    method Del(key: string)
      modifies this
      ensures store == if online then old(store) - {key} else old(store)
    {
      if online {
        store := store - {key};
      }
    }

    method InvalidateByPrefix(prefix: string, now: int) returns (count: nat)
      modifies this
      ensures store == if online then map k | k in old(store) && !HasPrefix(k, prefix) :: old(store)[k] else old(store)
      ensures count == if online then |Matching(old(store), prefix, now)| else 0
    {
      if !online {
        return 0;
      }
      count := |Matching(store, prefix, now)|;
      store := map k | k in store && !HasPrefix(k, prefix) :: store[k];
    }

    method Clear()
      modifies this
      ensures store == if online then map[] else old(store)
    {
      if online {
        store := map[];
      }
    }
  }

  class Service {
    const config: Config
    const memory: MemoryCacheBackend
    const redis: RedisCacheBackend
    var stats: Stats

    ghost predicate Valid()
      reads this, memory
    {
      memory.Valid() && memory.maxKeys == config.maxKeys
    }

    ghost function Abs(): State
      reads this, memory, redis
    {
      State(memory.store, redis.store, redis.online, stats)
    }

    constructor (config: Config, online: bool)
      ensures Valid() && this.config == config && Abs() == START.(online := online)
    {
      this.config := config;
      memory := new MemoryCacheBackend(config.maxKeys);
      redis := new RedisCacheBackend(online);
      stats := Stats(0, 0, 0, 0);
    }

    method Get(key: string, now: int) returns (r: Option<Value>)
      requires Valid()
      modifies this, memory, redis
      ensures Valid() && (Abs(), r) == GetStep(config, old(Abs()), key, now)
    {
      hide Touch, Insert;
      if !config.enabled {
        return None;
      }
      var memoryValue := memory.Get(key, now);
      if memoryValue.Some? {
        stats := stats.(hits := stats.hits + 1);
        return memoryValue;
      }
      var redisResult := redis.GetWithTtl(key, now);
      if redisResult.Some? {
        stats := stats.(hits := stats.hits + 1);
        var (value, pttlMs) := redisResult.value;
        var promoteTtl := Max(1, pttlMs);
        memory.Set(key, value, promoteTtl, now);
        return Some(value);
      }
      stats := stats.(misses := stats.misses + 1);
      return None;
    }

    method Set(key: string, value: Value, ttlMs: Option<int>, now: int)
      requires Valid()
      modifies this, memory, redis
      ensures Valid() && Abs() == SetStep(config, old(Abs()), key, value, ttlMs, now)
    {
      hide Insert;
      if !config.enabled {
        return;
      }
      var ttl := if ttlMs.Some? then ttlMs.value else config.defaultTtlMs;
      stats := stats.(sets := stats.sets + 1);
      memory.Set(key, value, ttl, now);
      redis.Set(key, value, ttl, now);
    }

    method Del(key: string)
      requires Valid()
      modifies memory, redis
      ensures Valid() && Abs() == DelStep(config, old(Abs()), key)
    {
      if !config.enabled {
        return;
      }
      memory.Del(key);
      redis.Del(key);
    }

    method Wrap(key: string, produced: Option<Value>, ttlMs: Option<int>, now: int, later: int)
      returns (r: Option<Value>)
      requires Valid()
      modifies this, memory, redis
      ensures Valid() && (Abs(), r) == WrapStep(config, old(Abs()), key, produced, ttlMs, now, later)
    {
      hide GetStep, SetStep;
      var cached := Get(key, now);
      if cached.Some? {
        return cached;
      }
      if produced.Some? && produced.value != Null {
        Set(key, produced.value, ttlMs, later);
      }
      return produced;
    }

    method InvalidateByPrefix(prefix: string, now: int) returns (count: nat)
      requires Valid()
      modifies this, memory, redis
      ensures Valid() && (Abs(), count) == InvalidateStep(config, old(Abs()), prefix, now)
    {
      if !config.enabled {
        return 0;
      }
      var memoryCount := memory.InvalidateByPrefix(prefix);
      var redisCount := redis.InvalidateByPrefix(prefix, now);
      stats := stats.(invalidations := stats.invalidations + 1);
      count := memoryCount + redisCount;
    }

    method Clear()
      requires Valid()
      modifies this, memory, redis
      ensures Valid() && Abs() == ClearStep(config, old(Abs()))
    {
      if !config.enabled {
        return;
      }
      memory.Clear();
      redis.Clear();
      stats := stats.(invalidations := stats.invalidations + 1);
    }
  }
}
