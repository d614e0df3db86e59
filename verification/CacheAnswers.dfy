/**
 What single operations of the two-level cache are good for (src/cache/cache.service.ts), seen through the
 reads that follow them, and what clearing the keys of a class does (src/cache/cache.decorators.ts).
 */
module CacheAnswers {
  import opened Common
  import Json
  import opened OrderedMap
  import opened MemoryCache
  import opened CacheService
  import opened CacheTheorems
  import CacheKey

  // What a read returns: a live value of memory, else a live value below.
  function Found(s: State, key: string, now: int): Option<Value> {
    if key in s.l1.data && now < s.l1.data[key].expiresAt then Some(s.l1.data[key].value)
    else if s.online && key in s.l2 && now < s.l2[key].expiresAt then Some(s.l2[key].value)
    else None
  }

  lemma {:induction false} GetReturnsFound(c: Config, s: State, key: string, now: int)
    requires s.l1.Valid()
    ensures GetStep(c, s, key, now).1 == if c.enabled then Found(s, key, now) else None
  {
    hide Touch, Insert;
  }

  /* ---------- Clearing by prefix ---------- */

  /**
   After the keys with a prefix are invalidated, a read of a key that starts with it returns nothing at any
   time, and a read of any other key returns what it would have returned.
   */
  lemma {:induction false} InvalidateExact(c: Config, s: State, prefix: string, now: int, key: string, later: int)
    requires s.l1.Valid() && c.enabled && s.online
    ensures
      var t := InvalidateStep(c, s, prefix, now).0;
      && t.l1.Valid()
      && ((exists rest :: key == prefix + rest) ==> GetStep(c, t, key, later).1 == None)
      && (!(exists rest :: key == prefix + rest) ==> GetStep(c, t, key, later).1 == GetStep(c, s, key, later).1)
  {
    var t := InvalidateStep(c, s, prefix, now).0;
    KeepValid(s.l1, Outside(s.l1.data, prefix));
    StartsWith(key, prefix);
    GetReturnsFound(c, s, key, later);
    GetReturnsFound(c, t, key, later);
    hide GetStep, Matching;
  }

  lemma {:induction false} StartsWith(key: string, prefix: string)
    ensures prefix <= key <==> exists rest :: key == prefix + rest
  {
    if prefix <= key {
      assert key == prefix + key[|prefix|..];
    }
  }

  // The keys in memory, and the live keys below, that start with the prefix.
  ghost function MemoryKeys(s: State, prefix: string): set<string> {
    set k | k in s.l1.data && prefix <= k
  }

  ghost function LiveKeysBelow(s: State, prefix: string, now: int): set<string> {
    set k | k in s.l2 && now < s.l2[k].expiresAt && prefix <= k
  }

  /** The count is the number of keys in memory and of live keys below that start with the prefix. */
  lemma {:induction false} InvalidateCounts(c: Config, s: State, prefix: string, now: int)
    requires s.l1.Valid() && c.enabled && s.online
    ensures InvalidateStep(c, s, prefix, now).1 == |MemoryKeys(s, prefix)| + |LiveKeysBelow(s, prefix, now)|
  {
    assert Matching(s.l2, prefix, now) == LiveKeysBelow(s, prefix, now);
    var outside := Outside(s.l1.data, prefix);
    KeepValid(s.l1, outside);
    var kept := s.l1.Keep(outside);
    KeysCount(s.l1);
    KeysCount(kept);
    assert s.l1.data.Keys == kept.data.Keys + MemoryKeys(s, prefix);
    assert kept.data.Keys !! MemoryKeys(s, prefix);
  }

  lemma {:induction false} KeysCount<V>(m: Map<V>)
    requires m.Valid()
    ensures |m.keys| == |m.data.Keys|
  {
    assert KeySet(m.keys) == m.data.Keys;
    DistinctCount(m.keys);
  }

  lemma {:induction false} DistinctCount(ks: seq<string>)
    requires Distinct(ks)
    ensures |KeySet(ks)| == |ks|
  {
    if ks == [] {
      assert KeySet(ks) == {};
    } else {
      assert ks[0] !in ks[1..];
      assert KeySet(ks) == {ks[0]} + KeySet(ks[1..]);
      DistinctCount(ks[1..]);
    }
  }

  /* ---------- Clearing a class ---------- */

  // Each code unit as a character of its own.
  function CharOf(u: Json.CodeUnit): char {
    if u < 0xD800 then u as char else (u + 0x1_0000) as char
  }

  function AsString(t: Json.Text): (s: string)
    ensures |s| == |t| && forall i :: 0 <= i < |s| ==> s[i] == CharOf(t[i])
  {
    seq(|t|, i requires 0 <= i < |t| => CharOf(t[i]))
  }

  lemma {:induction false} AsStringKeepsStarts(a: Json.Text, b: Json.Text)
    ensures AsString(a) <= AsString(b) <==> a <= b
  {
    if AsString(a) <= AsString(b) {
      forall i | 0 <= i < |a|
        ensures a[i] == b[i]
      {
        assert AsString(a)[i] == AsString(b)[i];
      }
    }
  }

  // What `InvalidateCache` clears for a class.
  function ClassPrefix(className: Json.Text): string {
    AsString(CacheKey.CACHE + [Json.COLON] + className + [Json.COLON])
  }

  /**
   Clearing a class makes every cached call of its methods miss, and no call of another class: a read of the
   latter returns what it would have returned.
   */
  lemma {:induction false} ClassClearedExactly(c: Config, s: State, cleared: Json.Text, now: int,
                                               className: Json.Text, methodName: Json.Text, args: seq<CacheKey.Arg>,
                                               later: int)
    requires s.l1.Valid() && c.enabled && s.online && CacheKey.ValidArgs(args)
    requires CacheKey.ColonFree(cleared) && CacheKey.ColonFree(className) && CacheKey.ColonFree(methodName)
    ensures
      var t := InvalidateStep(c, s, ClassPrefix(cleared), now).0;
      var key := AsString(CacheKey.Key(className, methodName, args));
      && t.l1.Valid()
      && GetStep(c, t, key, later).1 == if className == cleared then None else GetStep(c, s, key, later).1
  {
    var key := CacheKey.Key(className, methodName, args);
    CacheKey.ClassPrefixExact(className, cleared, methodName, args);
    AsStringKeepsStarts(CacheKey.CACHE + [Json.COLON] + cleared + [Json.COLON], key);
    StartsWith(AsString(key), ClassPrefix(cleared));
    InvalidateExact(c, s, ClassPrefix(cleared), now, AsString(key), later);
    hide CacheKey.Key, AsString, InvalidateStep, GetStep;
  }

  /* ---------- Promotion and switching off ---------- */

  /**
   A value found below is promoted: memory then holds it as the newest entry, and it expires when it would
   have expired below.
   */
  lemma {:induction false} PromotedAsLong(c: Config, s: State, key: string, now: int)
    requires s.l1.Valid() && c.enabled && s.online
    requires !(key in s.l1.data && now < s.l1.data[key].expiresAt)
    requires key in s.l2 && now < s.l2[key].expiresAt
    ensures
      var t := GetStep(c, s, key, now).0;
      && t.l2 == s.l2 && key in t.l1.data && t.l1.data[key] == s.l2[key]
      && t.l1.keys != [] && t.l1.keys[|t.l1.keys| - 1] == key
  {
    var m := Touch(s.l1, key, now);
    TouchValid(s.l1, key, now);
    TouchDrops(s.l1, key, now);
    hide Touch;
    InsertLast(m, c.maxKeys, key, s.l2[key], now);
    hide Insert;
  }

  lemma {:induction false} TouchDrops(m: Store, key: string, now: int)
    requires m.Valid() && !(key in m.data && now < m.data[key].expiresAt)
    ensures key !in Touch(m, key, now).data
  {
  }

  lemma {:induction false} InsertLast(m: Store, maxKeys: nat, key: string, e: Entry, now: int)
    requires m.Valid() && key !in m.data
    ensures
      var t := Insert(m, maxKeys, key, e, now);
      key in t.data && t.data[key] == e && t.keys != [] && t.keys[|t.keys| - 1] == key
  {
    KeepValid(m, LiveKeys(m.data, now));
    LastValid(m.Keep(LiveKeys(m.data, now)), Room(maxKeys));
    hide Filter, LastKeys;
  }

  /** A service that is switched off stores nothing, returns nothing and leaves everything as it is. */
  lemma {:induction false} SwitchedOff(c: Config, s: State, key: string, value: Value, ttlMs: Option<int>,
                                       produced: Option<Value>, prefix: string, now: int, later: int)
    requires s.l1.Valid() && !c.enabled
    ensures GetStep(c, s, key, now) == (s, None) && SetStep(c, s, key, value, ttlMs, now) == s
    ensures WrapStep(c, s, key, produced, ttlMs, now, later) == (s, produced)
    ensures DelStep(c, s, key) == s && InvalidateStep(c, s, prefix, now) == (s, 0) && ClearStep(c, s) == s
  {
  }

  /** With the second level off, a stored value is read for as long as its time to live, and not longer. */
  lemma {:induction false} StoredForItsTime(c: Config, s: State, key: string, value: Value, ttlMs: Option<int>,
                                            now: int, later: int)
    requires s.l1.Valid() && c.enabled && !s.online && now <= later
    ensures
      var t := SetStep(c, s, key, value, ttlMs, now);
      var ttl := if ttlMs.Some? then ttlMs.value else c.defaultTtlMs;
      t.l1.Valid() && GetStep(c, t, key, later).1 == if later < now + ttl then Some(value) else None
  {
    InsertFacts(s.l1, c.maxKeys, key, Entry(value, now + Ttl(c, ttlMs)), now);
    hide Insert;
    GetReturnsFound(c, SetStep(c, s, key, value, ttlMs, now), key, later);
    hide GetStep;
  }

  // Reads, and the values stored.
  predicate Reads(op: Op) {
    op.Get? || op.Wrap?
  }

  predicate Stores(s: State, op: Op) {
    || op.Set?
    || (op.Wrap? && Found(s, op.key, op.now).None? && op.produced.Some? && op.produced.value != Null)
  }

  /** Every read is counted as a hit or a miss, as it finds a value or not; stores and clearings are counted. */
  lemma {:induction false} StatsMove(c: Config, s: State, op: Op)
    requires s.l1.Valid() && c.enabled
    ensures
      var a, b := s.stats, Execute(c, s, op).0.stats;
      && b.hits == a.hits + (if Reads(op) && Found(s, op.key, op.now).Some? then 1 else 0)
      && b.misses == a.misses + (if Reads(op) && Found(s, op.key, op.now).None? then 1 else 0)
      && b.sets == a.sets + (if Stores(s, op) then 1 else 0)
      && b.invalidations == a.invalidations + (if op.Invalidate? || op.Clear? then 1 else 0)
  {
    hide Touch, Insert, Filter, Without;
  }
}
