/** The bounded in-memory level of the cache (src/cache/backends/memory-cache.ts). */
module MemoryCache {
  import opened Common
  import opened OrderedMap

  // What can be stored: anything but `undefined`.
  datatype Value = Null | Data(payload: string)

  datatype Entry = Entry(value: Value, expiresAt: int)

  type Store = Map<Entry>

  const EMPTY: Store := Map([], map[])

  function LiveKeys(m: map<string, Entry>, now: int): set<string> {
    set k | k in m && m[k].expiresAt > now
  }

  // A hit moves the entry to the newest position; an expired entry is dropped.
  function Touch(m: Store, key: string, now: int): Store {
    match m.Get(key)
    case None => m
    case Some(e) => if e.expiresAt <= now then m.Remove(key) else Put(m.Remove(key), key, e)
  }

  function Lookup(m: map<string, Entry>, key: string, now: int): Option<Entry> {
    if key in m && m[key].expiresAt > now then Some(m[key]) else None
  }

  // At least one entry fits, whatever the limit.
  function Room(maxKeys: nat): nat {
    if maxKeys == 0 then 0 else maxKeys - 1
  }

  function Insert(m: Store, maxKeys: nat, key: string, e: Entry, now: int): Store
    requires m.Valid()
  {
    KeepValid(m, LiveKeys(m.data, now));
    Put(m.Keep(LiveKeys(m.data, now)).Last(Room(maxKeys)), key, e)
  }

  predicate HasPrefix(key: string, prefix: string) {
    prefix <= key
  }

  function Outside(m: map<string, Entry>, prefix: string): set<string> {
    set k | k in m && !HasPrefix(k, prefix)
  }

  class MemoryCacheBackend {
    const maxKeys: nat
    var store: Store

    ghost predicate Valid()
      reads this
    {
      store.Valid()
    }

    constructor (maxKeys: nat)
      ensures Valid() && store == EMPTY && this.maxKeys == maxKeys
    {
      this.maxKeys := maxKeys;
      store := EMPTY;
    }

    method Get(key: string, now: int) returns (r: Option<Value>)
      requires Valid()
      modifies this
      ensures Valid() && store == Touch(old(store), key, now)
      ensures r == match Lookup(old(store).data, key, now) case None => None case Some(e) => Some(e.value)
    {
      var entry := store.Get(key);
      if entry.None? {
        return None;
      }
      RemoveValid(store, key);
      if entry.value.expiresAt <= now {
        store := store.Remove(key);
        return None;
      }
      store := store.Remove(key);
      PutValid(store, key, entry.value);
      store := Put(store, key, entry.value);
      return Some(entry.value.value);
    }

    method GetWithTtl(key: string, now: int) returns (r: Option<(Value, int)>)
      requires Valid()
      modifies this
      ensures Valid() && store == Touch(old(store), key, now)
      ensures
        r == match Lookup(old(store).data, key, now)
             case None => None
             case Some(e) => Some((e.value, e.expiresAt - now))
    {
      var entry := store.Get(key);
      if entry.None? {
        return None;
      }
      RemoveValid(store, key);
      var pttlMs := entry.value.expiresAt - now;
      if pttlMs <= 0 {
        store := store.Remove(key);
        return None;
      }
      store := store.Remove(key);
      PutValid(store, key, entry.value);
      store := Put(store, key, entry.value);
      return Some((entry.value.value, pttlMs));
    }

    method EvictExpired(now: int)
      requires Valid()
      modifies this
      ensures Valid() && store == old(store).Keep(LiveKeys(old(store).data, now))
    {
      hide Filter, Without;
      ghost var live := LiveKeys(store.data, now);
      ghost var before := store;
      var i := 0;
      while i < |store.keys|
        invariant Valid() && i <= |store.keys|
        invariant forall j :: 0 <= j < i ==> store.keys[j] in live
        invariant forall k :: k in store.data ==> (k in live <==> store.data[k].expiresAt > now)
        invariant before.Keep(live) == store.Keep(live)
        decreases |store.keys| - i
      {
        var key := store.keys[i];
        assert key in store.data;
        if store.data[key].expiresAt <= now {
          RemoveDead(store, live, i);
          store := store.Remove(key);
        } else {
          i := i + 1;
        }
      }
      assert forall k :: k in store.keys ==> k in live;
      FilterAll(store.keys, live);
      assert store.Keep(live) == store;
    }

    method Set(key: string, value: Value, ttlMs: int, now: int)
      requires Valid()
      modifies this
      ensures Valid() && store == Insert(old(store), maxKeys, key, Entry(value, now + ttlMs), now)
    {
      EvictExpired(now);
      ghost var live := store;
      while |store.keys| >= maxKeys
        invariant Valid()
        invariant store.Last(Room(maxKeys)) == live.Last(Room(maxKeys))
        decreases |store.keys|
      {
        if |store.keys| == 0 {
          break;
        }
        var oldest := store.keys[0];
        DropOldest(store, Room(maxKeys));
        RemoveValid(store, oldest);
        store := store.Remove(oldest);
      }
      LastAll(store, Room(maxKeys));
      PutValid(store, key, Entry(value, now + ttlMs));
      store := Put(store, key, Entry(value, now + ttlMs));
    }

    method Del(key: string)
      requires Valid()
      modifies this
      ensures Valid() && store == old(store).Remove(key)
    {
      RemoveValid(store, key);
      store := store.Remove(key);
    }

    method InvalidateByPrefix(prefix: string) returns (count: nat)
      requires Valid()
      modifies this
      ensures Valid() && store == old(store).Keep(Outside(old(store).data, prefix))
      ensures count == |old(store).keys| - |store.keys|
    {
      hide HasPrefix;
      hide Filter, Without;
      ghost var outside := Outside(store.data, prefix);
      ghost var before := store;
      var i := 0;
      count := 0;
      while i < |store.keys|
        invariant Valid() && i <= |store.keys|
        invariant forall j :: 0 <= j < i ==> store.keys[j] in outside
        invariant forall k :: k in store.data ==> (k in outside <==> !HasPrefix(k, prefix))
        invariant before.Keep(outside) == store.Keep(outside)
        invariant count == |before.keys| - |store.keys|
        decreases |store.keys| - i
      {
        var key := store.keys[i];
        assert key in store.data;
        if HasPrefix(key, prefix) {
          RemoveDead(store, outside, i);
          store := store.Remove(key);
          count := count + 1;
        } else {
          i := i + 1;
        }
      }
      assert forall k :: k in store.keys ==> k in outside;
      FilterAll(store.keys, outside);
      assert store.Keep(outside) == store;
    }

    method Clear()
      modifies this
      ensures Valid() && store == EMPTY
    {
      store := EMPTY;
    }
  }

  // Deleting, while looping over the map, an item that is not to be kept.
  lemma {:induction false} RemoveDead(m: Store, keep: set<string>, i: nat)
    requires m.Valid() && i < |m.keys| && m.keys[i] !in keep
    ensures
      var m' := m.Remove(m.keys[i]);
      && m'.Valid() && m'.Keep(keep) == m.Keep(keep)
      && |m'.keys| == |m.keys| - 1 && forall j :: 0 <= j < i ==> m'.keys[j] == m.keys[j]
  {
    var key := m.keys[i];
    assert key in m.keys;
    RemoveValid(m, key);
    WithoutAt(m.keys, i);
    FilterWithout(m.keys, key, keep);
    assert m.Remove(key).Keep(keep).data == m.Keep(keep).data;
  }

  lemma {:induction false} WithoutAt(ks: seq<string>, i: nat)
    requires Distinct(ks) && i < |ks|
    ensures |Without(ks, ks[i])| == |ks| - 1
    ensures forall j :: 0 <= j < i ==> Without(ks, ks[i])[j] == ks[j]
  {
    if i > 0 {
      assert Distinct(ks[1..]) && ks[0] != ks[i] && ks[1..][i - 1] == ks[i];
      WithoutAt(ks[1..], i - 1);
    }
  }

  lemma FilterWithout(ks: seq<string>, key: string, keep: set<string>)
    requires key !in keep
    ensures Filter(Without(ks, key), keep) == Filter(ks, keep)
  {
  }
}
