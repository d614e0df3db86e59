/**
 A string-keyed map that remembers insertion order, with the behaviour of the JavaScript `Map`
 (section 24.1.3 of ECMA-262, 2023 edition): setting a present key keeps its position, setting an
 absent key appends it, deleting closes the gap.
 */
module OrderedMap {
  import opened Common

  ghost predicate Distinct(ks: seq<string>) {
    forall i, j :: 0 <= i < j < |ks| ==> ks[i] != ks[j]
  }

  // A list of keys without one of them.
  function Without(ks: seq<string>, key: string): seq<string> {
    if ks == [] then [] else if ks[0] == key then ks[1..] else [ks[0]] + Without(ks[1..], key)
  }

  function Filter(ks: seq<string>, keep: set<string>): seq<string> {
    if ks == [] then [] else
    if ks[0] in keep then [ks[0]] + Filter(ks[1..], keep) else Filter(ks[1..], keep)
  }

  lemma WithoutExact(ks: seq<string>, key: string)
    requires Distinct(ks)
    ensures Distinct(Without(ks, key))
    ensures forall k :: k in Without(ks, key) <==> k in ks && k != key
    ensures |Without(ks, key)| == if key in ks then |ks| - 1 else |ks|
  {
    if ks != [] {
      assert Distinct(ks[1..]) && ks[0] !in ks[1..];
      WithoutExact(ks[1..], key);
      assert forall k :: k in ks <==> k == ks[0] || k in ks[1..];
    }
  }

  lemma FilterExact(ks: seq<string>, keep: set<string>)
    requires Distinct(ks)
    ensures Distinct(Filter(ks, keep)) && |Filter(ks, keep)| <= |ks|
    ensures forall k :: k in Filter(ks, keep) <==> k in ks && k in keep
  {
    if ks != [] {
      assert Distinct(ks[1..]) && ks[0] !in ks[1..];
      FilterExact(ks[1..], keep);
      assert forall k :: k in ks <==> k == ks[0] || k in ks[1..];
    }
  }

  lemma FilterAll(ks: seq<string>, keep: set<string>)
    requires forall k :: k in ks ==> k in keep
    ensures Filter(ks, keep) == ks
  {
  }

  datatype Map<+V> = Map(keys: seq<string>, data: map<string, V>)
  {
    ghost predicate Valid() {
      Distinct(keys) && forall k :: k in keys <==> k in data
    }

    function Get(key: string): Option<V> {
      if key in data then Some(data[key]) else None
    }

    function Remove(key: string): Map<V> {
      if key in data then Map(Without(keys, key), data - {key}) else this
    }

    // The items whose keys are kept.
    function Keep(keep: set<string>): Map<V> {
      Map(Filter(keys, keep), map k | k in data && k in keep :: data[k])
    }

    // The last n items.
    function Last(n: nat): Map<V>
      requires Valid()
    {
      var ks := LastKeys(keys, n);
      Map(ks, map k | k in data && k in ks :: data[k])
    }
  }

  function Put<V>(m: Map<V>, key: string, value: V): Map<V> {
    Map(if key in m.data then m.keys else m.keys + [key], m.data[key := value])
  }

  function LastKeys(ks: seq<string>, n: nat): seq<string> {
    if |ks| <= n then ks else ks[|ks| - n..]
  }

  lemma PutValid<V>(m: Map<V>, key: string, value: V)
    requires m.Valid()
    ensures Put(m, key, value).Valid()
  {
    var ks := m.keys + [key];
    assert forall k :: k in ks <==> k in m.keys || k == key;
  }

  lemma RemoveValid<V>(m: Map<V>, key: string)
    requires m.Valid()
    ensures m.Remove(key).Valid()
  {
    WithoutExact(m.keys, key);
  }

  lemma KeepValid<V>(m: Map<V>, keep: set<string>)
    requires m.Valid()
    ensures m.Keep(keep).Valid()
  {
    FilterExact(m.keys, keep);
  }

  lemma LastValid<V>(m: Map<V>, n: nat)
    requires m.Valid()
    ensures m.Last(n).Valid() && |m.Last(n).keys| == if |m.keys| <= n then |m.keys| else n
  {
  }

  // Dropping the oldest item of a map that holds more than n.
  lemma {:induction false} DropOldest<V>(m: Map<V>, n: nat)
    requires m.Valid() && |m.keys| > n
    ensures m.Remove(m.keys[0]).Last(n) == m.Last(n)
    ensures m.Remove(m.keys[0]).keys == m.keys[1..]
  {
    var oldest, rest := m.keys[0], m.keys[1..];
    assert oldest in m.keys && Without(m.keys, oldest) == rest;
    LastOfRest(m.keys, n);
    hide Without, LastKeys;
    RestrictedAlike(m.data, oldest, LastKeys(rest, n));
    RemoveValid(m, oldest);
  }

  lemma RestrictedAlike<V>(data: map<string, V>, key: string, ks: seq<string>)
    requires key !in ks
    ensures
      (map k | k in data - {key} && k in ks :: (data - {key})[k]) == (map k | k in data && k in ks :: data[k])
  {
  }

  lemma {:induction false} LastOfRest(ks: seq<string>, n: nat)
    requires Distinct(ks) && |ks| > n
    ensures LastKeys(ks[1..], n) == LastKeys(ks, n) && ks[0] !in LastKeys(ks, n)
  {
  }

  lemma LastAll<V>(m: Map<V>, n: nat)
    requires m.Valid() && |m.keys| <= n
    ensures m.Last(n) == m
  {
    assert m.Last(n).data == m.data;
  }

  ghost function KeySet(ks: seq<string>): set<string> {
    set k | k in ks
  }

  lemma {:induction false} NextToKeep(ks: seq<string>, keep: set<string>, i: nat)
    requires Distinct(ks) && i < |ks|
    ensures ks[i] in keep ==> keep + KeySet(ks[i..]) == keep + KeySet(ks[i + 1..])
    ensures ks[i] !in keep ==> keep + KeySet(ks[i..]) - {ks[i]} == keep + KeySet(ks[i + 1..])
  {
    assert ks[i..] == [ks[i]] + ks[i + 1..] && ks[i] !in ks[i + 1..];
  }

  lemma KeepAll<V>(m: Map<V>, keep: set<string>)
    requires m.Valid() && forall k :: k in m.keys ==> k in keep
    ensures m.Keep(keep) == m
  {
    FilterAll(m.keys, keep);
  }

  // Removing one more key from what is kept.
  lemma KeepRemove<V>(m: Map<V>, keep: set<string>, key: string)
    requires m.Valid() && key in keep && key in m.data
    ensures m.Keep(keep).Remove(key) == m.Keep(keep - {key})
  {
    FilterRemove(m.keys, keep, key);
  }

  lemma {:induction false} FilterRemove(ks: seq<string>, keep: set<string>, key: string)
    requires Distinct(ks) && key in keep
    ensures Without(Filter(ks, keep), key) == Filter(ks, keep - {key})
  {
    if ks != [] {
      assert Distinct(ks[1..]) && ks[0] !in ks[1..];
      FilterRemove(ks[1..], keep, key);
      if ks[0] == key {
        FilterAgrees(ks[1..], keep, keep - {key});
      }
    }
  }

  lemma {:induction false} FilterAgrees(ks: seq<string>, a: set<string>, b: set<string>)
    requires forall k :: k in ks ==> (k in a <==> k in b)
    ensures Filter(ks, a) == Filter(ks, b)
  {
    if ks != [] {
      FilterAgrees(ks[1..], a, b);
    }
  }
}
