/** What the two-level cache guarantees over whole runs (src/cache/cache.service.ts). */
module CacheTheorems {
  import opened Common
  import opened OrderedMap
  import opened MemoryCache
  import opened CacheService

  /* ---------- Refinement of one flat map whose entries expire ---------- */

  datatype Op =
    | Get(key: string, now: int)
    | Set(key: string, value: Value, ttlMs: Option<int>, now: int)
    | Wrap(key: string, produced: Option<Value>, ttlMs: Option<int>, now: int, later: int)
    | Del(key: string, now: int)
    | Invalidate(prefix: string, now: int)
    | Clear(now: int)

  function End(op: Op): int {
    if op.Wrap? then op.later else op.now
  }

  function Ttl(c: Config, ttlMs: Option<int>): int {
    if ttlMs.Some? then ttlMs.value else c.defaultTtlMs
  }

  function Execute(c: Config, s: State, op: Op): (State, Option<Value>)
    requires s.l1.Valid()
  {
    match op
    case Get(key, now) => GetStep(c, s, key, now)
    case Set(key, value, ttlMs, now) => (SetStep(c, s, key, value, ttlMs, now), None)
    case Wrap(key, produced, ttlMs, now, later) => WrapStep(c, s, key, produced, ttlMs, now, later)
    case Del(key, now) => (DelStep(c, s, key), None)
    case Invalidate(prefix, now) => (InvalidateStep(c, s, prefix, now).0, None)
    case Clear(now) => (ClearStep(c, s), None)
  }

  type Flat = map<string, Entry>

  function FlatGet(f: Flat, key: string, now: int): Option<Value> {
    if key in f && now < f[key].expiresAt then Some(f[key].value) else None
  }

  // The specification: one map, no levels, no size limit, no eviction.
  function FlatStep(c: Config, f: Flat, op: Op): (Flat, Option<Value>) {
    match op
    case Get(key, now) => (f, FlatGet(f, key, now))
    case Set(key, value, ttlMs, now) => (f[key := Entry(value, now + Ttl(c, ttlMs))], None)
    case Wrap(key, produced, ttlMs, now, later) =>
      var cached := FlatGet(f, key, now);
      if cached.Some? then (f, cached)
      else if produced.Some? && produced.value != Null then
        (f[key := Entry(produced.value, later + Ttl(c, ttlMs))], produced)
      else (f, produced)
    case Del(key, now) => (f - {key}, None)
    case Invalidate(prefix, now) => (map k | k in f && !(prefix <= k) :: f[k], None)
    case Clear(now) => (map[], None)
  }

  // A value without time to live is not set where a live value is.
  predicate Harmless(c: Config, f: Flat, op: Op) {
    op.Set? && Ttl(c, op.ttlMs) < 1 ==> FlatGet(f, op.key, op.now).None?
  }

  // The second level has the live entries of the flat map. Every live entry of the first level has the
  // value of the flat map, and expires no later.
  ghost predicate Refines(s: State, f: Flat, now: int) {
    && s.l1.Valid() && s.online && (forall k :: Lookup(s.l2, k, now) == Lookup(f, k, now))
    && forall k :: k in s.l1.data && s.l1.data[k].expiresAt > now ==>
        k in f && s.l1.data[k].value == f[k].value && s.l1.data[k].expiresAt <= f[k].expiresAt
  }

  lemma {:induction false} TouchFacts(m: Store, key: string, now: int)
    requires m.Valid()
    ensures Touch(m, key, now).Valid()
    ensures forall k :: k in Touch(m, key, now).data ==> k in m.data && Touch(m, key, now).data[k] == m.data[k]
  {
    TouchValid(m, key, now);
  }

  lemma {:induction false} InsertFacts(m: Store, maxKeys: nat, key: string, e: Entry, now: int)
    requires m.Valid()
    ensures
      var m' := Insert(m, maxKeys, key, e, now);
      && m'.Valid() && key in m'.data && m'.data[key] == e
      && forall k :: k in m'.data && k != key ==> k in m.data && m'.data[k] == m.data[k]
  {
    InsertValid(m, maxKeys, key, e, now);
  }

  lemma GetRefines(c: Config, s: State, f: Flat, key: string, now: int)
    requires c.enabled && Refines(s, f, now)
    ensures Refines(GetStep(c, s, key, now).0, f, now)
    ensures GetStep(c, s, key, now).1 == FlatGet(f, key, now)
  {
    hide Touch, Insert;
    TouchFacts(s.l1, key, now);
    if Lookup(s.l1.data, key, now).None? && key in f && f[key].expiresAt > now {
      InsertFacts(Touch(s.l1, key, now), c.maxKeys, key,
                  Entry(f[key].value, now + Max(1, f[key].expiresAt - now)), now);
    }
  }

  lemma {:induction false} SetRefines(c: Config, s: State, f: Flat, key: string, value: Value, ttlMs: Option<int>,
                                      now: int)
    requires c.enabled && Refines(s, f, now) && Harmless(c, f, Set(key, value, ttlMs, now))
    ensures Refines(SetStep(c, s, key, value, ttlMs, now), f[key := Entry(value, now + Ttl(c, ttlMs))], now)
  {
    hide Insert;
    InsertFacts(s.l1, c.maxKeys, key, Entry(value, now + Ttl(c, ttlMs)), now);
    var s', f' := SetStep(c, s, key, value, ttlMs, now), f[key := Entry(value, now + Ttl(c, ttlMs))];
    forall k
      ensures Lookup(s'.l2, k, now) == Lookup(f', k, now)
    {
      assert Lookup(s.l2, k, now) == Lookup(f, k, now);
    }
  }

  lemma LaterRefines(s: State, f: Flat, now: int, later: int)
    requires Refines(s, f, now) && now <= later
    ensures Refines(s, f, later)
  {
    forall k
      ensures Lookup(s.l2, k, later) == Lookup(f, k, later)
    {
      assert Lookup(s.l2, k, now) == Lookup(f, k, now);
    }
  }

  // What is forgotten in the flat map is forgotten on both levels.
  lemma ForgetRefines(s: State, f: Flat, t: State, keep: set<string>, now: int)
    requires Refines(s, f, now) && t.l1.Valid() && t.online
    requires forall k :: k in t.l1.data ==> k in keep && k in s.l1.data && t.l1.data[k] == s.l1.data[k]
    requires t.l2 == map k | k in s.l2 && k in keep :: s.l2[k]
    ensures Refines(t, map k | k in f && k in keep :: f[k], now)
  {
    var g := map k | k in f && k in keep :: f[k];
    forall k
      ensures Lookup(t.l2, k, now) == Lookup(g, k, now)
    {
      assert Lookup(s.l2, k, now) == Lookup(f, k, now);
    }
  }

  lemma DelRefines(c: Config, s: State, f: Flat, key: string, now: int)
    requires c.enabled && Refines(s, f, now)
    ensures Refines(DelStep(c, s, key), f - {key}, now)
  {
    RemoveValid(s.l1, key);
    var keep := (s.l1.data.Keys + s.l2.Keys + f.Keys) - {key};
    assert s.l2 - {key} == map k | k in s.l2 && k in keep :: s.l2[k];
    assert f - {key} == map k | k in f && k in keep :: f[k];
    ForgetRefines(s, f, DelStep(c, s, key), keep, now);
  }

  lemma InvalidateRefines(c: Config, s: State, f: Flat, prefix: string, now: int)
    requires c.enabled && Refines(s, f, now)
    ensures Refines(InvalidateStep(c, s, prefix, now).0, map k | k in f && !(prefix <= k) :: f[k], now)
  {
    assert forall k :: HasPrefix(k, prefix) <==> prefix <= k;
    hide HasPrefix, Matching;
    KeepValid(s.l1, Outside(s.l1.data, prefix));
    var keep := set k | k in s.l1.data.Keys + s.l2.Keys + f.Keys && !HasPrefix(k, prefix);
    var t := InvalidateStep(c, s, prefix, now).0;
    assert t.l2 == map k | k in s.l2 && k in keep :: s.l2[k];
    assert (map k | k in f && !(prefix <= k) :: f[k]) == map k | k in f && k in keep :: f[k];
    ForgetRefines(s, f, t, keep, now);
  }

  lemma WrapRefines(c: Config, s: State, f: Flat, key: string, produced: Option<Value>, ttlMs: Option<int>, now: int,
                    later: int)
    requires c.enabled && Refines(s, f, now) && now <= later
    ensures
      var (s', r) := WrapStep(c, s, key, produced, ttlMs, now, later);
      var (f', r') := FlatStep(c, f, Wrap(key, produced, ttlMs, now, later));
      Refines(s', f', later) && r == r'
  {
    hide GetStep, SetStep;
    GetRefines(c, s, f, key, now);
    var s' := GetStep(c, s, key, now).0;
    LaterRefines(s', f, now, later);
    if produced.Some? && FlatGet(f, key, now).None? {
      SetRefines(c, s', f, key, produced.value, ttlMs, later);
    }
  }

  lemma ExecuteRefines(c: Config, s: State, f: Flat, op: Op)
    requires c.enabled && Refines(s, f, op.now) && Harmless(c, f, op) && op.now <= End(op)
    ensures Refines(Execute(c, s, op).0, FlatStep(c, f, op).0, End(op))
    ensures Execute(c, s, op).1 == FlatStep(c, f, op).1
  {
    hide GetStep, SetStep, WrapStep, Filter, Without;
    match op
    case Get(key, now) => GetRefines(c, s, f, key, now);
    case Set(key, value, ttlMs, now) => SetRefines(c, s, f, key, value, ttlMs, now);
    case Wrap(key, produced, ttlMs, now, later) => WrapRefines(c, s, f, key, produced, ttlMs, now, later);
    case Del(key, now) =>
      DelRefines(c, s, f, key, now);
      hide DelStep;
    case Invalidate(prefix, now) =>
      InvalidateRefines(c, s, f, prefix, now);
      hide InvalidateStep;
    case Clear(now) =>
  }

  // The clock does not step back.
  ghost predicate InTime(ops: seq<Op>) {
    && (forall i :: 0 <= i < |ops| ==> ops[i].now <= End(ops[i]))
    && (forall i :: 0 < i < |ops| ==> End(ops[i - 1]) <= ops[i].now)
  }

  // Every operation of a run is harmless where it comes, seen from the flat map.
  predicate HarmlessRun(c: Config, f: Flat, ops: seq<Op>)
    decreases |ops|
  {
    ops != [] ==> Harmless(c, f, ops[0]) && HarmlessRun(c, FlatStep(c, f, ops[0]).0, ops[1..])
  }

  // What each operation of a run returns.
  function Answers(c: Config, s: State, ops: seq<Op>): seq<Option<Value>>
    requires s.l1.Valid()
    decreases |ops|
  {
    if ops == [] then [] else
    var (s', r) := Execute(c, s, ops[0]);
    ExecuteValid(c, s, ops[0]);
    [r] + Answers(c, s', ops[1..])
  }

  function FlatAnswers(c: Config, f: Flat, ops: seq<Op>): seq<Option<Value>>
    decreases |ops|
  {
    if ops == [] then [] else
    var (f', r) := FlatStep(c, f, ops[0]);
    [r] + FlatAnswers(c, f', ops[1..])
  }

  lemma ExecuteValid(c: Config, s: State, op: Op)
    requires s.l1.Valid()
    ensures Execute(c, s, op).0.l1.Valid()
  {
    match op
    case Get(key, now) => GetKeepsValid(c, s, key, now);
    case Set(key, value, ttlMs, now) => InsertValid(s.l1, c.maxKeys, key, Entry(value, now + Ttl(c, ttlMs)), now);
    case Wrap(key, produced, ttlMs, now, later) =>
      GetKeepsValid(c, s, key, now);
      if produced.Some? {
        InsertValid(GetStep(c, s, key, now).0.l1, c.maxKeys, key, Entry(produced.value, later + Ttl(c, ttlMs)), later);
      }
    case Del(key, now) => RemoveValid(s.l1, key);
    case Invalidate(prefix, now) => KeepValid(s.l1, Outside(s.l1.data, prefix));
    case Clear(now) =>
  }

  lemma {:induction false} AnswersRefine(c: Config, s: State, f: Flat, ops: seq<Op>)
    requires c.enabled && InTime(ops) && HarmlessRun(c, f, ops)
    requires ops != [] ==> Refines(s, f, ops[0].now)
    requires s.l1.Valid()
    ensures Answers(c, s, ops) == FlatAnswers(c, f, ops)
    decreases |ops|
  {
    hide Execute, FlatStep;
    if ops != [] {
      ExecuteRefines(c, s, f, ops[0]);
      ExecuteValid(c, s, ops[0]);
      var s', f' := Execute(c, s, ops[0]).0, FlatStep(c, f, ops[0]).0;
      if |ops| > 1 {
        LaterRefines(s', f', End(ops[0]), ops[1].now);
      }
      AnswersRefine(c, s', f', ops[1..]);
    }
  }

  /**
   With the second level online, a run of the two-level cache returns exactly what one flat map whose
   entries expire would return, whatever the first level evicts, as long as no `set` without a positive
   time to live comes where the key has a live value.
   */
  lemma CacheRefinesFlatMap(c: Config, ops: seq<Op>)
    requires c.enabled && InTime(ops) && HarmlessRun(c, map[], ops)
    ensures Answers(c, START, ops) == FlatAnswers(c, map[], ops)
  {
    AnswersRefine(c, START, map[], ops);
  }

  /**
   A `set` without a positive time to live is where the refinement ends: the next `get` returns what
   the flat map returns if and only if the time to live is positive or the key had no live value.
   */
  lemma SetRefinesIff(c: Config, s: State, f: Flat, key: string, value: Value, ttlMs: Option<int>, now: int)
    requires c.enabled && Refines(s, f, now)
    ensures
      var s' := SetStep(c, s, key, value, ttlMs, now);
      var f' := FlatStep(c, f, Set(key, value, ttlMs, now)).0;
      && s'.l1.Valid()
      && (GetStep(c, s', key, now).1 == FlatGet(f', key, now)
          <==> Ttl(c, ttlMs) >= 1 || FlatGet(f, key, now).None?)
  {
    hide Insert;
    InsertFacts(s.l1, c.maxKeys, key, Entry(value, now + Ttl(c, ttlMs)), now);
    if Ttl(c, ttlMs) >= 1 {
      SetRefines(c, s, f, key, value, ttlMs, now);
    }
  }

  // A first part of a run, and a `get` at once.
  function Probed(ops: seq<Op>, i: nat, key: string): seq<Op>
    requires 0 < i <= |ops|
  {
    ops[..i] + [Get(key, End(ops[i - 1]))]
  }

  lemma {:induction false} ProbeIsHarmless(c: Config, f: Flat, ops: seq<Op>, i: nat, key: string)
    requires InTime(ops) && HarmlessRun(c, f, ops) && 0 < i <= |ops|
    ensures InTime(Probed(ops, i, key)) && HarmlessRun(c, f, Probed(ops, i, key))
    decreases |ops|
  {
    hide Harmless, FlatStep;
    var probed := Probed(ops, i, key);
    if i == 1 {
      var get, f' := Get(key, End(ops[0])), FlatStep(c, f, ops[0]).0;
      assert probed[1..] == [get] && [get][1..] == [];
      GetIsHarmless(c, f', key, End(ops[0]));
      assert HarmlessRun(c, FlatStep(c, f', get).0, []) && HarmlessRun(c, f', [get]);
    } else {
      ProbeIsHarmless(c, FlatStep(c, f, ops[0]).0, ops[1..], i - 1, key);
      assert probed[1..] == Probed(ops[1..], i - 1, key);
    }
  }

  lemma GetIsHarmless(c: Config, f: Flat, key: string, now: int)
    ensures Harmless(c, f, Get(key, now))
  {
  }

  ghost predicate Agrees(c: Config, s: State, f: Flat, ops: seq<Op>) {
    s.l1.Valid() && Answers(c, s, ops) == FlatAnswers(c, f, ops)
  }

  lemma SameAnswersLater(c: Config, s: State, f: Flat, op: Op, more: seq<Op>)
    requires s.l1.Valid() && Agrees(c, s, f, [op] + more)
    ensures Agrees(c, Execute(c, s, op).0, FlatStep(c, f, op).0, more)
  {
    hide Execute, FlatStep;
    ExecuteValid(c, s, op);
    assert ([op] + more)[1..] == more;
    assert Answers(c, s, [op] + more)[1..] == Answers(c, Execute(c, s, op).0, more);
    assert FlatAnswers(c, f, [op] + more)[1..] == FlatAnswers(c, FlatStep(c, f, op).0, more);
  }

  lemma GetAnswers(c: Config, s: State, f: Flat, key: string, now: int)
    requires Agrees(c, s, f, [Get(key, now)])
    ensures GetStep(c, s, key, now).1 == FlatGet(f, key, now)
  {
    hide GetStep, FlatGet;
    assert Answers(c, s, [Get(key, now)])[0] == GetStep(c, s, key, now).1;
    assert FlatAnswers(c, f, [Get(key, now)])[0] == FlatGet(f, key, now);
  }

  // The first harmful `set` is seen by a `get` of its key at once.
  lemma {:induction false} HarmShows(c: Config, s: State, f: Flat, ops: seq<Op>) returns (i: nat, key: string)
    requires c.enabled && InTime(ops) && !HarmlessRun(c, f, ops) && Refines(s, f, ops[0].now)
    ensures 0 < i <= |ops| && !Agrees(c, s, f, Probed(ops, i, key))
    decreases |ops|
  {
    var op := ops[0];
    var s', f' := Execute(c, s, op).0, FlatStep(c, f, op).0;
    if !Harmless(c, f, op) {
      i, key := 1, op.key;
      SetRefinesIff(c, s, f, op.key, op.value, op.ttlMs, op.now);
      var get := [Get(op.key, op.now)];
      assert Probed(ops, 1, key) == [op] + get;
      hide GetStep, SetStep, FlatGet;
      if Agrees(c, s, f, [op] + get) {
        SameAnswersLater(c, s, f, op, get);
        GetAnswers(c, s', f', op.key, op.now);
      }
    } else {
      ExecuteRefines(c, s, f, op);
      var rest := ops[1..];
      hide Execute, FlatStep, Harmless;
      assert !HarmlessRun(c, f', rest);
      LaterRefines(s', f', End(op), rest[0].now);
      var j, k := HarmShows(c, s', f', rest);
      i, key := j + 1, k;
      assert Probed(ops, i, key) == [op] + Probed(rest, j, key);
      if Agrees(c, s, f, Probed(ops, i, key)) {
        SameAnswersLater(c, s, f, op, Probed(rest, j, key));
      }
    }
  }

  /**
   The refinement is exact, run by run: every first part of a run, with any `get` right after it, returns
   what the flat map returns if and only if no `set` without a positive time to live comes where the key
   has a live value.
   */
  lemma {:induction false} RunRefinesIff(c: Config, ops: seq<Op>)
    requires c.enabled && InTime(ops)
    ensures HarmlessRun(c, map[], ops) <==>
      forall i, key :: 0 < i <= |ops| ==> Agrees(c, START, map[], Probed(ops, i, key))
  {
    if HarmlessRun(c, map[], ops) {
      forall i, key | 0 < i <= |ops|
        ensures Agrees(c, START, map[], Probed(ops, i, key))
      {
        ProbeIsHarmless(c, map[], ops, i, key);
        CacheRefinesFlatMap(c, Probed(ops, i, key));
      }
    } else {
      var i, key := HarmShows(c, START, map[], ops);
    }
  }

  // A value that is replaced by one without time to live.
  function Replaced(): seq<Op> {
    [Set("k", Data("old"), Some(1000), 0), Set("k", Data("new"), Some(0), 0), Get("k", 0)]
  }

  /** A run that shows it: the replaced value is returned, where the flat map returns nothing. */
  lemma ReplacedValueReturns(c: Config)
    requires c.enabled
    ensures Answers(c, START, Replaced()) == [None, None, Some(Data("old"))]
    ensures FlatAnswers(c, map[], Replaced()) == [None, None, None]
  {
    ReplacedAnswers(c);
    var ops := Replaced();
    hide Answers;
    FlatAnswersOfThree(c, map[], ops[0], ops[1], ops[2]);
    hide FlatAnswers;
  }

  lemma ReplacedAnswers(c: Config)
    requires c.enabled
    ensures Answers(c, START, Replaced()) == [None, None, Some(Data("old"))]
  {
    var ops, s1 := Replaced(), FirstStored();
    FirstIsStored(c);
    SecondIsRefused(c);
    var s2 := Execute(c, s1, ops[1]).0;
    FirstIsReturned(c, s2);
    hide Execute, FirstStored, Lookup;
    AnswersOfThree(c, START, ops[0], ops[1], ops[2]);
    hide Answers;
  }

  function FirstStored(): State {
    var e := Entry(Data("old"), 1000);
    State(Map(["k"], map["k" := e]), map["k" := e], true, Stats(0, 0, 1, 0))
  }

  lemma FirstIsStored(c: Config)
    requires c.enabled
    ensures Execute(c, START, Replaced()[0]) == (FirstStored(), None)
  {
    InsertAlone(EMPTY, c.maxKeys, "k", Entry(Data("old"), 1000), 0);
    hide Insert;
  }

  lemma SecondIsRefused(c: Config)
    requires c.enabled
    ensures FirstStored().l1.Valid()
    ensures
      var (s, r) := Execute(c, FirstStored(), Replaced()[1]);
      s.l1.Valid() && s.online && s.l2 == FirstStored().l2 && Lookup(s.l1.data, "k", 0).None? && r.None?
  {
    InsertFacts(FirstStored().l1, c.maxKeys, "k", Entry(Data("new"), 0), 0);
    hide Insert;
  }

  lemma FirstIsReturned(c: Config, s: State)
    requires c.enabled && s.l1.Valid() && s.online && s.l2 == FirstStored().l2 && Lookup(s.l1.data, "k", 0).None?
    ensures Execute(c, s, Replaced()[2]).1 == Some(Data("old"))
  {
    hide Insert, Touch;
  }

  lemma InsertAlone(m: Store, maxKeys: nat, key: string, e: Entry, now: int)
    requires m == EMPTY
    ensures Insert(m, maxKeys, key, e, now) == Map([key], map[key := e])
  {
    assert m.Keep(LiveKeys(m.data, now)).Last(Room(maxKeys)) == EMPTY;
  }

  lemma {:induction false} AnswersOfThree(c: Config, s: State, first: Op, second: Op, third: Op)
    requires s.l1.Valid() && Execute(c, s, first).0.l1.Valid()
    requires Execute(c, Execute(c, s, first).0, second).0.l1.Valid()
    ensures
      var (s1, r1) := Execute(c, s, first);
      var (s2, r2) := Execute(c, s1, second);
      Answers(c, s, [first, second, third]) == [r1, r2, Execute(c, s2, third).1]
  {
    hide Execute;
    assert [first, second, third][1..] == [second, third] && [second, third][1..] == [third] && [third][1..] == [];
    var (s1, r1) := Execute(c, s, first);
    var (s2, r2) := Execute(c, s1, second);
    ExecuteValid(c, s2, third);
    assert Answers(c, s2, [third]) == [Execute(c, s2, third).1];
    assert Answers(c, s1, [second, third]) == [r2] + [Execute(c, s2, third).1];
  }

  lemma {:induction false} FlatAnswersOfThree(c: Config, f: Flat, first: Op, second: Op, third: Op)
    ensures
      var (f1, r1) := FlatStep(c, f, first);
      var (f2, r2) := FlatStep(c, f1, second);
      FlatAnswers(c, f, [first, second, third]) == [r1, r2, FlatStep(c, f2, third).1]
  {
    hide FlatStep;
    assert [first, second, third][1..] == [second, third] && [second, third][1..] == [third] && [third][1..] == [];
    var (f1, r1) := FlatStep(c, f, first);
    var (f2, r2) := FlatStep(c, f1, second);
    assert FlatAnswers(c, f2, [third]) == [FlatStep(c, f2, third).1];
    assert FlatAnswers(c, f1, [second, third]) == [r2] + [FlatStep(c, f2, third).1];
  }

  /* ---------- Least recently used ---------- */

  // The distinct requested keys, least recently requested first.
  function Recency(requests: seq<string>): seq<string> {
    if requests == [] then [] else
    var n := |requests| - 1;
    Without(Recency(requests[..n]), requests[n]) + [requests[n]]
  }

  // The position of the last request of a key.
  ghost predicate LastRequest(requests: seq<string>, key: string, i: int) {
    0 <= i < |requests| && requests[i] == key && forall j :: i < j < |requests| ==> requests[j] != key
  }

  ghost predicate OrderedByLastRequest(ks: seq<string>, requests: seq<string>) {
    forall a, b, i, j | 0 <= a < b < |ks| ::
      LastRequest(requests, ks[a], i) && LastRequest(requests, ks[b], j) ==> i < j
  }

  /** `Recency` lists exactly the requested keys, once each, ordered by their last requests. */
  lemma {:induction false} RecencyExact(requests: seq<string>)
    ensures Distinct(Recency(requests))
    ensures forall k :: k in Recency(requests) <==> k in requests
    ensures OrderedByLastRequest(Recency(requests), requests)
  {
    if requests != [] {
      var n := |requests| - 1;
      var before, key := Recency(requests[..n]), requests[n];
      RecencyExact(requests[..n]);
      WithoutExact(before, key);
      var r := Recency(requests);
      assert forall k :: k in requests <==> k in requests[..n] || k == key;
      forall a, b, i, j | 0 <= a < b < |r| && LastRequest(requests, r[a], i) && LastRequest(requests, r[b], j)
        ensures i < j
      {
        assert r[a] != key;
        assert requests[..n][i] == r[a];
        assert LastRequest(requests[..n], r[a], i);
        if b < |r| - 1 {
          assert LastRequest(requests[..n], r[b], j);
          WithoutKeepsOrder(before, key, a, b);
        }
      }
    }
  }

  lemma {:induction false} WithoutKeepsOrder(ks: seq<string>, key: string, a: nat, b: nat)
    requires Distinct(ks) && a < b < |Without(ks, key)|
    ensures exists a', b' :: 0 <= a' < b' < |ks| && ks[a'] == Without(ks, key)[a] && ks[b'] == Without(ks, key)[b]
  {
    WithoutIndex(ks, key, a);
    WithoutIndex(ks, key, b);
  }

  function Shift(ks: seq<string>, key: string, i: nat): nat {
    if ks == [] then i else if ks[0] == key then i + 1 else if i == 0 then 0 else 1 + Shift(ks[1..], key, i - 1)
  }

  lemma {:induction false} WithoutIndex(ks: seq<string>, key: string, i: nat)
    requires i < |Without(ks, key)|
    ensures i <= Shift(ks, key, i) < |ks| && ks[Shift(ks, key, i)] == Without(ks, key)[i]
    ensures forall j: nat :: j < i ==> Shift(ks, key, j) < Shift(ks, key, i)
  {
    if ks != [] && ks[0] != key && i > 0 {
      WithoutIndex(ks[1..], key, i - 1);
      forall j: nat | j < i
        ensures Shift(ks, key, j) < Shift(ks, key, i)
      {
        if j > 0 {
          assert Shift(ks[1..], key, j - 1) < Shift(ks[1..], key, i - 1);
        }
      }
    }
  }

  // One request on the list of keys in memory.
  function RequestKeys(ks: seq<string>, key: string, maxKeys: nat): seq<string> {
    if key in ks then Without(ks, key) + [key] else LastKeys(ks, Room(maxKeys)) + [key]
  }

  // The keys in memory after requests that all find or store a value.
  function KeysAfter(requests: seq<string>, maxKeys: nat): seq<string> {
    if requests == [] then [] else
    var n := |requests| - 1;
    RequestKeys(KeysAfter(requests[..n], maxKeys), requests[n], maxKeys)
  }

  function Capacity(maxKeys: nat): nat {
    Room(maxKeys) + 1
  }

  lemma RequestOnRecency(r: seq<string>, key: string, maxKeys: nat)
    requires Distinct(r)
    ensures RequestKeys(LastKeys(r, Capacity(maxKeys)), key, maxKeys) ==
      LastKeys(Without(r, key) + [key], Capacity(maxKeys))
  {
    hide Without;
    var n := Room(maxKeys);
    WithoutExact(r, key);
    if key in LastKeys(r, n + 1) {
      WithoutInSuffix(r, key, n + 1);
    } else {
      WithoutBeforeSuffix(r, key, n);
    }
    LastSnoc(Without(r, key), key, n);
  }

  lemma LastSnoc(ks: seq<string>, key: string, n: nat)
    ensures LastKeys(ks + [key], n + 1) == LastKeys(ks, n) + [key]
  {
  }

  lemma WithoutInSuffix(r: seq<string>, key: string, n: nat)
    requires Distinct(r) && key in LastKeys(r, n) && n > 0
    ensures Without(LastKeys(r, n), key) == LastKeys(Without(r, key), n - 1)
  {
    WithoutExact(r, key);
    if |r| > n {
      WithoutDrop(r, key, |r| - n);
    } else {
      assert key in r;
    }
  }

  // When the key is not among the first d keys, removing it commutes with dropping those.
  lemma {:induction false} WithoutDrop(r: seq<string>, key: string, d: nat)
    requires Distinct(r) && d <= |r| && key !in r[..d]
    ensures |Without(r, key)| >= d && Without(r, key)[d..] == Without(r[d..], key)
  {
    if d > 0 {
      assert r[0] in r[..d] && r[1..][..d - 1] == r[..d][1..];
      WithoutDrop(r[1..], key, d - 1);
      assert r[1..][d - 1..] == r[d..];
    }
  }

  lemma WithoutBeforeSuffix(r: seq<string>, key: string, n: nat)
    requires Distinct(r) && key !in LastKeys(r, n + 1)
    ensures LastKeys(LastKeys(r, n + 1), n) == LastKeys(Without(r, key), n)
  {
    WithoutExact(r, key);
    if key in r {
      var i :| 0 <= i < |r| && r[i] == key;
      assert i < |r| - n - 1;
      WithoutTail(r, key, i);
      var w := Without(r, key);
      hide Without;
      assert w[|w| - n..] == w[i..][|w| - n - i..] && r[|r| - n..] == r[i + 1..][|r| - n - i - 1..];
    } else {
      WithoutAbsent(r, key);
    }
  }

  lemma WithoutAbsent(r: seq<string>, key: string)
    requires key !in r
    ensures Without(r, key) == r
  {
  }

  lemma {:induction false} WithoutTail(r: seq<string>, key: string, i: nat)
    requires Distinct(r) && i < |r| && r[i] == key
    ensures |Without(r, key)| == |r| - 1 && Without(r, key)[i..] == r[i + 1..]
  {
    if i > 0 {
      assert r[0] != key && r[1..][i - 1] == key;
      WithoutTail(r[1..], key, i - 1);
    }
  }

  /** The keys in memory are the most recently requested distinct keys, as many as fit, oldest first. */
  lemma {:induction false} KeysAreMostRecent(requests: seq<string>, maxKeys: nat)
    ensures KeysAfter(requests, maxKeys) == LastKeys(Recency(requests), Capacity(maxKeys))
  {
    if requests != [] {
      var n := |requests| - 1;
      KeysAreMostRecent(requests[..n], maxKeys);
      RecencyExact(requests[..n]);
      RequestOnRecency(Recency(requests[..n]), requests[n], maxKeys);
    }
  }

  // A run of `wrap` calls: key, produced value, time to live, time of the request, time of the store.
  datatype Request = Request(key: string, value: Value, ttlMs: int, now: int, later: int)

  function KeysOf(rs: seq<Request>): seq<string> {
    if rs == [] then [] else KeysOf(rs[..|rs| - 1]) + [rs[|rs| - 1].key]
  }

  // The values are not null, and nothing stored expires before `horizon`.
  ghost predicate Lasting(rs: seq<Request>, horizon: int) {
    forall i :: 0 <= i < |rs| ==>
      rs[i].value != Null && rs[i].now <= horizon && rs[i].later <= horizon && horizon < rs[i].later + rs[i].ttlMs
  }

  function RunWraps(c: Config, rs: seq<Request>): (s: State)
    ensures s.l1.Valid()
  {
    if rs == [] then START.(online := false) else
    var r := rs[|rs| - 1];
    var s := RunWraps(c, rs[..|rs| - 1]);
    ExecuteValid(c, s, Wrap(r.key, Some(r.value), Some(r.ttlMs), r.now, r.later));
    WrapStep(c, s, r.key, Some(r.value), Some(r.ttlMs), r.now, r.later).0
  }

  // Requests that find their key among the most recent ones.
  function HitCount(requests: seq<string>, maxKeys: nat): nat {
    if requests == [] then 0 else
    var n := |requests| - 1;
    HitCount(requests[..n], maxKeys) + if requests[n] in KeysAfter(requests[..n], maxKeys) then 1 else 0
  }

  ghost predicate AllLive(m: Store, horizon: int) {
    forall k :: k in m.data ==> m.data[k].expiresAt > horizon
  }

  // The keys after storing `key` in a list with room for n others, when nothing expires.
  function StoredKeys(ks: seq<string>, key: string, n: nat): seq<string> {
    var kept := LastKeys(ks, n);
    if key in kept then kept else kept + [key]
  }

  lemma InsertWhenLive(m: Store, maxKeys: nat, key: string, e: Entry, now: int, horizon: int)
    requires m.Valid() && AllLive(m, horizon) && now <= horizon < e.expiresAt
    ensures
      var m' := Insert(m, maxKeys, key, e, now);
      m'.Valid() && AllLive(m', horizon) && m'.keys == StoredKeys(m.keys, key, Room(maxKeys))
  {
    InsertFacts(m, maxKeys, key, e, now);
    var live := LiveKeys(m.data, now);
    FilterAll(m.keys, live);
    var kept := m.Keep(live);
    KeepValid(m, live);
    LastValid(kept, Room(maxKeys));
    assert kept.keys == m.keys;
    assert key in kept.Last(Room(maxKeys)).data <==> key in LastKeys(m.keys, Room(maxKeys));
  }

  lemma TouchWhenLive(m: Store, key: string, now: int, horizon: int)
    requires m.Valid() && AllLive(m, horizon) && now <= horizon && key in m.data
    ensures
      var m' := Touch(m, key, now);
      m'.Valid() && AllLive(m', horizon) && m'.keys == Without(m.keys, key) + [key]
  {
    TouchFacts(m, key, now);
  }

  lemma WrapOnKeys(c: Config, s: State, r: Request, horizon: int)
    requires c.enabled && !s.online && s.l1.Valid() && AllLive(s.l1, horizon) && Lasting([r], horizon)
    ensures
      var s' := WrapStep(c, s, r.key, Some(r.value), Some(r.ttlMs), r.now, r.later).0;
      && !s'.online && s'.l1.Valid() && AllLive(s'.l1, horizon)
      && s'.l1.keys == RequestKeys(s.l1.keys, r.key, c.maxKeys)
      && s'.stats.hits == s.stats.hits + if r.key in s.l1.keys then 1 else 0
  {
    hide Without, LastKeys;
    assert [r][0] == r;
    if r.key in s.l1.data {
      hide Touch, Insert;
      TouchWhenLive(s.l1, r.key, r.now, horizon);
    } else {
      hide Insert;
      InsertWhenLive(s.l1, c.maxKeys, r.key, Entry(r.value, r.later + r.ttlMs), r.later, horizon);
      assert r.key !in LastKeys(s.l1.keys, Room(c.maxKeys)) by {
        LastIsPart(s.l1.keys, r.key, Room(c.maxKeys));
      }
    }
  }

  lemma LastIsPart(ks: seq<string>, key: string, n: nat)
    requires key !in ks
    ensures key !in LastKeys(ks, n)
  {
  }

  lemma RequestsSnoc(requests: seq<string>, key: string, maxKeys: nat)
    ensures KeysAfter(requests + [key], maxKeys) == RequestKeys(KeysAfter(requests, maxKeys), key, maxKeys)
    ensures HitCount(requests + [key], maxKeys) ==
      HitCount(requests, maxKeys) + if key in KeysAfter(requests, maxKeys) then 1 else 0
  {
    assert (requests + [key])[..|requests|] == requests;
  }

  lemma {:induction false} RunOnKeys(c: Config, rs: seq<Request>, horizon: int)
    requires c.enabled && Lasting(rs, horizon)
    ensures
      var s := RunWraps(c, rs);
      && !s.online && AllLive(s.l1, horizon)
      && s.l1.keys == KeysAfter(KeysOf(rs), c.maxKeys) && s.stats.hits == HitCount(KeysOf(rs), c.maxKeys)
  {
    if rs != [] {
      hide WrapStep, AllLive, KeysAfter, HitCount, RequestKeys;
      var n := |rs| - 1;
      RunOnKeys(c, rs[..n], horizon);
      WrapOnKeys(c, RunWraps(c, rs[..n]), rs[n], horizon);
      RequestsSnoc(KeysOf(rs[..n]), rs[n].key, c.maxKeys);
    }
  }

  /**
   Least recently used over whole runs: with the second level off and nothing expiring, after any
   sequence of `wrap` calls that produce values, the keys in memory are the most recently requested
   distinct keys, as many as fit, oldest first; and the hits are the requests that found their key there.
   */
  lemma LruOverRuns(c: Config, rs: seq<Request>, horizon: int)
    requires c.enabled && Lasting(rs, horizon)
    ensures RunWraps(c, rs).l1.keys == LastKeys(Recency(KeysOf(rs)), Capacity(c.maxKeys))
    ensures RunWraps(c, rs).stats.hits == HitCount(KeysOf(rs), c.maxKeys)
  {
    RunOnKeys(c, rs, horizon);
    KeysAreMostRecent(KeysOf(rs), c.maxKeys);
  }

  lemma {:induction false} LargerKeepsMore(requests: seq<string>, small: nat, large: nat)
    requires small <= large
    ensures forall k :: k in KeysAfter(requests, small) ==> k in KeysAfter(requests, large)
    ensures HitCount(requests, small) <= HitCount(requests, large)
  {
    KeysAreMostRecent(requests, small);
    KeysAreMostRecent(requests, large);
    if requests != [] {
      LargerKeepsMore(requests[..|requests| - 1], small, large);
    }
  }

  /**
   Of two caches that see the same `wrap` calls, the second level being off and nothing expiring, the
   larger one holds all keys that the smaller one holds, and has at least as many hits.
   */
  lemma LargerIsBetter(c: Config, large: nat, rs: seq<Request>, horizon: int)
    requires c.enabled && c.maxKeys <= large && Lasting(rs, horizon)
    ensures
      var s, t := RunWraps(c, rs), RunWraps(c.(maxKeys := large), rs);
      (forall k :: k in s.l1.data ==> k in t.l1.data) && s.stats.hits <= t.stats.hits
  {
    RunOnKeys(c, rs, horizon);
    RunOnKeys(c.(maxKeys := large), rs, horizon);
    LargerKeepsMore(KeysOf(rs), c.maxKeys, large);
    hide RunWraps, KeysAfter, HitCount, Lasting;
  }

  /**
   The eviction order is not least recently used for `set`: after storing a key while nothing expires,
   the keys are those that "most recently used" means if and only if the key was absent, or it was the
   newest of a map that is not full, or the oldest of a full one.
   */
  lemma {:induction false} SetIsLruIff(m: Store, maxKeys: nat, key: string, e: Entry, now: int, horizon: int)
    requires m.Valid() && AllLive(m, horizon) && now <= horizon < e.expiresAt && |m.keys| <= Capacity(maxKeys)
    ensures
      Insert(m, maxKeys, key, e, now).keys == LastKeys(Without(m.keys, key) + [key], Capacity(maxKeys))
      <==> (|| key !in m.keys
            || (|m.keys| < Capacity(maxKeys) && key == m.keys[|m.keys| - 1])
            || (|m.keys| == Capacity(maxKeys) && key == m.keys[0]))
  {
    hide Insert, Without, LastKeys;
    InsertWhenLive(m, maxKeys, key, e, now, horizon);
    if |m.keys| == Capacity(maxKeys) {
      FullIsLruIff(m.keys, key, Room(maxKeys));
    } else {
      RoomyIsLruIff(m.keys, key, Room(maxKeys));
    }
  }

  lemma {:induction false} FullIsLruIff(ks: seq<string>, key: string, n: nat)
    requires Distinct(ks) && |ks| == n + 1
    ensures StoredKeys(ks, key, n) == LastKeys(Without(ks, key) + [key], n + 1) <==> key !in ks || key == ks[0]
  {
    WithoutExact(ks, key);
    LastSnoc(Without(ks, key), key, n);
    if key !in ks {
      WithoutAbsent(ks, key);
    } else if key == ks[0] {
      assert key !in ks[1..];
    } else {
      assert key in ks[1..];
    }
  }

  lemma {:induction false} RoomyIsLruIff(ks: seq<string>, key: string, n: nat)
    requires Distinct(ks) && |ks| <= n
    ensures StoredKeys(ks, key, n) == LastKeys(Without(ks, key) + [key], n + 1)
       <==> key !in ks || key == ks[|ks| - 1]
  {
    WithoutExact(ks, key);
    LastSnoc(Without(ks, key), key, n);
    if key !in ks {
      WithoutAbsent(ks, key);
    } else {
      var i :| 0 <= i < |ks| && ks[i] == key;
      WithoutHead(ks, key, i);
      var w := Without(ks, key);
      assert LastKeys(ks, n) == ks && LastKeys(w, n) == w;
      hide Without, LastKeys;
      assert (w + [key])[|ks| - 1] == key;
      if i == |ks| - 1 {
        assert w == ks[..i] && ks == ks[..i] + [key];
      }
    }
  }

  lemma {:induction false} WithoutHead(r: seq<string>, key: string, i: nat)
    requires Distinct(r) && i < |r| && r[i] == key
    ensures |Without(r, key)| == |r| - 1 && Without(r, key)[..i] == r[..i]
  {
    if i > 0 {
      assert r[0] != key && r[1..][i - 1] == key;
      WithoutHead(r[1..], key, i - 1);
      assert r[..i] == [r[0]] + r[1..][..i - 1];
    }
  }

  function Stored(key: string): Op {
    Set(key, Data("v"), Some(1000), 0)
  }

  /** A run that shows it: with room for more, the key stored last is the first to go. */
  lemma StoredAgainStaysOld(c: Config)
    requires c.enabled && c.maxKeys >= 3
    ensures
      var s := Execute(c, Execute(c, START, Stored("a")).0, Stored("b")).0;
      && Execute(c, START, Stored("a")).0.l1.Valid() && s.l1.Valid()
      && Execute(c, s, Stored("a")).0.l1.keys == ["a", "b"] && Recency(["a", "b", "a"]) == ["b", "a"]
  {
    var e := Entry(Data("v"), 1000);
    var s1 := Execute(c, START, Stored("a")).0;
    hide Insert, Recency, LastKeys;
    InsertWhenLive(EMPTY, c.maxKeys, "a", e, 0, 0);
    var s2 := Execute(c, s1, Stored("b")).0;
    InsertWhenLive(s1.l1, c.maxKeys, "b", e, 0, 0);
    InsertWhenLive(s2.l1, c.maxKeys, "a", e, 0, 0);
    StoreThree(c.maxKeys);
    RecencyOfThree();
  }

  lemma StoreThree(maxKeys: nat)
    requires maxKeys >= 3
    ensures
      var n := Room(maxKeys);
      && StoredKeys([], "a", n) == ["a"] && StoredKeys(["a"], "b", n) == ["a", "b"]
      && StoredKeys(["a", "b"], "a", n) == ["a", "b"]
  {
  }

  lemma RecencyOfThree()
    ensures Recency(["a", "b", "a"]) == ["b", "a"]
  {
    var r := ["a", "b", "a"];
    assert r[..2] == ["a", "b"] && r[..2][..1] == ["a"] && ["a"][..0] == [];
    assert Recency([]) == [] && Without([], "a") == [];
    assert Recency(["a"]) == ["a"];
    assert ["a"][1..] == [] && Without(["a"], "b") == ["a"];
    assert Recency(["a", "b"]) == ["a", "b"];
    assert ["a", "b"][1..] == ["b"] && Without(["a", "b"], "a") == ["b"];
  }
}
