/** Cache keys from method arguments (src/cache/cache-key.ts, src/cache/cache.decorators.ts). */
module CacheKey {
  import opened Common
  import opened Json

  datatype Property = Property(key: Text, value: Arg)

  // The values an argument can be made of. A date is given by its ISO text, which determines it.
  datatype Arg =
    | ANull
    | AUndefined
    | ABool(b: bool)
    | ANumber(n: Number)
    | ANotFinite(kind: NotFinite)
    | AString(s: Text)
    | ADate(iso: Text)
    | AArray(items: seq<Arg>)
    | AObject(properties: seq<Property>)

  datatype NotFinite = NaN | PlusInfinity | MinusInfinity

  const TYPE: Text := [0x5F, 0x5F, 0x74, 0x79, 0x70, 0x65] // __type
  const VALUE: Text := [0x76, 0x61, 0x6C, 0x75, 0x65] // value
  const DATE: Text := [0x44, 0x61, 0x74, 0x65] // Date
  const BOOLEAN: Text := [0x62, 0x6F, 0x6F, 0x6C, 0x65, 0x61, 0x6E] // boolean
  const NUMBER: Text := [0x6E, 0x75, 0x6D, 0x62, 0x65, 0x72] // number
  const STRING: Text := [0x73, 0x74, 0x72, 0x69, 0x6E, 0x67] // string
  const CACHE: Text := [0x63, 0x61, 0x63, 0x68, 0x65] // cache

  /* ---------- The order of object keys ---------- */

  // The order of `Array.prototype.sort` on strings: by code units.
  predicate Less(a: Text, b: Text) {
    if b == [] then false
    else if a == [] then true
    else a[0] < b[0] || (a[0] == b[0] && Less(a[1..], b[1..]))
  }

  function InsertMember(ms: seq<Member>, m: Member): seq<Member> {
    if ms == [] then [m]
    else if Less(m.key, ms[0].key) then [m] + ms
    else [ms[0]] + InsertMember(ms[1..], m)
  }

  function SortMembers(ms: seq<Member>): seq<Member> {
    if ms == [] then [] else InsertMember(SortMembers(ms[1..]), ms[0])
  }

  // An array index: a decimal without leading zeros, below 2^32 - 1. The engine lists these keys
  // first, by value, which for such texts is by length and then by code units.
  predicate IsIndex(k: Text) {
    && 0 < |k| <= 10 && (forall i :: 0 <= i < |k| ==> IsDigit(k[i]))
    && (k[0] == 0x30 ==> |k| == 1)
    && (|k| == 10 ==> Less(k, [0x34, 0x32, 0x39, 0x34, 0x39, 0x36, 0x37, 0x32, 0x39, 0x35]))
  }

  predicate IndexLess(a: Text, b: Text) {
    |a| < |b| || (|a| == |b| && Less(a, b))
  }

  function InsertIndex(ms: seq<Member>, m: Member): seq<Member> {
    if ms == [] then [m]
    else if IndexLess(m.key, ms[0].key) then [m] + ms
    else [ms[0]] + InsertIndex(ms[1..], m)
  }

  // The order in which the engine lists the properties of an object filled in the order given.
  function EngineOrder(ms: seq<Member>): seq<Member> {
    IndexMembers(ms) + NamedMembers(ms)
  }

  function IndexMembers(ms: seq<Member>): seq<Member> {
    if ms == [] then [] else
    var rest := IndexMembers(ms[1..]);
    if IsIndex(ms[0].key) then InsertIndex(rest, ms[0]) else rest
  }

  function NamedMembers(ms: seq<Member>): seq<Member> {
    if ms == [] then []
    else if IsIndex(ms[0].key) then NamedMembers(ms[1..])
    else [ms[0]] + NamedMembers(ms[1..])
  }

  /* ---------- Normalising and printing ---------- */

  function Tagged(name: Text, v: Value): Value {
    Obj([Member(TYPE, Str(name)), Member(VALUE, v)])
  }

  // The normalised value as JSON sees it; `undefined` has no JSON form.
  function Normal(a: Arg): Option<Value>
    decreases a, 1
  {
    match a
    case ANull => Some(Null)
    case AUndefined => None
    case ABool(b) => Some(Tagged(BOOLEAN, Bool(b)))
    case ANumber(n) => Some(Tagged(NUMBER, Num(n)))
    case ANotFinite(_) => Some(Tagged(NUMBER, Null))
    case AString(s) => Some(Tagged(STRING, Str(s)))
    case ADate(iso) => Some(Tagged(DATE, Str(iso)))
    case AArray(items) => Some(Arr(NormalItems(items)))
    case AObject(properties) => Some(Obj(EngineOrder(SortMembers(NormalMembers(properties)))))
  }

  // In an array, `undefined` prints as null.
  function NormalItems(items: seq<Arg>): (vs: seq<Value>)
    ensures |vs| == |items|
    decreases items, 0
  {
    if items == [] then [] else
    var v := Normal(items[0]);
    [if v.Some? then v.value else Null] + NormalItems(items[1..])
  }

  // In an object, a property that is `undefined` is not printed.
  function NormalMembers(properties: seq<Property>): seq<Member>
    decreases properties, 0
  {
    if properties == [] then [] else
    var v := Normal(properties[0].value);
    var rest := NormalMembers(properties[1..]);
    if v.Some? then [Member(properties[0].key, v.value)] + rest else rest
  }

  // Numbers in their one representation.
  predicate ValidArg(a: Arg) {
    match a
    case ANumber(n) => n.Valid()
    case AArray(items) => forall i :: 0 <= i < |items| ==> ValidArg(items[i])
    case AObject(properties) => forall i :: 0 <= i < |properties| ==> ValidArg(properties[i].value)
    case _ => true
  }

  lemma NormalValid(a: Arg)
    requires ValidArg(a)
    ensures Normal(a).Some? ==> Normal(a).value.Valid()
    decreases a, 1
  {
    match a
    case AArray(items) => NormalItemsValid(items);
    case AObject(properties) =>
      NormalMembersValid(properties);
      var ms := NormalMembers(properties);
      CanonicalKeeps(ms);
      assert forall i :: 0 <= i < |Canonical(ms)| ==> Canonical(ms)[i] in ms;
    case _ =>
  }

  lemma {:induction false} NormalItemsValid(items: seq<Arg>)
    requires forall i :: 0 <= i < |items| ==> ValidArg(items[i])
    ensures forall i :: 0 <= i < |items| ==> NormalItems(items)[i].Valid()
    decreases items, 0
  {
    if items != [] {
      NormalValid(items[0]);
      NormalItemsValid(items[1..]);
    }
  }

  lemma {:induction false} NormalMembersValid(properties: seq<Property>)
    requires forall i :: 0 <= i < |properties| ==> ValidArg(properties[i].value)
    ensures forall m :: m in NormalMembers(properties) ==> m.value.Valid()
    decreases properties, 0
  {
    if properties != [] {
      NormalValid(properties[0].value);
      NormalMembersValid(properties[1..]);
    }
  }

  function SerializeArg(a: Arg): Text
    requires ValidArg(a)
  {
    NormalValid(a);
    match Normal(a)
    case None => []
    case Some(v) => Print(v)
  }

  ghost predicate ValidArgs(args: seq<Arg>) {
    forall i :: 0 <= i < |args| ==> ValidArg(args[i])
  }

  // `args.map(serializeArg).join(':')`
  function JoinArgs(args: seq<Arg>): Text
    requires ValidArgs(args)
  {
    if args == [] then []
    else if |args| == 1 then SerializeArg(args[0])
    else SerializeArg(args[0]) + [COLON] + JoinArgs(args[1..])
  }

  function Key(className: Text, methodName: Text, args: seq<Arg>): Text
    requires ValidArgs(args)
  {
    var serialized := JoinArgs(args);
    CACHE + [COLON] + className + [COLON] + methodName + if serialized == [] then [] else [COLON] + serialized
  }

  /* ---------- Sorting is canonical ---------- */

  lemma LessIrreflexive(a: Text)
    ensures !Less(a, a)
  {
  }

  lemma LessTransitive(a: Text, b: Text, c: Text)
    requires Less(a, b) && Less(b, c)
    ensures Less(a, c)
  {
  }

  lemma LessTotal(a: Text, b: Text)
    ensures Less(a, b) || Less(b, a) || a == b
  {
    if a != [] && b != [] && a[0] == b[0] {
      LessTotal(a[1..], b[1..]);
      assert a == [a[0]] + a[1..] && b == [b[0]] + b[1..];
    }
  }

  ghost predicate DistinctKeys(ms: seq<Member>) {
    forall i, j :: 0 <= i < j < |ms| ==> ms[i].key != ms[j].key
  }

  ghost predicate Sorted(ms: seq<Member>) {
    forall i, j :: 0 <= i < j < |ms| ==> Less(ms[i].key, ms[j].key)
  }

  lemma InsertMemberExact(ms: seq<Member>, m: Member)
    ensures forall x :: x in InsertMember(ms, m) <==> x in ms || x == m
  {
  }

  lemma InsertSorted(ms: seq<Member>, m: Member)
    requires Sorted(ms) && forall x :: x in ms ==> x.key != m.key
    ensures Sorted(InsertMember(ms, m))
  {
    if ms != [] {
      assert ms[0] in ms;
      LessTotal(ms[0].key, m.key);
      if Less(m.key, ms[0].key) {
        forall i | 0 < i < |ms|
          ensures Less(m.key, ms[i].key)
        {
          LessTransitive(m.key, ms[0].key, ms[i].key);
        }
      } else {
        var rest := ms[1..];
        assert forall x :: x in rest ==> x in ms;
        InsertSorted(rest, m);
        InsertMemberExact(rest, m);
        var tail := InsertMember(rest, m);
        forall i | 0 <= i < |tail|
          ensures Less(ms[0].key, tail[i].key)
        {
          assert tail[i] in tail;
          if tail[i] != m {
            var j :| 0 <= j < |rest| && rest[j] == tail[i];
            assert ms[j + 1] == tail[i];
          }
        }
      }
    }
  }

  lemma SortMembersExact(ms: seq<Member>)
    ensures forall x :: x in SortMembers(ms) <==> x in ms
    ensures DistinctKeys(ms) ==> Sorted(SortMembers(ms))
  {
    if ms != [] {
      SortMembersExact(ms[1..]);
      InsertMemberExact(SortMembers(ms[1..]), ms[0]);
      assert forall x :: x in ms <==> x == ms[0] || x in ms[1..];
      if DistinctKeys(ms) {
        assert DistinctKeys(ms[1..]);
        forall x | x in SortMembers(ms[1..])
          ensures x.key != ms[0].key
        {
          var j :| 0 <= j < |ms[1..]| && ms[1..][j] == x;
          assert ms[j + 1] == x;
        }
        InsertSorted(SortMembers(ms[1..]), ms[0]);
      }
    }
  }

  ghost predicate SameMembers(a: seq<Member>, b: seq<Member>) {
    forall x :: x in a <==> x in b
  }

  lemma {:induction false} SortedHead(a: seq<Member>, b: seq<Member>)
    requires Sorted(a) && Sorted(b) && SameMembers(a, b) && a != [] && b != []
    ensures a[0] == b[0] && SameMembers(a[1..], b[1..])
  {
    assert a[0] in b && b[0] in a;
    var i :| 0 <= i < |b| && b[i] == a[0];
    var j :| 0 <= j < |a| && a[j] == b[0];
    if i > 0 && j > 0 {
      LessTransitive(a[0].key, b[0].key, a[0].key);
      LessIrreflexive(a[0].key);
    }
    forall x
      ensures x in a[1..] <==> x in b[1..]
    {
      TailMember(a, x);
      TailMember(b, x);
    }
  }

  lemma {:induction false} TailMember(a: seq<Member>, x: Member)
    requires Sorted(a) && a != []
    ensures x in a[1..] <==> x in a && x != a[0]
  {
    if x in a[1..] {
      var k :| 0 <= k < |a[1..]| && a[1..][k] == x;
      assert a[k + 1] == x;
      LessIrreflexive(x.key);
    }
    assert x in a ==> x == a[0] || x in a[1..];
  }

  /** A sorted list of members is determined by what is in it. */
  lemma {:induction false} SortedUnique(a: seq<Member>, b: seq<Member>)
    requires Sorted(a) && Sorted(b) && SameMembers(a, b)
    ensures a == b
    decreases |a|
  {
    assert a != [] ==> a[0] in a;
    assert b != [] ==> b[0] in b;
    if a != [] {
      SortedHead(a, b);
      SortedUnique(a[1..], b[1..]);
      assert a == [a[0]] + a[1..] && b == [b[0]] + b[1..];
    }
  }

  lemma InsertIndexExact(ms: seq<Member>, m: Member)
    ensures forall x :: x in InsertIndex(ms, m) <==> x in ms || x == m
  {
  }

  lemma IndexMembersExact(ms: seq<Member>)
    ensures forall x :: x in IndexMembers(ms) <==> x in ms && IsIndex(x.key)
  {
    if ms != [] {
      IndexMembersExact(ms[1..]);
      InsertIndexExact(IndexMembers(ms[1..]), ms[0]);
      assert forall x :: x in ms <==> x == ms[0] || x in ms[1..];
    }
  }

  lemma NamedMembersExact(ms: seq<Member>)
    ensures forall x :: x in NamedMembers(ms) <==> x in ms && !IsIndex(x.key)
  {
    if ms != [] {
      NamedMembersExact(ms[1..]);
      assert forall x :: x in ms <==> x == ms[0] || x in ms[1..];
    }
  }

  // The order in which an object prints.
  function Canonical(ms: seq<Member>): seq<Member> {
    EngineOrder(SortMembers(ms))
  }

  /** The printed order forgets the order in which the keys were given, and nothing else. */
  lemma CanonicalExact(a: seq<Member>, b: seq<Member>)
    requires DistinctKeys(a) && DistinctKeys(b)
    ensures Canonical(a) == Canonical(b) <==> SameMembers(a, b)
    ensures SameMembers(Canonical(a), a)
  {
    CanonicalKeeps(a);
    CanonicalKeeps(b);
    SortMembersExact(a);
    SortMembersExact(b);
    if SameMembers(a, b) {
      SortedUnique(SortMembers(a), SortMembers(b));
    } else if Canonical(a) == Canonical(b) {
      assert SameMembers(a, b);
    }
  }

  lemma CanonicalKeeps(a: seq<Member>)
    ensures SameMembers(Canonical(a), a)
  {
    SortMembersExact(a);
    IndexMembersExact(SortMembers(a));
    NamedMembersExact(SortMembers(a));
  }

  /* ---------- Keys are faithful ---------- */

  // Object keys are distinct and numbers are in their one representation.
  ghost predicate Proper(a: Arg) {
    match a
    case ANumber(n) => n.Valid()
    case AArray(items) => forall i :: 0 <= i < |items| ==> Proper(items[i])
    case AObject(properties) =>
      DistinctProperties(properties) &&
      forall i :: 0 <= i < |properties| ==> Proper(properties[i].value)
    case _ => true
  }

  ghost predicate DistinctProperties(ps: seq<Property>) {
    forall i, j :: 0 <= i < j < |ps| ==> ps[i].key != ps[j].key
  }

  // What printing erases: `undefined` becomes null in arrays, properties that are `undefined` go, and
  // the numbers that are not finite become one.
  function Erased(a: Arg): Arg
    decreases a, 1
  {
    match a
    case ANotFinite(_) => ANotFinite(NaN)
    case AArray(items) => AArray(ErasedItems(items))
    case AObject(properties) => AObject(ErasedProperties(properties))
    case _ => a
  }

  function ErasedItems(items: seq<Arg>): (r: seq<Arg>)
    ensures |r| == |items|
    decreases items, 0
  {
    if items == [] then []
    else [if items[0].AUndefined? then ANull else Erased(items[0])] + ErasedItems(items[1..])
  }

  function ErasedProperties(ps: seq<Property>): seq<Property>
    decreases ps, 0
  {
    if ps == [] then []
    else if ps[0].value.AUndefined? then ErasedProperties(ps[1..])
    else [Property(ps[0].key, Erased(ps[0].value))] + ErasedProperties(ps[1..])
  }

  // Nothing is left to erase.
  ghost predicate Clean(a: Arg) {
    match a
    case AUndefined => false
    case ANotFinite(kind) => kind == NaN
    case ANumber(n) => n.Valid()
    case AArray(items) => forall i :: 0 <= i < |items| ==> Clean(items[i])
    case AObject(properties) =>
      DistinctProperties(properties) &&
      forall i :: 0 <= i < |properties| ==> Clean(properties[i].value)
    case _ => true
  }

  // Equality up to the order of object keys.
  ghost predicate Same(a: Arg, b: Arg)
    decreases a
  {
    match a
    case AArray(items) =>
      && b.AArray? && |items| == |b.items|
      && forall i :: 0 <= i < |items| ==> Same(items[i], b.items[i])
    case AObject(properties) => b.AObject? && Covered(properties, b.properties) && CoveredBack(properties, b.properties)
    case _ => a == b
  }

  ghost predicate SameProperty(p: Property, q: Property)
    decreases p, 0
  {
    p.key == q.key && Same(p.value, q.value)
  }

  // Every property of the first object has its like in the second.
  ghost predicate Covered(ps: seq<Property>, qs: seq<Property>)
    decreases ps
  {
    forall i :: 0 <= i < |ps| ==> HasLike(ps[i], qs)
  }

  ghost predicate HasLike(p: Property, qs: seq<Property>)
    decreases p, 1
  {
    exists j :: 0 <= j < |qs| && SameProperty(p, qs[j])
  }

  ghost predicate CoveredBack(ps: seq<Property>, qs: seq<Property>)
    decreases ps, 1
  {
    forall j :: 0 <= j < |qs| ==> IsLike(ps, qs[j])
  }

  ghost predicate IsLike(ps: seq<Property>, q: Property)
    decreases ps, 0
  {
    exists i :: 0 <= i < |ps| && SameProperty(ps[i], q)
  }

  lemma CleanIsValid(a: Arg)
    requires Clean(a)
    ensures ValidArg(a)
  {
  }

  lemma CleanIsPrinted(a: Arg)
    requires Clean(a)
    ensures Normal(a).Some? && (Normal(a).value.Null? || Normal(a).value.Arr? || Normal(a).value.Obj?)
  {
  }

  lemma {:induction false} ItemsOf(items: seq<Arg>)
    requires forall i :: 0 <= i < |items| ==> Clean(items[i])
    ensures forall i :: 0 <= i < |items| ==> Some(NormalItems(items)[i]) == Normal(items[i])
  {
    if items != [] {
      CleanIsPrinted(items[0]);
      ItemsOf(items[1..]);
    }
  }

  lemma {:induction false} MembersOf(properties: seq<Property>)
    requires forall i :: 0 <= i < |properties| ==> Clean(properties[i].value)
    ensures |NormalMembers(properties)| == |properties|
    ensures forall i :: 0 <= i < |properties| ==>
      NormalMembers(properties)[i].key == properties[i].key &&
        Some(NormalMembers(properties)[i].value) == Normal(properties[i].value)
  {
    if properties != [] {
      CleanIsPrinted(properties[0].value);
      MembersOf(properties[1..]);
    }
  }

  // An object never normalises to a tagged scalar: its values are never bare strings.
  lemma ObjectIsNotTagged(properties: seq<Property>, name: Text, v: Value)
    requires Clean(AObject(properties))
    ensures Normal(AObject(properties)) != Some(Tagged(name, v))
  {
    MembersOf(properties);
    var ms := NormalMembers(properties);
    CanonicalKeeps(ms);
    if Canonical(ms) == Tagged(name, v).members {
      var m := Canonical(ms)[0];
      assert m in ms;
      var i :| 0 <= i < |ms| && ms[i] == m;
      CleanIsPrinted(properties[i].value);
    }
  }

  lemma {:induction false} ArraysFaithful(a: Arg, b: Arg)
    requires Clean(a) && Clean(b) && a.AArray? && b.AArray?
    ensures Normal(a) == Normal(b) <==> Same(a, b)
    decreases a, 0
  {
    ItemsOf(a.items);
    ItemsOf(b.items);
    if |a.items| == |b.items| {
      forall i | 0 <= i < |a.items|
        ensures NormalItems(a.items)[i] == NormalItems(b.items)[i] <==> Same(a.items[i], b.items[i])
      {
        NormalFaithful(a.items[i], b.items[i]);
      }
      if Same(a, b) {
        assert NormalItems(a.items) == NormalItems(b.items);
      }
    }
  }

  // Every member of the first list is in the second.
  ghost predicate Within(ms: seq<Member>, ns: seq<Member>) {
    forall i :: 0 <= i < |ms| ==> ms[i] in ns
  }

  lemma SameMembersIsWithin(ms: seq<Member>, ns: seq<Member>)
    ensures SameMembers(ms, ns) <==> Within(ms, ns) && Within(ns, ms)
  {
  }

  // Members are equal exactly where the properties are the same.
  ghost predicate Mirrors(ps: seq<Property>, qs: seq<Property>, ms: seq<Member>, ns: seq<Member>) {
    && |ms| == |ps| && |ns| == |qs|
    && forall i, j :: 0 <= i < |ms| && 0 <= j < |ns| ==> (ms[i] == ns[j] <==> SameProperty(ps[i], qs[j]))
  }

  lemma CoveredIsWithin(ps: seq<Property>, qs: seq<Property>, ms: seq<Member>, ns: seq<Member>)
    requires Mirrors(ps, qs, ms, ns)
    ensures Covered(ps, qs) <==> Within(ms, ns)
  {
    if Covered(ps, qs) {
      forall i | 0 <= i < |ms|
        ensures ms[i] in ns
      {
        var p := ps[i];
        assert HasLike(p, qs);
        var j :| 0 <= j < |qs| && SameProperty(p, qs[j]);
        assert ns[j] in ns;
      }
    }
    if Within(ms, ns) {
      forall i | 0 <= i < |ps|
        ensures HasLike(ps[i], qs)
      {
        assert ms[i] in ns;
        var j :| 0 <= j < |ns| && ns[j] == ms[i];
        assert SameProperty(ps[i], qs[j]);
      }
    }
  }

  lemma CoveredBackIsWithin(ps: seq<Property>, qs: seq<Property>, ms: seq<Member>, ns: seq<Member>)
    requires Mirrors(ps, qs, ms, ns)
    ensures CoveredBack(ps, qs) <==> Within(ns, ms)
  {
    if CoveredBack(ps, qs) {
      forall j | 0 <= j < |ns|
        ensures ns[j] in ms
      {
        var q := qs[j];
        assert IsLike(ps, q);
        var i :| 0 <= i < |ps| && SameProperty(ps[i], q);
        assert ms[i] in ms;
      }
    }
    if Within(ns, ms) {
      forall j | 0 <= j < |qs|
        ensures IsLike(ps, qs[j])
      {
        assert ns[j] in ms;
        var i :| 0 <= i < |ms| && ms[i] == ns[j];
        assert SameProperty(ps[i], qs[j]);
      }
    }
  }

  lemma {:induction false} ObjectsFaithful(a: Arg, b: Arg)
    requires Clean(a) && Clean(b) && a.AObject? && b.AObject?
    ensures Normal(a) == Normal(b) <==> Same(a, b)
    decreases a, 0
  {
    var ps, qs := a.properties, b.properties;
    MembersOf(ps);
    MembersOf(qs);
    var ms, ns := NormalMembers(ps), NormalMembers(qs);
    CanonicalExact(ms, ns);
    SameMembersIsWithin(ms, ns);
    forall i, j | 0 <= i < |ps| && 0 <= j < |qs|
      ensures ms[i] == ns[j] <==> SameProperty(ps[i], qs[j])
    {
      NormalFaithful(ps[i].value, qs[j].value);
    }
    CoveredIsWithin(ps, qs, ms, ns);
    CoveredBackIsWithin(ps, qs, ms, ns);
  }

  /** Two clean values normalise alike exactly when they are equal up to the order of object keys. */
  lemma {:induction false} NormalFaithful(a: Arg, b: Arg)
    requires Clean(a) && Clean(b)
    ensures Normal(a) == Normal(b) <==> Same(a, b)
    decreases a, 1
  {
    if a.AArray? && b.AArray? {
      ArraysFaithful(a, b);
    } else if a.AObject? && b.AObject? {
      ObjectsFaithful(a, b);
    } else if a.AObject? {
      ObjectIsApart(a.properties, b);
    } else if b.AObject? {
      ObjectIsApart(b.properties, a);
    } else {
      ScalarsFaithful(a, b);
    }
  }

  lemma ObjectIsApart(properties: seq<Property>, b: Arg)
    requires Clean(AObject(properties)) && Clean(b) && !b.AObject?
    ensures Normal(AObject(properties)) != Normal(b)
  {
    match b
    case ABool(x) => ObjectIsNotTagged(properties, BOOLEAN, Bool(x));
    case ANumber(n) => ObjectIsNotTagged(properties, NUMBER, Num(n));
    case ANotFinite(_) => ObjectIsNotTagged(properties, NUMBER, Null);
    case AString(s) => ObjectIsNotTagged(properties, STRING, Str(s));
    case ADate(iso) => ObjectIsNotTagged(properties, DATE, Str(iso));
    case _ =>
  }

  lemma ScalarsFaithful(a: Arg, b: Arg)
    requires Clean(a) && Clean(b) && !a.AObject? && !b.AObject? && !(a.AArray? && b.AArray?)
    ensures Normal(a) == Normal(b) <==> a == b
  {
    assert |BOOLEAN| == 7 && |NUMBER| == 6 && |STRING| == 6 && |DATE| == 4 && NUMBER[0] != STRING[0];
  }

  // What erasing leaves of a list of arguments: an argument itself may still be `undefined`.
  ghost predicate CleanArgs(args: seq<Arg>) {
    forall i :: 0 <= i < |args| ==> args[i].AUndefined? || Clean(args[i])
  }

  ghost predicate SameArgs(a: seq<Arg>, b: seq<Arg>) {
    |a| == |b| && forall i :: 0 <= i < |a| ==> Same(a[i], b[i])
  }

  lemma CleanArgsAreValid(args: seq<Arg>)
    requires CleanArgs(args)
    ensures ValidArgs(args)
  {
    forall i | 0 <= i < |args|
      ensures ValidArg(args[i])
    {
      if !args[i].AUndefined? {
        CleanIsValid(args[i]);
      }
    }
  }

  // The joined text is the first argument's text and what follows it.
  function RestOf(args: seq<Arg>): Text
    requires args != [] && ValidArgs(args)
  {
    if |args| == 1 then [] else [COLON] + JoinArgs(args[1..])
  }

  lemma {:induction false} JoinStarts(args: seq<Arg>) returns (v: Value)
    requires args != [] && Clean(args[0]) && ValidArgs(args)
    ensures Normal(args[0]) == Some(v) && v.Valid() && Stops(RestOf(args))
    ensures JoinArgs(args) == Print(v) + RestOf(args) && JoinArgs(args) != [] && JoinArgs(args)[0] != COLON
  {
    CleanIsPrinted(args[0]);
    NormalValid(args[0]);
    v := Normal(args[0]).value;
    PrintStarts(v);
    assert Print(v) + [] == Print(v);
  }

  // The argument lists without any text.
  predicate Vanishes(args: seq<Arg>) {
    args == [] || args == [AUndefined]
  }

  lemma UndefinedJoin(args: seq<Arg>)
    requires args != [] && args[0].AUndefined? && ValidArgs(args)
    ensures JoinArgs(args) == RestOf(args) && (JoinArgs(args) == [] <==> Vanishes(args))
    ensures JoinArgs(args) != [] ==> JoinArgs(args)[0] == COLON
  {
    assert [] + RestOf(args) == RestOf(args);
  }

  lemma {:induction false} JoinFaithful(a: seq<Arg>, b: seq<Arg>)
    requires CleanArgs(a) && CleanArgs(b) && ValidArgs(a) && ValidArgs(b)
    ensures JoinArgs(a) == JoinArgs(b) <==> SameArgs(a, b) || (Vanishes(a) && Vanishes(b))
    decreases |a|
  {
    if a != [] && b != [] {
      JoinFaithful(a[1..], b[1..]);
      RestFaithful(a, b);
      if a[0].AUndefined? && b[0].AUndefined? {
        UndefinedJoin(a);
        UndefinedJoin(b);
      } else if a[0].AUndefined? {
        UndefinedJoin(a);
        var w := JoinStarts(b);
      } else if b[0].AUndefined? {
        UndefinedJoin(b);
        var v := JoinStarts(a);
      } else {
        CleanHeads(a, b);
      }
    } else if a != [] {
      EmptyJoin(a);
    } else if b != [] {
      EmptyJoin(b);
    }
  }

  lemma {:induction false} EmptyJoin(args: seq<Arg>)
    requires args != [] && CleanArgs(args) && ValidArgs(args)
    ensures JoinArgs(args) == [] <==> Vanishes(args)
  {
    if args[0].AUndefined? {
      UndefinedJoin(args);
    } else {
      var v := JoinStarts(args);
    }
  }

  lemma {:induction false} CleanHeads(a: seq<Arg>, b: seq<Arg>)
    requires a != [] && b != [] && ValidArgs(a) && ValidArgs(b) && Clean(a[0]) && Clean(b[0])
    requires RestOf(a) == RestOf(b) <==> |a| == |b| && SameArgs(a[1..], b[1..])
    ensures JoinArgs(a) == JoinArgs(b) <==> SameArgs(a, b)
  {
    var v := JoinStarts(a);
    var w := JoinStarts(b);
    NormalFaithful(a[0], b[0]);
    SameArgsCons(a, b);
    if JoinArgs(a) == JoinArgs(b) {
      PrintIsPrefixFree(v, RestOf(a), w, RestOf(b));
    }
  }

  lemma SameArgsCons(a: seq<Arg>, b: seq<Arg>)
    requires a != [] && b != []
    ensures SameArgs(a, b) <==> Same(a[0], b[0]) && SameArgs(a[1..], b[1..])
  {
    if Same(a[0], b[0]) && SameArgs(a[1..], b[1..]) {
      forall i | 0 <= i < |a|
        ensures Same(a[i], b[i])
      {
        if i > 0 {
          assert Same(a[1..][i - 1], b[1..][i - 1]);
        }
      }
    }
    if SameArgs(a, b) {
      forall i | 0 <= i < |a[1..]|
        ensures Same(a[1..][i], b[1..][i])
      {
        assert Same(a[i + 1], b[i + 1]);
      }
    }
  }

  // Of two lists that are not empty, the rests are printed alike exactly when they are the same.
  lemma {:induction false} RestFaithful(a: seq<Arg>, b: seq<Arg>)
    requires a != [] && b != [] && ValidArgs(a) && ValidArgs(b)
    requires JoinArgs(a[1..]) == JoinArgs(b[1..]) <==>
      SameArgs(a[1..], b[1..]) || (Vanishes(a[1..]) && Vanishes(b[1..]))
    ensures RestOf(a) == RestOf(b) <==> |a| == |b| && SameArgs(a[1..], b[1..])
    ensures SameArgs(a, b) <==> Same(a[0], b[0]) && |a| == |b| && SameArgs(a[1..], b[1..])
  {
    SameArgsCons(a, b);
    hide JoinArgs;
    DropColon(JoinArgs(a[1..]), JoinArgs(b[1..]));
  }

  predicate ColonFree(t: Text) {
    COLON !in t
  }

  lemma {:induction false} SplitAtColon(a: Text, r: Text, b: Text, q: Text)
    requires ColonFree(a) && ColonFree(b) && a + r == b + q
    requires (r == [] || r[0] == COLON) && (q == [] || q[0] == COLON)
    ensures a == b && r == q
  {
    assert a != [] ==> (a + r)[0] == a[0] && a[0] in a;
    assert b != [] ==> (b + q)[0] == b[0] && b[0] in b;
    if a != [] && b != [] {
      assert (a + r)[1..] == a[1..] + r && (b + q)[1..] == b[1..] + q;
      SplitAtColon(a[1..], r, b[1..], q);
    } else {
      assert a == [] ==> a + r == r;
      assert b == [] ==> b + q == q;
    }
  }

  // What follows the method name in a key.
  function Suffix(args: seq<Arg>): Text
    requires ValidArgs(args)
  {
    if JoinArgs(args) == [] then [] else [COLON] + JoinArgs(args)
  }

  /* ---------- What printing erases ---------- */

  lemma {:induction false} ErasedNormal(a: Arg)
    ensures Normal(Erased(a)) == Normal(a)
    decreases a, 1
  {
    match a
    case AArray(items) => ErasedItemsNormal(items);
    case AObject(properties) => ErasedPropertiesNormal(properties);
    case _ =>
  }

  lemma {:induction false} ErasedItemsNormal(items: seq<Arg>)
    ensures NormalItems(ErasedItems(items)) == NormalItems(items)
    decreases items, 0
  {
    if items != [] {
      ErasedNormal(items[0]);
      ErasedItemsNormal(items[1..]);
    }
  }

  lemma {:induction false} ErasedPropertiesNormal(ps: seq<Property>)
    ensures NormalMembers(ErasedProperties(ps)) == NormalMembers(ps)
    decreases ps, 0
  {
    if ps != [] {
      ErasedNormal(ps[0].value);
      ErasedPropertiesNormal(ps[1..]);
    }
  }

  lemma {:induction false} ErasedIsClean(a: Arg)
    requires Proper(a) && !a.AUndefined?
    ensures Clean(Erased(a))
    decreases a, 1
  {
    match a
    case AArray(items) => ErasedItemsClean(items);
    case AObject(properties) => ErasedPropertiesClean(properties);
    case _ =>
  }

  lemma {:induction false} ErasedItemsClean(items: seq<Arg>)
    requires forall i :: 0 <= i < |items| ==> Proper(items[i])
    ensures forall i :: 0 <= i < |items| ==> Clean(ErasedItems(items)[i])
    decreases items, 0
  {
    if items != [] {
      if !items[0].AUndefined? {
        ErasedIsClean(items[0]);
      }
      ErasedItemsClean(items[1..]);
    }
  }

  lemma {:induction false} ErasedPropertiesClean(ps: seq<Property>)
    requires DistinctProperties(ps) && forall i :: 0 <= i < |ps| ==> Proper(ps[i].value)
    ensures DistinctProperties(ErasedProperties(ps))
    ensures forall q :: q in ErasedProperties(ps) ==> Clean(q.value) && exists p :: p in ps && p.key == q.key
    decreases ps, 0
  {
    if ps != [] {
      var rest := ps[1..];
      assert forall i :: 0 <= i < |rest| ==> rest[i] == ps[i + 1];
      ErasedPropertiesClean(rest);
      assert forall p :: p in rest ==> p in ps && p.key != ps[0].key;
      if !ps[0].value.AUndefined? {
        ErasedIsClean(ps[0].value);
        assert ps[0] in ps;
      }
    }
  }

  // An argument that is `undefined` itself stays so.
  function ErasedArgs(args: seq<Arg>): (r: seq<Arg>)
    ensures |r| == |args| && forall i :: 0 <= i < |r| ==> r[i] == Erased(args[i])
  {
    seq(|args|, i requires 0 <= i < |args| => Erased(args[i]))
  }

  ghost predicate ProperArgs(args: seq<Arg>) {
    forall i :: 0 <= i < |args| ==> Proper(args[i])
  }

  lemma ProperIsValid(a: Arg)
    requires Proper(a)
    ensures ValidArg(a)
  {
  }

  lemma ProperArgsAreValid(args: seq<Arg>)
    requires ProperArgs(args)
    ensures ValidArgs(args)
  {
    forall i | 0 <= i < |args|
      ensures ValidArg(args[i])
    {
      ProperIsValid(args[i]);
    }
  }

  lemma {:induction false} ErasedArgsClean(args: seq<Arg>)
    requires ProperArgs(args)
    ensures CleanArgs(ErasedArgs(args))
  {
    forall i | 0 <= i < |args| && !args[i].AUndefined?
      ensures Clean(Erased(args[i]))
    {
      ErasedIsClean(args[i]);
    }
  }

  lemma {:induction false} ErasedJoin(args: seq<Arg>)
    requires ValidArgs(args) && ValidArgs(ErasedArgs(args))
    ensures JoinArgs(ErasedArgs(args)) == JoinArgs(args)
  {
    if args != [] {
      ErasedNormal(args[0]);
      assert ErasedArgs(args)[1..] == ErasedArgs(args[1..]);
      ErasedJoin(args[1..]);
    }
  }

  /**
   Cache keys are exact: over all values that JSON can print, two calls get the same key if and only if
   they call the same method of the same class with arguments that are equal up to the order of object
   keys and what printing erases, or both pass nothing or a single `undefined`.
   */
  lemma {:induction false} KeyExact(c: Text, m: Text, a: seq<Arg>, d: Text, n: Text, b: seq<Arg>)
    requires ColonFree(c) && ColonFree(m) && ColonFree(d) && ColonFree(n)
    requires ProperArgs(a) && ProperArgs(b)
    ensures ValidArgs(a) && ValidArgs(b)
    ensures Key(c, m, a) == Key(d, n, b) <==>
      c == d && m == n && (SameArgs(ErasedArgs(a), ErasedArgs(b)) || (Vanishes(a) && Vanishes(b)))
  {
    hide Key, Suffix, JoinArgs;
    ProperArgsAreValid(a);
    ProperArgsAreValid(b);
    SuffixExact(a, b);
    KeyParts(c, m, a);
    KeyParts(d, n, b);
    SuffixStarts(a);
    SuffixStarts(b);
    if Key(c, m, a) == Key(d, n, b) {
      SplitAtColon(c, [COLON] + (m + Suffix(a)), d, [COLON] + (n + Suffix(b)));
      DropColon(m + Suffix(a), n + Suffix(b));
      SplitAtColon(m, Suffix(a), n, Suffix(b));
    }
  }

  lemma SuffixStarts(args: seq<Arg>)
    requires ValidArgs(args)
    ensures Suffix(args) == [] || Suffix(args)[0] == COLON
  {
  }

  lemma {:induction false} SuffixExact(a: seq<Arg>, b: seq<Arg>)
    requires ProperArgs(a) && ProperArgs(b) && ValidArgs(a) && ValidArgs(b)
    ensures Suffix(a) == Suffix(b) <==>
      SameArgs(ErasedArgs(a), ErasedArgs(b)) || (Vanishes(a) && Vanishes(b))
  {
    hide JoinArgs;
    ErasedArgsClean(a);
    ErasedArgsClean(b);
    CleanArgsAreValid(ErasedArgs(a));
    CleanArgsAreValid(ErasedArgs(b));
    ErasedJoin(a);
    ErasedJoin(b);
    JoinFaithful(ErasedArgs(a), ErasedArgs(b));
    SuffixFaithful(a, b);
    VanishesErased(a);
    VanishesErased(b);
  }

  lemma VanishesErased(args: seq<Arg>)
    ensures Vanishes(ErasedArgs(args)) <==> Vanishes(args)
  {
    if |args| == 1 {
      assert ErasedArgs(args)[0] == Erased(args[0]);
    }
  }

  // Nothing that printing erases: no `undefined` and no number that is not finite.
  ghost predicate Plain(a: Arg) {
    match a
    case AUndefined => false
    case ANotFinite(_) => false
    case ANumber(n) => n.Valid()
    case AArray(items) => forall i :: 0 <= i < |items| ==> Plain(items[i])
    case AObject(properties) =>
      DistinctProperties(properties) && forall i :: 0 <= i < |properties| ==> Plain(properties[i].value)
    case _ => true
  }

  ghost predicate PlainArgs(args: seq<Arg>) {
    forall i :: 0 <= i < |args| ==> Plain(args[i])
  }

  lemma {:induction false} PlainIsKept(a: Arg)
    requires Plain(a)
    ensures Proper(a) && Erased(a) == a
    decreases a, 1
  {
    match a
    case AArray(items) => PlainItemsKept(items);
    case AObject(properties) => PlainPropertiesKept(properties);
    case _ =>
  }

  lemma {:induction false} PlainItemsKept(items: seq<Arg>)
    requires forall i :: 0 <= i < |items| ==> Plain(items[i])
    ensures ErasedItems(items) == items && forall i :: 0 <= i < |items| ==> Proper(items[i])
    decreases items, 0
  {
    if items != [] {
      PlainIsKept(items[0]);
      PlainItemsKept(items[1..]);
    }
  }

  lemma {:induction false} PlainPropertiesKept(ps: seq<Property>)
    requires forall i :: 0 <= i < |ps| ==> Plain(ps[i].value)
    ensures ErasedProperties(ps) == ps && forall i :: 0 <= i < |ps| ==> Proper(ps[i].value)
    decreases ps, 0
  {
    if ps != [] {
      PlainIsKept(ps[0].value);
      PlainPropertiesKept(ps[1..]);
    }
  }

  lemma PlainArgsAreProper(args: seq<Arg>)
    requires PlainArgs(args)
    ensures ProperArgs(args) && ErasedArgs(args) == args && (Vanishes(args) ==> args == [])
  {
    forall i | 0 <= i < |args|
      ensures Proper(args[i]) && Erased(args[i]) == args[i]
    {
      PlainIsKept(args[i]);
    }
    assert args != [] ==> Plain(args[0]);
  }

  /**
   Cache keys are faithful: over values built from null, booleans, finite numbers, strings, dates,
   arrays and objects, two calls get the same key if and only if they call the same method of the same
   class with arguments that are equal up to the order of object keys.
   */
  lemma KeyFaithful(c: Text, m: Text, a: seq<Arg>, d: Text, n: Text, b: seq<Arg>)
    requires ColonFree(c) && ColonFree(m) && ColonFree(d) && ColonFree(n)
    requires PlainArgs(a) && PlainArgs(b)
    ensures ValidArgs(a) && ValidArgs(b)
    ensures Key(c, m, a) == Key(d, n, b) <==> c == d && m == n && SameArgs(a, b)
  {
    PlainArgsAreProper(a);
    PlainArgsAreProper(b);
    KeyExact(c, m, a, d, n, b);
  }

  lemma DropColon(r: Text, q: Text)
    ensures [COLON] + r == [COLON] + q <==> r == q
  {
    if [COLON] + r == [COLON] + q {
      assert ([COLON] + r)[1..] == r && ([COLON] + q)[1..] == q;
    }
  }

  lemma SuffixFaithful(a: seq<Arg>, b: seq<Arg>)
    requires ValidArgs(a) && ValidArgs(b)
    ensures Suffix(a) == Suffix(b) <==> JoinArgs(a) == JoinArgs(b)
  {
    hide JoinArgs;
    DropColon(JoinArgs(a), JoinArgs(b));
  }

  // A key is the fixed start, the class name, and what follows its colon.
  lemma KeyParts(c: Text, m: Text, a: seq<Arg>)
    requires ValidArgs(a)
    ensures Key(c, m, a) == CACHE + [COLON] + (c + ([COLON] + (m + Suffix(a))))
    ensures Key(c, m, a)[6..] == c + ([COLON] + (m + Suffix(a)))
  {
    hide JoinArgs;
    assert |CACHE + [COLON]| == 6;
  }

  /** The prefix that `InvalidateCache` clears covers every key of the class, and of no other class. */
  lemma ClassPrefixExact(c: Text, d: Text, m: Text, args: seq<Arg>)
    requires ColonFree(c) && ColonFree(d) && ColonFree(m) && ValidArgs(args)
    ensures CACHE + [COLON] + d + [COLON] <= Key(c, m, args) <==> c == d
  {
    hide Key, Suffix;
    var x := [COLON] + (m + Suffix(args));
    var prefix := CACHE + [COLON] + d + [COLON];
    KeyParts(c, m, args);
    if c == d {
      assert Key(c, m, args) == prefix + (m + Suffix(args));
    }
    if prefix <= Key(c, m, args) {
      var rest := Key(c, m, args)[|prefix|..];
      assert Key(c, m, args) == prefix + rest;
      assert (prefix + rest)[6..] == d + ([COLON] + rest);
      SplitAtColon(c, x, d, [COLON] + rest);
    }
  }
}
