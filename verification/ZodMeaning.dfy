/**
 What every schema that the compiler makes accepts (src/validation/openapi/zod-to-openapi.ts), said without
 the schema: the meaning of the compiler, kind by kind, over all Zod schemas.
 */
module ZodMeaning {
  import opened Common
  import opened Json
  import opened ZodToOpenApi
  import opened ZodTheorems

  // The JSON type under which a literal or an enum is listed.
  predicate IsOfKind(v: Value, sample: Option<Value>) {
    match sample
    case Some(Str(_)) => v.Str?
    case Some(Num(_)) => v.Num?
    case Some(Bool(_)) => v.Bool?
    case Some(_) => v.Obj?
    case None => v.Str?
  }

  // A native enum is a list of numbers if its first value is one, and of strings otherwise.
  predicate IsOfEnum(v: Value, entries: seq<EnumEntry>) {
    if entries != [] && entries[0].value.Num? then v.Num? else v.Str?
  }

  // What the compiled schema accepts; `orNull` says that a `nullable` stands around it.
  ghost predicate Takes(w: World, z: Zod, v: Value, orNull: bool)
    decreases z, 1
  {
    match z
    case ZString(checks) =>
      || (orNull && v.Null?)
      || (v.Str? && forall i :: 0 <= i < |checks| && LastOfKind(checks, i) ==> KeywordTakes(w, checks[i], v.s))
    case ZNumber(checks) =>
      || (orNull && v.Null?)
      || (v.Num? &&
          forall i :: 0 <= i < |checks| && LastOfNumberKind(checks, i) ==> NumberKeywordTakes(checks[i], v.n))
    case ZBoolean => v.Bool? || (orNull && v.Null?)
    case ZDate => (v.Str? && w.schemaFormat(DateTimeFormat, v.s)) || (orNull && v.Null?)
    case ZEnum(names) => v.Str? && v.s in names
    case ZNativeEnum(entries) =>
      && (IsOfEnum(v, entries) || (orNull && v.Null?))
      && exists i :: 0 <= i < |entries| && entries[i].value == v
    case ZLiteral(x) => v == x && (IsOfKind(v, Some(x)) || (orNull && v.Null?))
    case ZArray(item, least, most, _) =>
      || (orNull && v.Null?)
      || (&& v.Arr? && (least.Some? ==> |v.items| >= least.value) && (most.Some? ==> |v.items| <= most.value)
          && forall i :: 0 <= i < |v.items| ==> Takes(w, item, v.items[i], false))
    case ZObject(shape, _) =>
      || (orNull && v.Null?)
      || (v.Obj? && forall i :: 0 <= i < |shape| ==> TakesProperty(w, z, i, v.members))
    case ZRecord(_, values) =>
      || (orNull && v.Null?)
      || (v.Obj? && forall k :: Property(v.members, k).Some? ==>
            Takes(w, values, Property(v.members, k).value, false))
    case ZUnion(options) => exists i :: 0 <= i < |options| && TakesAlone(w, z, i, v)
    case ZOptional(inner) => Takes(w, inner, v, orNull)
    case ZNullable(inner) => Takes(w, inner, v, true)
    case ZDefault(inner, _) => Takes(w, inner, v, orNull)
    case ZEffects(inner, _) => Takes(w, inner, v, orNull)
    case ZPreprocess(inner, _) => Takes(w, inner, v, orNull)
    case ZFallback(_) => v.Obj? || (orNull && v.Null?)
  }

  // A property that is there is taken; one that must be there is there.
  ghost predicate TakesProperty(w: World, z: Zod, i: nat, members: seq<Member>)
    requires z.ZObject? && i < |z.shape|
    decreases z, 0
  {
    var m := Property(members, z.shape[i].key);
    if m.Some? then Takes(w, z.shape[i].schema, m.value, false)
    else z.shape[i].schema.ZOptional? || z.shape[i].schema.ZDefault?
  }

  // One branch takes the value and no other does.
  ghost predicate TakesAlone(w: World, z: Zod, i: nat, v: Value)
    requires z.ZUnion? && i < |z.options|
    decreases z, 0
  {
    && Takes(w, z.options[i], v, false)
    && forall j :: 0 <= j < |z.options| && j != i ==> !Takes(w, z.options[j], v, false)
  }

  // The compiled schema, with `nullable` set around it or not.
  function Around(z: Zod, orNull: bool): Schema {
    if orNull then Compile(z).(nullable := true) else Compile(z)
  }

  /**
   The meaning of the compiler: a value is accepted by the schema compiled from a Zod schema of any kind if
   and only if it is taken.
   */
  lemma {:induction false} CompiledMeaning(w: World, z: Zod, v: Value)
    ensures Accepts(w, Compile(z), v) <==> Takes(w, z, v, false)
  {
    AroundMeaning(w, z, v, false);
  }

  lemma {:induction false} AroundMeaning(w: World, z: Zod, v: Value, orNull: bool)
    ensures Accepts(w, Around(z, orNull), v) <==> Takes(w, z, v, orNull)
    decreases z, 1
  {
    var s := Around(z, orNull);
    match z
    case ZString(checks) => StringMeaning(w, checks, v, orNull);
    case ZNumber(checks) => NumberMeaning(w, checks, v, orNull);
    case ZEnum(_) => EnumMeaning(w, z, v, orNull);
    case ZNativeEnum(_) => EnumMeaning(w, z, v, orNull);
    case ZLiteral(_) => LiteralMeaning(w, z, v, orNull);
    case ZArray(_, _, _, _) => ArrayMeaning(w, z, v, orNull);
    case ZObject(_, _) => ObjectMeaning(w, z, v, orNull);
    case ZRecord(_, values) => RecordMeaning(w, z, v, orNull);
    case ZUnion(_) => UnionMeaning(w, z, v, orNull);
    case ZOptional(inner) => AroundMeaning(w, inner, v, orNull);
    case ZNullable(inner) =>
      AroundMeaning(w, inner, v, true);
      assert s == Around(inner, true);
    case ZDefault(inner, _) =>
      AroundMeaning(w, inner, v, orNull);
      DefaultIsNoMatter(w, Around(inner, orNull), s, v);
    case ZEffects(inner, _) => AroundMeaning(w, inner, v, orNull);
    case ZPreprocess(inner, _) => AroundMeaning(w, inner, v, orNull);
    case _ => PlainMeaning(w, z, v, orNull);
  }

  lemma {:induction false} PlainMeaning(w: World, z: Zod, v: Value, orNull: bool)
    requires z.ZBoolean? || z.ZDate? || z.ZFallback?
    ensures Accepts(w, Around(z, orNull), v) <==> Takes(w, z, v, orNull)
  {
  }

  lemma {:induction false} EnumMeaning(w: World, z: Zod, v: Value, orNull: bool)
    requires z.ZEnum? || z.ZNativeEnum?
    ensures Accepts(w, Around(z, orNull), v) <==> Takes(w, z, v, orNull)
  {
    match z
    case ZEnum(names) =>
      if v.Str? && v.s in names {
        var i :| 0 <= i < |names| && names[i] == v.s;
        assert TextValues(names)[i] == v;
      }
    case ZNativeEnum(entries) =>
      if i :| 0 <= i < |entries| && entries[i].value == v {
        assert EntryValues(entries)[i] == v;
      }
  }

  lemma {:induction false} LiteralMeaning(w: World, z: Zod, v: Value, orNull: bool)
    requires z.ZLiteral?
    ensures Accepts(w, Around(z, orNull), v) <==> Takes(w, z, v, orNull)
  {
  }

  lemma {:induction false} ArrayMeaning(w: World, z: Zod, v: Value, orNull: bool)
    requires z.ZArray?
    ensures Accepts(w, Around(z, orNull), v) <==> Takes(w, z, v, orNull)
    decreases z, 0
  {
    if v.Arr? {
      forall i | 0 <= i < |v.items|
        ensures Accepts(w, Compile(z.item), v.items[i]) <==> Takes(w, z.item, v.items[i], false)
      {
        AroundMeaning(w, z.item, v.items[i], false);
      }
    }
  }

  lemma {:induction false} DefaultIsNoMatter(w: World, s: Schema, n: Schema, v: Value)
    requires n == s.(default := n.default)
    ensures Accepts(w, s, v) <==> Accepts(w, n, v)
  {
    if Accepts(w, s, v) {
      OtherKeywords(w, s, n, v);
    }
    if Accepts(w, n, v) {
      OtherKeywords(w, n, s, v);
    }
  }

  lemma {:induction false} StringMeaning(w: World, checks: seq<StringCheck>, v: Value, orNull: bool)
    ensures Accepts(w, Around(ZString(checks), orNull), v) <==> Takes(w, ZString(checks), v, orNull)
  {
    StringKeywordsExact(checks);
    if v.Str? {
      TextExact(w, checks, v.s);
    }
    hide StringSchema, KeywordTakes;
  }

  lemma {:induction false} NumberMeaning(w: World, checks: seq<NumberCheck>, v: Value, orNull: bool)
    ensures Accepts(w, Around(ZNumber(checks), orNull), v) <==> Takes(w, ZNumber(checks), v, orNull)
  {
    NumberKeywordsExact(checks);
    if v.Num? {
      NumberExact(w, checks, v.n);
    }
    hide NumberSchema, NumberKeywordTakes, NotAbove, IsWhole;
  }

  lemma {:induction false} ObjectMeaning(w: World, z: Zod, v: Value, orNull: bool)
    requires z.ZObject?
    ensures Accepts(w, Around(z, orNull), v) <==> Takes(w, z, v, orNull)
    decreases z, 0
  {
    if v.Obj? {
      forall i | 0 <= i < |z.shape|
        ensures PropertyAccepts(w, Around(z, orNull), i, v.members) <==>
          (Property(v.members, z.shape[i].key).Some? ==> TakesProperty(w, z, i, v.members))
      {
        var m := Property(v.members, z.shape[i].key);
        if m.Some? {
          AroundMeaning(w, z.shape[i].schema, m.value, false);
        }
      }
      RequiredMeaning(z, v.members);
      if Accepts(w, Around(z, orNull), v) {
        AcceptedObject(w, z, v, orNull);
      }
      if Takes(w, z, v, orNull) {
        TakenObject(w, z, v, orNull);
      }
    }
  }

  lemma {:induction false} TakenObject(w: World, z: Zod, v: Value, orNull: bool)
    requires z.ZObject? && v.Obj? && Takes(w, z, v, orNull)
    requires forall i :: 0 <= i < |z.shape| && TakesProperty(w, z, i, v.members) ==>
      PropertyAccepts(w, Around(z, orNull), i, v.members)
    ensures Accepts(w, Around(z, orNull), v)
  {
    var s := Around(z, orNull);
    RequiredMeaning(z, v.members);
    forall i | 0 <= i < |z.shape|
      ensures PropertyAccepts(w, s, i, v.members)
      ensures Property(v.members, z.shape[i].key).Some? || MayBeLeftOut(z.shape[i].schema)
    {
      assert TakesProperty(w, z, i, v.members);
    }
    assert |s.properties| == |z.shape|;
  }

  lemma {:induction false} AcceptedObject(w: World, z: Zod, v: Value, orNull: bool)
    requires z.ZObject? && v.Obj? && Accepts(w, Around(z, orNull), v)
    ensures forall k :: k in Required(z.shape) ==> Property(v.members, k).Some?
    ensures forall i :: 0 <= i < |z.shape| ==> PropertyAccepts(w, Around(z, orNull), i, v.members)
  {
    var s := Around(z, orNull);
    forall i | 0 <= i < |z.shape|
      ensures PropertyAccepts(w, s, i, v.members)
    {
      assert PropertyAccepts(w, s, i, v.members);
    }
  }

  // All that is required is there exactly when no property that must be there is missing.
  lemma {:induction false} RequiredMeaning(z: Zod, members: seq<Member>)
    requires z.ZObject?
    ensures (forall k :: k in Required(z.shape) ==> Property(members, k).Some?) <==>
      forall i :: 0 <= i < |z.shape| ==> Property(members, z.shape[i].key).Some? || MayBeLeftOut(z.shape[i].schema)
  {
    forall k
      ensures k in Required(z.shape) <==> exists i :: 0 <= i < |z.shape| && MustBe(z.shape, i, k)
    {
      RequiredExact(z.shape, k);
    }
    if forall k :: k in Required(z.shape) ==> Property(members, k).Some? {
      forall i | 0 <= i < |z.shape|
        ensures Property(members, z.shape[i].key).Some? || MayBeLeftOut(z.shape[i].schema)
      {
        assert !MayBeLeftOut(z.shape[i].schema) ==> MustBe(z.shape, i, z.shape[i].key);
      }
    }
  }

  lemma {:induction false} RecordMeaning(w: World, z: Zod, v: Value, orNull: bool)
    requires z.ZRecord?
    ensures Accepts(w, Around(z, orNull), v) <==> Takes(w, z, v, orNull)
    decreases z, 0
  {
    var s := Around(z, orNull);
    if v.Obj? {
      forall k | Property(v.members, k).Some?
        ensures !IsProperty(s, k)
        ensures Accepts(w, Compile(z.values), Property(v.members, k).value) <==>
          Takes(w, z.values, Property(v.members, k).value, false)
      {
        AroundMeaning(w, z.values, Property(v.members, k).value, false);
      }
    }
  }

  lemma {:induction false} UnionMeaning(w: World, z: Zod, v: Value, orNull: bool)
    requires z.ZUnion?
    ensures Accepts(w, Around(z, orNull), v) <==> Takes(w, z, v, orNull)
    decreases z, 0
  {
    var s := Around(z, orNull);
    forall i | 0 <= i < |z.options|
      ensures Accepts(w, s.branches.options[i], v) <==> Takes(w, z.options[i], v, false)
    {
      AroundMeaning(w, z.options[i], v, false);
    }
    forall i | 0 <= i < |z.options|
      ensures OnlyAt(w, s, v, i) <==> TakesAlone(w, z, i, v)
    {
    }
  }

  // The default around a schema.
  function DefaultAround(z: Zod): Option<Value> {
    match z
    case ZDefault(_, d) => Some(d)
    case ZOptional(inner) => DefaultAround(inner)
    case ZNullable(inner) => DefaultAround(inner)
    case ZEffects(inner, _) => DefaultAround(inner)
    case ZPreprocess(inner, _) => DefaultAround(inner)
    case _ => None
  }

  /** The compiled schema names the outermost default, and no other. */
  lemma {:induction false} DefaultExact(z: Zod)
    ensures Compile(z).default == DefaultAround(z)
    decreases z
  {
    match z
    case ZOptional(inner) => DefaultExact(inner);
    case ZNullable(inner) => DefaultExact(inner);
    case ZEffects(inner, _) => DefaultExact(inner);
    case ZPreprocess(inner, _) => DefaultExact(inner);
    case _ =>
  }
}
