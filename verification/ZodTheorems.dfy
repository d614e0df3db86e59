/** What the compiler from Zod to OpenAPI keeps, and exactly where it does not. */
module ZodTheorems {
  import opened Common
  import opened Json
  import opened ZodToOpenApi

  /* ---------- Texts ---------- */

  predicate PairFree(t: Text) {
    forall i :: 0 <= i < |t| - 1 ==> !(IsHigh(t[i]) && IsLow(t[i + 1]))
  }

  // No string in the value holds a surrogate pair.
  predicate Bmp(v: Value) {
    match v
    case Str(s) => PairFree(s)
    case Arr(items) => forall i :: 0 <= i < |items| ==> Bmp(items[i])
    case Obj(members) => forall i :: 0 <= i < |members| ==> Bmp(members[i].value)
    case _ => true
  }

  lemma {:induction false} CharCountExact(t: Text)
    ensures CharCount(t) == |t| <==> PairFree(t)
    ensures t != [] ==> CharCount(t) >= 1
    decreases |t|
  {
    if t == [] {
    } else if |t| > 1 && IsHigh(t[0]) && IsLow(t[1]) {
      assert !PairFree(t);
      CharCountExact(t[2..]);
    } else {
      CharCountExact(t[1..]);
      if PairFree(t[1..]) {
        forall i | 0 <= i < |t| - 1
          ensures !(IsHigh(t[i]) && IsLow(t[i + 1]))
        {
          assert i > 0 ==> t[i] == t[1..][i - 1] && t[i + 1] == t[1..][i];
        }
      }
    }
  }

  /* ---------- Null ---------- */

  // Whether a schema accepts null, read off its keywords.
  ghost predicate TakesNull(s: Schema)
    decreases s, 1
  {
    && TypeAccepts(s, Null)
    && EnumAccepts(s, Null)
    && (s.branches.OneOf? ==> exists i :: 0 <= i < |s.branches.options| && OnlyNullAt(s, i))
  }

  // Branch `i` takes null and no other branch does.
  ghost predicate OnlyNullAt(s: Schema, i: nat)
    requires s.branches.OneOf? && i < |s.branches.options|
    decreases s, 0
  {
    && TakesNull(s.branches.options[i])
    && forall j :: 0 <= j < |s.branches.options| && j != i ==> !TakesNull(s.branches.options[j])
  }

  lemma {:induction false} NullExact(w: World, s: Schema)
    ensures TakesNull(s) <==> Accepts(w, s, Null)
    decreases s
  {
    if s.branches.OneOf? {
      var options := s.branches.options;
      forall i | 0 <= i < |options|
        ensures TakesNull(options[i]) <==> Accepts(w, options[i], Null)
      {
        NullExact(w, options[i]);
      }
      forall i | 0 <= i < |options|
        ensures OnlyNullAt(s, i) <==> OnlyAt(w, s, Null, i)
      {
      }
    }
  }

  /* ---------- Schemas that share no value ---------- */

  predicate TypesApart(a: TypeName, b: TypeName) {
    a != b && !(a in {NumberType, IntegerType} && b in {NumberType, IntegerType})
  }

  // Read off the keywords: different types, disjoint enumerations, or a required property that
  // tells the two apart.
  ghost predicate Apart(a: Schema, b: Schema)
    decreases a, 1
  {
    || (a.typ.Some? && b.typ.Some? && TypesApart(a.typ.value, b.typ.value) && !(TakesNull(a) && TakesNull(b)))
    || (a.enum.Some? && b.enum.Some? && forall x :: x in a.enum.value ==> x !in b.enum.value)
    || (&& a.typ == Some(ObjectType) == b.typ && !(TakesNull(a) && TakesNull(b))
        && exists i, j :: 0 <= i < |a.properties| && 0 <= j < |b.properties| && ToldApartAt(a, b, i, j))
  }

  ghost predicate ToldApartAt(a: Schema, b: Schema, i: nat, j: nat)
    requires i < |a.properties| && j < |b.properties|
    decreases a, 0
  {
    var p, q := a.properties[i], b.properties[j];
    p.key == q.key && a.required.Some? && p.key in a.required.value && Apart(p.schema, q.schema)
  }

  lemma {:induction false} ApartIsDisjoint(w: World, a: Schema, b: Schema, v: Value)
    requires Apart(a, b)
    ensures !(Accepts(w, a, v) && Accepts(w, b, v))
    decreases a, 1
  {
    NullExact(w, a);
    NullExact(w, b);
    if Accepts(w, a, v) && v.Obj? && a.typ == Some(ObjectType) == b.typ {
      forall i, j | 0 <= i < |a.properties| && 0 <= j < |b.properties| && ToldApartAt(a, b, i, j)
        ensures !(MembersAccept(w, a, v.members) && MembersAccept(w, b, v.members))
      {
        ToldApartIsDisjoint(w, a, b, i, j, v.members);
      }
    }
  }

  lemma {:induction false} ToldApartIsDisjoint(w: World, a: Schema, b: Schema, i: nat, j: nat, members: seq<Member>)
    requires i < |a.properties| && j < |b.properties| && ToldApartAt(a, b, i, j)
    ensures !(MembersAccept(w, a, members) && MembersAccept(w, b, members))
    decreases a, 0
  {
    var p, q := a.properties[i], b.properties[j];
    var m := Property(members, p.key);
    if m.Some? {
      ApartIsDisjoint(w, p.schema, q.schema, m.value);
      assert !PropertyAccepts(w, a, i, members) || !PropertyAccepts(w, b, j, members);
    }
  }

  /* ---------- The last check of each kind, by position ---------- */

  predicate SameKind(a: StringCheck, b: StringCheck) {
    || (a.MinLength? && b.MinLength?) || (a.MaxLength? && b.MaxLength?)
    || (a.Regex? && b.Regex?) || (a.Formatted? && b.Formatted?)
  }

  predicate LastOfKind(checks: seq<StringCheck>, i: nat)
    requires i < |checks|
  {
    forall j :: i < j < |checks| ==> !SameKind(checks[i], checks[j])
  }

  predicate SameNumberKind(a: NumberCheck, b: NumberCheck) {
    (a.AtLeast? && b.AtLeast?) || (a.AtMost? && b.AtMost?)
  }

  predicate LastOfNumberKind(checks: seq<NumberCheck>, i: nat)
    requires i < |checks|
  {
    forall j :: i < j < |checks| ==> !SameNumberKind(checks[i], checks[j])
  }

  // The keyword that a check writes.
  predicate WritesKeyword(c: StringCheck, s: Schema) {
    match c
    case MinLength(n) => s.minLength == Some(n)
    case MaxLength(n) => s.maxLength == Some(n)
    case Regex(source, _) => s.pattern == Some(source)
    case Formatted(f) => s.format == Some(f)
    case _ => true
  }

  predicate WritesNumberKeyword(c: NumberCheck, s: Schema) {
    match c
    case AtLeast(b, _) => s.minimum == Some(b)
    case AtMost(b, _) => s.maximum == Some(b)
    case WholeNumber => s.typ == Some(IntegerType)
    case _ => true
  }

  ghost predicate HasKind(checks: seq<StringCheck>, c: StringCheck) {
    exists i :: 0 <= i < |checks| && SameKind(checks[i], c)
  }

  ghost predicate HasNumberKind(checks: seq<NumberCheck>, c: NumberCheck) {
    exists i :: 0 <= i < |checks| && SameNumberKind(checks[i], c)
  }

  /**
   The keywords of a string schema, by position: the last check of each kind writes its keyword, a kind
   without a check leaves none, and there are no other keywords but the type.
   */
  lemma {:induction false} StringKeywordsExact(checks: seq<StringCheck>)
    ensures
      var s := StringSchema(checks);
      && (forall i :: 0 <= i < |checks| && LastOfKind(checks, i) ==> WritesKeyword(checks[i], s))
      && (s.minLength.Some? ==> HasKind(checks, MinLength(0))) && (s.maxLength.Some? ==> HasKind(checks, MaxLength(0)))
      && (s.pattern.Some? ==> HasKind(checks, Regex([], [])))
      && (s.format.Some? ==> HasKind(checks, Formatted(EmailFormat)))
      && s == Schema(typ := Some(StringType), minLength := s.minLength, maxLength := s.maxLength,
                     pattern := s.pattern, format := s.format)
  {
    if checks != [] {
      var n := |checks| - 1;
      var before := checks[..n];
      StringKeywordsExact(before);
      var s, t := StringSchema(checks), StringSchema(before);
      forall i | 0 <= i < |checks| && LastOfKind(checks, i)
        ensures WritesKeyword(checks[i], s)
      {
        if i < n {
          assert before[i] == checks[i] && LastOfKind(before, i);
          assert !SameKind(checks[i], checks[n]);
          assert WritesKeyword(before[i], t);
        }
      }
      KindsStay(checks);
    }
  }

  lemma {:induction false} KindsStay(checks: seq<StringCheck>)
    requires checks != []
    ensures forall c :: HasKind(checks[..|checks| - 1], c) ==> HasKind(checks, c)
    ensures forall c :: SameKind(checks[|checks| - 1], c) ==> HasKind(checks, c)
  {
    var n := |checks| - 1;
    forall c | HasKind(checks[..n], c)
      ensures HasKind(checks, c)
    {
      var i :| 0 <= i < n && SameKind(checks[..n][i], c);
      assert SameKind(checks[i], c);
    }
  }

  /** The keywords of a number schema, by position. */
  lemma {:induction false} NumberKeywordsExact(checks: seq<NumberCheck>)
    ensures
      var s := NumberSchema(checks);
      && (forall i :: 0 <= i < |checks| && LastOfNumberKind(checks, i) ==> WritesNumberKeyword(checks[i], s))
      && (s.minimum.Some? ==> HasNumberKind(checks, AtLeast(Zero, true)))
      && (s.maximum.Some? ==> HasNumberKind(checks, AtMost(Zero, true)))
      && s.typ == Some(if WholeNumber in checks then IntegerType else NumberType)
      && s == Schema(typ := s.typ, minimum := s.minimum, maximum := s.maximum)
  {
    if checks != [] {
      var n := |checks| - 1;
      var before := checks[..n];
      NumberKeywordsExact(before);
      assert checks == before + [checks[n]];
      var s, t := NumberSchema(checks), NumberSchema(before);
      forall i | 0 <= i < |checks| && LastOfNumberKind(checks, i)
        ensures WritesNumberKeyword(checks[i], s)
      {
        if i < n {
          assert before[i] == checks[i] && LastOfNumberKind(before, i);
          assert !SameNumberKind(checks[i], checks[n]);
          assert WritesNumberKeyword(before[i], t);
        }
      }
      NumberKindsStay(checks);
    }
  }

  lemma {:induction false} NumberKindsStay(checks: seq<NumberCheck>)
    requires checks != []
    ensures forall c :: HasNumberKind(checks[..|checks| - 1], c) ==> HasNumberKind(checks, c)
    ensures forall c :: SameNumberKind(checks[|checks| - 1], c) ==> HasNumberKind(checks, c)
  {
    var n := |checks| - 1;
    forall c | HasNumberKind(checks[..n], c)
      ensures HasNumberKind(checks, c)
    {
      var i :| 0 <= i < n && SameNumberKind(checks[..n][i], c);
      assert SameNumberKind(checks[i], c);
    }
  }

  // The last check of the kind of check i.
  lemma {:induction false} LastLike(checks: seq<StringCheck>, i: nat) returns (l: nat)
    requires i < |checks| && SameKind(checks[i], checks[i])
    ensures i <= l < |checks| && SameKind(checks[i], checks[l]) && LastOfKind(checks, l)
    decreases |checks| - i
  {
    if LastOfKind(checks, i) {
      l := i;
    } else {
      var j :| i < j < |checks| && SameKind(checks[i], checks[j]);
      l := LastLike(checks, j);
    }
  }

  lemma {:induction false} LastNumberLike(checks: seq<NumberCheck>, i: nat) returns (l: nat)
    requires i < |checks| && SameNumberKind(checks[i], checks[i])
    ensures i <= l < |checks| && SameNumberKind(checks[i], checks[l]) && LastOfNumberKind(checks, l)
    decreases |checks| - i
  {
    if LastOfNumberKind(checks, i) {
      l := i;
    } else {
      var j :| i < j < |checks| && SameNumberKind(checks[i], checks[j]);
      l := LastNumberLike(checks, j);
    }
  }

  /** A text without the format that the last format check asks for is rejected. */
  lemma {:induction false} LastFormatRejects(w: World, checks: seq<StringCheck>, i: nat, f: Format, t: Text)
    requires i < |checks| && checks[i] == Formatted(f) && forall j :: i < j < |checks| ==> !checks[j].Formatted?
    requires !w.schemaFormat(f, t)
    ensures !Accepts(w, Compile(ZString(checks)), Str(t))
  {
    StringKeywordsExact(checks);
    assert LastOfKind(checks, i);
    assert WritesKeyword(checks[i], StringSchema(checks));
  }

  /* ---------- The fragment on which the compiler is sound ---------- */

  // Whether Zod may accept `undefined`, read off the schema.
  predicate MayTakeUndefined(z: Zod) {
    match z
    case ZOptional(_) => true
    case ZDefault(_, _) => true
    case ZNullable(inner) => MayTakeUndefined(inner)
    case ZEffects(inner, _) => MayTakeUndefined(inner)
    case ZUnion(options) => exists i :: 0 <= i < |options| && MayTakeUndefined(options[i])
    case ZPreprocess(_, _) => true
    case ZFallback(_) => true
    case _ => false
  }

  predicate EnumIsOneType(entries: seq<EnumEntry>) {
    forall i :: 0 <= i < |entries| && IsEnumValue(entries, entries[i].value) ==>
      HasType(entries[i].value, EnumType(entries))
  }

  // `bmp` says that strings with surrogate pairs are out of the picture.
  ghost predicate Kept(z: Zod, bmp: bool) {
    match z
    case ZString(checks) =>
      && (forall c :: c in checks ==> !c.Rewrite?)
      && (forall i :: 0 <= i < |checks| && LastOfKind(checks, i) ==>
            && (checks[i].Regex? ==> checks[i].flags == [])
            && (checks[i].MinLength? && !bmp ==> checks[i].n <= 1))
    case ZNativeEnum(entries) => EnumIsOneType(entries)
    case ZLiteral(x) => !x.Null?
    case ZArray(item, _, _, _) => Kept(item, bmp)
    case ZObject(shape, _) =>
      forall i :: 0 <= i < |shape| ==>
        && Kept(shape[i].schema, bmp)
        && (MayTakeUndefined(shape[i].schema) ==> MayBeLeftOut(shape[i].schema))
    case ZRecord(_, values) => Kept(values, bmp)
    case ZUnion(options) =>
      && (forall i :: 0 <= i < |options| ==> Kept(options[i], bmp))
      && (forall i, j :: 0 <= i < j < |options| ==> Apart(Compile(options[i]), Compile(options[j])))
    case ZOptional(inner) => Kept(inner, bmp)
    case ZNullable(inner) => Kept(inner, bmp) && TakesNull(Compile(z))
    case ZDefault(inner, _) => Kept(inner, bmp)
    case ZEffects(inner, _) => Kept(inner, bmp)
    case ZPreprocess(_, _) => false
    case ZFallback(_) => false
    case _ => true
  }

  /* ---------- Strings and numbers ---------- */

  lemma {:induction false} ChecksAreAll(w: World, checks: seq<StringCheck>, t: Text)
    requires forall c :: c in checks ==> !c.Rewrite?
    ensures ChecksHold(w, checks, t) <==> forall c :: c in checks ==> CheckHolds(w, c, t)
  {
    if checks != [] {
      ChecksAreAll(w, checks[1..], t);
      assert checks == [checks[0]] + checks[1..];
    }
  }

  lemma {:induction false} StringsKept(w: World, checks: seq<StringCheck>, t: Text, bmp: bool)
    requires Kept(ZString(checks), bmp) && (bmp ==> PairFree(t)) && FormatsAgree(w)
    requires ChecksHold(w, checks, t)
    ensures Accepts(w, StringSchema(checks), Str(t))
  {
    ChecksAreAll(w, checks, t);
    CharCountExact(t);
    TextExact(w, checks, t);
    forall i | 0 <= i < |checks| && LastOfKind(checks, i)
      ensures KeywordTakes(w, checks[i], t)
    {
      assert checks[i] in checks && CheckHolds(w, checks[i], t);
    }
  }

  // What the keyword of a check takes.
  predicate KeywordTakes(w: World, c: StringCheck, t: Text) {
    match c
    case MinLength(n) => CharCount(t) >= n
    case MaxLength(n) => CharCount(t) <= n
    case Regex(source, _) => w.matches(source, [], t)
    case Formatted(f) => w.schemaFormat(f, t)
    case _ => true
  }

  /** A compiled string schema takes a text if and only if the keywords of the last checks of each kind do. */
  lemma {:induction false} TextExact(w: World, checks: seq<StringCheck>, t: Text)
    ensures Accepts(w, StringSchema(checks), Str(t)) <==>
      forall i :: 0 <= i < |checks| && LastOfKind(checks, i) ==> KeywordTakes(w, checks[i], t)
  {
    var s := StringSchema(checks);
    StringKeywordsExact(checks);
    if forall i :: 0 <= i < |checks| && LastOfKind(checks, i) ==> KeywordTakes(w, checks[i], t) {
      KindTakes(w, checks, MinLength(0), t);
      KindTakes(w, checks, MaxLength(0), t);
      KindTakes(w, checks, Regex([], []), t);
      KindTakes(w, checks, Formatted(EmailFormat), t);
    } else {
      var i :| 0 <= i < |checks| && LastOfKind(checks, i) && !KeywordTakes(w, checks[i], t);
      assert WritesKeyword(checks[i], s);
    }
  }

  lemma {:induction false} KindTakes(w: World, checks: seq<StringCheck>, c: StringCheck, t: Text)
    requires forall i :: 0 <= i < |checks| && LastOfKind(checks, i) ==> KeywordTakes(w, checks[i], t)
    ensures HasKind(checks, c) ==>
      exists l :: 0 <= l < |checks| && SameKind(checks[l], c) && WritesKeyword(checks[l], StringSchema(checks)) &&
        KeywordTakes(w, checks[l], t)
  {
    if HasKind(checks, c) {
      var i :| 0 <= i < |checks| && SameKind(checks[i], c);
      var l := LastLike(checks, i);
      StringKeywordsExact(checks);
      assert WritesKeyword(checks[l], StringSchema(checks));
    }
  }

  lemma {:induction false} NumbersKept(w: World, checks: seq<NumberCheck>, x: Number)
    requires NumberChecksHold(w, checks, x)
    ensures Accepts(w, NumberSchema(checks), Num(x))
  {
    NumberExact(w, checks, x);
    forall i | 0 <= i < |checks| && LastOfNumberKind(checks, i)
      ensures NumberKeywordTakes(checks[i], x)
    {
      assert checks[i] in checks && NumberCheckHolds(w, checks[i], x);
      NotAboveTotal(x, x);
      match checks[i]
      case AtLeast(b, _) => NotAboveTotal(b, x);
      case AtMost(b, _) => NotAboveTotal(x, b);
      case _ =>
    }
  }

  lemma NotAboveTotal(x: Number, y: Number)
    ensures NotAbove(x, y) || NotAbove(y, x)
  {
  }

  // What the keyword of a check takes: bounds are inclusive.
  predicate NumberKeywordTakes(c: NumberCheck, x: Number) {
    match c
    case AtLeast(b, _) => NotAbove(b, x)
    case AtMost(b, _) => NotAbove(x, b)
    case WholeNumber => IsWhole(x)
    case _ => true
  }

  /** A compiled number schema takes a number if and only if the keywords of the last checks of each kind do. */
  lemma {:induction false} NumberExact(w: World, checks: seq<NumberCheck>, x: Number)
    ensures Accepts(w, NumberSchema(checks), Num(x)) <==>
      forall i :: 0 <= i < |checks| && LastOfNumberKind(checks, i) ==> NumberKeywordTakes(checks[i], x)
  {
    var s := NumberSchema(checks);
    NumberKeywordsExact(checks);
    hide NotAbove, IsWhole;
    if forall i :: 0 <= i < |checks| && LastOfNumberKind(checks, i) ==> NumberKeywordTakes(checks[i], x) {
      NumberKindTakes(checks, AtLeast(Zero, true), x);
      NumberKindTakes(checks, AtMost(Zero, true), x);
      if WholeNumber in checks {
        var i :| 0 <= i < |checks| && checks[i] == WholeNumber;
        assert LastOfNumberKind(checks, i);
      }
    } else {
      var i :| 0 <= i < |checks| && LastOfNumberKind(checks, i) && !NumberKeywordTakes(checks[i], x);
      assert WritesNumberKeyword(checks[i], s);
    }
  }

  lemma {:induction false} NumberKindTakes(checks: seq<NumberCheck>, c: NumberCheck, x: Number)
    requires forall i :: 0 <= i < |checks| && LastOfNumberKind(checks, i) ==> NumberKeywordTakes(checks[i], x)
    ensures HasNumberKind(checks, c) ==>
      exists l :: 0 <= l < |checks| && SameNumberKind(checks[l], c) &&
        WritesNumberKeyword(checks[l], NumberSchema(checks)) && NumberKeywordTakes(checks[l], x)
  {
    if HasNumberKind(checks, c) {
      var i :| 0 <= i < |checks| && SameNumberKind(checks[i], c);
      var l := LastNumberLike(checks, i);
      NumberKeywordsExact(checks);
      assert WritesNumberKeyword(checks[l], NumberSchema(checks));
    }
  }

  /* ---------- Objects ---------- */

  lemma {:induction false} RequiredExact(shape: seq<ZodProperty>, k: Text)
    ensures k in Required(shape) <==> exists i :: 0 <= i < |shape| && MustBe(shape, i, k)
  {
    if shape != [] {
      var n := |shape| - 1;
      RequiredExact(shape[..n], k);
      assert forall i :: 0 <= i < n ==> (MustBe(shape, i, k) <==> MustBe(shape[..n], i, k));
      if MustBe(shape, n, k) {
        assert k in Required(shape);
      }
      if k in Required(shape) && k !in Required(shape[..n]) {
        assert MustBe(shape, n, k);
      }
    }
  }

  predicate MustBe(shape: seq<ZodProperty>, i: nat, k: Text)
    requires i < |shape|
  {
    shape[i].key == k && !MayBeLeftOut(shape[i].schema)
  }

  lemma {:induction false} UndefinedIsSeen(w: World, z: Zod)
    requires ZodAccepts(w, z, None)
    ensures MayTakeUndefined(z)
    decreases z
  {
    match z
    case ZNullable(inner) => UndefinedIsSeen(w, inner);
    case ZEffects(inner, _) => UndefinedIsSeen(w, inner);
    case ZUnion(options) =>
      var i :| 0 <= i < |options| && ZodAccepts(w, options[i], None);
      UndefinedIsSeen(w, options[i]);
    case _ =>
  }

  lemma RequiredKept(w: World, z: Zod, members: seq<Member>, k: Text)
    requires z.ZObject? && Kept(z, true) && ShapeAccepts(w, z, members) && k in Required(z.shape)
    ensures Property(members, k).Some?
  {
    RequiredExact(z.shape, k);
    var i :| 0 <= i < |z.shape| && MustBe(z.shape, i, k);
    assert ZodAccepts(w, z.shape[i].schema, Property(members, k));
    if Property(members, k).None? {
      UndefinedIsSeen(w, z.shape[i].schema);
    }
  }

  lemma {:induction false} KeptOnBmp(z: Zod)
    requires Kept(z, false)
    ensures Kept(z, true)
    decreases z
  {
    match z
    case ZArray(item, _, _, _) => KeptOnBmp(item);
    case ZObject(shape, _) =>
      forall i | 0 <= i < |shape|
        ensures Kept(shape[i].schema, true)
      {
        KeptOnBmp(shape[i].schema);
      }
    case ZRecord(_, values) => KeptOnBmp(values);
    case ZUnion(options) =>
      forall i | 0 <= i < |options|
        ensures Kept(options[i], true)
      {
        KeptOnBmp(options[i]);
      }
    case ZOptional(inner) => KeptOnBmp(inner);
    case ZNullable(inner) => KeptOnBmp(inner);
    case ZDefault(inner, _) => KeptOnBmp(inner);
    case ZEffects(inner, _) => KeptOnBmp(inner);
    case _ =>
  }

  lemma {:induction false} ObjectsKept(w: World, z: Zod, members: seq<Member>, bmp: bool)
    requires z.ZObject? && Kept(z, bmp) && (bmp ==> Bmp(Obj(members))) && FormatsAgree(w)
    requires ShapeAccepts(w, z, members)
    ensures Accepts(w, Compile(z), Obj(members))
    decreases z, 0
  {
    var s := Compile(z);
    if !bmp {
      KeptOnBmp(z);
    }
    forall k | k in Required(z.shape)
      ensures Property(members, k).Some?
    {
      RequiredKept(w, z, members, k);
    }
    forall i | 0 <= i < |s.properties|
      ensures PropertyAccepts(w, s, i, members)
    {
      var p := z.shape[i];
      var m := Property(members, p.key);
      if m.Some? {
        PropertyIsMember(members, p.key);
        assert bmp ==> Bmp(m.value);
        CompiledAccepts(w, p.schema, m.value, bmp);
      }
    }
  }

  lemma {:induction false} RecordsKept(w: World, z: Zod, members: seq<Member>, bmp: bool)
    requires z.ZRecord? && Kept(z, bmp) && (bmp ==> Bmp(Obj(members))) && FormatsAgree(w)
    requires ZodAccepts(w, z, Some(Obj(members)))
    ensures Accepts(w, Compile(z), Obj(members))
    decreases z, 0
  {
    forall k | Property(members, k).Some?
      ensures Accepts(w, Compile(z.values), Property(members, k).value)
    {
      PropertyIsMember(members, k);
      CompiledAccepts(w, z.values, Property(members, k).value, bmp);
    }
  }

  lemma {:induction false} UnionsKept(w: World, z: Zod, v: Value, bmp: bool)
    requires z.ZUnion? && Kept(z, bmp) && (bmp ==> Bmp(v)) && FormatsAgree(w)
    requires ZodAccepts(w, z, Some(v))
    ensures Accepts(w, Compile(z), v)
    decreases z, 0
  {
    var i :| 0 <= i < |z.options| && ZodAccepts(w, z.options[i], Some(v));
    CompiledAccepts(w, z.options[i], v, bmp);
    var ss := CompileAll(z.options);
    forall j | 0 <= j < |ss| && j != i
      ensures !Accepts(w, ss[j], v)
    {
      if i < j {
        ApartIsDisjoint(w, ss[i], ss[j], v);
      } else {
        ApartIsDisjoint(w, ss[j], ss[i], v);
      }
    }
    assert OnlyAt(w, Compile(z), v, i);
  }

  // Keywords that do not bear on the value change nothing.
  lemma OtherKeywords(w: World, s: Schema, n: Schema, v: Value)
    requires n == s.(nullable := n.nullable, default := n.default)
    requires Accepts(w, s, v) && TypeAccepts(n, v)
    ensures Accepts(w, n, v)
  {
    assert v.Obj? ==> forall i :: 0 <= i < |s.properties| ==>
      (PropertyAccepts(w, s, i, v.members) <==> PropertyAccepts(w, n, i, v.members));
    assert v.Obj? ==> forall k :: IsProperty(s, k) <==> IsProperty(n, k);
    assert s.branches.OneOf? ==>
      forall i :: 0 <= i < |s.branches.options| ==> (OnlyAt(w, s, v, i) <==> OnlyAt(w, n, v, i));
  }

  /* ---------- The compiled schema accepts what Zod accepts ---------- */

  /** Every JSON value that a kept Zod schema accepts is accepted by the schema compiled from it. */
  lemma {:induction false} CompiledAccepts(w: World, z: Zod, v: Value, bmp: bool)
    requires Kept(z, bmp) && (bmp ==> Bmp(v)) && FormatsAgree(w)
    requires ZodAccepts(w, z, Some(v))
    ensures Accepts(w, Compile(z), v)
    decreases z, 1
  {
    match z
    case ZString(checks) => StringsKept(w, checks, v.s, bmp);
    case ZNumber(checks) => NumbersKept(w, checks, v.n);
    case ZEnum(names) => EnumKept(w, names, v.s);
    case ZNativeEnum(entries) =>
      var i :| 0 <= i < |entries| && IsEntry(entries, i, v);
      assert EntryValues(entries)[i] == v;
    case ZArray(item, _, _, _) =>
      forall i | 0 <= i < |v.items|
        ensures Accepts(w, Compile(item), v.items[i])
      {
        CompiledAccepts(w, item, v.items[i], bmp);
      }
    case ZObject(_, _) => ObjectsKept(w, z, v.members, bmp);
    case ZRecord(_, _) => RecordsKept(w, z, v.members, bmp);
    case ZUnion(_) => UnionsKept(w, z, v, bmp);
    case ZOptional(inner) => CompiledAccepts(w, inner, v, bmp);
    case ZNullable(inner) =>
      if v.Null? {
        NullExact(w, Compile(z));
      } else {
        CompiledAccepts(w, inner, v, bmp);
        OtherKeywords(w, Compile(inner), Compile(z), v);
      }
    case ZDefault(inner, d) =>
      CompiledAccepts(w, inner, v, bmp);
      OtherKeywords(w, Compile(inner), Compile(z), v);
    case ZEffects(inner, _) => CompiledAccepts(w, inner, v, bmp);
    case _ =>
  }

  lemma EnumKept(w: World, names: seq<Text>, t: Text)
    requires t in names
    ensures Accepts(w, Compile(ZEnum(names)), Str(t))
  {
    var i :| 0 <= i < |names| && names[i] == t;
    assert TextValues(names)[i] == Str(t);
  }

  /* ---------- The other direction: schemas that the compiler loses nothing of ---------- */

  // The format of the schema is no looser than the check of Zod.
  ghost predicate FormatIsExact(w: World, f: Format) {
    forall t :: w.schemaFormat(f, t) ==> w.zodFormat(f, t)
  }

  // The keyword of the last check of a kind rejects what this check of the kind rejects.
  predicate Implied(last: StringCheck, c: StringCheck) {
    match c
    case MinLength(n) => last.MinLength? && n <= last.n
    case MaxLength(n) => last.MaxLength? && last.n <= n
    case Regex(_, flags) => last == c && flags == []
    case Formatted(_) => last == c
    case _ => false
  }

  // Every check has its keyword, and the last check of its kind does not loosen it.
  ghost predicate StringLossless(w: World, checks: seq<StringCheck>) {
    forall i :: 0 <= i < |checks| ==>
      && SameKind(checks[i], checks[i])
      && (checks[i].Formatted? ==> FormatIsExact(w, checks[i].format))
      && forall l :: 0 <= l < |checks| && SameKind(checks[i], checks[l]) && LastOfKind(checks, l) ==>
           Implied(checks[l], checks[i])
  }

  ghost predicate NumberLossless(checks: seq<NumberCheck>) {
    forall i :: 0 <= i < |checks| ==>
      && !checks[i].OtherNumber?
      && (checks[i].AtLeast? || checks[i].AtMost? ==> checks[i].inclusive)
      && forall l :: 0 <= l < |checks| && SameNumberKind(checks[i], checks[l]) && LastOfNumberKind(checks, l) ==>
           checks[l].bound == checks[i].bound
  }

  ghost predicate Lossless(w: World, z: Zod) {
    match z
    case ZString(checks) => StringLossless(w, checks)
    case ZNumber(checks) => NumberLossless(checks)
    case ZDate => false
    case ZNativeEnum(entries) => forall i :: 0 <= i < |entries| ==> IsEntry(entries, i, entries[i].value)
    case ZLiteral(x) => !x.Arr? && !x.Obj?
    case ZArray(item, _, _, exactly) => exactly.None? && Lossless(w, item)
    case ZObject(shape, unknown) =>
      && (unknown.Strip? || unknown.Passthrough?)
      && forall i :: 0 <= i < |shape| ==> Lossless(w, shape[i].schema)
    case ZRecord(keys, values) => keys == ZString([]) && Lossless(w, values)
    case ZUnion(options) => forall i :: 0 <= i < |options| ==> Lossless(w, options[i])
    case ZOptional(inner) => Lossless(w, inner)
    case ZNullable(inner) => Lossless(w, inner)
    case ZDefault(inner, d) => Lossless(w, inner) && ZodAccepts(w, inner, Some(d))
    case ZEffects(_, _) => false
    case ZPreprocess(_, _) => false
    case ZFallback(_) => false
    case _ => true
  }

  lemma {:induction false} StringsExact(w: World, checks: seq<StringCheck>, t: Text)
    requires StringLossless(w, checks) && PairFree(t) && Accepts(w, StringSchema(checks), Str(t))
    ensures ChecksHold(w, checks, t)
  {
    TextExact(w, checks, t);
    CharCountExact(t);
    forall c | c in checks
      ensures CheckHolds(w, c, t) && !c.Rewrite?
    {
      var i :| 0 <= i < |checks| && checks[i] == c;
      var l := LastLike(checks, i);
      assert Implied(checks[l], checks[i]) && KeywordTakes(w, checks[l], t);
    }
    ChecksAreAll(w, checks, t);
  }

  lemma {:induction false} NumbersExact(w: World, checks: seq<NumberCheck>, x: Number)
    requires NumberLossless(checks) && Accepts(w, NumberSchema(checks), Num(x))
    ensures NumberChecksHold(w, checks, x)
  {
    NumberExact(w, checks, x);
    hide NotAbove, IsWhole;
    forall c | c in checks
      ensures NumberCheckHolds(w, c, x)
    {
      var i :| 0 <= i < |checks| && checks[i] == c;
      if c.WholeNumber? {
        assert LastOfNumberKind(checks, i) && NumberKeywordTakes(checks[i], x);
      } else {
        var l := LastNumberLike(checks, i);
        assert NumberKeywordTakes(checks[l], x);
      }
    }
  }

  lemma {:induction false} ShapeExact(w: World, z: Zod, members: seq<Member>)
    requires z.ZObject? && Lossless(w, z) && Bmp(Obj(members))
    requires Accepts(w, Compile(z), Obj(members))
    ensures ShapeAccepts(w, z, members)
    decreases z, 0
  {
    var s := Compile(z);
    forall i | 0 <= i < |z.shape|
      ensures ZodAccepts(w, z.shape[i].schema, Property(members, z.shape[i].key))
    {
      var p := z.shape[i];
      var m := Property(members, p.key);
      if m.Some? {
        PropertyIsMember(members, p.key);
        assert PropertyAccepts(w, s, i, members);
        assert Bmp(m.value);
        ZodAcceptsCompiled(w, p.schema, m.value);
      } else {
        RequiredExact(z.shape, p.key);
        assert p.key !in Required(z.shape);
        assert !MustBe(z.shape, i, p.key);
        assert Lossless(w, p.schema);
      }
    }
  }

  lemma {:induction false} RecordExact(w: World, z: Zod, v: Value)
    requires z.ZRecord? && Lossless(w, z) && Bmp(v) && Accepts(w, Compile(z), v)
    ensures ZodAccepts(w, z, Some(v))
    decreases z, 0
  {
    forall k | Property(v.members, k).Some?
      ensures ZodAccepts(w, z.values, Property(v.members, k))
    {
      PropertyIsMember(v.members, k);
      assert !IsProperty(Compile(z), k);
      ZodAcceptsCompiled(w, z.values, Property(v.members, k).value);
    }
  }


  /** What a lossless Zod schema rejects, the compiled schema rejects. */
  lemma {:induction false} ZodAcceptsCompiled(w: World, z: Zod, v: Value)
    requires Lossless(w, z) && Bmp(v) && Accepts(w, Compile(z), v)
    ensures ZodAccepts(w, z, Some(v))
    decreases z, 1
  {
    match z
    case ZString(checks) => StringsExact(w, checks, v.s);
    case ZNumber(checks) => NumbersExact(w, checks, v.n);
    case ZNativeEnum(entries) =>
      var i :| 0 <= i < |entries| && EntryValues(entries)[i] == v;
      assert IsEntry(entries, i, v);
    case ZArray(item, _, _, _) =>
      forall i | 0 <= i < |v.items|
        ensures ZodAccepts(w, item, Some(v.items[i]))
      {
        ZodAcceptsCompiled(w, item, v.items[i]);
      }
    case ZObject(_, _) => ShapeExact(w, z, v.members);
    case ZRecord(_, _) => RecordExact(w, z, v);
    case ZUnion(options) =>
      var i :| 0 <= i < |options| && OnlyAt(w, Compile(z), v, i);
      ZodAcceptsCompiled(w, options[i], v);
    case ZOptional(inner) => ZodAcceptsCompiled(w, inner, v);
    case ZNullable(inner) =>
      if !v.Null? {
        OtherKeywords(w, Compile(z), Compile(inner), v);
        ZodAcceptsCompiled(w, inner, v);
      }
    case ZDefault(inner, _) =>
      OtherKeywords(w, Compile(z), Compile(inner), v);
      ZodAcceptsCompiled(w, inner, v);
    case _ =>
  }

  /** On kept and lossless schemas the compiler keeps the meaning exactly. */
  lemma MeaningKept(w: World, z: Zod, v: Value)
    requires Kept(z, true) && Lossless(w, z) && Bmp(v) && FormatsAgree(w)
    ensures ZodAccepts(w, z, Some(v)) <==> Accepts(w, Compile(z), v)
  {
    if ZodAccepts(w, z, Some(v)) {
      CompiledAccepts(w, z, v, true);
    }
    if Accepts(w, Compile(z), v) {
      ZodAcceptsCompiled(w, z, v);
    }
  }

  /* ---------- Where the compiler loses values, exactly ---------- */

  ghost predicate KeepsValues(w: World, z: Zod) {
    forall v :: ZodAccepts(w, z, Some(v)) ==> Accepts(w, Compile(z), v)
  }

  /** A least length is kept exactly up to 1: Zod counts code units, the schema counts characters. */
  lemma MinLengthKeptIff(w: World, n: nat)
    ensures KeepsValues(w, ZString([MinLength(n)])) <==> n <= 1
  {
    var z := ZString([MinLength(n)]);
    var checks := z.stringChecks;
    assert LastMin(checks) == Some(n);
    if n > 1 {
      var t := [0xD83D, 0xDE00] + seq(n - 2, _ => 0x61);
      assert IsHigh(t[0]) && IsLow(t[1]) && !PairFree(t);
      CharCountExact(t);
      ChecksAreAll(w, checks, t);
      assert ZodAccepts(w, z, Some(Str(t))) && !Accepts(w, Compile(z), Str(t));
    } else {
      forall v | ZodAccepts(w, z, Some(v))
        ensures Accepts(w, Compile(z), v)
      {
        CharCountExact(v.s);
        ChecksAreAll(w, checks, v.s);
        assert CheckHolds(w, MinLength(n), v.s);
        OnlyMinLength(n);
      }
    }
  }

  lemma OnlyMinLength(n: nat)
    ensures StringSchema([MinLength(n)]) == Schema(typ := Some(StringType), minLength := Some(n))
  {
    var checks := [MinLength(n)];
    assert checks[..|checks| - 1] == [];
    assert LastMax(checks) == None && LastRegex(checks) == None && LastFormat(checks) == None;
  }

  /** A nullable schema keeps its values exactly when its compiled form takes null. */
  lemma NullableKeptIff(w: World, inner: Zod)
    requires Kept(inner, false) && FormatsAgree(w)
    ensures KeepsValues(w, ZNullable(inner)) <==> TakesNull(Compile(ZNullable(inner)))
  {
    var z := ZNullable(inner);
    NullExact(w, Compile(z));
    if TakesNull(Compile(z)) {
      forall v | ZodAccepts(w, z, Some(v))
        ensures Accepts(w, Compile(z), v)
      {
        CompiledAccepts(w, z, v, false);
      }
    } else {
      assert ZodAccepts(w, z, Some(Null));
    }
  }

  // The schema under the wrappers.
  function Core(z: Zod): Zod {
    match z
    case ZOptional(inner) => Core(inner)
    case ZNullable(inner) => Core(inner)
    case ZDefault(inner, _) => Core(inner)
    case ZEffects(inner, _) => Core(inner)
    case ZPreprocess(inner, _) => Core(inner)
    case _ => z
  }

  /** Null is lost under enums and non-null literals, and under unions unless one branch alone takes it. */
  lemma {:induction false} NullableTakesNullIff(z: Zod)
    ensures
      TakesNull(Compile(z).(nullable := true)) <==>
        match Core(z)
        case ZEnum(_) => false
        case ZNativeEnum(entries) => exists i :: 0 <= i < |entries| && entries[i].value.Null?
        case ZLiteral(x) => x.Null?
        case ZUnion(_) => TakesNull(Compile(Core(z)))
        case _ => true
    decreases z
  {
    var n := Compile(z).(nullable := true);
    match z
    case ZOptional(inner) => NullableTakesNullIff(inner);
    case ZNullable(inner) => NullableTakesNullIff(inner);
    case ZDefault(inner, _) =>
      NullableTakesNullIff(inner);
      NullOfOtherKeywords(Compile(inner).(nullable := true), n);
    case ZEffects(inner, _) => NullableTakesNullIff(inner);
    case ZPreprocess(inner, _) => NullableTakesNullIff(inner);
    case ZUnion(options) =>
      NullOfOtherKeywords(Compile(z), n);
    case _ =>
  }

  lemma NullOfOtherKeywords(s: Schema, n: Schema)
    requires n == s.(default := n.default, nullable := n.nullable)
    requires n.nullable != s.nullable ==> s.typ.None?
    ensures TakesNull(s) <==> TakesNull(n)
  {
    assert s.branches.OneOf? ==>
      forall i :: 0 <= i < |s.branches.options| ==> (OnlyNullAt(s, i) <==> OnlyNullAt(n, i));
  }

  /** `oneOf` loses exactly the values that two branches accept. */
  lemma {:induction false} OverlapIsLost(w: World, z: Zod, v: Value)
    requires z.ZUnion? && Bmp(v) && FormatsAgree(w)
    requires forall i :: 0 <= i < |z.options| ==> Kept(z.options[i], true) && Lossless(w, z.options[i])
    ensures
      ZodAccepts(w, z, Some(v)) && !Accepts(w, Compile(z), v) <==>
        exists i, j :: 0 <= i < j < |z.options| && BothAccept(w, z, i, j, v)
  {
    forall i | 0 <= i < |z.options|
      ensures ZodAccepts(w, z.options[i], Some(v)) <==> Accepts(w, Compile(z.options[i]), v)
    {
      MeaningKept(w, z.options[i], v);
    }
    if i, j :| 0 <= i < j < |z.options| && BothAccept(w, z, i, j, v) {
      TwoBranches(w, Compile(z), v, i, j);
      assert ZodAccepts(w, z.options[i], Some(v));
    } else if ZodAccepts(w, z, Some(v)) {
      var i :| 0 <= i < |z.options| && ZodAccepts(w, z.options[i], Some(v));
      forall j | 0 <= j < |z.options| && j != i
        ensures !Accepts(w, Compile(z.options[j]), v)
      {
        assert i < j ==> !BothAccept(w, z, i, j, v);
        assert j < i ==> !BothAccept(w, z, j, i, v);
      }
      OneBranch(w, Compile(z), v, i);
    }
  }

  lemma {:induction false} TwoBranches(w: World, s: Schema, v: Value, i: nat, j: nat)
    requires s.branches.OneOf? && i < j < |s.branches.options|
    requires Accepts(w, s.branches.options[i], v) && Accepts(w, s.branches.options[j], v)
    ensures !Accepts(w, s, v)
  {
    forall k | 0 <= k < |s.branches.options|
      ensures !OnlyAt(w, s, v, k)
    {
    }
  }

  lemma {:induction false} OneBranch(w: World, s: Schema, v: Value, i: nat)
    requires s.branches.OneOf? && s == Schema(branches := s.branches) && i < |s.branches.options|
    requires Accepts(w, s.branches.options[i], v)
    requires forall j :: 0 <= j < |s.branches.options| && j != i ==> !Accepts(w, s.branches.options[j], v)
    ensures Accepts(w, s, v)
  {
    assert OnlyAt(w, s, v, i);
  }

  ghost predicate BothAccept(w: World, z: Zod, i: nat, j: nat, v: Value)
    requires z.ZUnion? && i < |z.options| && j < |z.options|
  {
    ZodAccepts(w, z.options[i], Some(v)) && ZodAccepts(w, z.options[j], Some(v))
  }

  /** A native enum keeps its values exactly when they all have the type of the first one listed. */
  lemma NativeEnumKeptIff(w: World, entries: seq<EnumEntry>)
    ensures KeepsValues(w, ZNativeEnum(entries)) <==> EnumIsOneType(entries)
  {
    var z := ZNativeEnum(entries);
    if KeepsValues(w, z) {
      forall i | 0 <= i < |entries| && IsEnumValue(entries, entries[i].value)
        ensures HasType(entries[i].value, EnumType(entries))
      {
        assert IsEntry(entries, i, entries[i].value);
        assert Accepts(w, Compile(z), entries[i].value);
      }
    }
    if EnumIsOneType(entries) {
      forall v | ZodAccepts(w, z, Some(v))
        ensures Accepts(w, Compile(z), v)
      {
        var i :| 0 <= i < |entries| && IsEntry(entries, i, v);
        assert EntryValues(entries)[i] == v;
      }
    }
  }

  /** Of the literals only null is lost: its `typeof` is "object". */
  lemma LiteralKeptIff(w: World, x: Value)
    ensures KeepsValues(w, ZLiteral(x)) <==> !x.Null?
  {
    if x.Null? {
      assert ZodAccepts(w, ZLiteral(x), Some(Null)) && !Accepts(w, Compile(ZLiteral(x)), Null);
    }
  }

  /** A property that takes `undefined` is lost unless the optional or the default is outermost. */
  lemma PropertyKeptIff(w: World, p: ZodProperty)
    requires Kept(p.schema, false) && FormatsAgree(w)
    ensures
      KeepsValues(w, ZObject([p], Strip)) <==> (ZodAccepts(w, p.schema, None) ==> MayBeLeftOut(p.schema))
  {
    var z := ZObject([p], Strip);
    var s := Compile(z);
    RequiredExact(z.shape, p.key);
    assert MustBe(z.shape, 0, p.key) <==> !MayBeLeftOut(p.schema);
    if ZodAccepts(w, p.schema, None) && !MayBeLeftOut(p.schema) {
      assert Property([], p.key) == None;
      assert ShapeAccepts(w, z, []);
      assert ZodAccepts(w, z, Some(Obj([])));
      assert !Accepts(w, s, Obj([]));
    } else {
      forall v | ZodAccepts(w, z, Some(v))
        ensures Accepts(w, s, v)
      {
        OnePropertyKept(w, p, v.members);
      }
    }
  }

  lemma OnePropertyKept(w: World, p: ZodProperty, members: seq<Member>)
    requires Kept(p.schema, false) && FormatsAgree(w)
    requires ZodAccepts(w, p.schema, None) ==> MayBeLeftOut(p.schema)
    requires ShapeAccepts(w, ZObject([p], Strip), members)
    ensures Accepts(w, Compile(ZObject([p], Strip)), Obj(members))
  {
    var z := ZObject([p], Strip);
    var s := Compile(z);
    assert ZodAccepts(w, z.shape[0].schema, Property(members, p.key));
    if Property(members, p.key).Some? {
      CompiledAccepts(w, p.schema, Property(members, p.key).value, false);
    }
    assert PropertyAccepts(w, s, 0, members);
    forall k | k in Required(z.shape)
      ensures Property(members, k).Some?
    {
      RequiredExact(z.shape, k);
      assert MustBe(z.shape, 0, k);
    }
  }

  /** A union of a text and one of its values rejects that value, though both branches accept it. */
  lemma OverlapExample(w: World, t: Text)
    ensures !KeepsValues(w, ZUnion([ZString([]), ZLiteral(Str(t))]))
  {
    var z := ZUnion([ZString([]), ZLiteral(Str(t))]);
    var s := Compile(z);
    assert ZodAccepts(w, z.options[0], Some(Str(t)));
    assert Accepts(w, s.branches.options[0], Str(t)) && Accepts(w, s.branches.options[1], Str(t));
    assert forall i :: 0 <= i < 2 ==> !OnlyAt(w, s, Str(t), i);
    assert ZodAccepts(w, z, Some(Str(t))) && !Accepts(w, s, Str(t));
  }
}
