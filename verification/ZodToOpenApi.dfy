/**
 The compiler from Zod schemas to OpenAPI schemas (src/validation/openapi/zod-to-openapi.ts), with what
 each side accepts: Zod 3 on parsed JSON, and the Schema Object of the OpenAPI Specification 3.0.3
 (section 4.7.24), which builds on JSON Schema.
 */
module ZodToOpenApi {
  import opened Common
  import opened Json

  /* ---------- Zod schemas ---------- */

  datatype Format = EmailFormat | UriFormat | UuidFormat | DateTimeFormat

  // `Other` stands for the checks the compiler has no keyword for, `Rewrite` for trim and its like.
  datatype StringCheck =
    | MinLength(n: nat)
    | MaxLength(n: nat)
    | Regex(source: Text, flags: Text)
    | Formatted(format: Format)
    | Other(name: Text)
    | Rewrite(name: Text)

  datatype NumberCheck =
    | AtLeast(bound: Number, inclusive: bool)
    | AtMost(bound: Number, inclusive: bool)
    | WholeNumber
    | OtherNumber(name: Text)

  datatype EnumEntry = EnumEntry(key: Text, value: Value)

  datatype ZodProperty = ZodProperty(key: Text, schema: Zod)

  datatype UnknownKeys = Strip | Passthrough | Strict | Catchall(schema: Zod)

  // `Fallback` stands for the kinds the compiler does not know. Coercion is a preprocessing step.
  datatype Zod =
    | ZString(stringChecks: seq<StringCheck>)
    | ZNumber(numberChecks: seq<NumberCheck>)
    | ZBoolean
    | ZDate
    | ZEnum(names: seq<Text>)
    | ZNativeEnum(entries: seq<EnumEntry>)
    | ZLiteral(literal: Value)
    | ZArray(item: Zod, minItems: Option<nat>, maxItems: Option<nat>, exactly: Option<nat>)
    | ZObject(shape: seq<ZodProperty>, unknownKeys: UnknownKeys)
    | ZRecord(keys: Zod, values: Zod)
    | ZUnion(options: seq<Zod>)
    | ZOptional(inner: Zod)
    | ZNullable(inner: Zod)
    | ZDefault(inner: Zod, default: Value)
    | ZEffects(inner: Zod, effect: Text)
    | ZPreprocess(inner: Zod, effect: Text)
    | ZFallback(kind: Text)

  // What the code cannot see: regular expressions, formats, and the functions users pass in.
  // None stands for `undefined`.
  datatype World = World(
    matches: (Text, Text, Text) -> bool,
    zodFormat: (Format, Text) -> bool,
    schemaFormat: (Format, Text) -> bool,
    stringCheck: (Text, Text) -> bool,
    rewrite: (Text, Text) -> Text,
    numberCheck: (Text, Number) -> bool,
    effect: (Text, Option<Value>) -> bool,
    preprocess: (Text, Option<Value>) -> Option<Value>,
    fallback: (Text, Option<Value>) -> bool)

  // A text that passes a check of Zod has the format of that name.
  ghost predicate FormatsAgree(w: World) {
    forall f, t :: w.zodFormat(f, t) ==> w.schemaFormat(f, t)
  }

  /* ---------- Numbers, texts and members ---------- */

  function Pow10(n: nat): nat {
    if n == 0 then 1 else 10 * Pow10(n - 1)
  }

  function ExponentOf(x: Number): int {
    if x.Zero? then 0 else x.point - |x.digits|
  }

  // The number as a multiple of ten to the power `e`.
  function Scaled(x: Number, e: int): int
    requires e <= ExponentOf(x)
  {
    if x.Zero? then 0
    else (if x.negative then -1 else 1) * NatValue(x.digits) * Pow10(ExponentOf(x) - e)
  }

  predicate NotAbove(x: Number, y: Number) {
    var e := Min(ExponentOf(x), ExponentOf(y));
    Scaled(x, e) <= Scaled(y, e)
  }

  predicate IsWhole(x: Number) {
    x.Zero? || x.point >= |x.digits|
  }

  // JSON Schema counts characters, so a surrogate pair counts once.
  function CharCount(t: Text): (n: nat)
    ensures n <= |t|
  {
    if t == [] then 0
    else if |t| > 1 && IsHigh(t[0]) && IsLow(t[1]) then 1 + CharCount(t[2..])
    else 1 + CharCount(t[1..])
  }

  lemma PropertyIsMember(members: seq<Member>, key: Text)
    requires Property(members, key).Some?
    ensures Property(members, key).value < Obj(members)
    ensures Member(key, Property(members, key).value) in members
    decreases |members|
  {
    var n := |members| - 1;
    if members[n].key == key {
      assert members[n] in members;
    } else {
      PropertyIsMember(members[..n], key);
      var m := Member(key, Property(members[..n], key).value);
      assert m in members;
      assert m.value < Obj(members);
    }
  }

  /* ---------- What Zod accepts ---------- */

  predicate CheckHolds(w: World, c: StringCheck, t: Text) {
    match c
    case MinLength(n) => |t| >= n
    case MaxLength(n) => |t| <= n
    case Regex(source, flags) => w.matches(source, flags, t)
    case Formatted(f) => w.zodFormat(f, t)
    case Other(name) => w.stringCheck(name, t)
    case Rewrite(_) => true
  }

  // The checks in order; a rewrite changes the text that the later checks see.
  predicate ChecksHold(w: World, checks: seq<StringCheck>, t: Text) {
    if checks == [] then true
    else if checks[0].Rewrite? then ChecksHold(w, checks[1..], w.rewrite(checks[0].name, t))
    else CheckHolds(w, checks[0], t) && ChecksHold(w, checks[1..], t)
  }

  predicate NumberCheckHolds(w: World, c: NumberCheck, x: Number) {
    match c
    case AtLeast(b, inclusive) => if inclusive then NotAbove(b, x) else !NotAbove(x, b)
    case AtMost(b, inclusive) => if inclusive then NotAbove(x, b) else !NotAbove(b, x)
    case WholeNumber => IsWhole(x)
    case OtherNumber(name) => w.numberCheck(name, x)
  }

  // `obj[x]` for a value of a native enum.
  function EnumLookup(entries: seq<EnumEntry>, x: Value): Option<Value> {
    var key := if x.Str? then x.s else if x.Num? && x.n.Valid() then PrintNumber(x.n) else [];
    if entries == [] then None
    else if entries[0].key == key then Some(entries[0].value)
    else EnumLookup(entries[1..], x)
  }

  // The reverse mapping of a numeric enum is not a value of the enum.
  predicate IsEnumValue(entries: seq<EnumEntry>, x: Value) {
    var back := EnumLookup(entries, x);
    !(back.Some? && back.value.Num?)
  }

  ghost predicate ZodAccepts(w: World, z: Zod, v: Option<Value>)
    decreases z, 1
  {
    match z
    case ZString(checks) => v.Some? && v.value.Str? && ChecksHold(w, checks, v.value.s)
    case ZNumber(checks) => v.Some? && v.value.Num? && NumberChecksHold(w, checks, v.value.n)
    case ZBoolean => v.Some? && v.value.Bool?
    case ZDate => false // parsed JSON holds no Date
    case ZEnum(names) => v.Some? && v.value.Str? && v.value.s in names
    case ZNativeEnum(entries) => v.Some? && exists i :: 0 <= i < |entries| && IsEntry(entries, i, v.value)
    case ZLiteral(x) => v == Some(x) && !x.Arr? && !x.Obj? // compared by identity
    case ZArray(item, least, most, exactly) =>
      && v.Some? && v.value.Arr?
      && (least.Some? ==> |v.value.items| >= least.value)
      && (most.Some? ==> |v.value.items| <= most.value)
      && (exactly.Some? ==> |v.value.items| == exactly.value)
      && forall i :: 0 <= i < |v.value.items| ==> ZodAccepts(w, item, Some(v.value.items[i]))
    case ZObject(_, _) => v.Some? && v.value.Obj? && ShapeAccepts(w, z, v.value.members)
    case ZRecord(keys, values) =>
      && v.Some? && v.value.Obj?
      && forall k :: Property(v.value.members, k).Some? ==>
           ZodAccepts(w, keys, Some(Str(k))) && ZodAccepts(w, values, Property(v.value.members, k))
    case ZUnion(options) => exists i :: 0 <= i < |options| && ZodAccepts(w, options[i], v)
    case ZOptional(inner) => v.None? || ZodAccepts(w, inner, v)
    case ZNullable(inner) => v == Some(Null) || ZodAccepts(w, inner, v)
    case ZDefault(inner, d) => ZodAccepts(w, inner, if v.None? then Some(d) else v)
    case ZEffects(inner, name) => ZodAccepts(w, inner, v) && w.effect(name, v)
    case ZPreprocess(inner, name) => ZodAccepts(w, inner, w.preprocess(name, v))
    case ZFallback(kind) => w.fallback(kind, v)
  }

  ghost predicate NumberChecksHold(w: World, checks: seq<NumberCheck>, x: Number) {
    forall c :: c in checks ==> NumberCheckHolds(w, c, x)
  }

  ghost predicate IsEntry(entries: seq<EnumEntry>, i: nat, v: Value)
    requires i < |entries|
  {
    entries[i].value == v && IsEnumValue(entries, v)
  }

  ghost predicate ShapeAccepts(w: World, z: Zod, members: seq<Member>)
    requires z.ZObject?
    decreases z, 0
  {
    && (forall i :: 0 <= i < |z.shape| ==> ZodAccepts(w, z.shape[i].schema, Property(members, z.shape[i].key)))
    && (z.unknownKeys.Strict? ==> forall k :: Property(members, k).Some? ==> InShape(z.shape, k))
    && (z.unknownKeys.Catchall? ==>
          forall k :: Property(members, k).Some? && !InShape(z.shape, k) ==>
            ZodAccepts(w, z.unknownKeys.schema, Property(members, k)))
  }

  ghost predicate InShape(shape: seq<ZodProperty>, key: Text) {
    exists i :: 0 <= i < |shape| && shape[i].key == key
  }

  /* ---------- OpenAPI schemas and what they accept ---------- */

  datatype TypeName = StringType | NumberType | IntegerType | BooleanType | ArrayType | ObjectType

  datatype SchemaProperty = SchemaProperty(key: Text, schema: Schema)

  datatype Branches = NoBranches | OneOf(options: seq<Schema>)

  datatype Schema = Schema(
    typ: Option<TypeName> := None,
    nullable: bool := false,
    enum: Option<seq<Value>> := None,
    format: Option<Format> := None,
    pattern: Option<Text> := None,
    minLength: Option<nat> := None,
    maxLength: Option<nat> := None,
    minimum: Option<Number> := None,
    maximum: Option<Number> := None,
    minItems: Option<nat> := None,
    maxItems: Option<nat> := None,
    items: Option<Schema> := None,
    properties: seq<SchemaProperty> := [],
    required: Option<seq<Text>> := None,
    additionalProperties: Option<Schema> := None,
    branches: Branches := NoBranches,
    default: Option<Value> := None)

  predicate HasType(v: Value, t: TypeName) {
    match t
    case StringType => v.Str?
    case NumberType => v.Num?
    case IntegerType => v.Num? && IsWhole(v.n)
    case BooleanType => v.Bool?
    case ArrayType => v.Arr?
    case ObjectType => v.Obj?
  }

  // `nullable` adds null to the type, and only where the same schema names one.
  predicate TypeAccepts(s: Schema, v: Value) {
    s.typ.Some? ==> HasType(v, s.typ.value) || (s.nullable && v.Null?)
  }

  predicate EnumAccepts(s: Schema, v: Value) {
    s.enum.Some? ==> v in s.enum.value
  }

  predicate NumberAccepts(s: Schema, x: Number) {
    && (s.minimum.Some? ==> NotAbove(s.minimum.value, x))
    && (s.maximum.Some? ==> NotAbove(x, s.maximum.value))
  }

  predicate TextAccepts(w: World, s: Schema, t: Text) {
    && (s.minLength.Some? ==> CharCount(t) >= s.minLength.value)
    && (s.maxLength.Some? ==> CharCount(t) <= s.maxLength.value)
    && (s.pattern.Some? ==> w.matches(s.pattern.value, [], t))
    && (s.format.Some? ==> w.schemaFormat(s.format.value, t))
  }

  ghost predicate Accepts(w: World, s: Schema, v: Value)
    decreases s, 2
  {
    && TypeAccepts(s, v)
    && EnumAccepts(s, v)
    && (v.Num? ==> NumberAccepts(s, v.n))
    && (v.Str? ==> TextAccepts(w, s, v.s))
    && (v.Arr? ==> ItemsAccept(w, s, v.items))
    && (v.Obj? ==> MembersAccept(w, s, v.members))
    && (s.branches.OneOf? ==> exists i :: 0 <= i < |s.branches.options| && OnlyAt(w, s, v, i))
  }

  ghost predicate ItemsAccept(w: World, s: Schema, items: seq<Value>)
    decreases s, 1
  {
    && (s.minItems.Some? ==> |items| >= s.minItems.value)
    && (s.maxItems.Some? ==> |items| <= s.maxItems.value)
    && (s.items.Some? ==> forall i :: 0 <= i < |items| ==> Accepts(w, s.items.value, items[i]))
  }

  ghost predicate MembersAccept(w: World, s: Schema, members: seq<Member>)
    decreases s, 1
  {
    && (s.required.Some? ==> forall k :: k in s.required.value ==> Property(members, k).Some?)
    && (forall i :: 0 <= i < |s.properties| ==> PropertyAccepts(w, s, i, members))
    && (s.additionalProperties.Some? ==>
          forall k :: Property(members, k).Some? && !IsProperty(s, k) ==>
            Accepts(w, s.additionalProperties.value, Property(members, k).value))
  }

  ghost predicate PropertyAccepts(w: World, s: Schema, i: nat, members: seq<Member>)
    requires i < |s.properties|
    decreases s, 0
  {
    var m := Property(members, s.properties[i].key);
    m.Some? ==> Accepts(w, s.properties[i].schema, m.value)
  }

  ghost predicate IsProperty(s: Schema, key: Text) {
    exists i :: 0 <= i < |s.properties| && s.properties[i].key == key
  }

  // Branch `i` of `oneOf` accepts the value and no other branch does.
  ghost predicate OnlyAt(w: World, s: Schema, v: Value, i: nat)
    requires s.branches.OneOf? && i < |s.branches.options|
    decreases s, 1
  {
    && Accepts(w, s.branches.options[i], v)
    && forall j :: 0 <= j < |s.branches.options| && j != i ==> !Accepts(w, s.branches.options[j], v)
  }

  /* ---------- The compiler ---------- */

  function LastMin(checks: seq<StringCheck>): Option<nat> {
    if checks == [] then None
    else if checks[|checks| - 1].MinLength? then Some(checks[|checks| - 1].n)
    else LastMin(checks[..|checks| - 1])
  }

  function LastMax(checks: seq<StringCheck>): Option<nat> {
    if checks == [] then None
    else if checks[|checks| - 1].MaxLength? then Some(checks[|checks| - 1].n)
    else LastMax(checks[..|checks| - 1])
  }

  function LastRegex(checks: seq<StringCheck>): (r: Option<StringCheck>)
    ensures r.Some? ==> r.value.Regex? && r.value in checks
    ensures r.None? ==> forall c :: c in checks ==> !c.Regex?
  {
    if checks == [] then None
    else if checks[|checks| - 1].Regex? then Some(checks[|checks| - 1])
    else
      assert checks == checks[..|checks| - 1] + [checks[|checks| - 1]];
      LastRegex(checks[..|checks| - 1])
  }

  function LastFormat(checks: seq<StringCheck>): Option<Format> {
    if checks == [] then None
    else if checks[|checks| - 1].Formatted? then Some(checks[|checks| - 1].format)
    else LastFormat(checks[..|checks| - 1])
  }

  function StringSchema(checks: seq<StringCheck>): Schema {
    var regex := LastRegex(checks);
    Schema(
      typ := Some(StringType),
      minLength := LastMin(checks),
      maxLength := LastMax(checks),
      pattern := if regex.Some? then Some(regex.value.source) else None,
      format := LastFormat(checks))
  }

  function LastAtLeast(checks: seq<NumberCheck>): Option<Number> {
    if checks == [] then None
    else if checks[|checks| - 1].AtLeast? then Some(checks[|checks| - 1].bound)
    else LastAtLeast(checks[..|checks| - 1])
  }

  function LastAtMost(checks: seq<NumberCheck>): Option<Number> {
    if checks == [] then None
    else if checks[|checks| - 1].AtMost? then Some(checks[|checks| - 1].bound)
    else LastAtMost(checks[..|checks| - 1])
  }

  function NumberSchema(checks: seq<NumberCheck>): Schema {
    Schema(
      typ := Some(if WholeNumber in checks then IntegerType else NumberType),
      minimum := LastAtLeast(checks),
      maximum := LastAtMost(checks))
  }

  // `typeof` of a literal; null is an "object".
  function TypeOf(v: Value): TypeName {
    match v
    case Str(_) => StringType
    case Num(_) => NumberType
    case Bool(_) => BooleanType
    case _ => ObjectType
  }

  function TextValues(names: seq<Text>): (vs: seq<Value>)
    ensures |vs| == |names|
    ensures forall i :: 0 <= i < |names| ==> vs[i] == Str(names[i])
  {
    seq(|names|, i requires 0 <= i < |names| => Str(names[i]))
  }

  function EntryValues(entries: seq<EnumEntry>): (vs: seq<Value>)
    ensures |vs| == |entries|
    ensures forall i :: 0 <= i < |entries| ==> vs[i] == entries[i].value
  {
    seq(|entries|, i requires 0 <= i < |entries| => entries[i].value)
  }

  function EnumType(entries: seq<EnumEntry>): TypeName {
    if entries != [] && entries[0].value.Num? then NumberType else StringType
  }

  predicate MayBeLeftOut(z: Zod) {
    z.ZOptional? || z.ZDefault?
  }

  function Required(shape: seq<ZodProperty>): seq<Text> {
    if shape == [] then []
    else
      var n := |shape| - 1;
      Required(shape[..n]) + if MayBeLeftOut(shape[n].schema) then [] else [shape[n].key]
  }

  function Compile(z: Zod): Schema
    decreases z, 1
  {
    match z
    case ZString(checks) => StringSchema(checks)
    case ZNumber(checks) => NumberSchema(checks)
    case ZBoolean => Schema(typ := Some(BooleanType))
    case ZDate => Schema(typ := Some(StringType), format := Some(DateTimeFormat))
    case ZEnum(names) => Schema(typ := Some(StringType), enum := Some(TextValues(names)))
    case ZNativeEnum(entries) => Schema(typ := Some(EnumType(entries)), enum := Some(EntryValues(entries)))
    case ZLiteral(x) => Schema(typ := Some(TypeOf(x)), enum := Some([x]))
    case ZArray(item, least, most, _) =>
      Schema(typ := Some(ArrayType), items := Some(Compile(item)), minItems := least, maxItems := most)
    case ZObject(shape, _) =>
      var required := Required(shape);
      Schema(
        typ := Some(ObjectType),
        properties := CompileShape(shape),
        required := if required == [] then None else Some(required))
    case ZRecord(_, values) => Schema(typ := Some(ObjectType), additionalProperties := Some(Compile(values)))
    case ZUnion(options) => Schema(branches := OneOf(CompileAll(options)))
    case ZOptional(inner) => Compile(inner)
    case ZNullable(inner) => Compile(inner).(nullable := true)
    case ZDefault(inner, d) => Compile(inner).(default := Some(d))
    case ZEffects(inner, _) => Compile(inner)
    case ZPreprocess(inner, _) => Compile(inner)
    case ZFallback(_) => Schema(typ := Some(ObjectType))
  }

  function CompileAll(options: seq<Zod>): (ss: seq<Schema>)
    ensures |ss| == |options|
    ensures forall i :: 0 <= i < |options| ==> ss[i] == Compile(options[i])
    decreases options, 0
  {
    seq(|options|, i requires 0 <= i < |options| => Compile(options[i]))
  }

  function CompileShape(shape: seq<ZodProperty>): (ps: seq<SchemaProperty>)
    ensures |ps| == |shape|
    ensures forall i :: 0 <= i < |shape| ==> ps[i] == SchemaProperty(shape[i].key, Compile(shape[i].schema))
    decreases shape, 0
  {
    seq(|shape|, i requires 0 <= i < |shape| => SchemaProperty(shape[i].key, Compile(shape[i].schema)))
  }

  /** The loop over the checks of a string, each writing its keyword over the earlier ones. */
  method StringKeywords(checks: seq<StringCheck>) returns (res: Schema)
    ensures res == StringSchema(checks)
  {
    res := Schema(typ := Some(StringType));
    for i := 0 to |checks|
      invariant res == StringSchema(checks[..i])
    {
      assert checks[..i + 1][..i] == checks[..i];
      match checks[i] {
        case MinLength(n) => res := res.(minLength := Some(n));
        case MaxLength(n) => res := res.(maxLength := Some(n));
        case Regex(source, _) => res := res.(pattern := Some(source));
        case Formatted(f) => res := res.(format := Some(f));
        case _ =>
      }
    }
    assert checks[..|checks|] == checks;
  }

  method NumberKeywords(checks: seq<NumberCheck>) returns (res: Schema)
    ensures res == NumberSchema(checks)
  {
    res := Schema(typ := Some(NumberType));
    for i := 0 to |checks|
      invariant res == NumberSchema(checks[..i])
    {
      assert checks[..i + 1] == checks[..i] + [checks[i]] && checks[..i + 1][..i] == checks[..i];
      match checks[i] {
        case AtLeast(b, _) => res := res.(minimum := Some(b));
        case AtMost(b, _) => res := res.(maximum := Some(b));
        case WholeNumber => res := res.(typ := Some(IntegerType));
        case _ =>
      }
    }
    assert checks[..|checks|] == checks;
  }

  method ShapeKeywords(shape: seq<ZodProperty>) returns (properties: seq<SchemaProperty>, required: seq<Text>)
    ensures properties == CompileShape(shape) && required == Required(shape)
    decreases shape, 0
  {
    properties, required := [], [];
    for i := 0 to |shape|
      invariant properties == CompileShape(shape[..i]) && required == Required(shape[..i])
    {
      assert shape[..i + 1][..i] == shape[..i];
      var p := shape[i];
      assert p in shape;
      var s := ZodToOpenApiSchema(p.schema);
      properties := properties + [SchemaProperty(p.key, s)];
      if !p.schema.ZOptional? && !p.schema.ZDefault? {
        required := required + [p.key];
      }
    }
    assert shape[..|shape|] == shape;
  }

  method OptionSchemas(options: seq<Zod>) returns (ss: seq<Schema>)
    ensures ss == CompileAll(options)
    decreases options, 0
  {
    ss := [];
    for i := 0 to |options|
      invariant ss == CompileAll(options[..i])
    {
      var s := ZodToOpenApiSchema(options[i]);
      ss := ss + [s];
    }
    assert options[..|options|] == options;
  }

  /** The compiler as the source has it, step by step, computes `Compile`. */
  method ZodToOpenApiSchema(z: Zod) returns (res: Schema)
    ensures res == Compile(z)
    decreases z, 1
  {
    match z {
      case ZOptional(inner) => res := ZodToOpenApiSchema(inner);
      case ZNullable(inner) =>
        res := ZodToOpenApiSchema(inner);
        res := res.(nullable := true);
      case ZDefault(inner, d) =>
        res := ZodToOpenApiSchema(inner);
        res := res.(default := Some(d));
      case ZEffects(inner, _) => res := ZodToOpenApiSchema(inner);
      case ZPreprocess(inner, _) => res := ZodToOpenApiSchema(inner);
      case ZString(checks) => res := StringKeywords(checks);
      case ZNumber(checks) => res := NumberKeywords(checks);
      case ZBoolean => res := Schema(typ := Some(BooleanType));
      case ZDate => res := Schema(typ := Some(StringType), format := Some(DateTimeFormat));
      case ZEnum(names) => res := Schema(typ := Some(StringType), enum := Some(TextValues(names)));
      case ZNativeEnum(entries) =>
        res := Schema(typ := Some(EnumType(entries)), enum := Some(EntryValues(entries)));
      case ZLiteral(x) => res := Schema(typ := Some(TypeOf(x)), enum := Some([x]));
      case ZArray(item, least, most, _) =>
        var s := ZodToOpenApiSchema(item);
        res := Schema(typ := Some(ArrayType), items := Some(s));
        if least.Some? {
          res := res.(minItems := least);
        }
        if most.Some? {
          res := res.(maxItems := most);
        }
      case ZObject(shape, _) =>
        var properties, required := ShapeKeywords(shape);
        res := Schema(
          typ := Some(ObjectType),
          properties := properties,
          required := if |required| > 0 then Some(required) else None);
      case ZRecord(_, values) =>
        var s := ZodToOpenApiSchema(values);
        res := Schema(typ := Some(ObjectType), additionalProperties := Some(s));
      case ZUnion(options) =>
        var ss := OptionSchemas(options);
        res := Schema(branches := OneOf(ss));
      case ZFallback(_) => res := Schema(typ := Some(ObjectType));
    }
  }
}
