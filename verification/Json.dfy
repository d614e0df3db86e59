/**
 JSON text as the engine's `JSON.stringify` writes it and `JSON.parse` reads it (RFC 8259; sections
 6.1.6.1.20, 25.5.1 and 25.5.2 of ECMA-262, 2023 edition). Strings are sequences of UTF-16 code units,
 and numbers are exact decimals.
 */
module Json {
  import opened Common

  type CodeUnit = c: int | 0 <= c < 0x1_0000

  type Text = seq<CodeUnit>

  type Digit = d: int | 0 <= d < 10

  // `Decimal(negative, digits, point)` is the number 0.d1d2d3... times ten to the power `point`.
  datatype Number = Zero | Decimal(negative: bool, digits: seq<Digit>, point: int)
  {
    // One representation for each number.
    predicate Valid() {
      Decimal? ==> digits != [] && digits[0] != 0 && digits[|digits| - 1] != 0
    }
  }

  datatype Member = Member(key: Text, value: Value)

  datatype Value =
    | Null
    | Bool(b: bool)
    | Num(n: Number)
    | Str(s: Text)
    | Arr(items: seq<Value>)
    | Obj(members: seq<Member>)
  {
    predicate Valid() {
      match this
      case Num(n) => n.Valid()
      case Arr(items) => forall i :: 0 <= i < |items| ==> items[i].Valid()
      case Obj(members) => forall i :: 0 <= i < |members| ==> members[i].value.Valid()
      case _ => true
    }
  }

  const QUOTE: CodeUnit := 0x22
  const BACKSLASH: CodeUnit := 0x5C
  const COMMA: CodeUnit := 0x2C
  const COLON: CodeUnit := 0x3A
  const MINUS: CodeUnit := 0x2D
  const PLUS: CodeUnit := 0x2B
  const POINT: CodeUnit := 0x2E
  const LOWER_E: CodeUnit := 0x65
  const UPPER_E: CodeUnit := 0x45
  const LOWER_U: CodeUnit := 0x75
  const OPEN_ARRAY: CodeUnit := 0x5B
  const CLOSE_ARRAY: CodeUnit := 0x5D
  const OPEN_OBJECT: CodeUnit := 0x7B
  const CLOSE_OBJECT: CodeUnit := 0x7D
  const NULL_TEXT: Text := [0x6E, 0x75, 0x6C, 0x6C]
  const TRUE_TEXT: Text := [0x74, 0x72, 0x75, 0x65]
  const FALSE_TEXT: Text := [0x66, 0x61, 0x6C, 0x73, 0x65]

  /* ---------- Numbers ---------- */

  function DigitChar(d: Digit): CodeUnit {
    0x30 + d
  }

  predicate IsDigit(c: CodeUnit) {
    0x30 <= c <= 0x39
  }

  function DigitChars(ds: seq<Digit>): Text {
    if ds == [] then [] else [DigitChar(ds[0])] + DigitChars(ds[1..])
  }

  function Zeros(n: nat): seq<Digit> {
    seq(n, _ => 0)
  }

  function NatDigits(n: nat): (ds: seq<Digit>)
    ensures ds != []
  {
    if n < 10 then [n] else NatDigits(n / 10) + [n % 10]
  }

  function NatValue(ds: seq<Digit>): nat {
    if ds == [] then 0 else 10 * NatValue(ds[..|ds| - 1]) + ds[|ds| - 1]
  }

  function ExponentText(e: int): Text {
    [LOWER_E, if e < 0 then MINUS else PLUS] + DigitChars(NatDigits(if e < 0 then -e else e))
  }

  // The text of a positive number, by the position of its decimal point.
  function PrintDigits(ds: seq<Digit>, n: int): Text
    requires ds != []
  {
    var k := |ds|;
    if k <= n <= 21 then DigitChars(ds + Zeros(n - k))
    else if 0 < n <= 21 then DigitChars(ds[..n]) + [POINT] + DigitChars(ds[n..])
    else if -6 < n <= 0 then [DigitChar(0), POINT] + DigitChars(Zeros(-n) + ds)
    else if k == 1 then DigitChars(ds) + ExponentText(n - 1)
    else DigitChars(ds[..1]) + [POINT] + DigitChars(ds[1..]) + ExponentText(n - 1)
  }

  function PrintNumber(x: Number): Text
    requires x.Valid()
  {
    match x
    case Zero => [DigitChar(0)]
    case Decimal(negative, digits, point) =>
      if negative then [MINUS] + PrintDigits(digits, point) else PrintDigits(digits, point)
  }

  // The longest prefix of digits.
  function TakeDigits(s: Text): (r: (seq<Digit>, Text))
    ensures |s| == |r.0| + |r.1|
  {
    if s == [] || !IsDigit(s[0]) then ([], s) else
    var (ds, rest) := TakeDigits(s[1..]);
    ([s[0] - 0x30] + ds, rest)
  }

  function DropTrailingZeros(ds: seq<Digit>): seq<Digit> {
    if ds != [] && ds[|ds| - 1] == 0 then DropTrailingZeros(ds[..|ds| - 1]) else ds
  }

  // The number 0.d1d2d3... times ten to the power `point`, in its one representation.
  function Normal(negative: bool, ds: seq<Digit>, point: int): (x: Number)
    ensures x.Valid()
  {
    if ds == [] then Zero
    else if ds[0] == 0 then Normal(negative, ds[1..], point - 1)
    else NonzeroStays(ds); Decimal(negative, DropTrailingZeros(ds), point)
  }

  lemma {:induction false} NonzeroStays(ds: seq<Digit>)
    requires ds != [] && ds[0] != 0
    ensures
      var t := DropTrailingZeros(ds);
      t != [] && t[0] == ds[0] && t[|t| - 1] != 0
  {
    if ds[|ds| - 1] == 0 {
      NonzeroStays(ds[..|ds| - 1]);
    }
  }

  // The digits before the point: a lone 0, or digits that do not start with 0.
  function TakeInteger(s: Text): (r: Option<(seq<Digit>, Text)>)
    ensures r.Some? ==> |r.value.0| > 0 && |s| == |r.value.0| + |r.value.1|
  {
    if s == [] || !IsDigit(s[0]) then None
    else if s[0] == 0x30 then Some(([0], s[1..]))
    else Some(TakeDigits(s))
  }

  function TakeFraction(s: Text): (r: Option<(seq<Digit>, Text)>)
    ensures r.Some? ==> |r.value.1| <= |s|
  {
    if s == [] || s[0] != POINT then Some(([], s)) else
    var (ds, rest) := TakeDigits(s[1..]);
    if ds == [] then None else Some((ds, rest))
  }

  function TakeExponent(s: Text): (r: Option<(int, Text)>)
    ensures r.Some? ==> |r.value.1| <= |s|
  {
    if s == [] || (s[0] != LOWER_E && s[0] != UPPER_E) then Some((0, s)) else
    var signed := |s| > 1 && (s[1] == MINUS || s[1] == PLUS);
    var (ds, rest) := TakeDigits(if signed then s[2..] else s[1..]);
    if ds == [] then None
    else
      var m: int := NatValue(ds);
      Some((if signed && s[1] == MINUS then -m else m, rest))
  }

  function ParseUnsigned(negative: bool, s: Text): (r: Option<(Number, Text)>)
    ensures r.Some? ==> |r.value.1| < |s| && r.value.0.Valid()
  {
    match TakeInteger(s)
    case None => None
    case Some((whole, s1)) =>
      match TakeFraction(s1)
      case None => None
      case Some((fraction, s2)) =>
        match TakeExponent(s2)
        case None => None
        case Some((e, s3)) => Some((Normal(negative, whole + fraction, |whole| + e), s3))
  }

  function ParseNumber(s: Text): (r: Option<(Number, Text)>)
    ensures r.Some? ==> |r.value.1| < |s| && r.value.0.Valid()
  {
    if s != [] && s[0] == MINUS then ParseUnsigned(true, s[1..]) else ParseUnsigned(false, s)
  }

  // A text that cannot continue a number.
  predicate Stops(r: Text) {
    r == [] || !(IsDigit(r[0]) || r[0] == POINT || r[0] == LOWER_E || r[0] == UPPER_E)
  }

  predicate NoDigitNext(r: Text) {
    r == [] || !IsDigit(r[0])
  }

  lemma {:induction false} TakeDigitsExact(ds: seq<Digit>, r: Text)
    requires NoDigitNext(r)
    ensures TakeDigits(DigitChars(ds) + r) == (ds, r)
  {
    if ds == [] {
      assert DigitChars(ds) + r == r;
    } else {
      assert (DigitChars(ds) + r)[1..] == DigitChars(ds[1..]) + r;
      TakeDigitsExact(ds[1..], r);
      assert [ds[0]] + ds[1..] == ds;
    }
  }

  lemma {:induction false} NatRoundTrip(n: nat)
    ensures NatValue(NatDigits(n)) == n
  {
    if n >= 10 {
      NatRoundTrip(n / 10);
      assert NatDigits(n)[..|NatDigits(n)| - 1] == NatDigits(n / 10);
    } else {
      assert NatDigits(n)[..0] == [];
    }
  }

  lemma ExponentRoundTrip(e: int, r: Text)
    requires Stops(r)
    ensures TakeExponent(ExponentText(e) + r) == Some((e, r))
  {
    var m := if e < 0 then -e else e;
    var s := ExponentText(e) + r;
    assert s[2..] == DigitChars(NatDigits(m)) + r;
    TakeDigitsExact(NatDigits(m), r);
    NatRoundTrip(m);
  }

  lemma NoExponent(r: Text)
    requires Stops(r)
    ensures TakeExponent(r) == Some((0, r)) && TakeFraction(r) == Some(([], r))
  {
  }

  lemma FractionExact(ds: seq<Digit>, r: Text)
    requires ds != [] && NoDigitNext(r)
    ensures TakeFraction([POINT] + DigitChars(ds) + r) == Some((ds, r))
  {
    TakeDigitsExact(ds, r);
    hide TakeDigits, DigitChars;
    AfterPoint(DigitChars(ds), r, ds);
  }

  lemma AfterPoint(digits: Text, r: Text, ds: seq<Digit>)
    requires TakeDigits(digits + r) == (ds, r) && ds != []
    ensures TakeFraction([POINT] + digits + r) == Some((ds, r))
  {
    hide TakeDigits;
    var s := [POINT] + digits + r;
    assert s[0] == POINT && s[1..] == digits + r;
  }

  lemma {:induction false} IntegerExact(ds: seq<Digit>, r: Text)
    requires ds != [] && NoDigitNext(r) && ds[0] != 0
    ensures TakeInteger(DigitChars(ds) + r) == Some((ds, r))
  {
    TakeDigitsExact(ds, r);
  }

  lemma {:induction false} DropAppendedZeros(ds: seq<Digit>, n: nat)
    requires ds != [] && ds[|ds| - 1] != 0
    ensures DropTrailingZeros(ds + Zeros(n)) == ds
    decreases n
  {
    if n == 0 {
      assert ds + Zeros(0) == ds;
    } else {
      assert (ds + Zeros(n))[..|ds| + n - 1] == ds + Zeros(n - 1);
      DropAppendedZeros(ds, n - 1);
    }
  }

  lemma SkipLeadingZeros(negative: bool, n: nat, ds: seq<Digit>, point: int)
    ensures Normal(negative, Zeros(n) + ds, point) == Normal(negative, ds, point - n)
    decreases n
  {
    if n == 0 {
      assert Zeros(0) + ds == ds;
    } else {
      assert (Zeros(n) + ds)[1..] == Zeros(n - 1) + ds;
      SkipLeadingZeros(negative, n - 1, ds, point - 1);
    }
  }

  lemma NormalIsIdentity(x: Number, n: nat)
    requires x.Valid() && x.Decimal?
    ensures Normal(x.negative, x.digits + Zeros(n), x.point) == x
  {
    DropAppendedZeros(x.digits, n);
  }

  // The text of a number whose parts are read as given.
  lemma PartsRoundTrip(x: Number, s: Text, whole: seq<Digit>, s1: Text, fraction: seq<Digit>, s2: Text, e: int, r: Text)
    requires x.Valid() && whole != []
    requires TakeInteger(s) == Some((whole, s1)) && TakeFraction(s1) == Some((fraction, s2)) &&
      TakeExponent(s2) == Some((e, r))
    requires x.Decimal? && Normal(x.negative, whole + fraction, |whole| + e) == x
    ensures ParseUnsigned(x.negative, s) == Some((x, r))
  {
    hide TakeInteger, TakeFraction, TakeExponent, Normal;
  }

  lemma WholeRoundTrip(x: Number, r: Text)
    requires x.Valid() && x.Decimal? && Stops(r) && |x.digits| <= x.point <= 21
    ensures ParseUnsigned(x.negative, PrintDigits(x.digits, x.point) + r) == Some((x, r))
  {
    hide TakeInteger, TakeFraction, TakeExponent, Normal, DigitChars;
    var whole := x.digits + Zeros(x.point - |x.digits|);
    IntegerExact(whole, r);
    NoExponent(r);
    NormalIsIdentity(x, x.point - |x.digits|);
    assert whole + [] == whole;
    PartsRoundTrip(x, DigitChars(whole) + r, whole, r, [], r, 0, r);
  }

  lemma FixedRoundTrip(x: Number, r: Text)
    requires x.Valid() && x.Decimal? && Stops(r) && 0 < x.point <= 21 && x.point < |x.digits|
    ensures ParseUnsigned(x.negative, PrintDigits(x.digits, x.point) + r) == Some((x, r))
  {
    hide TakeInteger, TakeFraction, TakeExponent, Normal, DigitChars;
    var ds, n := x.digits, x.point;
    var tail := [POINT] + DigitChars(ds[n..]) + r;
    assert PrintDigits(ds, n) == DigitChars(ds[..n]) + [POINT] + DigitChars(ds[n..]);
    hide PrintDigits;
    assert PrintDigits(ds, n) + r == DigitChars(ds[..n]) + tail;
    IntegerExact(ds[..n], tail);
    FractionExact(ds[n..], r);
    NoExponent(r);
    NormalIsIdentity(x, 0);
    assert ds[..n] + ds[n..] == ds + Zeros(0);
    PartsRoundTrip(x, DigitChars(ds[..n]) + tail, ds[..n], tail, ds[n..], r, 0, r);
  }

  lemma LeadingZero(tail: Text)
    ensures TakeInteger([DigitChar(0)] + tail) == Some(([0], tail))
  {
    assert ([DigitChar(0)] + tail)[1..] == tail;
  }

  lemma SmallNormal(x: Number)
    requires x.Valid() && x.Decimal? && x.point <= 0
    ensures Normal(x.negative, [0] + (Zeros(-x.point) + x.digits), 1) == x
  {
    assert [0] + (Zeros(-x.point) + x.digits) == Zeros(1 - x.point) + x.digits;
    SkipLeadingZeros(x.negative, 1 - x.point, x.digits, 1);
    assert x.digits + Zeros(0) == x.digits;
    NormalIsIdentity(x, 0);
  }

  lemma SameTail(a: Text, x: Text, y: Text)
    ensures a + x == a + y <==> x == y
  {
    if a + x == a + y {
      assert x == (a + x)[|a|..] && y == (a + y)[|a|..];
    }
  }

  lemma Regroup(a: Text, b: Text, c: Text, d: Text)
    ensures a + b + c + d == a + (b + c + d)
  {
  }

  lemma SmallRoundTrip(x: Number, r: Text)
    requires x.Valid() && x.Decimal? && Stops(r) && -6 < x.point <= 0
    ensures ParseUnsigned(x.negative, PrintDigits(x.digits, x.point) + r) == Some((x, r))
  {
    var fraction := Zeros(-x.point) + x.digits;
    var tail := [POINT] + DigitChars(fraction) + r;
    assert PrintDigits(x.digits, x.point) == [DigitChar(0), POINT] + DigitChars(fraction);
    hide PrintDigits, TakeInteger, TakeFraction, TakeExponent, Normal, DigitChars;
    LeadingZero(tail);
    FractionExact(fraction, r);
    NoExponent(r);
    SmallNormal(x);
    Regroup([DigitChar(0)], [POINT], DigitChars(fraction), r);
    assert [DigitChar(0)] + [POINT] == [DigitChar(0), POINT];
    PartsRoundTrip(x, [DigitChar(0)] + tail, [0], tail, fraction, r, 0, r);
  }

  lemma ScientificRoundTrip(x: Number, r: Text)
    requires x.Valid() && x.Decimal? && Stops(r)
    requires !(-6 < x.point <= 21)
    ensures ParseUnsigned(x.negative, PrintDigits(x.digits, x.point) + r) == Some((x, r))
  {
    hide TakeInteger, TakeExponent, TakeFraction, Normal, DigitChars, ExponentText, ParseUnsigned, PrintDigits;
    var ds, n := x.digits, x.point;
    var tail := ExponentText(n - 1) + r;
    ExponentRoundTrip(n - 1, r);
    ExponentStops(n - 1, r);
    NormalIsIdentity(x, 0);
    assert ds + Zeros(0) == ds;
    ScientificText(ds, n);
    if |ds| == 1 {
      OneDigit(x, tail, r);
      assert PrintDigits(ds, n) + r == DigitChars(ds) + tail;
    } else {
      ManyDigits(x, tail, r);
      Regroup(DigitChars(ds[..1]), [POINT], DigitChars(ds[1..]), tail);
      assert PrintDigits(ds, n) + r == DigitChars(ds[..1]) + [POINT] + DigitChars(ds[1..]) + tail;
    }
  }

  lemma {:induction false} ScientificText(ds: seq<Digit>, n: int)
    requires ds != [] && !(-6 < n <= 21)
    ensures |ds| == 1 ==> PrintDigits(ds, n) == DigitChars(ds) + ExponentText(n - 1)
    ensures |ds| > 1 ==>
      PrintDigits(ds, n) == DigitChars(ds[..1]) + [POINT] + DigitChars(ds[1..]) + ExponentText(n - 1)
  {
    hide DigitChars, ExponentText;
  }

  lemma {:induction false} OneDigit(x: Number, tail: Text, r: Text)
    requires x.Valid() && x.Decimal? && |x.digits| == 1
    requires NoDigitNext(tail) && TakeFraction(tail) == Some(([], tail)) && TakeExponent(tail) == Some((x.point - 1, r))
    requires Normal(x.negative, x.digits, x.point) == x
    ensures ParseUnsigned(x.negative, DigitChars(x.digits) + tail) == Some((x, r))
  {
    hide TakeInteger, TakeExponent, TakeFraction, Normal, DigitChars;
    var ds := x.digits;
    IntegerExact(ds, tail);
    assert ds + [] == ds;
    PartsRoundTrip(x, DigitChars(ds) + tail, ds, tail, [], tail, x.point - 1, r);
  }

  lemma {:induction false} ManyDigits(x: Number, tail: Text, r: Text)
    requires x.Valid() && x.Decimal? && |x.digits| > 1
    requires NoDigitNext(tail) && TakeExponent(tail) == Some((x.point - 1, r))
    requires Normal(x.negative, x.digits, x.point) == x
    ensures
      var ds := x.digits;
      ParseUnsigned(x.negative, DigitChars(ds[..1]) + ([POINT] + DigitChars(ds[1..]) + tail)) == Some((x, r))
  {
    hide TakeInteger, TakeExponent, TakeFraction, Normal, DigitChars;
    var ds := x.digits;
    var point := [POINT] + DigitChars(ds[1..]) + tail;
    IntegerExact(ds[..1], point);
    FractionExact(ds[1..], tail);
    assert ds[..1] + ds[1..] == ds;
    PartsRoundTrip(x, DigitChars(ds[..1]) + point, ds[..1], point, ds[1..], tail, x.point - 1, r);
  }

  lemma ExponentStops(e: int, r: Text)
    ensures NoDigitNext(ExponentText(e) + r) && (ExponentText(e) + r)[0] == LOWER_E
    ensures TakeFraction(ExponentText(e) + r) == Some(([], ExponentText(e) + r))
  {
    assert (ExponentText(e) + r)[0] == LOWER_E;
  }

  /** Reading a printed positive number gives it back, whichever of the notations it was printed in. */
  lemma UnsignedRoundTrip(x: Number, r: Text)
    requires x.Valid() && x.Decimal? && Stops(r)
    ensures ParseUnsigned(x.negative, PrintDigits(x.digits, x.point) + r) == Some((x, r))
  {
    hide ParseUnsigned, PrintDigits;
    if |x.digits| <= x.point <= 21 {
      WholeRoundTrip(x, r);
    } else if 0 < x.point <= 21 {
      FixedRoundTrip(x, r);
    } else if -6 < x.point <= 0 {
      SmallRoundTrip(x, r);
    } else {
      ScientificRoundTrip(x, r);
    }
  }

  lemma ZeroRoundTrip(r: Text)
    requires Stops(r)
    ensures ParseNumber(PrintNumber(Zero) + r) == Some((Zero, r))
  {
    var s := PrintNumber(Zero) + r;
    assert s[0] == 0x30 && s[1..] == r;
    assert TakeInteger(s) == Some(([0], r));
    NoExponent(r);
    assert [0] + [] == [0];
    assert Normal(false, [0], 1) == Zero;
    hide TakeInteger, TakeFraction, TakeExponent, Normal, PrintNumber;
  }

  lemma NumberRoundTrip(x: Number, r: Text)
    requires x.Valid() && Stops(r)
    ensures ParseNumber(PrintNumber(x) + r) == Some((x, r))
    ensures IsDigit(PrintNumber(x)[0]) || PrintNumber(x)[0] == MINUS
  {
    hide ParseUnsigned;
    match x
    case Zero => ZeroRoundTrip(r);
    case Decimal(negative, digits, point) =>
      UnsignedRoundTrip(x, r);
      if negative {
        assert (PrintNumber(x) + r)[1..] == PrintDigits(digits, point) + r;
      }
  }

  /* ---------- Strings ---------- */

  predicate IsHigh(c: CodeUnit) {
    0xD800 <= c < 0xDC00
  }

  predicate IsLow(c: CodeUnit) {
    0xDC00 <= c < 0xE000
  }

  function HexChar(n: int): CodeUnit
    requires 0 <= n < 16
  {
    if n < 10 then 0x30 + n else 0x57 + n
  }

  function HexValue(c: CodeUnit): Option<int> {
    if 0x30 <= c <= 0x39 then Some(c - 0x30)
    else if 0x61 <= c <= 0x66 then Some(c - 0x57)
    else if 0x41 <= c <= 0x46 then Some(c - 0x37)
    else None
  }

  function UnicodeEscape(c: CodeUnit): Text {
    [BACKSLASH, LOWER_U, HexChar(c / 0x1000), HexChar(c / 0x100 % 16), HexChar(c / 16 % 16), HexChar(c % 16)]
  }

  function EscapeUnit(c: CodeUnit): Text {
    if c == 0x08 then [BACKSLASH, 0x62]
    else if c == 0x09 then [BACKSLASH, 0x74]
    else if c == 0x0A then [BACKSLASH, 0x6E]
    else if c == 0x0C then [BACKSLASH, 0x66]
    else if c == 0x0D then [BACKSLASH, 0x72]
    else if c == QUOTE || c == BACKSLASH then [BACKSLASH, c]
    else if c < 0x20 || IsHigh(c) || IsLow(c) then UnicodeEscape(c)
    else [c]
  }

  // Surrogate pairs are written as they are, lone surrogates are escaped.
  function Escape(s: Text): Text {
    if s == [] then []
    else if |s| > 1 && IsHigh(s[0]) && IsLow(s[1]) then s[..2] + Escape(s[2..])
    else EscapeUnit(s[0]) + Escape(s[1..])
  }

  function Quote(s: Text): Text {
    [QUOTE] + Escape(s) + [QUOTE]
  }

  function Unescape(c: CodeUnit): Option<CodeUnit> {
    if c == 0x62 then Some(0x08)
    else if c == 0x74 then Some(0x09)
    else if c == 0x6E then Some(0x0A)
    else if c == 0x66 then Some(0x0C)
    else if c == 0x72 then Some(0x0D)
    else if c == QUOTE || c == BACKSLASH || c == 0x2F then Some(c)
    else None
  }

  function HexUnit(s: Text): Option<CodeUnit>
    requires |s| >= 4
  {
    match (HexValue(s[0]), HexValue(s[1]), HexValue(s[2]), HexValue(s[3]))
    case (Some(a), Some(b), Some(c), Some(d)) => Some(a * 0x1000 + b * 0x100 + c * 16 + d)
    case _ => None
  }

  function Prepend(c: CodeUnit, r: Option<(Text, Text)>): Option<(Text, Text)> {
    if r.Some? then Some(([c] + r.value.0, r.value.1)) else None
  }

  // The rest of a string, up to and including its closing quote.
  function ParseChars(s: Text): (r: Option<(Text, Text)>)
    ensures r.Some? ==> |r.value.1| < |s|
  {
    if s == [] then None
    else if s[0] == QUOTE then Some(([], s[1..]))
    else if s[0] < 0x20 then None
    else if s[0] != BACKSLASH then Prepend(s[0], ParseChars(s[1..]))
    else if |s| < 2 then None
    else if s[1] == LOWER_U then
      if |s| < 6 || HexUnit(s[2..6]).None? then None
      else Prepend(HexUnit(s[2..6]).value, ParseChars(s[6..]))
    else if Unescape(s[1]).None? then None
    else Prepend(Unescape(s[1]).value, ParseChars(s[2..]))
  }

  lemma HexDigitRoundTrip(n: int)
    requires 0 <= n < 16
    ensures HexValue(HexChar(n)) == Some(n)
  {
  }

  lemma HexRoundTrip(c: CodeUnit)
    ensures HexUnit(UnicodeEscape(c)[2..6]) == Some(c)
  {
    hide HexValue, HexChar;
    var a, b, d, e := c / 0x1000, c / 0x100 % 16, c / 16 % 16, c % 16;
    SplitNibbles(c);
    HexDigitRoundTrip(a);
    HexDigitRoundTrip(b);
    HexDigitRoundTrip(d);
    HexDigitRoundTrip(e);
    assert UnicodeEscape(c)[2..6] == [HexChar(a), HexChar(b), HexChar(d), HexChar(e)];
  }

  lemma SplitNibbles(c: CodeUnit)
    ensures c == c / 0x1000 * 0x1000 + c / 0x100 % 16 * 0x100 + c / 16 % 16 * 16 + c % 16
    ensures c / 0x1000 < 16
  {
    assert c / 0x1000 == c / 0x100 / 16 && c / 0x100 == c / 16 / 16;
  }

  lemma UnitRoundTrip(c: CodeUnit, t: Text)
    ensures ParseChars(EscapeUnit(c) + t) == Prepend(c, ParseChars(t))
  {
    var e := EscapeUnit(c);
    var s := e + t;
    assert s[|e|..] == t;
    if e == UnicodeEscape(c) {
      HexRoundTrip(c);
      assert s[2..6] == e[2..6];
    }
  }

  lemma PairRoundTrip(a: CodeUnit, b: CodeUnit, t: Text)
    requires IsHigh(a) && IsLow(b)
    ensures ParseChars([a, b] + t) == Prepend(a, Prepend(b, ParseChars(t)))
  {
    assert ([a, b] + t)[1..] == [b] + t;
    assert ([b] + t)[1..] == t;
  }

  lemma {:induction false} CharsRoundTrip(s: Text, r: Text)
    ensures ParseChars(Escape(s) + [QUOTE] + r) == Some((s, r))
  {
    if s == [] {
      assert Escape(s) + [QUOTE] + r == [QUOTE] + r;
      assert ([QUOTE] + r)[1..] == r;
    } else if |s| > 1 && IsHigh(s[0]) && IsLow(s[1]) {
      assert Escape(s) == [s[0], s[1]] + Escape(s[2..]);
      hide ParseChars, Escape;
      CharsRoundTrip(s[2..], r);
      AfterPair(s[0], s[1], Escape(s[2..]), s[2..], r);
      assert [s[0], s[1]] + s[2..] == s;
    } else {
      assert Escape(s) == EscapeUnit(s[0]) + Escape(s[1..]);
      hide ParseChars, Escape;
      CharsRoundTrip(s[1..], r);
      AfterUnit(s[0], Escape(s[1..]), s[1..], r);
      assert [s[0]] + s[1..] == s;
    }
  }

  lemma AfterPair(a: CodeUnit, b: CodeUnit, escaped: Text, s: Text, r: Text)
    requires IsHigh(a) && IsLow(b) && ParseChars(escaped + [QUOTE] + r) == Some((s, r))
    ensures ParseChars([a, b] + escaped + [QUOTE] + r) == Some(([a, b] + s, r))
  {
    hide ParseChars;
    PairRoundTrip(a, b, escaped + [QUOTE] + r);
    assert [a, b] + escaped + [QUOTE] + r == [a, b] + (escaped + [QUOTE] + r);
    assert [a] + ([b] + s) == [a, b] + s;
  }

  lemma AfterUnit(c: CodeUnit, escaped: Text, s: Text, r: Text)
    requires ParseChars(escaped + [QUOTE] + r) == Some((s, r))
    ensures ParseChars(EscapeUnit(c) + escaped + [QUOTE] + r) == Some(([c] + s, r))
  {
    hide ParseChars, EscapeUnit;
    UnitRoundTrip(c, escaped + [QUOTE] + r);
    assert EscapeUnit(c) + escaped + [QUOTE] + r == EscapeUnit(c) + (escaped + [QUOTE] + r);
  }

  /* ---------- Values ---------- */

  function Print(v: Value): (t: Text)
    requires v.Valid()
    decreases v, 1
  {
    match v
    case Null => NULL_TEXT
    case Bool(b) => if b then TRUE_TEXT else FALSE_TEXT
    case Num(n) => PrintNumber(n)
    case Str(s) => Quote(s)
    case Arr(items) => [OPEN_ARRAY] + PrintItems(items) + [CLOSE_ARRAY]
    case Obj(members) => [OPEN_OBJECT] + PrintMembers(members) + [CLOSE_OBJECT]
  }

  function PrintItems(items: seq<Value>): Text
    requires forall i :: 0 <= i < |items| ==> items[i].Valid()
    decreases items, 0
  {
    if items == [] then []
    else if |items| == 1 then Print(items[0])
    else Print(items[0]) + [COMMA] + PrintItems(items[1..])
  }

  function PrintMembers(members: seq<Member>): Text
    requires forall i :: 0 <= i < |members| ==> members[i].value.Valid()
    decreases members, 0
  {
    if members == [] then []
    else
      var first := Quote(members[0].key) + [COLON] + Print(members[0].value);
      if |members| == 1 then first else first + [COMMA] + PrintMembers(members[1..])
  }

  predicate IsSpace(c: CodeUnit) {
    c == 0x20 || c == 0x09 || c == 0x0A || c == 0x0D
  }

  function SkipSpace(s: Text): (r: Text)
    ensures |r| <= |s|
  {
    if s != [] && IsSpace(s[0]) then SkipSpace(s[1..]) else s
  }

  function ParseValue(t: Text): (r: Option<(Value, Text)>)
    ensures r.Some? ==> |r.value.1| < |t|
    decreases |t|, 1
  {
    var s := SkipSpace(t);
    if s == [] then None
    else if NULL_TEXT <= s then Some((Null, s[4..]))
    else if TRUE_TEXT <= s then Some((Bool(true), s[4..]))
    else if FALSE_TEXT <= s then Some((Bool(false), s[5..]))
    else if s[0] == QUOTE then
      match ParseChars(s[1..])
      case None => None
      case Some((chars, rest)) => Some((Str(chars), rest))
    else if s[0] == OPEN_ARRAY then
      var inner := SkipSpace(s[1..]);
      if inner != [] && inner[0] == CLOSE_ARRAY then Some((Arr([]), inner[1..])) else
      match ParseItems(inner)
      case None => None
      case Some((items, rest)) => Some((Arr(items), rest))
    else if s[0] == OPEN_OBJECT then
      var inner := SkipSpace(s[1..]);
      if inner != [] && inner[0] == CLOSE_OBJECT then Some((Obj([]), inner[1..])) else
      match ParseMembers(inner)
      case None => None
      case Some((members, rest)) => Some((Obj(members), rest))
    else
      match ParseNumber(s)
      case None => None
      case Some((n, rest)) => Some((Num(n), rest))
  }

  // One or more items, up to and including the closing bracket.
  function ParseItems(s: Text): (r: Option<(seq<Value>, Text)>)
    ensures r.Some? ==> |r.value.1| < |s|
    decreases |s|, 2
  {
    match ParseValue(s)
    case None => None
    case Some((v, after)) =>
      var rest := SkipSpace(after);
      if rest == [] then None
      else if rest[0] == CLOSE_ARRAY then Some(([v], rest[1..]))
      else if rest[0] != COMMA then None
      else
        match ParseItems(rest[1..])
        case None => None
        case Some((vs, end)) => Some(([v] + vs, end))
  }

  // One key and its value.
  function ParseMember(t: Text): (r: Option<(Member, Text)>)
    ensures r.Some? ==> |r.value.1| < |t|
    decreases |t|, 2
  {
    var s := SkipSpace(t);
    if s == [] || s[0] != QUOTE then None else
    match ParseChars(s[1..])
    case None => None
    case Some((key, after)) =>
      var rest := SkipSpace(after);
      if rest == [] || rest[0] != COLON then None else
      match ParseValue(rest[1..])
      case None => None
      case Some((v, end)) => Some((Member(key, v), end))
  }

  // One or more members, up to and including the closing brace.
  function ParseMembers(s: Text): (r: Option<(seq<Member>, Text)>)
    ensures r.Some? ==> |r.value.1| < |s|
    decreases |s|, 3
  {
    match ParseMember(s)
    case None => None
    case Some((m, after)) =>
      var rest := SkipSpace(after);
      if rest == [] then None
      else if rest[0] == CLOSE_OBJECT then Some(([m], rest[1..]))
      else if rest[0] != COMMA then None
      else
        match ParseMembers(rest[1..])
        case None => None
        case Some((ms, end)) => Some(([m] + ms, end))
  }

  // `JSON.parse`.
  function Parse(s: Text): Option<Value> {
    match ParseValue(s)
    case None => None
    case Some((v, rest)) => if SkipSpace(rest) == [] then Some(v) else None
  }

  /* ---------- Round trip ---------- */

  // How a printed value begins.
  predicate Starts(c: CodeUnit) {
    || c == QUOTE || c == OPEN_ARRAY || c == OPEN_OBJECT || c == MINUS || IsDigit(c)
    || c == NULL_TEXT[0] || c == TRUE_TEXT[0] || c == FALSE_TEXT[0]
  }

  lemma PrintStarts(v: Value)
    requires v.Valid()
    ensures Print(v) != [] && Starts(Print(v)[0])
  {
    if v.Num? {
      NumberRoundTrip(v.n, []);
    }
  }

  lemma ScalarRoundTrip(v: Value, r: Text)
    requires v.Valid() && Stops(r) && !v.Arr? && !v.Obj?
    ensures ParseValue(Print(v) + r) == Some((v, r))
  {
    hide ParseItems, ParseMembers, PrintNumber, ParseNumber;
    var s := Print(v) + r;
    match v
    case Null => assert s[4..] == r;
    case Bool(b) => assert s[if b then 4 else 5..] == r;
    case Num(n) =>
      NumberRoundTrip(n, r);
      assert s[0] == PrintNumber(n)[0];
    case Str(chars) =>
      assert s[1..] == Escape(chars) + [QUOTE] + r;
      CharsRoundTrip(chars, r);
  }

  lemma {:induction false} OpenArray(inner: Text, items: seq<Value>, r: Text)
    requires inner != [] && Starts(inner[0]) && ParseItems(inner) == Some((items, r))
    ensures ParseValue([OPEN_ARRAY] + inner) == Some((Arr(items), r))
  {
    hide ParseItems, ParseMembers, ParseNumber, ParseChars;
    var s := [OPEN_ARRAY] + inner;
    assert SkipSpace(s) == s && s[1..] == inner && SkipSpace(inner) == inner;
    hide SkipSpace;
    assert !(NULL_TEXT <= s) && !(TRUE_TEXT <= s) && !(FALSE_TEXT <= s) && s[0] != QUOTE;
  }

  lemma {:induction false} OpenObject(inner: Text, members: seq<Member>, r: Text)
    requires inner != [] && inner[0] == QUOTE && ParseMembers(inner) == Some((members, r))
    ensures ParseValue([OPEN_OBJECT] + inner) == Some((Obj(members), r))
  {
    hide ParseItems, ParseMembers, ParseNumber, ParseChars;
    var s := [OPEN_OBJECT] + inner;
    assert SkipSpace(s) == s && s[1..] == inner && SkipSpace(inner) == inner;
    hide SkipSpace;
    assert !(NULL_TEXT <= s) && !(TRUE_TEXT <= s) && !(FALSE_TEXT <= s) && s[0] != QUOTE && s[0] != OPEN_ARRAY;
  }

  lemma {:induction false} ArrayText(items: seq<Value>, r: Text)
    requires Arr(items).Valid() && items != []
    ensures
      var inner := PrintItems(items) + [CLOSE_ARRAY] + r;
      inner != [] && Starts(inner[0]) && Print(Arr(items)) + r == [OPEN_ARRAY] + inner
  {
    PrintStarts(items[0]);
    var inner := PrintItems(items) + [CLOSE_ARRAY] + r;
    assert inner[0] == Print(items[0])[0];
  }

  lemma {:induction false} ObjectText(members: seq<Member>, r: Text)
    requires Obj(members).Valid() && members != []
    ensures
      var inner := PrintMembers(members) + [CLOSE_OBJECT] + r;
      inner != [] && inner[0] == QUOTE && Print(Obj(members)) + r == [OPEN_OBJECT] + inner
  {
    assert (PrintMembers(members) + [CLOSE_OBJECT] + r)[0] == QUOTE;
  }

  lemma EmptyRoundTrip(r: Text)
    ensures ParseValue(Print(Arr([])) + r) == Some((Arr([]), r))
    ensures ParseValue(Print(Obj([])) + r) == Some((Obj([]), r))
  {
    var a, o := Print(Arr([])) + r, Print(Obj([])) + r;
    assert a[1..] == [CLOSE_ARRAY] + r && a[1..][1..] == r;
    assert o[1..] == [CLOSE_OBJECT] + r && o[1..][1..] == r;
  }

  // What an array or object reads after one of its parts.
  lemma NextItem(v: Value, s: Text, tail: Text, vs: seq<Value>, r: Text)
    requires ParseValue(s) == Some((v, [COMMA] + tail)) && ParseItems(tail) == Some((vs, r))
    ensures ParseItems(s) == Some(([v] + vs, r))
  {
    assert ([COMMA] + tail)[1..] == tail;
  }

  lemma LastItem(v: Value, s: Text, r: Text)
    requires ParseValue(s) == Some((v, [CLOSE_ARRAY] + r))
    ensures ParseItems(s) == Some(([v], r))
  {
    assert ([CLOSE_ARRAY] + r)[1..] == r;
  }

  lemma NextMember(m: Member, s: Text, tail: Text, ms: seq<Member>, r: Text)
    requires ParseMember(s) == Some((m, [COMMA] + tail)) && ParseMembers(tail) == Some((ms, r))
    ensures ParseMembers(s) == Some(([m] + ms, r))
  {
    assert ([COMMA] + tail)[1..] == tail;
  }

  lemma LastMember(m: Member, s: Text, r: Text)
    requires ParseMember(s) == Some((m, [CLOSE_OBJECT] + r))
    ensures ParseMembers(s) == Some(([m], r))
  {
    assert ([CLOSE_OBJECT] + r)[1..] == r;
  }

  lemma MemberFromParts(key: Text, v: Value, tail: Text, r: Text)
    requires ParseValue(tail) == Some((v, r))
    ensures ParseMember(Quote(key) + [COLON] + tail) == Some((Member(key, v), r))
  {
    hide ParseValue, ParseChars, Escape;
    var s := Quote(key) + [COLON] + tail;
    assert s[1..] == Escape(key) + [QUOTE] + ([COLON] + tail);
    CharsRoundTrip(key, [COLON] + tail);
    assert ([COLON] + tail)[1..] == tail;
  }

  /** `JSON.parse` reads back what `JSON.stringify` wrote, and stops where it ended. */
  lemma {:induction false} ValueRoundTrip(v: Value, r: Text)
    requires v.Valid() && Stops(r)
    ensures ParseValue(Print(v) + r) == Some((v, r))
    decreases v, 1
  {
    hide ParseValue, ParseItems, ParseMembers, Print, PrintItems, PrintMembers, Starts;
    match v
    case Arr(items) =>
      if items == [] {
        EmptyRoundTrip(r);
      } else {
        ItemsRoundTrip(items, r);
        ArrayText(items, r);
        OpenArray(PrintItems(items) + [CLOSE_ARRAY] + r, items, r);
      }
    case Obj(members) =>
      if members == [] {
        EmptyRoundTrip(r);
      } else {
        MembersRoundTrip(members, r);
        ObjectText(members, r);
        OpenObject(PrintMembers(members) + [CLOSE_OBJECT] + r, members, r);
      }
    case _ => ScalarRoundTrip(v, r);
  }

  lemma {:induction false} ItemsRoundTrip(items: seq<Value>, r: Text)
    requires items != [] && forall i :: 0 <= i < |items| ==> items[i].Valid()
    ensures ParseItems(PrintItems(items) + [CLOSE_ARRAY] + r) == Some((items, r))
    decreases items, 0
  {
    hide ParseValue, Print, ParseItems;
    var s := PrintItems(items) + [CLOSE_ARRAY] + r;
    if |items| == 1 {
      assert s == Print(items[0]) + ([CLOSE_ARRAY] + r);
      ValueRoundTrip(items[0], [CLOSE_ARRAY] + r);
      LastItem(items[0], s, r);
      assert [items[0]] == items;
    } else {
      var tail := PrintItems(items[1..]) + [CLOSE_ARRAY] + r;
      assert s == Print(items[0]) + ([COMMA] + tail);
      ValueRoundTrip(items[0], [COMMA] + tail);
      ItemsRoundTrip(items[1..], r);
      NextItem(items[0], s, tail, items[1..], r);
      assert [items[0]] + items[1..] == items;
    }
  }

  lemma {:induction false} MembersRoundTrip(members: seq<Member>, r: Text)
    requires members != [] && forall i :: 0 <= i < |members| ==> members[i].value.Valid()
    ensures ParseMembers(PrintMembers(members) + [CLOSE_OBJECT] + r) == Some((members, r))
    decreases members, 0
  {
    hide ParseValue, Print, ParseMembers, ParseMember, Quote;
    var m := members[0];
    var s := PrintMembers(members) + [CLOSE_OBJECT] + r;
    if |members| == 1 {
      var tail := [CLOSE_OBJECT] + r;
      assert s == Quote(m.key) + [COLON] + (Print(m.value) + tail);
      ValueRoundTrip(m.value, tail);
      MemberFromParts(m.key, m.value, Print(m.value) + tail, tail);
      LastMember(m, s, r);
      assert [m] == members;
    } else {
      var tail := PrintMembers(members[1..]) + [CLOSE_OBJECT] + r;
      assert s == Quote(m.key) + [COLON] + (Print(m.value) + ([COMMA] + tail));
      ValueRoundTrip(m.value, [COMMA] + tail);
      MemberFromParts(m.key, m.value, Print(m.value) + ([COMMA] + tail), [COMMA] + tail);
      MembersRoundTrip(members[1..], r);
      NextMember(m, s, tail, members[1..], r);
      assert [m] + members[1..] == members;
    }
  }

  lemma RoundTrip(v: Value)
    requires v.Valid()
    ensures Parse(Print(v)) == Some(v)
  {
    ValueRoundTrip(v, []);
    assert Print(v) + [] == Print(v);
  }

  /** Two texts that go on after a printed value in the same way are the same from the value on. */
  lemma PrintIsPrefixFree(v: Value, r: Text, w: Value, q: Text)
    requires v.Valid() && w.Valid() && Stops(r) && Stops(q)
    requires Print(v) + r == Print(w) + q
    ensures v == w && r == q
  {
    ValueRoundTrip(v, r);
    ValueRoundTrip(w, q);
  }

  /* ---------- Properties ---------- */

  // The property of a parsed object: of two members with one name, the later counts.
  function Property(members: seq<Member>, key: Text): Option<Value> {
    if members == [] then None
    else
      var last := members[|members| - 1];
      if last.key == key then Some(last.value) else Property(members[..|members| - 1], key)
  }
}
