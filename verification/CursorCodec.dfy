/** Opaque pagination cursors (src/pagination/helpers/cursor.helper.ts). */
module CursorCodec {
  import opened Common
  import opened Json

  type Byte = b: int | 0 <= b < 0x100

  type Sextet = x: int | 0 <= x < 64

  const REPLACEMENT: CodeUnit := 0xFFFD
  const DOT: CodeUnit := 0x2E
  const PAD: CodeUnit := 0x3D
  const VERSION: Text := [0x76, 0x31] // v1
  const SORT_KEY: Text := [0x73] // s
  const ID_KEY: Text := [0x69] // i

  /* ---------- UTF-8 (section 3 of RFC 3629) ---------- */

  predicate IsScalar(cp: int) {
    0 <= cp < 0xD800 || 0xE000 <= cp <= 0x10FFFF
  }

  function Utf8Bytes(cp: int): seq<Byte>
    requires IsScalar(cp)
  {
    if cp < 0x80 then [cp]
    else if cp < 0x800 then [0xC0 + cp / 64, 0x80 + cp % 64]
    else if cp < 0x10000 then [0xE0 + cp / 64 / 64, 0x80 + cp / 64 % 64, 0x80 + cp % 64]
    else [0xF0 + cp / 64 / 64 / 64, 0x80 + cp / 64 / 64 % 64, 0x80 + cp / 64 % 64, 0x80 + cp % 64]
  }

  function PairValue(high: CodeUnit, low: CodeUnit): (cp: int)
    requires IsHigh(high) && IsLow(low)
    ensures IsScalar(cp) && cp >= 0x10000
  {
    0x10000 + (high - 0xD800) * 0x400 + (low - 0xDC00)
  }

  function Units(cp: int): Text
    requires IsScalar(cp)
  {
    if cp < 0x10000 then [cp] else [0xD800 + (cp - 0x10000) / 0x400, 0xDC00 + (cp - 0x10000) % 0x400]
  }

  // What `Buffer.from` writes for a text: a lone surrogate becomes the replacement character.
  function Utf8Encode(s: Text): seq<Byte> {
    if s == [] then []
    else if |s| > 1 && IsHigh(s[0]) && IsLow(s[1]) then Utf8Bytes(PairValue(s[0], s[1])) + Utf8Encode(s[2..])
    else if IsHigh(s[0]) || IsLow(s[0]) then Utf8Bytes(REPLACEMENT) + Utf8Encode(s[1..])
    else Utf8Bytes(s[0]) + Utf8Encode(s[1..])
  }

  // What must follow a first byte: how many bytes, the range of the next one, and the bits so far.
  datatype Lead = Lead(more: nat, lo: int, hi: int, bits: int)

  function LeadOf(b: Byte): Option<Lead> {
    if 0xC2 <= b <= 0xDF then Some(Lead(1, 0x80, 0xBF, b - 0xC0))
    else if 0xE0 <= b <= 0xEF then
      Some(Lead(2, if b == 0xE0 then 0xA0 else 0x80, if b == 0xED then 0x9F else 0xBF, b - 0xE0))
    else if 0xF0 <= b <= 0xF4 then
      Some(Lead(3, if b == 0xF0 then 0x90 else 0x80, if b == 0xF4 then 0x8F else 0xBF, b - 0xF0))
    else None
  }

  // The code point that `bs` goes on to spell, or None at the first byte that does not fit.
  function Continue(bs: seq<Byte>, lead: Lead): (r: (Option<int>, seq<Byte>))
    ensures |r.1| <= |bs|
    decreases lead.more
  {
    if lead.more == 0 then (Some(lead.bits), bs)
    else if bs == [] || !(lead.lo <= bs[0] <= lead.hi) then (None, bs)
    else Continue(bs[1..], Lead(lead.more - 1, 0x80, 0xBF, lead.bits * 64 + (bs[0] as int - 0x80)))
  }

  // What `toString('utf-8')` reads: every ill-formed stretch becomes the replacement character.
  function Utf8Decode(bs: seq<Byte>): Text
    decreases |bs|
  {
    if bs == [] then []
    else if bs[0] < 0x80 then [bs[0]] + Utf8Decode(bs[1..])
    else match LeadOf(bs[0])
      case None => [REPLACEMENT] + Utf8Decode(bs[1..])
      case Some(lead) =>
        var (cp, rest) := Continue(bs[1..], lead);
        (if cp.Some? && IsScalar(cp.value) then Units(cp.value) else [REPLACEMENT]) + Utf8Decode(rest)
  }

  // Every surrogate is part of a pair.
  predicate WellFormed(s: Text) {
    if s == [] then true
    else if |s| > 1 && IsHigh(s[0]) && IsLow(s[1]) then WellFormed(s[2..])
    else !IsHigh(s[0]) && !IsLow(s[0]) && WellFormed(s[1..])
  }

  lemma {:induction false} ContinueStep(b: Byte, bs: seq<Byte>, lead: Lead)
    requires lead.more > 0 && lead.lo <= b <= lead.hi
    ensures Continue([b] + bs, lead) == Continue(bs, Lead(lead.more - 1, 0x80, 0xBF, lead.bits * 64 + (b - 0x80)))
  {
    assert ([b] + bs)[1..] == bs;
  }

  lemma ScalarRoundTrip(cp: int, rest: seq<Byte>)
    requires IsScalar(cp)
    ensures Utf8Decode(Utf8Bytes(cp) + rest) == Units(cp) + Utf8Decode(rest)
  {
    var bs := Utf8Bytes(cp);
    assert (bs + rest)[1..] == bs[1..] + rest;
    if cp < 0x80 {
      assert bs[1..] + rest == rest;
    } else {
      var lead := LeadOf(bs[0]).value;
      assert Continue(bs[1..] + rest, lead) == (Some(cp), rest) by {
        BytesSpell(cp, rest);
      }
    }
  }

  lemma {:induction false} BytesSpell(cp: int, rest: seq<Byte>)
    requires IsScalar(cp) && cp >= 0x80
    ensures
      var bs := Utf8Bytes(cp);
      bs[0] >= 0x80 && LeadOf(bs[0]).Some? && Continue(bs[1..] + rest, LeadOf(bs[0]).value) == (Some(cp), rest)
  {
    var bs := Utf8Bytes(cp);
    var lead := LeadOf(bs[0]).value;
    if cp < 0x800 {
      assert bs[1..] + rest == [bs[1]] + rest;
      ContinueStep(bs[1], rest, lead);
    } else if cp < 0x10000 {
      assert bs[1..] + rest == [bs[1]] + ([bs[2]] + rest);
      ContinueStep(bs[1], [bs[2]] + rest, lead);
      ContinueStep(bs[2], rest, Lead(1, 0x80, 0xBF, cp / 64));
    } else {
      assert bs[1..] + rest == [bs[1]] + ([bs[2]] + ([bs[3]] + rest));
      ContinueStep(bs[1], [bs[2]] + ([bs[3]] + rest), lead);
      ContinueStep(bs[2], [bs[3]] + rest, Lead(2, 0x80, 0xBF, cp / 64 / 64));
      ContinueStep(bs[3], rest, Lead(1, 0x80, 0xBF, cp / 64));
    }
  }

  lemma PairUnits(high: CodeUnit, low: CodeUnit)
    requires IsHigh(high) && IsLow(low)
    ensures Units(PairValue(high, low)) == [high, low]
  {
  }

  /** UTF-8 loses nothing of a text without lone surrogates. */
  lemma {:induction false} Utf8RoundTrip(s: Text)
    requires WellFormed(s)
    ensures Utf8Decode(Utf8Encode(s)) == s
    decreases |s|
  {
    if s == [] {
    } else if |s| > 1 && IsHigh(s[0]) && IsLow(s[1]) {
      ScalarRoundTrip(PairValue(s[0], s[1]), Utf8Encode(s[2..]));
      PairUnits(s[0], s[1]);
      Utf8RoundTrip(s[2..]);
      assert s == [s[0], s[1]] + s[2..];
    } else {
      ScalarRoundTrip(s[0], Utf8Encode(s[1..]));
      Utf8RoundTrip(s[1..]);
      assert s == [s[0]] + s[1..];
    }
  }

  /** A lone surrogate is lost, so the round trip holds for exactly the well-formed texts. */
  lemma {:induction false} Utf8RoundTripIff(s: Text)
    ensures Utf8Decode(Utf8Encode(s)) == s <==> WellFormed(s)
    decreases |s|
  {
    if s == [] {
    } else if |s| > 1 && IsHigh(s[0]) && IsLow(s[1]) {
      ScalarRoundTrip(PairValue(s[0], s[1]), Utf8Encode(s[2..]));
      PairUnits(s[0], s[1]);
      Utf8RoundTripIff(s[2..]);
      assert s == [s[0], s[1]] + s[2..];
      SameTail([s[0], s[1]], Utf8Decode(Utf8Encode(s[2..])), s[2..]);
    } else {
      var c := if IsHigh(s[0]) || IsLow(s[0]) then REPLACEMENT else s[0];
      ScalarRoundTrip(c, Utf8Encode(s[1..]));
      Utf8RoundTripIff(s[1..]);
      assert s == [s[0]] + s[1..];
      assert ([c] + Utf8Decode(Utf8Encode(s[1..])))[0] == c;
      SameTail([c], Utf8Decode(Utf8Encode(s[1..])), s[1..]);
    }
  }

  /* ---------- Base64url without padding (section 5 of RFC 4648) ---------- */

  function SextetChar(x: Sextet): CodeUnit {
    if x < 26 then 0x41 + x
    else if x < 52 then 0x61 + (x - 26)
    else if x < 62 then 0x30 + (x - 52)
    else if x == 62 then 0x2D
    else 0x5F
  }

  // Both alphabets of RFC 4648 are read.
  function CharSextet(c: CodeUnit): Option<Sextet> {
    if 0x41 <= c <= 0x5A then Some(c - 0x41)
    else if 0x61 <= c <= 0x7A then Some(c - 0x61 + 26)
    else if 0x30 <= c <= 0x39 then Some(c - 0x30 + 52)
    else if c == 0x2D || c == 0x2B then Some(62)
    else if c == 0x5F || c == 0x2F then Some(63)
    else None
  }

  function Pack(bs: seq<Byte>): seq<Sextet> {
    if bs == [] then []
    else if |bs| == 1 then [bs[0] / 4, bs[0] % 4 * 16]
    else if |bs| == 2 then [bs[0] / 4, bs[0] % 4 * 16 + bs[1] / 16, bs[1] % 16 * 4]
    else [bs[0] / 4, bs[0] % 4 * 16 + bs[1] / 16, bs[1] % 16 * 4 + bs[2] / 64, bs[2] % 64] + Pack(bs[3..])
  }

  function Unpack(xs: seq<Sextet>): seq<Byte> {
    if |xs| < 2 then []
    else if |xs| == 2 then [HighByte(xs[0], xs[1])]
    else if |xs| == 3 then [HighByte(xs[0], xs[1]), MiddleByte(xs[1], xs[2])]
    else [HighByte(xs[0], xs[1]), MiddleByte(xs[1], xs[2]), LowByte(xs[2], xs[3])] + Unpack(xs[4..])
  }

  function HighByte(x: int, y: int): Byte
    requires 0 <= x < 64 && 0 <= y < 64
  {
    x * 4 + y / 16
  }

  function MiddleByte(x: int, y: int): Byte
    requires 0 <= x < 64 && 0 <= y < 64
  {
    x % 16 * 16 + y / 4
  }

  function LowByte(x: int, y: int): Byte
    requires 0 <= x < 64 && 0 <= y < 64
  {
    x % 4 * 64 + y
  }

  function SextetChars(xs: seq<Sextet>): Text {
    if xs == [] then [] else [SextetChar(xs[0])] + SextetChars(xs[1..])
  }

  // Characters outside the alphabets are skipped, and a padding character ends the data.
  function CharSextets(t: Text): seq<Sextet> {
    if t == [] || t[0] == PAD then []
    else
      var rest := CharSextets(t[1..]);
      match CharSextet(t[0])
      case Some(x) => [x] + rest
      case None => rest
  }

  function Base64Encode(bs: seq<Byte>): Text {
    SextetChars(Pack(bs))
  }

  function Base64Decode(t: Text): seq<Byte> {
    Unpack(CharSextets(t))
  }

  lemma {:induction false} PackRoundTrip(bs: seq<Byte>)
    ensures Unpack(Pack(bs)) == bs
  {
    if |bs| >= 3 {
      var xs := Pack(bs);
      assert xs[4..] == Pack(bs[3..]);
      PackRoundTrip(bs[3..]);
      hide Pack;
      assert Unpack(xs)[..3] == bs[..3];
      assert bs == bs[..3] + bs[3..];
    }
  }

  lemma {:induction false} CharsRoundTripSextets(xs: seq<Sextet>)
    ensures CharSextets(SextetChars(xs)) == xs
    ensures DOT !in SextetChars(xs)
  {
    if xs != [] {
      CharsRoundTripSextets(xs[1..]);
      assert SextetChars(xs)[1..] == SextetChars(xs[1..]);
    }
  }

  /** Base64url loses no byte, and its text never holds the dot that separates the version. */
  lemma Base64RoundTrip(bs: seq<Byte>)
    ensures Base64Decode(Base64Encode(bs)) == bs
    ensures DOT !in Base64Encode(bs)
  {
    PackRoundTrip(bs);
    CharsRoundTripSextets(Pack(bs));
  }

  // The characters from `first` on, one after the other.
  predicate Runs(from: Sextet, to: Sextet, first: char, last: char) {
    && (forall x: Sextet :: from <= x <= to ==> SextetChar(x) == first as int + x - from)
    && last as int == first as int + to - from
  }

  /** The alphabet of section 5 of RFC 4648. */
  lemma AlphabetExact()
    ensures Runs(0, 25, 'A', 'Z') && Runs(26, 51, 'a', 'z') && Runs(52, 61, '0', '9')
    ensures Runs(62, 62, '-', '-') && Runs(63, 63, '_', '_')
  {
  }

  // The last `k` digits of a number to the base 64.
  function Digits64(n: nat, k: nat): Text {
    if k == 0 then [] else Digits64(n / 64, k - 1) + [SextetChar(n % 64)]
  }

  // The first `k` bytes as one number.
  function BytesValue(bs: seq<Byte>, k: nat): nat
    requires k <= |bs|
  {
    if k == 0 then 0 else BytesValue(bs, k - 1) * 0x100 + bs[k - 1] as int
  }

  /** Three bytes are written as the four digits of one number; missing bytes at the end are zero bits. */
  lemma {:induction false} Base64Exact(bs: seq<Byte>)
    ensures bs == [] ==> Base64Encode(bs) == []
    ensures |bs| == 1 ==> Base64Encode(bs) == Digits64(BytesValue(bs, 1) * 16, 2)
    ensures |bs| == 2 ==> Base64Encode(bs) == Digits64(BytesValue(bs, 2) * 4, 3)
    ensures |bs| >= 3 ==> Base64Encode(bs) == Digits64(BytesValue(bs, 3), 4) + Base64Encode(bs[3..])
  {
    var xs := Pack(bs);
    if |bs| >= 1 {
      BytesCounted(bs);
      var n := if |bs| == 1 then 2 else if |bs| == 2 then 3 else 4;
      DigitsSpell(xs[..n]);
      SextetsCounted(xs[..n]);
      assert xs == xs[..n] + xs[n..] && |bs| >= 3 ==> xs[n..] == Pack(bs[3..]);
      CharsConcat(xs[..n], xs[n..]);
    }
  }

  lemma BytesCounted(bs: seq<Byte>)
    ensures |bs| >= 1 ==> BytesValue(bs, 1) == bs[0] as int
    ensures |bs| >= 2 ==> BytesValue(bs, 2) == bs[0] as int * 0x100 + bs[1] as int
    ensures |bs| >= 3 ==> BytesValue(bs, 3) == (bs[0] as int * 0x100 + bs[1] as int) * 0x100 + bs[2] as int
  {
  }

  // The number that sextets spell.
  function SextetsValue(xs: seq<Sextet>): nat {
    if xs == [] then 0 else SextetsValue(xs[..|xs| - 1]) * 64 + xs[|xs| - 1] as int
  }

  lemma SextetsCounted(xs: seq<Sextet>)
    ensures |xs| == 2 ==> SextetsValue(xs) == xs[0] as int * 64 + xs[1] as int
    ensures |xs| == 3 ==> SextetsValue(xs) == (xs[0] as int * 64 + xs[1] as int) * 64 + xs[2] as int
    ensures |xs| == 4 ==>
      SextetsValue(xs) == ((xs[0] as int * 64 + xs[1] as int) * 64 + xs[2] as int) * 64 + xs[3] as int
  {
    if 2 <= |xs| <= 4 {
      var a, b := xs[..1], xs[..2];
      assert SextetsValue(a) == xs[0] as int by { assert a[..0] == []; }
      assert SextetsValue(b) == xs[0] as int * 64 + xs[1] as int by { assert b[..1] == a; }
      assert |xs| == 2 ==> xs == b;
      assert |xs| >= 3 ==> xs[..3][..2] == b;
      assert |xs| == 3 ==> xs == xs[..3];
    }
  }

  lemma {:induction false} CharAt(xs: seq<Sextet>)
    ensures |SextetChars(xs)| == |xs|
    ensures forall i :: 0 <= i < |xs| ==> SextetChars(xs)[i] == SextetChar(xs[i])
  {
    hide SextetChar;
    if xs != [] {
      CharAt(xs[1..]);
    }
  }

  lemma {:induction false} CharsConcat(xs: seq<Sextet>, ys: seq<Sextet>)
    ensures SextetChars(xs + ys) == SextetChars(xs) + SextetChars(ys)
  {
    hide SextetChar, SextetChars;
    CharAt(xs);
    CharAt(ys);
    CharAt(xs + ys);
  }

  lemma {:induction false} DigitsSpell(xs: seq<Sextet>)
    ensures Digits64(SextetsValue(xs), |xs|) == SextetChars(xs)
  {
    hide SextetChar, SextetChars;
    CharAt(xs);
    if xs != [] {
      var n := |xs| - 1;
      DigitsSpell(xs[..n]);
      CharAt(xs[..n]);
    }
  }

  /* ---------- Printed JSON has no lone surrogate ---------- */

  lemma {:induction false} WellFormedConcat(a: Text, b: Text)
    requires WellFormed(a) && WellFormed(b)
    ensures WellFormed(a + b)
    decreases |a|
  {
    if a == [] {
      assert a + b == b;
    } else if |a| > 1 && IsHigh(a[0]) && IsLow(a[1]) {
      assert (a + b)[2..] == a[2..] + b;
      WellFormedConcat(a[2..], b);
    } else {
      assert (a + b)[1..] == a[1..] + b;
      WellFormedConcat(a[1..], b);
    }
  }

  predicate Basic(s: Text) {
    forall i :: 0 <= i < |s| ==> !IsHigh(s[i]) && !IsLow(s[i])
  }

  lemma BasicIsWellFormed(s: Text)
    requires Basic(s)
    ensures WellFormed(s)
  {
  }

  lemma EscapeWellFormed(s: Text)
    ensures WellFormed(Escape(s))
    decreases |s|
  {
    if s == [] {
    } else if |s| > 1 && IsHigh(s[0]) && IsLow(s[1]) {
      EscapeWellFormed(s[2..]);
      assert WellFormed(s[..2]);
      WellFormedConcat(s[..2], Escape(s[2..]));
    } else {
      EscapeWellFormed(s[1..]);
      BasicIsWellFormed(EscapeUnit(s[0]));
      WellFormedConcat(EscapeUnit(s[0]), Escape(s[1..]));
    }
  }

  lemma QuoteWellFormed(s: Text)
    ensures WellFormed(Quote(s))
  {
    EscapeWellFormed(s);
    BasicIsWellFormed([QUOTE]);
    WellFormedConcat([QUOTE], Escape(s));
    WellFormedConcat([QUOTE] + Escape(s), [QUOTE]);
  }

  lemma DigitsBasic(ds: seq<Digit>)
    ensures Basic(DigitChars(ds))
  {
  }

  lemma NumberBasic(x: Number)
    requires x.Valid()
    ensures Basic(PrintNumber(x))
  {
    if x.Decimal? {
      PrintDigitsBasic(x.digits, x.point);
      hide PrintDigits;
    }
  }

  lemma ExponentBasic(e: int)
    ensures Basic(ExponentText(e))
  {
    DigitsBasic(NatDigits(if e < 0 then -e else e));
    hide DigitChars, NatDigits;
  }

  lemma PrintDigitsBasic(ds: seq<Digit>, n: int)
    requires ds != []
    ensures Basic(PrintDigits(ds, n))
  {
    hide DigitChars, Zeros, ExponentText;
    DigitsBasic(ds);
    DigitsBasic(ds[..1]);
    DigitsBasic(ds[1..]);
    ExponentBasic(n - 1);
    if |ds| <= n {
      DigitsBasic(ds + Zeros(n - |ds|));
    } else if 0 < n {
      DigitsBasic(ds[..n]);
      DigitsBasic(ds[n..]);
    } else {
      DigitsBasic(Zeros(-n) + ds);
    }
    hide NatDigits;
  }

  /** What JSON prints has no lone surrogate, whatever the strings inside hold. */
  lemma {:induction false} PrintWellFormed(v: Value)
    requires v.Valid()
    ensures WellFormed(Print(v))
    decreases v, 1
  {
    match v
    case Null => BasicIsWellFormed(NULL_TEXT);
    case Bool(b) => BasicIsWellFormed(TRUE_TEXT); BasicIsWellFormed(FALSE_TEXT);
    case Num(n) => NumberBasic(n); BasicIsWellFormed(PrintNumber(n));
    case Str(s) => QuoteWellFormed(s);
    case Arr(items) =>
      ItemsWellFormed(items);
      Bracketed(OPEN_ARRAY, PrintItems(items), CLOSE_ARRAY);
    case Obj(members) =>
      MembersWellFormed(members);
      Bracketed(OPEN_OBJECT, PrintMembers(members), CLOSE_OBJECT);
  }

  lemma Bracketed(open: CodeUnit, s: Text, close: CodeUnit)
    requires WellFormed(s) && Basic([open]) && Basic([close])
    ensures WellFormed([open] + s + [close])
  {
    BasicIsWellFormed([open]);
    BasicIsWellFormed([close]);
    WellFormedConcat([open], s);
    WellFormedConcat([open] + s, [close]);
  }

  lemma Joined(a: Text, c: CodeUnit, b: Text)
    requires WellFormed(a) && WellFormed(b) && Basic([c])
    ensures WellFormed(a + [c] + b)
  {
    BasicIsWellFormed([c]);
    WellFormedConcat(a, [c]);
    WellFormedConcat(a + [c], b);
  }

  lemma {:induction false} ItemsWellFormed(items: seq<Value>)
    requires forall i :: 0 <= i < |items| ==> items[i].Valid()
    ensures WellFormed(PrintItems(items))
    decreases items, 0
  {
    if items != [] {
      PrintWellFormed(items[0]);
      if |items| > 1 {
        ItemsWellFormed(items[1..]);
        Joined(Print(items[0]), COMMA, PrintItems(items[1..]));
      }
    }
  }

  lemma {:induction false} MembersWellFormed(members: seq<Member>)
    requires forall i :: 0 <= i < |members| ==> members[i].value.Valid()
    ensures WellFormed(PrintMembers(members))
    decreases members, 0
  {
    if members != [] {
      var m := members[0];
      QuoteWellFormed(m.key);
      PrintWellFormed(m.value);
      Joined(Quote(m.key), COLON, Print(m.value));
      if |members| > 1 {
        MembersWellFormed(members[1..]);
        Joined(Quote(m.key) + [COLON] + Print(m.value), COMMA, PrintMembers(members[1..]));
      }
    }
  }

  /* ---------- Cursors ---------- */

  datatype CursorData = CursorData(sortValue: Value, id: Value)

  datatype CursorError = EmptyValue | BadFormat | BadPayload | Undecodable

  datatype Decoded = Ok(data: CursorData) | Err(error: CursorError)

  function PayloadOf(d: CursorData): Value {
    Obj([Member(SORT_KEY, d.sortValue), Member(ID_KEY, d.id)])
  }

  function EncodeCursor(d: CursorData): Text
    requires PayloadOf(d).Valid()
  {
    VERSION + [DOT] + Base64Encode(Utf8Encode(Print(PayloadOf(d))))
  }

  function Split(s: Text, separator: CodeUnit): (parts: seq<Text>)
    ensures parts != []
  {
    if s == [] then [[]]
    else
      var rest := Split(s[1..], separator);
      if s[0] == separator then [[]] + rest else [[s[0]] + rest[0]] + rest[1..]
  }

  function DecodePayload(text: Text): Decoded {
    match Parse(text)
    case None => Err(Undecodable)
    case Some(Null) => Err(Undecodable) // reading a property of null throws
    case Some(Obj(members)) =>
      (match (Property(members, SORT_KEY), Property(members, ID_KEY))
       case (Some(s), Some(i)) => Ok(CursorData(s, i))
       case _ => Err(BadPayload))
    case Some(_) => Err(BadPayload)
  }

  function DecodeCursor(cursor: Text): Decoded {
    if cursor == [] then Err(EmptyValue)
    else
      var parts := Split(cursor, DOT);
      if |parts| != 2 || parts[0] != VERSION then Err(BadFormat)
      else DecodePayload(Utf8Decode(Base64Decode(parts[1])))
  }

  lemma {:induction false} NoSeparator(s: Text, separator: CodeUnit)
    requires separator !in s
    ensures Split(s, separator) == [s]
  {
    if s != [] {
      NoSeparator(s[1..], separator);
      assert [s[0]] + s[1..] == s;
    }
  }

  lemma {:induction false} OneSeparator(a: Text, b: Text, separator: CodeUnit)
    requires separator !in a && separator !in b
    ensures Split(a + [separator] + b, separator) == [a, b]
  {
    var s := a + [separator] + b;
    if a == [] {
      assert s[1..] == b;
      NoSeparator(b, separator);
    } else {
      assert s[1..] == a[1..] + [separator] + b;
      OneSeparator(a[1..], b, separator);
      assert [a[0]] + a[1..] == a;
    }
  }

  /** The reader gets back exactly the sort value and id that the cursor was made of. */
  lemma CursorRoundTrip(d: CursorData)
    requires PayloadOf(d).Valid()
    ensures DecodeCursor(EncodeCursor(d)) == Ok(d)
  {
    var text := Print(PayloadOf(d));
    var payload := Base64Encode(Utf8Encode(text));
    Base64RoundTrip(Utf8Encode(text));
    OneSeparator(VERSION, payload, DOT);
    PrintWellFormed(PayloadOf(d));
    Utf8RoundTrip(text);
    Json.RoundTrip(PayloadOf(d));
    PayloadRead(d);
  }

  lemma PayloadRead(d: CursorData)
    requires PayloadOf(d).Valid() && Parse(Print(PayloadOf(d))) == Some(PayloadOf(d))
    ensures DecodePayload(Print(PayloadOf(d))) == Ok(d)
  {
    hide Parse, Print;
    var members := PayloadOf(d).members;
    assert members[..1] == [members[0]] && SORT_KEY[0] != ID_KEY[0];
    assert Property(members, ID_KEY) == Some(d.id);
    assert Property(members[..1], SORT_KEY) == Some(d.sortValue);
    assert Property(members, SORT_KEY) == Some(d.sortValue);
  }

  /** A cursor names one position: two data with the same cursor are equal. */
  lemma CursorIsInjective(d: CursorData, e: CursorData)
    requires PayloadOf(d).Valid() && PayloadOf(e).Valid() && EncodeCursor(d) == EncodeCursor(e)
    ensures d == e
  {
    CursorRoundTrip(d);
    CursorRoundTrip(e);
  }

  // The last member of that name has this value.
  ghost predicate IsLastOf(members: seq<Member>, key: Text, v: Value) {
    exists k :: 0 <= k < |members| && members[k].key == key && members[k].value == v &&
      forall j :: k < j < |members| ==> members[j].key != key
  }

  lemma {:induction false} PropertyIsLast(members: seq<Member>, key: Text)
    ensures Property(members, key) == None <==> forall k :: 0 <= k < |members| ==> members[k].key != key
    ensures forall v :: Property(members, key) == Some(v) <==> IsLastOf(members, key, v)
  {
    if members != [] {
      var n := |members| - 1;
      PropertyIsLast(members[..n], key);
      if members[n].key != key {
        forall v
          ensures IsLastOf(members, key, v) <==> IsLastOf(members[..n], key, v)
        {
          if IsLastOf(members[..n], key, v) {
            var k :| 0 <= k < n && members[..n][k].key == key && members[..n][k].value == v &&
              forall j :: k < j < n ==> members[..n][j].key != key;
            assert members[k].key == key;
            assert forall j :: k < j < n ==> members[j] == members[..n][j];
          }
        }
      }
    }
  }

  /**
   The reader of any well-written cursor: null cannot be read, other values must be objects with both
   names, and of several members of one name the last counts.
   */
  lemma ForeignCursor(v: Value, s: Value, i: Value)
    requires v.Valid()
    ensures
      var r := DecodeCursor(VERSION + [DOT] + Base64Encode(Utf8Encode(Print(v))));
      && (r == Err(Undecodable) <==> v == Null)
      && (r == Ok(CursorData(s, i)) <==> v.Obj? && IsLastOf(v.members, SORT_KEY, s) && IsLastOf(v.members, ID_KEY, i))
      && (r.Err? ==> r.error == Undecodable || r.error == BadPayload)
  {
    var text := Print(v);
    var payload := Base64Encode(Utf8Encode(text));
    Base64RoundTrip(Utf8Encode(text));
    OneSeparator(VERSION, payload, DOT);
    PrintWellFormed(v);
    Utf8RoundTrip(text);
    Json.RoundTrip(v);
    hide Print, Parse, Base64Encode, Base64Decode, Utf8Encode, Utf8Decode, Property, IsLastOf, Split;
    if v.Obj? {
      PropertyIsLast(v.members, SORT_KEY);
      PropertyIsLast(v.members, ID_KEY);
    }
  }

  lemma {:induction false} DotsCounted(s: Text)
    ensures |Split(s, DOT)| == 1 + multiset(s)[DOT]
  {
    if s != [] {
      DotsCounted(s[1..]);
      assert s == [s[0]] + s[1..];
    }
  }

  lemma {:induction false} SplitStarts(s: Text)
    ensures |Split(s, DOT)| == 1 ==> Split(s, DOT)[0] == s
    ensures |Split(s, DOT)| == 2 ==> s == Split(s, DOT)[0] + [DOT] + Split(s, DOT)[1]
  {
    if s != [] {
      SplitStarts(s[1..]);
      assert s == [s[0]] + s[1..];
    }
  }

  /** A text has the format of a cursor exactly when it starts with the version and has no other dot. */
  lemma FormatExact(c: Text)
    requires c != []
    ensures DecodeCursor(c) != Err(BadFormat) <==> VERSION + [DOT] <= c && multiset(c)[DOT] == 1
  {
    hide Parse, Utf8Decode, Base64Decode, Split;
    DotsCounted(c);
    SplitStarts(c);
    var parts := Split(c, DOT);
    if VERSION + [DOT] <= c && multiset(c)[DOT] == 1 {
      OneDot(c);
    }
    if |parts| == 2 && parts[0] == VERSION {
      assert c == VERSION + [DOT] + parts[1];
    }
    assert DecodeCursor(c) != Err(BadFormat) <==> |parts| == 2 && parts[0] == VERSION;
  }

  lemma {:induction false} OneDot(c: Text)
    requires VERSION + [DOT] <= c && multiset(c)[DOT] == 1
    ensures Split(c, DOT) == [VERSION, c[3..]]
  {
    var rest := c[3..];
    assert c == VERSION + [DOT] + rest;
    assert multiset(c) == multiset(VERSION + [DOT]) + multiset(rest);
    assert multiset(VERSION + [DOT])[DOT] == 1;
    OneSeparator(VERSION, rest, DOT);
  }
}
