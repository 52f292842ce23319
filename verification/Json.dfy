/**
 * JSON values and the three texts the engine derives from them: `canonicalJson` of the
 * audit chain, `JSON.stringify` behind content hashes and cutover checksums, and the
 * Python dump the audit chain wants to agree with. A reader for the compact grammar of
 * RFC 8259 inverts all of them.
 */
module Json {
  import opened Wrappers
  import opened Text
  import opened Doubles

  function Magnitude(n: int): nat {
    if n < 0 then -n else n
  }

  /** A number that is an integer below 10^21, from which on numbers print with exponents. */
  type JsInt = n: int | Magnitude(n) < TOP_TEN && IsDouble(Magnitude(n))

  datatype Parts = Parts(negative: bool, whole: nat, digits: JsString)

  /**
   * A fraction of at least 0.0001 with at most 15 digits. On these `toString`, `toPrecision(15)`
   * without its trailing zeros and Python's `repr` all give the plain decimal text.
   */
  predicate ShortFraction(p: Parts) {
    && p.digits != []
    && (forall i :: 0 <= i < |p.digits| ==> IsDigit(p.digits[i]))
    && p.digits[|p.digits| - 1] != 0x30
    && |Digits(p.whole)| + |p.digits| <= 15
    && (p.whole == 0 ==> !([0x30, 0x30, 0x30, 0x30] <= p.digits))
  }

  const HALF := Parts(false, 0, [0x35])

  type Fraction = p: Parts | ShortFraction(p) witness HALF

  datatype Value =
    | Null
    | Bool(b: bool)
    | Num(n: JsInt)
    | Frac(p: Fraction)
    | Str(s: JsString)
    | Arr(items: seq<Value>)
    | Obj(fields: seq<Field>)

  datatype Field = Field(key: JsString, value: Value)

  /** An object has one property per key. */
  predicate DistinctKeys(fs: seq<Field>) {
    forall i, j :: 0 <= i < j < |fs| ==> fs[i].key != fs[j].key
  }

  /** Property access: the value under a key, when the object has it. */
  function Find(fs: seq<Field>, key: JsString): Option<Value> {
    if fs == [] then None else if fs[0].key == key then Some(fs[0].value) else Find(fs[1..], key)
  }

  lemma {:induction false} FindIndex(fs: seq<Field>, key: JsString) returns (i: nat)
    requires Find(fs, key).Some?
    ensures i < |fs| && fs[i] == Field(key, Find(fs, key).value)
  {
    if fs[0].key == key {
      i := 0;
    } else {
      i := FindIndex(fs[1..], key);
      i := i + 1;
    }
  }

  lemma {:induction false} FindAt(fs: seq<Field>, i: nat)
    requires DistinctKeys(fs) && i < |fs|
    ensures Find(fs, fs[i].key) == Some(fs[i].value)
  {
    if i > 0 {
      FindAt(fs[1..], i - 1);
      assert fs[0].key != fs[i].key;
    }
  }

  predicate WellFormed(v: Value) {
    match v
    case Arr(items) => forall i :: 0 <= i < |items| ==> WellFormed(items[i])
    case Obj(fs) => DistinctKeys(fs) && forall i :: 0 <= i < |fs| ==> WellFormed(fs[i].value)
    case _ => true
  }

  // Printing

  /**
   * How a string is escaped: by `serialize` alone, after the non-ASCII pass of
   * `canonicalJson`, by Python's json.dumps, and by `JSON.stringify`.
   */
  datatype Style = Serialized | Ascii | Python | Stringify

  /** The letter of a two-character escape, or 0 for a code unit that has none. */
  function ShortLetter(u: Unit): Unit {
    if u == 0x08 then 0x62
    else if u == 0x09 then 0x74
    else if u == 0x0a then 0x6e
    else if u == 0x0c then 0x66
    else if u == 0x0d then 0x72
    else 0
  }

  predicate IsHigh(u: Unit) {
    0xd800 <= u < 0xdc00
  }

  predicate IsLow(u: Unit) {
    0xdc00 <= u < 0xe000
  }

  function UnicodeEscape(u: Unit): (r: JsString)
    ensures |r| == 6
  {
    [BACKSLASH, LOWER_U] + Hex4(u)
  }

  function EscapeUnit(style: Style, u: Unit): JsString {
    if u == QUOTE || u == BACKSLASH then [BACKSLASH, u]
    else if (style.Python? || style.Stringify?) && ShortLetter(u) != 0 then [BACKSLASH, ShortLetter(u)]
    else if u < 0x20 then UnicodeEscape(u)
    else if (style.Ascii? || style.Python?) && u >= 0x7f then UnicodeEscape(u)
    else if style.Stringify? && (IsHigh(u) || IsLow(u)) then UnicodeEscape(u)
    else [u]
  }

  /** The body of a string literal. Only `JSON.stringify` looks at two units at once, to keep a surrogate pair. */
  function Escaped(style: Style, s: JsString): JsString
    decreases |s|
  {
    if s == [] then []
    else if style.Stringify? && |s| > 1 && IsHigh(s[0]) && IsLow(s[1]) then s[..2] + Escaped(style, s[2..])
    else EscapeUnit(style, s[0]) + Escaped(style, s[1..])
  }

  function Quoted(style: Style, s: JsString): JsString {
    [QUOTE] + (Escaped(style, s) + [QUOTE])
  }

  function Decimal(n: int): JsString {
    if n < 0 then [MINUS] + Digits(-n) else Digits(n)
  }

  /** JavaScript writes the shortest digits that read back, padded with zeros, Python the exact ones. */
  function Shown(style: Style, m: nat): nat {
    if style.Python? then m else Shortest(m)
  }

  function IntegerText(style: Style, n: JsInt): JsString {
    (if n < 0 then [MINUS] else []) + Digits(Shown(style, Magnitude(n)))
  }

  function FractionText(p: Fraction): JsString {
    (if p.negative then [MINUS] else []) + (Digits(p.whole) + ([DOT] + p.digits))
  }

  const NULL_TEXT: JsString := [0x6e, 0x75, 0x6c, 0x6c]
  const TRUE_TEXT: JsString := [0x74, 0x72, 0x75, 0x65]
  const FALSE_TEXT: JsString := [0x66, 0x61, 0x6c, 0x73, 0x65]

  /** Properties print in their order in the object; callers sort first. */
  function Print(style: Style, v: Value): JsString
    decreases v, 0
  {
    match v
    case Null => NULL_TEXT
    case Bool(b) => if b then TRUE_TEXT else FALSE_TEXT
    case Num(n) => IntegerText(style, n)
    case Frac(p) => FractionText(p)
    case Str(s) => Quoted(style, s)
    case Arr(items) => [LBRACKET] + (PrintItems(style, items) + [RBRACKET])
    case Obj(fs) => [LBRACE] + (PrintFields(style, fs) + [RBRACE])
  }

  function PrintItems(style: Style, items: seq<Value>): JsString
    decreases items, 1
  {
    if items == [] then []
    else if |items| == 1 then Print(style, items[0])
    else Print(style, items[0]) + ([COMMA] + PrintItems(style, items[1..]))
  }

  function PrintField(style: Style, f: Field): JsString
    decreases f, 1
  {
    Quoted(style, f.key) + ([COLON] + Print(style, f.value))
  }

  function PrintFields(style: Style, fs: seq<Field>): JsString
    decreases fs, 2
  {
    if fs == [] then []
    else if |fs| == 1 then PrintField(style, fs[0])
    else PrintField(style, fs[0]) + ([COMMA] + PrintFields(style, fs[1..]))
  }

  // Reading

  /** Reads the rest of a string literal up to and including its closing quote. */
  function ReadString(s: JsString): (r: Option<(JsString, JsString)>)
    ensures r.Some? ==> |r.value.1| < |s|
    decreases |s|
  {
    if s == [] then None
    else if s[0] == QUOTE then Some(([], s[1..]))
    else if s[0] < 0x20 then None
    else if s[0] != BACKSLASH then Prepend(s[0], ReadString(s[1..]))
    else if |s| < 2 then None
    else if s[1] == LOWER_U then
      if |s| < 6 then None
      else
        var u := UnHex4(s[2], s[3], s[4], s[5]);
        if u < 0 then None else Prepend(u, ReadString(s[6..]))
    else
      var u := UnescapeLetter(s[1]);
      if u < 0 then None else Prepend(u, ReadString(s[2..]))
  }

  function Prepend(u: Unit, r: Option<(JsString, JsString)>): Option<(JsString, JsString)> {
    if r.None? then None else Some(([u] + r.value.0, r.value.1))
  }

  /** Two-character escapes of section 7 of RFC 8259, or -1. */
  function UnescapeLetter(u: Unit): (n: int)
    ensures -1 <= n < 0x10000
  {
    if u == QUOTE || u == BACKSLASH || u == 0x2f then u
    else if u == 0x62 then 0x08
    else if u == 0x74 then 0x09
    else if u == 0x6e then 0x0a
    else if u == 0x66 then 0x0c
    else if u == 0x72 then 0x0d
    else -1
  }

  function ReadNumber(s: JsString): (r: Option<(Value, JsString)>)
    requires s != []
    ensures r.Some? ==> |r.value.1| < |s|
  {
    if s[0] == MINUS then ReadUnsigned(true, s[1..]) else ReadUnsigned(false, s)
  }

  /** An integer reads as the nearest double. */
  function ReadUnsigned(negative: bool, s: JsString): (r: Option<(Value, JsString)>)
    ensures r.Some? ==> |r.value.1| < |s|
  {
    if s == [] || !IsDigit(s[0]) then None
    else
      var (n, rest) := ReadDigits(s[0] - 0x30, s[1..]);
      if rest != [] && rest[0] == DOT then ReadFraction(negative, n, rest[1..])
      else
        NearestIsDouble(n);
        var m: int := Nearest(n);
        if m >= TOP_TEN then None else Some((Num(if negative then -m else m), rest))
  }

  /** The digits after the decimal point. */
  function ReadFraction(negative: bool, whole: nat, s: JsString): (r: Option<(Value, JsString)>)
    ensures r.Some? ==> |r.value.1| < |s|
  {
    var n := DigitRun(s);
    var p := Parts(negative, whole, s[..n]);
    if ShortFraction(p) then Some((Frac(p), s[n..])) else None
  }

  /** How many digits `s` starts with. */
  function DigitRun(s: JsString): (n: nat)
    ensures n <= |s|
  {
    if s != [] && IsDigit(s[0]) then 1 + DigitRun(s[1..]) else 0
  }

  function ReadLiteral(text: JsString, v: Value, s: JsString): (r: Option<(Value, JsString)>)
    requires text != []
    ensures r.Some? ==> |r.value.1| < |s|
  {
    if text <= s then Some((v, s[|text|..])) else None
  }

  function ReadValue(s: JsString): (r: Option<(Value, JsString)>)
    ensures r.Some? ==> |r.value.1| < |s|
    decreases |s|, 0
  {
    if s == [] then None
    else if s[0] == NULL_TEXT[0] then ReadLiteral(NULL_TEXT, Null, s)
    else if s[0] == TRUE_TEXT[0] then ReadLiteral(TRUE_TEXT, Bool(true), s)
    else if s[0] == FALSE_TEXT[0] then ReadLiteral(FALSE_TEXT, Bool(false), s)
    else if s[0] == QUOTE then
      var r := ReadString(s[1..]);
      if r.None? then None else Some((Str(r.value.0), r.value.1))
    else if s[0] == LBRACKET then
      var r := ReadArray(s[1..]);
      if r.None? then None else Some((Arr(r.value.0), r.value.1))
    else if s[0] == LBRACE then
      var r := ReadObject(s[1..]);
      if r.None? then None else Some((Obj(r.value.0), r.value.1))
    else ReadNumber(s)
  }

  /** The rest of an array after its opening bracket. */
  function ReadArray(s: JsString): (r: Option<(seq<Value>, JsString)>)
    ensures r.Some? ==> |r.value.1| < |s|
    decreases |s|, 3
  {
    if s != [] && s[0] == RBRACKET then Some(([], s[1..])) else ReadItems(s)
  }

  /** The rest of an object after its opening brace. */
  function ReadObject(s: JsString): (r: Option<(seq<Field>, JsString)>)
    ensures r.Some? ==> |r.value.1| < |s|
    decreases |s|, 3
  {
    if s != [] && s[0] == RBRACE then Some(([], s[1..])) else ReadFields(s)
  }

  function ReadItems(s: JsString): (r: Option<(seq<Value>, JsString)>)
    ensures r.Some? ==> |r.value.1| < |s|
    decreases |s|, 1
  {
    var head := ReadValue(s);
    if head.None? || head.value.1 == [] then None
    else if head.value.1[0] == RBRACKET then Some(([head.value.0], head.value.1[1..]))
    else if head.value.1[0] != COMMA then None
    else
      var tail := ReadItems(head.value.1[1..]);
      if tail.None? then None else Some(([head.value.0] + tail.value.0, tail.value.1))
  }

  function ReadField(s: JsString): (r: Option<(Field, JsString)>)
    ensures r.Some? ==> |r.value.1| < |s|
    decreases |s|, 1
  {
    if s == [] || s[0] != QUOTE then None
    else
      var key := ReadString(s[1..]);
      if key.None? || key.value.1 == [] || key.value.1[0] != COLON then None
      else
        var val := ReadValue(key.value.1[1..]);
        if val.None? then None else Some((Field(key.value.0, val.value.0), val.value.1))
  }

  function ReadFields(s: JsString): (r: Option<(seq<Field>, JsString)>)
    ensures r.Some? ==> |r.value.1| < |s|
    decreases |s|, 2
  {
    var head := ReadField(s);
    if head.None? || head.value.1 == [] then None
    else if head.value.1[0] == RBRACE then Some(([head.value.0], head.value.1[1..]))
    else if head.value.1[0] != COMMA then None
    else
      var tail := ReadFields(head.value.1[1..]);
      if tail.None? then None else Some(([head.value.0] + tail.value.0, tail.value.1))
  }

  /** Reads a whole text as one value. */
  function Parse(s: JsString): Option<Value> {
    var r := ReadValue(s);
    if r.Some? && r.value.1 == [] then Some(r.value.0) else None
  }

  // Reading inverts printing

  lemma ReadEscapedUnit(style: Style, u: Unit, tail: JsString)
    ensures ReadString(EscapeUnit(style, u) + tail) == Prepend(u, ReadString(tail))
  {
    var e := EscapeUnit(style, u);
    var s := e + tail;
    if |e| == 6 {
      Hex4RoundTrip(u);
      assert s[2..6] == Hex4(u);
      assert s[6..] == tail;
    } else if |e| == 2 {
      assert s[2..] == tail;
    } else {
      assert s[1..] == tail;
    }
  }

  lemma ReadPlainUnit(u: Unit, tail: JsString)
    requires u >= 0x20 && u != QUOTE && u != BACKSLASH
    ensures ReadString([u] + tail) == Prepend(u, ReadString(tail))
  {
    assert ([u] + tail)[1..] == tail;
  }

  lemma ReadClosingQuote(rest: JsString)
    ensures ReadString([QUOTE] + rest) == Some(([], rest))
  {
    assert ([QUOTE] + rest)[1..] == rest;
  }

  lemma {:induction false} ReadEscaped(style: Style, str: JsString, rest: JsString)
    ensures ReadString(Escaped(style, str) + ([QUOTE] + rest)) == Some((str, rest))
    decreases |str|
  {
    if str == [] {
      ReadClosingQuote(rest);
      assert [] + ([QUOTE] + rest) == [QUOTE] + rest;
    } else if style.Stringify? && |str| > 1 && IsHigh(str[0]) && IsLow(str[1]) {
      ReadEscaped(style, str[2..], rest);
      ReadEscapedPair(style, str, [QUOTE] + rest);
      assert str == [str[0]] + ([str[1]] + str[2..]);
    } else {
      ReadEscaped(style, str[1..], rest);
      ReadEscapedHead(style, str, [QUOTE] + rest);
      assert str == [str[0]] + str[1..];
    }
  }

  lemma ReadEscapedPair(style: Style, str: JsString, tail: JsString)
    requires style.Stringify? && |str| > 1 && IsHigh(str[0]) && IsLow(str[1])
    ensures ReadString(Escaped(style, str) + tail)
         == Prepend(str[0], Prepend(str[1], ReadString(Escaped(style, str[2..]) + tail)))
  {
    var after := Escaped(style, str[2..]) + tail;
    ReadPlainUnit(str[1], after);
    ReadPlainUnit(str[0], [str[1]] + after);
    assert Escaped(style, str) + tail == [str[0]] + ([str[1]] + after);
  }

  lemma ReadEscapedHead(style: Style, str: JsString, tail: JsString)
    requires str != [] && !(style.Stringify? && |str| > 1 && IsHigh(str[0]) && IsLow(str[1]))
    ensures ReadString(Escaped(style, str) + tail) == Prepend(str[0], ReadString(Escaped(style, str[1..]) + tail))
  {
    var after := Escaped(style, str[1..]) + tail;
    ReadEscapedUnit(style, str[0], after);
    Associate(EscapeUnit(style, str[0]), Escaped(style, str[1..]), tail);
  }

  /** `rest` does not go on with a digit or a decimal point, as nothing that follows a value in a text does. */
  predicate EndsNumber(rest: JsString) {
    rest == [] || !(IsDigit(rest[0]) || rest[0] == DOT)
  }

  /** Either rendering of a double reads back as it. */
  lemma ShownReads(style: Style, m: nat)
    requires IsDouble(m)
    ensures Nearest(Shown(style, m)) == m
  {
    DoubleIsNearest(m);
    ShortestReads(m);
  }

  lemma ReadUnsignedInteger(negative: bool, c: nat, rest: JsString)
    requires EndsNumber(rest) && Nearest(c) < TOP_TEN
    ensures IsDouble(Nearest(c))
    ensures var m: int := Nearest(c);
      ReadUnsigned(negative, Digits(c) + rest) == Some((Num(if negative then -m else m), rest))
  {
    NearestIsDouble(c);
    ReadMagnitude(c, rest);
  }

  lemma ReadInteger(style: Style, n: JsInt, rest: JsString)
    requires EndsNumber(rest)
    ensures ReadNumber(IntegerText(style, n) + rest) == Some((Num(n), rest))
  {
    var c := Shown(style, Magnitude(n));
    var body := Digits(c) + rest;
    ShownReads(style, Magnitude(n));
    ReadUnsignedInteger(n < 0, c, rest);
    if n < 0 {
      Associate([MINUS], Digits(c), rest);
      assert ([MINUS] + body)[1..] == body;
    } else {
      assert [] + Digits(c) == Digits(c) && body[0] == Digits(c)[0];
    }
  }

  lemma {:induction false} DigitRunIs(digits: JsString, rest: JsString)
    requires EndsNumber(rest) && forall i :: 0 <= i < |digits| ==> IsDigit(digits[i])
    ensures DigitRun(digits + rest) == |digits|
  {
    if digits == [] {
      assert digits + rest == rest;
    } else {
      DigitRunIs(digits[1..], rest);
      assert (digits + rest)[1..] == digits[1..] + rest;
    }
  }

  lemma ReadFractionDigits(p: Fraction, rest: JsString)
    requires EndsNumber(rest)
    ensures ReadFraction(p.negative, p.whole, p.digits + rest) == Some((Frac(p), rest))
  {
    DigitRunIs(p.digits, rest);
    assert (p.digits + rest)[..|p.digits|] == p.digits && (p.digits + rest)[|p.digits|..] == rest;
  }

  lemma ReadUnsignedFraction(p: Fraction, rest: JsString)
    requires EndsNumber(rest)
    ensures ReadUnsigned(p.negative, Digits(p.whole) + ([DOT] + (p.digits + rest))) == Some((Frac(p), rest))
  {
    var tail := [DOT] + (p.digits + rest);
    assert tail[1..] == p.digits + rest;
    ReadMagnitude(p.whole, tail);
    ReadFractionDigits(p, rest);
  }

  lemma ReadFractionText(p: Fraction, rest: JsString)
    requires EndsNumber(rest)
    ensures ReadNumber(FractionText(p) + rest) == Some((Frac(p), rest))
  {
    var body := Digits(p.whole) + ([DOT] + (p.digits + rest));
    ReadUnsignedFraction(p, rest);
    RegroupFraction(p, rest);
    if p.negative {
      assert ([MINUS] + body)[1..] == body;
    } else {
      assert [] + body == body && body[0] == Digits(p.whole)[0];
    }
  }

  lemma RegroupFraction(p: Fraction, rest: JsString)
    ensures FractionText(p) + rest
         == (if p.negative then [MINUS] else []) + (Digits(p.whole) + ([DOT] + (p.digits + rest)))
  {
  }

  lemma ReadMagnitude(m: nat, rest: JsString)
    requires rest == [] || !IsDigit(rest[0])
    ensures var body := Digits(m) + rest; IsDigit(body[0]) && ReadDigits(body[0] - 0x30, body[1..]) == (m, rest)
  {
    ReadDigitsOfDigits(m, rest);
    var body := Digits(m) + rest;
    assert body[0] == Digits(m)[0];
    assert ReadDigits(0, body) == ReadDigits(body[0] - 0x30, body[1..]);
  }

  /** What follows a printed value in a text never extends it. */
  lemma {:induction false} ReadPrinted(style: Style, v: Value, rest: JsString)
    requires EndsNumber(rest)
    ensures ReadValue(Print(style, v) + rest) == Some((v, rest))
    decreases v, 0
  {
    match v
    case Null => ReadPrintedLiteral(NULL_TEXT, v, rest);
    case Bool(b) => ReadPrintedLiteral(if b then TRUE_TEXT else FALSE_TEXT, v, rest);
    case Num(n) => ReadNum(style, n, rest);
    case Frac(p) => ReadFrac(p, rest);
    case Str(str) => ReadStr(style, str, rest);
    case Arr(items) => ReadPrintedArr(style, items, rest);
    case Obj(fs) => ReadPrintedObj(style, fs, rest);
  }

  lemma ReadNum(style: Style, n: JsInt, rest: JsString)
    requires EndsNumber(rest)
    ensures ReadValue(IntegerText(style, n) + rest) == Some((Num(n), rest))
  {
    ReadInteger(style, n, rest);
    var s := IntegerText(style, n) + rest;
    assert s[0] == MINUS || IsDigit(s[0]);
  }

  lemma ReadFrac(p: Fraction, rest: JsString)
    requires EndsNumber(rest)
    ensures ReadValue(FractionText(p) + rest) == Some((Frac(p), rest))
  {
    ReadFractionText(p, rest);
    RegroupFraction(p, rest);
    var s := FractionText(p) + rest;
    assert s[0] == MINUS || IsDigit(s[0]);
  }

  lemma ReadStr(style: Style, str: JsString, rest: JsString)
    ensures ReadValue(Quoted(style, str) + rest) == Some((Str(str), rest))
  {
    ReadEscaped(style, str, rest);
    var s := Quoted(style, str) + rest;
    assert s[1..] == Escaped(style, str) + ([QUOTE] + rest);
  }

  lemma ReadPrintedArr(style: Style, items: seq<Value>, rest: JsString)
    ensures ReadValue(Print(style, Arr(items)) + rest) == Some((Arr(items), rest))
    decreases items, 2
  {
    var body := PrintItems(style, items) + ([RBRACKET] + rest);
    assert Print(style, Arr(items)) + rest == [LBRACKET] + body;
    if items == [] {
      assert body == [RBRACKET] + rest && body[1..] == rest;
    } else {
      ReadPrintedItems(style, items, rest);
      PrintStarts(style, items[0]);
      assert body[0] == Print(style, items[0])[0];
    }
    ReadArrBody(items, body, rest);
  }

  lemma ReadArrBody(items: seq<Value>, body: JsString, rest: JsString)
    requires ReadArray(body) == Some((items, rest))
    ensures ReadValue([LBRACKET] + body) == Some((Arr(items), rest))
  {
    assert ([LBRACKET] + body)[1..] == body;
  }

  lemma ReadPrintedObj(style: Style, fs: seq<Field>, rest: JsString)
    ensures ReadValue(Print(style, Obj(fs)) + rest) == Some((Obj(fs), rest))
    decreases fs, 3
  {
    var body := PrintFields(style, fs) + ([RBRACE] + rest);
    assert Print(style, Obj(fs)) + rest == [LBRACE] + body;
    if fs == [] {
      assert body == [RBRACE] + rest && body[1..] == rest;
    } else {
      ReadPrintedFields(style, fs, rest);
      assert body[0] == QUOTE;
    }
    ReadObjBody(fs, body, rest);
  }

  lemma ReadObjBody(fs: seq<Field>, body: JsString, rest: JsString)
    requires ReadObject(body) == Some((fs, rest))
    ensures ReadValue([LBRACE] + body) == Some((Obj(fs), rest))
  {
    assert ([LBRACE] + body)[1..] == body;
  }

  lemma ReadPrintedLiteral(text: JsString, v: Value, rest: JsString)
    requires (text, v) in {(NULL_TEXT, Null), (TRUE_TEXT, Bool(true)), (FALSE_TEXT, Bool(false))}
    ensures ReadValue(text + rest) == Some((v, rest))
  {
    var s := text + rest;
    assert s[0] == text[0] && s[|text|..] == rest;
    assert ReadValue(s) == ReadLiteral(text, v, s);
  }

  lemma PrintStarts(style: Style, v: Value)
    ensures Print(style, v) != [] && Print(style, v)[0] != RBRACKET
  {
  }

  lemma {:induction false} ReadPrintedItems(style: Style, items: seq<Value>, rest: JsString)
    requires items != []
    ensures ReadItems(PrintItems(style, items) + ([RBRACKET] + rest)) == Some((items, rest))
    decreases items, 1
  {
    var close := [RBRACKET] + rest;
    if |items| == 1 {
      ReadPrinted(style, items[0], close);
      assert close[1..] == rest;
      assert items == [items[0]];
    } else {
      var head, tail := Print(style, items[0]), PrintItems(style, items[1..]);
      ReadPrintedItems(style, items[1..], rest);
      ReadPrinted(style, items[0], [COMMA] + (tail + close));
      RegroupComma(head, tail, close);
      ReadItemsStep(items, head + ([COMMA] + (tail + close)), tail + close, rest);
    }
  }

  lemma RegroupComma(head: JsString, tail: JsString, close: JsString)
    ensures head + ([COMMA] + tail) + close == head + ([COMMA] + (tail + close))
  {
  }

  lemma ReadItemsStep(items: seq<Value>, s: JsString, more: JsString, rest: JsString)
    requires items != []
    requires ReadValue(s) == Some((items[0], [COMMA] + more))
    requires ReadItems(more) == Some((items[1..], rest))
    ensures ReadItems(s) == Some((items, rest))
  {
    assert ([COMMA] + more)[1..] == more;
    assert items == [items[0]] + items[1..];
  }

  lemma ReadFieldsStep(fs: seq<Field>, s: JsString, more: JsString, rest: JsString)
    requires fs != []
    requires ReadField(s) == Some((fs[0], [COMMA] + more))
    requires ReadFields(more) == Some((fs[1..], rest))
    ensures ReadFields(s) == Some((fs, rest))
  {
    assert ([COMMA] + more)[1..] == more;
    assert fs == [fs[0]] + fs[1..];
  }

  lemma {:induction false} ReadPrintedField(style: Style, f: Field, rest: JsString)
    requires EndsNumber(rest)
    ensures ReadField(PrintField(style, f) + rest) == Some((f, rest))
    decreases f, 1
  {
    var body, val := Escaped(style, f.key), Print(style, f.value);
    ReadEscaped(style, f.key, [COLON] + (val + rest));
    ReadPrinted(style, f.value, rest);
    Regroup(body, val, rest);
    ReadFieldParts(f, body + ([QUOTE] + ([COLON] + (val + rest))), val + rest, rest);
  }

  lemma Regroup(body: JsString, val: JsString, rest: JsString)
    ensures ([QUOTE] + (body + [QUOTE])) + ([COLON] + val) + rest
         == [QUOTE] + (body + ([QUOTE] + ([COLON] + (val + rest))))
  {
  }

  lemma ReadFieldParts(f: Field, body: JsString, val: JsString, rest: JsString)
    requires ReadString(body) == Some((f.key, [COLON] + val))
    requires ReadValue(val) == Some((f.value, rest))
    ensures ReadField([QUOTE] + body) == Some((f, rest))
  {
    assert ([QUOTE] + body)[1..] == body;
    assert ([COLON] + val)[1..] == val;
  }

  lemma {:induction false} ReadPrintedFields(style: Style, fs: seq<Field>, rest: JsString)
    requires fs != []
    ensures ReadFields(PrintFields(style, fs) + ([RBRACE] + rest)) == Some((fs, rest))
    decreases fs, 2
  {
    var close := [RBRACE] + rest;
    if |fs| == 1 {
      ReadPrintedField(style, fs[0], close);
      assert close[1..] == rest;
      assert fs == [fs[0]];
    } else {
      var head, tail := PrintField(style, fs[0]), PrintFields(style, fs[1..]);
      ReadPrintedFields(style, fs[1..], rest);
      ReadPrintedField(style, fs[0], [COMMA] + (tail + close));
      RegroupComma(head, tail, close);
      ReadFieldsStep(fs, head + ([COMMA] + (tail + close)), tail + close, rest);
    }
  }

  lemma ParsePrint(style: Style, v: Value)
    ensures Parse(Print(style, v)) == Some(v)
  {
    ReadPrinted(style, v, []);
    assert Print(style, v) + [] == Print(style, v);
  }

  lemma PrintInjective(style: Style, v: Value, w: Value)
    ensures Print(style, v) == Print(style, w) <==> v == w
  {
    ParsePrint(style, v);
    ParsePrint(style, w);
  }
}
