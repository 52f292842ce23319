/**
 * JavaScript strings as sequences of UTF-16 code units, and the hexadecimal and
 * decimal renderings the engine builds from them.
 */
module Text {
  type Unit = u: int | 0 <= u < 0x10000

  type JsString = seq<Unit>

  const QUOTE: Unit := 0x22
  const COMMA: Unit := 0x2c
  const MINUS: Unit := 0x2d
  const DOT: Unit := 0x2e
  const COLON: Unit := 0x3a
  const LBRACKET: Unit := 0x5b
  const BACKSLASH: Unit := 0x5c
  const RBRACKET: Unit := 0x5d
  const LOWER_U: Unit := 0x75
  const LBRACE: Unit := 0x7b
  const PIPE: Unit := 0x7c
  const RBRACE: Unit := 0x7d

  /** The code units of an ASCII literal. */
  function Lit(s: string): (r: JsString)
    ensures |r| == |s|
    ensures forall i :: 0 <= i < |s| && s[i] < (0x80 as char) ==> r[i] == s[i] as int
  {
    seq(|s|, i requires 0 <= i < |s| => if s[i] < (0x80 as char) then s[i] as int else 0x3f)
  }

  lemma Associate(a: JsString, b: JsString, c: JsString)
    ensures a + b + c == a + (b + c)
  {
  }

  // Hexadecimal digits, lower case.

  function HexDigit(n: int): (u: Unit)
    requires 0 <= n < 16
  {
    if n < 10 then 0x30 + n else 0x57 + n
  }

  /** The value of a hexadecimal digit of either case, or -1. */
  function HexValue(u: Unit): (n: int)
    ensures -1 <= n < 16
  {
    if 0x30 <= u <= 0x39 then u - 0x30
    else if 0x61 <= u <= 0x66 then u - 0x57
    else if 0x41 <= u <= 0x46 then u - 0x37
    else -1
  }

  lemma HexDigitValue(n: int)
    requires 0 <= n < 16
    ensures HexValue(HexDigit(n)) == n
  {
  }

  type Byte = b: int | 0 <= b < 0x100

  /** Two lower-case hexadecimal digits. */
  function HexByte(b: Byte): (r: JsString)
    ensures |r| == 2
  {
    [HexDigit(b / 16), HexDigit(b % 16)]
  }

  /** The byte two hexadecimal digits denote, or -1. */
  function UnHexByte(a: Unit, b: Unit): (n: int)
    ensures -1 <= n < 0x100
  {
    var p, q := HexValue(a), HexValue(b);
    if p < 0 || q < 0 then -1 else 16 * p + q
  }

  lemma HexByteRoundTrip(b: Byte)
    ensures var h := HexByte(b); UnHexByte(h[0], h[1]) == b
  {
    HexDigitValue(b / 16);
    HexDigitValue(b % 16);
  }

  /** Four lower-case hexadecimal digits, as `toString(16).padStart(4, '0')` prints them. */
  function Hex4(u: Unit): (r: JsString)
    ensures |r| == 4
  {
    HexByte(u / 256) + HexByte(u % 256)
  }

  /** The code unit four hexadecimal digits denote, or -1. */
  function UnHex4(a: Unit, b: Unit, c: Unit, d: Unit): (n: int)
    ensures -1 <= n < 0x10000
  {
    var hi, lo := UnHexByte(a, b), UnHexByte(c, d);
    if hi < 0 || lo < 0 then -1 else 256 * hi + lo
  }

  lemma Hex4RoundTrip(u: Unit)
    ensures var h := Hex4(u); UnHex4(h[0], h[1], h[2], h[3]) == u
  {
    HexByteRoundTrip(u / 256);
    HexByteRoundTrip(u % 256);
  }

  // Decimal integers.

  predicate IsDigit(u: Unit) {
    0x30 <= u <= 0x39
  }

  /** The decimal digits of a number. */
  function Digits(n: nat): (r: JsString)
    ensures |r| > 0 && forall i :: 0 <= i < |r| ==> IsDigit(r[i])
  {
    if n < 10 then [0x30 + n] else Digits(n / 10) + [0x30 + n % 10]
  }

  /** Reads the longest run of digits at the front of `s`, continuing from `acc`. */
  function ReadDigits(acc: nat, s: JsString): (r: (nat, JsString))
    ensures |r.1| <= |s|
    decreases |s|
  {
    if s != [] && IsDigit(s[0]) then ReadDigits(10 * acc + (s[0] - 0x30), s[1..]) else (acc, s)
  }

  lemma {:induction false} ReadDigitsOfDigits(n: nat, rest: JsString)
    ensures ReadDigits(0, Digits(n) + rest) == ReadDigits(n, rest)
  {
    if n < 10 {
      assert (Digits(n) + rest)[1..] == rest;
    } else {
      var last: JsString := [0x30 + n % 10];
      ReadDigitsOfDigits(n / 10, last + rest);
      assert Digits(n) + rest == Digits(n / 10) + (last + rest);
      assert (last + rest)[1..] == rest;
    }
  }
}
