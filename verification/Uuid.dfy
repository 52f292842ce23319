/**
 * UUID texts, and the version 7 generator: the timestamp is recoverable from the text and
 * orders it (section 5.7 of RFC 9562).
 */
module Uuid {
  import opened Wrappers
  import opened Text

  const DASH: Unit := 0x2d

  // Texts

  function HexBytes(bs: seq<Byte>): (h: JsString)
    ensures |h| == 2 * |bs|
  {
    if bs == [] then [] else HexByte(bs[0]) + HexBytes(bs[1..])
  }

  /** Hexadecimal in groups of 8, 4, 4, 4 and 12 digits. */
  function Format(bs: seq<Byte>): (r: JsString)
    requires |bs| == 16
    ensures |r| == 36
  {
    var h := HexBytes(bs);
    h[..8] + [DASH] + h[8..12] + [DASH] + h[12..16] + [DASH] + h[16..20] + [DASH] + h[20..]
  }

  /** `uuid.replace(/-/g, '')`. */
  function StripDashes(s: JsString): JsString {
    if s == [] then [] else (if s[0] == DASH then [] else [s[0]]) + StripDashes(s[1..])
  }

  function UnHexBytes(h: JsString): (r: Option<seq<Byte>>)
    ensures r.Some? ==> 2 * |r.value| == |h|
  {
    if h == [] then Some([])
    else if |h| < 2 || UnHexByte(h[0], h[1]) < 0 then None
    else
      var rest := UnHexBytes(h[2..]);
      var first: int := UnHexByte(h[0], h[1]);
      if rest.None? then None else Some([first] + rest.value)
  }

  /** The bytes of a UUID text: dashes are ignored wherever they stand, and 32 digits must remain. */
  function Parse(s: JsString): (r: Option<seq<Byte>>)
    ensures r.Some? ==> |r.value| == 16
  {
    var h := StripDashes(s);
    if |h| == 32 then UnHexBytes(h) else None
  }

  lemma {:induction false} UnHexOfHex(bs: seq<Byte>)
    ensures UnHexBytes(HexBytes(bs)) == Some(bs)
  {
    if bs != [] {
      UnHexOfHex(bs[1..]);
      HexByteRoundTrip(bs[0]);
      var h := HexBytes(bs);
      assert h[2..] == HexBytes(bs[1..]);
      assert bs == [bs[0]] + bs[1..];
    }
  }

  lemma {:induction false} HexHasNoDash(bs: seq<Byte>)
    ensures DASH !in HexBytes(bs)
  {
    if bs != [] {
      HexHasNoDash(bs[1..]);
      assert DASH !in HexByte(bs[0]);
    }
  }

  lemma {:induction false} StripConcat(s: JsString, t: JsString)
    ensures StripDashes(s + t) == StripDashes(s) + StripDashes(t)
  {
    if s == [] {
      assert s + t == t;
    } else {
      StripConcat(s[1..], t);
      assert (s + t)[1..] == s[1..] + t && (s + t)[0] == s[0];
      Associate(if s[0] == DASH then [] else [s[0]], StripDashes(s[1..]), StripDashes(t));
    }
  }

  lemma {:induction false} StripKeeps(s: JsString)
    requires DASH !in s
    ensures StripDashes(s) == s
  {
    if s != [] {
      StripKeeps(s[1..]);
    }
  }

  lemma StripGroup(s: JsString, t: JsString)
    requires DASH !in t
    ensures StripDashes(s + [DASH] + t) == StripDashes(s) + t
  {
    StripConcat(s + [DASH], t);
    StripConcat(s, [DASH]);
    StripKeeps(t);
    assert [DASH][1..] == [] && StripDashes([DASH]) == [];
    assert StripDashes(s) + [] == StripDashes(s);
  }

  /** Printing a UUID and reading it back gives its bytes. */
  lemma ParseFormat(bs: seq<Byte>)
    requires |bs| == 16
    ensures Parse(Format(bs)) == Some(bs)
  {
    var h := HexBytes(bs);
    HexHasNoDash(bs);
    StripKeeps(h[..8]);
    StripGroup(h[..8], h[8..12]);
    StripGroup(h[..8] + [DASH] + h[8..12], h[12..16]);
    StripGroup(h[..8] + [DASH] + h[8..12] + [DASH] + h[12..16], h[16..20]);
    StripGroup(h[..8] + [DASH] + h[8..12] + [DASH] + h[12..16] + [DASH] + h[16..20], h[20..]);
    assert h == h[..8] + h[8..12] + h[12..16] + h[16..20] + h[20..];
    UnHexOfHex(bs);
  }

  /** The lower-case form of an ASCII text. */
  function Lowered(s: JsString): (r: JsString)
    ensures |r| == |s|
  {
    seq(|s|, i requires 0 <= i < |s| => if 0x41 <= s[i] <= 0x5a then s[i] + 0x20 else s[i])
  }

  predicate Ascii(s: JsString) {
    forall i :: 0 <= i < |s| ==> s[i] < 0x80
  }

  predicate NoCapitals(s: JsString) {
    forall i :: 0 <= i < |s| ==> !(0x41 <= s[i] <= 0x5a)
  }

  lemma {:induction false} HexIsLower(bs: seq<Byte>)
    ensures Ascii(HexBytes(bs)) && NoCapitals(HexBytes(bs))
  {
    if bs != [] {
      HexIsLower(bs[1..]);
      var first := HexByte(bs[0]);
      assert Ascii(first) && NoCapitals(first);
    }
  }

  lemma FormatIsLower(bs: seq<Byte>)
    requires |bs| == 16
    ensures Ascii(Format(bs)) && NoCapitals(Format(bs))
  {
    HexIsLower(bs);
  }

  // Version 7

  /** The `k` low bytes of `ts`, most significant first. */
  function BigEndian(ts: nat, k: nat): (r: seq<Byte>)
    ensures |r| == k
  {
    if k == 0 then [] else BigEndian(ts / 256, k - 1) + [ts % 256]
  }

  /** The number a byte sequence denotes, most significant first. */
  function Value(bs: seq<Byte>): nat {
    if bs == [] then 0 else 256 * Value(bs[..|bs| - 1]) + bs[|bs| - 1]
  }

  function Pow256(k: nat): (p: nat)
    ensures p > 0
  {
    if k == 0 then 1 else 256 * Pow256(k - 1)
  }

  const TIMESTAMPS: nat := 0x1_0000_0000_0000

  /** The sixteen bytes: 48 bits of time, then random bits under the version and variant marks. */
  function Layout(now: nat, random: seq<Byte>): (r: seq<Byte>)
    requires |random| == 16
    ensures |r| == 16
  {
    BigEndian(now, 6) + [0x70 + random[6] % 16] + [random[7]] + [0x80 + random[8] % 64] + random[9..]
  }

  datatype Failure = NotAMillisecondCount

  /** The loop that writes the 48-bit big-endian time. */
  method WriteTimestamp(bytes: array<Byte>, now: nat)
    requires bytes.Length == 16
    modifies bytes
    ensures bytes[..6] == BigEndian(now, 6) && bytes[6..] == old(bytes[6..])
  {
    var ts := now;
    var i := 5;
    while i >= 0
      invariant -1 <= i <= 5 && ts >= 0
      invariant BigEndian(ts, i + 1) + bytes[i + 1..6] == BigEndian(now, 6)
      invariant bytes[6..] == old(bytes[6..])
    {
      ghost var tail := bytes[i + 1..6];
      bytes[i] := ts % 256;
      assert bytes[i..6] == [ts % 256] + tail;
      assert BigEndian(ts / 256, i) + ([ts % 256] + tail) == BigEndian(ts, i + 1) + tail;
      ts := ts / 256;
      i := i - 1;
    }
    assert bytes[..6] == BigEndian(ts, 0) + bytes[0..6];
  }

  /** `uuidv7`. */
  method Uuidv7(now: int, random: seq<Byte>) returns (r: Result<JsString, Failure>)
    requires |random| == 16
    ensures r == if now < 0 then Err(NotAMillisecondCount) else Ok(Format(Layout(now, random)))
  {
    if now < 0 {
      return Err(NotAMillisecondCount);
    }
    var bytes := new Byte[16](i requires 0 <= i < 16 => random[i]);
    assert bytes[6..] == random[6..];
    WriteTimestamp(bytes, now);
    assert forall i :: 6 <= i < 16 ==> bytes[i] == bytes[6..][i - 6] == random[i];
    bytes[6] := 0x70 + bytes[6] % 16;
    bytes[8] := 0x80 + bytes[8] % 64;
    assert bytes[..6] == BigEndian(now, 6) && bytes[9..] == random[9..];
    assert bytes[..] == bytes[..6] + [bytes[6]] + [bytes[7]] + [bytes[8]] + bytes[9..];
    r := Ok(Format(bytes[..]));
  }

  lemma {:induction false} ValueOfBigEndian(ts: nat, k: nat)
    ensures Value(BigEndian(ts, k)) == ts % Pow256(k)
  {
    if k > 0 {
      ValueOfBigEndian(ts / 256, k - 1);
      var bs := BigEndian(ts, k);
      assert bs[..k - 1] == BigEndian(ts / 256, k - 1);
      ModSplit(ts, Pow256(k - 1));
    }
  }

  lemma ModSplit(ts: nat, p: nat)
    requires p > 0
    ensures 256 * (ts / 256 % p) + ts % 256 == ts % (256 * p)
  {
    var q, r := ts / 256 / p, ts / 256 % p;
    assert ts / 256 == q * p + r;
    assert ts == 256 * (q * p + r) + ts % 256;
    var low := 256 * r + ts % 256;
    assert ts == q * (256 * p) + low by {
      assert 256 * (q * p) == q * (256 * p);
    }
    assert 0 <= low < 256 * p;
    DivModUnique(ts, 256 * p, q, low);
  }

  lemma DivModUnique(a: int, d: int, q: int, r: int)
    requires d > 0 && a == q * d + r && 0 <= r < d
    ensures a % d == r
  {
    var q', r' := a / d, a % d;
    assert a == q' * d + r';
    if q > q' {
      QuotientGap(q, q', d);
      assert false;
    } else if q' > q {
      QuotientGap(q', q, d);
      assert false;
    }
  }

  lemma QuotientGap(q: int, p: int, d: int)
    requires d > 0 && q > p
    ensures q * d >= p * d + d
  {
    var x := q - p - 1;
    assert q * d == p * d + x * d + d;
    assert x * d >= 0;
  }

  /**
   * Reading the text back: the first 48 bits are the timestamp modulo 2^48, so they are
   * the timestamp exactly when it fits; the version is 7 and the variant bits are 10.
   */
  lemma TimestampRecovered(now: nat, random: seq<Byte>)
    requires |random| == 16
    ensures var bs := Parse(Format(Layout(now, random)));
      && bs.Some?
      && Value(bs.value[..6]) == now % TIMESTAMPS
      && (Value(bs.value[..6]) == now <==> now < TIMESTAMPS)
      && bs.value[6] / 16 == 7 && bs.value[8] / 64 == 2
      && bs.value[6] % 16 == random[6] % 16 && bs.value[8] % 64 == random[8] % 64
      && bs.value[7] == random[7] && bs.value[9..] == random[9..]
  {
    var bs := Layout(now, random);
    ParseFormat(bs);
    assert bs[..6] == BigEndian(now, 6);
    ValueOfBigEndian(now, 6);
    assert Pow256(6) == TIMESTAMPS;
    assert bs[9..] == random[9..];
  }

  /** Lexicographic order at index `i`. */
  ghost predicate LessAt(s: seq<int>, t: seq<int>, i: nat) {
    i < |s| && i < |t| && s[..i] == t[..i] && s[i] < t[i]
  }

  lemma {:induction false} BigEndianOrders(a: nat, b: nat, k: nat) returns (i: nat)
    requires k > 0 && a < b < Pow256(k)
    ensures i < k && LessAt(BigEndian(a, k), BigEndian(b, k), i)
  {
    var x, y := BigEndian(a, k), BigEndian(b, k);
    var p, q := BigEndian(a / 256, k - 1), BigEndian(b / 256, k - 1);
    assert x[..k - 1] == p && y[..k - 1] == q;
    if a / 256 < b / 256 {
      assert b / 256 < Pow256(k - 1);
      i := BigEndianOrders(a / 256, b / 256, k - 1);
      assert x[..i] == p[..i] && y[..i] == q[..i];
    } else {
      i := k - 1;
    }
  }

  lemma HexByteOrders(a: Byte, b: Byte)
    requires a < b
    ensures var x, y := HexByte(a), HexByte(b); x[0] < y[0] || (x[0] == y[0] && x[1] < y[1])
  {
    assert a / 16 < b / 16 || (a / 16 == b / 16 && a % 16 < b % 16);
  }

  lemma {:induction false} HexOrders(s: seq<Byte>, t: seq<Byte>, i: nat) returns (j: nat)
    requires LessAt(s, t, i)
    ensures j <= 2 * i + 1 && LessAt(HexBytes(s), HexBytes(t), j)
    decreases i
  {
    var x, y := HexBytes(s), HexBytes(t);
    if i == 0 {
      HexByteOrders(s[0], t[0]);
      j := if x[0] < y[0] then 0 else 1;
    } else {
      assert s[0] == s[..i][0] == t[..i][0] == t[0];
      assert s[1..][..i - 1] == s[..i][1..] && t[1..][..i - 1] == t[..i][1..];
      j := HexOrders(s[1..], t[1..], i - 1);
      var x', y' := HexBytes(s[1..]), HexBytes(t[1..]);
      assert x == HexByte(s[0]) + x' && y == HexByte(t[0]) + y';
      assert x[..j + 2] == HexByte(s[0]) + x'[..j] && y[..j + 2] == HexByte(t[0]) + y'[..j];
      j := j + 2;
    }
  }

  /** The dash after the eighth digit shifts what follows it, in both texts alike. */
  lemma FormatOrders(s: seq<Byte>, t: seq<Byte>, j: nat) returns (k: nat)
    requires |s| == 16 && |t| == 16 && j < 12
    requires LessAt(HexBytes(s), HexBytes(t), j)
    ensures LessAt(Format(s), Format(t), k)
  {
    var g, h := HexBytes(s), HexBytes(t);
    var x, y := Format(s), Format(t);
    k := if j < 8 then j else j + 1;
    FormatAt(s);
    FormatAt(t);
    forall i | 0 <= i < k ensures x[i] == y[i] {
      if i != 8 {
        var d := if i < 8 then i else i - 1;
        assert g[..j][d] == h[..j][d];
      }
    }
  }

  lemma FormatAt(s: seq<Byte>)
    requires |s| == 16
    ensures forall i :: 0 <= i < 13 ==>
      Format(s)[i] == if i < 8 then HexBytes(s)[i] else if i == 8 then DASH else HexBytes(s)[i - 1]
  {
    var h := HexBytes(s);
    var head, rest := h[..8] + [DASH] + h[8..12], [DASH] + h[12..16] + [DASH] + h[16..20] + [DASH] + h[20..];
    assert Format(s) == head + rest;
    assert forall i :: 0 <= i < 13 ==> head[i] == if i < 8 then h[i] else if i == 8 then DASH else h[i - 1];
  }

  /** While timestamps fit 48 bits, an earlier one always gives a lexicographically smaller text. */
  lemma TextOrderIsTimeOrder(a: nat, b: nat, r1: seq<Byte>, r2: seq<Byte>) returns (k: nat)
    requires |r1| == 16 && |r2| == 16 && a < b < TIMESTAMPS
    ensures LessAt(Format(Layout(a, r1)), Format(Layout(b, r2)), k)
  {
    assert Pow256(6) == TIMESTAMPS;
    var i := BigEndianOrders(a, b, 6);
    var s, t := Layout(a, r1), Layout(b, r2);
    assert s[..6] == BigEndian(a, 6) && t[..6] == BigEndian(b, 6);
    assert s[..i] == s[..6][..i] && t[..i] == t[..6][..i];
    var j := HexOrders(s, t, i);
    k := FormatOrders(s, t, j);
  }
}
