/**
 * `canonicalJson` of the audit chain and the key sorting shared with content hashes:
 * the canonical text identifies a value exactly up to the order of object keys.
 */
module CanonicalJson {
  import opened Wrappers
  import opened Text
  import opened Json
  import opened Sorting

  /** A total order on keys: `.sort()`, `localeCompare` or the property order of a rebuilt object. */
  type Rank = JsString -> real

  ghost predicate TotalOrder(rank: Rank) {
    forall a: JsString, b: JsString :: rank(a) == rank(b) ==> a == b
  }

  function ByKey(rank: Rank): Field -> Key {
    (f: Field) => Key(0, rank(f.key))
  }

  /** `sortKeys`: the same value with the keys of every object in order. */
  function SortKeys(rank: Rank, v: Value): Value
    decreases v, 0
  {
    match v
    case Arr(items) => Arr(SortItems(rank, items))
    case Obj(fs) => Obj(SortBy(ByKey(rank), SortValues(rank, fs)))
    case _ => v
  }

  function SortItems(rank: Rank, items: seq<Value>): (r: seq<Value>)
    ensures |r| == |items|
    ensures forall i :: 0 <= i < |items| ==> r[i] == SortKeys(rank, items[i])
    decreases items, 1
  {
    if items == [] then [] else [SortKeys(rank, items[0])] + SortItems(rank, items[1..])
  }

  function SortValues(rank: Rank, fs: seq<Field>): (r: seq<Field>)
    ensures |r| == |fs|
    ensures forall i :: 0 <= i < |fs| ==> r[i] == Field(fs[i].key, SortKeys(rank, fs[i].value))
    decreases fs, 1
  {
    if fs == [] then [] else [Field(fs[0].key, SortKeys(rank, fs[0].value))] + SortValues(rank, fs[1..])
  }

  /** Equality up to the order of object keys, at every depth. */
  ghost predicate Equiv(v: Value, w: Value)
    decreases v
  {
    match v
    case Arr(a) => w.Arr? && |a| == |w.items| && forall i :: 0 <= i < |a| ==> Equiv(a[i], w.items[i])
    case Obj(fs) => w.Obj? && SameFields(fs, w.fields)
    case _ => v == w
  }

  ghost predicate SameFields(fs: seq<Field>, gs: seq<Field>)
    decreases fs
  {
    && |fs| == |gs|
    && (forall i :: 0 <= i < |fs| ==> Find(gs, fs[i].key).Some? && Equiv(fs[i].value, Find(gs, fs[i].key).value))
    && (forall j :: 0 <= j < |gs| ==> Find(fs, gs[j].key).Some?)
  }

  /** What two lookups find: nothing twice, or equivalent values. */
  ghost predicate FoundAlike(a: Option<Value>, b: Option<Value>) {
    if a.Some? then b.Some? && Equiv(a.value, b.value) else b.None?
  }

  /** What one object holds under a key, an equivalent one holds too, and nothing else. */
  lemma SameAt(fs: seq<Field>, gs: seq<Field>, key: JsString)
    requires SameFields(fs, gs)
    ensures FoundAlike(Find(fs, key), Find(gs, key))
  {
    if Find(fs, key).Some? {
      var i := FindIndex(fs, key);
    }
    if Find(gs, key).Some? {
      var j := FindIndex(gs, key);
    }
  }

  lemma {:induction false} EquivRefl(v: Value)
    requires WellFormed(v)
    ensures Equiv(v, v)
  {
    match v
    case Arr(items) =>
      forall i | 0 <= i < |items| {
        EquivRefl(items[i]);
      }
    case Obj(fs) =>
      forall i | 0 <= i < |fs| ensures Find(fs, fs[i].key).Some? && Equiv(fs[i].value, Find(fs, fs[i].key).value) {
        FindAt(fs, i);
        EquivRefl(fs[i].value);
      }
    case _ =>
  }

  lemma DistinctSorted(rank: Rank, fs: seq<Field>)
    requires TotalOrder(rank) && DistinctKeys(fs)
    ensures DistinctBy(ByKey(rank), SortValues(rank, fs))
  {
  }

  lemma {:induction false} EquivSorts(rank: Rank, v: Value, w: Value)
    requires TotalOrder(rank) && WellFormed(v) && WellFormed(w)
    ensures Equiv(v, w) <==> SortKeys(rank, v) == SortKeys(rank, w)
    decreases v
  {
    match v
    case Arr(a) =>
      if w.Arr? && |a| == |w.items| {
        forall i | 0 <= i < |a| {
          EquivSorts(rank, a[i], w.items[i]);
        }
        var sa, sw := SortItems(rank, a), SortItems(rank, w.items);
        assert sa == sw <==> forall i :: 0 <= i < |a| ==> SortKeys(rank, a[i]) == SortKeys(rank, w.items[i]);
      }
    case Obj(fs) =>
      if w.Obj? {
        var gs := w.fields;
        forall i, j | 0 <= i < |fs| && 0 <= j < |gs| {
          EquivSorts(rank, fs[i].value, gs[j].value);
        }
        var a, b := SortValues(rank, fs), SortValues(rank, gs);
        assert Images(fs, a, gs, b);
        DistinctSorted(rank, fs);
        DistinctSorted(rank, gs);
        if SameFields(fs, gs) {
          MatchedSortAlike(ByKey(rank), fs, a, gs, b);
        } else if SortBy(ByKey(rank), a) == SortBy(ByKey(rank), b) {
          SortedAlikeMatch(ByKey(rank), fs, a, gs, b);
        }
      }
    case _ =>
  }

  /** Images of two property lists that agree exactly where the values are equivalent. */
  ghost predicate Images(fs: seq<Field>, a: seq<Field>, gs: seq<Field>, b: seq<Field>) {
    && |a| == |fs|
    && |b| == |gs|
    && (forall i :: 0 <= i < |a| ==> a[i].key == fs[i].key)
    && (forall j :: 0 <= j < |b| ==> b[j].key == gs[j].key)
    && forall i, j :: 0 <= i < |a| && 0 <= j < |b| ==> (Equiv(fs[i].value, gs[j].value) <==> a[i].value == b[j].value)
  }

  lemma ImageFound(fs: seq<Field>, a: seq<Field>, gs: seq<Field>, b: seq<Field>, i: nat)
    requires Images(fs, a, gs, b) && i < |fs|
    requires Find(gs, fs[i].key).Some? && Equiv(fs[i].value, Find(gs, fs[i].key).value)
    ensures a[i] in b
  {
    var j := FindIndex(gs, fs[i].key);
    assert a[i] == b[j];
  }

  lemma ImageCovered(fs: seq<Field>, a: seq<Field>, gs: seq<Field>, b: seq<Field>, j: nat)
    requires Images(fs, a, gs, b) && DistinctKeys(gs) && j < |gs|
    requires Find(fs, gs[j].key).Some?
    requires forall i :: 0 <= i < |fs| ==> Find(gs, fs[i].key).Some? && Equiv(fs[i].value, Find(gs, fs[i].key).value)
    ensures b[j] in a
  {
    var i := FindIndex(fs, gs[j].key);
    FindAt(gs, j);
    assert a[i] == b[j];
  }

  lemma MatchedSortAlike(key: Field -> Key, fs: seq<Field>, a: seq<Field>, gs: seq<Field>, b: seq<Field>)
    requires Images(fs, a, gs, b) && DistinctBy(key, a) && DistinctBy(key, b) && DistinctKeys(gs)
    requires SameFields(fs, gs)
    ensures SortBy(key, a) == SortBy(key, b)
  {
    forall i | 0 <= i < |a| ensures a[i] in b {
      ImageFound(fs, a, gs, b, i);
    }
    forall j | 0 <= j < |b| ensures b[j] in a {
      ImageCovered(fs, a, gs, b, j);
    }
    SortUnique(key, a, b);
  }

  lemma SortedAlikeMatch(key: Field -> Key, fs: seq<Field>, a: seq<Field>, gs: seq<Field>, b: seq<Field>)
    requires Images(fs, a, gs, b) && DistinctKeys(fs) && DistinctKeys(gs)
    requires SortBy(key, a) == SortBy(key, b)
    ensures SameFields(fs, gs)
  {
    SortPermutes(key, a);
    SortPermutes(key, b);
    SameMembers(a, b);
    forall i | 0 <= i < |fs|
      ensures Find(gs, fs[i].key).Some? && Equiv(fs[i].value, Find(gs, fs[i].key).value)
    {
      assert a[i] in b;
      var j :| 0 <= j < |b| && b[j] == a[i];
      FindAt(gs, j);
    }
    forall j | 0 <= j < |gs| ensures Find(fs, gs[j].key).Some? {
      assert b[j] in a;
      var i :| 0 <= i < |a| && a[i] == b[j];
      FindAt(fs, i);
    }
  }

  /** Sorting keeps a value well formed and every object ends up ascending. */
  ghost predicate KeysAscend(rank: Rank, v: Value)
    decreases v
  {
    match v
    case Arr(items) => forall i :: 0 <= i < |items| ==> KeysAscend(rank, items[i])
    case Obj(fs) =>
      && (forall i, j :: 0 <= i < j < |fs| ==> rank(fs[i].key) < rank(fs[j].key))
      && forall i :: 0 <= i < |fs| ==> KeysAscend(rank, fs[i].value)
    case _ => true
  }

  lemma {:induction false} SortKeysAscends(rank: Rank, v: Value)
    requires TotalOrder(rank) && WellFormed(v)
    ensures KeysAscend(rank, SortKeys(rank, v)) && WellFormed(SortKeys(rank, v))
    decreases v
  {
    match v
    case Arr(items) =>
      forall i | 0 <= i < |items| {
        SortKeysAscends(rank, items[i]);
      }
    case Obj(fs) =>
      forall i | 0 <= i < |fs| {
        SortKeysAscends(rank, fs[i].value);
      }
      var key, a := ByKey(rank), SortValues(rank, fs);
      var r := SortBy(key, a);
      DistinctSorted(rank, fs);
      SortAscends(key, a);
      SortPermutes(key, a);
      SameMembers(r, a);
      forall i | 0 <= i < |r| ensures KeysAscend(rank, r[i].value) && WellFormed(r[i].value) {
        assert r[i] in a;
      }
      forall i, j | 0 <= i < j < |r| ensures rank(r[i].key) < rank(r[j].key) {
        assert Before(key(r[i]), key(r[j]));
      }
    case _ =>
  }

  /** A value whose keys already ascend is left alone, so sorting twice changes nothing. */
  lemma {:induction false} SortKeysFixes(rank: Rank, v: Value)
    requires KeysAscend(rank, v)
    ensures SortKeys(rank, v) == v
    decreases v
  {
    match v
    case Arr(items) =>
      forall i | 0 <= i < |items| {
        SortKeysFixes(rank, items[i]);
      }
      assert SortItems(rank, items) == items;
    case Obj(fs) =>
      forall i | 0 <= i < |fs| {
        SortKeysFixes(rank, fs[i].value);
      }
      assert SortValues(rank, fs) == fs;
      SortOfAscending(ByKey(rank), fs);
    case _ =>
  }

  // The two passes of canonicalJson

  /** The second pass: every code unit from DEL upward becomes a lower-case \\u escape. */
  function EscapeNonAscii(s: JsString): JsString {
    if s == [] then [] else EscapeHead(s[0]) + EscapeNonAscii(s[1..])
  }

  function EscapeHead(u: Unit): JsString {
    if u >= 0x7f then UnicodeEscape(u) else [u]
  }

  /** `canonicalJson`: serialise with sorted keys, then escape what is not ASCII. */
  function Canonical(rank: Rank, v: Value): JsString {
    EscapeNonAscii(Print(Serialized, SortKeys(rank, v)))
  }

  lemma PassHead(u: Unit, s: JsString)
    ensures EscapeNonAscii([u] + s) == EscapeHead(u) + EscapeNonAscii(s)
  {
    assert ([u] + s)[1..] == s;
  }

  lemma {:induction false} PassDistributes(s: JsString, t: JsString)
    ensures EscapeNonAscii(s + t) == EscapeNonAscii(s) + EscapeNonAscii(t)
  {
    if s == [] {
      assert s + t == t;
    } else {
      var u := s[0];
      PassDistributes(s[1..], t);
      assert s == [u] + s[1..];
      Associate([u], s[1..], t);
      PassHead(u, s[1..] + t);
      PassHead(u, s[1..]);
      Associate(EscapeHead(u), EscapeNonAscii(s[1..]), EscapeNonAscii(t));
    }
  }

  lemma {:induction false} PassKeepsAscii(s: JsString)
    requires forall i :: 0 <= i < |s| ==> s[i] < 0x7f
    ensures EscapeNonAscii(s) == s
  {
    if s != [] {
      PassKeepsAscii(s[1..]);
    }
  }

  lemma PassOnUnit(u: Unit)
    ensures EscapeNonAscii(EscapeUnit(Serialized, u)) == EscapeUnit(Ascii, u)
  {
    if u >= 0x7f {
      assert EscapeUnit(Serialized, u)[1..] == [];
    } else {
      PassKeepsAscii(EscapeUnit(Serialized, u));
    }
  }

  lemma {:induction false} PassOnEscaped(s: JsString)
    ensures EscapeNonAscii(Escaped(Serialized, s)) == Escaped(Ascii, s)
  {
    if s != [] {
      PassOnEscaped(s[1..]);
      PassOnUnit(s[0]);
      PassDistributes(EscapeUnit(Serialized, s[0]), Escaped(Serialized, s[1..]));
    }
  }

  lemma PassOnWrapped(open: Unit, s: JsString, close: Unit)
    requires open < 0x7f && close < 0x7f
    ensures EscapeNonAscii([open] + (s + [close])) == [open] + (EscapeNonAscii(s) + [close])
  {
    PassDistributes([open], s + [close]);
    PassDistributes(s, [close]);
    PassKeepsAscii([open]);
    PassKeepsAscii([close]);
  }

  lemma PassOnJoined(s: JsString, mid: Unit, t: JsString)
    requires mid < 0x7f
    ensures EscapeNonAscii(s + ([mid] + t)) == EscapeNonAscii(s) + ([mid] + EscapeNonAscii(t))
  {
    PassDistributes(s, [mid] + t);
    PassDistributes([mid], t);
    PassKeepsAscii([mid]);
  }

  lemma PassOnQuoted(s: JsString)
    ensures EscapeNonAscii(Quoted(Serialized, s)) == Quoted(Ascii, s)
  {
    PassOnEscaped(s);
    PassOnWrapped(QUOTE, Escaped(Serialized, s), QUOTE);
  }

  /** Escaping after serialising is the same as escaping each string on the way. */
  lemma {:induction false} TwoPasses(v: Value)
    ensures EscapeNonAscii(Print(Serialized, v)) == Print(Ascii, v)
    decreases v, 0
  {
    match v
    case Str(s) => PassOnQuoted(s);
    case Arr(items) =>
      TwoPassesItems(items);
      PassOnWrapped(LBRACKET, PrintItems(Serialized, items), RBRACKET);
    case Obj(fs) =>
      TwoPassesFields(fs);
      PassOnWrapped(LBRACE, PrintFields(Serialized, fs), RBRACE);
    case _ => PassKeepsAscii(Print(Serialized, v));
  }

  lemma {:induction false} TwoPassesItems(items: seq<Value>)
    ensures EscapeNonAscii(PrintItems(Serialized, items)) == PrintItems(Ascii, items)
    decreases items, 1
  {
    if items != [] {
      TwoPasses(items[0]);
      TwoPassesItems(items[1..]);
      PassOnJoined(Print(Serialized, items[0]), COMMA, PrintItems(Serialized, items[1..]));
    }
  }

  lemma TwoPassesField(f: Field)
    ensures EscapeNonAscii(PrintField(Serialized, f)) == PrintField(Ascii, f)
    decreases f, 1
  {
    PassOnQuoted(f.key);
    TwoPasses(f.value);
    PassOnJoined(Quoted(Serialized, f.key), COLON, Print(Serialized, f.value));
  }

  lemma {:induction false} TwoPassesFields(fs: seq<Field>)
    ensures EscapeNonAscii(PrintFields(Serialized, fs)) == PrintFields(Ascii, fs)
    decreases fs, 2
  {
    if fs != [] {
      TwoPassesField(fs[0]);
      TwoPassesFields(fs[1..]);
      PassOnJoined(PrintField(Serialized, fs[0]), COMMA, PrintFields(Serialized, fs[1..]));
    }
  }

  /** A reader recovers the value, with every object in key order. */
  lemma CanonicalParses(rank: Rank, v: Value)
    ensures Parse(Canonical(rank, v)) == Some(SortKeys(rank, v))
  {
    TwoPasses(SortKeys(rank, v));
    ParsePrint(Ascii, SortKeys(rank, v));
  }

  /** The canonical text identifies a value up to the order of keys, and only up to that. */
  lemma CanonicalIdentifies(rank: Rank, v: Value, w: Value)
    requires TotalOrder(rank) && WellFormed(v) && WellFormed(w)
    ensures Canonical(rank, v) == Canonical(rank, w) <==> Equiv(v, w)
  {
    CanonicalParses(rank, v);
    CanonicalParses(rank, w);
    EquivSorts(rank, v, w);
  }

  predicate Printable(s: JsString) {
    forall i :: 0 <= i < |s| ==> 0x20 <= s[i] < 0x7f
  }

  lemma PrintableJoined(a: JsString, mid: Unit, b: JsString)
    requires Printable(a) && 0x20 <= mid < 0x7f && Printable(b)
    ensures Printable(a + ([mid] + b))
  {
  }

  lemma PrintableHex(u: Unit)
    ensures Printable(UnicodeEscape(u))
  {
  }

  lemma {:induction false} PrintableEscaped(style: Style, s: JsString)
    requires style.Ascii? || style.Python?
    ensures Printable(Escaped(style, s))
  {
    if s != [] {
      PrintableHex(s[0]);
      PrintableEscaped(style, s[1..]);
    }
  }

  lemma PrintableFraction(p: Fraction)
    ensures Printable(FractionText(p))
  {
    PrintableJoined(Digits(p.whole), DOT, p.digits);
  }

  lemma PrintableInteger(style: Style, n: JsInt)
    ensures Printable(IntegerText(style, n))
  {
  }

  lemma PrintableWrapped(open: Unit, s: JsString, close: Unit)
    requires 0x20 <= open < 0x7f && Printable(s) && 0x20 <= close < 0x7f
    ensures Printable([open] + (s + [close]))
  {
  }

  lemma {:induction false} PrintableText(style: Style, v: Value)
    requires style.Ascii? || style.Python?
    ensures Printable(Print(style, v))
    decreases v, 0
  {
    match v
    case Num(n) => PrintableInteger(style, n);
    case Frac(p) => PrintableFraction(p);
    case Str(s) =>
      PrintableEscaped(style, s);
      PrintableWrapped(QUOTE, Escaped(style, s), QUOTE);
    case Arr(items) =>
      PrintableItems(style, items);
      PrintableWrapped(LBRACKET, PrintItems(style, items), RBRACKET);
    case Obj(fs) =>
      PrintableFields(style, fs);
      PrintableWrapped(LBRACE, PrintFields(style, fs), RBRACE);
    case _ =>
  }

  lemma {:induction false} PrintableItems(style: Style, items: seq<Value>)
    requires style.Ascii? || style.Python?
    ensures Printable(PrintItems(style, items))
    decreases items, 1
  {
    if items != [] {
      PrintableText(style, items[0]);
      PrintableItems(style, items[1..]);
      PrintableJoined(Print(style, items[0]), COMMA, PrintItems(style, items[1..]));
    }
  }

  lemma {:induction false} PrintableFields(style: Style, fs: seq<Field>)
    requires style.Ascii? || style.Python?
    ensures Printable(PrintFields(style, fs))
    decreases fs, 2
  {
    if fs != [] {
      PrintableField(style, fs[0]);
      PrintableFields(style, fs[1..]);
      PrintableJoined(PrintField(style, fs[0]), COMMA, PrintFields(style, fs[1..]));
    }
  }

  lemma PrintableField(style: Style, f: Field)
    requires style.Ascii? || style.Python?
    ensures Printable(PrintField(style, f))
    decreases f, 1
  {
    PrintableEscaped(style, f.key);
    PrintableText(style, f.value);
    PrintableJoined(Quoted(style, f.key), COLON, Print(style, f.value));
  }

  /** Every character of the canonical text is printable ASCII. */
  lemma CanonicalIsPrintable(rank: Rank, v: Value)
    ensures Printable(Canonical(rank, v))
  {
    TwoPasses(SortKeys(rank, v));
    PrintableText(Ascii, SortKeys(rank, v));
  }

  // Escaping

  lemma EscapeStep(out: JsString, value: JsString, i: nat, all: JsString)
    requires i < |value|
    requires out + Escaped(Serialized, value[i..]) == all
    ensures out + EscapeUnit(Serialized, value[i]) + Escaped(Serialized, value[i + 1..]) == all
  {
    assert value[i..][1..] == value[i + 1..];
    Associate(out, EscapeUnit(Serialized, value[i]), Escaped(Serialized, value[i + 1..]));
  }

  /** `escapeString`. */
  method EscapeString(value: JsString) returns (out: JsString)
    ensures out == Quoted(Serialized, value)
    ensures EscapeNonAscii(out) == Print(Ascii, Str(value))
  {
    ghost var all := [QUOTE] + Escaped(Serialized, value);
    out := [QUOTE];
    assert value[0..] == value;
    for i := 0 to |value|
      invariant out + Escaped(Serialized, value[i..]) == all
    {
      EscapeStep(out, value, i, all);
      if value[i] == QUOTE {
        out := out + [BACKSLASH, QUOTE];
      } else if value[i] == BACKSLASH {
        out := out + [BACKSLASH, BACKSLASH];
      } else if value[i] < 0x20 {
        out := out + UnicodeEscape(value[i]);
      } else {
        out := out + [value[i]];
      }
    }
    assert out + [] == out;
    out := out + [QUOTE];
    Associate([QUOTE], Escaped(Serialized, value), [QUOTE]);
    PassOnQuoted(value);
  }
}
