/**
 * The audit chain's promise that `canonicalJson` prints what Python's
 * `json.dumps(value, sort_keys=True, separators=(",", ":"))` prints, and exactly when it does.
 * Python sorts keys by code point, `Array.prototype.sort` by UTF-16 code unit.
 */
module PythonDump {
  import opened Wrappers
  import opened Text
  import opened Doubles
  import opened Json
  import opened Sorting
  import opened CanonicalJson

  // The control characters and the integers

  predicate NoShortEscapes(s: JsString) {
    forall i :: 0 <= i < |s| ==> ShortLetter(s[i]) == 0
  }

  /**
   * No string or key holds a backspace, tab, newline, form feed or carriage return, and no
   * integer is shortened: below 2^53 none is (`SafeIsExact`), beyond it those are not that no
   * decimal with more trailing zeros reads as (`ExactIff`).
   */
  predicate PlainText(v: Value)
    decreases v
  {
    match v
    case Num(n) => Shortest(Magnitude(n)) == Magnitude(n)
    case Str(s) => NoShortEscapes(s)
    case Arr(items) => forall i :: 0 <= i < |items| ==> PlainText(items[i])
    case Obj(fs) => forall i :: 0 <= i < |fs| ==> PlainField(fs[i])
    case _ => true
  }

  predicate PlainField(f: Field)
    decreases f
  {
    NoShortEscapes(f.key) && PlainText(f.value)
  }

  /** Ours is no shorter, and the same exactly when `plain`: what separates the two writers. */
  ghost predicate Compares(ours: JsString, theirs: JsString, plain: bool) {
    |ours| >= |theirs| && (ours == theirs <==> plain)
  }

  lemma ComparesAppended(a: JsString, b: JsString, p: bool, c: JsString, d: JsString, q: bool)
    requires Compares(a, b, p) && Compares(c, d, q)
    ensures Compares(a + c, b + d, p && q)
  {
    var x, y := a + c, b + d;
    if x == y {
      assert |a| == |b| && |c| == |d|;
      assert a == x[..|a|] && b == y[..|b|] && c == x[|a|..] && d == y[|b|..];
    }
  }

  lemma ComparesJoined(a: JsString, b: JsString, p: bool, mid: JsString, c: JsString, d: JsString, q: bool)
    requires Compares(a, b, p) && Compares(c, d, q)
    ensures Compares(a + (mid + c), b + (mid + d), p && q)
  {
    ComparesAppended(mid, mid, true, c, d, q);
    ComparesAppended(a, b, p, mid + c, mid + d, q);
  }

  lemma DigitsDiffer(a: nat, b: nat)
    ensures Digits(a) == Digits(b) <==> a == b
  {
    ReadDigitsOfDigits(a, []);
    ReadDigitsOfDigits(b, []);
    assert Digits(a) + [] == Digits(a) && Digits(b) + [] == Digits(b);
  }

  lemma IntegerCompares(n: JsInt)
    ensures Compares(IntegerText(Ascii, n), IntegerText(Python, n), Shortest(Magnitude(n)) == Magnitude(n))
  {
    var m := Magnitude(n);
    ShortestKeepsLength(m);
    DigitsDiffer(Shortest(m), m);
    var sign: JsString := if n < 0 then [MINUS] else [];
    ComparesAppended(sign, sign, true, Digits(Shortest(m)), Digits(m), Shortest(m) == m);
  }

  lemma {:induction false} EscapedCompares(s: JsString)
    ensures Compares(Escaped(Ascii, s), Escaped(Python, s), NoShortEscapes(s))
  {
    if s != [] {
      EscapedCompares(s[1..]);
      assert NoShortEscapes(s) <==> ShortLetter(s[0]) == 0 && NoShortEscapes(s[1..]);
      UnitCompares(s[0]);
      ComparesAppended(EscapeUnit(Ascii, s[0]), EscapeUnit(Python, s[0]), ShortLetter(s[0]) == 0,
                       Escaped(Ascii, s[1..]), Escaped(Python, s[1..]), NoShortEscapes(s[1..]));
    }
  }

  lemma UnitCompares(u: Unit)
    ensures Compares(EscapeUnit(Ascii, u), EscapeUnit(Python, u), ShortLetter(u) == 0)
  {
  }

  lemma QuotedCompares(s: JsString)
    ensures Compares(Quoted(Ascii, s), Quoted(Python, s), NoShortEscapes(s))
  {
    EscapedCompares(s);
    WrappedCompares(QUOTE, Escaped(Ascii, s), Escaped(Python, s), NoShortEscapes(s), QUOTE);
  }

  lemma WrappedCompares(open: Unit, a: JsString, b: JsString, p: bool, close: Unit)
    requires Compares(a, b, p)
    ensures Compares([open] + (a + [close]), [open] + (b + [close]), p)
  {
    ComparesAppended(a, b, p, [close], [close], true);
    ComparesAppended([open], [open], true, a + [close], b + [close], p);
  }

  lemma Empties(s: JsString)
    ensures [] + s == s
  {
  }

  lemma {:induction false} PrintCompares(v: Value)
    ensures Compares(Print(Ascii, v), Print(Python, v), PlainText(v))
    decreases v, 0
  {
    match v
    case Num(n) => IntegerCompares(n);
    case Str(s) => QuotedCompares(s);
    case Arr(items) =>
      ItemsCompare(items);
      WrappedCompares(LBRACKET, PrintItems(Ascii, items), PrintItems(Python, items), PlainText(v), RBRACKET);
    case Obj(fs) =>
      FieldsCompare(fs);
      WrappedCompares(LBRACE, PrintFields(Ascii, fs), PrintFields(Python, fs), PlainText(v), RBRACE);
    case _ =>
  }

  lemma {:induction false} ItemsCompare(items: seq<Value>)
    ensures Compares(PrintItems(Ascii, items), PrintItems(Python, items), PlainText(Arr(items)))
    decreases items, 1
  {
    if items != [] {
      PrintCompares(items[0]);
      ItemsCompare(items[1..]);
      assert PlainText(Arr(items)) <==> PlainText(items[0]) && PlainText(Arr(items[1..]));
      ComparesJoined(Print(Ascii, items[0]), Print(Python, items[0]), PlainText(items[0]), [COMMA],
                     PrintItems(Ascii, items[1..]), PrintItems(Python, items[1..]), PlainText(Arr(items[1..])));
    }
  }

  lemma FieldCompares(f: Field)
    ensures Compares(PrintField(Ascii, f), PrintField(Python, f), PlainField(f))
    decreases f, 1
  {
    QuotedCompares(f.key);
    PrintCompares(f.value);
    ComparesJoined(Quoted(Ascii, f.key), Quoted(Python, f.key), NoShortEscapes(f.key), [COLON],
                   Print(Ascii, f.value), Print(Python, f.value), PlainText(f.value));
  }

  lemma {:induction false} FieldsCompare(fs: seq<Field>)
    ensures Compares(PrintFields(Ascii, fs), PrintFields(Python, fs), PlainText(Obj(fs)))
    decreases fs, 2
  {
    if fs != [] {
      FieldCompares(fs[0]);
      FieldsCompare(fs[1..]);
      assert PlainText(Obj(fs)) <==> PlainField(fs[0]) && PlainText(Obj(fs[1..]));
      ComparesJoined(PrintField(Ascii, fs[0]), PrintField(Python, fs[0]), PlainField(fs[0]), [COMMA],
                     PrintFields(Ascii, fs[1..]), PrintFields(Python, fs[1..]), PlainText(Obj(fs[1..])));
    }
  }

  /** Over one key order the two writers agree exactly on values without those five characters. */
  lemma WritersAgreeIff(v: Value)
    ensures EscapeNonAscii(Print(Serialized, v)) == Print(Python, v) <==> PlainText(v)
  {
    TwoPasses(v);
    PrintCompares(v);
  }

  lemma {:induction false} PlainTextSorted(rank: Rank, v: Value)
    ensures PlainText(SortKeys(rank, v)) <==> PlainText(v)
    decreases v
  {
    match v
    case Arr(items) =>
      forall i | 0 <= i < |items| {
        PlainTextSorted(rank, items[i]);
      }
      assert forall i :: 0 <= i < |items| ==> SortItems(rank, items)[i] == SortKeys(rank, items[i]);
    case Obj(fs) =>
      forall i | 0 <= i < |fs| {
        PlainTextSorted(rank, fs[i].value);
      }
      PlainFieldsSorted(ByKey(rank), fs, SortValues(rank, fs));
    case _ =>
  }

  lemma PlainFieldsSorted(key: Field -> Key, fs: seq<Field>, a: seq<Field>)
    requires |a| == |fs|
    requires forall i :: 0 <= i < |fs| ==> (PlainField(a[i]) <==> PlainField(fs[i]))
    ensures PlainText(Obj(SortBy(key, a))) <==> PlainText(Obj(fs))
  {
    SortPermutes(key, a);
    PlainFieldsPermute(SortBy(key, a), a);
    PlainFieldsAlike(fs, a);
  }

  lemma PlainFieldsAlike(fs: seq<Field>, a: seq<Field>)
    requires |a| == |fs|
    requires forall i :: 0 <= i < |fs| ==> (PlainField(a[i]) <==> PlainField(fs[i]))
    ensures PlainText(Obj(a)) <==> PlainText(Obj(fs))
  {
  }

  lemma PlainFieldsPermute(a: seq<Field>, b: seq<Field>)
    requires multiset(a) == multiset(b)
    ensures PlainText(Obj(a)) <==> PlainText(Obj(b))
  {
    SameMembers(a, b);
    assert PlainText(Obj(a)) <==> forall f :: f in a ==> PlainField(f);
    assert PlainText(Obj(b)) <==> forall f :: f in b ==> PlainField(f);
    assert forall f :: f in a <==> f in b;
  }

  // Two key orders

  /** The two orders rank every pair of sibling keys alike, at every depth. */
  ghost predicate OrdersAlike(r1: Rank, r2: Rank, v: Value)
    decreases v
  {
    match v
    case Arr(items) => forall i :: 0 <= i < |items| ==> OrdersAlike(r1, r2, items[i])
    case Obj(fs) =>
      && SiblingsAlike(r1, r2, fs)
      && forall i :: 0 <= i < |fs| ==> OrdersAlike(r1, r2, fs[i].value)
    case _ => true
  }

  ghost predicate SiblingsAlike(r1: Rank, r2: Rank, fs: seq<Field>) {
    forall i, j :: 0 <= i < |fs| && 0 <= j < |fs| ==>
      (r1(fs[i].key) < r1(fs[j].key) <==> r2(fs[i].key) < r2(fs[j].key))
  }

  /** Sorting by two orders gives one value exactly when they rank all siblings alike. */
  lemma {:induction false} SortsAlikeIff(r1: Rank, r2: Rank, v: Value)
    requires TotalOrder(r1) && TotalOrder(r2) && WellFormed(v)
    ensures SortKeys(r1, v) == SortKeys(r2, v) <==> OrdersAlike(r1, r2, v)
    decreases v
  {
    match v
    case Arr(items) =>
      forall i | 0 <= i < |items| {
        SortsAlikeIff(r1, r2, items[i]);
      }
      var a, b := SortItems(r1, items), SortItems(r2, items);
      assert a == b <==> forall i :: 0 <= i < |items| ==> a[i] == b[i];
    case Obj(fs) =>
      forall i | 0 <= i < |fs| {
        SortsAlikeIff(r1, r2, fs[i].value);
      }
      ObjectSortsAlikeIff(r1, r2, fs, SortValues(r1, fs), SortValues(r2, fs));
    case _ =>
  }

  lemma ObjectSortsAlikeIff(r1: Rank, r2: Rank, fs: seq<Field>, a: seq<Field>, b: seq<Field>)
    requires TotalOrder(r1) && TotalOrder(r2) && DistinctKeys(fs) && |a| == |fs| == |b|
    requires forall i :: 0 <= i < |fs| ==> a[i].key == fs[i].key == b[i].key
    ensures SortBy(ByKey(r1), a) == SortBy(ByKey(r2), b) <==> a == b && SiblingsAlike(r1, r2, fs)
  {
    if SortBy(ByKey(r1), a) == SortBy(ByKey(r2), b) {
      SortedAlikeSame(r1, r2, fs, a, b);
      SortedAlikeSiblings(r1, r2, a);
    } else if a == b && SiblingsAlike(r1, r2, fs) {
      SiblingsSortAlike(r1, r2, a);
    }
  }

  lemma SortedAlikeSame(r1: Rank, r2: Rank, fs: seq<Field>, a: seq<Field>, b: seq<Field>)
    requires DistinctKeys(fs) && |a| == |fs| == |b|
    requires forall i :: 0 <= i < |fs| ==> a[i].key == fs[i].key == b[i].key
    requires SortBy(ByKey(r1), a) == SortBy(ByKey(r2), b)
    ensures a == b
  {
    SortPermutes(ByKey(r1), a);
    SortPermutes(ByKey(r2), b);
    SameMembers(a, b);
    forall i | 0 <= i < |a| ensures a[i] == b[i] {
      SameAtKey(fs, a, b, i);
    }
  }

  lemma SameAtKey(fs: seq<Field>, a: seq<Field>, b: seq<Field>, i: nat)
    requires DistinctKeys(fs) && |a| == |fs| == |b| && i < |a| && a[i] in b
    requires forall k :: 0 <= k < |fs| ==> a[k].key == fs[k].key == b[k].key
    ensures a[i] == b[i]
  {
    var j :| 0 <= j < |b| && b[j] == a[i];
    assert fs[i].key == fs[j].key;
  }

  lemma SortedAlikeSiblings(r1: Rank, r2: Rank, a: seq<Field>)
    requires TotalOrder(r1) && TotalOrder(r2) && DistinctKeys(a)
    requires SortBy(ByKey(r1), a) == SortBy(ByKey(r2), a)
    ensures SiblingsAlike(r1, r2, a)
  {
    var s := SortBy(ByKey(r1), a);
    SortAscends(ByKey(r1), a);
    SortAscends(ByKey(r2), a);
    SortPermutes(ByKey(r1), a);
    SameMembers(s, a);
    forall i, j | 0 <= i < |a| && 0 <= j < |a|
      ensures r1(a[i].key) < r1(a[j].key) <==> r2(a[i].key) < r2(a[j].key)
    {
      PairAlike(r1, r2, s, a[i], a[j]);
    }
  }

  lemma PairAlike(r1: Rank, r2: Rank, s: seq<Field>, f: Field, g: Field)
    requires Ascending(ByKey(r1), s) && Ascending(ByKey(r2), s) && f in s && g in s
    ensures r1(f.key) < r1(g.key) <==> r2(f.key) < r2(g.key)
  {
    var p :| 0 <= p < |s| && s[p] == f;
    var q :| 0 <= q < |s| && s[q] == g;
    AscendingPair(r1, s, p, q);
    AscendingPair(r2, s, p, q);
  }

  lemma AscendingPair(rank: Rank, s: seq<Field>, p: nat, q: nat)
    requires Ascending(ByKey(rank), s) && p < |s| && q < |s|
    ensures rank(s[p].key) < rank(s[q].key) <==> p < q
  {
    var key := ByKey(rank);
    if p < q {
      assert Before(key(s[p]), key(s[q]));
    } else if q < p {
      assert Before(key(s[q]), key(s[p]));
    }
  }

  lemma SiblingsSortAlike(r1: Rank, r2: Rank, a: seq<Field>)
    requires TotalOrder(r1) && TotalOrder(r2) && DistinctKeys(a) && SiblingsAlike(r1, r2, a)
    ensures SortBy(ByKey(r1), a) == SortBy(ByKey(r2), a)
  {
    var s, t, key := SortBy(ByKey(r1), a), SortBy(ByKey(r2), a), ByKey(r2);
    SortAscends(ByKey(r1), a);
    SortAscends(key, a);
    SortPermutes(ByKey(r1), a);
    SortPermutes(key, a);
    SameMembers(s, a);
    SameMembers(s, t);
    forall i, j | 0 <= i < j < |s| ensures Before(key(s[i]), key(s[j])) {
      AscendingPair(r1, s, i, j);
      assert s[i] in a && s[j] in a;
    }
    AscendingUnique(key, s, t);
  }

  // Code units and code points

  /** Lexicographic order. */
  predicate LexBefore(a: seq<nat>, b: seq<nat>) {
    b != [] && (a == [] || a[0] < b[0] || (a[0] == b[0] && LexBefore(a[1..], b[1..])))
  }

  /** The sequence read as a fraction in base 0x110001, which orders sequences lexicographically. */
  function Fraction(a: seq<nat>): real {
    if a == [] then 0.0 else ((a[0] + 1) as real + Fraction(a[1..])) / 1114113.0
  }

  /** `.sort()`: by UTF-16 code unit. */
  const BY_UNIT: Rank := (s: JsString) => Fraction(s)

  /** The code points of a string; a surrogate outside a pair stands for itself, as in a Python string. */
  function Points(s: JsString): (r: seq<nat>)
    ensures InRange(r)
  {
    if s == [] then []
    else if StartsPair(s) then [0x10000 + (s[0] - 0xd800) * 0x400 + (s[1] - 0xdc00)] + Points(s[2..])
    else [s[0]] + Points(s[1..])
  }

  predicate StartsPair(s: JsString) {
    |s| > 1 && IsHigh(s[0]) && IsLow(s[1])
  }

  /** `sort_keys=True`: by code point. */
  const BY_POINT: Rank := (s: JsString) => Fraction(Points(s))

  predicate InRange(a: seq<nat>) {
    forall i :: 0 <= i < |a| ==> a[i] < 0x110000
  }

  lemma {:induction false} FractionBelowOne(a: seq<nat>)
    requires InRange(a)
    ensures 0.0 <= Fraction(a) < 1.0
    ensures a != [] ==> 0.0 < Fraction(a)
  {
    if a != [] {
      FractionBelowOne(a[1..]);
      assert (a[0] + 1) as real <= 1114112.0;
    }
  }

  lemma {:induction false} FractionOrders(a: seq<nat>, b: seq<nat>)
    requires InRange(a) && InRange(b)
    ensures Fraction(a) < Fraction(b) <==> LexBefore(a, b)
    ensures Fraction(a) == Fraction(b) <==> a == b
  {
    FractionBelowOne(a);
    FractionBelowOne(b);
    if a != [] && b != [] {
      FractionBelowOne(a[1..]);
      FractionBelowOne(b[1..]);
      FractionOrders(a[1..], b[1..]);
      assert a[0] < b[0] ==> (a[0] + 1) as real + 1.0 <= (b[0] + 1) as real;
      assert b[0] < a[0] ==> (b[0] + 1) as real + 1.0 <= (a[0] + 1) as real;
      assert a == [a[0]] + a[1..] && b == [b[0]] + b[1..];
    }
  }

  /** Decoding into code points loses nothing. */
  lemma {:induction false} PointsInjective(a: JsString, b: JsString)
    requires Points(a) == Points(b)
    ensures a == b
  {
    if a != [] && b != [] {
      assert Points(a)[0] == Points(b)[0] && Points(a)[1..] == Points(b)[1..];
      if StartsPair(a) {
        assert Points(a)[1..] == Points(a[2..]) && Points(b)[1..] == Points(b[2..]);
        PointsInjective(a[2..], b[2..]);
        assert a == a[..2] + a[2..] && b == b[..2] + b[2..];
      } else {
        assert Points(a)[1..] == Points(a[1..]) && Points(b)[1..] == Points(b[1..]);
        PointsInjective(a[1..], b[1..]);
        assert a == [a[0]] + a[1..] && b == [b[0]] + b[1..];
      }
    }
  }

  lemma OrdersAreTotal()
    ensures TotalOrder(BY_UNIT) && TotalOrder(BY_POINT)
  {
    forall a: JsString, b: JsString | BY_UNIT(a) == BY_UNIT(b) ensures a == b {
      FractionOrders(a, b);
    }
    forall a: JsString, b: JsString | BY_POINT(a) == BY_POINT(b) ensures a == b {
      FractionOrders(Points(a), Points(b));
      PointsInjective(a, b);
    }
  }

  /** The unit at `i` is one half of a surrogate pair. */
  predicate Paired(s: JsString, i: nat)
    requires i < |s|
  {
    || (IsHigh(s[i]) && i + 1 < |s| && IsLow(s[i + 1]))
    || (IsLow(s[i]) && i > 0 && IsHigh(s[i - 1]))
  }

  /** First differing at `i`, `a` has half of a surrogate pair there and `b` a greater unit that is not. */
  predicate ClashesAt(a: JsString, b: JsString, i: nat)
    requires i < |a| && i < |b|
  {
    (forall k :: 0 <= k < i ==> a[k] == b[k]) && a[i] < b[i] && Paired(a, i) && !Paired(b, i)
  }

  predicate Clashes(a: JsString, b: JsString) {
    exists i: nat :: i < |a| && i < |b| && ClashesAt(a, b, i)
  }

  lemma ClashesShift(a: JsString, b: JsString, k: nat)
    requires 1 <= k <= 2 && k <= |a| && k <= |b| && forall j :: 0 <= j < k ==> a[j] == b[j]
    requires if k == 2 then StartsPair(a) else !StartsPair(a) && !StartsPair(b)
    ensures Clashes(a, b) <==> Clashes(a[k..], b[k..])
  {
    if Clashes(a, b) {
      var i: nat :| i < |a| && i < |b| && ClashesAt(a, b, i);
      assert i >= k;
      ClashesAtShift(a, b, k, i - k);
      assert ClashesAt(a[k..], b[k..], i - k);
    }
    if Clashes(a[k..], b[k..]) {
      var i: nat :| i < |a[k..]| && i < |b[k..]| && ClashesAt(a[k..], b[k..], i);
      ClashesAtShift(a, b, k, i);
      assert ClashesAt(a, b, i + k);
    }
  }

  lemma ClashesAtShift(a: JsString, b: JsString, k: nat, i: nat)
    requires 1 <= k <= 2 && i + k < |a| && i + k < |b| && forall j :: 0 <= j < k ==> a[j] == b[j]
    requires if k == 2 then StartsPair(a) else !StartsPair(a) && !StartsPair(b)
    ensures ClashesAt(a, b, i + k) <==> ClashesAt(a[k..], b[k..], i)
  {
    PairedShift(a, k, i);
    PairedShift(b, k, i);
    if ClashesAt(a[k..], b[k..], i) {
      forall j | 0 <= j < i + k ensures a[j] == b[j] {
        assert j >= k ==> a[j] == a[k..][j - k] && b[j] == b[k..][j - k];
      }
    }
  }

  lemma PairedShift(s: JsString, k: nat, i: nat)
    requires 1 <= k <= 2 && i + k < |s|
    requires if k == 2 then IsHigh(s[0]) && IsLow(s[1]) else !StartsPair(s)
    ensures Paired(s, i + k) <==> Paired(s[k..], i)
    ensures s[i + k] == s[k..][i]
  {
    assert i > 0 ==> s[i + k - 1] == s[k..][i - 1];
  }

  /** Units and points order two strings differently exactly when they clash. */
  lemma {:induction false} PointsOrderIff(a: JsString, b: JsString)
    ensures LexBefore(Points(a), Points(b)) <==> (LexBefore(a, b) && !Clashes(a, b)) || Clashes(b, a)
  {
    if a == [] || b == [] {
    } else if a[0] != b[0] {
      HeadsClash(a, b);
      HeadsClash(b, a);
    } else if StartsPair(a) && StartsPair(b) && a[1] == b[1] {
      PointsOrderIff(a[2..], b[2..]);
      ClashesShift(a, b, 2);
      ClashesShift(b, a, 2);
      assert a[1..][1..] == a[2..] && b[1..][1..] == b[2..];
    } else if !StartsPair(a) && !StartsPair(b) {
      PointsOrderIff(a[1..], b[1..]);
      ClashesShift(a, b, 1);
      ClashesShift(b, a, 1);
    } else {
      SecondsClash(a, b);
      SecondsClash(b, a);
    }
  }

  lemma HeadsClash(a: JsString, b: JsString)
    requires a != [] && b != [] && a[0] != b[0]
    ensures Clashes(a, b) <==> a[0] < b[0] && StartsPair(a) && !StartsPair(b)
  {
    if Clashes(a, b) {
      var i: nat :| i < |a| && i < |b| && ClashesAt(a, b, i);
      assert i == 0;
    }
    assert ClashesAt(a, b, 0) <==> a[0] < b[0] && StartsPair(a) && !StartsPair(b);
  }

  /** Equal heads of which at least one starts a pair that the other does not share. */
  lemma SecondsClash(a: JsString, b: JsString)
    requires a != [] && b != [] && a[0] == b[0] && (StartsPair(a) || StartsPair(b))
    requires !(StartsPair(a) && StartsPair(b) && a[1] == b[1])
    ensures Clashes(a, b) <==> StartsPair(a) && |b| > 1 && 0xe000 <= b[1]
  {
    if Clashes(a, b) {
      var i: nat :| i < |a| && i < |b| && ClashesAt(a, b, i);
      assert i == 1;
    }
    if |a| > 1 && |b| > 1 {
      assert ClashesAt(a, b, 1) <==> a[1] < b[1] && Paired(a, 1) && !Paired(b, 1);
    }
  }

  /** No two sibling keys clash, at any depth. */
  predicate NoClashes(v: Value)
    decreases v
  {
    match v
    case Arr(items) => forall i :: 0 <= i < |items| ==> NoClashes(items[i])
    case Obj(fs) =>
      && (forall i, j :: 0 <= i < |fs| && 0 <= j < |fs| ==> !Clashes(fs[i].key, fs[j].key))
      && forall i :: 0 <= i < |fs| ==> NoClashes(fs[i].value)
    case _ => true
  }

  lemma {:induction false} NoClashesIff(v: Value)
    ensures NoClashes(v) <==> OrdersAlike(BY_UNIT, BY_POINT, v)
    decreases v
  {
    match v
    case Arr(items) =>
      forall i | 0 <= i < |items| {
        NoClashesIff(items[i]);
      }
    case Obj(fs) =>
      forall i | 0 <= i < |fs| {
        NoClashesIff(fs[i].value);
      }
      forall i, j | 0 <= i < |fs| && 0 <= j < |fs| {
        KeysAlikeIff(fs[i].key, fs[j].key);
      }
    case _ =>
  }

  lemma KeysAlikeIff(a: JsString, b: JsString)
    ensures (BY_UNIT(a) < BY_UNIT(b) <==> BY_POINT(a) < BY_POINT(b)) <==> !Clashes(a, b) && !Clashes(b, a)
  {
    FractionOrders(a, b);
    FractionOrders(Points(a), Points(b));
    PointsOrderIff(a, b);
    if Clashes(a, b) {
      ClashesOrder(a, b);
    }
    if Clashes(b, a) {
      ClashesOrder(b, a);
    }
  }

  lemma ClashesOrder(a: JsString, b: JsString)
    requires Clashes(a, b)
    ensures LexBefore(a, b) && !LexBefore(b, a)
  {
    var i: nat :| i < |a| && i < |b| && ClashesAt(a, b, i);
    FirstDifference(a, b, i);
  }

  lemma {:induction false} FirstDifference(a: JsString, b: JsString, i: nat)
    requires i < |a| && i < |b| && (forall k :: 0 <= k < i ==> a[k] == b[k]) && a[i] < b[i]
    ensures LexBefore(a, b) && !LexBefore(b, a)
  {
    if i > 0 {
      FirstDifference(a[1..], b[1..], i - 1);
    }
  }

  /**
   * `canonicalJson` is meant to print what Python's json.dumps prints. It does so exactly for
   * the values without the five control characters that Python abbreviates, without integers
   * that JavaScript shortens, and without sibling keys of which one has half of a surrogate
   * pair where the other has a greater unit.
   */
  lemma AgreesWithPythonIff(v: Value)
    requires WellFormed(v)
    ensures Canonical(BY_UNIT, v) == Print(Python, SortKeys(BY_POINT, v)) <==> PlainText(v) && NoClashes(v)
  {
    var ours, theirs := SortKeys(BY_UNIT, v), SortKeys(BY_POINT, v);
    OrdersAreTotal();
    SortsAlikeIff(BY_UNIT, BY_POINT, v);
    NoClashesIff(v);
    PlainTextSorted(BY_UNIT, v);
    WritersAgreeIff(ours);
    CanonicalParses(BY_UNIT, v);
    ParsePrint(Python, theirs);
  }

  /** A tab is enough to make the two writers disagree. */
  lemma TabDisagrees()
    ensures Canonical(BY_UNIT, Str([0x09])) != Print(Python, SortKeys(BY_POINT, Str([0x09])))
  {
    AgreesWithPythonIff(Str([0x09]));
    assert [0x09][0] == 0x09;
  }

  /** So is 2^57: 144115188075855870 for JavaScript, 144115188075855872 for Python. */
  lemma GreatIntegerDisagrees()
    ensures Magnitude(TWO_57) < TOP_TEN && IsDouble(Magnitude(TWO_57))
    ensures Print(Serialized, Num(TWO_57)) == Digits(144115188075855870)
    ensures Print(Python, Num(TWO_57)) == Digits(144115188075855872)
    ensures Canonical(BY_UNIT, Num(TWO_57)) != Print(Python, SortKeys(BY_POINT, Num(TWO_57)))
  {
    ShortestOf57();
    TwoTo57();
    AgreesWithPythonIff(Num(TWO_57));
    Empties(Digits(144115188075855870));
    Empties(Digits(144115188075855872));
  }

  /**
   * Reading an integer that Python wrote and writing it again gives the same text exactly when
   * it is the shortest decimal of the double it reads as.
   */
  lemma RewrittenIff(n: int)
    requires Nearest(Magnitude(n)) < TOP_TEN && n != 0
    ensures Parse(Decimal(n)).Some? && Parse(Decimal(n)).value.Num?
    ensures Canonical(BY_UNIT, Parse(Decimal(n)).value) == Decimal(n)
      <==> Shortest(Nearest(Magnitude(n))) == Magnitude(n)
  {
    var m := Magnitude(n);
    var r: int := Nearest(m);
    DecimalParses(n);
    NearestOrders(1, m);
    var read: JsInt := if n < 0 then -r else r;
    TwoPasses(Num(read));
    DigitsDiffer(Shortest(Nearest(m)), m);
    Empties(Digits(Shortest(Nearest(m))));
    assert n < 0 ==> Decimal(n)[1..] == Digits(m) && IntegerText(Ascii, read)[1..] == Digits(Shortest(Nearest(m)));
  }

  /** So 2^53 + 1 comes back as another number. */
  lemma RewrittenInteger()
    ensures Parse(Decimal(9007199254740993)).Some?
    ensures Canonical(BY_UNIT, Parse(Decimal(9007199254740993)).value) != Decimal(9007199254740993)
  {
    ShortestOf53();
    RewrittenIff(9007199254740993);
  }

  lemma DecimalParses(n: int)
    requires Nearest(Magnitude(n)) < TOP_TEN
    ensures IsDouble(Nearest(Magnitude(n)))
    ensures var r: int := Nearest(Magnitude(n)); Parse(Decimal(n)) == Some(Num(if n < 0 then -r else r))
  {
    var m := Magnitude(n);
    ReadUnsignedInteger(n < 0, m, []);
    assert Digits(m) + [] == Digits(m);
    var s := Decimal(n);
    assert n < 0 ==> s[1..] == Digits(m);
    assert s[0] == MINUS || IsDigit(s[0]);
  }

  /** So are an emoji and a full-width tilde as sibling keys. */
  lemma EmojiKeyDisagrees()
    ensures var v := Obj([Field([0xd83d, 0xde00], Null), Field([0xff5e], Null)]);
      Canonical(BY_UNIT, v) != Print(Python, SortKeys(BY_POINT, v))
  {
    var emoji: JsString, tilde: JsString := [0xd83d, 0xde00], [0xff5e];
    var fs := [Field(emoji, Null), Field(tilde, Null)];
    HeadsClash(emoji, tilde);
    assert Clashes(fs[0].key, fs[1].key);
    AgreesWithPythonIff(Obj(fs));
  }
}
