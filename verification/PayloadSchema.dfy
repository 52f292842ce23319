/**
 * Schema-driven payload parsing and the unknown-key diff. A stripping parser drops keys
 * its schema does not know; the diff is there to report every one of them beforehand.
 */
module PayloadSchema {
  import opened Wrappers
  import opened Text
  import opened Json

  /** Scalars check one leaf value; the three wrappers may be stacked on anything. */
  datatype Schema =
    | Scalar(accepts: Value -> bool)
    | Object(shape: seq<Entry>, strict: bool)
    | Array(element: Schema, fits: nat -> bool)
    | Optional(inner: Schema)
    | Default(inner: Schema, value: Value)
    | Effects(inner: Schema, check: Value -> bool)

  datatype Entry = Entry(key: JsString, schema: Schema)

  function EntryAt(shape: seq<Entry>, key: JsString): Option<Schema> {
    if shape == [] then None else if shape[0].key == key then Some(shape[0].schema) else EntryAt(shape[1..], key)
  }

  predicate DistinctEntries(shape: seq<Entry>) {
    forall i, j :: 0 <= i < j < |shape| ==> shape[i].key != shape[j].key
  }

  // Parsing

  datatype Parsed = Invalid | Absent | Present(value: Value)

  predicate IsLeaf(v: Value) {
    !v.Arr? && !v.Obj?
  }

  /** Parses a property value; `None` is undefined. Objects come out in schema order, without unknown keys. */
  function SafeParse(s: Schema, v: Option<Value>): Parsed
    decreases s, 0, 0
  {
    match s
    case Scalar(accepts) => if v.Some? && IsLeaf(v.value) && accepts(v.value) then Present(v.value) else Invalid
    case Object(shape, strict) =>
      if v.None? || !v.value.Obj? || (strict && !KnownKeys(shape, v.value.fields)) then Invalid
      else
        var fs := ParseShape(shape, v.value.fields);
        if fs.None? then Invalid else Present(Obj(fs.value))
    case Array(element, fits) =>
      if v.None? || !v.value.Arr? || !fits(|v.value.items|) then Invalid
      else
        var items := ParseItems(element, v.value.items);
        if items.None? then Invalid else Present(Arr(items.value))
    case Optional(inner) => if v.None? then Absent else SafeParse(inner, v)
    case Default(inner, value) => SafeParse(inner, if v.None? then Some(value) else v)
    case Effects(inner, check) =>
      var p := SafeParse(inner, v);
      if p.Present? && !check(p.value) then Invalid else p
  }

  predicate KnownKeys(shape: seq<Entry>, fs: seq<Field>) {
    forall i :: 0 <= i < |fs| ==> EntryAt(shape, fs[i].key).Some?
  }

  function ParseShape(shape: seq<Entry>, fs: seq<Field>): Option<seq<Field>>
    decreases shape, 1, 0
  {
    if shape == [] then Some([])
    else
      var p := SafeParse(shape[0].schema, Find(fs, shape[0].key));
      var rest := ParseShape(shape[1..], fs);
      if p.Invalid? || rest.None? then None
      else Some(if p.Absent? then rest.value else [Field(shape[0].key, p.value)] + rest.value)
  }

  function ParseItems(element: Schema, items: seq<Value>): (r: Option<seq<Value>>)
    ensures r.Some? ==> |r.value| == |items|
    ensures r.Some? ==> forall i :: 0 <= i < |items| ==> SafeParse(element, Some(items[i])) == Present(r.value[i])
    ensures (forall i :: 0 <= i < |items| ==> SafeParse(element, Some(items[i])).Present?) ==> r.Some?
    decreases element, 1, |items|
  {
    if items == [] then Some([])
    else
      var p := SafeParse(element, Some(items[0]));
      var rest := ParseItems(element, items[1..]);
      if !p.Present? || rest.None? then None else Some([p.value] + rest.value)
  }

  // The wrappers

  predicate IsWrapper(s: Schema) {
    s.Optional? || s.Default? || s.Effects?
  }

  function Core(s: Schema): (core: Schema)
    ensures !IsWrapper(core)
  {
    if IsWrapper(s) then Core(s.inner) else s
  }

  function Depth(s: Schema): nat {
    if IsWrapper(s) then 1 + Depth(s.inner) else 0
  }

  const MAX_UNWRAP: nat := 8

  /** What `objectShape` finds in `n` rounds. */
  function ShapeWithin(s: Schema, n: nat): Option<seq<Entry>> {
    if n == 0 then None
    else if s.Object? then Some(s.shape)
    else if IsWrapper(s) then ShapeWithin(s.inner, n - 1)
    else None
  }

  /** What `arrayElement` finds in `n` rounds. */
  function ElementWithin(s: Schema, n: nat): Option<Schema> {
    if n == 0 then None
    else if s.Array? then Some(s.element)
    else if IsWrapper(s) then ElementWithin(s.inner, n - 1)
    else None
  }

  lemma {:induction false} Unwraps(s: Schema, n: nat)
    requires Depth(s) < n
    ensures ShapeWithin(s, n) == if Core(s).Object? then Some(Core(s).shape) else None
    ensures ElementWithin(s, n) == if Core(s).Array? then Some(Core(s).element) else None
  {
    if IsWrapper(s) {
      Unwraps(s.inner, n - 1);
    }
  }

  method ObjectShape(schema: Schema) returns (shape: Option<seq<Entry>>)
    ensures shape == ShapeWithin(schema, MAX_UNWRAP)
  {
    var current := schema;
    for depth := 0 to MAX_UNWRAP
      invariant ShapeWithin(current, MAX_UNWRAP - depth) == ShapeWithin(schema, MAX_UNWRAP)
    {
      if current.Object? {
        return Some(current.shape);
      }
      if !IsWrapper(current) {
        return None;
      }
      current := current.inner;
    }
    return None;
  }

  method ArrayElement(schema: Schema) returns (element: Option<Schema>)
    ensures element == ElementWithin(schema, MAX_UNWRAP)
  {
    var current := schema;
    for depth := 0 to MAX_UNWRAP
      invariant ElementWithin(current, MAX_UNWRAP - depth) == ElementWithin(schema, MAX_UNWRAP)
    {
      if current.Array? {
        return Some(current.element);
      }
      if !IsWrapper(current) {
        return None;
      }
      current := current.inner;
    }
    return None;
  }

  // The unknown-key diff

  type Path = seq<JsString>

  /** The property names every plain object inherits, which a lookup in the shape finds. */
  predicate Inherited(key: JsString) {
    key in {
      Lit("constructor"), Lit("__defineGetter__"), Lit("__defineSetter__"), Lit("hasOwnProperty"),
      Lit("__lookupGetter__"), Lit("__lookupSetter__"), Lit("isPrototypeOf"), Lit("propertyIsEnumerable"),
      Lit("toString"), Lit("valueOf"), Lit("__proto__"), Lit("toLocaleString")
    }
  }

  function Unknown(s: Schema, v: Value, path: Path): seq<Path>
    decreases v, 0
  {
    var shape := ShapeWithin(s, MAX_UNWRAP);
    if shape.None? || !v.Obj? then [] else UnknownFields(shape.value, v.fields, path)
  }

  function UnknownFields(shape: seq<Entry>, fs: seq<Field>, path: Path): seq<Path>
    decreases fs, 1
  {
    if fs == [] then []
    else
      var n := |fs| - 1;
      UnknownFields(shape, fs[..n], path) + UnknownField(shape, fs[n], path)
  }

  function UnknownField(shape: seq<Entry>, f: Field, path: Path): seq<Path>
    decreases f.value, 2
  {
    var child := EntryAt(shape, f.key);
    if child.None? then
      if Inherited(f.key) then [] else [path + [f.key]]
    else
      var element := ElementWithin(child.value, MAX_UNWRAP);
      if element.None? then Unknown(child.value, f.value, path + [f.key])
      else if f.value.Arr? then UnknownItems(element.value, f.value.items, path + [f.key])
      else []
  }

  function UnknownItems(element: Schema, items: seq<Value>, path: Path): seq<Path>
    decreases items, 1
  {
    if items == [] then []
    else
      var n := |items| - 1;
      UnknownItems(element, items[..n], path) + Unknown(element, items[n], path + [Digits(n)])
  }

  /** `collectUnknownKeys`. */
  method CollectUnknownKeys(v: Value, schema: Schema, path: Path) returns (offenders: seq<Path>)
    ensures offenders == Unknown(schema, v, path)
    decreases v, 0
  {
    var shape := ObjectShape(schema);
    if shape.None? || !v.Obj? {
      return [];
    }
    offenders := [];
    for i := 0 to |v.fields|
      invariant offenders == UnknownFields(shape.value, v.fields[..i], path)
    {
      assert v.fields[..i + 1][..i] == v.fields[..i];
      var key, child := v.fields[i].key, v.fields[i].value;
      var childPath := path + [key];
      var childSchema := EntryAt(shape.value, key);
      if childSchema.None? {
        if !Inherited(key) {
          offenders := offenders + [childPath];
        }
        continue;
      }
      var element := ArrayElement(childSchema.value);
      if element.Some? {
        if child.Arr? {
          var inItems := CollectFromItems(child.items, element.value, childPath);
          offenders := offenders + inItems;
        }
        continue;
      }
      var inChild := CollectUnknownKeys(child, childSchema.value, childPath);
      offenders := offenders + inChild;
    }
    assert v.fields[..|v.fields|] == v.fields;
  }

  method CollectFromItems(items: seq<Value>, element: Schema, path: Path) returns (offenders: seq<Path>)
    ensures offenders == UnknownItems(element, items, path)
    decreases items, 1
  {
    offenders := [];
    for index := 0 to |items|
      invariant offenders == UnknownItems(element, items[..index], path)
    {
      assert items[..index + 1][..index] == items[..index];
      var inItem := CollectUnknownKeys(items[index], element, path + [Digits(index)]);
      offenders := offenders + inItem;
    }
    assert items[..|items|] == items;
  }

  // What parsing loses

  /** The paths of `v` that `w` has no value for, found without looking at any schema. */
  function Lost(v: Value, w: Value, path: Path): seq<Path>
    decreases v, 0
  {
    if v.Obj? && w.Obj? then LostFields(v.fields, w.fields, path)
    else if v.Arr? && w.Arr? && |v.items| == |w.items| then LostItems(v.items, w.items, path)
    else []
  }

  function LostFields(fs: seq<Field>, gs: seq<Field>, path: Path): seq<Path>
    decreases fs, 1
  {
    if fs == [] then []
    else
      var n := |fs| - 1;
      LostFields(fs[..n], gs, path) + LostField(fs[n], gs, path)
  }

  function LostField(f: Field, gs: seq<Field>, path: Path): seq<Path>
    decreases f.value, 2
  {
    var kept := Find(gs, f.key);
    if kept.None? then [path + [f.key]] else Lost(f.value, kept.value, path + [f.key])
  }

  function LostItems(items: seq<Value>, kept: seq<Value>, path: Path): seq<Path>
    requires |items| == |kept|
    decreases items, 1
  {
    if items == [] then []
    else
      var n := |items| - 1;
      LostItems(items[..n], kept[..n], path) + Lost(items[n], kept[n], path + [Digits(n)])
  }

  /** The path ends in an inherited name. */
  predicate Hidden(path: Path) {
    path != [] && Inherited(path[|path| - 1])
  }

  function Visible(paths: seq<Path>): seq<Path> {
    if paths == [] then []
    else
      var n := |paths| - 1;
      Visible(paths[..n]) + if Hidden(paths[n]) then [] else [paths[n]]
  }

  lemma {:induction false} VisibleAppend(a: seq<Path>, b: seq<Path>)
    ensures Visible(a + b) == Visible(a) + Visible(b)
  {
    if b == [] {
      assert a + b == a;
    } else {
      var front, last := b[..|b| - 1], b[|b| - 1];
      VisibleAppend(a, front);
      assert (a + b)[..|a + b| - 1] == a + front && (a + b)[|a + b| - 1] == last;
      AppendAssociates(Visible(a), Visible(front), if Hidden(last) then [] else [last]);
    }
  }

  lemma AppendAssociates(a: seq<Path>, b: seq<Path>, c: seq<Path>)
    ensures (a + b) + c == a + (b + c)
  {
  }

  // Schemas the diff is for

  /** Objects and scalars under fewer than eight wrappers. */
  predicate Supported(s: Schema)
    decreases s, 1
  {
    Depth(s) < MAX_UNWRAP && SupportedCore(s)
  }

  predicate SupportedCore(s: Schema)
    decreases s, 0
  {
    match s
    case Scalar(_) => true
    case Object(shape, _) => DistinctEntries(shape) && forall i :: 0 <= i < |shape| ==> SupportedField(shape[i].schema)
    case Array(_, _) => false
    case Optional(inner) => SupportedCore(inner)
    case Default(inner, _) => SupportedCore(inner)
    case Effects(inner, _) => SupportedCore(inner)
  }

  /** Below an object also arrays of those, but no arrays of arrays. */
  predicate SupportedField(s: Schema)
    decreases s, 1
  {
    Depth(s) < MAX_UNWRAP && (SupportedCore(s) || SupportedArray(s))
  }

  predicate SupportedArray(s: Schema)
    decreases s, 0
  {
    match s
    case Array(element, _) => Supported(element)
    case Optional(inner) => SupportedArray(inner)
    case Default(inner, _) => SupportedArray(inner)
    case Effects(inner, _) => SupportedArray(inner)
    case _ => false
  }

  lemma {:induction false} CoreSupported(s: Schema)
    ensures SupportedCore(s) <==> SupportedCore(Core(s))
    ensures SupportedArray(s) <==> SupportedArray(Core(s))
  {
    if IsWrapper(s) {
      CoreSupported(s.inner);
    }
  }

  // Parsing a value that is there

  /** A value never parses to undefined, and wrappers only add checks. */
  lemma {:induction false} ParseThroughWrappers(s: Schema, v: Value)
    ensures SafeParse(s, Some(v)) != Absent
    ensures SafeParse(s, Some(v)).Present? ==> SafeParse(Core(s), Some(v)) == SafeParse(s, Some(v))
  {
    if IsWrapper(s) {
      ParseThroughWrappers(s.inner, v);
    }
  }

  /** The property a parsed object has under `key`. */
  function ParsedAt(shape: seq<Entry>, fs: seq<Field>, key: JsString): Option<Value> {
    var s := EntryAt(shape, key);
    if s.None? then None
    else
      var p := SafeParse(s.value, Find(fs, key));
      if p.Present? then Some(p.value) else None
  }

  lemma {:induction false} ParseShapeIs(shape: seq<Entry>, fs: seq<Field>, key: JsString)
    requires DistinctEntries(shape) && ParseShape(shape, fs).Some?
    ensures Find(ParseShape(shape, fs).value, key) == ParsedAt(shape, fs, key)
  {
    if shape != [] {
      var rest := ParseShape(shape[1..], fs).value;
      ParseShapeIs(shape[1..], fs, key);
      var whole := ParseShape(shape, fs).value;
      if whole != rest {
        assert whole[1..] == rest;
      }
      if shape[0].key == key {
        NotAmong(shape[1..], key);
      }
    }
  }

  lemma {:induction false} NotAmong(shape: seq<Entry>, key: JsString)
    requires forall i :: 0 <= i < |shape| ==> shape[i].key != key
    ensures EntryAt(shape, key) == None
  {
    if shape != [] {
      NotAmong(shape[1..], key);
    }
  }

  lemma {:induction false} EntryIndex(shape: seq<Entry>, key: JsString) returns (i: nat)
    requires EntryAt(shape, key).Some?
    ensures i < |shape| && shape[i] == Entry(key, EntryAt(shape, key).value)
  {
    if shape[0].key == key {
      i := 0;
    } else {
      var j := EntryIndex(shape[1..], key);
      i := j + 1;
    }
  }

  lemma {:induction false} ShapeEntryParses(shape: seq<Entry>, fs: seq<Field>, i: nat)
    requires ParseShape(shape, fs).Some? && i < |shape|
    ensures SafeParse(shape[i].schema, Find(fs, shape[i].key)) != Invalid
  {
    if i > 0 {
      ShapeEntryParses(shape[1..], fs, i - 1);
    }
  }

  lemma {:induction false} ShapeParsesIff(shape: seq<Entry>, fs: seq<Field>)
    ensures ParseShape(shape, fs).Some?
      <==> forall i :: 0 <= i < |shape| ==> SafeParse(shape[i].schema, Find(fs, shape[i].key)) != Invalid
  {
    if shape != [] {
      ShapeParsesIff(shape[1..], fs);
      if ParseShape(shape, fs).Some? {
        forall i | 0 <= i < |shape| ensures SafeParse(shape[i].schema, Find(fs, shape[i].key)) != Invalid {
          ShapeEntryParses(shape, fs, i);
        }
      } else {
        assert forall i :: 0 <= i < |shape[1..]| ==> shape[1..][i] == shape[i + 1];
      }
    }
  }

  /**
   * An object parses exactly when each property of its shape does, present or not, and, if the schema
   * is strict, it has no other property.
   */
  lemma ObjectParsesIff(shape: seq<Entry>, strict: bool, fs: seq<Field>)
    ensures SafeParse(Object(shape, strict), Some(Obj(fs))).Present? <==>
      && (forall i :: 0 <= i < |shape| ==> SafeParse(shape[i].schema, Find(fs, shape[i].key)) != Invalid)
      && (strict ==> forall j :: 0 <= j < |fs| ==> Lists(shape, fs[j].key))
  {
    ShapeParsesIff(shape, fs);
    forall j | 0 <= j < |fs| ensures EntryAt(shape, fs[j].key).Some? <==> Lists(shape, fs[j].key) {
      ListsIff(shape, fs[j].key);
    }
  }

  predicate Lists(shape: seq<Entry>, key: JsString) {
    exists i :: 0 <= i < |shape| && shape[i].key == key
  }

  lemma ListsIff(shape: seq<Entry>, key: JsString)
    ensures EntryAt(shape, key).Some? <==> Lists(shape, key)
  {
    if EntryAt(shape, key).Some? {
      var i := EntryIndex(shape, key);
    } else if Lists(shape, key) {
      var i :| 0 <= i < |shape| && shape[i].key == key;
      ListedAt(shape, i);
    }
  }

  lemma {:induction false} ListedAt(shape: seq<Entry>, i: nat)
    requires i < |shape|
    ensures EntryAt(shape, shape[i].key).Some?
  {
    if i > 0 {
      ListedAt(shape[1..], i - 1);
    }
  }

  /**
   * The diff reports, in order, exactly the paths that parsing loses, except those that end
   * in the name of a property every object inherits.
   */
  lemma {:induction false} ReportIsExact(s: Schema, v: Value, path: Path)
    requires Supported(s) && WellFormed(v) && SafeParse(s, Some(v)).Present?
    ensures Unknown(s, v, path) == Visible(Lost(v, SafeParse(s, Some(v)).value, path))
    decreases v, 0
  {
    Unwraps(s, MAX_UNWRAP);
    CoreSupported(s);
    ParseThroughWrappers(s, v);
    if v.Obj? {
      var shape := Core(s).shape;
      var gs := ParseShape(shape, v.fields).value;
      assert SafeParse(s, Some(v)).value == Obj(gs);
      FieldsAreExact(shape, v.fields, v.fields, gs, path);
    }
  }

  lemma {:induction false} FieldsAreExact(shape: seq<Entry>, fs: seq<Field>, all: seq<Field>, gs: seq<Field>,
      path: Path)
    requires DistinctEntries(shape) && forall i :: 0 <= i < |shape| ==> SupportedField(shape[i].schema)
    requires fs <= all && DistinctKeys(all) && forall i :: 0 <= i < |all| ==> WellFormed(all[i].value)
    requires ParseShape(shape, all) == Some(gs)
    ensures UnknownFields(shape, fs, path) == Visible(LostFields(fs, gs, path))
    decreases fs, 1
  {
    if fs != [] {
      var n := |fs| - 1;
      var f := fs[n];
      FieldsAreExact(shape, fs[..n], all, gs, path);
      assert f == all[n];
      EachIsExact(shape, f, all, n, gs, path);
      VisibleAppend(LostFields(fs[..n], gs, path), LostField(f, gs, path));
    }
  }

  lemma {:induction false} EachIsExact(shape: seq<Entry>, f: Field, all: seq<Field>, n: nat, gs: seq<Field>,
      path: Path)
    requires DistinctEntries(shape) && forall i :: 0 <= i < |shape| ==> SupportedField(shape[i].schema)
    requires n < |all| && f == all[n] && DistinctKeys(all) && WellFormed(f.value)
    requires ParseShape(shape, all) == Some(gs)
    ensures UnknownField(shape, f, path) == Visible(LostField(f, gs, path))
    decreases f.value, 3
  {
    FindAt(all, n);
    ParseShapeIs(shape, all, f.key);
    if EntryAt(shape, f.key).Some? {
      var i := EntryIndex(shape, f.key);
      ShapeEntryParses(shape, all, i);
      ParseThroughWrappers(shape[i].schema, f.value);
      FieldIsExact(shape, f, gs, path);
    } else {
      assert Visible([path + [f.key]]) == UnknownField(shape, f, path);
    }
  }

  lemma {:induction false} FieldIsExact(shape: seq<Entry>, f: Field, gs: seq<Field>, path: Path)
    requires EntryAt(shape, f.key).Some? && SupportedField(EntryAt(shape, f.key).value) && WellFormed(f.value)
    requires SafeParse(EntryAt(shape, f.key).value, Some(f.value)).Present?
    requires Find(gs, f.key) == Some(SafeParse(EntryAt(shape, f.key).value, Some(f.value)).value)
    ensures UnknownField(shape, f, path) == Visible(LostField(f, gs, path))
    decreases f.value, 2
  {
    var s := EntryAt(shape, f.key).value;
    Unwraps(s, MAX_UNWRAP);
    CoreSupported(s);
    ParseThroughWrappers(s, f.value);
    var kept := SafeParse(s, Some(f.value)).value;
    assert LostField(f, gs, path) == Lost(f.value, kept, path + [f.key]);
    if Core(s).Array? {
      assert UnknownField(shape, f, path) == UnknownItems(Core(s).element, f.value.items, path + [f.key]);
      ItemsAreExact(Core(s).element, f.value.items, path + [f.key]);
    } else {
      assert UnknownField(shape, f, path) == Unknown(s, f.value, path + [f.key]);
      ReportIsExact(s, f.value, path + [f.key]);
    }
  }

  lemma FrontParses(element: Schema, items: seq<Value>)
    requires ParseItems(element, items).Some? && items != []
    ensures ParseItems(element, items[..|items| - 1]) == Some(ParseItems(element, items).value[..|items| - 1])
  {
    var front, kept := items[..|items| - 1], ParseItems(element, items).value;
    forall i | 0 <= i < |front| ensures SafeParse(element, Some(front[i])) == Present(kept[i]) {
      assert front[i] == items[i];
    }
    assert ParseItems(element, front).value == kept[..|front|];
  }

  lemma {:induction false} ItemsAreExact(element: Schema, items: seq<Value>, path: Path)
    requires Supported(element) && forall i :: 0 <= i < |items| ==> WellFormed(items[i])
    requires ParseItems(element, items).Some?
    ensures UnknownItems(element, items, path) == Visible(LostItems(items, ParseItems(element, items).value, path))
    decreases items, 1
  {
    if items != [] {
      var n := |items| - 1;
      var kept := ParseItems(element, items).value;
      FrontParses(element, items);
      ItemsAreExact(element, items[..n], path);
      ReportIsExact(element, items[n], path + [Digits(n)]);
      VisibleAppend(LostItems(items[..n], kept[..n], path), Lost(items[n], kept[n], path + [Digits(n)]));
    }
  }

  // When acceptance means nothing is lost

  /**
   * No object that stands where the schema, unwrapped, has an object shape has a property
   * with an inherited name that the shape lacks.
   */
  predicate NoStrays(s: Schema, v: Value)
    decreases v, 0
  {
    Core(s).Object? && v.Obj? ==> NoStrayFields(Core(s).shape, v.fields)
  }

  predicate NoStrayFields(shape: seq<Entry>, fs: seq<Field>)
    decreases fs, 2
  {
    forall i :: 0 <= i < |fs| ==> NoStrayAt(shape, fs[i])
  }

  predicate NoStrayAt(shape: seq<Entry>, f: Field)
    decreases f, 1
  {
    var child := EntryAt(shape, f.key);
    if child.None? then !Inherited(f.key)
    else if Core(child.value).Array? then f.value.Arr? ==> NoStrayItems(Core(child.value).element, f.value.items)
    else NoStrays(child.value, f.value)
  }

  predicate NoStrayItems(element: Schema, items: seq<Value>)
    decreases items, 1
  {
    forall i :: 0 <= i < |items| ==> NoStrays(element, items[i])
  }

  lemma NoStrayFieldsSnoc(shape: seq<Entry>, fs: seq<Field>)
    requires fs != []
    ensures NoStrayFields(shape, fs)
      <==> NoStrayFields(shape, fs[..|fs| - 1]) && NoStrayAt(shape, fs[|fs| - 1])
  {
    assert fs == fs[..|fs| - 1] + [fs[|fs| - 1]];
  }

  lemma NoStrayItemsSnoc(element: Schema, items: seq<Value>)
    requires items != []
    ensures NoStrayItems(element, items)
      <==> NoStrayItems(element, items[..|items| - 1]) && NoStrays(element, items[|items| - 1])
  {
    assert items == items[..|items| - 1] + [items[|items| - 1]];
  }

  /** Parsing loses nothing of a payload, at any depth, exactly when the diff accepts it and it has no strays. */
  lemma {:induction false} LosesNothingIff(s: Schema, v: Value, path: Path)
    requires Supported(s) && WellFormed(v) && SafeParse(s, Some(v)).Present?
    ensures Lost(v, SafeParse(s, Some(v)).value, path) == [] <==> Unknown(s, v, path) == [] && NoStrays(s, v)
    decreases v, 0
  {
    Unwraps(s, MAX_UNWRAP);
    CoreSupported(s);
    ParseThroughWrappers(s, v);
    if v.Obj? {
      var shape := Core(s).shape;
      var gs := ParseShape(shape, v.fields).value;
      assert SafeParse(s, Some(v)).value == Obj(gs);
      FieldsLoseNothingIff(shape, v.fields, v.fields, gs, path);
    }
  }

  lemma {:induction false} FieldsLoseNothingIff(
    shape: seq<Entry>, fs: seq<Field>, all: seq<Field>, gs: seq<Field>, path: Path)
    requires DistinctEntries(shape) && forall i :: 0 <= i < |shape| ==> SupportedField(shape[i].schema)
    requires fs <= all && DistinctKeys(all) && forall i :: 0 <= i < |all| ==> WellFormed(all[i].value)
    requires ParseShape(shape, all) == Some(gs)
    ensures LostFields(fs, gs, path) == []
      <==> UnknownFields(shape, fs, path) == [] && NoStrayFields(shape, fs)
    decreases fs, 1
  {
    if fs != [] {
      var n := |fs| - 1;
      var f := fs[n];
      FieldsLoseNothingIff(shape, fs[..n], all, gs, path);
      assert f == all[n];
      FindAt(all, n);
      ParseShapeIs(shape, all, f.key);
      if EntryAt(shape, f.key).Some? {
        var i := EntryIndex(shape, f.key);
        ShapeEntryParses(shape, all, i);
        ParseThroughWrappers(shape[i].schema, f.value);
        FieldLosesNothingIff(shape, f, gs, path);
      }
      NoStrayFieldsSnoc(shape, fs);
    }
  }

  lemma {:induction false} FieldLosesNothingIff(shape: seq<Entry>, f: Field, gs: seq<Field>, path: Path)
    requires EntryAt(shape, f.key).Some? && SupportedField(EntryAt(shape, f.key).value) && WellFormed(f.value)
    requires SafeParse(EntryAt(shape, f.key).value, Some(f.value)).Present?
    requires Find(gs, f.key) == Some(SafeParse(EntryAt(shape, f.key).value, Some(f.value)).value)
    ensures LostField(f, gs, path) == [] <==> UnknownField(shape, f, path) == [] && NoStrayAt(shape, f)
    decreases f.value, 2
  {
    var s := EntryAt(shape, f.key).value;
    Unwraps(s, MAX_UNWRAP);
    CoreSupported(s);
    ParseThroughWrappers(s, f.value);
    if Core(s).Array? {
      ItemsLoseNothingIff(Core(s).element, f.value.items, path + [f.key]);
    } else {
      LosesNothingIff(s, f.value, path + [f.key]);
    }
  }

  lemma {:induction false} ItemsLoseNothingIff(element: Schema, items: seq<Value>, path: Path)
    requires Supported(element) && forall i :: 0 <= i < |items| ==> WellFormed(items[i])
    requires ParseItems(element, items).Some?
    ensures LostItems(items, ParseItems(element, items).value, path) == []
      <==> UnknownItems(element, items, path) == [] && NoStrayItems(element, items)
    decreases items, 1
  {
    if items != [] {
      var n := |items| - 1;
      FrontParses(element, items);
      ItemsLoseNothingIff(element, items[..n], path);
      LosesNothingIff(element, items[n], path + [Digits(n)]);
      NoStrayItemsSnoc(element, items);
    }
  }

  /**
   * Acceptance is meant to promise that stripping loses nothing. For an accepted payload that
   * is so exactly when no object in it has an own property with an inherited name that the
   * schema at that place lacks.
   */
  lemma AcceptedLosesNothingIff(s: Schema, v: Value)
    requires Supported(s) && WellFormed(v) && SafeParse(s, Some(v)).Present?
    requires Unknown(s, v, []) == []
    ensures Lost(v, SafeParse(s, Some(v)).value, []) == [] <==> NoStrays(s, v)
  {
    LosesNothingIff(s, v, []);
  }

  // Inherited names slip through

  lemma {:induction false} FindInAppended(fs: seq<Field>, f: Field, key: JsString)
    requires key != f.key
    ensures Find(fs + [f], key) == Find(fs, key)
  {
    if fs != [] {
      FindInAppended(fs[1..], f, key);
      assert (fs + [f])[1..] == fs[1..] + [f];
    }
  }

  /** A property the shape does not look for changes nothing about what comes out. */
  lemma {:induction false} ParseIgnores(shape: seq<Entry>, fs: seq<Field>, f: Field)
    requires EntryAt(shape, f.key) == None
    ensures ParseShape(shape, fs + [f]) == ParseShape(shape, fs)
  {
    if shape != [] {
      FindInAppended(fs, f, shape[0].key);
      ParseIgnores(shape[1..], fs, f);
    }
  }

  /**
   * Whatever payload an object shape parses, with a property under an inherited name that the
   * shape lacks it parses to the same value and the report is the same: the property is
   * dropped, and nothing else is.
   */
  lemma InheritedSlipsThrough(shape: seq<Entry>, fs: seq<Field>, f: Field)
    requires DistinctEntries(shape) && EntryAt(shape, f.key) == None && Inherited(f.key)
    requires ParseShape(shape, fs).Some?
    ensures var s, gs := Object(shape, false), ParseShape(shape, fs).value;
      && SafeParse(s, Some(Obj(fs + [f]))) == SafeParse(s, Some(Obj(fs))) == Present(Obj(gs))
      && Unknown(s, Obj(fs + [f]), []) == Unknown(s, Obj(fs), [])
      && Lost(Obj(fs + [f]), Obj(gs), []) == Lost(Obj(fs), Obj(gs), []) + [[f.key]]
  {
    var all, gs := fs + [f], ParseShape(shape, fs).value;
    ParseIgnores(shape, fs, f);
    ParseShapeIs(shape, fs, f.key);
    Unwraps(Object(shape, false), MAX_UNWRAP);
    assert all[..|all| - 1] == fs;
    assert UnknownFields(shape, all, []) == UnknownFields(shape, fs, []) + [];
    assert [] + [f.key] == [f.key];
    assert LostField(f, gs, []) == [[f.key]];
  }
}
