/**
 * The row mappers of the cutover: PostgreSQL rows to MongoDB documents and back, and the
 * canonical form both checksum lanes hash.
 */
module Mappers {
  import opened Wrappers
  import opened Text
  import opened Doubles
  import opened Sorting
  import opened CanonicalJson
  import Json
  import Uuid

  type Int64 = i: int | -0x8000_0000_0000_0000 <= i < 0x8000_0000_0000_0000

  /** Driver values on either side. `ObjectId` is the surrogate MongoDB generates. */
  datatype Js =
    | Undefined
    | Null
    | Bool(b: bool)
    | Num(n: Json.JsInt)
    | Frac(p: Json.Fraction)
    | BigInt(i: Int64)
    | Str(s: JsString)
    | Date(ms: int)
    | Binary(uuid: bool, bytes: seq<Byte>)
    | ObjectId(id: nat)
    | Arr(items: seq<Js>)
    | Obj(props: seq<Prop>)

  datatype Prop = Prop(key: JsString, value: Js)

  datatype ColumnKind =
    UuidKind | Timestamp | Numeric | Integer | BigintKind | Boolean | JsonKind | TextKind | ArrayKind | Passthrough

  datatype Mapping = Mapping(columns: map<JsString, ColumnKind>, requiredFields: seq<JsString>, pkColumn: JsString)

  /**
   * Date parsing and printing, lower-casing, `String(v)` of other values, and the property order of
   * rebuilt objects.
   */
  datatype Env = Env(
    parseDate: JsString -> Option<int>, iso: int -> JsString, lower: JsString -> JsString, show: Js -> JsString,
    rank: Rank)

  ghost predicate ValidEnv(env: Env) {
    && TotalOrder(env.rank)
    && (forall t: int :: env.parseDate(env.iso(t)) == Some(t))
    && (forall s: JsString :: Uuid.Ascii(s) ==> env.lower(s) == Uuid.Lowered(s))
    && forall s: JsString :: Uuid.NoCapitals(env.lower(s))
  }

  datatype Failure = InvalidTimestamp | InvalidUuid | UnexpectedType(column: JsString)

  // Value conversions

  predicate Absent(v: Js) {
    v.Null? || v.Undefined?
  }

  predicate IsNumber(v: Js) {
    v.Num? || v.Frac?
  }

  function OrNull(v: Js): Js {
    if v.Undefined? then Null else v
  }

  function ToIsoString(env: Env, key: JsString, v: Js): Result<Js, Failure> {
    if Absent(v) then Ok(Null)
    else if v.Date? then Ok(Str(env.iso(v.ms)))
    else if v.Str? then
      var d := env.parseDate(v.s);
      if d.None? then Err(InvalidTimestamp) else Ok(Str(env.iso(d.value)))
    else Err(UnexpectedType(key))
  }

  function ToBinaryUuid(key: JsString, v: Js): Result<Js, Failure> {
    if Absent(v) then Ok(Null)
    else if v.Binary? then Ok(v)
    else if v.Str? then
      var bytes := Uuid.Parse(v.s);
      if bytes.None? then Err(InvalidUuid) else Ok(Binary(true, bytes.value))
    else Err(UnexpectedType(key))
  }

  /** `Number(n)` on a 64-bit integer. */
  function NumberOf(n: Int64): Json.JsInt {
    NearestIsDouble(Json.Magnitude(n));
    var m: int := Nearest(Json.Magnitude(n));
    if n < 0 then -m else m
  }

  function ToBigint(key: JsString, v: Js): Result<Js, Failure> {
    if Absent(v) then Ok(Null)
    else if v.BigInt? then Ok(if v.i <= MAX_SAFE_INTEGER then Num(NumberOf(v.i)) else Str(Json.Decimal(v.i)))
    else if IsNumber(v) || v.Str? then Ok(v)
    else Err(UnexpectedType(key))
  }

  function ToNumeric(key: JsString, v: Js): Result<Js, Failure> {
    if Absent(v) then Ok(Null) else if v.Str? || IsNumber(v) then Ok(v) else Err(UnexpectedType(key))
  }

  function KindOf(mapping: Mapping, key: JsString): ColumnKind {
    if key in mapping.columns then mapping.columns[key] else Passthrough
  }

  function MapValue(env: Env, kind: ColumnKind, key: JsString, v: Js): Result<Js, Failure> {
    match kind
    case UuidKind => ToBinaryUuid(key, v)
    case Timestamp => ToIsoString(env, key, v)
    case Numeric => ToNumeric(key, v)
    case BigintKind => ToBigint(key, v)
    case _ => Ok(OrNull(v))
  }

  function FromBinaryUuid(env: Env, key: JsString, v: Js): Result<Js, Failure> {
    if Absent(v) then Ok(Null)
    else if v.Binary? then
      if v.uuid && |v.bytes| == 16 then Ok(Str(Uuid.Format(v.bytes))) else Err(InvalidUuid)
    else if v.Str? then Ok(Str(env.lower(v.s)))
    else Err(UnexpectedType(key))
  }

  function StringOf(env: Env, v: Js): JsString {
    match v
    case Str(s) => s
    case Num(n) => Json.IntegerText(Json.Stringify, n)
    case Frac(p) => Json.FractionText(p)
    case _ => env.show(v)
  }

  function UnmapValue(env: Env, kind: ColumnKind, key: JsString, v: Js): Result<Js, Failure> {
    match kind
    case UuidKind => FromBinaryUuid(env, key, v)
    case Timestamp => ToIsoString(env, key, v)
    case Numeric => Ok(if Absent(v) then Null else Str(StringOf(env, v)))
    case _ => Ok(OrNull(v))
  }

  // Row mappers

  // "_id" and "__proto__".
  const ID_KEY: JsString := [0x5f, 0x69, 0x64]
  const PROTO_KEY: JsString := [0x5f, 0x5f, 0x70, 0x72, 0x6f, 0x74, 0x6f, 0x5f, 0x5f]

  predicate Has(props: seq<Prop>, key: JsString) {
    exists i :: 0 <= i < |props| && props[i].key == key
  }

  function Lookup(props: seq<Prop>, key: JsString): Option<Js> {
    if props == [] then None else if props[0].key == key then Some(props[0].value) else Lookup(props[1..], key)
  }

  type Convert = Prop -> Result<Js, Failure>

  /** Converts every property in turn; the first failure decides. */
  function Traverse(f: Convert, props: seq<Prop>): Result<seq<Prop>, Failure> {
    if props == [] then Ok([])
    else
      var n := |props| - 1;
      var front := Traverse(f, props[..n]);
      if front.Err? then front
      else
        var v := f(props[n]);
        if v.Err? then Err(v.error) else Ok(front.value + [Prop(props[n].key, v.value)])
  }

  function Mapper(env: Env, mapping: Mapping): Convert {
    (p: Prop) => MapValue(env, KindOf(mapping, p.key), p.key, p.value)
  }

  function Unmapper(env: Env, mapping: Mapping): Convert {
    (p: Prop) => UnmapValue(env, KindOf(mapping, p.key), p.key, p.value)
  }

  /** Required fields that are missing become null. */
  function FillRequired(doc: seq<Prop>, fields: seq<JsString>): seq<Prop> {
    if fields == [] then doc
    else
      var front := FillRequired(doc, fields[..|fields| - 1]);
      var f := fields[|fields| - 1];
      if Has(front, f) then front else front + [Prop(f, Null)]
  }

  /** The document of a row. */
  function ToDoc(env: Env, mapping: Mapping, row: seq<Prop>): Result<seq<Prop>, Failure> {
    var doc := Traverse(Mapper(env, mapping), row);
    if doc.Err? then doc else Ok(FillRequired(doc.value, mapping.requiredFields))
  }

  function Unknown(mapping: Mapping, props: seq<Prop>): seq<JsString> {
    if props == [] then []
    else
      var n := |props| - 1;
      Unknown(mapping, props[..n]) + if props[n].key in mapping.columns then [] else [props[n].key]
  }

  function WithoutId(props: seq<Prop>): seq<Prop> {
    if props == [] then []
    else
      var n := |props| - 1;
      WithoutId(props[..n]) + if props[n].key == ID_KEY then [] else [props[n]]
  }

  /** The row of a document: the MongoDB surrogate is dropped. */
  function ToRow(env: Env, mapping: Mapping, doc: seq<Prop>): Result<seq<Prop>, Failure> {
    Traverse(Unmapper(env, mapping), WithoutId(doc))
  }

  ghost predicate DistinctProps(props: seq<Prop>) {
    forall i, j :: 0 <= i < j < |props| ==> props[i].key != props[j].key
  }

  /** The first failing column decides the failure of the whole row. */
  lemma {:induction false} TraverseFails(f: Convert, props: seq<Prop>, n: nat)
    requires n <= |props| && Traverse(f, props[..n]).Err?
    ensures Traverse(f, props) == Traverse(f, props[..n])
  {
    if n < |props| {
      assert props[..|props| - 1][..n] == props[..n];
      TraverseFails(f, props[..|props| - 1], n);
    } else {
      assert props[..n] == props;
    }
  }

  lemma {:induction false} TraverseShape(f: Convert, props: seq<Prop>)
    requires Traverse(f, props).Ok?
    ensures |Traverse(f, props).value| == |props|
    ensures forall i :: 0 <= i < |props| ==>
      Traverse(f, props).value[i].key == props[i].key && f(props[i]) == Ok(Traverse(f, props).value[i].value)
  {
    if props != [] {
      TraverseShape(f, props[..|props| - 1]);
    }
  }

  lemma {:induction false} TraverseOk(f: Convert, props: seq<Prop>, out: seq<Prop>)
    requires |out| == |props|
    requires forall i :: 0 <= i < |props| ==> out[i].key == props[i].key && f(props[i]) == Ok(out[i].value)
    ensures Traverse(f, props) == Ok(out)
  {
    if props != [] {
      var n := |props| - 1;
      TraverseOk(f, props[..n], out[..n]);
      assert out == out[..n] + [out[n]];
    }
  }

  /** `pgRowToMongoDoc`. */
  method PgRowToMongoDoc(env: Env, mapping: Mapping, row: seq<Prop>)
    returns (r: Result<(seq<Prop>, seq<JsString>), Failure>)
    ensures r.Ok? <==> ToDoc(env, mapping, row).Ok?
    ensures r.Ok? ==> r.value == (ToDoc(env, mapping, row).value, Unknown(mapping, row))
    ensures r.Err? ==> r.error == ToDoc(env, mapping, row).error
  {
    var doc, unknown := [], [];
    for i := 0 to |row|
      invariant Traverse(Mapper(env, mapping), row[..i]) == Ok(doc)
      invariant unknown == Unknown(mapping, row[..i])
    {
      var key, value := row[i].key, row[i].value;
      assert row[..i + 1][..i] == row[..i];
      if key !in mapping.columns {
        unknown := unknown + [key];
        doc := doc + [Prop(key, OrNull(value))];
      } else {
        var v := MapValue(env, mapping.columns[key], key, value);
        if v.Err? {
          TraverseFails(Mapper(env, mapping), row, i + 1);
          return Err(v.error);
        }
        doc := doc + [Prop(key, v.value)];
      }
    }
    assert row[..|row|] == row;
    ghost var mapped := doc;
    for i := 0 to |mapping.requiredFields|
      invariant doc == FillRequired(mapped, mapping.requiredFields[..i])
    {
      assert mapping.requiredFields[..i + 1][..i] == mapping.requiredFields[..i];
      if !Has(doc, mapping.requiredFields[i]) {
        doc := doc + [Prop(mapping.requiredFields[i], Null)];
      }
    }
    assert mapping.requiredFields[..|mapping.requiredFields|] == mapping.requiredFields;
    return Ok((doc, unknown));
  }

  lemma {:induction false} WithoutIdPrefix(props: seq<Prop>, n: nat)
    requires n <= |props|
    ensures |WithoutId(props[..n])| <= |WithoutId(props)|
    ensures WithoutId(props)[..|WithoutId(props[..n])|] == WithoutId(props[..n])
  {
    if n < |props| {
      assert props[..|props| - 1][..n] == props[..n];
      WithoutIdPrefix(props[..|props| - 1], n);
    } else {
      assert props[..n] == props;
    }
  }

  lemma WithoutIdStep(doc: seq<Prop>, i: nat)
    requires i < |doc|
    ensures WithoutId(doc[..i + 1]) == WithoutId(doc[..i]) + if doc[i].key == ID_KEY then [] else [doc[i]]
  {
    assert doc[..i + 1][..i] == doc[..i];
  }

  /** Dropping the surrogate, or converting one more property, extends the row. */
  lemma ToRowStep(f: Convert, doc: seq<Prop>, i: nat, row: seq<Prop>)
    requires i < |doc| && Traverse(f, WithoutId(doc[..i])) == Ok(row)
    ensures doc[i].key == ID_KEY ==> Traverse(f, WithoutId(doc[..i + 1])) == Ok(row)
    ensures doc[i].key != ID_KEY && f(doc[i]).Ok? ==>
      Traverse(f, WithoutId(doc[..i + 1])) == Ok(row + [Prop(doc[i].key, f(doc[i]).value)])
  {
    WithoutIdStep(doc, i);
    if doc[i].key == ID_KEY {
      assert WithoutId(doc[..i + 1]) == WithoutId(doc[..i]);
    } else {
      TraverseSnoc(f, WithoutId(doc[..i]), doc[i]);
    }
  }

  lemma FailsAfter(f: Convert, before: seq<Prop>, p: Prop, all: seq<Prop>)
    requires Traverse(f, before).Ok? && f(p).Err?
    requires |before| < |all| && all[..|before| + 1] == before + [p]
    ensures Traverse(f, all) == Err(f(p).error)
  {
    TraverseSnoc(f, before, p);
    TraverseFails(f, all, |before| + 1);
  }

  lemma TraverseSnoc(f: Convert, props: seq<Prop>, p: Prop)
    requires Traverse(f, props).Ok?
    ensures Traverse(f, props + [p])
         == if f(p).Err? then Err(f(p).error) else Ok(Traverse(f, props).value + [Prop(p.key, f(p).value)])
  {
    assert (props + [p])[..|props|] == props;
  }

  /** `mongoDocToPgRow`. */
  method MongoDocToPgRow(env: Env, mapping: Mapping, doc: seq<Prop>)
    returns (r: Result<(seq<Prop>, seq<JsString>), Failure>)
    ensures r.Ok? <==> ToRow(env, mapping, doc).Ok?
    ensures r.Ok? ==> r.value == (ToRow(env, mapping, doc).value, Unknown(mapping, WithoutId(doc)))
    ensures r.Err? ==> r.error == ToRow(env, mapping, doc).error
  {
    var row, unknown := [], [];
    for i := 0 to |doc|
      invariant Traverse(Unmapper(env, mapping), WithoutId(doc[..i])) == Ok(row)
      invariant unknown == Unknown(mapping, WithoutId(doc[..i]))
    {
      var key, value := doc[i].key, doc[i].value;
      ghost var before := row;
      UnknownStep(mapping, doc, i);
      if key == ID_KEY {
        ToRowStep(Unmapper(env, mapping), doc, i, before);
        continue;
      }
      if key !in mapping.columns {
        unknown := unknown + [key];
        row := row + [Prop(key, OrNull(value))];
      } else {
        var v := UnmapValue(env, mapping.columns[key], key, value);
        if v.Err? {
          WithoutIdStep(doc, i);
          WithoutIdPrefix(doc, i + 1);
          FailsAfter(Unmapper(env, mapping), WithoutId(doc[..i]), doc[i], WithoutId(doc));
          return Err(v.error);
        }
        row := row + [Prop(key, v.value)];
      }
      ToRowStep(Unmapper(env, mapping), doc, i, before);
    }
    assert doc[..|doc|] == doc;
    return Ok((row, unknown));
  }

  lemma UnknownStep(mapping: Mapping, doc: seq<Prop>, i: nat)
    requires i < |doc|
    ensures Unknown(mapping, WithoutId(doc[..i + 1])) == Unknown(mapping, WithoutId(doc[..i]))
         + if doc[i].key == ID_KEY || doc[i].key in mapping.columns then [] else [doc[i].key]
  {
    WithoutIdStep(doc, i);
    var before := WithoutId(doc[..i]);
    if doc[i].key == ID_KEY {
      assert WithoutId(doc[..i + 1]) == before;
    } else {
      assert (before + [doc[i]])[..|before|] == before;
    }
  }

  // What the values are

  /** The instant a value denotes: a date is its milliseconds, a text what it parses to. */
  predicate Denotes(env: Env, v: Js, t: int) {
    v == Date(t) || (v.Str? && env.parseDate(v.s) == Some(t))
  }

  /** The ISO text of the instant the value denotes. */
  ghost predicate IsoOf(env: Env, v: Js, out: Js) {
    exists t: int :: Denotes(env, v, t) && out == Str(env.iso(t))
  }

  /** What a document may hold in a column of a kind. */
  ghost predicate Readable(env: Env, kind: ColumnKind, v: Js) {
    || Absent(v)
    || match kind
       case Timestamp => exists t: int :: Denotes(env, v, t)
       case UuidKind => v.Str? || (v.Binary? && v.uuid && |v.bytes| == 16)
       case _ => true
  }

  /**
   * A column of a row for the value in a document, whoever wrote it: null for an absent value, the ISO
   * text of the instant in a timestamp column, whether it came as a date or as a text, lower-case text
   * in a uuid column, text in a numeric one, and the value itself elsewhere.
   */
  ghost predicate RowValue(env: Env, kind: ColumnKind, v: Js, out: Js) {
    if Absent(v) then out == Null
    else
      match kind
      case Timestamp => IsoOf(env, v, out)
      case UuidKind =>
        && out.Str? && Uuid.NoCapitals(out.s)
        && (v.Binary? ==> Uuid.Parse(out.s) == Some(v.bytes))
        && (v.Str? && Uuid.Ascii(v.s) ==> out.s == Uuid.Lowered(v.s))
      case Numeric =>
        && out.Str?
        && (v.Str? ==> out == v)
        && (v.Num? ==> Json.Parse(out.s) == Some(Json.Num(v.n)))
        && (v.Frac? ==> Json.Parse(out.s) == Some(Json.Frac(v.p)))
      case _ => out == v
  }

  lemma RowValueOf(env: Env, kind: ColumnKind, key: JsString, v: Js)
    requires ValidEnv(env)
    ensures UnmapValue(env, kind, key, v).Ok? <==> Readable(env, kind, v)
    ensures UnmapValue(env, kind, key, v).Ok? ==> RowValue(env, kind, v, UnmapValue(env, kind, key, v).value)
  {
    match kind
    case UuidKind =>
      if v.Binary? && v.uuid && |v.bytes| == 16 {
        Uuid.ParseFormat(v.bytes);
        Uuid.FormatIsLower(v.bytes);
      }
    case Timestamp =>
      assert v.Date? ==> Denotes(env, v, v.ms);
      assert v.Str? && env.parseDate(v.s).Some? ==> Denotes(env, v, env.parseDate(v.s).value);
    case Numeric =>
      match v {
        case Num(n) => Json.ParsePrint(Json.Stringify, Json.Num(n));
        case Frac(p) => Json.ParsePrint(Json.Stringify, Json.Frac(p));
        case _ =>
      }
    case _ =>
  }

  /** A uuid arrives as one text, whether it was stored as a binary or as a text in any letter case. */
  lemma UuidTextsAgree(env: Env, key: JsString, bytes: seq<Byte>, s: JsString)
    requires ValidEnv(env) && |bytes| == 16 && Uuid.Ascii(s) && Uuid.Lowered(s) == Uuid.Format(bytes)
    ensures UnmapValue(env, UuidKind, key, Str(s)) == UnmapValue(env, UuidKind, key, Binary(true, bytes))
  {
  }

  /** What a row may hold in a column of a kind. */
  ghost predicate Writable(env: Env, kind: ColumnKind, v: Js) {
    || Absent(v)
    || match kind
       case Timestamp => exists t: int :: Denotes(env, v, t)
       case UuidKind => v.Binary? || (v.Str? && Uuid.Parse(v.s).Some?)
       case Numeric => v.Str? || IsNumber(v)
       case BigintKind => v.Str? || IsNumber(v) || v.BigInt?
       case _ => true
  }

  /** A field of a document for the value in a row: timestamps are ISO texts, uuids binaries, bigints no bigints. */
  ghost predicate DocValue(env: Env, kind: ColumnKind, v: Js, out: Js) {
    if Absent(v) then out == Null
    else
      match kind
      case Timestamp => IsoOf(env, v, out)
      case UuidKind => if v.Str? then out.Binary? && out.uuid && Some(out.bytes) == Uuid.Parse(v.s) else out == v
      case BigintKind =>
        if !v.BigInt? then out == v
        else if v.i > MAX_SAFE_INTEGER then out == Str(Json.Decimal(v.i))
        else out.Num? && (-MAX_SAFE_INTEGER <= v.i ==> out.n == v.i)
      case _ => out == v
  }

  lemma DocValueOf(env: Env, kind: ColumnKind, key: JsString, v: Js)
    ensures MapValue(env, kind, key, v).Ok? <==> Writable(env, kind, v)
    ensures MapValue(env, kind, key, v).Ok? ==> DocValue(env, kind, v, MapValue(env, kind, key, v).value)
  {
    match kind
    case Timestamp =>
      assert v.Date? ==> Denotes(env, v, v.ms);
      assert v.Str? && env.parseDate(v.s).Some? ==> Denotes(env, v, env.parseDate(v.s).value);
    case BigintKind =>
      if v.BigInt? && -MAX_SAFE_INTEGER <= v.i <= MAX_SAFE_INTEGER {
        SafeIsExact(Json.Magnitude(v.i));
      }
    case _ =>
  }

  lemma {:induction false} TraverseOkIff(f: Convert, props: seq<Prop>)
    ensures Traverse(f, props).Ok? <==> forall i :: 0 <= i < |props| ==> f(props[i]).Ok?
  {
    if props != [] {
      TraverseOkIff(f, props[..|props| - 1]);
    }
  }

  /** Everything but the surrogate. */
  lemma {:induction false} WithoutIdKeeps(doc: seq<Prop>)
    ensures forall p :: p in WithoutId(doc) <==> p in doc && p.key != ID_KEY
    ensures DistinctProps(doc) ==> DistinctProps(WithoutId(doc))
  {
    if doc != [] {
      WithoutIdKeeps(doc[..|doc| - 1]);
      assert doc == doc[..|doc| - 1] + [doc[|doc| - 1]];
    }
  }

  /** The row has the columns of the document, each with the value for it. */
  ghost predicate RowHolds(env: Env, mapping: Mapping, doc: seq<Prop>, row: seq<Prop>) {
    && |row| == |doc|
    && forall i :: 0 <= i < |doc| ==>
         row[i].key == doc[i].key && RowValue(env, KindOf(mapping, doc[i].key), doc[i].value, row[i].value)
  }

  /**
   * Every document, whoever wrote its values: it maps exactly when every property but the surrogate is
   * readable, and then to a row with exactly the columns of the document and the values for them.
   */
  lemma RowOfDocument(env: Env, mapping: Mapping, doc: seq<Prop>)
    requires ValidEnv(env)
    ensures ToRow(env, mapping, doc).Ok? <==>
      forall p :: p in doc && p.key != ID_KEY ==> Readable(env, KindOf(mapping, p.key), p.value)
    ensures ToRow(env, mapping, doc).Ok? ==> RowHolds(env, mapping, WithoutId(doc), ToRow(env, mapping, doc).value)
  {
    var f, kept := Unmapper(env, mapping), WithoutId(doc);
    WithoutIdKeeps(doc);
    TraverseOkIff(f, kept);
    forall i | 0 <= i < |kept|
      ensures f(kept[i]).Ok? <==> Readable(env, KindOf(mapping, kept[i].key), kept[i].value)
      ensures f(kept[i]).Ok? ==> RowValue(env, KindOf(mapping, kept[i].key), kept[i].value, f(kept[i]).value)
    {
      RowValueOf(env, KindOf(mapping, kept[i].key), kept[i].key, kept[i].value);
    }
    if Traverse(f, kept).Ok? {
      TraverseShape(f, kept);
    }
  }

  /** The document starts with the columns of the row, each with the value for it. */
  ghost predicate DocHolds(env: Env, mapping: Mapping, row: seq<Prop>, doc: seq<Prop>) {
    && |row| <= |doc|
    && forall i :: 0 <= i < |row| ==>
         doc[i].key == row[i].key && DocValue(env, KindOf(mapping, row[i].key), row[i].value, doc[i].value)
  }

  /**
   * Every row: it maps exactly when every column is writable, and then to a document with the values for
   * its columns and null for each required field it lacks.
   */
  lemma DocumentOfRow(env: Env, mapping: Mapping, row: seq<Prop>)
    ensures ToDoc(env, mapping, row).Ok? <==>
      forall p :: p in row ==> Writable(env, KindOf(mapping, p.key), p.value)
    ensures ToDoc(env, mapping, row).Ok? ==>
      var doc := ToDoc(env, mapping, row).value;
      && DocHolds(env, mapping, row, doc)
      && (forall i :: |row| <= i < |doc| ==>
            doc[i].value == Null && doc[i].key in mapping.requiredFields && !Has(row, doc[i].key))
      && (forall k :: k in mapping.requiredFields ==> Has(doc, k))
  {
    var f := Mapper(env, mapping);
    TraverseOkIff(f, row);
    forall i | 0 <= i < |row|
      ensures f(row[i]).Ok? <==> Writable(env, KindOf(mapping, row[i].key), row[i].value)
      ensures f(row[i]).Ok? ==> DocValue(env, KindOf(mapping, row[i].key), row[i].value, f(row[i]).value)
    {
      DocValueOf(env, KindOf(mapping, row[i].key), row[i].key, row[i].value);
    }
    if Traverse(f, row).Ok? {
      var mapped := Traverse(f, row).value;
      TraverseShape(f, row);
      FillsRequired(mapped, mapping.requiredFields);
      forall key | Has(row, key) ensures Has(mapped, key) {
        HasCarries(row, mapped, key);
      }
    }
  }

  /** The columns counted as unknown are those the mapping does not list. */
  lemma {:induction false} UnknownIs(mapping: Mapping, props: seq<Prop>, key: JsString)
    ensures key in Unknown(mapping, props) <==> Has(props, key) && key !in mapping.columns
  {
    if props != [] {
      var n := |props| - 1;
      UnknownIs(mapping, props[..n], key);
      HasSnoc(props, key);
    }
  }

  lemma HasSnoc(props: seq<Prop>, key: JsString)
    requires props != []
    ensures var n := |props| - 1; Has(props, key) <==> Has(props[..n], key) || props[n].key == key
  {
    var n := |props| - 1;
    if Has(props[..n], key) {
      HasCarries(props[..n], props, key);
    }
    if Has(props, key) {
      var i :| 0 <= i < |props| && props[i].key == key;
      assert i < n ==> props[..n][i].key == key;
    }
  }

  // Round trip

  /** What a column value becomes after a round trip: the documented normalisation. */
  function Normal(env: Env, kind: ColumnKind, v: Js): Js {
    if Absent(v) then Null
    else
      match (kind, v)
      case (UuidKind, Str(s)) => if Uuid.Parse(s).Some? then Str(Uuid.Format(Uuid.Parse(s).value)) else v
      case (UuidKind, Binary(true, bytes)) => if |bytes| == 16 then Str(Uuid.Format(bytes)) else v
      case (Timestamp, Date(ms)) => Str(env.iso(ms))
      case (Timestamp, Str(s)) => if env.parseDate(s).Some? then Str(env.iso(env.parseDate(s).value)) else v
      case (Numeric, Num(n)) => Str(Json.IntegerText(Json.Stringify, n))
      case (Numeric, Frac(p)) => Str(Json.FractionText(p))
      case (BigintKind, BigInt(i)) => if i <= MAX_SAFE_INTEGER then Num(NumberOf(i)) else Str(Json.Decimal(i))
      case _ => v
  }

  /** A uuid column holds a text, or a binary of the uuid subtype. */
  predicate UuidShaped(kind: ColumnKind, v: Js) {
    kind.UuidKind? && v.Binary? ==> v.uuid && |v.bytes| == 16
  }

  lemma ValueRoundTrip(env: Env, kind: ColumnKind, key: JsString, v: Js)
    requires ValidEnv(env) && UuidShaped(kind, v)
    requires MapValue(env, kind, key, v).Ok?
    ensures UnmapValue(env, kind, key, MapValue(env, kind, key, v).value) == Ok(Normal(env, kind, v))
  {
    match kind
    case UuidKind => UuidRoundTrip(env, key, v);
    case Timestamp => TimestampRoundTrip(env, key, v);
    case _ =>
  }

  lemma UuidRoundTrip(env: Env, key: JsString, v: Js)
    requires UuidShaped(UuidKind, v) && ToBinaryUuid(key, v).Ok?
    ensures FromBinaryUuid(env, key, ToBinaryUuid(key, v).value) == Ok(Normal(env, UuidKind, v))
  {
  }

  lemma TimestampRoundTrip(env: Env, key: JsString, v: Js)
    requires ValidEnv(env) && ToIsoString(env, key, v).Ok?
    ensures ToIsoString(env, key, ToIsoString(env, key, v).value) == Ok(Normal(env, Timestamp, v))
  {
    if v.Date? {
      assert env.parseDate(env.iso(v.ms)) == Some(v.ms);
    } else if v.Str? {
      var t: int := env.parseDate(v.s).value;
      assert env.parseDate(env.iso(t)) == Some(t);
    }
  }

  /** Columns hold values PostgreSQL can return. */
  ghost predicate RowShaped(mapping: Mapping, row: seq<Prop>) {
    !Has(row, ID_KEY) && forall i :: 0 <= i < |row| ==> UuidShaped(KindOf(mapping, row[i].key), row[i].value)
  }

  lemma {:induction false} NothingToDrop(props: seq<Prop>)
    requires forall i :: 0 <= i < |props| ==> props[i].key != ID_KEY
    ensures WithoutId(props) == props
  {
    if props != [] {
      NothingToDrop(props[..|props| - 1]);
    }
  }

  /** What comes back: the row with every value normalised, then null for each filled-in field. */
  function Restored(normal: Prop -> Js, row: seq<Prop>, doc: seq<Prop>): (r: seq<Prop>)
    requires |row| <= |doc|
    ensures |r| == |doc|
  {
    seq(|doc|, i requires 0 <= i < |doc| => Prop(doc[i].key, if i < |row| then normal(row[i]) else Null))
  }

  function Normalizer(env: Env, mapping: Mapping): Prop -> Js {
    (p: Prop) => Normal(env, KindOf(mapping, p.key), p.value)
  }

  /** Keys are found in whatever extends them. */
  lemma HasCarries(a: seq<Prop>, b: seq<Prop>, key: JsString)
    requires |a| <= |b| && forall i :: 0 <= i < |a| ==> a[i].key == b[i].key
    requires Has(a, key)
    ensures Has(b, key)
  {
    var i :| 0 <= i < |a| && a[i].key == key;
    assert b[i].key == key;
  }

  /** Mapping out with `f`, filling in fields and mapping back with `g`. */
  lemma TraverseRoundTrip(f: Convert, g: Convert, normal: Prop -> Js, row: seq<Prop>, fields: seq<JsString>)
    requires forall i :: 0 <= i < |row| && f(row[i]).Ok? ==> g(Prop(row[i].key, f(row[i]).value)) == Ok(normal(row[i]))
    requires forall key: JsString :: g(Prop(key, Null)) == Ok(Null)
    requires !Has(row, ID_KEY) && ID_KEY !in fields && Traverse(f, row).Ok?
    ensures var doc := FillRequired(Traverse(f, row).value, fields);
      && |row| <= |doc|
      && (forall i :: 0 <= i < |row| ==> doc[i].key == row[i].key)
      && (forall i :: |row| <= i < |doc| ==> doc[i].key in fields && !Has(row, doc[i].key))
      && (forall k :: k in fields ==> Has(doc, k))
      && Traverse(g, WithoutId(doc)) == Ok(Restored(normal, row, doc))
  {
    var mapped := Traverse(f, row).value;
    TraverseShape(f, row);
    FillsRequired(mapped, fields);
    var doc := FillRequired(mapped, fields);
    assert forall i :: 0 <= i < |row| ==> doc[i] == mapped[i];
    forall key | Has(row, key) ensures Has(mapped, key) {
      HasCarries(row, mapped, key);
    }
    forall i | 0 <= i < |doc| ensures doc[i].key != ID_KEY {
      assert i < |row| ==> doc[i].key == row[i].key;
    }
    NothingToDrop(doc);
    var out := Restored(normal, row, doc);
    forall i | 0 <= i < |doc| ensures out[i].key == doc[i].key && g(doc[i]) == Ok(out[i].value) {
      assert doc[i] == Prop(doc[i].key, doc[i].value);
    }
    TraverseOk(g, doc, out);
  }

  /**
   * A row that maps at all comes back from its document: every column in its place with
   * its normalised value, followed by null for each missing required field.
   */
  lemma RowRoundTrip(env: Env, mapping: Mapping, row: seq<Prop>)
    requires ValidEnv(env) && RowShaped(mapping, row) && ID_KEY !in mapping.requiredFields
    requires ToDoc(env, mapping, row).Ok?
    ensures var doc := ToDoc(env, mapping, row).value;
      && |row| <= |doc|
      && (forall i :: 0 <= i < |row| ==> doc[i].key == row[i].key)
      && (forall i :: |row| <= i < |doc| ==> doc[i].key in mapping.requiredFields && !Has(row, doc[i].key))
      && (forall k :: k in mapping.requiredFields ==> Has(doc, k))
      && ToRow(env, mapping, doc) == Ok(Restored(Normalizer(env, mapping), row, doc))
  {
    var f, g := Mapper(env, mapping), Unmapper(env, mapping);
    forall i | 0 <= i < |row| && f(row[i]).Ok?
      ensures g(Prop(row[i].key, f(row[i]).value)) == Ok(Normalizer(env, mapping)(row[i]))
    {
      ValueRoundTrip(env, KindOf(mapping, row[i].key), row[i].key, row[i].value);
    }
    NullUnmaps(env, mapping);
    TraverseRoundTrip(f, g, Normalizer(env, mapping), row, mapping.requiredFields);
  }

  lemma NullUnmaps(env: Env, mapping: Mapping)
    ensures forall key: JsString :: Unmapper(env, mapping)(Prop(key, Null)) == Ok(Null)
  {
  }

  lemma {:induction false} FillsRequired(doc: seq<Prop>, fields: seq<JsString>)
    ensures var filled := FillRequired(doc, fields);
      && doc <= filled
      && (forall i :: |doc| <= i < |filled| ==>
        filled[i].value == Null && filled[i].key in fields && !Has(doc, filled[i].key))
      && (forall f :: f in fields ==> Has(filled, f))
  {
    if fields != [] {
      var n := |fields| - 1;
      FillsRequired(doc, fields[..n]);
      var front, filled := FillRequired(doc, fields[..n]), FillRequired(doc, fields);
      forall key | Has(doc, key) ensures Has(front, key) {
        HasCarries(doc, front, key);
      }
      forall key | Has(front, key) ensures Has(filled, key) {
        HasCarries(front, filled, key);
      }
      if !Has(front, fields[n]) {
        assert filled[|front|].key == fields[n];
      }
    }
  }

  /** A uuid text already in canonical form survives unchanged. */
  lemma CanonicalUuidSurvives(env: Env, bytes: seq<Byte>)
    requires |bytes| == 16
    ensures Normal(env, UuidKind, Str(Uuid.Format(bytes))) == Str(Uuid.Format(bytes))
  {
    Uuid.ParseFormat(bytes);
  }

  /**
   * A bigint is meant to become a number only when that is safe. It keeps its value exactly
   * when it is above the safe range (and becomes text) or is a multiple of the gap between
   * doubles around it; only the upper end of the range is checked.
   */
  lemma BigintKeepsValueIff(i: Int64)
    ensures var v := ToBigint([], BigInt(i)).value;
      (v.Num? && v.n == i) || v == Str(Json.Decimal(i))
      <==> i > MAX_SAFE_INTEGER || Json.Magnitude(i) % Ulp(Json.Magnitude(i)) == 0
  {
    var m := Json.Magnitude(i);
    var u := Ulp(m);
    var r := m % u;
    assert 0 <= r < u;
    assert Nearest(m) == m - r || Nearest(m) == m - r + u;
  }

  /** Two different negative bigints become the same document value. */
  lemma NegativeBigintsCollide()
    ensures ToBigint([], BigInt(-0x20_0000_0000_0001)) == ToBigint([], BigInt(-0x20_0000_0000_0000))
  {
    assert Ulp(0x10_0000_0000_0000) == 1;
    assert Ulp(0x20_0000_0000_0000) == 2 && Ulp(0x20_0000_0000_0001) == 2;
    assert Nearest(0x20_0000_0000_0001) == 0x20_0000_0000_0000 == Nearest(0x20_0000_0000_0000);
  }
}
