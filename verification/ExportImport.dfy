/**
 * Assistant versions: creation, optimistic draft updates, export and import. The content
 * hash covers the normalised payload, and an export imports to the same payload.
 */
module ExportImport {
  import opened Wrappers
  import opened Text
  import opened Json
  import opened CanonicalJson
  import opened PayloadSchema

  // Parsing what parsing produced

  /** Every object schema, at any depth, has distinct keys. */
  predicate Distinct(s: Schema) {
    match s
    case Scalar(_) => true
    case Object(shape, _) => DistinctEntries(shape) && forall i :: 0 <= i < |shape| ==> Distinct(shape[i].schema)
    case Array(element, _) => Distinct(element)
    case Optional(inner) => Distinct(inner)
    case Default(inner, _) => Distinct(inner)
    case Effects(inner, _) => Distinct(inner)
  }

  lemma {:induction false} ParseWellFormed(s: Schema, v: Option<Value>)
    requires Distinct(s) && SafeParse(s, v).Present?
    ensures WellFormed(SafeParse(s, v).value)
    decreases s, 0, 0
  {
    match s
    case Scalar(_) =>
    case Object(shape, _) => ShapeWellFormed(shape, v.value.fields);
    case Array(element, _) =>
      forall i | 0 <= i < |v.value.items| {
        ParseWellFormed(element, Some(v.value.items[i]));
      }
    case Optional(inner) => ParseWellFormed(inner, v);
    case Default(inner, value) => ParseWellFormed(inner, if v.None? then Some(value) else v);
    case Effects(inner, _) => ParseWellFormed(inner, v);
  }

  lemma {:induction false} ShapeWellFormed(shape: seq<Entry>, fs: seq<Field>)
    requires DistinctEntries(shape) && forall i :: 0 <= i < |shape| ==> Distinct(shape[i].schema)
    requires ParseShape(shape, fs).Some?
    ensures var gs := ParseShape(shape, fs).value;
      && DistinctKeys(gs)
      && (forall j :: 0 <= j < |gs| ==> WellFormed(gs[j].value) && EntryAt(shape, gs[j].key).Some?)
    decreases shape, 1, 0
  {
    if shape != [] {
      ShapeWellFormed(shape[1..], fs);
      var rest := ParseShape(shape[1..], fs).value;
      forall j | 0 <= j < |rest| ensures rest[j].key != shape[0].key {
        var i := EntryIndex(shape[1..], rest[j].key);
        assert shape[i + 1].key == rest[j].key;
      }
      if SafeParse(shape[0].schema, Find(fs, shape[0].key)).Present? {
        ParseWellFormed(shape[0].schema, Find(fs, shape[0].key));
      }
    }
  }

  // What parsing produces

  /** A normalised value: each part meets its part of the schema, and nothing is missing or unknown. */
  predicate Conforms(s: Schema, w: Value)
    decreases s, 0
  {
    match s
    case Scalar(accepts) => IsLeaf(w) && accepts(w)
    case Object(shape, _) => w.Obj? && FieldsConform(shape, w.fields)
    case Array(element, fits) =>
      w.Arr? && fits(|w.items|) && forall i :: 0 <= i < |w.items| ==> Conforms(element, w.items[i])
    case Optional(inner) => Conforms(inner, w)
    case Default(inner, _) => Conforms(inner, w)
    case Effects(inner, check) => Conforms(inner, w) && check(w)
  }

  /** The properties of the shape in its order, without those that parsing leaves absent. */
  predicate FieldsConform(shape: seq<Entry>, fs: seq<Field>)
    decreases shape, 1
  {
    if shape == [] then fs == []
    else if fs != [] && fs[0].key == shape[0].key then
      Conforms(shape[0].schema, fs[0].value) && FieldsConform(shape[1..], fs[1..])
    else SafeParse(shape[0].schema, None).Absent? && FieldsConform(shape[1..], fs)
  }

  lemma {:induction false} ParseConforms(s: Schema, v: Option<Value>)
    requires Distinct(s) && SafeParse(s, v).Present?
    ensures Conforms(s, SafeParse(s, v).value)
    decreases s, 0, 0
  {
    match s
    case Scalar(_) =>
    case Object(shape, _) => ShapeConforms(shape, v.value.fields);
    case Array(element, _) =>
      forall i | 0 <= i < |v.value.items| {
        ParseConforms(element, Some(v.value.items[i]));
      }
    case Optional(inner) => ParseConforms(inner, v);
    case Default(inner, value) => ParseConforms(inner, if v.None? then Some(value) else v);
    case Effects(inner, _) => ParseConforms(inner, v);
  }

  lemma {:induction false} ShapeConforms(shape: seq<Entry>, fs: seq<Field>)
    requires DistinctEntries(shape) && forall i :: 0 <= i < |shape| ==> Distinct(shape[i].schema)
    requires ParseShape(shape, fs).Some?
    ensures FieldsConform(shape, ParseShape(shape, fs).value)
    decreases shape, 1, 0
  {
    if shape != [] {
      var s, found := shape[0].schema, Find(fs, shape[0].key);
      ShapeConforms(shape[1..], fs);
      var rest := ParseShape(shape[1..], fs).value;
      if SafeParse(s, found).Present? {
        ParseConforms(s, found);
        assert ParseShape(shape, fs).value[1..] == rest;
      } else {
        if found.Some? {
          ParseThroughWrappers(s, found.value);
        }
        ParseShapeIs(shape[1..], fs, shape[0].key);
        NotAmong(shape[1..], shape[0].key);
      }
    }
  }

  lemma {:induction false} ConformingParses(s: Schema, w: Value)
    requires Distinct(s) && Conforms(s, w)
    ensures SafeParse(s, Some(w)) == Present(w)
    decreases s, 0, 0
  {
    match s
    case Scalar(_) =>
    case Object(shape, _) =>
      ConformingShape(shape, w.fields, w.fields);
      ConformingKeys(shape, w.fields);
    case Array(element, _) =>
      forall i | 0 <= i < |w.items| {
        ConformingParses(element, w.items[i]);
      }
      assert ParseItems(element, w.items).value == w.items;
    case Optional(inner) => ConformingParses(inner, w);
    case Default(inner, _) => ConformingParses(inner, w);
    case Effects(inner, _) => ConformingParses(inner, w);
  }

  lemma {:induction false} ConformingKeys(shape: seq<Entry>, fs: seq<Field>)
    requires FieldsConform(shape, fs)
    ensures forall j :: 0 <= j < |fs| ==> EntryAt(shape, fs[j].key).Some?
  {
    if shape != [] {
      if fs != [] && fs[0].key == shape[0].key {
        ConformingKeys(shape[1..], fs[1..]);
        assert forall j :: 1 <= j < |fs| ==> fs[j] == fs[1..][j - 1];
      } else {
        ConformingKeys(shape[1..], fs);
      }
    }
  }

  lemma {:induction false} ConformingShape(shape: seq<Entry>, fs: seq<Field>, all: seq<Field>)
    requires DistinctEntries(shape) && forall i :: 0 <= i < |shape| ==> Distinct(shape[i].schema)
    requires FieldsConform(shape, fs)
    requires forall i :: 0 <= i < |shape| ==> Find(all, shape[i].key) == Find(fs, shape[i].key)
    ensures ParseShape(shape, all) == Some(fs)
    decreases shape, 1, 0
  {
    if shape != [] {
      if fs != [] && fs[0].key == shape[0].key {
        ConformingParses(shape[0].schema, fs[0].value);
        ConformingShape(shape[1..], fs[1..], all);
        assert fs == [fs[0]] + fs[1..];
      } else {
        ConformingKeys(shape[1..], fs);
        NotAmong(shape[1..], shape[0].key);
        NotFound(fs, shape[0].key);
        ConformingShape(shape[1..], fs, all);
      }
    }
  }

  /**
   * What parsing returns always conforms to the schema, and the values that parse to themselves are
   * exactly those that do.
   */
  lemma ConformsIff(s: Schema, v: Option<Value>, w: Value)
    requires Distinct(s)
    ensures SafeParse(s, v) == Present(w) ==> Conforms(s, w)
    ensures Conforms(s, w) <==> SafeParse(s, Some(w)) == Present(w)
  {
    if SafeParse(s, v) == Present(w) {
      ParseConforms(s, v);
    }
    if SafeParse(s, Some(w)) == Present(w) {
      ParseConforms(s, Some(w));
    }
    if Conforms(s, w) {
      ConformingParses(s, w);
    }
  }

  /**
   * Parsing is idempotent, and stays so when the keys of the normalised value are
   * reordered: any equivalent value parses back to exactly that normalised value.
   */
  lemma {:induction false} ParseStable(s: Schema, v: Option<Value>, w: Value, x: Value)
    requires Distinct(s) && SafeParse(s, v) == Present(w) && Equiv(w, x)
    ensures SafeParse(s, Some(x)) == Present(w)
    decreases s, 0, 0
  {
    match s
    case Scalar(_) =>
    case Object(shape, _) => ObjectStable(shape, v.value.fields, w.fields, x.fields);
    case Array(element, _) =>
      var items := v.value.items;
      forall i | 0 <= i < |items| ensures SafeParse(element, Some(x.items[i])) == Present(w.items[i]) {
        ParseStable(element, Some(items[i]), w.items[i], x.items[i]);
      }
      assert ParseItems(element, x.items).value == w.items;
    case Optional(inner) => ParseStable(inner, v, w, x);
    case Default(inner, value) => ParseStable(inner, if v.None? then Some(value) else v, w, x);
    case Effects(inner, _) => ParseStable(inner, v, w, x);
  }

  lemma {:induction false} ObjectStable(shape: seq<Entry>, fs: seq<Field>, gs: seq<Field>, hs: seq<Field>)
    requires DistinctEntries(shape) && forall i :: 0 <= i < |shape| ==> Distinct(shape[i].schema)
    requires ParseShape(shape, fs) == Some(gs) && SameFields(gs, hs)
    ensures ParseShape(shape, hs) == Some(gs) && KnownKeys(shape, hs)
    decreases shape, 2, 0
  {
    forall i | 0 <= i < |shape|
      ensures SafeParse(shape[i].schema, Find(hs, shape[i].key)) == SafeParse(shape[i].schema, Find(fs, shape[i].key))
    {
      EntryStable(shape, fs, gs, hs, i);
    }
    SameParse(shape, fs, hs);
    forall j | 0 <= j < |hs| ensures EntryAt(shape, hs[j].key).Some? {
      ParseShapeIs(shape, fs, hs[j].key);
    }
  }

  lemma EntryStable(shape: seq<Entry>, fs: seq<Field>, gs: seq<Field>, hs: seq<Field>, i: nat)
    requires DistinctEntries(shape) && forall i :: 0 <= i < |shape| ==> Distinct(shape[i].schema)
    requires ParseShape(shape, fs) == Some(gs) && SameFields(gs, hs) && i < |shape|
    ensures SafeParse(shape[i].schema, Find(hs, shape[i].key)) == SafeParse(shape[i].schema, Find(fs, shape[i].key))
    decreases shape, 1, 0
  {
    var s, key := shape[i].schema, shape[i].key;
    EntryAtIndex(shape, i);
    ShapeEntryParses(shape, fs, i);
    ParseShapeIs(shape, fs, key);
    SameAt(gs, hs, key);
    if SafeParse(s, Find(fs, key)).Present? {
      ParseStable(s, Find(fs, key), SafeParse(s, Find(fs, key)).value, Find(hs, key).value);
    } else if Find(fs, key).Some? {
      ParseThroughWrappers(s, Find(fs, key).value);
    }
  }

  lemma {:induction false} EntryAtIndex(shape: seq<Entry>, i: nat)
    requires DistinctEntries(shape) && i < |shape|
    ensures EntryAt(shape, shape[i].key) == Some(shape[i].schema)
  {
    if i > 0 {
      EntryAtIndex(shape[1..], i - 1);
    }
  }

  lemma {:induction false} SameParse(shape: seq<Entry>, fs: seq<Field>, hs: seq<Field>)
    requires forall i :: 0 <= i < |shape| ==>
      SafeParse(shape[i].schema, Find(hs, shape[i].key)) == SafeParse(shape[i].schema, Find(fs, shape[i].key))
    ensures ParseShape(shape, hs) == ParseShape(shape, fs)
  {
    if shape != [] {
      SameParse(shape[1..], fs, hs);
    }
  }

  /** A value that parses to itself loses nothing. */
  lemma {:induction false} NothingLost(v: Value, path: Path)
    requires WellFormed(v)
    ensures Lost(v, v, path) == []
    decreases v, 0
  {
    match v
    case Arr(items) => NoItemsLost(items, path);
    case Obj(fs) => NoFieldsLost(fs, fs, path);
    case _ =>
  }

  lemma {:induction false} NoItemsLost(items: seq<Value>, path: Path)
    requires forall i :: 0 <= i < |items| ==> WellFormed(items[i])
    ensures LostItems(items, items, path) == []
    decreases items, 1
  {
    if items != [] {
      NoItemsLost(items[..|items| - 1], path);
      NothingLost(items[|items| - 1], path + [Digits(|items| - 1)]);
    }
  }

  lemma {:induction false} NoFieldsLost(fs: seq<Field>, all: seq<Field>, path: Path)
    requires fs <= all && DistinctKeys(all) && forall i :: 0 <= i < |fs| ==> WellFormed(fs[i].value)
    ensures LostFields(fs, all, path) == []
    decreases fs, 1
  {
    if fs != [] {
      var n := |fs| - 1;
      NoFieldsLost(fs[..n], all, path);
      FindAt(all, n);
      assert all[n] == fs[n];
      NothingLost(fs[n].value, path + [fs[n].key]);
    }
  }

  // The secret screen

  /** The two patterns of the screen, and the length test on secret-like values. */
  datatype Screen = Screen(assignment: JsString -> bool, secretKey: JsString -> bool, long: JsString -> bool)

  predicate Suspicious(screen: Screen, f: Field) {
    f.value.Str? && screen.secretKey(f.key) && screen.long(f.value.s)
  }

  predicate ContainsSecret(screen: Screen, v: Value) {
    match v
    case Str(s) => screen.assignment(s)
    case Arr(items) => exists i :: 0 <= i < |items| && ContainsSecret(screen, items[i])
    case Obj(fs) => exists i :: 0 <= i < |fs| && (Suspicious(screen, fs[i]) || ContainsSecret(screen, fs[i].value))
    case _ => false
  }

  /** The value at a path of positions into arrays and objects. */
  function Sub(v: Value, path: seq<nat>): Option<Value> {
    if path == [] then Some(v)
    else
      match v
      case Arr(items) => if path[0] < |items| then Sub(items[path[0]], path[1..]) else None
      case Obj(fs) => if path[0] < |fs| then Sub(fs[path[0]].value, path[1..]) else None
      case _ => None
  }

  /** A text in the form of an assignment, or an object with a long text under a secret-like key. */
  predicate SecretHere(screen: Screen, v: Value) {
    match v
    case Str(s) => screen.assignment(s)
    case Obj(fs) =>
      exists i :: 0 <= i < |fs| && fs[i].value.Str? && screen.secretKey(fs[i].key) && screen.long(fs[i].value.s)
    case _ => false
  }

  ghost predicate SecretAt(screen: Screen, v: Value, path: seq<nat>) {
    Sub(v, path).Some? && SecretHere(screen, Sub(v, path).value)
  }

  /** The screen finds a secret exactly when there is one at some depth. */
  lemma {:induction false} SecretSomewhere(screen: Screen, v: Value)
    ensures ContainsSecret(screen, v) <==> exists path :: SecretAt(screen, v, path)
  {
    if SecretHere(screen, v) {
      assert SecretAt(screen, v, []);
    } else if ContainsSecret(screen, v) {
      match v
      case Arr(items) =>
        var i :| 0 <= i < |items| && ContainsSecret(screen, items[i]);
        SecretSomewhere(screen, items[i]);
        SecretBelow(screen, v, i, items[i]);
      case Obj(fs) =>
        var i :| 0 <= i < |fs| && ContainsSecret(screen, fs[i].value);
        SecretSomewhere(screen, fs[i].value);
        SecretBelow(screen, v, i, fs[i].value);
    }
    if exists path :: SecretAt(screen, v, path) {
      var path :| SecretAt(screen, v, path);
      SecretFound(screen, v, path);
    }
  }

  lemma SecretBelow(screen: Screen, v: Value, i: nat, w: Value)
    requires Sub(v, [i]) == Some(w)
    ensures (exists path :: SecretAt(screen, w, path)) ==> exists path :: SecretAt(screen, v, path)
  {
    assert [i][1..] == [];
    if exists path :: SecretAt(screen, w, path) {
      var path :| SecretAt(screen, w, path);
      assert ([i] + path)[1..] == path;
      assert SecretAt(screen, v, [i] + path);
    }
  }

  lemma {:induction false} SecretFound(screen: Screen, v: Value, path: seq<nat>)
    requires SecretAt(screen, v, path)
    ensures ContainsSecret(screen, v)
  {
    if path != [] {
      match v
      case Arr(items) => SecretFound(screen, items[path[0]], path[1..]);
      case Obj(fs) => SecretFound(screen, fs[path[0]].value, path[1..]);
    }
  }

  /** No default value looks like a secret, on its own or under its key. */
  predicate SafeDefaults(screen: Screen, s: Schema) {
    match s
    case Scalar(_) => true
    case Object(shape, _) =>
      forall i :: 0 <= i < |shape| ==>
        && SafeDefaults(screen, shape[i].schema)
        && (SafeParse(shape[i].schema, None).Present? ==>
              !Suspicious(screen, Field(shape[i].key, SafeParse(shape[i].schema, None).value)))
    case Array(element, _) => SafeDefaults(screen, element)
    case Optional(inner) => SafeDefaults(screen, inner)
    case Default(inner, value) => SafeDefaults(screen, inner) && !ContainsSecret(screen, value)
    case Effects(inner, _) => SafeDefaults(screen, inner)
  }

  /** Parsing adds no secret to a value that has none. */
  lemma {:induction false} NoNewSecrets(screen: Screen, s: Schema, v: Option<Value>)
    requires SafeDefaults(screen, s) && SafeParse(s, v).Present? && (v.Some? ==> !ContainsSecret(screen, v.value))
    ensures !ContainsSecret(screen, SafeParse(s, v).value)
    decreases s, 0, 0
  {
    match s
    case Scalar(_) =>
    case Object(shape, _) => NoNewSecretFields(screen, shape, v.value.fields);
    case Array(element, _) =>
      forall i | 0 <= i < |v.value.items| {
        NoNewSecrets(screen, element, Some(v.value.items[i]));
      }
    case Optional(inner) => NoNewSecrets(screen, inner, v);
    case Default(inner, value) => NoNewSecrets(screen, inner, if v.None? then Some(value) else v);
    case Effects(inner, _) => NoNewSecrets(screen, inner, v);
  }

  lemma {:induction false} NoNewSecretFields(screen: Screen, shape: seq<Entry>, fs: seq<Field>)
    requires SafeDefaults(screen, Object(shape, false)) && !ContainsSecret(screen, Obj(fs))
    requires ParseShape(shape, fs).Some?
    ensures !ContainsSecret(screen, Obj(ParseShape(shape, fs).value))
    decreases shape, 1, 0
  {
    if shape != [] {
      assert forall i :: 0 <= i < |shape[1..]| ==> shape[1..][i] == shape[i + 1];
      NoNewSecretFields(screen, shape[1..], fs);
      var e := shape[0];
      var found := Find(fs, e.key);
      var p := SafeParse(e.schema, found);
      if p.Present? {
        if found.Some? {
          var i := FindIndex(fs, e.key);
          assert !Suspicious(screen, fs[i]) && !ContainsSecret(screen, fs[i].value);
          if p.value.Str? {
            ParseKeepsStrings(e.schema, found.value);
          }
        }
        NoNewSecrets(screen, e.schema, found);
        assert !Suspicious(screen, Field(e.key, p.value));
      }
    }
  }

  lemma {:induction false} ParseKeepsStrings(s: Schema, v: Value)
    requires SafeParse(s, Some(v)).Present? && SafeParse(s, Some(v)).value.Str?
    ensures SafeParse(s, Some(v)).value == v
  {
    if IsWrapper(s) {
      ParseKeepsStrings(s.inner, v);
    }
  }

  // Creating, exporting and importing

  datatype Refusal =
    | UnknownKeys(paths: seq<Path>)
    | SecretMaterial
    | InvalidPayload
    | HashMismatch
    | NotFound
    | Conflict
    | InvalidStatus
    | UnknownModels
    | NoInstructions
    | ToolPins
    | NotReleased
    | IfMatchMissing
    | Precondition(expected: JsString, current: JsString)

  /** The schema, the screen, the order of `localeCompare` and the digest. */
  datatype Env = Env(schema: Schema, screen: Screen, rank: Rank, sha: JsString -> JsString)

  /** `canonicalHash`. */
  function Hash(env: Env, v: Value): JsString {
    env.sha(Print(Stringify, SortKeys(env.rank, v)))
  }

  /** `rejectUnknownPayloadKeys`, then `validateAssistantPayload`: the normalised payload. */
  function Accept(env: Env, payload: Value): Result<Value, Refusal> {
    var offenders := Unknown(env.schema, payload, []);
    if offenders != [] then Err(UnknownKeys(offenders))
    else if ContainsSecret(env.screen, payload) then Err(SecretMaterial)
    else
      var parsed := SafeParse(env.schema, Some(payload));
      if parsed.Present? then Ok(parsed.value) else Err(InvalidPayload)
  }

  /**
   * Secrets must never land in a payload: a payload without unknown keys is refused for a secret
   * exactly when it holds one at some depth, and neither what is accepted nor what is made of it
   * holds one anywhere.
   */
  lemma SecretsAreRefused(env: Env, payload: Value)
    requires SafeDefaults(env.screen, env.schema)
    ensures Accept(env, payload) == Err(SecretMaterial) <==>
      Unknown(env.schema, payload, []) == [] && exists path :: SecretAt(env.screen, payload, path)
    ensures Accept(env, payload).Ok? ==>
      forall path :: !SecretAt(env.screen, payload, path) && !SecretAt(env.screen, Accept(env, payload).value, path)
  {
    SecretSomewhere(env.screen, payload);
    if Accept(env, payload).Ok? {
      NoNewSecrets(env.screen, env.schema, Some(payload));
      SecretSomewhere(env.screen, Accept(env, payload).value);
    }
  }

  /** A payload is accepted exactly when it has no unknown key, holds no secret and parses, as what it parses to. */
  lemma AcceptsIff(env: Env, payload: Value, w: Value)
    ensures Accept(env, payload) == Ok(w) <==>
      && Unknown(env.schema, payload, []) == []
      && (forall path :: !SecretAt(env.screen, payload, path))
      && SafeParse(env.schema, Some(payload)) == Present(w)
  {
    SecretSomewhere(env.screen, payload);
  }

  /** `toVersionPayloadValues`: one column per name, null when the payload has no such key. */
  function Columns(names: seq<JsString>, w: Value): (r: seq<Field>)
    requires w.Obj?
    ensures |r| == |names|
  {
    seq(|names|, i requires 0 <= i < |names| =>
      var v := Find(w.fields, names[i]);
      Field(names[i], if v.Some? then v.value else Null))
  }

  /** Spreading a payload over columns puts no secret into them. */
  lemma ColumnsHoldNoSecret(screen: Screen, names: seq<JsString>, w: Value)
    requires w.Obj? && !ContainsSecret(screen, w)
    ensures !ContainsSecret(screen, Obj(Columns(names, w)))
  {
    var columns := Columns(names, w);
    forall i | 0 <= i < |columns|
      ensures !Suspicious(screen, columns[i]) && !ContainsSecret(screen, columns[i].value)
    {
      if Find(w.fields, names[i]).Some? {
        var k := FindIndex(w.fields, names[i]);
        assert !Suspicious(screen, w.fields[k]) && !ContainsSecret(screen, w.fields[k].value);
      }
    }
  }

  /** The database may hand every column back with the keys of its objects in another order. */
  ghost predicate ReadBack(written: seq<Field>, read: seq<Field>) {
    && |read| == |written|
    && forall i :: 0 <= i < |read| ==> read[i].key == written[i].key && Equiv(written[i].value, read[i].value)
  }

  datatype Envelope = Envelope(schemaVersion: int, body: seq<Field>, hash: JsString)

  /** Top-level nulls stand for absent optionals. */
  function Compacted(body: seq<Field>): seq<Field> {
    if body == [] then []
    else (if body[0].value.Null? then [] else [body[0]]) + Compacted(body[1..])
  }

  /** `importVersion`: what it hands on to version creation. */
  function Import(env: Env, exported: Envelope): Result<Value, Refusal> {
    var parsed := SafeParse(env.schema, Some(Obj(Compacted(exported.body))));
    if !parsed.Present? then Err(InvalidPayload)
    else if Hash(env, parsed.value) != exported.hash then Err(HashMismatch)
    else Accept(env, parsed.value)
  }

  /** No value of the schema is null. */
  predicate RefusesNull(s: Schema) {
    match s
    case Scalar(accepts) => !accepts(Null)
    case Object(_, _) => true
    case Array(_, _) => true
    case Optional(inner) => RefusesNull(inner)
    case Default(inner, value) => RefusesNull(inner)
    case Effects(inner, _) => RefusesNull(inner)
  }

  /** An object schema the diff supports, without nullable properties, whose keys are the column names. */
  ghost predicate Suits(env: Env, names: seq<JsString>) {
    && Supported(env.schema) && Distinct(env.schema) && SafeDefaults(env.screen, env.schema)
    && env.schema.Object?
    && (forall i, j :: 0 <= i < j < |names| ==> names[i] != names[j])
    && (forall i :: 0 <= i < |env.schema.shape| ==>
      RefusesNull(env.schema.shape[i].schema) && env.schema.shape[i].key in names)
    && TotalOrder(env.rank)
  }

  lemma {:induction false} NeverNull(s: Schema, v: Option<Value>)
    requires RefusesNull(s)
    ensures SafeParse(s, v) != Present(Null)
  {
    match s
    case Optional(inner) => NeverNull(inner, v);
    case Default(inner, value) => NeverNull(inner, if v.None? then Some(value) else v);
    case Effects(inner, _) => NeverNull(inner, v);
    case _ =>
  }

  // Stripping nulls undoes filling them in

  lemma {:induction false} FindCompacted(body: seq<Field>, key: JsString)
    requires DistinctKeys(body)
    ensures Find(Compacted(body), key) == if Find(body, key) == Some(Null) then None else Find(body, key)
  {
    if body != [] {
      FindCompacted(body[1..], key);
      if body[0].value.Null? {
        assert Compacted(body) == Compacted(body[1..]);
      } else {
        assert Compacted(body)[0] == body[0] && Compacted(body)[1..] == Compacted(body[1..]);
      }
      if body[0].key == key {
        NotFound(body[1..], key);
      }
    }
  }

  lemma {:induction false} NotFound(fs: seq<Field>, key: JsString)
    requires forall i :: 0 <= i < |fs| ==> fs[i].key != key
    ensures Find(fs, key) == None
  {
    if fs != [] {
      NotFound(fs[1..], key);
    }
  }

  lemma {:induction false} CompactedKeys(body: seq<Field>)
    requires DistinctKeys(body)
    ensures DistinctKeys(Compacted(body))
    ensures forall f :: f in Compacted(body) ==> f in body
  {
    if body != [] {
      CompactedKeys(body[1..]);
      var rest := Compacted(body[1..]);
      forall f | f in rest ensures f in body && f.key != body[0].key {
        assert f in body[1..];
      }
      DistinctCons(body[0], rest);
      assert [] + rest == rest;
    }
  }

  lemma DistinctCons(f: Field, fs: seq<Field>)
    requires DistinctKeys(fs) && forall g :: g in fs ==> g.key != f.key
    ensures DistinctKeys([f] + fs)
  {
    var s := [f] + fs;
    forall i, j | 0 <= i < j < |s| ensures s[i].key != s[j].key {
      assert s[j] == fs[j - 1];
      if i == 0 {
        assert s[j] in fs;
      } else {
        assert s[i] == fs[i - 1];
      }
    }
  }

  /** The columns read back, by name. */
  lemma ColumnAt(names: seq<JsString>, w: Value, read: seq<Field>, key: JsString)
    requires w.Obj? && ReadBack(Columns(names, w), read) && key in names
    requires forall i, j :: 0 <= i < j < |names| ==> names[i] != names[j]
    ensures DistinctKeys(read) && Find(read, key).Some?
    ensures Equiv(if Find(w.fields, key).Some? then Find(w.fields, key).value else Null, Find(read, key).value)
  {
    var i :| 0 <= i < |names| && names[i] == key;
    assert read[i].key == key;
    forall a, b | 0 <= a < b < |read| ensures read[a].key != read[b].key {
      assert read[a].key == names[a] && read[b].key == names[b];
    }
    FindAt(read, i);
  }

  /** What an export compacts to is the normalised payload up to key order. */
  lemma CompactsBack(names: seq<JsString>, fs: seq<Field>, read: seq<Field>)
    requires ReadBack(Columns(names, Obj(fs)), read) && DistinctKeys(fs)
    requires forall i, j :: 0 <= i < j < |names| ==> names[i] != names[j]
    requires forall i :: 0 <= i < |fs| ==> fs[i].value != Null && fs[i].key in names
    ensures Equiv(Obj(fs), Obj(Compacted(read)))
  {
    var hs := Compacted(read);
    forall a, b | 0 <= a < b < |read| ensures read[a].key != read[b].key {
      assert read[a].key == names[a] && read[b].key == names[b];
    }
    CompactedKeys(read);
    forall i | 0 <= i < |fs| ensures Find(hs, fs[i].key).Some? && Equiv(fs[i].value, Find(hs, fs[i].key).value) {
      ColumnAt(names, Obj(fs), read, fs[i].key);
      FindAt(fs, i);
      FindCompacted(read, fs[i].key);
    }
    forall j | 0 <= j < |hs| ensures Find(fs, hs[j].key).Some? {
      var key := hs[j].key;
      assert hs[j] in read;
      var k :| 0 <= k < |read| && read[k] == hs[j];
      assert names[k] == key;
      ColumnAt(names, Obj(fs), read, key);
      FindAt(hs, j);
      FindCompacted(read, key);
    }
    SameKeysSameLength(fs, hs);
  }

  lemma SameKeysSameLength(fs: seq<Field>, hs: seq<Field>)
    requires DistinctKeys(fs) && DistinctKeys(hs)
    requires forall i :: 0 <= i < |fs| ==> Find(hs, fs[i].key).Some?
    requires forall j :: 0 <= j < |hs| ==> Find(fs, hs[j].key).Some?
    ensures |fs| == |hs|
  {
    KeysFit(fs, hs);
    KeysFit(hs, fs);
  }

  lemma {:induction false} KeysFit(fs: seq<Field>, hs: seq<Field>)
    requires DistinctKeys(fs) && forall i :: 0 <= i < |fs| ==> Find(hs, fs[i].key).Some?
    ensures |fs| <= |hs|
  {
    if fs != [] {
      var n := |fs| - 1;
      var k := FindIndex(hs, fs[n].key);
      var rest := hs[..k] + hs[k + 1..];
      forall i | 0 <= i < n ensures Find(rest, fs[..n][i].key).Some? {
        var m := FindIndex(hs, fs[i].key);
        assert rest[if m < k then m else m - 1].key == fs[i].key;
        Found(rest, if m < k then m else m - 1);
      }
      KeysFit(fs[..n], rest);
    }
  }

  lemma {:induction false} Found(fs: seq<Field>, i: nat)
    requires i < |fs|
    ensures Find(fs, fs[i].key).Some?
  {
    if i > 0 {
      Found(fs[1..], i - 1);
    }
  }

  // The round trip

  /** A normalised payload is accepted again, as it is. */
  lemma AcceptedAgain(env: Env, payload: Value, w: Value)
    requires Supported(env.schema) && Distinct(env.schema) && SafeDefaults(env.screen, env.schema)
    requires SafeParse(env.schema, Some(payload)) == Present(w) && !ContainsSecret(env.screen, payload)
    ensures WellFormed(w) && SafeParse(env.schema, Some(w)) == Present(w) && Accept(env, w) == Ok(w)
  {
    ParseWellFormed(env.schema, Some(payload));
    EquivRefl(w);
    ParseStable(env.schema, Some(payload), w, w);
    ReportIsExact(env.schema, w, []);
    NothingLost(w, []);
    NoNewSecrets(env.screen, env.schema, Some(payload));
  }

  /** The stored columns, nulls stripped, parse back to the normalised payload. */
  lemma ExportParses(env: Env, names: seq<JsString>, payload: Value, w: Value, read: seq<Field>)
    requires Suits(env, names) && SafeParse(env.schema, Some(payload)) == Present(w)
    requires w.Obj? && ReadBack(Columns(names, w), read)
    ensures SafeParse(env.schema, Some(Obj(Compacted(read)))) == Present(w)
  {
    var shape, fs := env.schema.shape, w.fields;
    ShapeWellFormed(shape, payload.fields);
    forall i | 0 <= i < |fs| ensures fs[i].value != Null && fs[i].key in names {
      var k := EntryIndex(shape, fs[i].key);
      FindAt(fs, i);
      ParseShapeIs(shape, payload.fields, fs[i].key);
      NeverNull(shape[k].schema, Find(payload.fields, fs[i].key));
    }
    CompactsBack(names, fs, read);
    ParseStable(env.schema, Some(payload), w, Obj(Compacted(read)));
  }

  /**
   * For every payload version creation accepts, the export of its stored columns, whatever
   * order their keys came back in, is accepted by import and gives the same normalised
   * payload, so also the same hash.
   */
  lemma ExportImports(env: Env, names: seq<JsString>, payload: Value, w: Value, read: seq<Field>, version: int)
    requires Suits(env, names) && Accept(env, payload) == Ok(w) && w.Obj?
    requires ReadBack(Columns(names, w), read)
    ensures Import(env, Envelope(version, read, Hash(env, w))) == Ok(w)
  {
    AcceptedAgain(env, payload, w);
    ExportParses(env, names, payload, w, read);
  }

  lemma AcceptedExportImports(env: Env, names: seq<JsString>, payload: Value, w: Value, read: seq<Field>, version: int)
    requires Suits(env, names) && Accept(env, payload) == Ok(w)
    ensures w.Obj? && (ReadBack(Columns(names, w), read) ==>
      Import(env, Envelope(version, read, Hash(env, w))) == Ok(w))
  {
    if ReadBack(Columns(names, w), read) {
      ExportImports(env, names, payload, w, read, version);
    }
  }

  /**
   * An envelope that carries the hash of a normalised payload imports as exactly that
   * payload or not at all, unless SHA-256 collides on the two texts.
   */
  lemma HashBindsPayload(env: Env, payload: Value, w: Value, exported: Envelope)
    requires Supported(env.schema) && Distinct(env.schema) && TotalOrder(env.rank)
    requires SafeParse(env.schema, Some(payload)) == Present(w) && exported.hash == Hash(env, w)
    requires var parsed := SafeParse(env.schema, Some(Obj(Compacted(exported.body))));
      parsed.Present? && Hash(env, parsed.value) == Hash(env, w) ==>
        Print(Stringify, SortKeys(env.rank, parsed.value)) == Print(Stringify, SortKeys(env.rank, w))
    ensures Import(env, exported).Ok? ==> Import(env, exported) == Ok(w)
  {
    var body := Some(Obj(Compacted(exported.body)));
    if Import(env, exported).Ok? {
      var y := SafeParse(env.schema, body).value;
      PrintInjective(Stringify, SortKeys(env.rank, y), SortKeys(env.rank, w));
      ParseWellFormed(env.schema, Some(payload));
      ParseWellFormed(env.schema, body);
      EquivSorts(env.rank, w, y);
      ParseStable(env.schema, Some(payload), w, y);
      EquivRefl(y);
      ParseStable(env.schema, body, y, y);
    }
  }

  /** Key order never matters to the hash, and nothing else escapes it. */
  lemma HashIdentifies(env: Env, v: Value, w: Value)
    requires TotalOrder(env.rank) && WellFormed(v) && WellFormed(w)
    requires Hash(env, v) == Hash(env, w) ==>
      Print(Stringify, SortKeys(env.rank, v)) == Print(Stringify, SortKeys(env.rank, w))
    ensures Hash(env, v) == Hash(env, w) <==> Equiv(v, w)
  {
    PrintInjective(Stringify, SortKeys(env.rank, v), SortKeys(env.rank, w));
    EquivSorts(env.rank, v, w);
  }
}
