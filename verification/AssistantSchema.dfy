/**
 * The assistant payload schema itself, with its defaults, and the proof that it meets what
 * the theorems about the unknown-key diff and about export and import ask of a schema.
 */
module AssistantSchema {
  import opened Wrappers
  import opened Text
  import opened Json
  import CanonicalJson
  import opened PayloadSchema
  import opened ExportImport

  // Leaf checks

  function TextOf(min: nat, max: nat): Schema {
    Scalar((v: Value) => v.Str? && min <= |v.s| <= max)
  }

  const ANY_LENGTH: nat := 0x2000_0000

  function IntIn(low: int, high: int): Schema {
    Scalar((v: Value) => v.Num? && low <= v.n <= high)
  }

  /** A number from `low` to `high`, or a positive fraction below `high`. */
  function NumberUpTo(low: int, high: int): Schema {
    Scalar((v: Value) => if v.Frac? then !v.p.negative && v.p.whole < high else v.Num? && low <= v.n <= high)
  }

  function Flag(): Schema {
    Scalar((v: Value) => v.Bool?)
  }

  function OneOf(options: set<JsString>): Schema {
    Scalar((v: Value) => v.Str? && v.s in options)
  }

  function WithDefault(s: Schema, value: Value): Schema {
    Default(Optional(s), value)
  }

  function Words(s: string): Value {
    Str(Lit(s))
  }

  function At(key: string, s: Schema): Entry {
    Entry(Lit(key), s)
  }

  // The parts

  function ModelParams(isJsonObject: Value -> bool): Schema {
    Object([
      At("temperature", Optional(NumberUpTo(0, 2))),
      At("max_output_tokens", Optional(IntIn(1, 200_000))),
      At("top_p", Optional(NumberUpTo(1, 1))),
      At("reasoning_effort", Optional(OneOf({Lit("minimal"), Lit("low"), Lit("medium"), Lit("high")}))),
      At("output_schema", Optional(Effects(TextOf(0, 16_384), isJsonObject)))
    ], true)
  }

  function BudgetPolicy(): Schema {
    Object([
      At("max_total_tokens", Optional(IntIn(1000, 2_000_000))),
      At("max_cost_micros", Optional(IntIn(0, 1_000_000_000_000))),
      At("wall_clock_seconds", Optional(IntIn(0, 86_400))),
      At("max_tool_calls", Optional(IntIn(0, 1000))),
      At("max_model_calls", Optional(IntIn(1, 200)))
    ], true)
  }

  function ModelPolicy(): Schema {
    Object([
      At("allowed_models", Array(TextOf(1, ANY_LENGTH), (n: nat) => 1 <= n <= 20)),
      At("fallback_enabled", WithDefault(Flag(), Bool(false)))
    ], false)
  }

  function ContextPolicy(): Schema {
    Object([
      At("history_limit", Default(IntIn(1, 100), Num(30))),
      At("summary_enabled", WithDefault(Flag(), Bool(true))),
      At("knowledge_sources", WithDefault(Array(TextOf(0, ANY_LENGTH), (n: nat) => true), Arr([]))),
      At("memory_scope", WithDefault(
        OneOf({Lit("user"), Lit("organization"), Lit("conversation"), Lit("assistant"), Lit("none")}), Words("user")))
    ], false)
  }

  function Tool(): Schema {
    Object([
      At("name", TextOf(1, 64)),
      At("access", OneOf({Lit("read"), Lit("write")})),
      At("approval", WithDefault(OneOf({Lit("required"), Lit("optional")}), Words("optional"))),
      At("schema_hash", Optional(TextOf(64, 64))),
      At("execution_mode", WithDefault(OneOf({Lit("live"), Lit("shadow")}), Words("live")))
    ], false)
  }

  function ToolPolicy(): Schema {
    Object([At("tools", Default(Array(Tool(), (n: nat) => n <= 50), Arr([])))], false)
  }

  function KnowledgePolicy(): Schema {
    Object([
      At("retrieval_enabled", WithDefault(Flag(), Bool(false))),
      At("max_results", WithDefault(IntIn(1, 20), Num(5)))
    ], false)
  }

  function GuardrailPolicy(): Schema {
    Object([
      At("input_policy", Default(TextOf(1, ANY_LENGTH), Words("default"))),
      At("output_policy", Default(TextOf(1, ANY_LENGTH), Words("brand-safe"))),
      At("pii_redaction", WithDefault(Flag(), Bool(true))),
      At("execution_mode", WithDefault(OneOf({Lit("blocking"), Lit("logging")}), Words("blocking")))
    ], false)
  }

  function Texts(): seq<Entry> {
    [At("instructions", Optional(TextOf(1, 32_768))), At("brand", Optional(TextOf(0, 2_000)))]
  }

  function Limits(isJsonObject: Value -> bool): seq<Entry> {
    [At("model_params", Optional(ModelParams(isJsonObject))), At("budget_policy", Optional(BudgetPolicy()))]
  }

  function Policies(): seq<Entry> {
    [At("model_policy", ModelPolicy()), At("context_policy", ContextPolicy()), At("tool_policy", ToolPolicy())]
  }

  function Safeguards(): seq<Entry> {
    [At("knowledge_policy", Optional(KnowledgePolicy())), At("guardrail_policy", GuardrailPolicy())]
  }

  /** The properties of `assistantPayloadSchema`, in order. */
  function TopShape(isJsonObject: Value -> bool): seq<Entry> {
    Texts() + Limits(isJsonObject) + Policies() + Safeguards()
  }

  /** `assistantPayloadSchema`. */
  function PayloadSchemaOf(isJsonObject: Value -> bool): Schema {
    Object(TopShape(isJsonObject), false)
  }

  /** The columns of a version row, in the order of the export envelope. */
  function ColumnNames(): seq<JsString> {
    [
      Lit("instructions"), Lit("model_params"), Lit("budget_policy"), Lit("brand"), Lit("model_policy"),
      Lit("context_policy"), Lit("tool_policy"), Lit("knowledge_policy"), Lit("guardrail_policy")
    ]
  }

  // The schema qualifies

  /** The defaults do not look like credentials, and their keys are not secret names. */
  ghost predicate Benign(screen: Screen) {
    && (forall s | s in {"user", "optional", "live", "default", "brand-safe", "blocking"} :: !screen.assignment(Lit(s)))
    && (forall s | s in {"memory_scope", "approval", "execution_mode", "input_policy", "output_policy"} ::
          !screen.secretKey(Lit(s)))
  }

  /** What a property schema has to meet. */
  ghost predicate Good(screen: Screen, s: Schema) {
    SupportedField(s) && Distinct(s) && SafeDefaults(screen, s) && RefusesNull(s)
  }

  /** A property whose default, if any, is not under suspicion. */
  ghost predicate GoodEntry(screen: Screen, e: Entry) {
    && Good(screen, e.schema)
    && (SafeParse(e.schema, None).Present? ==> !Suspicious(screen, Field(e.key, SafeParse(e.schema, None).value)))
  }

  /** Properties with names that differ make a good object, one more at a time. */
  ghost predicate GoodShape(screen: Screen, shape: seq<Entry>) {
    DistinctEntries(shape) && forall i :: 0 <= i < |shape| ==> GoodEntry(screen, shape[i])
  }

  lemma GoodObject(screen: Screen, shape: seq<Entry>, strict: bool)
    requires GoodShape(screen, shape)
    ensures Good(screen, Object(shape, strict)) && Supported(Object(shape, strict))
  {
  }

  lemma GoodWrapped(screen: Screen, s: Schema, value: Value, check: Value -> bool)
    requires Good(screen, s) && Depth(s) < MAX_UNWRAP - 1
    ensures Good(screen, Optional(s)) && Good(screen, Effects(s, check))
    ensures !ContainsSecret(screen, value) ==> Good(screen, Default(s, value))
  {
  }

  lemma GoodPlain(screen: Screen, key: JsString, s: Schema)
    requires Good(screen, s) && (s.Scalar? || s.Object?)
    ensures GoodEntry(screen, Entry(key, s)) && GoodEntry(screen, Entry(key, Optional(s)))
  {
    GoodWrapped(screen, s, Null, (v: Value) => true);
  }

  lemma GoodLeaf(screen: Screen, s: Schema)
    requires s.Scalar? && !s.accepts(Null)
    ensures Good(screen, s)
  {
  }

  lemma GoodChecked(screen: Screen, key: JsString, s: Schema, check: Value -> bool)
    requires s.Scalar? && !s.accepts(Null)
    ensures GoodEntry(screen, Entry(key, Optional(Effects(s, check))))
  {
    GoodLeaf(screen, s);
    GoodWrapped(screen, s, Null, check);
    GoodWrapped(screen, Effects(s, check), Null, check);
  }

  lemma GoodDefault(screen: Screen, key: JsString, s: Schema, value: Value)
    requires s.Scalar? && !s.accepts(Null) && !ContainsSecret(screen, value)
    requires value.Str? ==> !screen.secretKey(key)
    ensures GoodEntry(screen, Entry(key, Default(s, value))) && GoodEntry(screen, Entry(key, WithDefault(s, value)))
  {
    GoodLeaf(screen, s);
    GoodWrapped(screen, s, value, (v: Value) => true);
    GoodWrapped(screen, Optional(s), value, (v: Value) => true);
    assert SafeParse(Default(s, value), None) == SafeParse(s, Some(value));
    assert SafeParse(WithDefault(s, value), None) == SafeParse(s, Some(value));
  }

  lemma GoodList(screen: Screen, element: Schema, fits: nat -> bool)
    requires Supported(element) && Good(screen, element)
    ensures Good(screen, Array(element, fits))
  {
  }

  lemma NoSecretInNothing(screen: Screen)
    ensures !ContainsSecret(screen, Arr([]))
  {
  }

  lemma GoodArray(screen: Screen, key: JsString, element: Schema, fits: nat -> bool)
    requires Supported(element) && Good(screen, element)
    ensures GoodEntry(screen, Entry(key, Array(element, fits)))
    ensures GoodEntry(screen, Entry(key, Default(Array(element, fits), Arr([]))))
    ensures GoodEntry(screen, Entry(key, WithDefault(Array(element, fits), Arr([]))))
  {
    var s := Array(element, fits);
    GoodList(screen, element, fits);
    NoSecretInNothing(screen);
    GoodWrapped(screen, s, Arr([]), (v: Value) => true);
    GoodWrapped(screen, Optional(s), Arr([]), (v: Value) => true);
    assert SafeParse(Default(s, Arr([])), None) == SafeParse(s, Some(Arr([])));
    assert SafeParse(WithDefault(s, Arr([])), None) == SafeParse(s, Some(Arr([])));
  }

  /** Two ASCII names differ in length or at some position. */
  lemma Differ(a: string, b: string, k: nat)
    requires |a| != |b| || (k < |a| && a[k] != b[k] && a[k] < (0x80 as char) && b[k] < (0x80 as char))
    ensures Lit(a) != Lit(b)
  {
    if |a| == |b| {
      assert Lit(a)[k] == a[k] as int && Lit(b)[k] == b[k] as int;
    }
  }

  lemma OneMore(screen: Screen, shape: seq<Entry>, e: Entry)
    requires GoodShape(screen, shape) && GoodEntry(screen, e)
    requires forall i :: 0 <= i < |shape| ==> shape[i].key != e.key
    ensures GoodShape(screen, shape + [e])
  {
  }

  lemma Four(screen: Screen, a: Entry, b: Entry, c: Entry, d: Entry)
    requires GoodEntry(screen, a) && GoodEntry(screen, b) && GoodEntry(screen, c) && GoodEntry(screen, d)
    requires a.key != b.key && a.key != c.key && a.key != d.key && b.key != c.key && b.key != d.key && c.key != d.key
    ensures GoodShape(screen, [a, b, c, d])
  {
    OneMore(screen, [], a);
    OneMore(screen, [a], b);
    OneMore(screen, [a, b], c);
    OneMore(screen, [a, b, c], d);
    assert [] + [a] == [a] && [a] + [b] == [a, b] && [a, b] + [c] == [a, b, c] && [a, b, c] + [d] == [a, b, c, d];
  }

  lemma Five(screen: Screen, a: Entry, b: Entry, c: Entry, d: Entry, e: Entry)
    requires GoodShape(screen, [a, b, c, d]) && GoodEntry(screen, e)
    requires a.key != e.key && b.key != e.key && c.key != e.key && d.key != e.key
    ensures GoodShape(screen, [a, b, c, d, e])
  {
    OneMore(screen, [a, b, c, d], e);
    assert [a, b, c, d] + [e] == [a, b, c, d, e];
  }

  lemma GoodModelParams(screen: Screen, isJsonObject: Value -> bool)
    ensures Good(screen, ModelParams(isJsonObject)) && Supported(ModelParams(isJsonObject))
  {
    var s := ModelParams(isJsonObject).shape;
    forall i | 0 <= i < 4 ensures GoodEntry(screen, s[i]) {
      GoodLeaf(screen, s[i].schema.inner);
      GoodPlain(screen, s[i].key, s[i].schema.inner);
    }
    GoodChecked(screen, s[4].key, TextOf(0, 16_384), isJsonObject);
    Four(screen, s[0], s[1], s[2], s[3]);
    Five(screen, s[0], s[1], s[2], s[3], s[4]);
    GoodObject(screen, s, true);
  }

  lemma GoodBudgetPolicy(screen: Screen)
    ensures Good(screen, BudgetPolicy()) && Supported(BudgetPolicy())
  {
    var s := BudgetPolicy().shape;
    forall i | 0 <= i < |s| ensures GoodEntry(screen, s[i]) {
      GoodLeaf(screen, s[i].schema.inner);
      GoodPlain(screen, s[i].key, s[i].schema.inner);
    }
    Differ("max_cost_micros", "max_model_calls", 4);
    Four(screen, s[0], s[1], s[2], s[3]);
    Five(screen, s[0], s[1], s[2], s[3], s[4]);
    GoodObject(screen, s, true);
  }

  lemma GoodModelPolicy(screen: Screen)
    ensures Good(screen, ModelPolicy()) && Supported(ModelPolicy())
  {
    var s := ModelPolicy().shape;
    GoodLeaf(screen, s[0].schema.element);
    GoodArray(screen, s[0].key, s[0].schema.element, s[0].schema.fits);
    GoodDefault(screen, s[1].key, Flag(), Bool(false));
    GoodObject(screen, s, false);
  }

  lemma GoodHistory(screen: Screen)
    ensures GoodEntry(screen, ContextPolicy().shape[0]) && GoodEntry(screen, ContextPolicy().shape[1])
  {
    var s := ContextPolicy().shape;
    GoodDefault(screen, s[0].key, IntIn(1, 100), Num(30));
    GoodDefault(screen, s[1].key, Flag(), Bool(true));
  }

  lemma GoodSources(screen: Screen)
    ensures GoodEntry(screen, ContextPolicy().shape[2])
  {
    var s := ContextPolicy().shape;
    var list := s[2].schema.inner.inner;
    GoodLeaf(screen, list.element);
    GoodArray(screen, s[2].key, list.element, list.fits);
  }

  lemma GoodMemory(screen: Screen)
    requires Benign(screen)
    ensures GoodEntry(screen, ContextPolicy().shape[3])
  {
    var s := ContextPolicy().shape;
    GoodDefault(screen, s[3].key, s[3].schema.inner.inner, Words("user"));
  }

  lemma GoodContextPolicy(screen: Screen)
    requires Benign(screen)
    ensures Good(screen, ContextPolicy()) && Supported(ContextPolicy())
  {
    var s := ContextPolicy().shape;
    GoodHistory(screen);
    GoodSources(screen);
    GoodMemory(screen);
    Four(screen, s[0], s[1], s[2], s[3]);
    GoodObject(screen, s, false);
  }

  lemma GoodTool(screen: Screen)
    requires Benign(screen)
    ensures Good(screen, Tool()) && Supported(Tool())
  {
    var s := Tool().shape;
    GoodLeaf(screen, s[0].schema);
    GoodPlain(screen, s[0].key, s[0].schema);
    GoodLeaf(screen, s[1].schema);
    GoodPlain(screen, s[1].key, s[1].schema);
    GoodDefault(screen, s[2].key, s[2].schema.inner.inner, Words("optional"));
    GoodLeaf(screen, s[3].schema.inner);
    GoodPlain(screen, s[3].key, s[3].schema.inner);
    GoodDefault(screen, s[4].key, s[4].schema.inner.inner, Words("live"));
    Four(screen, s[0], s[1], s[2], s[3]);
    Five(screen, s[0], s[1], s[2], s[3], s[4]);
    GoodObject(screen, s, false);
  }

  lemma GoodToolPolicy(screen: Screen)
    requires Benign(screen)
    ensures Good(screen, ToolPolicy()) && Supported(ToolPolicy())
  {
    var s := ToolPolicy().shape;
    GoodTool(screen);
    GoodArray(screen, s[0].key, Tool(), s[0].schema.inner.fits);
    GoodObject(screen, s, false);
  }

  lemma GoodKnowledgePolicy(screen: Screen)
    ensures Good(screen, KnowledgePolicy()) && Supported(KnowledgePolicy())
  {
    var s := KnowledgePolicy().shape;
    GoodDefault(screen, s[0].key, Flag(), Bool(false));
    GoodDefault(screen, s[1].key, IntIn(1, 20), Num(5));
    GoodObject(screen, s, false);
  }

  lemma GoodGuardrailPolicy(screen: Screen)
    requires Benign(screen)
    ensures Good(screen, GuardrailPolicy()) && Supported(GuardrailPolicy())
  {
    var s := GuardrailPolicy().shape;
    GoodDefault(screen, s[0].key, s[0].schema.inner, Words("default"));
    GoodDefault(screen, s[1].key, s[1].schema.inner, Words("brand-safe"));
    GoodDefault(screen, s[2].key, Flag(), Bool(true));
    GoodDefault(screen, s[3].key, s[3].schema.inner.inner, Words("blocking"));
    Differ("output_policy", "pii_redaction", 0);
    Four(screen, s[0], s[1], s[2], s[3]);
    GoodObject(screen, s, false);
  }

  lemma ColumnNamesDiffer()
    ensures forall i, j :: 0 <= i < j < |ColumnNames()| ==> ColumnNames()[i] != ColumnNames()[j]
  {
    Differ("instructions", "model_params", 0);
    Differ("instructions", "model_policy", 0);
    Differ("model_params", "model_policy", 7);
    Differ("knowledge_policy", "guardrail_policy", 0);
  }

  /** The position of a schema key among the columns. */
  const COLUMN_OF: seq<nat> := [0, 3, 1, 2, 4, 5, 6, 7, 8]

  lemma TopKeysAreColumns(isJsonObject: Value -> bool)
    ensures |TopShape(isJsonObject)| == |COLUMN_OF| == |ColumnNames()|
    ensures forall i :: 0 <= i < |COLUMN_OF| ==> TopShape(isJsonObject)[i].key == ColumnNames()[COLUMN_OF[i]]
  {
  }

  lemma KeysFollow(shape: seq<Entry>, names: seq<JsString>, at: seq<nat>)
    requires |shape| == |at| == |names| && forall i :: 0 <= i < |at| ==> at[i] < |names| && shape[i].key == names[at[i]]
    requires forall i, j :: 0 <= i < j < |at| ==> at[i] != at[j]
    requires forall i, j :: 0 <= i < j < |names| ==> names[i] != names[j]
    ensures DistinctEntries(shape)
  {
    forall i, j | 0 <= i < j < |shape| ensures shape[i].key != shape[j].key {
      assert at[i] != at[j];
    }
  }

  lemma TopKeysDiffer(isJsonObject: Value -> bool)
    ensures DistinctEntries(TopShape(isJsonObject))
  {
    TopKeysAreColumns(isJsonObject);
    ColumnNamesDiffer();
    KeysFollow(TopShape(isJsonObject), ColumnNames(), COLUMN_OF);
  }

  ghost predicate AllGood(screen: Screen, shape: seq<Entry>) {
    forall i :: 0 <= i < |shape| ==> GoodEntry(screen, shape[i])
  }

  lemma AllGoodConcat(screen: Screen, a: seq<Entry>, b: seq<Entry>)
    requires AllGood(screen, a) && AllGood(screen, b)
    ensures AllGood(screen, a + b)
  {
  }

  lemma GoodTexts(screen: Screen)
    ensures AllGood(screen, Texts())
  {
    GoodLeaf(screen, TextOf(1, 32_768));
    GoodPlain(screen, Lit("instructions"), TextOf(1, 32_768));
    GoodLeaf(screen, TextOf(0, 2_000));
    GoodPlain(screen, Lit("brand"), TextOf(0, 2_000));
  }

  lemma GoodLimits(screen: Screen, isJsonObject: Value -> bool)
    ensures AllGood(screen, Limits(isJsonObject))
  {
    GoodModelParams(screen, isJsonObject);
    GoodPlain(screen, Lit("model_params"), ModelParams(isJsonObject));
    GoodBudgetPolicy(screen);
    GoodPlain(screen, Lit("budget_policy"), BudgetPolicy());
  }

  lemma GoodModelEntry(screen: Screen)
    ensures GoodEntry(screen, At("model_policy", ModelPolicy()))
  {
    GoodModelPolicy(screen);
    GoodPlain(screen, Lit("model_policy"), ModelPolicy());
  }

  lemma GoodContextEntry(screen: Screen)
    requires Benign(screen)
    ensures GoodEntry(screen, At("context_policy", ContextPolicy()))
  {
    GoodContextPolicy(screen);
    GoodPlain(screen, Lit("context_policy"), ContextPolicy());
  }

  lemma GoodToolEntry(screen: Screen)
    requires Benign(screen)
    ensures GoodEntry(screen, At("tool_policy", ToolPolicy()))
  {
    GoodToolPolicy(screen);
    GoodPlain(screen, Lit("tool_policy"), ToolPolicy());
  }

  lemma GoodThree(screen: Screen, a: Entry, b: Entry, c: Entry)
    requires GoodEntry(screen, a) && GoodEntry(screen, b) && GoodEntry(screen, c)
    ensures AllGood(screen, [a, b, c])
  {
  }

  lemma GoodPolicies(screen: Screen)
    requires Benign(screen)
    ensures AllGood(screen, Policies())
  {
    GoodModelEntry(screen);
    GoodContextEntry(screen);
    GoodToolEntry(screen);
    GoodThree(screen, At("model_policy", ModelPolicy()), At("context_policy", ContextPolicy()),
      At("tool_policy", ToolPolicy()));
  }

  lemma GoodSafeguards(screen: Screen)
    requires Benign(screen)
    ensures AllGood(screen, Safeguards())
  {
    GoodKnowledgePolicy(screen);
    GoodPlain(screen, Lit("knowledge_policy"), KnowledgePolicy());
    GoodGuardrailPolicy(screen);
    GoodPlain(screen, Lit("guardrail_policy"), GuardrailPolicy());
  }

  lemma GoodTop(screen: Screen, isJsonObject: Value -> bool)
    requires Benign(screen)
    ensures AllGood(screen, TopShape(isJsonObject))
  {
    GoodTexts(screen);
    GoodLimits(screen, isJsonObject);
    AllGoodConcat(screen, Texts(), Limits(isJsonObject));
    GoodPolicies(screen);
    AllGoodConcat(screen, Texts() + Limits(isJsonObject), Policies());
    GoodSafeguards(screen);
    AllGoodConcat(screen, Texts() + Limits(isJsonObject) + Policies(), Safeguards());
  }

  lemma SuitsWhen(env: Env, shape: seq<Entry>, names: seq<JsString>)
    requires env.schema == Object(shape, false) && DistinctEntries(shape) && AllGood(env.screen, shape)
    requires forall i, j :: 0 <= i < j < |names| ==> names[i] != names[j]
    requires forall i :: 0 <= i < |shape| ==> shape[i].key in names
    requires CanonicalJson.TotalOrder(env.rank)
    ensures Suits(env, names)
  {
    GoodObject(env.screen, shape, false);
    forall i | 0 <= i < |shape| ensures RefusesNull(shape[i].schema) {
      assert GoodEntry(env.screen, shape[i]);
    }
  }

  lemma TopKeysAmongColumns(isJsonObject: Value -> bool, i: nat)
    requires i < |TopShape(isJsonObject)|
    ensures TopShape(isJsonObject)[i].key in ColumnNames()
  {
    TopKeysAreColumns(isJsonObject);
    assert ColumnNames()[COLUMN_OF[i]] == TopShape(isJsonObject)[i].key;
  }

  /** The theorems about the unknown-key diff, export and import apply to the assistant payload schema. */
  lemma AssistantSchemaSuits(env: Env, isJsonObject: Value -> bool)
    requires env.schema == PayloadSchemaOf(isJsonObject) && Benign(env.screen) && CanonicalJson.TotalOrder(env.rank)
    ensures Suits(env, ColumnNames())
  {
    GoodTop(env.screen, isJsonObject);
    TopKeysDiffer(isJsonObject);
    ColumnNamesDiffer();
    forall i | 0 <= i < |TopShape(isJsonObject)| {
      TopKeysAmongColumns(isJsonObject, i);
    }
    SuitsWhen(env, TopShape(isJsonObject), ColumnNames());
  }

  /** Export and import of an assistant version, for every payload its creation accepts. */
  lemma AssistantExportImports(env: Env, isJsonObject: Value -> bool, payload: Value, w: Value, read: seq<Field>,
      version: int)
    requires env.schema == PayloadSchemaOf(isJsonObject) && Benign(env.screen) && CanonicalJson.TotalOrder(env.rank)
    requires Accept(env, payload) == Ok(w)
    ensures w.Obj? && (ReadBack(Columns(ColumnNames(), w), read) ==>
      Import(env, Envelope(version, read, Hash(env, w))) == Ok(w))
  {
    AssistantSchemaSuits(env, isJsonObject);
    AcceptedExportImports(env, ColumnNames(), payload, w, read, version);
  }

  lemma ConstructorIsNoKey(isJsonObject: Value -> bool)
    ensures EntryAt(TopShape(isJsonObject), Lit("constructor")) == None && Inherited(Lit("constructor"))
  {
    Differ("constructor", "tool_policy", 0);
    var shape := TopShape(isJsonObject);
    forall i | 0 <= i < |shape| ensures shape[i].key != Lit("constructor") {
      TopKeysAmongColumns(isJsonObject, i);
      assert forall name :: name in ColumnNames() ==> name != Lit("constructor");
    }
    NotAmong(shape, Lit("constructor"));
  }

  /**
   * So of the assistant schema: a payload it accepts is still accepted, as the same normalised
   * payload, with a property named constructor beside its policies, and exactly that is lost.
   */
  lemma ConstructorSlipsThrough(env: Env, isJsonObject: Value -> bool, fs: seq<Field>, value: Value)
    requires env.schema == PayloadSchemaOf(isJsonObject) && Accept(env, Obj(fs)).Ok?
    requires !Suspicious(env.screen, Field(Lit("constructor"), value)) && !ContainsSecret(env.screen, value)
    ensures var f, w := Field(Lit("constructor"), value), Accept(env, Obj(fs)).value;
      && Accept(env, Obj(fs + [f])) == Ok(w)
      && Lost(Obj(fs + [f]), w, []) == Lost(Obj(fs), w, []) + [[f.key]]
  {
    TopKeysDiffer(isJsonObject);
    ConstructorIsNoKey(isJsonObject);
    SlipsPast(env, TopShape(isJsonObject), fs, Field(Lit("constructor"), value));
  }

  lemma SlipsPast(env: Env, shape: seq<Entry>, fs: seq<Field>, f: Field)
    requires env.schema == Object(shape, false) && Accept(env, Obj(fs)).Ok?
    requires DistinctEntries(shape) && EntryAt(shape, f.key) == None && Inherited(f.key)
    requires !Suspicious(env.screen, f) && !ContainsSecret(env.screen, f.value)
    ensures Accept(env, Obj(fs + [f])) == Accept(env, Obj(fs))
    ensures var w := Accept(env, Obj(fs)).value; Lost(Obj(fs + [f]), w, []) == Lost(Obj(fs), w, []) + [[f.key]]
  {
    InheritedSlipsThrough(shape, fs, f);
    assert !ContainsSecret(env.screen, Obj(fs + [f]));
  }
}
