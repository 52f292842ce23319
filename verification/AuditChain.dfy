/**
 * The hash-chained audit trail: appending behind the canonical predecessor, walking the
 * chain in canonical (created_at, id) order, and exactly which histories verify.
 */
module AuditChain {
  import opened Wrappers
  import opened Text
  import opened Json
  import opened Sorting
  import opened CanonicalJson

  /**
   * What the model leaves open: SHA-256 as a function to hexadecimal text, the canonical
   * rendering of an instant, and the orders on JSON keys and event ids. `digest` is the
   * hash of a row's preimage; the chain lemmas need nothing else about it.
   */
  datatype Env = Env(sha: JsString -> JsString, iso: int -> JsString, keys: Rank, ids: Rank, digest: Row -> JsString)

  ghost predicate ValidEnv(env: Env) {
    && TotalOrder(env.keys)
    && TotalOrder(env.ids)
    && (forall x: JsString :: |env.sha(x)| == 64 && PipeFree(env.sha(x)))
    && forall r: Row {:trigger Preimage(env, r)} :: env.digest(r) == env.sha(Preimage(env, r))
  }

  predicate PipeFree(s: JsString) {
    PIPE !in s
  }

  datatype Event = Event(
    action: JsString, resourceType: JsString, actorType: JsString, actorId: Option<JsString>,
    resourceId: Option<JsString>, tenantId: Option<JsString>, productTag: Option<JsString>, details: seq<Field>)

  datatype Row = Row(
    id: JsString, tenantId: Option<JsString>, actorType: JsString, actorId: Option<JsString>, action: JsString,
    resourceType: JsString, resourceId: Option<JsString>, details: Value,
    prevHash: Option<JsString>, eventHash: Option<JsString>, createdAt: int)

  function OrEmpty(s: Option<JsString>): JsString {
    if s.Some? then s.value else []
  }

  // The digest input

  /** One step of `[...].join('|')`. */
  function Sep(part: JsString, rest: JsString): JsString {
    part + ([PIPE] + rest)
  }

  /** The text a row's hash covers. */
  function Preimage(env: Env, row: Row): JsString {
    Sep(OrEmpty(row.prevHash), Sep(row.id, Sep(OrEmpty(row.tenantId), Sep(row.actorType, Sep(OrEmpty(row.actorId),
      Sep(row.action, Sep(row.resourceType, Sep(OrEmpty(row.resourceId),
        Sep(Canonical(env.keys, row.details), env.iso(row.createdAt))))))))))
  }

  // Appending

  const PRODUCT: JsString := Lit("product")

  /** Object spread of one property: an existing key keeps its place. */
  function Put(fs: seq<Field>, key: JsString, v: Value): seq<Field> {
    if fs == [] then [Field(key, v)]
    else if fs[0].key == key then [Field(key, v)] + fs[1..]
    else [fs[0]] + Put(fs[1..], key, v)
  }

  /** The details that are hashed and stored: an absent or empty product tag adds nothing. */
  function Details(e: Event): Value {
    Obj(if e.productTag.Some? && e.productTag.value != [] then Put(e.details, PRODUCT, Str(e.productTag.value))
        else e.details)
  }

  function RowKey(env: Env): Row -> Key {
    (r: Row) => Key(r.createdAt, env.ids(r.id))
  }

  /** `where (created_at, id) < key order by created_at desc, id desc limit 1`. */
  function Predecessor(env: Env, table: seq<Row>, key: Key): Option<Row> {
    if table == [] then None
    else
      var last := table[|table| - 1];
      var best := Predecessor(env, table[..|table| - 1], key);
      if Before(RowKey(env)(last), key) && (best.None? || Before(RowKey(env)(best.value), RowKey(env)(last)))
      then Some(last)
      else best
  }

  function PrevHash(env: Env, table: seq<Row>, key: Key): Option<JsString> {
    var p := Predecessor(env, table, key);
    if p.Some? then p.value.eventHash else None
  }

  /**
   * One `add`: the event, the random id, the instant taken before the lock, and the value
   * the jsonb column gives back, which may list keys in another order.
   */
  datatype Call = Call(event: Event, id: JsString, createdAt: int, stored: Value)

  ghost predicate ValidCall(c: Call) {
    DistinctKeys(c.event.details) && WellFormed(Details(c.event)) && WellFormed(c.stored)
      && Equiv(c.stored, Details(c.event))
  }

  function Unhashed(env: Env, table: seq<Row>, c: Call, details: Value): Row {
    var e := c.event;
    Row(c.id, e.tenantId, e.actorType, e.actorId, e.action, e.resourceType, e.resourceId, details,
        PrevHash(env, table, Key(c.createdAt, env.ids(c.id))), None, c.createdAt)
  }

  /** The inserted row: its hash covers the details as given, not as stored. */
  function NewRow(env: Env, table: seq<Row>, c: Call): Row {
    Unhashed(env, table, c, c.stored).(eventHash := Some(env.digest(Unhashed(env, table, c, Details(c.event)))))
  }

  // What a row records

  /**
   * The details hold the text of a present, non-empty tag under `product`; for the rest they hold what
   * the event's own details hold, up to key order, and nothing else.
   */
  ghost predicate DetailsRecord(details: Value, e: Event) {
    && details.Obj?
    && (e.productTag.Some? && e.productTag.value != [] ==>
          Find(details.fields, PRODUCT) == Some(Str(e.productTag.value)))
    && forall key :: key != PRODUCT || OrEmpty(e.productTag) == [] ==>
         FoundAlike(Find(details.fields, key), Find(e.details, key))
  }

  /** Every column of the row that the call decides. */
  ghost predicate Records(row: Row, c: Call) {
    var e := c.event;
    && row.id == c.id && row.createdAt == c.createdAt && row.action == e.action
    && row.tenantId == e.tenantId && row.actorType == e.actorType && row.actorId == e.actorId
    && row.resourceType == e.resourceType && row.resourceId == e.resourceId
    && DetailsRecord(row.details, e)
  }

  lemma {:induction false} PutFinds(fs: seq<Field>, key: JsString, v: Value, other: JsString)
    ensures Find(Put(fs, key, v), other) == if other == key then Some(v) else Find(fs, other)
  {
    if fs != [] && fs[0].key != key {
      PutFinds(fs[1..], key, v, other);
    }
  }

  /** What is hashed records the event, and what is stored does too. */
  lemma DetailsRecorded(c: Call)
    requires ValidCall(c)
    ensures DetailsRecord(Details(c.event), c.event) && DetailsRecord(c.stored, c.event)
  {
    var e := c.event;
    var given := Details(e).fields;
    forall key
      ensures var product := key == PRODUCT && OrEmpty(e.productTag) != [];
        && Find(given, key) == (if product then Some(Str(e.productTag.value)) else Find(e.details, key))
        && FoundAlike(Find(given, key), Find(given, key))
        && FoundAlike(Find(c.stored.fields, key), Find(given, key))
    {
      PutFinds(e.details, PRODUCT, Str(OrEmpty(e.productTag)), key);
      SameAt(c.stored.fields, given, key);
      if Find(given, key).Some? {
        var i := FindIndex(given, key);
        EquivRefl(given[i].value);
      }
    }
  }

  // Verifying

  function Hashed(table: seq<Row>): seq<Row> {
    if table == [] then []
    else Hashed(table[..|table| - 1]) + (if table[|table| - 1].eventHash.Some? then [table[|table| - 1]] else [])
  }

  /** `where event_hash is not null order by created_at, id`. */
  function Walk(env: Env, table: seq<Row>): seq<Row> {
    SortBy(RowKey(env), Hashed(table))
  }

  function Window(env: Env, table: seq<Row>, limit: nat): (w: seq<Row>)
    ensures |w| <= limit
  {
    var w := Walk(env, table);
    if limit < |w| then w[..limit] else w
  }

  predicate HashOk(env: Env, row: Row) {
    row.eventHash == Some(env.digest(row))
  }

  datatype Break = HashMismatch(id: JsString) | Discontinuity(id: JsString)

  datatype Verdict = Verdict(ok: bool, checked: nat, firstBreak: Option<Break>)

  /** Row `k` carries its own hash and the hash of the row before it. */
  predicate SoundAt(env: Env, w: seq<Row>, k: nat)
    requires k < |w|
  {
    HashOk(env, w[k]) && (k > 0 ==> w[k].prevHash == w[k - 1].eventHash)
  }

  function BreakAt(env: Env, w: seq<Row>, k: nat): Verdict
    requires k < |w|
  {
    Verdict(false, k, Some(if HashOk(env, w[k]) then Discontinuity(w[k].id) else HashMismatch(w[k].id)))
  }

  /** The first unsound row from `k` on decides. */
  function VerifyFrom(env: Env, w: seq<Row>, k: nat): Verdict
    requires k <= |w|
    decreases |w| - k
  {
    if k == |w| then Verdict(true, k, None)
    else if !SoundAt(env, w, k) then BreakAt(env, w, k)
    else VerifyFrom(env, w, k + 1)
  }

  lemma {:induction false} VerifyFromFinds(env: Env, w: seq<Row>, k: nat)
    requires k <= |w|
    ensures var v := VerifyFrom(env, w, k);
      && (v.ok <==> forall i :: k <= i < |w| ==> SoundAt(env, w, i))
      && (!v.ok ==> k <= v.checked < |w| && !SoundAt(env, w, v.checked) && v == BreakAt(env, w, v.checked)
                    && forall i :: k <= i < v.checked ==> SoundAt(env, w, i))
    decreases |w| - k
  {
    if k < |w| && SoundAt(env, w, k) {
      VerifyFromFinds(env, w, k + 1);
    }
  }

  method Recompute(env: Env, row: Row) returns (hash: JsString)
    requires ValidEnv(env)
    ensures hash == env.digest(row)
  {
    hash := env.sha(Preimage(env, row));
  }

  class AuditTrail {
    const env: Env
    const legacy: nat
    var rows: seq<Row>

    /** Every row is a legacy row without a hash or was appended by `Add`. */
    ghost predicate Valid()
      reads this
    {
      ValidEnv(env) && Chain(env, legacy, rows)
    }

    constructor (env: Env, legacyRows: seq<Row>)
      requires ValidEnv(env)
      requires forall i :: 0 <= i < |legacyRows| ==> legacyRows[i].eventHash.None?
      ensures Valid() && rows == legacyRows && legacy == |legacyRows| && this.env == env
    {
      this.env := env;
      legacy := |legacyRows|;
      rows := legacyRows;
    }

    /** `add`. */
    method Add(c: Call)
      requires Valid() && ValidCall(c)
      modifies this
      ensures Valid()
      ensures rows == old(rows) + [NewRow(env, old(rows), c)]
      ensures Records(rows[|old(rows)|], c)
    {
      var found := Predecessor(env, rows, Key(c.createdAt, env.ids(c.id)));
      var prevHash := if found.Some? then found.value.eventHash else None;
      var e := c.event;
      var row := Row(c.id, e.tenantId, e.actorType, e.actorId, e.action, e.resourceType, e.resourceId, Details(e),
                     prevHash, None, c.createdAt);
      var eventHash := Recompute(env, row);
      AppendKeepsChain(env, legacy, rows, c);
      DetailsRecorded(c);
      rows := rows + [row.(details := c.stored, eventHash := Some(eventHash))];
    }

    /** `verifyChain`. */
    method VerifyChain(limit: nat) returns (v: Verdict)
      requires Valid()
      ensures v == VerifyFrom(env, Window(env, rows, limit), 0)
    {
      var w := Window(env, rows, limit);
      var prevHash: Option<JsString> := None;
      var checked := 0;
      while checked < |w|
        invariant checked <= |w|
        invariant prevHash == (if checked == 0 then None else w[checked - 1].eventHash)
        invariant forall i :: 0 <= i < checked ==> w[i].eventHash.Some?
        invariant VerifyFrom(env, w, 0) == VerifyFrom(env, w, checked)
      {
        var row := w[checked];
        var expected := Recompute(env, row);
        if Some(expected) != row.eventHash {
          return Verdict(false, checked, Some(HashMismatch(row.id)));
        }
        if prevHash.Some? && row.prevHash != prevHash {
          return Verdict(false, checked, Some(Discontinuity(row.id)));
        }
        prevHash := row.eventHash;
        checked := checked + 1;
      }
      return Verdict(true, checked, None);
    }
  }

  // What appending keeps

  /** Rows below `legacy` have no hash; every later row chained to its predecessor among the rows before it. */
  ghost predicate Chain(env: Env, legacy: nat, rows: seq<Row>) {
    && legacy <= |rows|
    && (forall i :: 0 <= i < legacy ==> rows[i].eventHash.None?)
    && forall q :: legacy <= q < |rows| ==> ChainedAt(env, rows, q)
  }

  ghost predicate ChainedAt(env: Env, rows: seq<Row>, q: nat)
    requires q < |rows|
  {
    && HashOk(env, rows[q])
    && rows[q].prevHash == PrevHash(env, rows[..q], RowKey(env)(rows[q]))
  }

  /** The stored details hash like the given ones, so a fresh row verifies on its own. */
  lemma NewRowHashes(env: Env, table: seq<Row>, c: Call)
    requires ValidEnv(env) && ValidCall(c)
    ensures HashOk(env, NewRow(env, table, c))
  {
    CanonicalIdentifies(env.keys, c.stored, Details(c.event));
    assert Preimage(env, NewRow(env, table, c)) == Preimage(env, Unhashed(env, table, c, Details(c.event)));
  }

  lemma AppendKeepsChain(env: Env, legacy: nat, rows: seq<Row>, c: Call)
    requires ValidEnv(env) && ValidCall(c) && Chain(env, legacy, rows)
    ensures Chain(env, legacy, rows + [NewRow(env, rows, c)])
  {
    NewRowHashes(env, rows, c);
    var after := rows + [NewRow(env, rows, c)];
    forall q | legacy <= q < |after| ensures ChainedAt(env, after, q) {
      if q < |rows| {
        assert ChainedAt(env, rows, q) && after[..q] == rows[..q];
      } else {
        assert after[..q] == rows;
      }
    }
  }

  /** The table after any sequence of `add` calls. */
  function Run(env: Env, legacyRows: seq<Row>, calls: seq<Call>): seq<Row> {
    if calls == [] then legacyRows
    else
      var before := Run(env, legacyRows, calls[..|calls| - 1]);
      before + [NewRow(env, before, calls[|calls| - 1])]
  }

  lemma {:induction false} RunShape(env: Env, legacyRows: seq<Row>, calls: seq<Call>)
    ensures |Run(env, legacyRows, calls)| == |legacyRows| + |calls|
    ensures Run(env, legacyRows, calls)[..|legacyRows|] == legacyRows
    ensures forall i :: 0 <= i < |calls| ==>
      var r := Run(env, legacyRows, calls)[|legacyRows| + i]; r.id == calls[i].id && r.createdAt == calls[i].createdAt
  {
    if calls != [] {
      RunShape(env, legacyRows, calls[..|calls| - 1]);
    }
  }

  lemma {:induction false} RunIsChain(env: Env, legacyRows: seq<Row>, calls: seq<Call>)
    requires ValidEnv(env)
    requires forall i :: 0 <= i < |legacyRows| ==> legacyRows[i].eventHash.None?
    requires forall c :: c in calls ==> ValidCall(c)
    ensures Chain(env, |legacyRows|, Run(env, legacyRows, calls))
  {
    if calls != [] {
      var n := |calls| - 1;
      RunIsChain(env, legacyRows, calls[..n]);
      AppendKeepsChain(env, |legacyRows|, Run(env, legacyRows, calls[..n]), calls[n]);
    }
  }
}
