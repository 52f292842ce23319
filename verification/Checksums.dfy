/**
 * Cutover verification: both lanes stream their rows in primary-key order by paging, put
 * them in canonical form and hash one JSON line per row.
 */
module Checksums {
  import opened Wrappers
  import opened Text
  import opened Sorting
  import opened CanonicalJson
  import opened Mappers
  import Json
  import Uuid

  // Canonical form

  /** `canonicalize` skips `_id`; assigning `__proto__` to a fresh object leaves no property behind. */
  predicate Dropped(key: JsString) {
    key == ID_KEY || key == PROTO_KEY
  }

  /** Values `canonicalize` and `JSON.stringify` can print. */
  predicate Plain(v: Js) {
    match v
    case BigInt(_) => false
    case ObjectId(_) => false
    case Binary(uuid, bytes) => uuid ==> |bytes| == 16
    case Arr(items) => forall i :: 0 <= i < |items| ==> Plain(items[i])
    case Obj(ps) => forall i :: 0 <= i < |ps| ==> Dropped(ps[i].key) || Plain(ps[i].value)
    case _ => true
  }

  function Canonicalize(env: Env, v: Js): Json.Value
    requires Plain(v)
    decreases v, 0
  {
    match v
    case Undefined => Json.Null
    case Null => Json.Null
    case Bool(b) => Json.Bool(b)
    case Num(n) => Json.Num(n)
    case Frac(p) => Json.Frac(p)
    case Str(s) => Json.Str(s)
    case Date(ms) => Json.Str(env.iso(ms))
    case Binary(uuid, bytes) => Json.Str(if uuid then Uuid.Format(bytes) else Uuid.HexBytes(bytes))
    case Arr(items) => Json.Arr(CanonicalItems(env, items))
    case Obj(ps) => Json.Obj(SortBy(ByKey(env.rank), CanonicalProps(env, ps)))
  }

  function CanonicalItems(env: Env, items: seq<Js>): (r: seq<Json.Value>)
    requires forall i :: 0 <= i < |items| ==> Plain(items[i])
    ensures |r| == |items| && forall i :: 0 <= i < |items| ==> r[i] == Canonicalize(env, items[i])
    decreases items, 1
  {
    if items == [] then [] else [Canonicalize(env, items[0])] + CanonicalItems(env, items[1..])
  }

  function CanonicalProps(env: Env, ps: seq<Prop>): seq<Json.Field>
    requires forall i :: 0 <= i < |ps| ==> Dropped(ps[i].key) || Plain(ps[i].value)
    decreases ps, 1
  {
    if ps == [] then []
    else if Dropped(ps[0].key) then CanonicalProps(env, ps[1..])
    else [Json.Field(ps[0].key, Canonicalize(env, ps[0].value))] + CanonicalProps(env, ps[1..])
  }

  predicate PlainDoc(doc: seq<Prop>) {
    Plain(Obj(doc))
  }

  predicate PlainDocs(docs: seq<seq<Prop>>) {
    forall i :: 0 <= i < |docs| ==> PlainDoc(docs[i])
  }

  function CanonicalDocs(env: Env, docs: seq<seq<Prop>>): (r: seq<Json.Value>)
    requires PlainDocs(docs)
    ensures |r| == |docs| && forall i :: 0 <= i < |docs| ==> r[i] == Canonicalize(env, Obj(docs[i]))
  {
    seq(|docs|, i requires 0 <= i < |docs| => Canonicalize(env, Obj(docs[i])))
  }

  /** The surrogate MongoDB adds does not show. */
  lemma IdIsInvisible(env: Env, doc: seq<Prop>, id: Js)
    requires PlainDoc(doc)
    ensures PlainDoc([Prop(ID_KEY, id)] + doc) && (OneKeyEach(Obj(doc)) ==> OneKeyEach(Obj([Prop(ID_KEY, id)] + doc)))
    ensures Canonicalize(env, Obj([Prop(ID_KEY, id)] + doc)) == Canonicalize(env, Obj(doc))
  {
    var stored := [Prop(ID_KEY, id)] + doc;
    assert stored[1..] == doc;
    assert forall i :: 0 < i < |stored| ==> stored[i] == doc[i - 1];
  }

  // What the canonical form identifies

  /** Every object has one property per kept key, at every depth. */
  predicate OneKeyEach(v: Js) {
    match v
    case Arr(items) => forall i :: 0 <= i < |items| ==> OneKeyEach(items[i])
    case Obj(ps) =>
      && (forall i, j :: 0 <= i < j < |ps| && !Dropped(ps[i].key) ==> ps[i].key != ps[j].key)
      && forall i :: 0 <= i < |ps| && !Dropped(ps[i].key) ==> OneKeyEach(ps[i].value)
    case _ => true
  }

  /** The text a string, a date or a binary stands for. */
  function TextOf(env: Env, v: Js): Option<JsString>
    requires Plain(v)
  {
    match v
    case Str(s) => Some(s)
    case Date(ms) => Some(env.iso(ms))
    case Binary(uuid, bytes) => Some(if uuid then Uuid.Format(bytes) else Uuid.HexBytes(bytes))
    case _ => None
  }

  /**
   * Equality of stored values: null is undefined, texts may be kept as binaries or dates,
   * objects have the same properties in any order, apart from the dropped keys.
   */
  ghost predicate Alike(env: Env, v: Js, w: Js)
    requires Plain(v) && Plain(w)
    decreases v, 0
  {
    match v
    case Undefined => Absent(w)
    case Null => Absent(w)
    case Bool(_) => w == v
    case Num(_) => w == v
    case Frac(_) => w == v
    case Arr(a) => w.Arr? && |a| == |w.items| && forall i :: 0 <= i < |a| ==> Alike(env, a[i], w.items[i])
    case Obj(ps) => w.Obj? && AlikeProps(env, ps, w.props)
    case _ => TextOf(env, w) == TextOf(env, v)
  }

  ghost predicate AlikeProps(env: Env, ps: seq<Prop>, qs: seq<Prop>)
    requires Plain(Obj(ps)) && Plain(Obj(qs))
    decreases ps, 1
  {
    && (forall i :: 0 <= i < |ps| && !Dropped(ps[i].key) ==> HasAlike(env, ps[i], qs))
    && forall j :: 0 <= j < |qs| && !Dropped(qs[j].key) ==> Has(ps, qs[j].key)
  }

  ghost predicate HasAlike(env: Env, p: Prop, qs: seq<Prop>)
    requires !Dropped(p.key) && Plain(p.value) && Plain(Obj(qs))
    decreases p, 0
  {
    exists j :: 0 <= j < |qs| && qs[j].key == p.key && Alike(env, p.value, qs[j].value)
  }

  /** The canonical form before its keys are sorted. */
  function Raw(env: Env, v: Js): Json.Value
    requires Plain(v)
    decreases v, 0
  {
    match v
    case Undefined => Json.Null
    case Null => Json.Null
    case Bool(b) => Json.Bool(b)
    case Num(n) => Json.Num(n)
    case Frac(p) => Json.Frac(p)
    case Arr(items) => Json.Arr(RawItems(env, items))
    case Obj(ps) => Json.Obj(RawProps(env, ps))
    case Str(_) => Json.Str(TextOf(env, v).value)
    case Date(_) => Json.Str(TextOf(env, v).value)
    case Binary(_, _) => Json.Str(TextOf(env, v).value)
  }

  function RawItems(env: Env, items: seq<Js>): (r: seq<Json.Value>)
    requires forall i :: 0 <= i < |items| ==> Plain(items[i])
    ensures |r| == |items| && forall i :: 0 <= i < |items| ==> r[i] == Raw(env, items[i])
    decreases items, 1
  {
    if items == [] then [] else [Raw(env, items[0])] + RawItems(env, items[1..])
  }

  function RawProps(env: Env, ps: seq<Prop>): seq<Json.Field>
    requires forall i :: 0 <= i < |ps| ==> Dropped(ps[i].key) || Plain(ps[i].value)
    decreases ps, 1
  {
    if ps == [] then []
    else if Dropped(ps[0].key) then RawProps(env, ps[1..])
    else [Json.Field(ps[0].key, Raw(env, ps[0].value))] + RawProps(env, ps[1..])
  }

  lemma {:induction false} CanonicalSortsRaw(env: Env, v: Js)
    requires Plain(v)
    ensures Canonicalize(env, v) == SortKeys(env.rank, Raw(env, v))
    decreases v, 0
  {
    match v
    case Arr(items) =>
      forall i | 0 <= i < |items| {
        CanonicalSortsRaw(env, items[i]);
      }
      assert CanonicalItems(env, items) == SortItems(env.rank, RawItems(env, items));
    case Obj(ps) => CanonicalPropsSortRaw(env, ps);
    case _ =>
  }

  lemma {:induction false} CanonicalPropsSortRaw(env: Env, ps: seq<Prop>)
    requires forall i :: 0 <= i < |ps| ==> Dropped(ps[i].key) || Plain(ps[i].value)
    ensures CanonicalProps(env, ps) == SortValues(env.rank, RawProps(env, ps))
    decreases ps, 1
  {
    if ps != [] {
      CanonicalPropsSortRaw(env, ps[1..]);
      if !Dropped(ps[0].key) {
        CanonicalSortsRaw(env, ps[0].value);
        assert RawProps(env, ps)[1..] == RawProps(env, ps[1..]);
      }
    }
  }

  lemma {:induction false} RawHas(env: Env, ps: seq<Prop>, i: nat) returns (k: nat)
    requires Plain(Obj(ps)) && i < |ps| && !Dropped(ps[i].key)
    ensures k < |RawProps(env, ps)| && RawProps(env, ps)[k] == Json.Field(ps[i].key, Raw(env, ps[i].value))
    decreases i
  {
    if i == 0 {
      k := 0;
    } else {
      k := RawHas(env, ps[1..], i - 1);
      k := if Dropped(ps[0].key) then k else k + 1;
    }
  }

  lemma {:induction false} RawFrom(env: Env, ps: seq<Prop>, k: nat) returns (i: nat)
    requires Plain(Obj(ps)) && k < |RawProps(env, ps)|
    ensures i < |ps| && !Dropped(ps[i].key)
    ensures RawProps(env, ps)[k] == Json.Field(ps[i].key, Raw(env, ps[i].value))
    decreases ps
  {
    if Dropped(ps[0].key) {
      i := RawFrom(env, ps[1..], k);
      i := i + 1;
    } else if k == 0 {
      i := 0;
    } else {
      i := RawFrom(env, ps[1..], k - 1);
      i := i + 1;
    }
  }

  lemma {:induction false} RawKeysDistinct(env: Env, ps: seq<Prop>)
    requires Plain(Obj(ps)) && OneKeyEach(Obj(ps))
    ensures Json.DistinctKeys(RawProps(env, ps))
    decreases ps
  {
    if ps != [] {
      RawKeysDistinct(env, ps[1..]);
      if !Dropped(ps[0].key) {
        var rest := RawProps(env, ps[1..]);
        forall k | 0 <= k < |rest| ensures rest[k].key != ps[0].key {
          var i := RawFrom(env, ps[1..], k);
          assert ps[1..][i] == ps[i + 1];
        }
      }
    }
  }

  lemma {:induction false} RawWellFormed(env: Env, v: Js)
    requires Plain(v) && OneKeyEach(v)
    ensures Json.WellFormed(Raw(env, v))
    decreases v
  {
    match v
    case Arr(items) =>
      forall i | 0 <= i < |items| {
        RawWellFormed(env, items[i]);
      }
    case Obj(ps) =>
      RawKeysDistinct(env, ps);
      var fs := RawProps(env, ps);
      forall k | 0 <= k < |fs| ensures Json.WellFormed(fs[k].value) {
        var i := RawFrom(env, ps, k);
        RawWellFormed(env, ps[i].value);
      }
    case _ =>
  }

  /** Property lists with the same distinct keys are equally long. */
  lemma {:induction false} NoLonger(fs: seq<Json.Field>, gs: seq<Json.Field>)
    requires Json.DistinctKeys(fs) && forall k :: 0 <= k < |fs| ==> Json.Find(gs, fs[k].key).Some?
    ensures |fs| <= |gs|
    decreases |fs|
  {
    if fs != [] {
      var l := Json.FindIndex(gs, fs[0].key);
      var rest := gs[..l] + gs[l + 1..];
      forall k | 0 <= k < |fs[1..]| ensures Json.Find(rest, fs[1..][k].key).Some? {
        var m := Json.FindIndex(gs, fs[k + 1].key);
        assert fs[0].key != fs[k + 1].key;
        FoundAt(rest, if m < l then m else m - 1);
      }
      NoLonger(fs[1..], rest);
    }
  }

  lemma {:induction false} FoundAt(fs: seq<Json.Field>, k: nat)
    requires k < |fs|
    ensures Json.Find(fs, fs[k].key).Some?
  {
    if k > 0 {
      FoundAt(fs[1..], k - 1);
    }
  }

  lemma {:induction false} AlikeIffEquiv(env: Env, v: Js, w: Js)
    requires Plain(v) && Plain(w) && OneKeyEach(v) && OneKeyEach(w)
    ensures Alike(env, v, w) <==> Equiv(Raw(env, v), Raw(env, w))
    decreases v
  {
    match v
    case Arr(a) =>
      if w.Arr? && |a| == |w.items| {
        forall i | 0 <= i < |a| {
          AlikeIffEquiv(env, a[i], w.items[i]);
        }
      }
    case Obj(ps) =>
      if w.Obj? {
        var qs := w.props;
        forall i, j | 0 <= i < |ps| && 0 <= j < |qs| && !Dropped(ps[i].key) && !Dropped(qs[j].key)
          ensures Alike(env, ps[i].value, qs[j].value) <==> Equiv(Raw(env, ps[i].value), Raw(env, qs[j].value))
        {
          AlikeIffEquiv(env, ps[i].value, qs[j].value);
        }
        if AlikeProps(env, ps, qs) {
          AlikeSameFields(env, ps, qs);
        }
        if SameFields(RawProps(env, ps), RawProps(env, qs)) {
          SameFieldsAlike(env, ps, qs);
        }
      }
    case _ =>
  }

  /** The values of kept properties are alike exactly when their raw forms are equivalent. */
  ghost predicate ValuesAgree(env: Env, ps: seq<Prop>, qs: seq<Prop>)
    requires Plain(Obj(ps)) && Plain(Obj(qs))
  {
    forall i, j :: 0 <= i < |ps| && 0 <= j < |qs| && !Dropped(ps[i].key) && !Dropped(qs[j].key) ==>
      (Alike(env, ps[i].value, qs[j].value) <==> Equiv(Raw(env, ps[i].value), Raw(env, qs[j].value)))
  }

  lemma AlikeFound(env: Env, ps: seq<Prop>, qs: seq<Prop>, k: nat)
    requires Plain(Obj(ps)) && Plain(Obj(qs)) && OneKeyEach(Obj(qs))
    requires ValuesAgree(env, ps, qs) && AlikeProps(env, ps, qs) && k < |RawProps(env, ps)|
    ensures var f, gs := RawProps(env, ps)[k], RawProps(env, qs);
      Json.Find(gs, f.key).Some? && Equiv(f.value, Json.Find(gs, f.key).value)
  {
    var i := RawFrom(env, ps, k);
    assert HasAlike(env, ps[i], qs);
    var j :| 0 <= j < |qs| && qs[j].key == ps[i].key && Alike(env, ps[i].value, qs[j].value);
    var l := RawHas(env, qs, j);
    RawKeysDistinct(env, qs);
    Json.FindAt(RawProps(env, qs), l);
  }

  lemma AlikeSameFields(env: Env, ps: seq<Prop>, qs: seq<Prop>)
    requires Plain(Obj(ps)) && Plain(Obj(qs)) && OneKeyEach(Obj(ps)) && OneKeyEach(Obj(qs))
    requires ValuesAgree(env, ps, qs) && AlikeProps(env, ps, qs)
    ensures SameFields(RawProps(env, ps), RawProps(env, qs))
  {
    var fs, gs := RawProps(env, ps), RawProps(env, qs);
    forall k | 0 <= k < |fs|
      ensures Json.Find(gs, fs[k].key).Some? && Equiv(fs[k].value, Json.Find(gs, fs[k].key).value)
    {
      AlikeFound(env, ps, qs, k);
    }
    forall l | 0 <= l < |gs| ensures Json.Find(fs, gs[l].key).Some? {
      var j := RawFrom(env, qs, l);
      var i :| 0 <= i < |ps| && ps[i].key == qs[j].key;
      var k := RawHas(env, ps, i);
      FoundAt(fs, k);
    }
    RawKeysDistinct(env, ps);
    RawKeysDistinct(env, qs);
    NoLonger(fs, gs);
    NoLonger(gs, fs);
  }

  lemma SameFieldsAlike(env: Env, ps: seq<Prop>, qs: seq<Prop>)
    requires Plain(Obj(ps)) && Plain(Obj(qs))
    requires ValuesAgree(env, ps, qs) && SameFields(RawProps(env, ps), RawProps(env, qs))
    ensures AlikeProps(env, ps, qs)
  {
    var fs, gs := RawProps(env, ps), RawProps(env, qs);
    forall i | 0 <= i < |ps| && !Dropped(ps[i].key) ensures HasAlike(env, ps[i], qs) {
      var k := RawHas(env, ps, i);
      var l := Json.FindIndex(gs, fs[k].key);
      var j := RawFrom(env, qs, l);
      assert qs[j].key == ps[i].key && Alike(env, ps[i].value, qs[j].value);
    }
    forall j | 0 <= j < |qs| && !Dropped(qs[j].key) ensures Has(ps, qs[j].key) {
      var l := RawHas(env, qs, j);
      var k := Json.FindIndex(fs, gs[l].key);
      var i := RawFrom(env, ps, k);
      assert ps[i].key == qs[j].key;
    }
  }

  /** Two values have one canonical form exactly when they are alike. */
  lemma CanonicalFormIff(env: Env, v: Js, w: Js)
    requires TotalOrder(env.rank) && Plain(v) && Plain(w) && OneKeyEach(v) && OneKeyEach(w)
    ensures Canonicalize(env, v) == Canonicalize(env, w) <==> Alike(env, v, w)
  {
    CanonicalSortsRaw(env, v);
    CanonicalSortsRaw(env, w);
    RawWellFormed(env, v);
    RawWellFormed(env, w);
    EquivSorts(env.rank, Raw(env, v), Raw(env, w));
    AlikeIffEquiv(env, v, w);
  }

  /** The property named `__proto__` is lost: documents that differ in it alone have one canonical form. */
  lemma ProtoIsInvisible(env: Env)
    ensures var v, w := Obj([Prop(PROTO_KEY, Num(1))]), Obj([]);
      Plain(v) && Plain(w) && v != w && Canonicalize(env, v) == Canonicalize(env, w)
  {
    var ps := [Prop(PROTO_KEY, Num(1))];
    assert Dropped(ps[0].key) && ps[1..] == [];
    assert CanonicalProps(env, ps) == [];
  }

  // The hashed stream

  const NEWLINE: Unit := 0x0a

  function Line(v: Json.Value): JsString {
    Json.Print(Json.Stringify, v) + [NEWLINE]
  }

  function Lines(vs: seq<Json.Value>): JsString {
    if vs == [] then [] else Line(vs[0]) + Lines(vs[1..])
  }

  lemma LineHead(v: Json.Value, rest: JsString)
    ensures Json.ReadValue(Line(v) + rest) == Some((v, [NEWLINE] + rest))
  {
    Json.ReadPrinted(Json.Stringify, v, [NEWLINE] + rest);
    assert Line(v) + rest == Json.Print(Json.Stringify, v) + ([NEWLINE] + rest);
  }

  /** JSON lines are uniquely decodable: the stream determines the list of values. */
  lemma {:induction false} LinesInjective(vs: seq<Json.Value>, ws: seq<Json.Value>)
    ensures Lines(vs) == Lines(ws) <==> vs == ws
  {
    if vs == [] || ws == [] {
      if vs != [] {
        assert Lines(vs) != [];
      } else if ws != [] {
        assert Lines(ws) != [];
      }
    } else {
      LineHead(vs[0], Lines(vs[1..]));
      LineHead(ws[0], Lines(ws[1..]));
      var x, y := Lines(vs[1..]), Lines(ws[1..]);
      assert ([NEWLINE] + x)[1..] == x && ([NEWLINE] + y)[1..] == y;
      LinesInjective(vs[1..], ws[1..]);
      assert vs == [vs[0]] + vs[1..] && ws == [ws[0]] + ws[1..];
    }
  }

  // Paging

  type Order = Js -> real

  function PkOf(mapping: Mapping, props: seq<Prop>): Js {
    var v := Lookup(props, mapping.pkColumn);
    if v.Some? then v.value else Undefined
  }

  function ByPk(order: Order, mapping: Mapping): seq<Prop> -> Key {
    (props: seq<Prop>) => Key(0, order(PkOf(mapping, props)))
  }

  /** All rows in primary-key order. */
  function Ordered(order: Order, mapping: Mapping, rows: seq<seq<Prop>>): (r: seq<seq<Prop>>)
    ensures |r| == |rows|
  {
    SortBy(ByPk(order, mapping), rows)
  }

  function Take<T>(s: seq<T>, n: nat): seq<T> {
    if n < |s| then s[..n] else s
  }

  /** `SELECT ... ORDER BY pk LIMIT limit OFFSET offset`. */
  function SelectPage(order: Order, mapping: Mapping, rows: seq<seq<Prop>>, limit: nat,
      offset: nat): (page: seq<seq<Prop>>)
    requires offset <= |rows|
  {
    Take(Ordered(order, mapping, rows)[offset..], limit)
  }

  /** The rows whose primary key is greater than `last`; null stands for no bound. */
  function Greater(order: Order, mapping: Mapping, sorted: seq<seq<Prop>>, last: Js): seq<seq<Prop>> {
    if sorted == [] || last.Null? then sorted
    else if order(PkOf(mapping, sorted[0])) > order(last) then [sorted[0]] + Greater(order, mapping, sorted[1..], last)
    else Greater(order, mapping, sorted[1..], last)
  }

  /** `find(pk > last).sort(pk).limit(limit)`. */
  function FindPage(order: Order, mapping: Mapping, docs: seq<seq<Prop>>, limit: nat, last: Js): seq<seq<Prop>> {
    Take(Greater(order, mapping, Ordered(order, mapping, docs), last), limit)
  }

  /** Primary keys are present and no two of them sort alike. */
  ghost predicate Keyed(order: Order, mapping: Mapping, rows: seq<seq<Prop>>) {
    && (forall i :: 0 <= i < |rows| ==> !Absent(PkOf(mapping, rows[i])))
    && DistinctBy(ByPk(order, mapping), rows)
  }

  lemma OrderedKeyed(order: Order, mapping: Mapping, rows: seq<seq<Prop>>)
    requires Keyed(order, mapping, rows)
    ensures Ascending(ByPk(order, mapping), Ordered(order, mapping, rows))
    ensures forall i :: 0 <= i < |rows| ==> !Absent(PkOf(mapping, Ordered(order, mapping, rows)[i]))
  {
    SortAscends(ByPk(order, mapping), rows);
    SortPermutes(ByPk(order, mapping), rows);
    var sorted := Ordered(order, mapping, rows);
    SameMembers(sorted, rows);
    forall i | 0 <= i < |rows| ensures !Absent(PkOf(mapping, sorted[i])) {
      assert sorted[i] in rows;
    }
  }

  /** The rows above the last one of a page are the rest of the order. */
  lemma {:induction false} GreaterIsRest(order: Order, mapping: Mapping, sorted: seq<seq<Prop>>, k: nat)
    requires Ascending(ByPk(order, mapping), sorted) && 0 < k <= |sorted|
    requires !PkOf(mapping, sorted[k - 1]).Null?
    ensures Greater(order, mapping, sorted, PkOf(mapping, sorted[k - 1])) == sorted[k..]
  {
    var last := PkOf(mapping, sorted[k - 1]);
    assert k > 1 ==> Before(ByPk(order, mapping)(sorted[0]), ByPk(order, mapping)(sorted[k - 1]));
    if k > 1 {
      GreaterIsRest(order, mapping, sorted[1..], k - 1);
    } else {
      forall i | 0 <= i < |sorted[1..]| ensures order(PkOf(mapping, sorted[1..][i])) > order(last) {
        assert Before(ByPk(order, mapping)(sorted[0]), ByPk(order, mapping)(sorted[i + 1]));
      }
      AllGreater(order, mapping, sorted[1..], last);
    }
  }

  lemma {:induction false} AllGreater(order: Order, mapping: Mapping, sorted: seq<seq<Prop>>, last: Js)
    requires forall i :: 0 <= i < |sorted| ==> order(PkOf(mapping, sorted[i])) > order(last)
    ensures Greater(order, mapping, sorted, last) == sorted
  {
    if sorted != [] {
      AllGreater(order, mapping, sorted[1..], last);
    }
  }

  /** Pages tile the sequence, and a short page is the last one. */
  lemma PageExtends<T>(s: seq<T>, n: nat, limit: nat)
    requires n <= |s| && limit >= 1
    ensures var page := Take(s[n..], limit);
      && n + |page| <= |s| && |page| <= limit
      && s[..n] + page == s[..n + |page|]
      && (|page| > 0 ==> page[|page| - 1] == s[n + |page| - 1])
      && (|page| < limit ==> n + |page| == |s|)
  {
  }

  /** The page after the first `n` documents starts at document `n`. */
  lemma NextPage(order: Order, mapping: Mapping, docs: seq<seq<Prop>>, n: nat, limit: nat)
    requires Keyed(order, mapping, docs) && n <= |docs|
    ensures var sorted := Ordered(order, mapping, docs);
      FindPage(order, mapping, docs, limit, if n == 0 then Null else PkOf(mapping, sorted[n - 1]))
        == Take(sorted[n..], limit)
  {
    var sorted := Ordered(order, mapping, docs);
    OrderedKeyed(order, mapping, docs);
    if n > 0 {
      assert !Absent(PkOf(mapping, sorted[n - 1]));
      GreaterIsRest(order, mapping, sorted, n);
    } else {
      assert sorted[0..] == sorted;
    }
  }

  /** `streamPgRows`: OFFSET paging yields every row once, in order, for every batch size. */
  method StreamPgRows(order: Order, mapping: Mapping, rows: seq<seq<Prop>>, batchSize: nat)
    returns (out: seq<seq<Prop>>)
    requires batchSize >= 1
    ensures out == Ordered(order, mapping, rows)
  {
    ghost var sorted := Ordered(order, mapping, rows);
    var offset := 0;
    out := [];
    while true
      invariant offset <= |rows| && out == sorted[..offset]
      decreases |rows| - offset
    {
      PageExtends(sorted, offset, batchSize);
      var page := SelectPage(order, mapping, rows, batchSize, offset);
      if |page| == 0 {
        break;
      }
      out := out + page;
      offset := offset + |page|;
      if |page| < batchSize {
        break;
      }
    }
  }

  /** One keyset query, after the first `n` documents. */
  method FetchAfter(order: Order, mapping: Mapping, docs: seq<seq<Prop>>, limit: nat, lastId: Js, ghost n: nat)
    returns (page: seq<seq<Prop>>)
    requires Keyed(order, mapping, docs) && n <= |docs|
    requires lastId == if n == 0 then Null else PkOf(mapping, Ordered(order, mapping, docs)[n - 1])
    ensures page == Take(Ordered(order, mapping, docs)[n..], limit)
  {
    NextPage(order, mapping, docs, n, limit);
    page := FindPage(order, mapping, docs, limit, lastId);
  }

  /** `streamMongoDocs`: keyset paging yields the same. */
  method StreamMongoDocs(order: Order, mapping: Mapping, docs: seq<seq<Prop>>, batchSize: nat)
    returns (out: seq<seq<Prop>>)
    requires batchSize >= 1 && Keyed(order, mapping, docs)
    ensures out == Ordered(order, mapping, docs)
  {
    ghost var sorted := Ordered(order, mapping, docs);
    var lastId: Js := Null;
    out := [];
    while true
      invariant |out| <= |sorted| && out == sorted[..|out|]
      invariant lastId == if |out| == 0 then Null else PkOf(mapping, sorted[|out| - 1])
      decreases |sorted| - |out|
    {
      var page := FetchAfter(order, mapping, docs, batchSize, lastId, |out|);
      PageExtends(sorted, |out|, batchSize);
      if |page| == 0 {
        break;
      }
      out := out + page;
      lastId := PkOf(mapping, page[|page| - 1]);
      if |page| < batchSize {
        break;
      }
    }
    assert sorted[..|sorted|] == sorted;
  }

  // The lanes

  type RowMap = seq<Prop> -> Result<seq<Prop>, Failure>

  /** Maps the first `n` rows in turn; the first failure decides. */
  function MapFirst(f: RowMap, rows: seq<seq<Prop>>, n: nat): (r: Result<seq<seq<Prop>>, Failure>)
    requires n <= |rows|
    ensures r.Ok? ==> |r.value| == n
  {
    if n == 0 then Ok([])
    else
      var front := MapFirst(f, rows, n - 1);
      if front.Err? then front
      else
        var row := f(rows[n - 1]);
        if row.Err? then Err(row.error) else Ok(front.value + [row.value])
  }

  function MapAll(f: RowMap, rows: seq<seq<Prop>>): (r: Result<seq<seq<Prop>>, Failure>)
    ensures r.Ok? ==> |r.value| == |rows|
  {
    MapFirst(f, rows, |rows|)
  }

  function Documents(env: Env, mapping: Mapping): RowMap {
    (row: seq<Prop>) => ToDoc(env, mapping, row)
  }

  /** The documents of all rows, or the first failure. */
  function ToDocs(env: Env, mapping: Mapping, rows: seq<seq<Prop>>): (r: Result<seq<seq<Prop>>, Failure>)
    ensures r.Ok? ==> |r.value| == |rows|
  {
    MapAll(Documents(env, mapping), rows)
  }

  lemma {:induction false} MapFirstIs(f: RowMap, rows: seq<seq<Prop>>, n: nat)
    requires n <= |rows|
    ensures MapFirst(f, rows, n).Ok? <==> forall i :: 0 <= i < n ==> f(rows[i]).Ok?
    ensures MapFirst(f, rows, n).Ok? ==> forall i :: 0 <= i < n ==> f(rows[i]) == Ok(MapFirst(f, rows, n).value[i])
  {
    if n > 0 {
      MapFirstIs(f, rows, n - 1);
    }
  }

  /** The first failing row decides the failure of all that follow. */
  lemma {:induction false} MapFirstFails(f: RowMap, rows: seq<seq<Prop>>, n: nat, m: nat)
    requires n <= m <= |rows| && MapFirst(f, rows, n).Err?
    ensures MapFirst(f, rows, m) == MapFirst(f, rows, n)
  {
    if n < m {
      MapFirstFails(f, rows, n, m - 1);
    }
  }

  datatype Lane = Lane(digest: JsString, count: nat)

  function Digest(env: Env, sha: JsString -> JsString, docs: seq<seq<Prop>>): JsString
    requires PlainDocs(docs)
  {
    sha(Lines(CanonicalDocs(env, docs)))
  }

  lemma {:induction false} LinesAppend(vs: seq<Json.Value>, v: Json.Value)
    ensures Lines(vs + [v]) == Lines(vs) + Line(v)
  {
    if vs == [] {
      assert (vs + [v])[1..] == [];
      assert Line(v) + [] == Line(v);
    } else {
      LinesAppend(vs[1..], v);
      assert (vs + [v])[1..] == vs[1..] + [v] && (vs + [v])[0] == vs[0];
      Associate(Line(vs[0]), Lines(vs[1..]), Line(v));
    }
  }

  lemma FeedOne(env: Env, docs: seq<seq<Prop>>, n: nat)
    requires PlainDocs(docs) && n < |docs|
    ensures Lines(CanonicalDocs(env, docs[..n + 1]))
         == Lines(CanonicalDocs(env, docs[..n])) + Line(Canonicalize(env, Obj(docs[n])))
  {
    LinesAppend(CanonicalDocs(env, docs[..n]), Canonicalize(env, Obj(docs[n])));
    assert CanonicalDocs(env, docs[..n + 1]) == CanonicalDocs(env, docs[..n]) + [Canonicalize(env, Obj(docs[n]))];
  }

  /** Feeding a hash one document at a time hashes the stream of lines. */
  method HashDocs(env: Env, sha: JsString -> JsString, docs: seq<seq<Prop>>) returns (lane: Lane)
    requires PlainDocs(docs)
    ensures lane == Lane(Digest(env, sha, docs), |docs|)
  {
    var fed: JsString := [];
    var count := 0;
    while count < |docs|
      invariant count <= |docs| && fed == Lines(CanonicalDocs(env, docs[..count]))
    {
      FeedOne(env, docs, count);
      fed := fed + Line(Canonicalize(env, Obj(docs[count])));
      count := count + 1;
    }
    assert docs[..count] == docs;
    lane := Lane(sha(fed), count);
  }

  datatype VerifyResult = VerifyResult(countMatch: bool, checksumMatch: Option<bool>)

  /**
   * Counts decide first; with equal counts the checksums are compared, unless a row does
   * not map, which fails the verification.
   */
  ghost predicate Verified(env: Env, sha: JsString -> JsString, mapping: Mapping, pgOrder: Order, mongoOrder: Order,
                           rows: seq<seq<Prop>>, docs: seq<seq<Prop>>, r: Result<VerifyResult, Failure>)
    requires PlainDocs(docs)
    requires ToDocs(env, mapping, Ordered(pgOrder, mapping, rows)).Ok? ==>
      PlainDocs(ToDocs(env, mapping, Ordered(pgOrder, mapping, rows)).value)
  {
    var mapped := ToDocs(env, mapping, Ordered(pgOrder, mapping, rows));
    if |rows| != |docs| then r == Ok(VerifyResult(false, None))
    else if mapped.Err? then r == Err(mapped.error)
    else
      && PlainDocs(Ordered(mongoOrder, mapping, docs))
      && r == Ok(VerifyResult(true, Some(
           Digest(env, sha, mapped.value) == Digest(env, sha, Ordered(mongoOrder, mapping, docs)))))
  }

  /** `verifyCollection`. */
  method VerifyCollection(env: Env, sha: JsString -> JsString, mapping: Mapping, pgOrder: Order, mongoOrder: Order,
                          rows: seq<seq<Prop>>, docs: seq<seq<Prop>>, batchSize: nat)
    returns (r: Result<VerifyResult, Failure>)
    requires batchSize >= 1 && Keyed(mongoOrder, mapping, docs) && PlainDocs(docs)
    requires ToDocs(env, mapping, Ordered(pgOrder, mapping, rows)).Ok? ==>
      PlainDocs(ToDocs(env, mapping, Ordered(pgOrder, mapping, rows)).value)
    ensures Verified(env, sha, mapping, pgOrder, mongoOrder, rows, docs, r)
  {
    if |rows| != |docs| {
      return Ok(VerifyResult(false, None));
    }
    var sorted := StreamPgRows(pgOrder, mapping, rows, batchSize);
    var mapped: seq<seq<Prop>> := [];
    for i := 0 to |sorted|
      invariant MapFirst(Documents(env, mapping), sorted, i) == Ok(mapped)
    {
      var doc := PgRowToMongoDoc(env, mapping, sorted[i]);
      if doc.Err? {
        MapFirstFails(Documents(env, mapping), sorted, i + 1, |sorted|);
        return Err(doc.error);
      }
      mapped := mapped + [doc.value.0];
    }
    var pgLane := HashDocs(env, sha, mapped);
    var streamed := StreamMongoDocs(mongoOrder, mapping, docs, batchSize);
    OrderedPlain(mongoOrder, mapping, docs);
    var mongoLane := HashDocs(env, sha, streamed);
    return Ok(VerifyResult(true, Some(pgLane.digest == mongoLane.digest)));
  }

  lemma OrderedPlain(order: Order, mapping: Mapping, docs: seq<seq<Prop>>)
    requires PlainDocs(docs)
    ensures PlainDocs(Ordered(order, mapping, docs))
  {
    var sorted := Ordered(order, mapping, docs);
    SortPermutes(ByPk(order, mapping), docs);
    SameMembers(sorted, docs);
    forall i | 0 <= i < |sorted| ensures PlainDoc(sorted[i]) {
      assert sorted[i] in docs;
    }
  }

  /**
   * The checksums of two lanes match exactly when the lanes are equal document by document
   * in canonical form, unless SHA-256 collides on these two streams.
   */
  lemma ChecksumsMatchIff(env: Env, sha: JsString -> JsString, a: seq<seq<Prop>>, b: seq<seq<Prop>>)
    requires PlainDocs(a) && PlainDocs(b)
    requires Digest(env, sha, a) == Digest(env, sha, b) ==> Lines(CanonicalDocs(env, a)) == Lines(CanonicalDocs(env, b))
    ensures Digest(env, sha, a) == Digest(env, sha, b) <==>
      |a| == |b| && forall i :: 0 <= i < |a| ==> Canonicalize(env, Obj(a[i])) == Canonicalize(env, Obj(b[i]))
  {
    LinesInjective(CanonicalDocs(env, a), CanonicalDocs(env, b));
    if |a| == |b| && forall i :: 0 <= i < |a| ==> Canonicalize(env, Obj(a[i])) == Canonicalize(env, Obj(b[i])) {
      assert CanonicalDocs(env, a) == CanonicalDocs(env, b);
    }
  }
}
