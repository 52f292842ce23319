/**
 * The cutover copy loops: PostgreSQL to MongoDB by OFFSET paging and upserts, MongoDB to
 * PostgreSQL by keyset paging and multi-row inserts. Both write with "insert if absent".
 */
module Cutover {
  import opened Wrappers
  import opened Text
  import opened Sorting
  import opened Mappers
  import opened Checksums

  type Doc = seq<Prop>

  // Insert if absent

  predicate HasPk(mapping: Mapping, table: seq<Doc>, pk: Js) {
    exists i :: 0 <= i < |table| && PkOf(mapping, table[i]) == pk
  }

  /** How a store keeps the `n`th inserted item. */
  type Store = (Doc, nat) -> Doc

  function Insert(store: Store, mapping: Mapping, table: seq<Doc>, item: Doc): seq<Doc> {
    if HasPk(mapping, table, PkOf(mapping, item)) then table else table + [store(item, |table|)]
  }

  function InsertAll(store: Store, mapping: Mapping, table: seq<Doc>, items: seq<Doc>): seq<Doc> {
    if items == [] then table
    else
      var n := |items| - 1;
      Insert(store, mapping, InsertAll(store, mapping, table, items[..n]), items[n])
  }

  ghost predicate KeepsPks(store: Store, mapping: Mapping, items: seq<Doc>) {
    forall i, n: nat :: 0 <= i < |items| ==> PkOf(mapping, store(items[i], n)) == PkOf(mapping, items[i])
  }

  /** Row `i` of the result is a stored item whose primary key was absent before. */
  ghost predicate Copied(store: Store, mapping: Mapping, table: seq<Doc>, items: seq<Doc>, result: seq<Doc>, i: nat) {
    && i < |result|
    && exists j ::
         0 <= j < |items| && result[i] == store(items[j], i) && !HasPk(mapping, table, PkOf(mapping, items[j]))
  }

  lemma HasPkIn(mapping: Mapping, table: seq<Doc>, more: seq<Doc>, pk: Js)
    requires table <= more && HasPk(mapping, table, pk)
    ensures HasPk(mapping, more, pk)
  {
    var i :| 0 <= i < |table| && PkOf(mapping, table[i]) == pk;
    assert PkOf(mapping, more[i]) == pk;
  }

  lemma CopiedStays(store: Store, mapping: Mapping, table: seq<Doc>, items: seq<Doc>, before: seq<Doc>,
      result: seq<Doc>, i: nat)
    requires items != [] && Copied(store, mapping, table, items[..|items| - 1], before, i) && before <= result
    ensures Copied(store, mapping, table, items, result, i)
  {
    var front := items[..|items| - 1];
    var j :| 0 <= j < |front| && before[i] == store(front[j], i) && !HasPk(mapping, table, PkOf(mapping, front[j]));
    assert front[j] == items[j];
  }

  /**
   * Existing entries are untouched, every item's key is present afterwards, and whatever is
   * new is an item whose key was absent.
   */
  lemma {:induction false} InsertAllKeeps(store: Store, mapping: Mapping, table: seq<Doc>, items: seq<Doc>)
    requires KeepsPks(store, mapping, items)
    ensures var result := InsertAll(store, mapping, table, items);
      && table <= result
      && |result| <= |table| + |items|
      && (forall j :: 0 <= j < |items| ==> HasPk(mapping, result, PkOf(mapping, items[j])))
      && (forall i :: |table| <= i < |result| ==> Copied(store, mapping, table, items, result, i))
  {
    if items != [] {
      var n := |items| - 1;
      InsertAllKeeps(store, mapping, table, items[..n]);
      var before := InsertAll(store, mapping, table, items[..n]);
      var result := Insert(store, mapping, before, items[n]);
      if |result| > |before| {
        assert PkOf(mapping, result[|before|]) == PkOf(mapping, items[n]);
        if HasPk(mapping, table, PkOf(mapping, items[n])) {
          HasPkIn(mapping, table, before, PkOf(mapping, items[n]));
        }
      }
      forall j | 0 <= j < |items| ensures HasPk(mapping, result, PkOf(mapping, items[j])) {
        if j < n {
          assert items[..n][j] == items[j];
          HasPkIn(mapping, before, result, PkOf(mapping, items[j]));
        }
      }
      forall i | |table| <= i < |result| ensures Copied(store, mapping, table, items, result, i) {
        if i < |before| {
          CopiedStays(store, mapping, table, items, before, result, i);
        }
      }
    }
  }

  lemma {:induction false} InsertAllAppend(store: Store, mapping: Mapping, table: seq<Doc>, a: seq<Doc>, b: seq<Doc>)
    ensures InsertAll(store, mapping, table, a + b) == InsertAll(store, mapping, InsertAll(store, mapping, table, a), b)
  {
    if b == [] {
      assert a + b == a;
    } else {
      var n := |b| - 1;
      InsertAllAppend(store, mapping, table, a, b[..n]);
      assert (a + b)[..|a + b| - 1] == a + b[..n];
    }
  }

  lemma {:induction false} InsertAllNone(store: Store, mapping: Mapping, table: seq<Doc>, items: seq<Doc>)
    requires forall j :: 0 <= j < |items| ==> HasPk(mapping, table, PkOf(mapping, items[j]))
    ensures InsertAll(store, mapping, table, items) == table
  {
    if items != [] {
      InsertAllNone(store, mapping, table, items[..|items| - 1]);
    }
  }

  /**
   * A copy that stopped after any number of items and is run again ends where an
   * uninterrupted one does; after a complete run (`k == |items|`) a second adds nothing.
   */
  lemma CopyResumes(store: Store, mapping: Mapping, table: seq<Doc>, items: seq<Doc>, k: nat)
    requires KeepsPks(store, mapping, items) && k <= |items|
    ensures InsertAll(store, mapping, InsertAll(store, mapping, table, items[..k]), items)
         == InsertAll(store, mapping, table, items)
  {
    var partial := InsertAll(store, mapping, table, items[..k]);
    assert items == items[..k] + items[k..];
    assert forall i :: 0 <= i < k ==> items[..k][i] == items[i];
    InsertAllKeeps(store, mapping, table, items[..k]);
    InsertAllNone(store, mapping, partial, items[..k]);
    InsertAllAppend(store, mapping, partial, items[..k], items[k..]);
    InsertAllAppend(store, mapping, table, items[..k], items[k..]);
  }

  predicate DistinctPks(mapping: Mapping, table: seq<Doc>) {
    forall i, j :: 0 <= i < j < |table| ==> PkOf(mapping, table[i]) != PkOf(mapping, table[j])
  }

  /** Primary keys stay unique, whatever the items. */
  lemma {:induction false} InsertAllDistinct(store: Store, mapping: Mapping, table: seq<Doc>, items: seq<Doc>)
    requires KeepsPks(store, mapping, items) && DistinctPks(mapping, table)
    ensures DistinctPks(mapping, InsertAll(store, mapping, table, items))
  {
    if items != [] {
      InsertAllDistinct(store, mapping, table, items[..|items| - 1]);
    }
  }

  /** An empty target receives every item, in order. */
  lemma {:induction false} OntoEmpty(store: Store, mapping: Mapping, items: seq<Doc>)
    requires KeepsPks(store, mapping, items) && DistinctPks(mapping, items)
    ensures var result := InsertAll(store, mapping, [], items);
      |result| == |items| && forall i :: 0 <= i < |items| ==> result[i] == store(items[i], i)
  {
    if items != [] {
      var n := |items| - 1;
      OntoEmpty(store, mapping, items[..n]);
      assert forall i :: 0 <= i < n ==> items[..n][i] == items[i];
    }
  }

  // Rows that map

  /** `page` is the stretch of `source` from position `n`. */
  predicate IsPage(source: seq<Doc>, n: nat, page: seq<Doc>) {
    n + |page| <= |source| && forall i :: 0 <= i < |page| ==> page[i] == source[n + i]
  }

  lemma {:induction false} MapPages(f: RowMap, source: seq<Doc>, n: nat, page: seq<Doc>, k: nat)
    requires IsPage(source, n, page) && k <= |page| && MapFirst(f, source, n).Ok?
    ensures MapFirst(f, source, n + k)
         == if MapFirst(f, page, k).Err? then MapFirst(f, page, k)
            else Ok(MapFirst(f, source, n).value + MapFirst(f, page, k).value)
  {
    if k == 0 {
      assert MapFirst(f, source, n).value + [] == MapFirst(f, source, n).value;
    } else {
      MapPages(f, source, n, page, k - 1);
      assert page[k - 1] == source[n + k - 1];
      if MapFirst(f, page, k).Ok? {
        var x, y, z := MapFirst(f, source, n).value, MapFirst(f, page, k - 1).value, [f(page[k - 1]).value];
        assert (x + y) + z == x + (y + z);
      }
    }
  }

  /** How many of the first `n` rows lead without a failure. */
  function Mappable(f: RowMap, rows: seq<Doc>, n: nat): (m: nat)
    requires n <= |rows|
    ensures m <= n && MapFirst(f, rows, m).Ok?
  {
    if MapFirst(f, rows, n).Ok? then n else Mappable(f, rows, n - 1)
  }

  lemma {:induction false} MappableIs(f: RowMap, rows: seq<Doc>, n: nat, k: nat)
    requires k <= n <= |rows|
    ensures MapFirst(f, rows, k).Ok? <==> k <= Mappable(f, rows, n)
  {
    if MapFirst(f, rows, n).Ok? {
      if MapFirst(f, rows, k).Err? {
        MapFirstFails(f, rows, k, n);
      }
    } else if k < n {
      MappableIs(f, rows, n - 1, k);
    }
  }

  function FirstOfBatch(i: nat, size: nat): (n: nat)
    requires size >= 1
    ensures n <= i
  {
    assert i == i / size * size + i % size && i / size * size >= 0;
    i - i % size
  }

  lemma AtLeastOnce(k: int, size: nat)
    requires k >= 1
    ensures k * size >= size
  {
    assert (k - 1) * size >= 0;
  }

  lemma SameRemainder(p: int, d: nat, q: int, r: nat, size: nat)
    requires d < size && r < size && p * size + d == q * size + r
    ensures d == r
  {
    if p > q {
      AtLeastOnce(p - q, size);
    } else if p < q {
      AtLeastOnce(q - p, size);
    }
  }

  /** The rows in so many whole batches. */
  function Batches(pages: nat, size: nat): nat {
    if pages == 0 then 0 else Batches(pages - 1, size) + size
  }

  lemma {:induction false} BatchesTimes(pages: nat, size: nat)
    ensures Batches(pages, size) == pages * size
  {
    if pages > 0 {
      BatchesTimes(pages - 1, size);
    }
  }

  lemma FirstInBatch(pages: nat, size: nat, i: nat)
    requires Batches(pages, size) <= i < Batches(pages, size) + size
    ensures FirstOfBatch(i, size) == Batches(pages, size)
  {
    Remainder(pages, size, i - Batches(pages, size));
  }

  lemma Remainder(pages: nat, size: nat, d: nat)
    requires d < size
    ensures (Batches(pages, size) + d) % size == d
  {
    BatchesTimes(pages, size);
    var m := pages * size + d;
    SameRemainder(pages, d, m / size, m % size, size);
  }

  // Columns

  /** `Object.keys(row)`. */
  function Columns(row: Doc): (columns: seq<JsString>)
    ensures |columns| == |row|
  {
    if row == [] then [] else Columns(row[..|row| - 1]) + [row[|row| - 1].key]
  }

  lemma {:induction false} ColumnsAt(row: Doc)
    ensures forall i :: 0 <= i < |row| ==> Columns(row)[i] == row[i].key
  {
    if row != [] {
      ColumnsAt(row[..|row| - 1]);
    }
  }

  /** What is bound for a column: null when the row has no value for it. */
  function Bound(row: Doc, column: JsString): Js {
    var v := Lookup(row, column);
    if v.None? then Null else OrNull(v.value)
  }

  function Project(columns: seq<JsString>, row: Doc): (r: Doc)
    ensures |r| == |columns|
  {
    if columns == [] then []
    else
      var n := |columns| - 1;
      Project(columns[..n], row) + [Prop(columns[n], Bound(row, columns[n]))]
  }

  lemma {:induction false} ProjectAt(columns: seq<JsString>, row: Doc)
    ensures forall i :: 0 <= i < |columns| ==> Project(columns, row)[i] == Prop(columns[i], Bound(row, columns[i]))
  {
    if columns != [] {
      ProjectAt(columns[..|columns| - 1], row);
    }
  }

  /** The columns of every row are those of the first row of its batch. */
  function ProjectedFirst(rows: seq<Doc>, size: nat, n: nat): (r: seq<Doc>)
    requires size >= 1 && n <= |rows|
    ensures |r| == n
  {
    if n == 0 then []
    else ProjectedFirst(rows, size, n - 1) + [Project(Columns(rows[FirstOfBatch(n - 1, size)]), rows[n - 1])]
  }

  function Projected(rows: seq<Doc>, size: nat): (r: seq<Doc>)
    requires size >= 1
    ensures |r| == |rows|
  {
    ProjectedFirst(rows, size, |rows|)
  }

  lemma {:induction false} ProjectedAt(rows: seq<Doc>, size: nat, n: nat)
    requires size >= 1 && n <= |rows|
    ensures forall i :: 0 <= i < n ==>
      ProjectedFirst(rows, size, n)[i] == Project(Columns(rows[FirstOfBatch(i, size)]), rows[i])
  {
    if n > 0 {
      ProjectedAt(rows, size, n - 1);
    }
  }

  function ProjectPage(page: seq<Doc>): (r: seq<Doc>)
    requires page != []
    ensures |r| == |page| && forall i :: 0 <= i < |page| ==> r[i] == Project(Columns(page[0]), page[i])
  {
    seq(|page|, i requires 0 <= i < |page| => Project(Columns(page[0]), page[i]))
  }

  lemma ProjectedAppend(done: seq<Doc>, page: seq<Doc>, size: nat, pages: nat)
    requires 0 < |page| <= size && |done| == Batches(pages, size)
    ensures Projected(done + page, size) == Projected(done, size) + ProjectPage(page)
  {
    ProjectedAt(done + page, size, |done + page|);
    ProjectedAt(done, size, |done|);
    forall i | 0 <= i < |done + page|
      ensures Projected(done + page, size)[i] == (Projected(done, size) + ProjectPage(page))[i]
    {
      if i >= |done| {
        FirstInBatch(pages, size, i);
        assert (done + page)[FirstOfBatch(i, size)] == page[0];
      } else {
        assert (done + page)[FirstOfBatch(i, size)] == done[FirstOfBatch(i, size)];
      }
    }
  }

  // One copy direction

  /** A batch is written as it is, or with the columns of its first row only. */
  datatype Shape = AsIs | FirstRow(size: nat)

  function Shaped(shape: Shape, rows: seq<Doc>): seq<Doc> {
    if shape.FirstRow? && shape.size > 0 then Projected(rows, shape.size) else rows
  }

  /** How a row is mapped (`f`), what mapped rows are written as, and how the target keeps a row. */
  datatype Copy = Copy(f: RowMap, shape: Shape, store: Store)

  /** The target `table` once the first `n` rows are copied; none when one of them does not map. */
  function After(copy: Copy, mapping: Mapping, table: seq<Doc>, source: seq<Doc>, n: nat): Option<seq<Doc>>
    requires n <= |source|
  {
    var rows := MapFirst(copy.f, source, n);
    if rows.Err? then None else Some(InsertAll(copy.store, mapping, table, Shaped(copy.shape, rows.value)))
  }

  lemma NothingYet(copy: Copy, mapping: Mapping, table: seq<Doc>, source: seq<Doc>)
    ensures After(copy, mapping, table, source, 0) == Some(table)
  {
    assert Shaped(copy.shape, []) == [];
  }

  lemma WholeBatch(copy: Copy, mapping: Mapping, table: seq<Doc>, source: seq<Doc>, n: nat, docs: seq<Doc>,
                   page: seq<Doc>, items: seq<Doc>)
    requires IsPage(source, n, page) && After(copy, mapping, table, source, n) == Some(docs)
    requires MapAll(copy.f, page).Ok?
    requires var done := MapFirst(copy.f, source, n).value;
      Shaped(copy.shape, done + MapAll(copy.f, page).value) == Shaped(copy.shape, done) + items
    ensures After(copy, mapping, table, source, n + |page|) == Some(InsertAll(copy.store, mapping, docs, items))
  {
    MapPages(copy.f, source, n, page, |page|);
    var done, more := MapFirst(copy.f, source, n).value, MapAll(copy.f, page).value;
    assert MapFirst(copy.f, source, n + |page|) == Ok(done + more);
    InsertAllAppend(copy.store, mapping, table, Shaped(copy.shape, done), items);
  }

  /** How many rows a failed copy has written: the whole batches before the first row that does not map. */
  function Written(f: RowMap, rows: seq<Doc>, size: nat): (n: nat)
    requires size >= 1
    ensures n <= |rows|
  {
    FirstOfBatch(Mappable(f, rows, |rows|), size)
  }

  datatype Counts = Counts(copied: nat, skipped: nat)

  /**
   * All rows are written, each once, or the copy stops after the last whole batch before
   * the first row that does not map.
   */
  ghost predicate Finished(copy: Copy, mapping: Mapping, table: seq<Doc>, source: seq<Doc>, batchSize: nat,
                           r: Result<Counts, Failure>, docs: seq<Doc>)
    requires batchSize >= 1
  {
    match r
    case Ok(counts) =>
      && After(copy, mapping, table, source, |source|) == Some(docs)
      && counts.copied == |docs| - |table|
      && counts.copied + counts.skipped == |source|
    case Err(error) =>
      && MapAll(copy.f, source) == Err(error)
      && After(copy, mapping, table, source, Written(copy.f, source, batchSize)) == Some(docs)
  }

  lemma Complete(copy: Copy, mapping: Mapping, table: seq<Doc>, source: seq<Doc>, size: nat, counts: Counts,
      docs: seq<Doc>)
    requires size >= 1 && After(copy, mapping, table, source, |source|) == Some(docs)
    requires counts.copied == |docs| - |table| && counts.copied + counts.skipped == |source|
    ensures Finished(copy, mapping, table, source, size, Ok(counts), docs)
  {
  }

  /** When a page does not map, the rows before it are whole batches. */
  lemma FailsInPage(copy: Copy, mapping: Mapping, table: seq<Doc>, source: seq<Doc>, size: nat, offset: nat,
      docs: seq<Doc>,
                    page: seq<Doc>, pages: nat)
    requires IsPage(source, offset, page) && After(copy, mapping, table, source, offset) == Some(docs)
    requires 0 < |page| <= size && offset == Batches(pages, size)
    requires MapAll(copy.f, page).Err?
    ensures Finished(copy, mapping, table, source, size, Err(MapAll(copy.f, page).error), docs)
  {
    var f, next := copy.f, offset + |page|;
    MapPages(f, source, offset, page, |page|);
    MapFirstFails(f, source, next, |source|);
    MappableIs(f, source, |source|, offset);
    MappableIs(f, source, |source|, next);
    FirstInBatch(pages, size, Mappable(f, source, |source|));
  }

  // PostgreSQL to MongoDB

  /** MongoDB puts its surrogate in front of a document that has none. */
  function Stored(doc: Doc, id: nat): Doc {
    if Has(doc, ID_KEY) then doc else [Prop(ID_KEY, ObjectId(id))] + doc
  }

  lemma {:induction false} LookupHas(props: Doc, key: JsString)
    ensures Lookup(props, key).Some? <==> Has(props, key)
  {
    if props != [] {
      LookupHas(props[1..], key);
      if Has(props, key) && props[0].key != key {
        var i :| 0 <= i < |props| && props[i].key == key;
        assert props[1..][i - 1].key == key;
      }
    }
  }

  predicate Present(mapping: Mapping, docs: seq<Doc>) {
    forall i :: 0 <= i < |docs| ==> PkOf(mapping, docs[i]) != Undefined
  }

  lemma StoredPk(mapping: Mapping, doc: Doc, n: nat)
    requires PkOf(mapping, doc) != Undefined
    ensures PkOf(mapping, Stored(doc, n)) == PkOf(mapping, doc)
  {
    LookupHas(doc, mapping.pkColumn);
    assert ([Prop(ID_KEY, ObjectId(n))] + doc)[1..] == doc;
  }

  lemma StoredKeepsPks(mapping: Mapping, docs: seq<Doc>)
    requires Present(mapping, docs)
    ensures KeepsPks(Stored, mapping, docs)
  {
    forall i, n: nat | 0 <= i < |docs| ensures PkOf(mapping, Stored(docs[i], n)) == PkOf(mapping, docs[i]) {
      StoredPk(mapping, docs[i], n);
    }
  }

  function ToMongo(env: Env, mapping: Mapping): Copy {
    Copy(Documents(env, mapping), AsIs, Stored)
  }

  class MongoCollection {
    var docs: seq<Doc>

    constructor (docs: seq<Doc>)
      ensures this.docs == docs
    {
      this.docs := docs;
    }

    /** One `updateOne` with `$setOnInsert` and `upsert` per operation. */
    method BulkWrite(mapping: Mapping, ops: seq<Doc>) returns (upserted: nat, matched: nat)
      modifies this
      ensures docs == InsertAll(Stored, mapping, old(docs), ops)
      ensures upserted == |docs| - |old(docs)| && matched == |ops| - upserted
    {
      upserted, matched := 0, 0;
      for i := 0 to |ops|
        invariant docs == InsertAll(Stored, mapping, old(docs), ops[..i])
        invariant upserted == |docs| - |old(docs)| && matched == i - upserted
      {
        assert ops[..i + 1][..i] == ops[..i];
        if HasPk(mapping, docs, PkOf(mapping, ops[i])) {
          matched := matched + 1;
        } else {
          docs := docs + [Stored(ops[i], |docs|)];
          upserted := upserted + 1;
        }
      }
      assert ops[..|ops|] == ops;
    }
  }

  /** The documents of one page. */
  method MapPage(env: Env, mapping: Mapping, rows: seq<Doc>) returns (r: Result<seq<Doc>, Failure>)
    ensures r == MapAll(Documents(env, mapping), rows)
  {
    var ops: seq<Doc> := [];
    for i := 0 to |rows|
      invariant MapFirst(Documents(env, mapping), rows, i) == Ok(ops)
    {
      var doc := PgRowToMongoDoc(env, mapping, rows[i]);
      if doc.Err? {
        MapFirstFails(Documents(env, mapping), rows, i + 1, |rows|);
        return Err(doc.error);
      }
      ops := ops + [doc.value.0];
    }
    return Ok(ops);
  }

  /** One OFFSET query: the rows after the first `offset`. */
  method FetchRows(mapping: Mapping, order: Order, rows: seq<Doc>, limit: nat, offset: nat, ghost source: seq<Doc>)
    returns (page: seq<Doc>)
    requires limit >= 1 && source == Ordered(order, mapping, rows) && offset <= |source|
    ensures IsPage(source, offset, page) && |page| <= limit
    ensures |page| < limit ==> offset + |page| == |source|
  {
    PageExtends(source, offset, limit);
    page := SelectPage(order, mapping, rows, limit, offset);
  }

  /** One round of the loop: a page that does not map writes nothing and ends the copy. */
  method WriteDocs(env: Env, mapping: Mapping, coll: MongoCollection, page: seq<Doc>, ghost table: seq<Doc>,
                   ghost source: seq<Doc>, ghost offset: nat, ghost pages: nat, ghost batchSize: nat)
    returns (r: Result<Counts, Failure>)
    requires 0 < |page| <= batchSize && IsPage(source, offset, page) && offset == Batches(pages, batchSize)
    requires After(ToMongo(env, mapping), mapping, table, source, offset) == Some(coll.docs)
    modifies coll
    ensures r.Err? ==> Finished(ToMongo(env, mapping), mapping, table, source, batchSize, r, coll.docs)
    ensures r.Ok? ==> After(ToMongo(env, mapping), mapping, table, source, offset + |page|) == Some(coll.docs)
    ensures r.Ok? ==> r.value.copied == |coll.docs| - |old(coll.docs)| && r.value.copied + r.value.skipped == |page|
  {
    var ops := MapPage(env, mapping, page);
    if ops.Err? {
      FailsInPage(ToMongo(env, mapping), mapping, table, source, batchSize, offset, coll.docs, page, pages);
      return Err(ops.error);
    }
    WholeBatch(ToMongo(env, mapping), mapping, table, source, offset, coll.docs, page, ops.value);
    var upserted, matched := coll.BulkWrite(mapping, ops.value);
    return Ok(Counts(upserted, matched));
  }

  /** `tables` are the target after each number of rows, known by their values only. */
  ghost predicate AreTables(tables: seq<Option<seq<Doc>>>, copy: Copy, mapping: Mapping, before: seq<Doc>,
      source: seq<Doc>) {
    && |tables| == |source| + 1
    && forall n: nat {:trigger After(copy, mapping, before, source, n)} ::
         n <= |source| ==> tables[n] == After(copy, mapping, before, source, n)
  }

  method NextTable(env: Env, mapping: Mapping, coll: MongoCollection, page: seq<Doc>, ghost before: seq<Doc>,
      ghost source: seq<Doc>,
                   ghost offset: nat, ghost pages: nat, ghost batchSize: nat, ghost tables: seq<Option<seq<Doc>>>)
    returns (r: Result<Counts, Failure>)
    requires 0 < |page| <= batchSize && IsPage(source, offset, page) && offset == Batches(pages, batchSize)
    requires AreTables(tables, ToMongo(env, mapping), mapping, before, source) && tables[offset] == Some(coll.docs)
    modifies coll
    ensures r.Err? ==> Finished(ToMongo(env, mapping), mapping, before, source, batchSize, r, coll.docs)
    ensures r.Ok? ==> tables[offset + |page|] == Some(coll.docs)
    ensures r.Ok? ==> r.value.copied == |coll.docs| - |old(coll.docs)| && r.value.copied + r.value.skipped == |page|
  {
    assert tables[offset] == After(ToMongo(env, mapping), mapping, before, source, offset);
    r := WriteDocs(env, mapping, coll, page, before, source, offset, pages, batchSize);
  }

  method CopyRows(env: Env, mapping: Mapping, order: Order, rows: seq<Doc>, coll: MongoCollection, batchSize: nat,
                  ghost source: seq<Doc>, ghost tables: seq<Option<seq<Doc>>>)
    returns (r: Result<Counts, Failure>)
    requires batchSize >= 1 && source == Ordered(order, mapping, rows)
    requires AreTables(tables, ToMongo(env, mapping), mapping, coll.docs, source) && tables[0] == Some(coll.docs)
    modifies coll
    ensures r.Err? ==> Finished(ToMongo(env, mapping), mapping, old(coll.docs), source, batchSize, r, coll.docs)
    ensures r.Ok? ==> tables[|source|] == Some(coll.docs)
    ensures r.Ok? ==> r.value.copied == |coll.docs| - |old(coll.docs)| && r.value.copied + r.value.skipped == |source|
  {
    ghost var before, pages := coll.docs, 0;
    var copied: nat, skipped: nat, offset: nat := 0, 0, 0;
    while true
      invariant offset <= |source| && (offset < |source| ==> offset == Batches(pages, batchSize))
      invariant tables[offset] == Some(coll.docs)
      invariant copied == |coll.docs| - |before| && copied + skipped == offset
      decreases |source| - offset
    {
      var page := FetchRows(mapping, order, rows, batchSize, offset, source);
      if |page| == 0 {
        break;
      }
      var counts := NextTable(env, mapping, coll, page, before, source, offset, pages, batchSize, tables);
      if counts.Err? {
        return counts;
      }
      copied := copied + counts.value.copied;
      skipped := skipped + counts.value.skipped;
      offset := offset + |page|;
      pages := pages + 1;
      if |page| < batchSize {
        break;
      }
    }
    return Ok(Counts(copied, skipped));
  }

  /** `copyPgToMongo`, in primary-key order, for every batch size. */
  method CopyPgToMongo(env: Env, mapping: Mapping, order: Order, rows: seq<Doc>, coll: MongoCollection, batchSize: nat)
    returns (r: Result<Counts, Failure>)
    requires batchSize >= 1
    modifies coll
    ensures Finished(ToMongo(env, mapping), mapping, old(coll.docs), Ordered(order, mapping, rows), batchSize, r,
      coll.docs)
  {
    ghost var copy, source, before := ToMongo(env, mapping), Ordered(order, mapping, rows), coll.docs;
    ghost var tables := seq(|source| + 1, n requires 0 <= n <= |source| => After(copy, mapping, before, source, n));
    NothingYet(copy, mapping, before, source);
    r := CopyRows(env, mapping, order, rows, coll, batchSize, source, tables);
    if r.Ok? {
      assert tables[|source|] == After(copy, mapping, before, source, |source|);
      Complete(copy, mapping, before, source, batchSize, r.value, coll.docs);
    }
  }

  // MongoDB to PostgreSQL

  function RowsOf(env: Env, mapping: Mapping): RowMap {
    (doc: Doc) => ToRow(env, mapping, doc)
  }

  function Kept(row: Doc, n: nat): Doc {
    row
  }

  function ToPg(env: Env, mapping: Mapping, size: nat): Copy
    requires size >= 1
  {
    Copy(RowsOf(env, mapping), FirstRow(size), Kept)
  }

  /** `copy` is the direction to PostgreSQL, the row mapper known by its values only. */
  ghost predicate IsToPg(copy: Copy, env: Env, mapping: Mapping, size: nat) {
    && (forall doc: Doc {:trigger ToRow(env, mapping, doc)} :: copy.f(doc) == ToRow(env, mapping, doc))
    && copy.shape == FirstRow(size)
    && copy.store == Kept
  }

  class PgTable {
    var rows: seq<Doc>

    constructor (rows: seq<Doc>)
      ensures this.rows == rows
    {
      this.rows := rows;
    }

    /** `INSERT ... VALUES ... ON CONFLICT (pk) DO NOTHING`; returns the row count. */
    method InsertRows(mapping: Mapping, values: seq<Doc>) returns (inserted: nat)
      modifies this
      ensures rows == InsertAll(Kept, mapping, old(rows), values)
      ensures inserted == |rows| - |old(rows)| && inserted <= |values|
    {
      inserted := 0;
      for i := 0 to |values|
        invariant rows == InsertAll(Kept, mapping, old(rows), values[..i])
        invariant inserted == |rows| - |old(rows)| && inserted <= i
      {
        assert values[..i + 1][..i] == values[..i];
        if !HasPk(mapping, rows, PkOf(mapping, values[i])) {
          rows := rows + [values[i]];
          inserted := inserted + 1;
        }
      }
      assert values[..|values|] == values;
    }
  }

  /** The rows of one page of documents. */
  method UnmapPage(env: Env, mapping: Mapping, docs: seq<Doc>, ghost f: RowMap) returns (r: Result<seq<Doc>, Failure>)
    requires forall doc: Doc {:trigger ToRow(env, mapping, doc)} :: f(doc) == ToRow(env, mapping, doc)
    ensures r == MapAll(f, docs)
  {
    var mapped: seq<Doc> := [];
    for i := 0 to |docs|
      invariant MapFirst(f, docs, i) == Ok(mapped)
    {
      var row := MongoDocToPgRow(env, mapping, docs[i]);
      if row.Err? {
        MapFirstFails(f, docs, i + 1, |docs|);
        return Err(row.error);
      }
      mapped := mapped + [row.value.0];
    }
    return Ok(mapped);
  }

  /** The bind values of a page, column by column. */
  method BindValues(mapped: seq<Doc>) returns (values: seq<Doc>)
    requires mapped != []
    ensures values == ProjectPage(mapped)
  {
    var columns := Columns(mapped[0]);
    values := [];
    for i := 0 to |mapped|
      invariant values == ProjectPage(mapped)[..i]
    {
      var bound: Doc := [];
      for j := 0 to |columns|
        invariant bound == Project(columns[..j], mapped[i])
      {
        assert columns[..j + 1][..j] == columns[..j];
        var v := Lookup(mapped[i], columns[j]);
        bound := bound + [Prop(columns[j], if v.None? || v.value.Undefined? then Null else v.value)];
      }
      assert columns[..|columns|] == columns;
      values := values + [bound];
    }
  }

  /** A mapped document keeps its key column, so the first row of a page is never without columns. */
  lemma RowHasColumns(env: Env, mapping: Mapping, doc: Doc, f: RowMap)
    requires mapping.pkColumn != ID_KEY && !Absent(PkOf(mapping, doc)) && f(doc) == ToRow(env, mapping, doc)
    ensures f(doc).Ok? ==> |f(doc).value| > 0
  {
    LookupHas(doc, mapping.pkColumn);
    var i :| 0 <= i < |doc| && doc[i].key == mapping.pkColumn;
    WithoutIdStep(doc, i);
    WithoutIdPrefix(doc, i + 1);
    if ToRow(env, mapping, doc).Ok? {
      TraverseShape(Unmapper(env, mapping), WithoutId(doc));
    }
  }

  method WriteRows(env: Env, mapping: Mapping, table: PgTable, page: seq<Doc>, ghost before: seq<Doc>,
                   ghost source: seq<Doc>, ghost n: nat, ghost pages: nat, ghost batchSize: nat, ghost copy: Copy)
    returns (r: Result<Counts, Failure>)
    requires IsToPg(copy, env, mapping, batchSize)
    requires 0 < |page| <= batchSize && IsPage(source, n, page)
    requires After(copy, mapping, before, source, n) == Some(table.rows)
    requires n == Batches(pages, batchSize)
    requires mapping.pkColumn != ID_KEY && !Absent(PkOf(mapping, page[0]))
    modifies table
    ensures r.Err? ==> Finished(copy, mapping, before, source, batchSize, r, table.rows)
    ensures r.Ok? ==> After(copy, mapping, before, source, n + |page|) == Some(table.rows)
    ensures r.Ok? ==> r.value.copied == |table.rows| - |old(table.rows)| && r.value.copied + r.value.skipped == |page|
  {
    var mapped := UnmapPage(env, mapping, page, copy.f);
    if mapped.Err? {
      FailsInPage(copy, mapping, before, source, batchSize, n, table.rows, page, pages);
      return Err(mapped.error);
    }
    RowHasColumns(env, mapping, page[0], copy.f);
    MapFirstIs(copy.f, page, |page|);
    if |Columns(mapped.value[0])| == 0 {
      assert false;
    }
    var values := BindValues(mapped.value);
    ProjectedAppend(MapFirst(copy.f, source, n).value, mapped.value, batchSize, pages);
    WholeBatch(copy, mapping, before, source, n, table.rows, page, values);
    var inserted := table.InsertRows(mapping, values);
    return Ok(Counts(inserted, |page| - inserted));
  }

  /** The primary key of the `n`th document, from which the next page goes on. */
  function KeyOf(mapping: Mapping, source: seq<Doc>, n: nat): Js
    requires n <= |source|
  {
    if n == 0 then Null else PkOf(mapping, source[n - 1])
  }

  lemma PageKeyed(order: Order, mapping: Mapping, docs: seq<Doc>, n: nat, page: seq<Doc>)
    requires Keyed(order, mapping, docs) && IsPage(Ordered(order, mapping, docs), n, page)
    ensures |page| > 0 ==> !Absent(PkOf(mapping, page[0]))
  {
    OrderedKeyed(order, mapping, docs);
    if |page| > 0 {
      assert page[0] == Ordered(order, mapping, docs)[n];
    }
  }

  /** One keyset query after the first `n` documents, and the key to go on from. */
  method FetchDocs(mapping: Mapping, order: Order, docs: seq<Doc>, limit: nat, lastId: Js, ghost source: seq<Doc>,
      ghost n: nat)
    returns (page: seq<Doc>, next: Js)
    requires limit >= 1 && Keyed(order, mapping, docs) && source == Ordered(order, mapping, docs)
    requires n <= |source| && lastId == KeyOf(mapping, source, n)
    ensures IsPage(source, n, page) && |page| <= limit
    ensures |page| < limit ==> n + |page| == |source|
    ensures next == KeyOf(mapping, source, n + |page|)
    ensures |page| > 0 ==> !Absent(PkOf(mapping, page[0]))
  {
    PageExtends(source, n, limit);
    page := FetchAfter(order, mapping, docs, limit, lastId, n);
    PageKeyed(order, mapping, docs, n, page);
    next := if |page| == 0 then lastId else PkOf(mapping, page[|page| - 1]);
  }

  /** The target, and the key to go on from, after each number of rows. */
  datatype Stage = Stage(table: Option<seq<Doc>>, key: Js)

  function StageAt(copy: Copy, mapping: Mapping, before: seq<Doc>, source: seq<Doc>, n: nat): Stage
    requires n <= |source|
  {
    Stage(After(copy, mapping, before, source, n), KeyOf(mapping, source, n))
  }

  /** `stages` are these, known by their values only. */
  ghost predicate AreStages(stages: seq<Stage>, copy: Copy, mapping: Mapping, before: seq<Doc>, source: seq<Doc>) {
    && |stages| == |source| + 1
    && forall n: nat {:trigger StageAt(copy, mapping, before, source, n)} ::
         n <= |source| ==> stages[n] == StageAt(copy, mapping, before, source, n)
  }

  lemma StageIs(stages: seq<Stage>, copy: Copy, mapping: Mapping, before: seq<Doc>, source: seq<Doc>, n: nat)
    requires AreStages(stages, copy, mapping, before, source) && n <= |source|
    ensures stages[n].table == After(copy, mapping, before, source, n) && stages[n].key == KeyOf(mapping, source, n)
  {
    assert stages[n] == StageAt(copy, mapping, before, source, n);
  }

  /** Writes a page, with the stages at hand. */
  method WriteStage(env: Env, mapping: Mapping, table: PgTable, page: seq<Doc>, ghost before: seq<Doc>,
                    ghost source: seq<Doc>, ghost n: nat, ghost pages: nat, ghost batchSize: nat, ghost copy: Copy,
                    ghost stages: seq<Stage>)
    returns (r: Result<Counts, Failure>)
    requires IsToPg(copy, env, mapping, batchSize) && AreStages(stages, copy, mapping, before, source)
    requires 0 < |page| <= batchSize && IsPage(source, n, page)
    requires stages[n].table == Some(table.rows) && n == Batches(pages, batchSize)
    requires mapping.pkColumn != ID_KEY && !Absent(PkOf(mapping, page[0]))
    modifies table
    ensures r.Err? ==> Finished(copy, mapping, before, source, batchSize, r, table.rows)
    ensures r.Ok? ==> stages[n + |page|].table == Some(table.rows)
    ensures r.Ok? ==> r.value.copied == |table.rows| - |old(table.rows)| && r.value.copied + r.value.skipped == |page|
  {
    StageIs(stages, copy, mapping, before, source, n);
    StageIs(stages, copy, mapping, before, source, n + |page|);
    r := WriteRows(env, mapping, table, page, before, source, n, pages, batchSize, copy);
  }

  /** One round of the loop: fetches a page, and writes it unless it is empty. */
  method NextStage(env: Env, mapping: Mapping, order: Order, docs: seq<Doc>, table: PgTable, batchSize: nat, lastId: Js,
                   ghost before: seq<Doc>, ghost source: seq<Doc>, ghost n: nat, ghost pages: nat, ghost copy: Copy,
                   ghost stages: seq<Stage>)
    returns (r: Result<Counts, Failure>, next: Js, size: nat)
    requires mapping.pkColumn != ID_KEY
    requires batchSize >= 1 && Keyed(order, mapping, docs) && source == Ordered(order, mapping, docs)
    requires n <= |source| && (n < |source| ==> n == Batches(pages, batchSize))
    requires IsToPg(copy, env, mapping, batchSize) && AreStages(stages, copy, mapping, before, source)
    requires stages[n] == Stage(Some(table.rows), lastId)
    modifies table
    ensures r.Err? ==> Finished(copy, mapping, before, source, batchSize, r, table.rows)
    ensures r.Ok? ==> n + size <= |source| && stages[n + size] == Stage(Some(table.rows), next)
    ensures r.Ok? ==> r.value.copied == |table.rows| - |old(table.rows)| && r.value.copied + r.value.skipped == size
    ensures size <= batchSize && (r.Ok? && size < batchSize ==> n + size == |source|)
  {
    StageIs(stages, copy, mapping, before, source, n);
    var page;
    page, next := FetchDocs(mapping, order, docs, batchSize, lastId, source, n);
    size := |page|;
    StageIs(stages, copy, mapping, before, source, n + size);
    if size == 0 {
      assert stages[n + size] == stages[n];
      return Ok(Counts(0, 0)), next, size;
    }
    r := WriteStage(env, mapping, table, page, before, source, n, pages, batchSize, copy, stages);
  }

  method CopyDocs(env: Env, mapping: Mapping, order: Order, docs: seq<Doc>, table: PgTable, batchSize: nat,
      ghost copy: Copy,
                  ghost source: seq<Doc>, ghost stages: seq<Stage>)
    returns (r: Result<Counts, Failure>)
    requires mapping.pkColumn != ID_KEY
    requires batchSize >= 1 && Keyed(order, mapping, docs) && source == Ordered(order, mapping, docs)
    requires IsToPg(copy, env, mapping, batchSize) && AreStages(stages, copy, mapping, table.rows, source)
    requires stages[0] == Stage(Some(table.rows), Null)
    modifies table
    ensures r.Err? ==> Finished(copy, mapping, old(table.rows), source, batchSize, r, table.rows)
    ensures r.Ok? ==> stages[|source|].table == Some(table.rows)
    ensures r.Ok? ==> r.value.copied == |table.rows| - |old(table.rows)| && r.value.copied + r.value.skipped == |source|
  {
    ghost var before, pages, n := table.rows, 0, 0;
    var copied: nat, skipped: nat, lastId: Js := 0, 0, Null;
    while true
      invariant n <= |source| && (n < |source| ==> n == Batches(pages, batchSize))
      invariant stages[n] == Stage(Some(table.rows), lastId)
      invariant copied == |table.rows| - |before| && copied + skipped == n
      decreases |source| - n
    {
      var counts, next, size :=
        NextStage(env, mapping, order, docs, table, batchSize, lastId, before, source, n, pages, copy, stages);
      if counts.Err? {
        return counts;
      }
      copied := copied + counts.value.copied;
      skipped := skipped + counts.value.skipped;
      lastId := next;
      n := n + size;
      pages := pages + 1;
      if size < batchSize {
        break;
      }
    }
    return Ok(Counts(copied, skipped));
  }

  /** `copyMongoToPg`, in primary-key order. */
  method CopyMongoToPg(env: Env, mapping: Mapping, order: Order, docs: seq<Doc>, table: PgTable, batchSize: nat)
    returns (r: Result<Counts, Failure>)
    requires mapping.pkColumn != ID_KEY
    requires batchSize >= 1 && Keyed(order, mapping, docs)
    modifies table
    ensures Finished(ToPg(env, mapping, batchSize), mapping, old(table.rows), Ordered(order, mapping, docs), batchSize,
      r, table.rows)
  {
    ghost var copy, source, before := ToPg(env, mapping, batchSize), Ordered(order, mapping, docs), table.rows;
    ghost var stages := seq(|source| + 1, n requires 0 <= n <= |source| => StageAt(copy, mapping, before, source, n));
    NothingYet(copy, mapping, before, source);
    r := CopyDocs(env, mapping, order, docs, table, batchSize, copy, source, stages);
    if r.Ok? {
      assert stages[|source|] == StageAt(copy, mapping, before, source, |source|);
      Complete(copy, mapping, before, source, batchSize, r.value, table.rows);
    }
  }

  // The resume state

  datatype Report = Report(name: JsString, result: VerifyResult)

  predicate Passes(r: Report) {
    r.result.countMatch && r.result.checksumMatch == Some(true)
  }

  predicate Named(reports: seq<Report>, name: JsString, passes: bool) {
    exists i :: 0 <= i < |reports| && reports[i].name == name && Passes(reports[i]) == passes
  }

  /** Marked afterwards: what passed, and what was marked before and not verified again. */
  ghost predicate Marked(reports: seq<Report>, before: set<JsString>, after: set<JsString>) {
    forall name: JsString :: name in after
      <==> Named(reports, name, true) || (name in before && !Named(reports, name, false))
  }

  lemma NamedSnoc(reports: seq<Report>, n: nat, name: JsString, passes: bool)
    requires n < |reports|
    ensures Named(reports[..n + 1], name, passes)
        <==> Named(reports[..n], name, passes) || (reports[n].name == name && Passes(reports[n]) == passes)
  {
    var front, whole := reports[..n], reports[..n + 1];
    if Named(front, name, passes) {
      var i :| 0 <= i < n && front[i].name == name && Passes(front[i]) == passes;
      assert whole[i] == front[i];
    }
    if reports[n].name == name && Passes(reports[n]) == passes {
      assert whole[n] == reports[n];
    }
    if Named(whole, name, passes) {
      var i :| 0 <= i < n + 1 && whole[i].name == name && Passes(whole[i]) == passes;
      assert i < n ==> front[i] == whole[i];
    }
  }

  class ResumeState {
    var verified: set<JsString>

    constructor (verified: set<JsString>)
      ensures this.verified == verified
    {
      this.verified := verified;
    }

    /** The marks `cmdVerify` makes after verifying; each collection is reported once. */
    method Mark(reports: seq<Report>) returns (dirty: bool)
      requires forall i, j :: 0 <= i < j < |reports| ==> reports[i].name != reports[j].name
      modifies this
      ensures Marked(reports, old(verified), verified)
      ensures dirty <==> verified != old(verified)
    {
      dirty := false;
      for i := 0 to |reports|
        invariant Marked(reports[..i], old(verified), verified)
        invariant dirty <==> verified != old(verified)
      {
        var r := reports[i];
        assert forall k :: 0 <= k < i ==> reports[..i][k] == reports[k];
        assert !Named(reports[..i], r.name, true) && !Named(reports[..i], r.name, false);
        assert r.name in verified <==> r.name in old(verified);
        if Passes(r) {
          if r.name !in verified {
            verified := verified + {r.name};
            dirty := true;
          }
        } else if r.name in verified {
          verified := verified - {r.name};
          dirty := true;
        }
        forall name: JsString
          ensures name in verified
            <==> Named(reports[..i + 1], name, true) || (name in old(verified) && !Named(reports[..i + 1], name, false))
        {
          NamedSnoc(reports, i, name, true);
          NamedSnoc(reports, i, name, false);
        }
      }
      assert reports[..|reports|] == reports;
    }
  }

  // What the copies guarantee

  lemma {:induction false} MapFirstPrefix(f: RowMap, source: seq<Doc>, n: nat, m: nat)
    requires n <= m <= |source| && MapFirst(f, source, m).Ok?
    ensures MapFirst(f, source, n).Ok? && MapFirst(f, source, m).value[..n] == MapFirst(f, source, n).value
  {
    if n < m {
      MapFirstPrefix(f, source, n, m - 1);
    }
  }

  lemma ShapedPrefix(shape: Shape, rows: seq<Doc>, n: nat)
    requires n <= |rows|
    ensures |Shaped(shape, rows)| == |rows| && Shaped(shape, rows)[..n] == Shaped(shape, rows[..n])
  {
    if shape.FirstRow? && shape.size > 0 {
      ProjectedAt(rows, shape.size, |rows|);
      ProjectedAt(rows[..n], shape.size, n);
    }
  }

  /**
   * A copy that was interrupted after any number of rows and is started again ends with
   * the target an uninterrupted copy would have left.
   */
  lemma InterruptedCopyResumes(copy: Copy, mapping: Mapping, table: seq<Doc>, source: seq<Doc>, n: nat)
    requires n <= |source| && MapAll(copy.f, source).Ok?
    requires KeepsPks(copy.store, mapping, Shaped(copy.shape, MapAll(copy.f, source).value))
    ensures After(copy, mapping, table, source, n).Some?
    ensures After(copy, mapping, After(copy, mapping, table, source, n).value, source, |source|)
         == After(copy, mapping, table, source, |source|)
  {
    MapFirstPrefix(copy.f, source, n, |source|);
    var rows := MapAll(copy.f, source).value;
    ShapedPrefix(copy.shape, rows, n);
    CopyResumes(copy.store, mapping, table, Shaped(copy.shape, rows), n);
  }

  /** A second run finds every row present. */
  lemma SecondRunCopiesNothing(copy: Copy, mapping: Mapping, table: seq<Doc>, source: seq<Doc>, size: nat,
                               first: Counts, docs: seq<Doc>, second: Result<Counts, Failure>, docs': seq<Doc>)
    requires size >= 1 && Finished(copy, mapping, table, source, size, Ok(first), docs)
    requires Finished(copy, mapping, docs, source, size, second, docs')
    requires KeepsPks(copy.store, mapping, Shaped(copy.shape, MapAll(copy.f, source).value))
    ensures docs' == docs && second == Ok(Counts(0, |source|))
  {
    InterruptedCopyResumes(copy, mapping, table, source, |source|);
  }

  /** A column survives exactly when the first row of the batch has it; then it is bound to the row's own value. */
  lemma ColumnKeptIff(rows: seq<Doc>, size: nat, i: nat, column: JsString)
    requires size >= 1 && i < |rows|
    ensures var written := Shaped(FirstRow(size), rows)[i];
      && (Has(written, column) <==> Has(rows[FirstOfBatch(i, size)], column))
      && (Has(written, column) ==> Lookup(written, column) == Some(Bound(rows[i], column)))
  {
    var first := rows[FirstOfBatch(i, size)];
    var columns := Columns(first);
    ProjectedAt(rows, size, |rows|);
    ProjectAt(columns, rows[i]);
    ColumnsAt(first);
    var written := Project(columns, rows[i]);
    if Has(first, column) {
      var j :| 0 <= j < |first| && first[j].key == column;
      assert written[j].key == column;
    }
    if Has(written, column) {
      var j :| 0 <= j < |written| && written[j].key == column;
      assert first[j].key == column;
      LookupBound(written, rows[i], column);
    }
  }

  lemma {:induction false} LookupBound(written: Doc, row: Doc, column: JsString)
    requires forall j :: 0 <= j < |written| ==> written[j].value == Bound(row, written[j].key)
    requires Has(written, column)
    ensures Lookup(written, column) == Some(Bound(row, column))
  {
    if written[0].key != column {
      var j :| 0 <= j < |written| && written[j].key == column;
      assert written[1..][j - 1].key == column;
      LookupBound(written[1..], row, column);
    }
  }

  /** Rows with one column list are written whole, whatever the batch size. */
  lemma SameColumnsKept(rows: seq<Doc>, size: nat)
    requires size >= 1
    requires forall i :: 0 <= i < |rows| ==> Columns(rows[i]) == Columns(rows[0]) && DistinctProps(rows[i])
    requires forall i, j :: 0 <= i < |rows| && 0 <= j < |rows[i]| ==> rows[i][j].value != Undefined
    ensures Shaped(FirstRow(size), rows) == rows
  {
    ProjectedAt(rows, size, |rows|);
    forall i | 0 <= i < |rows| ensures Project(Columns(rows[FirstOfBatch(i, size)]), rows[i]) == rows[i] {
      assert Columns(rows[FirstOfBatch(i, size)]) == Columns(rows[i]);
      OwnColumns(rows[i]);
    }
  }

  lemma OwnColumns(row: Doc)
    requires DistinctProps(row) && forall j :: 0 <= j < |row| ==> row[j].value != Undefined
    ensures Project(Columns(row), row) == row
  {
    ColumnsAt(row);
    OwnColumnsUpTo(row, |row|);
    assert Columns(row)[..|row|] == Columns(row);
  }

  lemma {:induction false} OwnColumnsUpTo(row: Doc, n: nat)
    requires DistinctProps(row) && forall j :: 0 <= j < |row| ==> row[j].value != Undefined
    requires n <= |row| && forall j :: 0 <= j < |row| ==> Columns(row)[j] == row[j].key
    ensures Project(Columns(row)[..n], row) == row[..n]
  {
    if n > 0 {
      OwnColumnsUpTo(row, n - 1);
      LookupAt(row, n - 1);
      assert Columns(row)[..n][..n - 1] == Columns(row)[..n - 1];
      assert row[..n] == row[..n - 1] + [row[n - 1]];
    }
  }

  lemma {:induction false} LookupAt(props: Doc, i: nat)
    requires i < |props| && DistinctProps(props)
    ensures Lookup(props, props[i].key) == Some(props[i].value)
  {
    if i > 0 {
      assert props[1..][i - 1] == props[i];
      LookupAt(props[1..], i - 1);
    }
  }
}
