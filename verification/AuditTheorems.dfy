/**
 * What `verifyChain` proves about the history of the audit trail: it succeeds exactly when
 * rows were appended in canonical order, and it reports late rows, deleted rows and edited
 * rows at an exact place.
 */
module AuditTheorems {
  import opened Wrappers
  import opened Text
  import opened Json
  import opened Sorting
  import opened CanonicalJson
  import opened AuditChain

  // What the digest input determines

  /** Splits a text at its first pipe. */
  function Cut(s: JsString): (JsString, JsString) {
    if s == [] then ([], [])
    else if s[0] == PIPE then ([], s[1..])
    else
      var r := Cut(s[1..]);
      ([s[0]] + r.0, r.1)
  }

  lemma {:induction false} CutSep(a: JsString, c: JsString)
    requires PipeFree(a)
    ensures Cut(Sep(a, c)) == (a, c)
  {
    if a == [] {
      assert Sep(a, c)[1..] == c;
    } else {
      CutSep(a[1..], c);
      assert Sep(a, c)[1..] == Sep(a[1..], c);
      assert a == [a[0]] + a[1..];
    }
  }

  lemma SepInjective(a: JsString, c: JsString, b: JsString, d: JsString)
    requires PipeFree(a) && PipeFree(b)
    ensures Sep(a, c) == Sep(b, d) <==> a == b && c == d
  {
    CutSep(a, c);
    CutSep(b, d);
  }

  /** The digest input starts with the predecessor's hash and the event id. */
  lemma PreimageHead(env: Env, r: Row, s: Row)
    requires PipeFree(OrEmpty(r.prevHash)) && PipeFree(OrEmpty(s.prevHash)) && PipeFree(r.id) && PipeFree(s.id)
    requires Preimage(env, r) == Preimage(env, s)
    ensures OrEmpty(r.prevHash) == OrEmpty(s.prevHash) && r.id == s.id
  {
    var r2, s2 := Cut(Preimage(env, r)).1, Cut(Preimage(env, s)).1;
    CutSep(OrEmpty(r.prevHash), r2);
    CutSep(OrEmpty(s.prevHash), s2);
    CutPreimage(env, r);
    CutPreimage(env, s);
  }

  lemma CutPreimage(env: Env, r: Row)
    requires PipeFree(OrEmpty(r.prevHash)) && PipeFree(r.id)
    ensures var first := Cut(Preimage(env, r)); first.0 == OrEmpty(r.prevHash) && Cut(first.1).0 == r.id
  {
    var rest := Sep(OrEmpty(r.tenantId), Sep(r.actorType, Sep(OrEmpty(r.actorId),
      Sep(r.action, Sep(r.resourceType, Sep(OrEmpty(r.resourceId),
        Sep(Canonical(env.keys, r.details), env.iso(r.createdAt))))))));
    CutSep(OrEmpty(r.prevHash), Sep(r.id, rest));
    CutSep(r.id, rest);
  }

  /** The text columns of a row, in the order the digest joins them. */
  function Columns(r: Row): seq<JsString> {
    [OrEmpty(r.prevHash), r.id, OrEmpty(r.tenantId), r.actorType, OrEmpty(r.actorId), r.action, r.resourceType,
     OrEmpty(r.resourceId)]
  }

  function JoinTo(parts: seq<JsString>, last: JsString): JsString {
    if parts == [] then last else Sep(parts[0], JoinTo(parts[1..], last))
  }

  lemma PreimageIsJoin(env: Env, r: Row)
    ensures Preimage(env, r) == JoinTo(Columns(r), Sep(Canonical(env.keys, r.details), env.iso(r.createdAt)))
  {
    var last := Sep(Canonical(env.keys, r.details), env.iso(r.createdAt));
    var c := Columns(r);
    assert c[8..] == [];
    assert c[7..][1..] == c[8..] && c[6..][1..] == c[7..] && c[5..][1..] == c[6..] && c[4..][1..] == c[5..];
    assert c[3..][1..] == c[4..] && c[2..][1..] == c[3..] && c[1..][1..] == c[2..];
    assert JoinTo(c[7..], last) == Sep(c[7], JoinTo(c[8..], last));
    assert JoinTo(c[6..], last) == Sep(c[6], JoinTo(c[7..], last));
    assert JoinTo(c[5..], last) == Sep(c[5], JoinTo(c[6..], last));
    assert JoinTo(c[4..], last) == Sep(c[4], JoinTo(c[5..], last));
    assert JoinTo(c[3..], last) == Sep(c[3], JoinTo(c[4..], last));
    assert JoinTo(c[2..], last) == Sep(c[2], JoinTo(c[3..], last));
    assert JoinTo(c[1..], last) == Sep(c[1], JoinTo(c[2..], last));
  }

  lemma {:induction false} JoinToInjective(ps: seq<JsString>, qs: seq<JsString>, x: JsString, y: JsString)
    requires |ps| == |qs|
    requires forall i :: 0 <= i < |ps| ==> PipeFree(ps[i]) && PipeFree(qs[i])
    ensures JoinTo(ps, x) == JoinTo(qs, y) <==> ps == qs && x == y
  {
    if ps != [] {
      SepInjective(ps[0], JoinTo(ps[1..], x), qs[0], JoinTo(qs[1..], y));
      JoinToInjective(ps[1..], qs[1..], x, y);
      assert ps == [ps[0]] + ps[1..] && qs == [qs[0]] + qs[1..];
    }
  }

  /** The details need no delimiter: their text ends where its grammar ends. */
  lemma DetailsDecode(env: Env, v: Value, w: Value, x: JsString, y: JsString)
    requires TotalOrder(env.keys) && WellFormed(v) && WellFormed(w)
    ensures Sep(Canonical(env.keys, v), x) == Sep(Canonical(env.keys, w), y) <==> Equiv(v, w) && x == y
  {
    var a, b := SortKeys(env.keys, v), SortKeys(env.keys, w);
    TwoPasses(a);
    TwoPasses(b);
    ReadPrinted(Ascii, a, [PIPE] + x);
    ReadPrinted(Ascii, b, [PIPE] + y);
    EquivSorts(env.keys, v, w);
    assert ([PIPE] + x)[1..] == x && ([PIPE] + y)[1..] == y;
  }

  /**
   * Rows without a pipe in their text columns have the same digest input exactly when
   * every hashed column agrees: nothing but the difference between a null and an empty
   * column, and the order of keys in the details, is left uncovered.
   */
  lemma PreimageIdentifies(env: Env, r: Row, s: Row)
    requires TotalOrder(env.keys) && WellFormed(r.details) && WellFormed(s.details)
    requires forall i :: 0 <= i < 8 ==> PipeFree(Columns(r)[i]) && PipeFree(Columns(s)[i])
    ensures Preimage(env, r) == Preimage(env, s)
       <==> Columns(r) == Columns(s) && Equiv(r.details, s.details) && env.iso(r.createdAt) == env.iso(s.createdAt)
  {
    PreimageIsJoin(env, r);
    PreimageIsJoin(env, s);
    JoinToInjective(Columns(r), Columns(s), Sep(Canonical(env.keys, r.details), env.iso(r.createdAt)),
                    Sep(Canonical(env.keys, s.details), env.iso(s.createdAt)));
    DetailsDecode(env, r.details, s.details, env.iso(r.createdAt), env.iso(s.createdAt));
  }

  /** The row that `add` hashes. */
  function HashedRow(env: Env, table: seq<Row>, c: Call): Row {
    Unhashed(env, table, c, Details(c.event))
  }

  lemma {:induction false} PutSame(fs: seq<Field>, key: JsString, v: Value)
    requires Find(fs, key) == Some(v)
    ensures Put(fs, key, v) == fs
  {
    if fs[0].key != key {
      PutSame(fs[1..], key, v);
    }
  }

  /**
   * Of two calls that differ in the product tag alone, the hashed rows have one digest input exactly
   * when the tags are one text, or one is missing and the details hold the other's text already.
   */
  lemma TagIsHashed(env: Env, table: seq<Row>, c: Call, d: Call)
    requires TotalOrder(env.keys) && ValidCall(c) && ValidCall(d)
    requires d == c.(event := c.event.(productTag := d.event.productTag), stored := d.stored)
    requires forall i :: 0 <= i < 8 ==> PipeFree(Columns(HashedRow(env, table, c))[i])
    requires OrEmpty(c.event.productTag) != []
    ensures Preimage(env, HashedRow(env, table, c)) == Preimage(env, HashedRow(env, table, d)) <==>
      var tag, other := c.event.productTag.value, OrEmpty(d.event.productTag);
      other == tag || (other == [] && Find(c.event.details, PRODUCT) == Some(Str(tag)))
  {
    var r, s := HashedRow(env, table, c), HashedRow(env, table, d);
    var tag, other := c.event.productTag.value, OrEmpty(d.event.productTag);
    PreimageIdentifies(env, r, s);
    PutFinds(c.event.details, PRODUCT, Str(tag), PRODUCT);
    PutFinds(c.event.details, PRODUCT, Str(other), PRODUCT);
    if Equiv(r.details, s.details) {
      SameAt(r.details.fields, s.details.fields, PRODUCT);
    }
    if other == [] && Find(c.event.details, PRODUCT) == Some(Str(tag)) {
      PutSame(c.event.details, PRODUCT, Str(tag));
    }
    EquivRefl(r.details);
  }

  // Rows of one table have different digests

  ghost predicate DistinctIds(rows: seq<Row>) {
    (forall i :: 0 <= i < |rows| ==> PipeFree(rows[i].id)) &&
    forall i, j :: 0 <= i < j < |rows| ==> rows[i].id != rows[j].id
  }

  /** SHA-256 does not collide on the digest inputs of these rows. */
  ghost predicate NoCollision(env: Env, rows: seq<Row>) {
    forall i, j :: 0 <= i < |rows| && 0 <= j < |rows| && env.digest(rows[i]) == env.digest(rows[j]) ==>
      Preimage(env, rows[i]) == Preimage(env, rows[j])
  }

  ghost predicate DistinctDigests(env: Env, rows: seq<Row>, legacy: nat) {
    forall i, j :: legacy <= i < j < |rows| ==> env.digest(rows[i]) != env.digest(rows[j])
  }

  /** Row `i` is the greatest one below `key`. */
  ghost predicate IsPredecessor(env: Env, table: seq<Row>, key: Key, i: nat)
    requires i < |table|
  {
    && Predecessor(env, table, key) == Some(table[i])
    && Before(RowKey(env)(table[i]), key)
    && forall j :: 0 <= j < |table| && Before(RowKey(env)(table[j]), key) ==>
         !Before(RowKey(env)(table[i]), RowKey(env)(table[j]))
  }

  lemma {:induction false} PredecessorIs(env: Env, table: seq<Row>, key: Key) returns (i: nat)
    ensures Predecessor(env, table, key).None? ==> forall j :: 0 <= j < |table| ==> !Before(RowKey(env)(table[j]), key)
    ensures Predecessor(env, table, key).Some? ==> i < |table| && IsPredecessor(env, table, key, i)
  {
    i := 0;
    if table != [] {
      var n := |table| - 1;
      i := PredecessorIs(env, table[..n], key);
      var best := Predecessor(env, table[..n], key);
      if Before(RowKey(env)(table[n]), key) && (best.None? || Before(RowKey(env)(best.value), RowKey(env)(table[n]))) {
        i := n;
      }
    }
  }

  lemma PrevHashPipeFree(env: Env, legacy: nat, rows: seq<Row>, q: nat)
    requires ValidEnv(env) && Chain(env, legacy, rows) && legacy <= q < |rows|
    ensures PipeFree(OrEmpty(rows[q].prevHash))
    ensures rows[q].prevHash.Some? ==> |rows[q].prevHash.value| == 64
  {
    assert ChainedAt(env, rows, q);
    var i := PredecessorIs(env, rows[..q], RowKey(env)(rows[q]));
    if rows[q].prevHash.Some? {
      assert legacy <= i && ChainedAt(env, rows, i);
      var _ := Preimage(env, rows[i]);
    }
  }

  lemma DigestsDistinct(env: Env, legacy: nat, rows: seq<Row>)
    requires ValidEnv(env) && Chain(env, legacy, rows) && DistinctIds(rows) && NoCollision(env, rows)
    ensures DistinctDigests(env, rows, legacy)
  {
    forall i, j | legacy <= i < j < |rows| ensures env.digest(rows[i]) != env.digest(rows[j]) {
      if env.digest(rows[i]) == env.digest(rows[j]) {
        PrevHashPipeFree(env, legacy, rows, i);
        PrevHashPipeFree(env, legacy, rows, j);
        PreimageHead(env, rows[i], rows[j]);
      }
    }
  }

  // One link of the chain

  ghost predicate Between(env: Env, a: Row, m: Row, b: Row) {
    Before(RowKey(env)(a), RowKey(env)(m)) && Before(RowKey(env)(m), RowKey(env)(b))
  }

  /** Row `q` was appended after row `p`, and no legacy row lies between them. */
  ghost predicate InOrder(env: Env, legacy: nat, rows: seq<Row>, p: nat, q: nat)
    requires legacy <= |rows| && p < |rows| && q < |rows|
  {
    p < q && forall m :: 0 <= m < legacy ==> !Between(env, rows[p], rows[m], rows[q])
  }

  /**
   * Of two canonically adjacent rows, the later one carries the hash of the earlier one exactly when
   * they were appended in order.
   */
  lemma LinkedIff(env: Env, legacy: nat, rows: seq<Row>, p: nat, q: nat)
    requires TotalOrder(env.ids) && Chain(env, legacy, rows) && DistinctIds(rows) && DistinctDigests(env, rows, legacy)
    requires legacy <= p < |rows| && legacy <= q < |rows|
    requires Before(RowKey(env)(rows[p]), RowKey(env)(rows[q]))
    requires forall m :: legacy <= m < |rows| ==> !Between(env, rows[p], rows[m], rows[q])
    ensures rows[q].prevHash == rows[p].eventHash <==> InOrder(env, legacy, rows, p, q)
  {
    var key := RowKey(env)(rows[q]);
    assert ChainedAt(env, rows, q) && ChainedAt(env, rows, p);
    var i := PredecessorIs(env, rows[..q], key);
    if rows[q].prevHash == rows[p].eventHash {
      assert legacy <= i && ChainedAt(env, rows, i);
      assert i == p;
      assert IsPredecessor(env, rows[..q], key, p);
      forall m | 0 <= m < legacy ensures !Between(env, rows[p], rows[m], rows[q]) {
        assert rows[..q][m] == rows[m];
      }
    }
    if InOrder(env, legacy, rows, p, q) {
      assert rows[..q][p] == rows[p];
      assert IsPredecessor(env, rows[..q], key, i);
      assert i < legacy ==> !Between(env, rows[p], rows[i], rows[q]);
      assert RowKey(env)(rows[i]) == RowKey(env)(rows[p]);
      assert i == p;
    }
  }

  // The canonical walk

  lemma {:induction false} HashedSplit(legacy: nat, rows: seq<Row>)
    requires legacy <= |rows|
    requires forall i :: 0 <= i < |rows| ==> (rows[i].eventHash.None? <==> i < legacy)
    ensures Hashed(rows) == rows[legacy..]
  {
    if rows != [] {
      var n := |rows| - 1;
      if n >= legacy {
        HashedSplit(legacy, rows[..n]);
        assert rows[legacy..] == rows[..n][legacy..] + [rows[n]];
      } else {
        HashedSplit(n, rows[..n]);
      }
    }
  }

  lemma HashedOfChain(env: Env, legacy: nat, rows: seq<Row>)
    requires Chain(env, legacy, rows)
    ensures Hashed(rows) == rows[legacy..]
  {
    forall i | 0 <= i < |rows| ensures rows[i].eventHash.None? <==> i < legacy {
      assert i >= legacy ==> ChainedAt(env, rows, i);
    }
    HashedSplit(legacy, rows);
  }

  lemma ChainPrefix(env: Env, legacy: nat, rows: seq<Row>, n: nat)
    requires Chain(env, legacy, rows) && legacy <= n <= |rows|
    ensures Chain(env, legacy, rows[..n])
  {
    forall q | legacy <= q < n ensures ChainedAt(env, rows[..n], q) {
      assert ChainedAt(env, rows, q) && rows[..n][..q] == rows[..q];
    }
  }

  lemma WalkOfChain(env: Env, legacy: nat, rows: seq<Row>)
    requires TotalOrder(env.ids) && Chain(env, legacy, rows) && DistinctIds(rows)
    ensures var w := Walk(env, rows); |w| == |rows| - legacy && Ascending(RowKey(env), w)
    ensures forall k :: 0 <= k < |Walk(env, rows)| ==> Walk(env, rows)[k] in rows[legacy..]
    ensures forall q :: legacy <= q < |rows| ==> rows[q] in Walk(env, rows)
  {
    var key, s := RowKey(env), rows[legacy..];
    HashedOfChain(env, legacy, rows);
    assert DistinctBy(key, s);
    SortAscends(key, s);
    SortPermutes(key, s);
    SameMembers(Walk(env, rows), s);
    forall q | legacy <= q < |rows| ensures rows[q] in Walk(env, rows) {
      assert s[q - legacy] == rows[q];
    }
  }

  /** The window is the beginning of the chain: the `limit` canonically first of the hashed rows, in order. */
  lemma WindowIsFirst(env: Env, legacy: nat, rows: seq<Row>, limit: nat)
    requires TotalOrder(env.ids) && Chain(env, legacy, rows) && DistinctIds(rows)
    ensures var w := Window(env, rows, limit);
      && |w| == (if limit < |rows| - legacy then limit else |rows| - legacy)
      && Ascending(RowKey(env), w)
      && (forall r :: r in w ==> r in rows[legacy..])
      && (forall q, k :: legacy <= q < |rows| && rows[q] !in w && 0 <= k < |w| ==>
            Before(RowKey(env)(w[k]), RowKey(env)(rows[q])))
  {
    var all, w := Walk(env, rows), Window(env, rows, limit);
    WalkOfChain(env, legacy, rows);
    forall j | 0 <= j < |w| ensures all[j] in w {
      assert all[j] == w[j];
    }
    forall q, k | legacy <= q < |rows| && rows[q] !in w && 0 <= k < |w|
      ensures Before(RowKey(env)(w[k]), RowKey(env)(rows[q]))
    {
      assert rows[q] in all;
      var t :| 0 <= t < |all| && all[t] == rows[q];
      assert t >= |w|;
    }
  }

  /** Where a row of the table stands in it. */
  ghost function Position(rows: seq<Row>, r: Row): (i: nat)
    requires r in rows
    ensures i < |rows| && rows[i] == r
  {
    if rows[0] == r then 0 else 1 + Position(rows[1..], r)
  }

  /** Rows `a` and `b` of the table were appended in this order, with no legacy row between them. */
  ghost predicate Ordered(env: Env, legacy: nat, rows: seq<Row>, a: Row, b: Row)
    requires legacy <= |rows|
  {
    a in rows && b in rows && InOrder(env, legacy, rows, Position(rows, a), Position(rows, b))
  }

  lemma NothingBetween(env: Env, legacy: nat, rows: seq<Row>, k: nat, m: nat)
    requires TotalOrder(env.ids) && Chain(env, legacy, rows) && DistinctIds(rows)
    requires 0 < k < |Walk(env, rows)| && legacy <= m < |rows|
    ensures !Between(env, Walk(env, rows)[k - 1], rows[m], Walk(env, rows)[k])
  {
    var w := Walk(env, rows);
    WalkOfChain(env, legacy, rows);
    assert rows[m] in w;
    var t :| 0 <= t < |w| && w[t] == rows[m];
    assert t < k - 1 || t == k - 1 || t == k || k < t;
  }

  /** Whether a row of the walk is sound is a fact about the order of two appends. */
  lemma WalkSoundIff(env: Env, legacy: nat, rows: seq<Row>, k: nat)
    requires TotalOrder(env.ids) && Chain(env, legacy, rows) && DistinctIds(rows) && DistinctDigests(env, rows, legacy)
    requires k < |Walk(env, rows)|
    ensures var w := Walk(env, rows);
      HashOk(env, w[k]) && (SoundAt(env, w, k) <==> (k == 0 || Ordered(env, legacy, rows, w[k - 1], w[k])))
  {
    var w := Walk(env, rows);
    var q := AppendedAt(env, legacy, rows, k);
    assert ChainedAt(env, rows, q);
    if k > 0 {
      var p := AppendedAt(env, legacy, rows, k - 1);
      forall m | legacy <= m < |rows| ensures !Between(env, rows[p], rows[m], rows[q]) {
        NothingBetween(env, legacy, rows, k, m);
      }
      assert Before(RowKey(env)(rows[p]), RowKey(env)(rows[q])) by {
        WalkOfChain(env, legacy, rows);
      }
      LinkedIff(env, legacy, rows, p, q);
    }
  }

  lemma AppendedAt(env: Env, legacy: nat, rows: seq<Row>, k: nat) returns (p: nat)
    requires TotalOrder(env.ids) && Chain(env, legacy, rows) && DistinctIds(rows)
    requires k < |Walk(env, rows)|
    ensures legacy <= p < |rows| && rows[p] == Walk(env, rows)[k] && Walk(env, rows)[k] in rows
      && p == Position(rows, Walk(env, rows)[k])
  {
    WalkOfChain(env, legacy, rows);
    var r := Walk(env, rows)[k];
    var i :| 0 <= i < |rows[legacy..]| && rows[legacy..][i] == r;
    p := legacy + i;
    assert rows[p] == r;
  }

  /** Canonically adjacent rows of a window were appended in order. */
  ghost predicate LinksOrdered(env: Env, legacy: nat, rows: seq<Row>, w: seq<Row>)
    requires legacy <= |rows|
  {
    forall k :: 0 < k < |w| ==> Ordered(env, legacy, rows, w[k - 1], w[k])
  }

  lemma WindowSoundIff(env: Env, legacy: nat, rows: seq<Row>, limit: nat)
    requires TotalOrder(env.ids) && Chain(env, legacy, rows) && DistinctIds(rows) && DistinctDigests(env, rows, legacy)
    ensures var w := Window(env, rows, limit);
      VerifyFrom(env, w, 0).ok <==> LinksOrdered(env, legacy, rows, w)
  {
    var w := Window(env, rows, limit);
    VerifyFromFinds(env, w, 0);
    forall k | 0 <= k < |w| ensures SoundAt(env, w, k) <==> (k == 0 || Ordered(env, legacy, rows, w[k - 1], w[k])) {
      WalkSoundIff(env, legacy, rows, k);
    }
    if VerifyFrom(env, w, 0).ok {
      forall k | 0 < k < |w| ensures Ordered(env, legacy, rows, w[k - 1], w[k]) {
        assert SoundAt(env, w, k);
      }
    }
    if LinksOrdered(env, legacy, rows, w) {
      forall k | 0 <= k < |w| ensures SoundAt(env, w, k) {
        WalkSoundIff(env, legacy, rows, k);
      }
    }
  }

  /**
   * Over any window, verification succeeds exactly when every two canonically adjacent
   * rows of the window were appended in that order with no legacy row between them.
   */
  lemma WindowVerifiesIff(env: Env, legacy: nat, rows: seq<Row>, limit: nat)
    requires ValidEnv(env) && Chain(env, legacy, rows) && DistinctIds(rows) && NoCollision(env, rows)
    ensures var w := Window(env, rows, limit);
      VerifyFrom(env, w, 0).ok <==> LinksOrdered(env, legacy, rows, w)
  {
    DigestsDistinct(env, legacy, rows);
    WindowSoundIff(env, legacy, rows, limit);
  }

  // The whole history

  /** Keys ascend, and no legacy key separates any two of them. */
  ghost predicate KeysInOrder(legacyKeys: seq<Key>, keys: seq<Key>) {
    && (forall i, j :: 0 <= i < j < |keys| ==> Before(keys[i], keys[j]))
    && forall i, m, j :: 0 <= i < |keys| && 0 <= m < |legacyKeys| && 0 <= j < |keys| ==>
         !(Before(keys[i], legacyKeys[m]) && Before(legacyKeys[m], keys[j]))
  }

  function RowKeys(env: Env, rows: seq<Row>): seq<Key> {
    seq(|rows|, i requires 0 <= i < |rows| => RowKey(env)(rows[i]))
  }

  /** Any two appended rows came in canonical order, and no legacy row separates any two of them. */
  ghost predicate CanonicalHistory(env: Env, legacy: nat, rows: seq<Row>)
    requires legacy <= |rows|
  {
    KeysInOrder(RowKeys(env, rows[..legacy]), RowKeys(env, rows[legacy..]))
  }

  lemma HistoryPair(env: Env, legacy: nat, rows: seq<Row>, p: nat, q: nat)
    requires legacy <= p < |rows| && legacy <= q < |rows| && CanonicalHistory(env, legacy, rows)
    ensures p < q ==> Before(RowKey(env)(rows[p]), RowKey(env)(rows[q]))
    ensures forall m :: 0 <= m < legacy ==> !Between(env, rows[p], rows[m], rows[q])
  {
    var keys, old' := RowKeys(env, rows[legacy..]), RowKeys(env, rows[..legacy]);
    assert keys[p - legacy] == RowKey(env)(rows[p]) && keys[q - legacy] == RowKey(env)(rows[q]);
    forall m | 0 <= m < legacy ensures !Between(env, rows[p], rows[m], rows[q]) {
      assert old'[m] == RowKey(env)(rows[m]);
    }
  }

  lemma {:induction false} AdjacentOrdered(env: Env, legacy: nat, rows: seq<Row>, w: seq<Row>, i: nat, j: nat)
    requires legacy <= |rows| && i < j < |w|
    requires Ascending(RowKey(env), w)
    requires LinksOrdered(env, legacy, rows, w)
    requires forall m, k :: 0 <= m < legacy && 0 <= k < |w| ==> RowKey(env)(rows[m]) != RowKey(env)(w[k])
    ensures Ordered(env, legacy, rows, w[i], w[j])
    decreases j - i
  {
    assert Ordered(env, legacy, rows, w[j - 1], w[j]);
    if i < j - 1 {
      AdjacentOrdered(env, legacy, rows, w, i, j - 1);
      forall m | 0 <= m < legacy ensures !Between(env, w[i], rows[m], w[j]) {
        assert !Between(env, w[i], rows[m], w[j - 1]) && !Between(env, w[j - 1], rows[m], w[j]);
        assert RowKey(env)(rows[m]) != RowKey(env)(w[j - 1]);
      }
    }
  }

  lemma InWalk(env: Env, legacy: nat, rows: seq<Row>, q: nat) returns (k: nat)
    requires TotalOrder(env.ids) && Chain(env, legacy, rows) && DistinctIds(rows)
    requires legacy <= q < |rows|
    ensures k < |Walk(env, rows)| && Walk(env, rows)[k] == rows[q] && rows[q] in rows && Position(rows, rows[q]) == q
  {
    WalkOfChain(env, legacy, rows);
    k :| 0 <= k < |Walk(env, rows)| && Walk(env, rows)[k] == rows[q];
  }

  lemma LegacyKeysDiffer(env: Env, legacy: nat, rows: seq<Row>)
    requires TotalOrder(env.ids) && Chain(env, legacy, rows) && DistinctIds(rows)
    ensures forall m, k :: 0 <= m < legacy && 0 <= k < |Walk(env, rows)| ==>
      RowKey(env)(rows[m]) != RowKey(env)(Walk(env, rows)[k])
  {
    forall m, k | 0 <= m < legacy && 0 <= k < |Walk(env, rows)|
      ensures RowKey(env)(rows[m]) != RowKey(env)(Walk(env, rows)[k])
    {
      var p := AppendedAt(env, legacy, rows, k);
      assert rows[m].id != rows[p].id;
    }
  }

  lemma WalkOrderedIsCanonical(env: Env, legacy: nat, rows: seq<Row>)
    requires TotalOrder(env.ids) && Chain(env, legacy, rows) && DistinctIds(rows)
    requires LinksOrdered(env, legacy, rows, Walk(env, rows))
    ensures CanonicalHistory(env, legacy, rows)
  {
    var keys, old' := RowKeys(env, rows[legacy..]), RowKeys(env, rows[..legacy]);
    forall i, j | 0 <= i < j < |keys| ensures Before(keys[i], keys[j]) {
      WalkPair(env, legacy, rows, legacy + i, legacy + j);
    }
    forall i, m, j | 0 <= i < |keys| && 0 <= m < |old'| && 0 <= j < |keys|
      ensures !(Before(keys[i], old'[m]) && Before(old'[m], keys[j]))
    {
      if i != j {
        WalkPair(env, legacy, rows, legacy + i, legacy + j);
        assert !Between(env, rows[legacy + i], rows[m], rows[legacy + j]);
      }
    }
  }

  lemma WalkPair(env: Env, legacy: nat, rows: seq<Row>, p: nat, q: nat)
    requires TotalOrder(env.ids) && Chain(env, legacy, rows) && DistinctIds(rows)
    requires LinksOrdered(env, legacy, rows, Walk(env, rows))
    requires legacy <= p < |rows| && legacy <= q < |rows| && p != q
    ensures p < q ==> Before(RowKey(env)(rows[p]), RowKey(env)(rows[q]))
    ensures forall m :: 0 <= m < legacy ==> !Between(env, rows[p], rows[m], rows[q])
  {
    var w := Walk(env, rows);
    WalkOfChain(env, legacy, rows);
    LegacyKeysDiffer(env, legacy, rows);
    var i := InWalk(env, legacy, rows, p);
    var j := InWalk(env, legacy, rows, q);
    assert i != j;
    if i < j {
      AdjacentOrdered(env, legacy, rows, w, i, j);
    } else {
      AdjacentOrdered(env, legacy, rows, w, j, i);
      assert Before(RowKey(env)(w[j]), RowKey(env)(w[i]));
    }
  }

  lemma CanonicalIsWalkOrdered(env: Env, legacy: nat, rows: seq<Row>, k: nat)
    requires TotalOrder(env.ids) && Chain(env, legacy, rows) && DistinctIds(rows)
    requires CanonicalHistory(env, legacy, rows)
    requires 0 < k < |Walk(env, rows)|
    ensures Ordered(env, legacy, rows, Walk(env, rows)[k - 1], Walk(env, rows)[k])
  {
    WalkOfChain(env, legacy, rows);
    var p := AppendedAt(env, legacy, rows, k - 1);
    var q := AppendedAt(env, legacy, rows, k);
    assert Before(RowKey(env)(rows[p]), RowKey(env)(rows[q]));
    HistoryPair(env, legacy, rows, q, p);
    assert p < q;
    HistoryPair(env, legacy, rows, p, q);
    assert InOrder(env, legacy, rows, p, q);
  }

  /** The whole chain verifies exactly when the history was canonical. */
  lemma ChainVerifiesIff(env: Env, legacy: nat, rows: seq<Row>)
    requires ValidEnv(env) && Chain(env, legacy, rows) && DistinctIds(rows) && NoCollision(env, rows)
    ensures VerifyFrom(env, Walk(env, rows), 0).ok <==> CanonicalHistory(env, legacy, rows)
  {
    var w := Walk(env, rows);
    WindowVerifiesIff(env, legacy, rows, |w|);
    if CanonicalHistory(env, legacy, rows) {
      forall k | 0 < k < |w| ensures Ordered(env, legacy, rows, w[k - 1], w[k]) {
        CanonicalIsWalkOrdered(env, legacy, rows, k);
      }
      assert LinksOrdered(env, legacy, rows, w);
    } else if VerifyFrom(env, w, 0).ok {
      WalkOrderedIsCanonical(env, legacy, rows);
    }
  }

  function CallKeys(env: Env, calls: seq<Call>): seq<Key> {
    seq(|calls|, i requires 0 <= i < |calls| => Key(calls[i].createdAt, env.ids(calls[i].id)))
  }

  /**
   * For every sequence of `add` calls on top of legacy rows: `verifyChain` over all rows
   * succeeds exactly when each call's (created_at, id) was above that of every earlier
   * call, and no legacy row lies between two of them.
   */
  lemma RunVerifiesIff(env: Env, legacyRows: seq<Row>, calls: seq<Call>)
    requires ValidEnv(env)
    requires forall i :: 0 <= i < |legacyRows| ==> legacyRows[i].eventHash.None?
    requires forall c :: c in calls ==> ValidCall(c)
    requires DistinctIds(Run(env, legacyRows, calls)) && NoCollision(env, Run(env, legacyRows, calls))
    ensures VerifyFrom(env, Walk(env, Run(env, legacyRows, calls)), 0).ok
       <==> KeysInOrder(RowKeys(env, legacyRows), CallKeys(env, calls))
  {
    var rows, n := Run(env, legacyRows, calls), |legacyRows|;
    RunIsChain(env, legacyRows, calls);
    ChainVerifiesIff(env, n, rows);
    CallsAreRows(env, legacyRows, calls);
  }

  lemma CallsAreRows(env: Env, legacyRows: seq<Row>, calls: seq<Call>)
    ensures |legacyRows| <= |Run(env, legacyRows, calls)|
    ensures RowKeys(env, Run(env, legacyRows, calls)[..|legacyRows|]) == RowKeys(env, legacyRows)
    ensures RowKeys(env, Run(env, legacyRows, calls)[|legacyRows|..]) == CallKeys(env, calls)
  {
    RunShape(env, legacyRows, calls);
    var keys := RowKeys(env, Run(env, legacyRows, calls)[|legacyRows|..]);
    assert |keys| == |calls|;
    forall i | 0 <= i < |calls| ensures keys[i] == CallKeys(env, calls)[i] {
      var r := Run(env, legacyRows, calls)[|legacyRows| + i];
      assert r.id == calls[i].id && r.createdAt == calls[i].createdAt;
      assert keys[i] == RowKey(env)(r);
    }
  }

  // Late, deleted and edited rows

  /** The break `verifyChain` reports at position `k`: the row is intact but does not continue the chain. */
  ghost predicate BrokenLinkAt(v: Verdict, w: seq<Row>, k: nat)
    requires k < |w|
  {
    v == Verdict(false, k, Some(Discontinuity(w[k].id)))
  }

  lemma FirstBreakIs(env: Env, w: seq<Row>, k: nat)
    requires 0 < k < |w|
    requires forall i :: 0 <= i < k ==> SoundAt(env, w, i)
    requires HashOk(env, w[k]) && w[k].prevHash != w[k - 1].eventHash
    ensures BrokenLinkAt(VerifyFrom(env, w, 0), w, k)
  {
    VerifyFromFinds(env, w, 0);
    assert !SoundAt(env, w, k);
    assert VerifyFrom(env, w, 0).checked == k;
  }

  /** Adding one row to a table puts it at one place of the walk. */
  lemma WalkInserts(env: Env, legacy: nat, rows: seq<Row>, row: Row, k: nat)
    requires TotalOrder(env.ids) && Chain(env, legacy, rows + [row]) && DistinctIds(rows + [row]) && legacy <= |rows|
    requires k <= |Walk(env, rows)|
    requires forall i :: 0 <= i < k ==> Before(RowKey(env)(Walk(env, rows)[i]), RowKey(env)(row))
    requires forall i :: k <= i < |Walk(env, rows)| ==> Before(RowKey(env)(row), RowKey(env)(Walk(env, rows)[i]))
    ensures Walk(env, rows + [row]) == Walk(env, rows)[..k] + [row] + Walk(env, rows)[k..]
  {
    var after, s := rows + [row], rows[legacy..];
    ChainPrefix(env, legacy, after, |rows|);
    assert after[..|rows|] == rows;
    HashedOfChain(env, legacy, rows);
    HashedOfChain(env, legacy, after);
    assert after[legacy..] == s + [row];
    assert DistinctBy(RowKey(env), s + [row]) by {
      assert forall i :: 0 <= i <= |s| ==> (s + [row])[i] == after[legacy + i];
    }
    SortWithOne(RowKey(env), s, row, k);
  }

  /**
   * A row that lands below already appended rows is reported at its successor: the walk
   * accepts the late row itself and breaks at the row after it.
   */
  lemma LatecomerReported(env: Env, legacy: nat, rows: seq<Row>, late: Row, k: nat)
    requires ValidEnv(env) && legacy <= |rows| && Chain(env, legacy, rows) && Chain(env, legacy, rows + [late])
    requires DistinctIds(rows) && DistinctIds(rows + [late]) && NoCollision(env, rows + [late])
    requires CanonicalHistory(env, legacy, rows) && VerifyFrom(env, Walk(env, rows), 0).ok
    requires k < |Walk(env, rows)|
    requires forall i :: 0 <= i < k ==> Before(RowKey(env)(Walk(env, rows)[i]), RowKey(env)(late))
    requires forall i :: k <= i < |Walk(env, rows)| ==> Before(RowKey(env)(late), RowKey(env)(Walk(env, rows)[i]))
    ensures var v := Walk(env, rows + [late]);
      v == Walk(env, rows)[..k] + [late] + Walk(env, rows)[k..] && BrokenLinkAt(VerifyFrom(env, v, 0), v, k + 1)
  {
    WalkInserts(env, legacy, rows, late, k);
    DigestsDistinct(env, legacy, rows + [late]);
    LatecomerBreaks(env, legacy, rows, late, k);
  }

  lemma LatecomerBreaks(env: Env, legacy: nat, rows: seq<Row>, late: Row, k: nat)
    requires TotalOrder(env.ids) && legacy <= |rows| && Chain(env, legacy, rows) && Chain(env, legacy, rows + [late])
    requires DistinctIds(rows) && DistinctIds(rows + [late]) && DistinctDigests(env, rows + [late], legacy)
    requires CanonicalHistory(env, legacy, rows) && VerifyFrom(env, Walk(env, rows), 0).ok
    requires k < |Walk(env, rows)| && Before(RowKey(env)(late), RowKey(env)(Walk(env, rows)[k]))
    requires Walk(env, rows + [late]) == Walk(env, rows)[..k] + [late] + Walk(env, rows)[k..]
    ensures BrokenLinkAt(VerifyFrom(env, Walk(env, rows + [late]), 0), Walk(env, rows + [late]), k + 1)
  {
    var w, v := Walk(env, rows), Walk(env, rows + [late]);
    LateIsNew(rows, late);
    LateRowUnordered(env, legacy, rows, late, w[k], k);
    VerifyFromFinds(env, w, 0);
    forall i | 0 <= i <= k ensures SoundAt(env, v, i) {
      if i < k {
        assert SoundAt(env, w, i) && v[i] == w[i] && (i > 0 ==> v[i - 1] == w[i - 1]);
      } else {
        LateRowLinks(env, legacy, rows, late, k);
      }
    }
    FirstBreakIs(env, v, k + 1);
  }

  lemma LateIsNew(rows: seq<Row>, late: Row)
    requires DistinctIds(rows + [late])
    ensures late !in rows
  {
    var after := rows + [late];
    forall i | 0 <= i < |rows| ensures rows[i] != late {
      assert after[i].id != after[|rows|].id;
    }
  }

  /** The successor of the late row was appended before it, so it carries another hash. */
  lemma LateRowUnordered(env: Env, legacy: nat, rows: seq<Row>, late: Row, next: Row, k: nat)
    requires TotalOrder(env.ids) && legacy <= |rows| && Chain(env, legacy, rows) && Chain(env, legacy, rows + [late])
    requires DistinctIds(rows + [late]) && DistinctDigests(env, rows + [late], legacy) && late !in rows
    requires DistinctIds(rows) && k < |Walk(env, rows)| && next == Walk(env, rows)[k]
    requires Walk(env, rows + [late]) == Walk(env, rows)[..k] + [late] + Walk(env, rows)[k..]
    ensures var v := Walk(env, rows + [late]);
      v[k] == late && v[k + 1] == next && HashOk(env, next) && next.prevHash != late.eventHash
  {
    var v := Walk(env, rows + [late]);
    LatestPosition(rows, late);
    WalkSoundIff(env, legacy, rows + [late], k + 1);
    var q := AppendedAt(env, legacy, rows, k);
    assert v[k] == late && v[k + 1] == next;
    assert !Ordered(env, legacy, rows + [late], late, next);
  }

  lemma {:induction false} LatestPosition(rows: seq<Row>, late: Row)
    requires late !in rows
    ensures Position(rows + [late], late) == |rows|
    ensures forall r :: r in rows ==> Position(rows + [late], r) < |rows|
  {
    var after := rows + [late];
    assert after[|rows|] == late && late in after;
    assert Position(after, late) == |rows|;
    forall r | r in rows ensures Position(after, r) < |rows| {
      var i :| 0 <= i < |rows| && rows[i] == r;
      FirstPosition(after, r, i);
    }
  }

  lemma {:induction false} FirstPosition(rows: seq<Row>, r: Row, i: nat)
    requires i < |rows| && rows[i] == r
    ensures Position(rows, r) <= i
  {
    if rows[0] != r {
      assert rows[1..][i - 1] == r;
      FirstPosition(rows[1..], r, i - 1);
    }
  }

  /** The late row itself continues the chain: nothing separates it from the row below it. */
  lemma LateRowLinks(env: Env, legacy: nat, rows: seq<Row>, late: Row, k: nat)
    requires TotalOrder(env.ids) && legacy <= |rows| && Chain(env, legacy, rows) && Chain(env, legacy, rows + [late])
    requires DistinctIds(rows) && DistinctIds(rows + [late]) && DistinctDigests(env, rows + [late], legacy)
    requires CanonicalHistory(env, legacy, rows)
    requires late !in rows && k < |Walk(env, rows)|
    requires Walk(env, rows + [late]) == Walk(env, rows)[..k] + [late] + Walk(env, rows)[k..]
    requires Before(RowKey(env)(late), RowKey(env)(Walk(env, rows)[k]))
    ensures SoundAt(env, Walk(env, rows + [late]), k)
  {
    WalkSoundIff(env, legacy, rows + [late], k);
    if k > 0 {
      LateRowOrdered(env, legacy, rows, late, k);
    }
  }

  lemma LateRowOrdered(env: Env, legacy: nat, rows: seq<Row>, late: Row, k: nat)
    requires TotalOrder(env.ids) && legacy <= |rows| && Chain(env, legacy, rows) && DistinctIds(rows)
    requires CanonicalHistory(env, legacy, rows)
    requires late !in rows && 0 < k < |Walk(env, rows)|
    requires Before(RowKey(env)(late), RowKey(env)(Walk(env, rows)[k]))
    ensures Ordered(env, legacy, rows + [late], Walk(env, rows)[k - 1], late)
  {
    var after, r := rows + [late], Walk(env, rows)[k - 1];
    LatestPosition(rows, late);
    var p := AppendedAt(env, legacy, rows, k - 1);
    var q := AppendedAt(env, legacy, rows, k);
    HistoryPair(env, legacy, rows, p, q);
    assert after[p] == r && r in after && after[|rows|] == late && late in after;
    forall m | 0 <= m < legacy ensures !Between(env, r, after[m], late) {
      assert !Between(env, rows[p], rows[m], rows[q]);
    }
  }

  /** In a canonical history the walk is the table itself, without the legacy rows. */
  lemma CanonicalWalk(env: Env, legacy: nat, rows: seq<Row>)
    requires legacy <= |rows|
    requires forall i :: 0 <= i < |rows| ==> (rows[i].eventHash.None? <==> i < legacy)
    requires Ascending(RowKey(env), rows[legacy..])
    ensures Walk(env, rows) == rows[legacy..]
  {
    HashedSplit(legacy, rows);
    SortOfAscending(RowKey(env), rows[legacy..]);
  }

  lemma CanonicalHistoryAscends(env: Env, legacy: nat, rows: seq<Row>)
    requires legacy <= |rows| && Chain(env, legacy, rows) && CanonicalHistory(env, legacy, rows)
    ensures Ascending(RowKey(env), rows[legacy..]) && Walk(env, rows) == rows[legacy..]
  {
    forall i, j | 0 <= i < j < |rows[legacy..]|
      ensures Before(RowKey(env)(rows[legacy..][i]), RowKey(env)(rows[legacy..][j]))
    {
      HistoryPair(env, legacy, rows, legacy + i, legacy + j);
    }
    HashedOfChain(env, legacy, rows);
    SortOfAscending(RowKey(env), rows[legacy..]);
  }

  function Without<T>(s: seq<T>, i: nat): (r: seq<T>)
    requires i < |s|
    ensures |r| == |s| - 1
  {
    s[..i] + s[i + 1..]
  }

  /** Every row is sound, and row `k` does not share its digest with the one before it. */
  ghost predicate SoundAround(env: Env, w: seq<Row>, k: nat) {
    && k < |w|
    && (forall i :: 0 <= i < |w| ==> SoundAt(env, w, i))
    && (0 < k ==> env.digest(w[k - 1]) != env.digest(w[k]))
  }

  lemma CutVerdict(env: Env, w: seq<Row>, k: nat, rest: seq<Row>)
    requires SoundAround(env, w, k) && rest == Without(w, k)
    ensures VerifyFrom(env, rest, 0).ok <==> k == 0 || k == |w| - 1
    ensures 0 < k < |w| - 1 ==> BrokenLinkAt(VerifyFrom(env, rest, 0), rest, k)
  {
    VerifyFromFinds(env, rest, 0);
    forall i | 0 <= i < |rest| && (i != k || k == 0) ensures SoundAt(env, rest, i) {
      assert SoundAt(env, w, if i < k then i else i + 1);
    }
    if 0 < k < |rest| {
      assert SoundAt(env, w, k) && SoundAt(env, w, k + 1) && SoundAt(env, w, k - 1);
      FirstBreakIs(env, rest, k);
    }
  }

  lemma EditVerdict(env: Env, w: seq<Row>, k: nat, edited: Row)
    requires k < |w| && forall i :: 0 <= i < |w| ==> SoundAt(env, w, i)
    requires edited.eventHash == w[k].eventHash
    requires HashOk(env, edited) && k > 0 ==> edited.prevHash == w[k].prevHash
    ensures var v := w[k := edited];
      && (VerifyFrom(env, v, 0).ok <==> HashOk(env, edited))
      && (!HashOk(env, edited) ==> VerifyFrom(env, v, 0) == Verdict(false, k, Some(HashMismatch(edited.id))))
  {
    var v := w[k := edited];
    VerifyFromFinds(env, v, 0);
    assert SoundAt(env, w, k);
    forall i | 0 <= i < |v| && i != k ensures SoundAt(env, v, i) {
      assert SoundAt(env, w, i);
    }
    assert SoundAt(env, v, k) <==> HashOk(env, edited);
  }

  /** The rows of a canonical history all verify. */
  lemma CanonicalIsSound(env: Env, legacy: nat, rows: seq<Row>)
    requires ValidEnv(env) && Chain(env, legacy, rows) && DistinctIds(rows) && NoCollision(env, rows)
    requires CanonicalHistory(env, legacy, rows)
    ensures Walk(env, rows) == rows[legacy..] && Ascending(RowKey(env), rows[legacy..])
    ensures forall i :: 0 <= i < |rows[legacy..]| ==> SoundAt(env, rows[legacy..], i)
  {
    CanonicalHistoryAscends(env, legacy, rows);
    ChainVerifiesIff(env, legacy, rows);
    VerifyFromFinds(env, rows[legacy..], 0);
  }

  lemma CutOut<T>(key: T -> Key, rows: seq<T>, legacy: nat, p: nat)
    requires legacy <= p < |rows| && Ascending(key, rows[legacy..])
    ensures var cut, w, k := Without(rows, p), rows[legacy..], p - legacy;
      cut[legacy..] == w[..k] + w[k + 1..] && Ascending(key, cut[legacy..])
  {
    var cut, w, k := Without(rows, p), rows[legacy..], p - legacy;
    assert cut[legacy..] == w[..k] + w[k + 1..];
    assert forall i :: 0 <= i < |cut[legacy..]| ==> cut[legacy..][i] == if i < k then w[i] else w[i + 1];
  }

  lemma WalkAfterDeletion(env: Env, legacy: nat, rows: seq<Row>, p: nat)
    requires Chain(env, legacy, rows) && CanonicalHistory(env, legacy, rows)
    requires legacy <= p < |rows|
    ensures Walk(env, Without(rows, p)) == Without(rows[legacy..], p - legacy)
  {
    var cut := Without(rows, p);
    CanonicalHistoryAscends(env, legacy, rows);
    CutOut(RowKey(env), rows, legacy, p);
    forall i | 0 <= i < |cut| ensures cut[i].eventHash.None? <==> i < legacy {
      var at := if i < p then i else i + 1;
      assert cut[i] == rows[at] && (at >= legacy ==> ChainedAt(env, rows, at));
    }
    CanonicalWalk(env, legacy, cut);
  }

  /**
   * Deleting one row of a canonical history is noticed exactly when rows remain on both
   * sides of it, and then at the row that followed it.
   */
  lemma DeletionReported(env: Env, legacy: nat, rows: seq<Row>, p: nat)
    requires ValidEnv(env) && Chain(env, legacy, rows) && DistinctIds(rows) && NoCollision(env, rows)
    requires CanonicalHistory(env, legacy, rows)
    requires legacy <= p < |rows|
    ensures var rest := Walk(env, Without(rows, p));
      && rest == Without(rows[legacy..], p - legacy)
      && (VerifyFrom(env, rest, 0).ok <==> p == legacy || p == |rows| - 1)
      && (legacy < p < |rows| - 1 ==> BrokenLinkAt(VerifyFrom(env, rest, 0), rest, p - legacy))
  {
    WalkAfterDeletion(env, legacy, rows, p);
    CanonicalSoundness(env, legacy, rows, p);
    CutCanonical(env, legacy, rows, p, Walk(env, Without(rows, p)));
  }

  lemma CutCanonical(env: Env, legacy: nat, rows: seq<Row>, p: nat, rest: seq<Row>)
    requires legacy <= p < |rows| && SoundAround(env, rows[legacy..], p - legacy)
    requires rest == Without(rows[legacy..], p - legacy)
    ensures VerifyFrom(env, rest, 0).ok <==> p == legacy || p == |rows| - 1
    ensures legacy < p < |rows| - 1 ==> BrokenLinkAt(VerifyFrom(env, rest, 0), rest, p - legacy)
  {
    CutVerdict(env, rows[legacy..], p - legacy, rest);
  }

  lemma CanonicalSoundness(env: Env, legacy: nat, rows: seq<Row>, p: nat)
    requires ValidEnv(env) && Chain(env, legacy, rows) && DistinctIds(rows) && NoCollision(env, rows)
    requires CanonicalHistory(env, legacy, rows)
    requires legacy <= p < |rows|
    ensures SoundAround(env, rows[legacy..], p - legacy)
  {
    CanonicalIsSound(env, legacy, rows);
    NeighboursDiffer(env, legacy, rows, p);
  }

  lemma NeighboursDiffer(env: Env, legacy: nat, rows: seq<Row>, p: nat)
    requires ValidEnv(env) && Chain(env, legacy, rows) && DistinctIds(rows) && NoCollision(env, rows)
    requires legacy <= p < |rows|
    ensures var w := rows[legacy..]; p > legacy ==> env.digest(w[p - legacy - 1]) != env.digest(w[p - legacy])
  {
    DigestsDistinct(env, legacy, rows);
    if p > legacy {
      assert env.digest(rows[p - 1]) != env.digest(rows[p]);
    }
  }

  lemma WalkAfterEdit(env: Env, legacy: nat, rows: seq<Row>, p: nat, edited: Row)
    requires Chain(env, legacy, rows) && CanonicalHistory(env, legacy, rows)
    requires legacy <= p < |rows|
    requires edited.id == rows[p].id && edited.createdAt == rows[p].createdAt && edited.eventHash == rows[p].eventHash
    ensures Walk(env, rows[p := edited]) == rows[legacy..][p - legacy := edited]
  {
    var after := rows[p := edited];
    CanonicalHistoryAscends(env, legacy, rows);
    assert after[legacy..] == rows[legacy..][p - legacy := edited];
    forall i | 0 <= i < |after| ensures after[i].eventHash.None? <==> i < legacy {
      assert i >= legacy ==> ChainedAt(env, rows, i);
    }
    CanonicalWalk(env, legacy, after);
  }

  /**
   * Editing columns of a row in place, without touching its id, instant or stored hash, is
   * noticed exactly when the digest input changed, and then at that row.
   */
  lemma EditReported(env: Env, legacy: nat, rows: seq<Row>, p: nat, edited: Row)
    requires ValidEnv(env) && Chain(env, legacy, rows) && DistinctIds(rows) && NoCollision(env, rows)
    requires CanonicalHistory(env, legacy, rows)
    requires legacy <= p < |rows|
    requires edited.id == rows[p].id && edited.createdAt == rows[p].createdAt && edited.eventHash == rows[p].eventHash
    requires PipeFree(OrEmpty(edited.prevHash))
    requires env.digest(edited) == env.digest(rows[p]) ==> Preimage(env, edited) == Preimage(env, rows[p])
    ensures var v := VerifyFrom(env, Walk(env, rows[p := edited]), 0);
      && (v.ok <==> Preimage(env, edited) == Preimage(env, rows[p]))
      && (!v.ok ==> v == Verdict(false, p - legacy, Some(HashMismatch(edited.id))))
  {
    var k, w := p - legacy, rows[legacy..];
    CanonicalIsSound(env, legacy, rows);
    WalkAfterEdit(env, legacy, rows, p, edited);
    EditedDigest(env, legacy, rows, p, edited);
    assert SoundAt(env, w, k) && (k > 0 ==> SoundAt(env, w, k - 1)) && w[k] == rows[p];
    EditVerdict(env, w, k, edited);
  }

  lemma EditedDigest(env: Env, legacy: nat, rows: seq<Row>, p: nat, edited: Row)
    requires ValidEnv(env) && Chain(env, legacy, rows) && DistinctIds(rows)
    requires legacy <= p < |rows|
    requires edited.id == rows[p].id && edited.eventHash == rows[p].eventHash
    requires PipeFree(OrEmpty(edited.prevHash))
    requires env.digest(edited) == env.digest(rows[p]) ==> Preimage(env, edited) == Preimage(env, rows[p])
    ensures HashOk(env, edited) <==> Preimage(env, edited) == Preimage(env, rows[p])
    ensures HashOk(env, edited) && rows[p].prevHash.Some? ==> edited.prevHash == rows[p].prevHash
  {
    assert ChainedAt(env, rows, p);
    PrevHashPipeFree(env, legacy, rows, p);
    if Preimage(env, edited) == Preimage(env, rows[p]) {
      PreimageHead(env, edited, rows[p]);
    }
  }
}
