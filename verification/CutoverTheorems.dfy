/**
 * What the cutover promises end to end: when verification passes after a copy, and what a
 * copy to MongoDB and back restores.
 */
module CutoverTheorems {
  import opened Wrappers
  import opened Text
  import opened Sorting
  import opened CanonicalJson
  import opened Mappers
  import opened Checksums
  import opened Cutover

  // When verification passes after a copy

  function Pks(mapping: Mapping, docs: seq<Doc>): (pks: seq<Js>)
    ensures |pks| == |docs| && forall i :: 0 <= i < |docs| ==> pks[i] == PkOf(mapping, docs[i])
  {
    seq(|docs|, i requires 0 <= i < |docs| => PkOf(mapping, docs[i]))
  }

  function ByRank(order: Order): Js -> Key {
    (pk: Js) => Key(0, order(pk))
  }

  /** Primary keys that sort alike are equal. */
  ghost predicate Injective(order: Order, pks: seq<Js>) {
    forall i, j :: 0 <= i < |pks| && 0 <= j < |pks| && order(pks[i]) == order(pks[j]) ==> pks[i] == pks[j]
  }

  /** The document is there under its key, with the same canonical form. */
  ghost predicate FormMatched(env: Env, mapping: Mapping, doc: Doc, src: seq<Doc>)
    requires PlainDoc(doc) && PlainDocs(src)
  {
    exists j :: 0 <= j < |src| && PkOf(mapping, src[j]) == PkOf(mapping, doc)
                && Canonicalize(env, Obj(src[j])) == Canonicalize(env, Obj(doc))
  }

  /** `e` is an old document, or the stored form of a copied one. */
  ghost predicate Origin(mapping: Mapping, docs: seq<Doc>, src: seq<Doc>, e: Doc) {
    e in docs || exists j, n: nat :: 0 <= j < |src| && e == Stored(src[j], n)
  }

  lemma AfterCopy(mapping: Mapping, docs: seq<Doc>, src: seq<Doc>)
    requires Present(mapping, src) && DistinctPks(mapping, docs)
    ensures var after := InsertAll(Stored, mapping, docs, src);
      && DistinctPks(mapping, after)
      && (forall i :: 0 <= i < |after| ==> Origin(mapping, docs, src, after[i]))
      && (forall m :: 0 <= m < |docs| ==> docs[m] in after)
      && (forall j :: 0 <= j < |src| ==> HasPk(mapping, after, PkOf(mapping, src[j])))
  {
    var after := InsertAll(Stored, mapping, docs, src);
    StoredKeepsPks(mapping, src);
    InsertAllKeeps(Stored, mapping, docs, src);
    InsertAllDistinct(Stored, mapping, docs, src);
    forall i | 0 <= i < |after| ensures Origin(mapping, docs, src, after[i]) {
      if i < |docs| {
        assert after[i] == docs[i];
      } else {
        assert Copied(Stored, mapping, docs, src, after, i);
      }
    }
    forall m | 0 <= m < |docs| ensures docs[m] in after {
      assert after[m] == docs[m];
    }
  }

  lemma StoredLooksAlike(env: Env, doc: Doc, n: nat)
    requires PlainDoc(doc)
    ensures PlainDoc(Stored(doc, n)) && Canonicalize(env, Obj(Stored(doc, n))) == Canonicalize(env, Obj(doc))
  {
    IdIsInvisible(env, doc, ObjectId(n));
  }

  lemma OriginPk(mapping: Mapping, docs: seq<Doc>, src: seq<Doc>, e: Doc)
    requires Present(mapping, src) && Origin(mapping, docs, src, e)
    ensures PkOf(mapping, e) in Pks(mapping, docs + src)
  {
    var all := Pks(mapping, docs + src);
    if e in docs {
      var m :| 0 <= m < |docs| && docs[m] == e;
      assert all[m] == PkOf(mapping, e);
    } else {
      var j, n: nat :| 0 <= j < |src| && e == Stored(src[j], n);
      StoredPk(mapping, src[j], n);
      assert all[|docs| + j] == PkOf(mapping, e);
    }
  }

  lemma OriginPlain(env: Env, mapping: Mapping, docs: seq<Doc>, src: seq<Doc>, e: Doc)
    requires PlainDocs(docs) && PlainDocs(src) && Origin(mapping, docs, src, e)
    ensures PlainDoc(e)
  {
    if e !in docs {
      var j, n: nat :| 0 <= j < |src| && e == Stored(src[j], n);
      StoredLooksAlike(env, src[j], n);
    }
  }

  lemma KeyedDistinct(order: Order, mapping: Mapping, docs: seq<Doc>)
    requires Keyed(order, mapping, docs)
    ensures DistinctPks(mapping, docs) && Present(mapping, docs)
  {
    forall i, j | 0 <= i < j < |docs| ensures PkOf(mapping, docs[i]) != PkOf(mapping, docs[j]) {
      assert ByPk(order, mapping)(docs[i]) != ByPk(order, mapping)(docs[j]);
    }
    forall i | 0 <= i < |docs| ensures PkOf(mapping, docs[i]) != Undefined {
      assert !Absent(PkOf(mapping, docs[i]));
    }
  }

  /** The target stays keyed and printable. */
  lemma TargetKeyed(env: Env, order: Order, mapping: Mapping, docs: seq<Doc>, src: seq<Doc>)
    requires Keyed(order, mapping, docs) && Keyed(order, mapping, src)
    requires Injective(order, Pks(mapping, docs + src))
    requires PlainDocs(docs) && PlainDocs(src)
    ensures Keyed(order, mapping, InsertAll(Stored, mapping, docs, src))
    ensures PlainDocs(Ordered(order, mapping, InsertAll(Stored, mapping, docs, src)))
  {
    var after, all := InsertAll(Stored, mapping, docs, src), Pks(mapping, docs + src);
    KeyedDistinct(order, mapping, docs);
    KeyedDistinct(order, mapping, src);
    AfterCopy(mapping, docs, src);
    forall i | 0 <= i < |after| ensures PkOf(mapping, after[i]) in all && PlainDoc(after[i]) {
      OriginPk(mapping, docs, src, after[i]);
      OriginPlain(env, mapping, docs, src, after[i]);
    }
    AllPresent(order, mapping, docs, src);
    KeyedByKeys(order, mapping, after, all);
    OrderedPlain(order, mapping, after);
  }

  lemma AllPresent(order: Order, mapping: Mapping, docs: seq<Doc>, src: seq<Doc>)
    requires Keyed(order, mapping, docs) && Keyed(order, mapping, src)
    ensures forall k :: 0 <= k < |docs + src| ==> !Absent(Pks(mapping, docs + src)[k])
  {
    forall k | 0 <= k < |docs + src| ensures !Absent(Pks(mapping, docs + src)[k]) {
      assert (docs + src)[k] == if k < |docs| then docs[k] else src[k - |docs|];
    }
  }

  lemma KeyedByKeys(order: Order, mapping: Mapping, table: seq<Doc>, all: seq<Js>)
    requires DistinctPks(mapping, table) && Injective(order, all)
    requires forall k :: 0 <= k < |all| ==> !Absent(all[k])
    requires forall i :: 0 <= i < |table| ==> PkOf(mapping, table[i]) in all
    ensures Keyed(order, mapping, table)
  {
    forall i, j | 0 <= i < j < |table| ensures ByPk(order, mapping)(table[i]) != ByPk(order, mapping)(table[j]) {
      var p, q := PkOf(mapping, table[i]), PkOf(mapping, table[j]);
      assert p != q && p in all && q in all;
    }
  }

  lemma KeysAscend(order: Order, mapping: Mapping, sorted: seq<Doc>)
    requires Ascending(ByPk(order, mapping), sorted)
    ensures Ascending(ByRank(order), Pks(mapping, sorted))
  {
    forall i, j | 0 <= i < j < |sorted|
      ensures Before(ByRank(order)(Pks(mapping, sorted)[i]), ByRank(order)(Pks(mapping, sorted)[j]))
    {
      assert Before(ByPk(order, mapping)(sorted[i]), ByPk(order, mapping)(sorted[j]));
    }
  }

  /** As many distinct members, all of them shared, leave none out. */
  lemma {:induction false} SameSize<T>(a: seq<T>, b: seq<T>)
    requires |a| == |b|
    requires forall i, j :: 0 <= i < j < |a| ==> a[i] != a[j]
    requires forall i :: 0 <= i < |a| ==> a[i] in b
    ensures forall i :: 0 <= i < |b| ==> b[i] in a
  {
    if a != [] {
      var n := |a| - 1;
      var k :| 0 <= k < |b| && b[k] == a[n];
      var rest := b[..k] + b[k + 1..];
      forall i | 0 <= i < n ensures a[..n][i] in rest {
        var m :| 0 <= m < |b| && b[m] == a[i];
        assert rest[if m < k then m else m - 1] == a[i];
      }
      SameSize(a[..n], rest);
      forall i | 0 <= i < |b| ensures b[i] in a {
        if i != k {
          assert b[i] == rest[if i < k then i else i - 1];
          assert b[i] in a[..n];
        }
      }
    }
  }

  /** With equal key lists, entry `i` of the target is row `i`, unless an old document differs. */
  lemma EntryLooksAlike(env: Env, mapping: Mapping, docs: seq<Doc>, src: seq<Doc>, e: Doc, i: nat)
    requires PlainDocs(docs) && PlainDocs(src) && Present(mapping, src) && DistinctPks(mapping, src)
    requires Origin(mapping, docs, src, e) && PlainDoc(e)
    requires i < |src| && PkOf(mapping, e) == PkOf(mapping, src[i])
    requires forall m :: 0 <= m < |docs| ==> FormMatched(env, mapping, docs[m], src)
    ensures Canonicalize(env, Obj(e)) == Canonicalize(env, Obj(src[i]))
  {
    if e in docs {
      var m :| 0 <= m < |docs| && docs[m] == e;
      assert FormMatched(env, mapping, docs[m], src);
      var j :| 0 <= j < |src| && PkOf(mapping, src[j]) == PkOf(mapping, e)
        && Canonicalize(env, Obj(src[j])) == Canonicalize(env, Obj(e));
      assert j == i;
    } else {
      var j, n: nat :| 0 <= j < |src| && e == Stored(src[j], n);
      StoredPk(mapping, src[j], n);
      StoredLooksAlike(env, src[j], n);
      assert j == i;
    }
  }

  /** Both lists have as many entries, with the same canonical forms position by position. */
  ghost predicate FormsAgree(env: Env, a: seq<Doc>, b: seq<Doc>)
    requires PlainDocs(a) && PlainDocs(b)
  {
    |a| == |b| && forall i :: 0 <= i < |a| ==> Canonicalize(env, Obj(a[i])) == Canonicalize(env, Obj(b[i]))
  }

  /** Everything the two lists of keys say about each other. */
  lemma TargetKeys(order: Order, mapping: Mapping, docs: seq<Doc>, src: seq<Doc>)
    requires Keyed(order, mapping, docs) && Keyed(order, mapping, src) && Ascending(ByPk(order, mapping), src)
    requires Keyed(order, mapping, InsertAll(Stored, mapping, docs, src))
    ensures var sorted := Ordered(order, mapping, InsertAll(Stored, mapping, docs, src));
      && (forall i :: 0 <= i < |sorted| ==> Origin(mapping, docs, src, sorted[i]))
      && (forall m :: 0 <= m < |docs| ==> docs[m] in sorted)
      && (forall j :: 0 <= j < |src| ==> PkOf(mapping, src[j]) in Pks(mapping, sorted))
      && Ascending(ByRank(order), Pks(mapping, sorted)) && Ascending(ByRank(order), Pks(mapping, src))
  {
    var after := InsertAll(Stored, mapping, docs, src);
    var sorted := Ordered(order, mapping, after);
    KeyedDistinct(order, mapping, docs);
    KeyedDistinct(order, mapping, src);
    AfterCopy(mapping, docs, src);
    SortPermutes(ByPk(order, mapping), after);
    SameMembers(sorted, after);
    OrderedKeyed(order, mapping, after);
    KeysAscend(order, mapping, sorted);
    KeysAscend(order, mapping, src);
    forall i | 0 <= i < |sorted| ensures Origin(mapping, docs, src, sorted[i]) {
      assert sorted[i] in after;
    }
    forall j | 0 <= j < |src| ensures PkOf(mapping, src[j]) in Pks(mapping, sorted) {
      assert HasPk(mapping, after, PkOf(mapping, src[j]));
      var k :| 0 <= k < |after| && PkOf(mapping, after[k]) == PkOf(mapping, src[j]);
      assert after[k] in sorted;
      var m :| 0 <= m < |sorted| && sorted[m] == after[k];
      assert Pks(mapping, sorted)[m] == PkOf(mapping, src[j]);
    }
  }

  lemma MatchedAgree(env: Env, order: Order, mapping: Mapping, docs: seq<Doc>, src: seq<Doc>, sorted: seq<Doc>)
    requires Keyed(order, mapping, src) && PlainDocs(docs) && PlainDocs(src) && PlainDocs(sorted)
    requires forall i :: 0 <= i < |sorted| ==> Origin(mapping, docs, src, sorted[i])
    requires forall j :: 0 <= j < |src| ==> PkOf(mapping, src[j]) in Pks(mapping, sorted)
    requires Ascending(ByRank(order), Pks(mapping, sorted)) && Ascending(ByRank(order), Pks(mapping, src))
    requires forall m :: 0 <= m < |docs| ==> FormMatched(env, mapping, docs[m], src)
    ensures FormsAgree(env, sorted, src)
  {
    KeyedDistinct(order, mapping, src);
    var p, q := Pks(mapping, sorted), Pks(mapping, src);
    forall i | 0 <= i < |p| ensures p[i] in q {
      OriginMatched(env, mapping, docs, src, sorted[i]);
    }
    AscendingUnique(ByRank(order), p, q);
    forall i | 0 <= i < |sorted| ensures Canonicalize(env, Obj(sorted[i])) == Canonicalize(env, Obj(src[i])) {
      assert p[i] == q[i];
      EntryLooksAlike(env, mapping, docs, src, sorted[i], i);
    }
  }

  lemma OriginMatched(env: Env, mapping: Mapping, docs: seq<Doc>, src: seq<Doc>, e: Doc)
    requires PlainDocs(docs) && PlainDocs(src) && Present(mapping, src) && Origin(mapping, docs, src, e)
    requires forall m :: 0 <= m < |docs| ==> FormMatched(env, mapping, docs[m], src)
    ensures PkOf(mapping, e) in Pks(mapping, src)
  {
    var q := Pks(mapping, src);
    if e in docs {
      var m :| 0 <= m < |docs| && docs[m] == e;
      assert FormMatched(env, mapping, docs[m], src);
      var j :| 0 <= j < |src| && PkOf(mapping, src[j]) == PkOf(mapping, e);
      assert q[j] == PkOf(mapping, e);
    } else {
      var j, n: nat :| 0 <= j < |src| && e == Stored(src[j], n);
      StoredPk(mapping, src[j], n);
      assert q[j] == PkOf(mapping, e);
    }
  }

  lemma AgreeMatches(env: Env, order: Order, mapping: Mapping, src: seq<Doc>, sorted: seq<Doc>, doc: Doc)
    requires PlainDocs(src) && PlainDocs(sorted) && PlainDoc(doc) && doc in sorted
    requires forall j :: 0 <= j < |src| ==> PkOf(mapping, src[j]) in Pks(mapping, sorted)
    requires Ascending(ByRank(order), Pks(mapping, sorted)) && Ascending(ByRank(order), Pks(mapping, src))
    requires FormsAgree(env, sorted, src)
    ensures FormMatched(env, mapping, doc, src)
  {
    var p, q := Pks(mapping, sorted), Pks(mapping, src);
    forall i, j | 0 <= i < j < |q| ensures q[i] != q[j] {
      assert Before(ByRank(order)(q[i]), ByRank(order)(q[j]));
    }
    SameSize(q, p);
    AscendingUnique(ByRank(order), p, q);
    var i :| 0 <= i < |sorted| && sorted[i] == doc;
    assert p[i] == q[i];
  }

  lemma CopyFormsAgreeIff(env: Env, order: Order, mapping: Mapping, docs: seq<Doc>, src: seq<Doc>)
    requires Keyed(order, mapping, docs) && Keyed(order, mapping, src) && Ascending(ByPk(order, mapping), src)
    requires Injective(order, Pks(mapping, docs + src)) && PlainDocs(docs) && PlainDocs(src)
    ensures Keyed(order, mapping, InsertAll(Stored, mapping, docs, src))
    ensures var sorted := Ordered(order, mapping, InsertAll(Stored, mapping, docs, src));
      && PlainDocs(sorted)
      && (FormsAgree(env, sorted, src) <==> forall m :: 0 <= m < |docs| ==> FormMatched(env, mapping, docs[m], src))
  {
    TargetKeyed(env, order, mapping, docs, src);
    TargetKeys(order, mapping, docs, src);
    var sorted := Ordered(order, mapping, InsertAll(Stored, mapping, docs, src));
    if FormsAgree(env, sorted, src) {
      forall m | 0 <= m < |docs| ensures FormMatched(env, mapping, docs[m], src) {
        AgreeMatches(env, order, mapping, src, sorted, docs[m]);
      }
    }
    if forall m :: 0 <= m < |docs| ==> FormMatched(env, mapping, docs[m], src) {
      MatchedAgree(env, order, mapping, docs, src, sorted);
    }
  }

  // The same about the documents themselves

  ghost predicate OneKeyDocs(docs: seq<Doc>) {
    forall i :: 0 <= i < |docs| ==> OneKeyEach(Obj(docs[i]))
  }

  /** The source has a document with this key that is alike: equal apart from the surrogate and the kind of text. */
  ghost predicate Matched(env: Env, mapping: Mapping, doc: Doc, src: seq<Doc>)
    requires PlainDoc(doc) && PlainDocs(src)
  {
    exists j :: 0 <= j < |src| && PkOf(mapping, src[j]) == PkOf(mapping, doc) && Alike(env, Obj(src[j]), Obj(doc))
  }

  /** Both lists have as many entries, alike position by position. */
  ghost predicate Agree(env: Env, a: seq<Doc>, b: seq<Doc>)
    requires PlainDocs(a) && PlainDocs(b)
  {
    |a| == |b| && forall i :: 0 <= i < |a| ==> Alike(env, Obj(a[i]), Obj(b[i]))
  }

  lemma MatchedIff(env: Env, mapping: Mapping, doc: Doc, src: seq<Doc>)
    requires TotalOrder(env.rank) && PlainDoc(doc) && PlainDocs(src) && OneKeyEach(Obj(doc)) && OneKeyDocs(src)
    ensures Matched(env, mapping, doc, src) <==> FormMatched(env, mapping, doc, src)
  {
    forall j | 0 <= j < |src|
      ensures Alike(env, Obj(src[j]), Obj(doc)) <==> Canonicalize(env, Obj(src[j])) == Canonicalize(env, Obj(doc))
    {
      CanonicalFormIff(env, Obj(src[j]), Obj(doc));
    }
  }

  lemma AgreeIff(env: Env, a: seq<Doc>, b: seq<Doc>)
    requires TotalOrder(env.rank) && PlainDocs(a) && PlainDocs(b) && OneKeyDocs(a) && OneKeyDocs(b)
    ensures Agree(env, a, b) <==> FormsAgree(env, a, b)
  {
    if |a| == |b| {
      forall i | 0 <= i < |a|
        ensures Alike(env, Obj(a[i]), Obj(b[i])) <==> Canonicalize(env, Obj(a[i])) == Canonicalize(env, Obj(b[i]))
      {
        CanonicalFormIff(env, Obj(a[i]), Obj(b[i]));
      }
    }
  }

  lemma TargetOneKey(env: Env, order: Order, mapping: Mapping, docs: seq<Doc>, src: seq<Doc>)
    requires Present(mapping, src) && DistinctPks(mapping, docs) && PlainDocs(src) && OneKeyDocs(docs)
      && OneKeyDocs(src)
    ensures OneKeyDocs(Ordered(order, mapping, InsertAll(Stored, mapping, docs, src)))
  {
    var after := InsertAll(Stored, mapping, docs, src);
    var sorted := Ordered(order, mapping, after);
    AfterCopy(mapping, docs, src);
    SortPermutes(ByPk(order, mapping), after);
    SameMembers(sorted, after);
    forall i | 0 <= i < |sorted| ensures OneKeyEach(Obj(sorted[i])) {
      assert sorted[i] in after;
      var k :| 0 <= k < |after| && after[k] == sorted[i];
      OriginOneKey(env, mapping, docs, src, after[k]);
    }
  }

  lemma OriginOneKey(env: Env, mapping: Mapping, docs: seq<Doc>, src: seq<Doc>, e: Doc)
    requires PlainDocs(src) && OneKeyDocs(docs) && OneKeyDocs(src) && Origin(mapping, docs, src, e)
    ensures OneKeyEach(Obj(e))
  {
    if e !in docs {
      var j, n: nat :| 0 <= j < |src| && e == Stored(src[j], n);
      IdIsInvisible(env, src[j], ObjectId(n));
    }
  }

  /**
   * Existing documents are never overwritten, so after a copy the target agrees with the
   * source exactly when every document it already held is one of the source's, under the
   * same key and alike. `src` are the mapped rows; that they ascend in MongoDB's order says
   * that both stores sort primary keys alike.
   */
  lemma CopyAgreesIff(env: Env, order: Order, mapping: Mapping, docs: seq<Doc>, src: seq<Doc>)
    requires Keyed(order, mapping, docs) && Keyed(order, mapping, src) && Ascending(ByPk(order, mapping), src)
    requires Injective(order, Pks(mapping, docs + src)) && PlainDocs(docs) && PlainDocs(src)
    requires TotalOrder(env.rank) && OneKeyDocs(docs) && OneKeyDocs(src)
    ensures var sorted := Ordered(order, mapping, InsertAll(Stored, mapping, docs, src));
      && PlainDocs(sorted)
      && (Agree(env, sorted, src) <==> forall m :: 0 <= m < |docs| ==> Matched(env, mapping, docs[m], src))
  {
    CopyFormsAgreeIff(env, order, mapping, docs, src);
    KeyedDistinct(order, mapping, docs);
    KeyedDistinct(order, mapping, src);
    TargetOneKey(env, order, mapping, docs, src);
    AgreeIff(env, Ordered(order, mapping, InsertAll(Stored, mapping, docs, src)), src);
    forall m | 0 <= m < |docs|
      ensures Matched(env, mapping, docs[m], src) <==> FormMatched(env, mapping, docs[m], src)
    {
      MatchedIff(env, mapping, docs[m], src);
    }
  }

  /** SHA-256 does not collide on the two streams. */
  ghost predicate NoCollision(env: Env, sha: JsString -> JsString, a: seq<Doc>, b: seq<Doc>) {
    PlainDocs(a) && PlainDocs(b) && Digest(env, sha, a) == Digest(env, sha, b) ==>
      Lines(CanonicalDocs(env, a)) == Lines(CanonicalDocs(env, b))
  }

  lemma DigestsAgreeIff(env: Env, sha: JsString -> JsString, a: seq<Doc>, b: seq<Doc>)
    requires PlainDocs(a) && PlainDocs(b) && NoCollision(env, sha, a, b)
    ensures |a| == |b| && Digest(env, sha, a) == Digest(env, sha, b) <==> FormsAgree(env, a, b)
  {
    ChecksumsMatchIff(env, sha, a, b);
  }

  /** Both the counts and the checksums match after a copy exactly under that condition. */
  lemma VerifyPassesIff(env: Env, sha: JsString -> JsString, order: Order, mapping: Mapping, docs: seq<Doc>,
      src: seq<Doc>)
    requires Keyed(order, mapping, docs) && Keyed(order, mapping, src) && Ascending(ByPk(order, mapping), src)
    requires Injective(order, Pks(mapping, docs + src)) && PlainDocs(docs) && PlainDocs(src)
    requires TotalOrder(env.rank) && OneKeyDocs(docs) && OneKeyDocs(src)
    requires NoCollision(env, sha, Ordered(order, mapping, InsertAll(Stored, mapping, docs, src)), src)
    ensures var after := InsertAll(Stored, mapping, docs, src);
      && PlainDocs(Ordered(order, mapping, after))
      && (|after| == |src| && Digest(env, sha, Ordered(order, mapping, after)) == Digest(env, sha, src) <==>
          forall m :: 0 <= m < |docs| ==> Matched(env, mapping, docs[m], src))
  {
    CopyFormsAgreeIff(env, order, mapping, docs, src);
    DigestsAgreeIff(env, sha, Ordered(order, mapping, InsertAll(Stored, mapping, docs, src)), src);
    forall m | 0 <= m < |docs|
      ensures Matched(env, mapping, docs[m], src) <==> FormMatched(env, mapping, docs[m], src)
    {
      MatchedIff(env, mapping, docs[m], src);
    }
  }

  lemma KeyedInjective(order: Order, mapping: Mapping, src: seq<Doc>)
    requires Keyed(order, mapping, src)
    ensures Injective(order, Pks(mapping, src))
  {
    var pks := Pks(mapping, src);
    forall i, j | 0 <= i < j < |pks| ensures order(pks[i]) != order(pks[j]) {
      assert ByPk(order, mapping)(src[i]) != ByPk(order, mapping)(src[j]);
    }
  }

  lemma AgreeDigests(env: Env, sha: JsString -> JsString, a: seq<Doc>, b: seq<Doc>)
    requires PlainDocs(a) && PlainDocs(b) && FormsAgree(env, a, b)
    ensures Digest(env, sha, a) == Digest(env, sha, b)
  {
    assert CanonicalDocs(env, a) == CanonicalDocs(env, b);
  }

  /** A copy onto an empty target always verifies. */
  lemma CopyOntoEmptyVerifies(env: Env, sha: JsString -> JsString, order: Order, mapping: Mapping, src: seq<Doc>)
    requires Keyed(order, mapping, src) && Ascending(ByPk(order, mapping), src) && PlainDocs(src)
    ensures var after := InsertAll(Stored, mapping, [], src);
      && Keyed(order, mapping, after) && PlainDocs(Ordered(order, mapping, after))
      && |after| == |src|
      && Digest(env, sha, Ordered(order, mapping, after)) == Digest(env, sha, src)
  {
    KeyedInjective(order, mapping, src);
    assert [] + src == src;
    CopyFormsAgreeIff(env, order, mapping, [], src);
    AgreeDigests(env, sha, Ordered(order, mapping, InsertAll(Stored, mapping, [], src)), src);
  }

  // From the rows to the report

  /** What the key column of a row becomes. */
  function MappedPk(env: Env, mapping: Mapping, row: Doc): Result<Js, Failure> {
    MapValue(env, KindOf(mapping, mapping.pkColumn), mapping.pkColumn, PkOf(mapping, row))
  }

  /** MongoDB sorts the mapped keys as PostgreSQL sorts the keys. */
  ghost predicate SortAlike(env: Env, mapping: Mapping, pgOrder: Order, mongoOrder: Order, rows: seq<Doc>) {
    forall i, j :: 0 <= i < |rows| && 0 <= j < |rows| ==>
      var p, q := MappedPk(env, mapping, rows[i]), MappedPk(env, mapping, rows[j]);
      pgOrder(PkOf(mapping, rows[i])) < pgOrder(PkOf(mapping, rows[j])) && p.Ok? && q.Ok? ==>
        mongoOrder(p.value) < mongoOrder(q.value)
  }

  lemma {:induction false} FirstAt(props: Doc, key: JsString) returns (i: nat)
    requires Lookup(props, key).Some?
    ensures i < |props| && props[i] == Prop(key, Lookup(props, key).value)
    ensures forall k :: 0 <= k < i ==> props[k].key != key
  {
    if props[0].key == key {
      i := 0;
    } else {
      i := FirstAt(props[1..], key);
      i := i + 1;
    }
  }

  lemma {:induction false} LookupFirst(props: Doc, key: JsString, i: nat)
    requires i < |props| && props[i].key == key && forall k :: 0 <= k < i ==> props[k].key != key
    ensures Lookup(props, key) == Some(props[i].value)
  {
    if i > 0 {
      LookupFirst(props[1..], key, i - 1);
    }
  }

  lemma {:induction false} FillRequiredKeeps(doc: Doc, fields: seq<JsString>)
    ensures doc <= FillRequired(doc, fields)
  {
    if fields != [] {
      FillRequiredKeeps(doc, fields[..|fields| - 1]);
    }
  }

  lemma PkIsMapped(env: Env, mapping: Mapping, row: Doc)
    requires !Absent(PkOf(mapping, row)) && ToDoc(env, mapping, row).Ok?
    ensures MappedPk(env, mapping, row) == Ok(PkOf(mapping, ToDoc(env, mapping, row).value))
    ensures !Absent(PkOf(mapping, ToDoc(env, mapping, row).value))
  {
    var i := FirstAt(row, mapping.pkColumn);
    var doc := Traverse(Mapper(env, mapping), row).value;
    TraverseShape(Mapper(env, mapping), row);
    FillRequiredKeeps(doc, mapping.requiredFields);
    LookupFirst(ToDoc(env, mapping, row).value, mapping.pkColumn, i);
    MappedIsPresent(env, KindOf(mapping, row[i].key), row[i].key, row[i].value);
  }

  lemma MappedIsPresent(env: Env, kind: ColumnKind, key: JsString, v: Js)
    requires !Absent(v) && MapValue(env, kind, key, v).Ok?
    ensures !Absent(MapValue(env, kind, key, v).value)
  {
  }

  lemma MappedRowsAscend(
    env: Env, mapping: Mapping, pgOrder: Order, mongoOrder: Order, sorted: seq<Doc>, src: seq<Doc>)
    requires Ascending(ByPk(pgOrder, mapping), sorted) && SortAlike(env, mapping, pgOrder, mongoOrder, sorted)
    requires forall i :: 0 <= i < |sorted| ==> !Absent(PkOf(mapping, sorted[i]))
    requires ToDocs(env, mapping, sorted) == Ok(src)
    ensures Keyed(mongoOrder, mapping, src) && Ascending(ByPk(mongoOrder, mapping), src)
  {
    MapFirstIs(Documents(env, mapping), sorted, |sorted|);
    forall i | 0 <= i < |src|
      ensures MappedPk(env, mapping, sorted[i]) == Ok(PkOf(mapping, src[i])) && !Absent(PkOf(mapping, src[i]))
    {
      assert Documents(env, mapping)(sorted[i]) == Ok(src[i]);
      PkIsMapped(env, mapping, sorted[i]);
    }
    forall i, j | 0 <= i < j < |src|
      ensures Before(ByPk(mongoOrder, mapping)(src[i]), ByPk(mongoOrder, mapping)(src[j]))
    {
      assert Before(ByPk(pgOrder, mapping)(sorted[i]), ByPk(pgOrder, mapping)(sorted[j]));
    }
  }

  lemma SortAlikeOrdered(env: Env, mapping: Mapping, pgOrder: Order, mongoOrder: Order, rows: seq<Doc>)
    requires SortAlike(env, mapping, pgOrder, mongoOrder, rows)
    ensures SortAlike(env, mapping, pgOrder, mongoOrder, Ordered(pgOrder, mapping, rows))
  {
    var sorted := Ordered(pgOrder, mapping, rows);
    SortPermutes(ByPk(pgOrder, mapping), rows);
    SameMembers(sorted, rows);
    assert forall i :: 0 <= i < |sorted| ==> sorted[i] in rows;
  }

  /**
   * A copy that went through, followed by a verification: it passes if and only if every
   * document the collection held before is alike to the source's document with its key.
   * The first requirement about `after` is what CopyPgToMongo ensures, that about `r` what
   * VerifyCollection ensures.
   */
  lemma CopyVerifiesIff(
    env: Env, sha: JsString -> JsString, mapping: Mapping, pgOrder: Order, mongoOrder: Order, rows: seq<Doc>,
      docs: seq<Doc>,
    src: seq<Doc>, batchSize: nat, counts: Counts, after: seq<Doc>, r: Result<VerifyResult, Failure>, name: JsString)
    requires batchSize >= 1 && TotalOrder(env.rank)
    requires Keyed(pgOrder, mapping, rows) && Keyed(mongoOrder, mapping, docs)
    requires ToDocs(env, mapping, Ordered(pgOrder, mapping, rows)) == Ok(src)
    requires PlainDocs(docs) && OneKeyDocs(docs) && PlainDocs(src) && OneKeyDocs(src)
    requires SortAlike(env, mapping, pgOrder, mongoOrder, rows) && Injective(mongoOrder, Pks(mapping, docs + src))
    requires Finished(ToMongo(env, mapping), mapping, docs, Ordered(pgOrder, mapping, rows), batchSize, Ok(counts),
      after)
    requires NoCollision(env, sha, Ordered(mongoOrder, mapping, after), src)
    ensures Keyed(mongoOrder, mapping, after) && PlainDocs(after)
    ensures Verified(env, sha, mapping, pgOrder, mongoOrder, rows, after, r) ==>
      && r.Ok?
      && (Passes(Report(name, r.value)) <==> forall m :: 0 <= m < |docs| ==> Matched(env, mapping, docs[m], src))
  {
    OrderedKeyed(pgOrder, mapping, rows);
    SortAlikeOrdered(env, mapping, pgOrder, mongoOrder, rows);
    MappedRowsAscend(env, mapping, pgOrder, mongoOrder, Ordered(pgOrder, mapping, rows), src);
    assert after == InsertAll(Stored, mapping, docs, src);
    TargetKeyed(env, mongoOrder, mapping, docs, src);
    TargetPlain(env, mapping, docs, src);
    KeyedDistinct(mongoOrder, mapping, docs);
    VerifyPassesIff(env, sha, mongoOrder, mapping, docs, src);
  }

  lemma TargetPlain(env: Env, mapping: Mapping, docs: seq<Doc>, src: seq<Doc>)
    requires Present(mapping, src) && DistinctPks(mapping, docs) && PlainDocs(docs) && PlainDocs(src)
    ensures PlainDocs(InsertAll(Stored, mapping, docs, src))
  {
    var after := InsertAll(Stored, mapping, docs, src);
    AfterCopy(mapping, docs, src);
    forall i | 0 <= i < |after| ensures PlainDoc(after[i]) {
      OriginPlain(env, mapping, docs, src, after[i]);
    }
  }

  // To MongoDB and back

  lemma {:induction false} SurrogateDropped(doc: Doc, id: Js)
    ensures WithoutId([Prop(ID_KEY, id)] + doc) == WithoutId(doc)
  {
    var whole := [Prop(ID_KEY, id)] + doc;
    if doc == [] {
      assert whole[..0] == [];
    } else {
      SurrogateDropped(doc[..|doc| - 1], id);
      assert whole[..|whole| - 1] == [Prop(ID_KEY, id)] + doc[..|doc| - 1];
    }
  }

  /** What row `i` becomes: every value normalised, null for each missing required field. */
  function RestoredRow(env: Env, mapping: Mapping, row: Doc, doc: Doc): Doc
    requires |row| <= |doc|
  {
    Restored(Normalizer(env, mapping), row, doc)
  }

  lemma RowComesBack(env: Env, mapping: Mapping, row: Doc, n: nat)
    requires ValidEnv(env) && RowShaped(mapping, row) && ID_KEY !in mapping.requiredFields
    requires ToDoc(env, mapping, row).Ok?
    ensures var doc := ToDoc(env, mapping, row).value;
      |row| <= |doc| && ToRow(env, mapping, Stored(doc, n)) == Ok(RestoredRow(env, mapping, row, doc))
  {
    RowRoundTrip(env, mapping, row);
    SurrogateDropped(ToDoc(env, mapping, row).value, ObjectId(n));
  }

  /** `back` are the rows of `source` after the round trip. */
  ghost predicate ComesBack(env: Env, mapping: Mapping, source: seq<Doc>, src: seq<Doc>, back: seq<Doc>) {
    |source| == |src| == |back| && forall i :: 0 <= i < |src| ==>
      |source[i]| <= |src[i]| && back[i] == RestoredRow(env, mapping, source[i], src[i])
  }

  lemma {:induction false} MapFirstGives(f: RowMap, rows: seq<Doc>, out: seq<Doc>, n: nat)
    requires |rows| == |out| && n <= |rows| && forall i :: 0 <= i < n ==> f(rows[i]) == Ok(out[i])
    ensures MapFirst(f, rows, n) == Ok(out[..n])
  {
    if n > 0 {
      MapFirstGives(f, rows, out, n - 1);
      assert out[..n] == out[..n - 1] + [out[n - 1]];
    }
  }

  lemma RowsComeBack(env: Env, mapping: Mapping, source: seq<Doc>, src: seq<Doc>, docs: seq<Doc>, back: seq<Doc>)
    requires ValidEnv(env) && ID_KEY !in mapping.requiredFields
    requires forall i :: 0 <= i < |source| ==> RowShaped(mapping, source[i])
    requires ToDocs(env, mapping, source) == Ok(src) && ComesBack(env, mapping, source, src, back)
    requires |docs| == |src| && forall i :: 0 <= i < |src| ==> docs[i] == Stored(src[i], i)
    ensures MapAll(RowsOf(env, mapping), docs) == Ok(back)
  {
    MapFirstIs(Documents(env, mapping), source, |source|);
    forall i | 0 <= i < |docs| ensures RowsOf(env, mapping)(docs[i]) == Ok(back[i]) {
      assert Documents(env, mapping)(source[i]) == Ok(src[i]);
      RowComesBack(env, mapping, source[i], i);
    }
    MapFirstGives(RowsOf(env, mapping), docs, back, |docs|);
    assert back[..|docs|] == back;
  }

  lemma FillsEmpty(copy: Copy, mapping: Mapping, source: seq<Doc>, rows: seq<Doc>, result: seq<Doc>)
    requires MapAll(copy.f, source) == Ok(rows) && Shaped(copy.shape, rows) == rows
    requires KeepsPks(copy.store, mapping, rows) && DistinctPks(mapping, rows)
    requires |result| == |rows| && forall i :: 0 <= i < |rows| ==> result[i] == copy.store(rows[i], i)
    ensures After(copy, mapping, [], source, |source|) == Some(result)
  {
    OntoEmpty(copy.store, mapping, rows);
    assert InsertAll(copy.store, mapping, [], rows) == result;
  }

  lemma RestoredIsDefined(env: Env, mapping: Mapping, row: Doc, doc: Doc, j: nat)
    requires |row| <= |doc| && j < |doc|
    ensures RestoredRow(env, mapping, row, doc)[j].value != Undefined
  {
    if j < |row| {
      assert Normal(env, KindOf(mapping, row[j].key), row[j].value) != Undefined;
    }
  }

  /**
   * Copied to an empty collection and from there to an empty table, with any batch sizes,
   * the rows come back one for one with normalised values, provided they share a column
   * list, as the rows of a table do, and their keys stay distinct.
   */
  lemma ThereAndBack(env: Env, mapping: Mapping, source: seq<Doc>, src: seq<Doc>, docs: seq<Doc>, back: seq<Doc>,
      size: nat)
    requires ValidEnv(env) && ID_KEY !in mapping.requiredFields && size >= 1
    requires forall i :: 0 <= i < |source| ==> RowShaped(mapping, source[i])
    requires ToDocs(env, mapping, source) == Ok(src) && ComesBack(env, mapping, source, src, back)
    requires Present(mapping, src) && DistinctPks(mapping, src) && DistinctPks(mapping, back)
    requires forall i :: 0 <= i < |back| ==> Columns(back[i]) == Columns(back[0]) && DistinctProps(back[i])
    requires |docs| == |src| && forall i :: 0 <= i < |src| ==> docs[i] == Stored(src[i], i)
    ensures After(ToMongo(env, mapping), mapping, [], source, |source|) == Some(docs)
    ensures After(ToPg(env, mapping, size), mapping, [], docs, |docs|) == Some(back)
  {
    StoredKeepsPks(mapping, src);
    FillsEmpty(ToMongo(env, mapping), mapping, source, src, docs);
    RowsComeBack(env, mapping, source, src, docs, back);
    forall i, j | 0 <= i < |back| && 0 <= j < |back[i]| ensures back[i][j].value != Undefined {
      RestoredIsDefined(env, mapping, source[i], src[i], j);
    }
    SameColumnsKept(back, size);
    FillsEmpty(ToPg(env, mapping, size), mapping, docs, back, back);
  }
}
