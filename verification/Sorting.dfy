/**
 * A stable sort by key and the facts the models need about it. A key is an instant
 * paired with a rank: a rank injective on strings stands for a total order on them
 * (every total order on the countable set of strings has one).
 */
module Sorting {
  datatype Key = Key(major: int, minor: real)

  predicate Before(a: Key, b: Key) {
    a.major < b.major || (a.major == b.major && a.minor < b.minor)
  }

  function Insert<T>(key: T -> Key, x: T, s: seq<T>): (r: seq<T>)
    ensures |r| == |s| + 1
  {
    if s == [] then [x]
    else if Before(key(s[0]), key(x)) then [s[0]] + Insert(key, x, s[1..])
    else [x] + s
  }

  function SortBy<T>(key: T -> Key, s: seq<T>): (r: seq<T>)
    ensures |r| == |s|
  {
    if s == [] then [] else Insert(key, s[0], SortBy(key, s[1..]))
  }

  ghost predicate Ascending<T>(key: T -> Key, s: seq<T>) {
    forall i, j :: 0 <= i < j < |s| ==> Before(key(s[i]), key(s[j]))
  }

  ghost predicate DistinctBy<T>(key: T -> Key, s: seq<T>) {
    forall i, j :: 0 <= i < j < |s| ==> key(s[i]) != key(s[j])
  }

  lemma {:induction false} InsertPermutes<T>(key: T -> Key, x: T, s: seq<T>)
    ensures multiset(Insert(key, x, s)) == multiset(s) + multiset{x}
  {
    if s != [] && Before(key(s[0]), key(x)) {
      InsertPermutes(key, x, s[1..]);
      assert s == [s[0]] + s[1..];
    }
  }

  lemma {:induction false} SortPermutes<T>(key: T -> Key, s: seq<T>)
    ensures multiset(SortBy(key, s)) == multiset(s)
  {
    if s != [] {
      SortPermutes(key, s[1..]);
      InsertPermutes(key, s[0], SortBy(key, s[1..]));
      assert s == [s[0]] + s[1..];
    }
  }

  lemma SameMembers<T>(a: seq<T>, b: seq<T>)
    requires multiset(a) == multiset(b)
    ensures |a| == |b|
    ensures forall i :: 0 <= i < |a| ==> a[i] in b
    ensures forall i :: 0 <= i < |b| ==> b[i] in a
  {
    assert |multiset(a)| == |a| && |multiset(b)| == |b|;
    forall i | 0 <= i < |a| ensures a[i] in b {
      assert a[i] in multiset(a);
    }
    forall i | 0 <= i < |b| ensures b[i] in a {
      assert b[i] in multiset(b);
    }
  }

  lemma {:induction false} InsertAscends<T>(key: T -> Key, x: T, s: seq<T>)
    requires Ascending(key, s)
    requires forall i :: 0 <= i < |s| ==> key(s[i]) != key(x)
    ensures Ascending(key, Insert(key, x, s))
  {
    if s != [] && Before(key(s[0]), key(x)) {
      InsertAscends(key, x, s[1..]);
      var r := Insert(key, x, s[1..]);
      InsertPermutes(key, x, s[1..]);
      SameMembers(r, s[1..] + [x]);
      forall j | 0 <= j < |r| ensures Before(key(s[0]), key(r[j])) {
        assert r[j] in s[1..] + [x];
      }
    }
  }

  lemma {:induction false} SortAscends<T>(key: T -> Key, s: seq<T>)
    requires DistinctBy(key, s)
    ensures Ascending(key, SortBy(key, s))
  {
    if s != [] {
      SortAscends(key, s[1..]);
      var r := SortBy(key, s[1..]);
      SortPermutes(key, s[1..]);
      SameMembers(r, s[1..]);
      forall i | 0 <= i < |r| ensures key(r[i]) != key(s[0]) {
        assert r[i] in s[1..];
      }
      InsertAscends(key, s[0], r);
    }
  }

  lemma NeitherEmpty<T>(a: seq<T>, b: seq<T>)
    requires |a| > 0 || |b| > 0
    requires forall i :: 0 <= i < |a| ==> a[i] in b
    requires forall i :: 0 <= i < |b| ==> b[i] in a
    ensures |a| > 0 && |b| > 0
  {
    var x := if |a| > 0 then a[0] else b[0];
    assert x in a || x in b;
  }

  lemma HeadsAgree<T>(key: T -> Key, a: seq<T>, b: seq<T>)
    requires Ascending(key, a) && Ascending(key, b) && a != [] && b != []
    requires a[0] in b && b[0] in a
    ensures a[0] == b[0]
  {
  }

  lemma TailIn<T>(key: T -> Key, a: seq<T>, b: seq<T>)
    requires Ascending(key, a) && a != [] && b != [] && a[0] == b[0]
    requires forall i :: 0 <= i < |a| ==> a[i] in b
    ensures forall i :: 0 <= i < |a[1..]| ==> a[1..][i] in b[1..]
  {
    forall i | 0 <= i < |a[1..]| ensures a[1..][i] in b[1..] {
      assert a[i + 1] in b && Before(key(a[0]), key(a[i + 1]));
    }
  }

  /** An ascending sequence is determined by its members. */
  lemma {:induction false} AscendingUnique<T>(key: T -> Key, a: seq<T>, b: seq<T>)
    requires Ascending(key, a) && Ascending(key, b)
    requires forall i :: 0 <= i < |a| ==> a[i] in b
    requires forall i :: 0 <= i < |b| ==> b[i] in a
    ensures a == b
  {
    if |a| > 0 || |b| > 0 {
      NeitherEmpty(a, b);
      HeadsAgree(key, a, b);
      TailIn(key, a, b);
      TailIn(key, b, a);
      AscendingUnique(key, a[1..], b[1..]);
      assert a == [a[0]] + a[1..] && b == [b[0]] + b[1..];
    }
  }

  /** Sorting forgets the order it was given. */
  lemma SortUnique<T>(key: T -> Key, s: seq<T>, t: seq<T>)
    requires DistinctBy(key, s) && DistinctBy(key, t)
    requires |s| == |t|
    requires forall i :: 0 <= i < |s| ==> s[i] in t
    requires forall i :: 0 <= i < |t| ==> t[i] in s
    ensures SortBy(key, s) == SortBy(key, t)
  {
    var a, b := SortBy(key, s), SortBy(key, t);
    SortAscends(key, s);
    SortAscends(key, t);
    SortPermutes(key, s);
    SortPermutes(key, t);
    SameMembers(a, s);
    SameMembers(b, t);
    AscendingUnique(key, a, b);
  }

  lemma {:induction false} SortOfAscending<T>(key: T -> Key, s: seq<T>)
    requires Ascending(key, s)
    ensures SortBy(key, s) == s
  {
    if s != [] {
      SortOfAscending(key, s[1..]);
      assert |s| > 1 ==> Before(key(s[0]), key(s[1]));
      assert s == [s[0]] + s[1..];
    }
  }

  /** One more element lands between the smaller and the greater ones. */
  lemma SortWithOne<T>(key: T -> Key, s: seq<T>, x: T, k: nat)
    requires DistinctBy(key, s + [x]) && k <= |s|
    requires forall i :: 0 <= i < k ==> Before(key(SortBy(key, s)[i]), key(x))
    requires forall i :: k <= i < |s| ==> Before(key(x), key(SortBy(key, s)[i]))
    ensures SortBy(key, s + [x]) == SortBy(key, s)[..k] + [x] + SortBy(key, s)[k..]
  {
    var w := SortBy(key, s);
    assert DistinctBy(key, s) by {
      assert forall i :: 0 <= i < |s| ==> s[i] == (s + [x])[i];
    }
    SortAscends(key, s);
    SortPermutes(key, s);
    SpliceAscends(key, w, x, k);
    SplicePermutes(w, x, k);
    SortAscends(key, s + [x]);
    SortPermutes(key, s + [x]);
    SameMembers(SortBy(key, s + [x]), w[..k] + [x] + w[k..]);
    AscendingUnique(key, SortBy(key, s + [x]), w[..k] + [x] + w[k..]);
  }

  lemma SpliceAscends<T>(key: T -> Key, w: seq<T>, x: T, k: nat)
    requires Ascending(key, w) && k <= |w|
    requires forall i :: 0 <= i < k ==> Before(key(w[i]), key(x))
    requires forall i :: k <= i < |w| ==> Before(key(x), key(w[i]))
    ensures Ascending(key, w[..k] + [x] + w[k..])
  {
    var u := w[..k] + [x] + w[k..];
    forall i, j | 0 <= i < j < |u| ensures Before(key(u[i]), key(u[j])) {
      assert u[i] == if i < k then w[i] else if i == k then x else w[i - 1];
      assert u[j] == if j < k then w[j] else if j == k then x else w[j - 1];
    }
  }

  lemma SplicePermutes<T>(w: seq<T>, x: T, k: nat)
    requires k <= |w|
    ensures multiset(w[..k] + [x] + w[k..]) == multiset(w) + multiset{x}
  {
    assert w == w[..k] + w[k..];
  }
}
