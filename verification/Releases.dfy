/** Template releases: comparing version labels and choosing the latest release. */
module Releases {
  import opened Wrappers
  import opened Text

  datatype Release = Release(major: nat, minor: nat, patch: nat)

  /** How version labels parse; a label outside `major.minor.patch` has no release. */
  type Parser = JsString -> Option<Release>

  function Part(r: Release, i: nat): nat {
    if i == 0 then r.major else if i == 1 then r.minor else r.patch
  }

  function Sign(a: nat, b: nat): int {
    if a < b then -1 else if a > b then 1 else 0
  }

  /** -1, 0 or 1 by release, a label without one being older than every release. */
  function Compare(parse: Parser, a: JsString, b: JsString): (c: int)
    ensures -1 <= c <= 1
  {
    var pa, pb := parse(a), parse(b);
    if pa.None? && pb.None? then 0
    else if pa.None? then -1
    else if pb.None? then 1
    else if pa.value.major != pb.value.major then Sign(pa.value.major, pb.value.major)
    else if pa.value.minor != pb.value.minor then Sign(pa.value.minor, pb.value.minor)
    else Sign(pa.value.patch, pb.value.patch)
  }

  /** `compareVersions`. */
  method CompareVersions(parse: Parser, a: JsString, b: JsString) returns (c: int)
    ensures c == Compare(parse, a, b)
  {
    var pa, pb := parse(a), parse(b);
    if pa.None? && pb.None? {
      return 0;
    }
    if pa.None? {
      return -1;
    }
    if pb.None? {
      return 1;
    }
    for i := 0 to 3
      invariant forall k :: 0 <= k < i ==> Part(pa.value, k) == Part(pb.value, k)
    {
      if Part(pa.value, i) != Part(pb.value, i) {
        assert i >= 1 ==> Part(pa.value, 0) == Part(pb.value, 0);
        assert i >= 2 ==> Part(pa.value, 1) == Part(pb.value, 1);
        return if Part(pa.value, i) < Part(pb.value, i) then -1 else 1;
      }
    }
    assert Part(pa.value, 0) == Part(pb.value, 0) && Part(pa.value, 1) == Part(pb.value, 1)
      && Part(pa.value, 2) == Part(pb.value, 2);
    return 0;
  }

  /** Comparison orders labels totally, up to labels of equal release. */
  lemma CompareOrders(parse: Parser, a: JsString, b: JsString, c: JsString)
    ensures Compare(parse, a, b) == -Compare(parse, b, a)
    ensures Compare(parse, a, b) <= 0 && Compare(parse, b, c) <= 0 ==> Compare(parse, a, c) <= 0
    ensures Compare(parse, a, b) < 0 && Compare(parse, b, c) <= 0 ==> Compare(parse, a, c) < 0
    ensures Compare(parse, a, b) <= 0 && Compare(parse, b, c) < 0 ==> Compare(parse, a, c) < 0
    ensures Compare(parse, a, b) == 0 <==> parse(a) == parse(b)
  {
  }

  datatype Update = NoUpdate | Minor | Major

  /** `compareRelease`. */
  function UpdateAvailable(parse: Parser, installed: JsString, latest: JsString): Update {
    if Compare(parse, latest, installed) <= 0 then NoUpdate
    else
      var a, b := parse(installed), parse(latest);
      if a.None? || b.None? then NoUpdate else if b.value.major != a.value.major then Major else Minor
  }

  /** An update is a newer release of a known one, major exactly when the major number grew; never both ways. */
  lemma UpdatesGoForward(parse: Parser, installed: JsString, latest: JsString)
    ensures UpdateAvailable(parse, installed, latest) != NoUpdate ==>
      UpdateAvailable(parse, latest, installed) == NoUpdate
    ensures UpdateAvailable(parse, installed, latest) != NoUpdate <==>
      parse(installed).Some? && parse(latest).Some? && Compare(parse, installed, latest) < 0
    ensures UpdateAvailable(parse, installed, latest) == Major <==>
      parse(installed).Some? && parse(latest).Some? && parse(installed).value.major < parse(latest).value.major
  {
    CompareOrders(parse, installed, latest, latest);
  }

  datatype Template = Template(slug: JsString, version: JsString)

  /** Row `k` is the first of the latest releases. */
  predicate IsLatest(parse: Parser, rows: seq<Template>, k: nat) {
    && k < |rows|
    && (forall i :: 0 <= i < |rows| ==> Compare(parse, rows[i].version, rows[k].version) <= 0)
    && forall i :: 0 <= i < k ==> Compare(parse, rows[i].version, rows[k].version) < 0
  }

  /** One more row becomes the latest when it is newer, and changes nothing otherwise. */
  lemma LatestSnoc(parse: Parser, rows: seq<Template>, k: nat, row: Template)
    requires IsLatest(parse, rows, k)
    ensures IsLatest(parse, rows + [row], if Compare(parse, row.version, rows[k].version) > 0 then |rows| else k)
  {
    var all, best := rows + [row], rows[k].version;
    CompareOrders(parse, row.version, best, best);
    forall i | 0 <= i < |rows|
      ensures Compare(parse, row.version, best) > 0 ==> Compare(parse, rows[i].version, row.version) < 0
    {
      CompareOrders(parse, rows[i].version, best, row.version);
    }
    CompareOrders(parse, row.version, row.version, row.version);
  }

  /** `pickLatest`. */
  method PickLatest(parse: Parser, rows: seq<Template>) returns (best: Option<Template>, ghost k: nat)
    ensures best.None? <==> rows == []
    ensures best.Some? ==> IsLatest(parse, rows, k) && best.value == rows[k]
  {
    best, k := None, 0;
    for i := 0 to |rows|
      invariant best.None? <==> i == 0
      invariant best.Some? ==> IsLatest(parse, rows[..i], k) && best.value == rows[k]
    {
      assert rows[..i + 1] == rows[..i] + [rows[i]];
      if best.None? {
        best, k := Some(rows[i]), i;
        CompareOrders(parse, rows[i].version, rows[i].version, rows[i].version);
      } else {
        LatestSnoc(parse, rows[..i], k, rows[i]);
        var c := CompareVersions(parse, rows[i].version, best.value.version);
        if c > 0 {
          best, k := Some(rows[i]), i;
        }
      }
    }
    assert rows[..|rows|] == rows;
  }

  /** A label without a release is picked only when no row has one. */
  lemma LatestParses(parse: Parser, rows: seq<Template>, k: nat)
    requires IsLatest(parse, rows, k)
    ensures parse(rows[k].version).Some? <==> exists i :: 0 <= i < |rows| && parse(rows[i].version).Some?
  {
    if i :| 0 <= i < |rows| && parse(rows[i].version).Some? {
      assert Compare(parse, rows[i].version, rows[k].version) <= 0;
    }
  }

  function OfSlug(rows: seq<Template>, slug: JsString): seq<Template> {
    if rows == [] then []
    else
      var n := |rows| - 1;
      OfSlug(rows[..n], slug) + if rows[n].slug == slug then [rows[n]] else []
  }

  /** The choice for a slug is the latest of the rows that carry it. */
  ghost predicate Chosen(parse: Parser, rows: seq<Template>, slug: JsString, choice: Option<Template>) {
    if choice.None? then OfSlug(rows, slug) == []
    else
      var own := OfSlug(rows, slug);
      exists k :: 0 <= k < |own| && IsLatest(parse, own, k) && own[k] == choice.value
  }

  lemma ChosenSnoc(parse: Parser, rows: seq<Template>, n: nat, slug: JsString, choice: Option<Template>)
    requires n < |rows| && Chosen(parse, rows[..n], slug, choice)
    ensures var row := rows[n];
      Chosen(parse, rows[..n + 1], slug,
             if row.slug == slug && (choice.None? || Compare(parse, row.version, choice.value.version) > 0)
             then Some(row) else choice)
  {
    var row, before, after := rows[n], OfSlug(rows[..n], slug), OfSlug(rows[..n + 1], slug);
    assert rows[..n + 1][..n] == rows[..n];
    if row.slug != slug {
      assert after == before;
    } else if choice.None? {
      assert after == [row];
      CompareOrders(parse, row.version, row.version, row.version);
      assert IsLatest(parse, after, 0);
    } else {
      var k :| 0 <= k < |before| && IsLatest(parse, before, k) && before[k] == choice.value;
      LatestSnoc(parse, before, k, row);
      assert after == before + [row];
      assert IsLatest(parse, after, if Compare(parse, row.version, before[k].version) > 0 then |before| else k);
    }
  }

  /** `latestPerSlug`. */
  method LatestPerSlug(parse: Parser, templates: seq<Template>) returns (out: map<JsString, Template>)
    ensures forall slug: JsString :: Chosen(parse, templates, slug, if slug in out then Some(out[slug]) else None)
  {
    out := map[];
    for i := 0 to |templates|
      invariant forall slug: JsString ::
        Chosen(parse, templates[..i], slug, if slug in out then Some(out[slug]) else None)
    {
      var t := templates[i];
      ghost var before := out;
      var newer := t.slug !in out;
      if !newer {
        var c := CompareVersions(parse, t.version, out[t.slug].version);
        newer := c > 0;
      }
      if newer {
        out := out[t.slug := t];
      }
      forall slug: JsString
        ensures Chosen(parse, templates[..i + 1], slug, if slug in out then Some(out[slug]) else None)
      {
        ChosenSnoc(parse, templates, i, slug, if slug in before then Some(before[slug]) else None);
      }
    }
    assert templates[..|templates|] == templates;
  }
}
