/**
 * Template compatibility: a batch evaluation that probes each organisation fact at most
 * once, the split of missing models, and the choice of the latest template release.
 */
module Compatibility {
  import opened Wrappers
  import opened Text

  // Filters

  function Filter<T>(p: T -> bool, s: seq<T>): (r: seq<T>)
    ensures |r| <= |s|
  {
    if s == [] then []
    else
      var n := |s| - 1;
      Filter(p, s[..n]) + if p(s[n]) then [s[n]] else []
  }

  /** The positions a filter keeps. */
  function Kept<T>(p: T -> bool, s: seq<T>): (r: seq<nat>)
    ensures forall k :: 0 <= k < |r| ==> r[k] < |s|
  {
    if s == [] then []
    else
      var n := |s| - 1;
      Kept(p, s[..n]) + if p(s[n]) then [n] else []
  }

  /** A filter keeps exactly the matching elements, in their order. */
  lemma {:induction false} FilterKeeps<T>(p: T -> bool, s: seq<T>)
    ensures var kept := Kept(p, s);
      && |kept| == |Filter(p, s)|
      && (forall k :: 0 <= k < |kept| ==> Filter(p, s)[k] == s[kept[k]] && p(s[kept[k]]))
      && (forall j, k :: 0 <= j < k < |kept| ==> kept[j] < kept[k])
      && (forall i :: 0 <= i < |s| && p(s[i]) ==> i in kept)
  {
    if s != [] {
      var n := |s| - 1;
      FilterKeeps(p, s[..n]);
      var front, tail: seq<nat> := Kept(p, s[..n]), if p(s[n]) then [n] else [];
      assert Kept(p, s) == front + tail;
      forall i | 0 <= i < |s| && p(s[i]) ensures i in front + tail {
        if i < n {
          assert s[..n][i] == s[i] && i in front;
        } else {
          assert (front + tail)[|front|] == i;
        }
      }
    }
  }

  // The split of missing models

  const SLASH: Unit := 0x2f

  function IndexOfSlash(ref: JsString): Option<nat> {
    if ref == [] then None
    else if ref[0] == SLASH then Some(0)
    else
      var i := IndexOfSlash(ref[1..]);
      if i.None? then None else Some(i.value + 1)
  }

  function Provider(ref: JsString): JsString {
    var slash := IndexOfSlash(ref);
    if slash.Some? && slash.value <= |ref| then ref[..slash.value] else ref
  }

  /** The provider is what stands before the first slash, or the whole reference. */
  lemma {:induction false} ProviderIs(ref: JsString, provider: JsString, rest: JsString)
    requires SLASH !in provider
    ensures ref == provider + [SLASH] + rest ==> Provider(ref) == provider
    ensures ref == provider ==> Provider(ref) == provider
  {
    FirstSlash(provider, [SLASH] + rest);
    FirstSlash(provider, []);
    assert provider + ([SLASH] + rest) == provider + [SLASH] + rest && provider + [] == provider;
  }

  lemma {:induction false} FirstSlash(before: JsString, rest: JsString)
    requires SLASH !in before && (rest == [] || rest[0] == SLASH)
    ensures IndexOfSlash(before + rest) == if rest == [] then None else Some(|before|)
  {
    if before == [] {
      assert before + rest == rest;
    } else {
      FirstSlash(before[1..], rest);
      assert (before + rest)[1..] == before[1..] + rest;
    }
  }

  datatype Platform = Platform(models: set<JsString>, providers: set<JsString>)

  datatype Gaps = Gaps(notInPlatform: seq<JsString>, noKey: seq<JsString>, governanceOnly: seq<JsString>)

  function NotInPlatform(f: Platform): JsString -> bool {
    (ref: JsString) => ref !in f.models
  }

  function NoKey(f: Platform): JsString -> bool {
    (ref: JsString) => ref in f.models && Provider(ref) !in f.providers
  }

  function GovernanceOnly(f: Platform): JsString -> bool {
    (ref: JsString) => ref in f.models && Provider(ref) in f.providers
  }

  function Split(missing: seq<JsString>, f: Platform): Gaps {
    Gaps(Filter(NotInPlatform(f), missing), Filter(NoKey(f), missing), Filter(GovernanceOnly(f), missing))
  }

  /** `partitionModelGaps`. */
  method PartitionModelGaps(missing: seq<JsString>, f: Platform) returns (gaps: Gaps)
    ensures gaps == Split(missing, f)
  {
    var notInPlatform, noKey, governanceOnly: seq<JsString> := [], [], [];
    for i := 0 to |missing|
      invariant Gaps(notInPlatform, noKey, governanceOnly) == Split(missing[..i], f)
    {
      var ref := missing[i];
      assert missing[..i + 1][..i] == missing[..i];
      if ref !in f.models {
        notInPlatform := notInPlatform + [ref];
      } else if Provider(ref) !in f.providers {
        noKey := noKey + [ref];
      } else {
        governanceOnly := governanceOnly + [ref];
      }
    }
    assert missing[..|missing|] == missing;
    gaps := Gaps(notInPlatform, noKey, governanceOnly);
  }

  lemma LastCounts<T>(p: T -> bool, s: seq<T>)
    requires s != []
    ensures var n := |s| - 1;
      multiset(Filter(p, s)) == multiset(Filter(p, s[..n])) + if p(s[n]) then multiset{s[n]} else multiset{}
  {
    var front := Filter(p, s[..|s| - 1]);
    assert front + [] == front;
  }

  lemma LastOf<T>(s: seq<T>)
    requires s != []
    ensures multiset(s) == multiset(s[..|s| - 1]) + multiset{s[|s| - 1]}
  {
    assert s == s[..|s| - 1] + [s[|s| - 1]];
  }

  lemma OneMore<T>(a: multiset<T>, b: multiset<T>, c: multiset<T>, x: T)
    ensures a + multiset{x} + b + c == a + b + c + multiset{x}
    ensures a + (b + multiset{x}) + c == a + b + c + multiset{x}
    ensures a + b + (c + multiset{x}) == a + b + c + multiset{x}
  {
  }

  /** Filters by three conditions of which every element meets exactly one. */
  lemma {:induction false} ThreeWay<T>(s: seq<T>, p: T -> bool, q: T -> bool, r: T -> bool)
    requires forall i :: 0 <= i < |s| ==>
      (p(s[i]) && !q(s[i]) && !r(s[i])) || (!p(s[i]) && q(s[i]) && !r(s[i])) || (!p(s[i]) && !q(s[i]) && r(s[i]))
    ensures multiset(Filter(p, s)) + multiset(Filter(q, s)) + multiset(Filter(r, s)) == multiset(s)
  {
    if s != [] {
      var n := |s| - 1;
      ThreeWay(s[..n], p, q, r);
      LastCounts(p, s);
      LastCounts(q, s);
      LastCounts(r, s);
      LastOf(s);
      OneMore(multiset(Filter(p, s[..n])), multiset(Filter(q, s[..n])), multiset(Filter(r, s[..n])), s[n]);
    }
  }

  /** The three lists share no model and together hold every missing one as often as it was missing. */
  lemma SplitCovers(missing: seq<JsString>, f: Platform)
    ensures var gaps := Split(missing, f);
      && multiset(gaps.notInPlatform) + multiset(gaps.noKey) + multiset(gaps.governanceOnly) == multiset(missing)
      && (forall ref :: ref in gaps.notInPlatform ==> ref !in gaps.noKey && ref !in gaps.governanceOnly)
      && (forall ref :: ref in gaps.noKey ==> ref !in gaps.governanceOnly)
  {
    ThreeWay(missing, NotInPlatform(f), NoKey(f), GovernanceOnly(f));
    FilterMatches(NotInPlatform(f), missing);
    FilterMatches(NoKey(f), missing);
    FilterMatches(GovernanceOnly(f), missing);
  }

  lemma FilterMatches<T>(p: T -> bool, s: seq<T>)
    ensures forall x :: x in Filter(p, s) <==> x in s && p(x)
  {
    FilterKeeps(p, s);
    forall x | x in Filter(p, s) ensures x in s && p(x) {
      var k :| 0 <= k < |Filter(p, s)| && Filter(p, s)[k] == x;
      assert s[Kept(p, s)[k]] == x;
    }
    forall x | x in s && p(x) ensures x in Filter(p, s) {
      var i :| 0 <= i < |s| && s[i] == x;
      assert i in Kept(p, s);
      var k :| 0 <= k < |Kept(p, s)| && Kept(p, s)[k] == i;
      assert Filter(p, s)[k] == x;
    }
  }

  // Compatibility of one template

  /** What the evaluation reads from a template. */
  datatype Item = Item(key: JsString, requiredTools: seq<JsString>, allowedModels: seq<JsString>,
    requiredSources: seq<JsString>)

  /** The organisation facts: enabled tools, the published model catalog if any, platform facts if seeded. */
  datatype Facts = Facts(tools: set<JsString>, models: Option<set<JsString>>, platform: Option<Platform>,
    readyDocuments: bool)

  datatype Reason =
    | ToolsMissing(tools: seq<JsString>)
    | NotInOrgCatalog(models: seq<JsString>)
    | NotOnPlatform(models: seq<JsString>)
    | CredentialMissing(models: seq<JsString>)
    | ExcludedByGovernance(models: seq<JsString>)
    | NoReadyDocuments(sources: seq<JsString>)

  function CatalogTools(builtIn: set<JsString>, item: Item): seq<JsString> {
    Filter((n: JsString) => n !in builtIn, item.requiredTools)
  }

  function Missing(known: set<JsString>, names: seq<JsString>): seq<JsString> {
    Filter((n: JsString) => n !in known, names)
  }

  function IfAny(names: seq<JsString>, reason: Reason): seq<Reason> {
    if names == [] then [] else [reason]
  }

  function ToolReasons(builtIn: set<JsString>, facts: Facts, item: Item): seq<Reason> {
    var missing := Missing(facts.tools, CatalogTools(builtIn, item));
    IfAny(missing, ToolsMissing(missing))
  }

  function MissingModels(facts: Facts, item: Item): seq<JsString> {
    if facts.models.None? then [] else Missing(facts.models.value, item.allowedModels)
  }

  function GapReasons(gaps: Gaps): seq<Reason> {
    IfAny(gaps.notInPlatform, NotOnPlatform(gaps.notInPlatform))
    + IfAny(gaps.noKey, CredentialMissing(gaps.noKey))
    + IfAny(gaps.governanceOnly, ExcludedByGovernance(gaps.governanceOnly))
  }

  function ModelReasons(facts: Facts, item: Item): seq<Reason> {
    var missing := MissingModels(facts, item);
    if missing == [] then []
    else if facts.platform.None? then [NotInOrgCatalog(missing)]
    else GapReasons(Split(missing, facts.platform.value))
  }

  function SourceReasons(facts: Facts, item: Item): seq<Reason> {
    if item.requiredSources != [] && !facts.readyDocuments then [NoReadyDocuments(item.requiredSources)] else []
  }

  /** The verdict on one template, with all facts at hand. */
  function Evaluate(builtIn: set<JsString>, facts: Facts, item: Item): seq<Reason> {
    ToolReasons(builtIn, facts, item) + ModelReasons(facts, item) + SourceReasons(facts, item)
  }

  /** What can stand against a tool, a model or a source. */
  datatype Obstacle = Disabled | OrgCatalog | PlatformCatalog | Credential | Governance | Documents

  /** The reason blames the name on this obstacle. */
  predicate Blames(r: Reason, o: Obstacle, name: JsString) {
    match r
    case ToolsMissing(tools) => o.Disabled? && name in tools
    case NotInOrgCatalog(models) => o.OrgCatalog? && name in models
    case NotOnPlatform(models) => o.PlatformCatalog? && name in models
    case CredentialMissing(models) => o.Credential? && name in models
    case ExcludedByGovernance(models) => o.Governance? && name in models
    case NoReadyDocuments(sources) => o.Documents? && name in sources
  }

  predicate Blamed(reasons: seq<Reason>, o: Obstacle, m: JsString) {
    exists i :: 0 <= i < |reasons| && Blames(reasons[i], o, m)
  }

  lemma BlamedConcat(a: seq<Reason>, b: seq<Reason>, o: Obstacle, m: JsString)
    ensures Blamed(a + b, o, m) <==> Blamed(a, o, m) || Blamed(b, o, m)
  {
    if Blamed(a, o, m) {
      var i :| 0 <= i < |a| && Blames(a[i], o, m);
      assert (a + b)[i] == a[i];
    }
    if Blamed(b, o, m) {
      var i :| 0 <= i < |b| && Blames(b[i], o, m);
      assert (a + b)[|a| + i] == b[i];
    }
  }

  lemma BlamedIfAny(names: seq<JsString>, r: Reason, o: Obstacle, m: JsString)
    ensures names != [] ==> (Blamed(IfAny(names, r), o, m) <==> Blames(r, o, m))
    ensures names == [] ==> !Blamed(IfAny(names, r), o, m)
  {
    if names != [] && Blames(r, o, m) {
      assert Blames(IfAny(names, r)[0], o, m);
    }
  }

  lemma BlamedGaps(gaps: Gaps, o: Obstacle, m: JsString)
    ensures Blamed(GapReasons(gaps), o, m) <==>
      match o
      case OrgCatalog => false
      case PlatformCatalog => m in gaps.notInPlatform
      case Credential => m in gaps.noKey
      case Governance => m in gaps.governanceOnly
      case _ => false
  {
    var a := IfAny(gaps.notInPlatform, NotOnPlatform(gaps.notInPlatform));
    var b := IfAny(gaps.noKey, CredentialMissing(gaps.noKey));
    var c := IfAny(gaps.governanceOnly, ExcludedByGovernance(gaps.governanceOnly));
    BlamedConcat(a + b, c, o, m);
    BlamedConcat(a, b, o, m);
    BlamedIfAny(gaps.notInPlatform, NotOnPlatform(gaps.notInPlatform), o, m);
    BlamedIfAny(gaps.noKey, CredentialMissing(gaps.noKey), o, m);
    BlamedIfAny(gaps.governanceOnly, ExcludedByGovernance(gaps.governanceOnly), o, m);
  }

  /** What stands against an allowed model the organisation's catalog lacks. */
  function ObstacleOf(platform: Option<Platform>, m: JsString): Obstacle {
    if platform.None? then OrgCatalog
    else if m !in platform.value.models then PlatformCatalog
    else if Provider(m) !in platform.value.providers then Credential
    else Governance
  }

  lemma MissingBlamed(platform: Option<Platform>, missing: seq<JsString>, m: JsString, o: Obstacle)
    requires missing != []
    ensures var reasons :=
        if platform.None? then [NotInOrgCatalog(missing)] else GapReasons(Split(missing, platform.value));
      Blamed(reasons, o, m) <==> m in missing && o == ObstacleOf(platform, m)
  {
    if platform.None? {
      BlamedIfAny(missing, NotInOrgCatalog(missing), o, m);
    } else {
      var f := platform.value;
      BlamedGaps(Split(missing, f), o, m);
      FilterMatches(NotInPlatform(f), missing);
      FilterMatches(NoKey(f), missing);
      FilterMatches(GovernanceOnly(f), missing);
    }
  }

  lemma ToolsBlamed(builtIn: set<JsString>, facts: Facts, item: Item, name: JsString, o: Obstacle)
    ensures Blamed(ToolReasons(builtIn, facts, item), o, name) <==>
      o.Disabled? && name in item.requiredTools && name !in builtIn && name !in facts.tools
  {
    var catalog := CatalogTools(builtIn, item);
    var missing := Missing(facts.tools, catalog);
    FilterMatches((n: JsString) => n !in builtIn, item.requiredTools);
    FilterMatches((n: JsString) => n !in facts.tools, catalog);
    BlamedIfAny(missing, ToolsMissing(missing), o, name);
  }

  lemma ModelsBlamed(facts: Facts, item: Item, name: JsString, o: Obstacle)
    ensures Blamed(ModelReasons(facts, item), o, name) <==>
      name in item.allowedModels && facts.models.Some? && name !in facts.models.value
        && o == ObstacleOf(facts.platform, name)
  {
    if facts.models.Some? {
      var missing := MissingModels(facts, item);
      FilterMatches((n: JsString) => n !in facts.models.value, item.allowedModels);
      if missing != [] {
        MissingBlamed(facts.platform, missing, name, o);
      }
    }
  }

  lemma SourcesBlamed(facts: Facts, item: Item, name: JsString, o: Obstacle)
    ensures Blamed(SourceReasons(facts, item), o, name) <==>
      o.Documents? && name in item.requiredSources && !facts.readyDocuments
  {
    var reasons := SourceReasons(facts, item);
    assert reasons != [] ==> (Blames(reasons[0], o, name) <==> o.Documents? && name in item.requiredSources);
  }

  /**
   * What a verdict says of every name: a tool is blamed when it is neither built in nor enabled, a source
   * when no document is ready, and a model when the organisation has a catalog without it. A model is
   * blamed on one obstacle only: the catalog when the platform is not known, else the first of platform,
   * credential and governance that stands against it.
   */
  lemma VerdictBlames(builtIn: set<JsString>, facts: Facts, item: Item, name: JsString, o: Obstacle)
    ensures Blamed(Evaluate(builtIn, facts, item), o, name) <==>
      match o
      case Disabled => name in item.requiredTools && name !in builtIn && name !in facts.tools
      case Documents => name in item.requiredSources && !facts.readyDocuments
      case _ =>
        name in item.allowedModels && facts.models.Some? && name !in facts.models.value
          && o == ObstacleOf(facts.platform, name)
  {
    var tools, models := ToolReasons(builtIn, facts, item), ModelReasons(facts, item);
    BlamedConcat(tools + models, SourceReasons(facts, item), o, name);
    BlamedConcat(tools, models, o, name);
    ToolsBlamed(builtIn, facts, item, name, o);
    ModelsBlamed(facts, item, name, o);
    SourcesBlamed(facts, item, name, o);
  }

  /** A template is compatible exactly when its tools are there, its models are allowed and its sources are ready. */
  lemma CompatibleIff(builtIn: set<JsString>, facts: Facts, item: Item)
    ensures Evaluate(builtIn, facts, item) == [] <==>
      && (forall t :: t in item.requiredTools ==> t in builtIn || t in facts.tools)
      && (facts.models.Some? ==> forall m :: m in item.allowedModels ==> m in facts.models.value)
      && (item.requiredSources != [] ==> facts.readyDocuments)
  {
    var verdict := Evaluate(builtIn, facts, item);
    var catalog := CatalogTools(builtIn, item);
    FilterMatches((n: JsString) => n !in builtIn, item.requiredTools);
    FilterMatches((n: JsString) => n !in facts.tools, catalog);
    NoneLeft(Missing(facts.tools, catalog));
    if facts.models.Some? {
      FilterMatches((n: JsString) => n !in facts.models.value, item.allowedModels);
      var missing := MissingModels(facts, item);
      NoneLeft(missing);
      if missing != [] {
        ModelsBlamed(facts, item, missing[0], ObstacleOf(facts.platform, missing[0]));
      }
    }
  }

  lemma NoneLeft(names: seq<JsString>)
    ensures names == [] <==> forall n :: n !in names
  {
    if names != [] {
      assert names[0] in names;
    }
  }

  // The batch

  /** Later templates with the same key win. */
  function Verdicts(builtIn: set<JsString>, facts: Facts, items: seq<Item>): map<JsString, seq<Reason>> {
    if items == [] then map[]
    else
      var n := |items| - 1;
      Verdicts(builtIn, facts, items[..n])[items[n].key := Evaluate(builtIn, facts, items[n])]
  }

  /** Every template that no later one shares its key with gets the verdict it would get alone. */
  lemma {:induction false} VerdictAlone(builtIn: set<JsString>, facts: Facts, items: seq<Item>, i: nat)
    requires i < |items| && forall j :: i < j < |items| ==> items[j].key != items[i].key
    ensures items[i].key in Verdicts(builtIn, facts, items)
    ensures Verdicts(builtIn, facts, items)[items[i].key] == Evaluate(builtIn, facts, items[i])
    ensures Verdicts(builtIn, facts, [items[i]]) == map[items[i].key := Evaluate(builtIn, facts, items[i])]
  {
    assert [items[i]][..0] == [];
    if i < |items| - 1 {
      var front := items[..|items| - 1];
      assert front[i] == items[i];
      VerdictAlone(builtIn, facts, front, i);
    }
  }

  /** How often each service was asked. */
  datatype Probes = Probes(tools: nat, models: nat, platform: nat, documents: nat)

  /** The services behind the facts. */
  class Authorities {
    const facts: Facts
    var probes: Probes

    constructor (facts: Facts)
      ensures this.facts == facts && probes == Probes(0, 0, 0, 0)
    {
      this.facts, probes := facts, Probes(0, 0, 0, 0);
    }

    method EnabledTools() returns (tools: set<JsString>)
      modifies this
      ensures tools == facts.tools && probes == old(probes).(tools := old(probes).tools + 1)
    {
      probes := probes.(tools := probes.tools + 1);
      tools := facts.tools;
    }

    method EnabledCatalogModels() returns (models: Option<set<JsString>>)
      modifies this
      ensures models == facts.models && probes == old(probes).(models := old(probes).models + 1)
    {
      probes := probes.(models := probes.models + 1);
      models := facts.models;
    }

    method PlatformFacts() returns (platform: Option<Platform>)
      modifies this
      ensures platform == facts.platform && probes == old(probes).(platform := old(probes).platform + 1)
    {
      probes := probes.(platform := probes.platform + 1);
      platform := facts.platform;
    }

    method HasReadyDocuments() returns (ready: bool)
      modifies this
      ensures ready == facts.readyDocuments && probes == old(probes).(documents := old(probes).documents + 1)
    {
      probes := probes.(documents := probes.documents + 1);
      ready := facts.readyDocuments;
    }
  }

  /** A fact each: needed by some template, or at hand. */
  datatype Flags = Flags(tools: bool, models: bool, platform: bool, documents: bool)

  function Times(b: bool): nat {
    if b then 1 else 0
  }

  function Plus(before: Probes, once: Flags): Probes {
    Probes(before.tools + Times(once.tools), before.models + Times(once.models),
           before.platform + Times(once.platform), before.documents + Times(once.documents))
  }

  function Or(a: Flags, b: Flags): Flags {
    Flags(a.tools || b.tools, a.models || b.models, a.platform || b.platform, a.documents || b.documents)
  }

  function Needs(builtIn: set<JsString>, facts: Facts, item: Item): Flags {
    Flags(CatalogTools(builtIn, item) != [], item.allowedModels != [], MissingModels(facts, item) != [],
      item.requiredSources != [])
  }

  /** The facts some template needs. */
  function Wanted(builtIn: set<JsString>, facts: Facts, items: seq<Item>): Flags {
    if items == [] then Flags(false, false, false, false)
    else Or(Wanted(builtIn, facts, items[..|items| - 1]), Needs(builtIn, facts, items[|items| - 1]))
  }

  predicate Any(need: Item -> bool, items: seq<Item>) {
    exists i :: 0 <= i < |items| && need(items[i])
  }

  lemma AnySnoc(need: Item -> bool, items: seq<Item>)
    requires items != []
    ensures Any(need, items) <==> Any(need, items[..|items| - 1]) || need(items[|items| - 1])
  {
    var front, n := items[..|items| - 1], |items| - 1;
    if Any(need, front) {
      var i :| 0 <= i < n && need(front[i]);
      assert need(items[i]);
    }
    if Any(need, items) {
      var i :| 0 <= i < |items| && need(items[i]);
      assert i < n ==> need(front[i]);
    }
  }

  /** A fact is wanted exactly when one of the templates needs it. */
  lemma {:induction false} WantedIff(builtIn: set<JsString>, facts: Facts, items: seq<Item>)
    ensures var wanted := Wanted(builtIn, facts, items);
      && (wanted.tools <==> Any((item: Item) => CatalogTools(builtIn, item) != [], items))
      && (wanted.models <==> Any((item: Item) => item.allowedModels != [], items))
      && (wanted.platform <==> Any((item: Item) => MissingModels(facts, item) != [], items))
      && (wanted.documents <==> Any((item: Item) => item.requiredSources != [], items))
  {
    if items != [] {
      WantedIff(builtIn, facts, items[..|items| - 1]);
      AnySnoc((item: Item) => CatalogTools(builtIn, item) != [], items);
      AnySnoc((item: Item) => item.allowedModels != [], items);
      AnySnoc((item: Item) => MissingModels(facts, item) != [], items);
      AnySnoc((item: Item) => item.requiredSources != [], items);
    }
  }

  /** The memo variables of the batch; `None` is not probed yet. */
  class Memo {
    const at: Authorities
    var tools: Option<set<JsString>>
    var models: Option<Option<set<JsString>>>
    var platform: Option<Option<Platform>>
    var ready: Option<bool>

    constructor (at: Authorities)
      ensures this.at == at && Valid(at.probes) && Known() == Flags(false, false, false, false)
    {
      this.at, tools, models, platform, ready := at, None, None, None, None;
    }

    function Known(): Flags
      reads this
    {
      Flags(tools.Some?, models.Some?, platform.Some?, ready.Some?)
    }

    /** What is at hand is true and was probed once since `before`. */
    predicate Valid(before: Probes)
      reads this, at
    {
      && (tools.Some? ==> tools.value == at.facts.tools)
      && (models.Some? ==> models.value == at.facts.models)
      && (platform.Some? ==> platform.value == at.facts.platform)
      && (ready.Some? ==> ready.value == at.facts.readyDocuments)
      && at.probes == Plus(before, Known())
    }

    method EvaluateTools(builtIn: set<JsString>, item: Item, ghost before: Probes) returns (reasons: seq<Reason>)
      requires Valid(before)
      modifies this, at
      ensures Valid(before) && reasons == ToolReasons(builtIn, at.facts, item)
      ensures Known() == Or(old(Known()), Flags(CatalogTools(builtIn, item) != [], false, false, false))
    {
      reasons := [];
      var catalogTools := CatalogTools(builtIn, item);
      if |catalogTools| > 0 {
        if tools.None? {
          var known := at.EnabledTools();
          tools := Some(known);
        }
        var missing := Missing(tools.value, catalogTools);
        if |missing| > 0 {
          reasons := [ToolsMissing(missing)];
        }
      }
    }

    method EvaluateGaps(missing: seq<JsString>, ghost before: Probes) returns (reasons: seq<Reason>)
      requires Valid(before) && missing != []
      modifies this, at
      ensures Valid(before) && Known() == old(Known()).(platform := true)
      ensures reasons == if at.facts.platform.None? then [NotInOrgCatalog(missing)]
                         else GapReasons(Split(missing, at.facts.platform.value))
    {
      if platform.None? {
        var facts := at.PlatformFacts();
        platform := Some(facts);
      }
      if platform.value.None? {
        reasons := [NotInOrgCatalog(missing)];
      } else {
        var gaps := PartitionModelGaps(missing, platform.value.value);
        reasons := GapReasons(gaps);
      }
    }

    method EvaluateModels(item: Item, ghost before: Probes) returns (reasons: seq<Reason>)
      requires Valid(before)
      modifies this, at
      ensures Valid(before) && reasons == ModelReasons(at.facts, item)
      ensures Known() == Or(old(Known()),
        Flags(false, item.allowedModels != [], MissingModels(at.facts, item) != [], false))
    {
      reasons := [];
      if |item.allowedModels| > 0 {
        if models.None? {
          var catalog := at.EnabledCatalogModels();
          models := Some(catalog);
        }
        if models.value.Some? {
          var missing := Missing(models.value.value, item.allowedModels);
          if |missing| > 0 {
            reasons := EvaluateGaps(missing, before);
          }
        }
      }
    }

    method EvaluateSources(item: Item, ghost before: Probes) returns (reasons: seq<Reason>)
      requires Valid(before)
      modifies this, at
      ensures Valid(before) && reasons == SourceReasons(at.facts, item)
      ensures Known() == Or(old(Known()), Flags(false, false, false, item.requiredSources != []))
    {
      reasons := [];
      if |item.requiredSources| > 0 {
        if ready.None? {
          var has := at.HasReadyDocuments();
          ready := Some(has);
        }
        if !ready.value {
          reasons := [NoReadyDocuments(item.requiredSources)];
        }
      }
    }

    /** The reasons against one template. */
    method EvaluateItem(builtIn: set<JsString>, item: Item, ghost before: Probes) returns (reasons: seq<Reason>)
      requires Valid(before)
      modifies this, at
      ensures Valid(before) && reasons == Evaluate(builtIn, at.facts, item)
      ensures Known() == Or(old(Known()), Needs(builtIn, at.facts, item))
    {
      var toolReasons := EvaluateTools(builtIn, item, before);
      var modelReasons := EvaluateModels(item, before);
      var sourceReasons := EvaluateSources(item, before);
      reasons := toolReasons + modelReasons + sourceReasons;
    }

    /** The verdict on the next template. */
    method EvaluateNext(builtIn: set<JsString>, items: seq<Item>, i: nat, done: map<JsString, seq<Reason>>,
        ghost before: Probes)
      returns (result: map<JsString, seq<Reason>>)
      requires Valid(before) && i < |items|
      requires Known() == Wanted(builtIn, at.facts, items[..i]) && done == Verdicts(builtIn, at.facts, items[..i])
      modifies this, at
      ensures Valid(before)
      ensures Known() == Wanted(builtIn, at.facts, items[..i + 1])
      ensures result == Verdicts(builtIn, at.facts, items[..i + 1])
    {
      assert items[..i + 1][..i] == items[..i];
      var reasons := EvaluateItem(builtIn, items[i], before);
      result := done[items[i].key := reasons];
    }
  }

  /**
   * `evaluateCompatibilityBatch`: the verdict of every template as if it were evaluated
   * alone, each fact probed once when some template needs it and not at all otherwise.
   */
  method EvaluateBatch(builtIn: set<JsString>, at: Authorities, items: seq<Item>)
    returns (result: map<JsString, seq<Reason>>)
    modifies at
    ensures result == Verdicts(builtIn, at.facts, items)
    ensures at.probes == Plus(old(at.probes), Wanted(builtIn, at.facts, items))
  {
    var memo := new Memo(at);
    ghost var before := at.probes;
    result := map[];
    for i := 0 to |items|
      invariant memo.at == at && fresh(memo) && memo.Valid(before)
      invariant memo.Known() == Wanted(builtIn, at.facts, items[..i])
      invariant result == Verdicts(builtIn, at.facts, items[..i])
    {
      result := memo.EvaluateNext(builtIn, items, i, result, before);
    }
    assert items[..|items|] == items;
  }
}
