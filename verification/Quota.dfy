/**
 * The two-level monthly quota counters: the reserve and release scripts, and what any run
 * of reservations and matching releases keeps, with Redis up or down and the month as it is
 * at each of them. Counters are exact reals.
 */
module Quota {
  import opened Wrappers

  datatype Meter = Usd | Events

  /** A counter of one month: product level, or project level when a project is named. */
  datatype Key = Key(org: string, product: string, month: int, project: Option<string>, meter: Meter)

  type Store = map<Key, real>

  /** What a call is about; `month` is what `monthKey` gives at the call. */
  datatype Reservation = Reservation(
    orgId: string, product: string, projectId: Option<string>, estimatedCostUsd: Option<real>, units: Option<int>,
    month: int)

  /** An empty project id counts as none. */
  predicate HasProject(r: Reservation) {
    r.projectId.Some? && r.projectId.value != ""
  }

  function Cost(r: Reservation): (c: real)
    ensures c >= 0.0
  {
    var c := if r.estimatedCostUsd.Some? then r.estimatedCostUsd.value else 0.0;
    if c > 0.0 then c else 0.0
  }

  function Units(r: Reservation): (u: real)
    ensures u >= 0.0
  {
    var u := if r.units.Some? then r.units.value else 1;
    if u > 0 then u as real else 0.0
  }

  function ProductKey(r: Reservation, m: Meter): Key {
    Key(r.orgId, r.product, r.month, None, m)
  }

  function ProjectKey(r: Reservation, m: Meter): Key
    requires HasProject(r)
  {
    Key(r.orgId, r.product, r.month, r.projectId, m)
  }

  /** `keys`: absent project keys are the empty placeholders. */
  function Keys(r: Reservation): (keys: seq<Option<Key>>)
    ensures |keys| == 4
  {
    [Some(ProductKey(r, Usd)), Some(ProductKey(r, Events)),
     if HasProject(r) then Some(ProjectKey(r, Usd)) else None,
     if HasProject(r) then Some(ProjectKey(r, Events)) else None]
  }

  function Get(store: Store, k: Key): real {
    if k in store then store[k] else 0.0
  }

  /** A negative limit argument means none; so does a negative limit of the plan. */
  predicate Over(limits: Store, k: Key, used: real, delta: real) {
    k in limits && limits[k] >= 0.0 && used + delta > limits[k]
  }

  datatype Reason = ProductSpend | ProductEvents | ProjectSpend | ProjectEvents

  /** What the reserve script refuses, in its order. */
  function Refusal(store: Store, limits: Store, r: Reservation): Option<Reason> {
    if Over(limits, ProductKey(r, Usd), Get(store, ProductKey(r, Usd)), Cost(r)) then Some(ProductSpend)
    else if Over(limits, ProductKey(r, Events), Get(store, ProductKey(r, Events)), Units(r)) then Some(ProductEvents)
    else if !HasProject(r) then None
    else if Over(limits, ProjectKey(r, Usd), Get(store, ProjectKey(r, Usd)), Cost(r)) then Some(ProjectSpend)
    else if Over(limits, ProjectKey(r, Events), Get(store, ProjectKey(r, Events)), Units(r)) then Some(ProjectEvents)
    else None
  }

  /** What one reservation adds to a counter when it is admitted. */
  function Amount(r: Reservation, k: Key): (a: real)
    ensures a >= 0.0
  {
    if k.org != r.orgId || k.product != r.product || k.month != r.month then 0.0
    else if k.project.Some? && !(HasProject(r) && k.project == r.projectId) then 0.0
    else if k.meter.Usd? then Cost(r) else Units(r)
  }

  /**
   * What a reservation counts for: its cost and its units, one unit when it names none, nothing for what
   * is negative or missing, on the product's counters of its month and on those of the project it names.
   */
  lemma AmountIs(r: Reservation, k: Key)
    ensures var addressed := k.org == r.orgId && k.product == r.product && k.month == r.month
        && (k.project.None? || (k.project == r.projectId && k.project.value != ""));
      && (!addressed ==> Amount(r, k) == 0.0)
      && (addressed && k.meter.Usd? ==>
            match r.estimatedCostUsd
            case Some(c) => Amount(r, k) == if c >= 0.0 then c else 0.0
            case None => Amount(r, k) == 0.0)
      && (addressed && k.meter.Events? ==>
            match r.units
            case Some(u) => Amount(r, k) == if u >= 0 then u as real else 0.0
            case None => Amount(r, k) == 1.0)
      && (Some(k) in Keys(r) <==> addressed)
  {
    var keys := Keys(r);
    assert keys[0] == Some(ProductKey(r, Usd)) && keys[1] == Some(ProductKey(r, Events));
    if HasProject(r) {
      assert keys[2] == Some(ProjectKey(r, Usd)) && keys[3] == Some(ProjectKey(r, Events));
    }
  }

  /** The counter a refusal names. */
  function Named(r: Reservation, reason: Reason): Key {
    var project := if reason.ProductSpend? || reason.ProductEvents? then None else r.projectId;
    Key(r.orgId, r.product, r.month, project, if reason.ProductSpend? || reason.ProjectSpend? then Usd else Events)
  }

  /** A refusal names a counter of the reservation that would pass its limit. */
  lemma RefusalNames(store: Store, limits: Store, r: Reservation)
    ensures Refusal(store, limits, r).Some? ==>
      var k := Named(r, Refusal(store, limits, r).value);
      Some(k) in Keys(r) && k in limits && 0.0 <= limits[k] < Get(store, k) + Amount(r, k)
  {
    if Refusal(store, limits, r).Some? {
      AmountIs(r, Named(r, Refusal(store, limits, r).value));
    }
  }

  predicate Among(keys: seq<Option<Key>>, n: nat, k: Key)
    requires n <= |keys|
  {
    exists j :: 0 <= j < n && keys[j] == Some(k)
  }

  class QuotaPlane {
    const limits: Store
    var store: Store

    constructor (limits: Store)
      ensures this.limits == limits && store == map[]
    {
      this.limits := limits;
      store := map[];
    }

    method IncrBy(k: Key, delta: real)
      modifies this
      ensures store == old(store)[k := Get(old(store), k) + delta]
    {
      store := store[k := (if k in store then store[k] else 0.0) + delta];
    }

    /** `checkAndReserve`: with Redis down it fails open and counts nothing. */
    method CheckAndReserve(r: Reservation, redisUp: bool) returns (allowed: bool, reason: Option<Reason>)
      modifies this
      ensures reason == (if redisUp then Refusal(old(store), limits, r) else None)
      ensures allowed == reason.None?
      ensures forall k :: Get(store, k) == Get(old(store), k) + if redisUp && allowed then Amount(r, k) else 0.0
      ensures !(redisUp && allowed) ==> store == old(store)
    {
      if !redisUp {
        return true, None;
      }
      var cost, events := Cost(r), Units(r);
      var pcost, pev := ProductKey(r, Usd), ProductKey(r, Events);
      if Over(limits, pcost, Get(store, pcost), cost) {
        return false, Some(ProductSpend);
      }
      if Over(limits, pev, Get(store, pev), events) {
        return false, Some(ProductEvents);
      }
      if HasProject(r) {
        var jcost, jev := ProjectKey(r, Usd), ProjectKey(r, Events);
        if Over(limits, jcost, Get(store, jcost), cost) {
          return false, Some(ProjectSpend);
        }
        if Over(limits, jev, Get(store, jev), events) {
          return false, Some(ProjectEvents);
        }
        IncrBy(jcost, cost);
        IncrBy(jev, events);
      }
      IncrBy(pcost, cost);
      IncrBy(pev, events);
      return true, None;
    }

    /** `release`: the project keys are decremented by zero. */
    method Release(r: Reservation, redisUp: bool) returns (done: bool)
      modifies this
      ensures done == redisUp
      ensures forall k :: Get(store, k) == if redisUp then Released(old(store), r, k) else Get(old(store), k)
    {
      if !redisUp {
        return false;
      }
      var keys := Keys(r);
      var args := [Cost(r), Units(r), 0.0, 0.0];
      for i := 0 to 4
        invariant forall k ::
          Get(store, k) == if Among(keys, i, k) then Released(old(store), r, k) else Get(old(store), k)
      {
        if keys[i].Some? {
          var next := Get(store, keys[i].value) - args[i];
          if next < 0.0 {
            next := 0.0;
          }
          store := store[keys[i].value := next];
        }
      }
      return true;
    }
  }

  function Clamp(x: real): real {
    if x < 0.0 then 0.0 else x
  }

  /** A counter after the release script: product counters go down by the reservation, project counters by nothing. */
  function Released(store: Store, r: Reservation, k: Key): real {
    if Some(k) !in Keys(r) then Get(store, k)
    else if k.project.Some? then Clamp(Get(store, k))
    else Clamp(Get(store, k) - Amount(r, k))
  }

  /** A reservation is admitted exactly when no limited counter would pass its limit. */
  lemma AdmittedIff(store: Store, limits: Store, r: Reservation)
    ensures Refusal(store, limits, r).None? <==>
      forall k :: Some(k) in Keys(r) && k in limits && limits[k] >= 0.0 ==> Get(store, k) + Amount(r, k) <= limits[k]
  {
    var keys := Keys(r);
    assert keys[0] == Some(ProductKey(r, Usd)) && keys[1] == Some(ProductKey(r, Events));
    if HasProject(r) {
      assert keys[2] == Some(ProjectKey(r, Usd)) && keys[3] == Some(ProjectKey(r, Events));
    }
  }

  // Runs

  /** An admitted reservation, and whether Redis was up to count it; the caller cannot tell. */
  datatype Hold = Hold(r: Reservation, counted: bool)

  datatype Action = Reserve(r: Reservation, redisUp: bool) | GiveBack(i: nat, month: int, redisUp: bool)

  /**
   * `open` lists the holds not yet released and `granted` all counted reservations; `strays` are
   * the releases that reached Redis without taking back what was counted there, `lost` the
   * counted reservations no release took back.
   */
  datatype State = State(
    store: Store, open: seq<Hold>, granted: seq<Reservation>, strays: seq<Reservation>, lost: seq<Reservation>)

  function Start(): State {
    State(map[], [], [], [], [])
  }

  function Without(hs: seq<Hold>, i: nat): seq<Hold>
    requires i < |hs|
  {
    hs[..i] + hs[i + 1..]
  }

  lemma WithoutLast(hs: seq<Hold>, h: Hold)
    ensures Without(hs + [h], |hs|) == hs
  {
  }

  ghost predicate Reserves(limits: Store, s: State, r: Reservation, redisUp: bool, t: State) {
    var ok := !redisUp || Refusal(s.store, limits, r).None?;
    && (forall k :: Get(t.store, k) == Get(s.store, k) + if redisUp && ok then Amount(r, k) else 0.0)
    && t.open == (if ok then s.open + [Hold(r, redisUp)] else s.open)
    && t.granted == (if redisUp && ok then s.granted + [r] else s.granted)
    && t.strays == s.strays && t.lost == s.lost
  }

  /** The release of a hold addresses the counters of the month it is called in. */
  function ReleaseOf(h: Hold, month: int): Reservation {
    h.r.(month := month)
  }

  ghost predicate GivesBack(s: State, i: nat, month: int, redisUp: bool, t: State) {
    && i < |s.open|
    && var h, r := s.open[i], ReleaseOf(s.open[i], month);
    var takesBack := h.counted && redisUp && month == h.r.month;
    && (forall k :: Get(t.store, k) == if redisUp then Released(s.store, r, k) else Get(s.store, k))
    && t.open == Without(s.open, i)
    && t.granted == s.granted
    && t.strays == (if redisUp && !takesBack then s.strays + [r] else s.strays)
    && t.lost == if h.counted && !takesBack then s.lost + [h.r] else s.lost
  }

  ghost predicate Next(limits: Store, s: State, a: Action, t: State) {
    match a
    case Reserve(r, redisUp) => Reserves(limits, s, r, redisUp, t)
    case GiveBack(i, month, redisUp) => GivesBack(s, i, month, redisUp, t)
  }

  /** A run from empty counters, with every release matching an open hold. */
  ghost predicate IsRun(limits: Store, actions: seq<Action>, states: seq<State>) {
    && |states| == |actions| + 1
    && states[0] == Start()
    && forall n :: 0 <= n < |actions| ==> Next(limits, states[n], actions[n], states[n + 1])
  }

  ghost function Sum(rs: seq<Reservation>, k: Key): (total: real)
    ensures total >= 0.0
  {
    if rs == [] then 0.0 else Sum(rs[..|rs| - 1], k) + Amount(rs[|rs| - 1], k)
  }

  lemma SumAppend(rs: seq<Reservation>, r: Reservation, k: Key)
    ensures Sum(rs + [r], k) == Sum(rs, k) + Amount(r, k)
  {
    assert (rs + [r])[..|rs|] == rs;
  }

  function Held(h: Hold, k: Key): (a: real)
    ensures a >= 0.0
  {
    if h.counted then Amount(h.r, k) else 0.0
  }

  /** What the counted holds amount to. */
  ghost function HeldSum(hs: seq<Hold>, k: Key): (total: real)
    ensures total >= 0.0
  {
    if hs == [] then 0.0 else HeldSum(hs[..|hs| - 1], k) + Held(hs[|hs| - 1], k)
  }

  lemma HeldAppend(hs: seq<Hold>, h: Hold, k: Key)
    ensures HeldSum(hs + [h], k) == HeldSum(hs, k) + Held(h, k)
  {
    assert (hs + [h])[..|hs|] == hs;
  }

  lemma {:induction false} HeldWithout(hs: seq<Hold>, i: nat, k: Key)
    requires i < |hs|
    ensures HeldSum(Without(hs, i), k) == HeldSum(hs, k) - Held(hs[i], k)
  {
    var n := |hs| - 1;
    if i == n {
      assert Without(hs, i) == hs[..n];
    } else {
      HeldWithout(hs[..n], i, k);
      assert Without(hs, i) == Without(hs[..n], i) + [hs[n]];
      HeldAppend(Without(hs[..n], i), hs[n], k);
    }
  }

  /** What every run keeps, counter by counter, however Redis comes and goes. */
  ghost predicate Accounted(limits: Store, s: State, k: Key) {
    && 0.0 <= Get(s.store, k)
    && (k in limits && limits[k] >= 0.0 ==> Get(s.store, k) <= limits[k])
    && HeldSum(s.open, k) <= Sum(s.granted, k)
    && if k.project.Some? then Get(s.store, k) == Sum(s.granted, k)
       else HeldSum(s.open, k) - Sum(s.strays, k) <= Get(s.store, k) <= HeldSum(s.open, k) + Sum(s.lost, k)
  }

  lemma AmountAddressed(r: Reservation, k: Key)
    ensures Amount(r, k) > 0.0 ==> Some(k) in Keys(r)
  {
    var keys := Keys(r);
    if Amount(r, k) > 0.0 {
      assert keys[0] == Some(k) || keys[1] == Some(k) || keys[2] == Some(k) || keys[3] == Some(k);
    }
  }

  lemma ReserveKeeps(limits: Store, s: State, r: Reservation, redisUp: bool, t: State, k: Key)
    requires Accounted(limits, s, k) && Reserves(limits, s, r, redisUp, t)
    ensures Accounted(limits, t, k)
    ensures Get(t.store, k) - HeldSum(t.open, k) == Get(s.store, k) - HeldSum(s.open, k)
  {
    HeldAppend(s.open, Hold(r, redisUp), k);
    SumAppend(s.granted, r, k);
    AdmittedIff(s.store, limits, r);
    AmountAddressed(r, k);
  }

  /**
   * A release that reaches Redis takes back what the hold amounts to, or all there is; one that does
   * not takes nothing.
   */
  lemma GiveBackTakes(s: State, i: nat, month: int, redisUp: bool, t: State, k: Key)
    requires GivesBack(s, i, month, redisUp, t) && Get(s.store, k) >= 0.0
    ensures Get(t.store, k) ==
      if !redisUp || k.project.Some? then Get(s.store, k)
        else Clamp(Get(s.store, k) - Amount(ReleaseOf(s.open[i], month), k))
    ensures HeldSum(t.open, k) == HeldSum(s.open, k) - Held(s.open[i], k)
  {
    HeldWithout(s.open, i, k);
    AmountAddressed(ReleaseOf(s.open[i], month), k);
  }

  /** What a release changes on one counter and in the sums over it. */
  ghost predicate GaveBack(s: State, i: nat, month: int, redisUp: bool, t: State, k: Key)
    requires i < |s.open|
  {
    var h, r := s.open[i], ReleaseOf(s.open[i], month);
    var takesBack := h.counted && redisUp && month == h.r.month;
    && Get(t.store, k)
       == (if !redisUp || k.project.Some? then Get(s.store, k) else Clamp(Get(s.store, k) - Amount(r, k)))
    && HeldSum(t.open, k) == HeldSum(s.open, k) - Held(h, k)
    && Sum(t.granted, k) == Sum(s.granted, k)
    && Sum(t.strays, k) == Sum(s.strays, k) + (if redisUp && !takesBack then Amount(r, k) else 0.0)
    && Sum(t.lost, k) == Sum(s.lost, k) + if h.counted && !takesBack then Amount(h.r, k) else 0.0
  }

  lemma GiveBackGives(s: State, i: nat, month: int, redisUp: bool, t: State, k: Key)
    requires GivesBack(s, i, month, redisUp, t) && Get(s.store, k) >= 0.0
    ensures GaveBack(s, i, month, redisUp, t, k)
  {
    GiveBackTakes(s, i, month, redisUp, t, k);
    SumAppend(s.strays, ReleaseOf(s.open[i], month), k);
    SumAppend(s.lost, s.open[i].r, k);
  }

  lemma GaveBackKeeps(limits: Store, s: State, i: nat, month: int, redisUp: bool, t: State, k: Key)
    requires i < |s.open| && Accounted(limits, s, k) && GaveBack(s, i, month, redisUp, t, k)
    ensures Accounted(limits, t, k)
  {
  }

  lemma GiveBackKeeps(limits: Store, s: State, i: nat, month: int, redisUp: bool, t: State, k: Key)
    requires Accounted(limits, s, k) && GivesBack(s, i, month, redisUp, t)
    ensures Accounted(limits, t, k)
  {
    GiveBackGives(s, i, month, redisUp, t, k);
    GaveBackKeeps(limits, s, i, month, redisUp, t, k);
  }

  /**
   * Over every run, with Redis up or down at any step: no counter exceeds its limit or falls
   * below zero. A project counter is the sum of everything ever counted for the project. A
   * product counter is below the counted open holds by no more than the strays took, and above
   * them by no more than the lost releases left.
   */
  lemma {:induction false} RunIsAccounted(limits: Store, actions: seq<Action>, states: seq<State>, n: nat, k: Key)
    requires IsRun(limits, actions, states) && n <= |actions|
    ensures Accounted(limits, states[n], k)
  {
    if n > 0 {
      RunIsAccounted(limits, actions, states, n - 1, k);
      assert Next(limits, states[n - 1], actions[n - 1], states[n]);
      match actions[n - 1]
      case Reserve(r, redisUp) => ReserveKeeps(limits, states[n - 1], r, redisUp, states[n], k);
      case GiveBack(i, month, redisUp) => GiveBackKeeps(limits, states[n - 1], i, month, redisUp, states[n], k);
    }
  }

  // When product counters are exact

  ghost predicate Exact(s: State, k: Key) {
    Get(s.store, k) == HeldSum(s.open, k)
  }

  /** What the release takes off this counter is what the hold put on it, or there is nothing to take. */
  predicate Matches(s: State, a: Action, k: Key) {
    a.GiveBack? && a.i < |s.open| ==>
      var held := Held(s.open[a.i], k);
      var taken := if a.redisUp then Amount(ReleaseOf(s.open[a.i], a.month), k) else 0.0;
      taken == held || (held == 0.0 && Get(s.store, k) == 0.0)
  }

  /** For the counters a hold addresses: the release reaches them exactly when the reservation was counted. */
  lemma MatchesIff(s: State, a: Action, m: Meter)
    requires a.GiveBack? && a.i < |s.open|
    ensures var h := s.open[a.i];
      var k := ProductKey(h.r, m);
      Amount(h.r, k) > 0.0 && Get(s.store, k) > 0.0 ==>
        (Matches(s, a, k) <==> (h.counted <==> a.redisUp && a.month == h.r.month))
  {
  }

  /** One step keeps a product counter exact if and only if it is no unmatched release. */
  lemma StepExactIff(limits: Store, s: State, a: Action, t: State, k: Key)
    requires Accounted(limits, s, k) && Exact(s, k) && k.project.None? && Next(limits, s, a, t)
    ensures Exact(t, k) <==> Matches(s, a, k)
  {
    match a
    case Reserve(r, redisUp) => ReserveKeeps(limits, s, r, redisUp, t, k);
    case GiveBack(i, month, redisUp) =>
      GiveBackTakes(s, i, month, redisUp, t, k);
      HeldWithout(s.open, i, k);
      if s.open[i].counted {
        HeldCovers(s.open, i, k);
      }
  }

  lemma HeldCovers(hs: seq<Hold>, i: nat, k: Key)
    requires i < |hs|
    ensures Held(hs[i], k) <= HeldSum(hs, k)
  {
    HeldWithout(hs, i, k);
  }

  ghost predicate ExactUpTo(states: seq<State>, n: nat, k: Key)
    requires n < |states|
  {
    forall m :: 0 <= m <= n ==> Exact(states[m], k)
  }

  predicate MatchesUpTo(actions: seq<Action>, states: seq<State>, n: nat, k: Key)
    requires n <= |actions| < |states|
  {
    forall m :: 0 <= m < n ==> Matches(states[m], actions[m], k)
  }

  /** Throughout a run a product counter equals the counted open holds if and only if every release matches. */
  lemma {:induction false} RunExactIff(limits: Store, actions: seq<Action>, states: seq<State>, n: nat, k: Key)
    requires IsRun(limits, actions, states) && n <= |actions| && k.project.None?
    ensures ExactUpTo(states, n, k) <==> MatchesUpTo(actions, states, n, k)
  {
    if n > 0 {
      RunExactIff(limits, actions, states, n - 1, k);
      RunStepExactIff(limits, actions, states, n - 1, k);
      ExactUpToSnoc(states, n, k);
      MatchesUpToSnoc(actions, states, n, k);
      assert ExactUpTo(states, n - 1, k) ==> Exact(states[n - 1], k);
    }
  }

  lemma RunStepExactIff(limits: Store, actions: seq<Action>, states: seq<State>, n: nat, k: Key)
    requires IsRun(limits, actions, states) && n < |actions| && k.project.None?
    ensures Exact(states[n], k) ==> (Exact(states[n + 1], k) <==> Matches(states[n], actions[n], k))
  {
    RunIsAccounted(limits, actions, states, n, k);
    assert Next(limits, states[n], actions[n], states[n + 1]);
    if Exact(states[n], k) {
      StepExactIff(limits, states[n], actions[n], states[n + 1], k);
    }
  }

  lemma ExactUpToSnoc(states: seq<State>, n: nat, k: Key)
    requires 0 < n < |states|
    ensures ExactUpTo(states, n, k) <==> ExactUpTo(states, n - 1, k) && Exact(states[n], k)
  {
  }

  lemma MatchesUpToSnoc(actions: seq<Action>, states: seq<State>, n: nat, k: Key)
    requires 0 < n <= |actions| < |states|
    ensures MatchesUpTo(actions, states, n, k)
      <==> MatchesUpTo(actions, states, n - 1, k) && Matches(states[n - 1], actions[n - 1], k)
  {
  }

  /**
   * From an exact product counter, a release that reaches Redis meets the zero clamp only when
   * it takes more than all counted holds of that month, none of which it put there itself.
   */
  lemma ClampIsMetIff(s: State, i: nat, month: int, k: Key)
    requires Exact(s, k) && i < |s.open|
    ensures var r := ReleaseOf(s.open[i], month);
      Get(s.store, k) - Amount(r, k) < 0.0 <==> Held(s.open[i], k) == 0.0 && HeldSum(s.open, k) < Amount(r, k)
  {
    HeldCovers(s.open, i, k);
  }

  /** What a caller would have to know for a release to restore every counter. */
  predicate Undoes(store: Store, r: Reservation, reservedUp: bool, month: int, releasedUp: bool) {
    || (Cost(r) == 0.0 && Units(r) == 0.0)
    || (!reservedUp && !releasedUp)
    || (reservedUp && releasedUp && month == r.month && !HasProject(r))
    || (!reservedUp && releasedUp
        && (Cost(r) == 0.0 || Get(store, ProductKey(r.(month := month), Usd)) == 0.0)
        && (Units(r) == 0.0 || Get(store, ProductKey(r.(month := month), Events)) == 0.0))
  }

  /**
   * `release` is meant to be symmetric with `checkAndReserve`: same buckets, same month. It
   * restores every counter exactly when the reservation took nothing, when Redis saw neither
   * call, when it saw both in one month and no project was named (project counters keep what
   * was released), or when it saw only the release and found nothing to take.
   */
  lemma ReleaseUndoesIff(
    limits: Store, s: State, r: Reservation, reservedUp: bool, t: State, month: int, releasedUp: bool, u: State)
    requires forall k :: Get(s.store, k) >= 0.0
    requires !reservedUp || Refusal(s.store, limits, r).None?
    requires Reserves(limits, s, r, reservedUp, t) && GivesBack(t, |s.open|, month, releasedUp, u)
    ensures (forall k :: Get(u.store, k) == Get(s.store, k)) <==> Undoes(s.store, r, reservedUp, month, releasedUp)
  {
    assert t.open[|s.open|].r == r;
    if forall k :: Get(u.store, k) == Get(s.store, k) {
      RestoredCounters(s, r, reservedUp, t, month, releasedUp, u);
    }
    if Undoes(s.store, r, reservedUp, month, releasedUp) {
      forall k ensures Get(u.store, k) == Get(s.store, k) {
        UndoneCounter(s, r, reservedUp, t, month, releasedUp, u, k);
      }
    }
  }

  lemma UndoneCounter(
    s: State, r: Reservation, reservedUp: bool, t: State, month: int, releasedUp: bool, u: State, k: Key)
    requires forall k :: Get(t.store, k) == Get(s.store, k) + if reservedUp then Amount(r, k) else 0.0
    requires forall k :: Get(s.store, k) >= 0.0
    requires GivesBack(t, |s.open|, month, releasedUp, u) && t.open[|s.open|].r == r
    requires Undoes(s.store, r, reservedUp, month, releasedUp)
    ensures Get(u.store, k) == Get(s.store, k)
  {
    var back := r.(month := month);
    AmountAddressed(r, k);
    GiveBackTakes(t, |s.open|, month, releasedUp, u, k);
    assert k.project.None? && Amount(back, k) > 0.0 ==> k == ProductKey(back, Usd) || k == ProductKey(back, Events);
  }

  lemma RestoredCounters(
    s: State, r: Reservation, reservedUp: bool, t: State, month: int, releasedUp: bool, u: State)
    requires forall k :: Get(u.store, k) == Get(s.store, k)
    requires forall k :: Get(t.store, k) == Get(s.store, k) + if reservedUp then Amount(r, k) else 0.0
    requires forall k :: Get(s.store, k) >= 0.0
    requires GivesBack(t, |s.open|, month, releasedUp, u) && t.open[|s.open|].r == r
    ensures Undoes(s.store, r, reservedUp, month, releasedUp)
  {
    var back := r.(month := month);
    GiveBackTakes(t, |s.open|, month, releasedUp, u, ProductKey(r, Usd));
    GiveBackTakes(t, |s.open|, month, releasedUp, u, ProductKey(r, Events));
    GiveBackTakes(t, |s.open|, month, releasedUp, u, ProductKey(back, Usd));
    GiveBackTakes(t, |s.open|, month, releasedUp, u, ProductKey(back, Events));
    if HasProject(r) {
      GiveBackTakes(t, |s.open|, month, releasedUp, u, ProjectKey(r, Usd));
      GiveBackTakes(t, |s.open|, month, releasedUp, u, ProjectKey(r, Events));
    }
  }

  /** So a project whose limit one reservation exhausts stays refused although nothing of it is outstanding. */
  lemma ReleasedProjectStaysFull(limits: Store, r: Reservation, t: State, u: State)
    requires HasProject(r) && Cost(r) > 0.0 && limits == map[ProjectKey(r, Usd) := Cost(r)]
    requires Reserves(limits, Start(), r, true, t) && GivesBack(t, 0, r.month, true, u)
    ensures u.open == [] && Refusal(u.store, limits, r) == Some(ProjectSpend)
  {
    assert t.open == [Hold(r, true)];
    GiveBackTakes(t, 0, r.month, true, u, ProjectKey(r, Usd));
  }

  /** And a hold taken while Redis was down, once released, makes room that other open holds still occupy. */
  lemma StrayReleaseFreesOthers(limits: Store, s: State, r: Reservation, t: State, u: State)
    requires Reserves(limits, s, r, false, t) && GivesBack(t, |s.open|, r.month, true, u)
    requires forall k :: Get(s.store, k) >= 0.0
    ensures u.open == s.open
    ensures Get(u.store, ProductKey(r, Events)) == Clamp(Get(s.store, ProductKey(r, Events)) - Units(r))
  {
    WithoutLast(s.open, t.open[|s.open|]);
    GiveBackTakes(t, |s.open|, r.month, true, u, ProductKey(r, Events));
  }

  /** And a hold released in a later month stays on its own month's counter and is taken off the later one's. */
  lemma LaterMonthPays(limits: Store, s: State, r: Reservation, t: State, month: int, u: State)
    requires forall k :: Get(s.store, k) >= 0.0
    requires month != r.month && Refusal(s.store, limits, r).None?
    requires Reserves(limits, s, r, true, t) && GivesBack(t, |s.open|, month, true, u)
    ensures u.open == s.open
    ensures Get(u.store, ProductKey(r, Events)) == Get(s.store, ProductKey(r, Events)) + Units(r)
    ensures var later := ProductKey(r.(month := month), Events);
      Get(u.store, later) == Clamp(Get(s.store, later) - Units(r))
  {
    WithoutLast(s.open, t.open[|s.open|]);
    GiveBackTakes(t, |s.open|, month, true, u, ProductKey(r, Events));
    GiveBackTakes(t, |s.open|, month, true, u, ProductKey(r.(month := month), Events));
  }
}
