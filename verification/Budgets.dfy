/**
 * Budgets: thresholds are cleaned when a budget is created, and every evaluation compares
 * month-to-date spend with them, alerting at most once per threshold and month.
 */
module Budgets {
  import opened Wrappers
  import opened Sorting

  /** `notifiedCycle` is the month of the last alert, `notifiedPercent` its threshold. */
  datatype Budget = Budget(id: nat, monthlyUsd: real, thresholds: seq<int>, notifiedPercent: int,
    notifiedCycle: Option<int>)

  datatype Severity = Info | Warn | Error

  datatype Alert = Alert(budgetId: nat, percent: int, threshold: int, severity: Severity)

  function Keep(p: int -> bool, s: seq<int>): (r: seq<int>)
    ensures forall t :: t in r <==> t in s && p(t)
  {
    if s == [] then []
    else
      var rest := Keep(p, s[1..]);
      assert forall t :: t in s <==> t == s[0] || t in s[1..];
      if p(s[0]) then [s[0]] + rest else rest
  }

  /** `Math.max` of at least one number. */
  function Max(s: seq<int>): (m: int)
    requires s != []
    ensures m in s && forall t :: t in s ==> t <= m
  {
    if |s| == 1 then s[0]
    else
      var rest := Max(s[1..]);
      assert forall t :: t in s <==> t == s[0] || t in s[1..];
      if s[0] >= rest then s[0] else rest
  }

  // Evaluation of one budget

  function Percent(b: Budget, spend: real): int
    requires b.monthlyUsd > 0.0
  {
    (spend / b.monthlyUsd * 100.0).Floor
  }

  /** A percent is reached exactly when the spend has reached that part of the budget. */
  lemma PercentReaches(b: Budget, spend: real, t: int)
    requires b.monthlyUsd > 0.0
    ensures Percent(b, spend) >= t <==> 100.0 * spend >= t as real * b.monthlyUsd
  {
    var q := spend / b.monthlyUsd;
    assert q * b.monthlyUsd == spend;
    if q * 100.0 >= t as real {
      assert q * 100.0 * b.monthlyUsd >= t as real * b.monthlyUsd;
    } else {
      assert q * 100.0 * b.monthlyUsd < t as real * b.monthlyUsd;
    }
    assert q * 100.0 * b.monthlyUsd == 100.0 * spend;
  }

  /** What has been alerted in this month. */
  function Notified(b: Budget, month: int): int {
    if b.notifiedCycle == Some(month) then b.notifiedPercent else 0
  }

  function Crossing(percent: int, notified: int): int -> bool {
    (t: int) => percent >= t && t > notified
  }

  function NewCrossed(b: Budget, month: int, percent: int): seq<int> {
    Keep(Crossing(percent, Notified(b, month)), b.thresholds)
  }

  function SeverityOf(threshold: int): Severity {
    if threshold >= 100 then Error else if threshold >= 80 then Warn else Info
  }

  /** The budget after an evaluation, and the alert it sends. */
  function Evaluated(b: Budget, month: int, spend: real): (Budget, Option<Alert>) {
    if b.monthlyUsd <= 0.0 then (b, None)
    else
      var percent := Percent(b, spend);
      var crossed := NewCrossed(b, month, percent);
      if crossed == [] then (b, None)
      else
        var highest := Max(crossed);
        (b.(notifiedPercent := highest, notifiedCycle := Some(month)),
          Some(Alert(b.id, percent, highest, SeverityOf(highest))))
  }

  /** An alert names its budget and is an error from 100 percent on, a warning from 80 on, else information. */
  lemma AlertIs(b: Budget, month: int, spend: real)
    requires Evaluated(b, month, spend).1.Some?
    ensures var alert := Evaluated(b, month, spend).1.value;
      && alert.budgetId == b.id
      && (alert.severity == Error <==> alert.threshold >= 100)
      && (alert.severity == Warn <==> 80 <= alert.threshold < 100)
  {
  }

  // One month of evaluations

  /** The budget after the spends of one month have been evaluated in turn. */
  function After(b: Budget, month: int, spends: seq<real>): (r: Budget)
    ensures r.thresholds == b.thresholds && r.monthlyUsd == b.monthlyUsd && r.id == b.id
  {
    if spends == [] then b
    else
      var n := |spends| - 1;
      Evaluated(After(b, month, spends[..n]), month, spends[n]).0
  }

  /** The alert of evaluation `k`. */
  function AlertAt(b: Budget, month: int, spends: seq<real>, k: nat): Option<Alert>
    requires k < |spends|
  {
    Evaluated(After(b, month, spends[..k]), month, spends[k]).1
  }

  /** A threshold reached by some evaluation. */
  ghost predicate Reached(b: Budget, spends: seq<real>, t: int)
    requires b.monthlyUsd > 0.0
  {
    exists k :: 0 <= k < |spends| && Percent(b, spends[k]) >= t
  }

  lemma ReachedSnoc(b: Budget, spends: seq<real>, n: nat, t: int)
    requires b.monthlyUsd > 0.0 && n < |spends|
    ensures Reached(b, spends[..n + 1], t) <==> Reached(b, spends[..n], t) || Percent(b, spends[n]) >= t
  {
    var front, whole := spends[..n], spends[..n + 1];
    if Reached(b, front, t) {
      var k :| 0 <= k < n && Percent(b, front[k]) >= t;
      assert whole[k] == front[k];
    }
    if Percent(b, spends[n]) >= t {
      assert whole[n] == spends[n];
    }
    if Reached(b, whole, t) {
      var k :| 0 <= k < n + 1 && Percent(b, whole[k]) >= t;
      assert k < n ==> front[k] == whole[k];
    }
  }

  /** The alerted level is the largest threshold reached, where that is above the level at the start. */
  ghost predicate Tracks(b: Budget, month: int, spends: seq<real>)
    requires b.monthlyUsd > 0.0
  {
    var level, start := Notified(After(b, month, spends), month), Notified(b, month);
    && level >= start
    && (level > start ==> level in b.thresholds && Reached(b, spends, level))
    && forall t :: t in b.thresholds && t > start && Reached(b, spends, t) ==> t <= level
  }

  /**
   * At every point of a month the alerted level is the largest threshold any evaluation has
   * reached so far, or what it was when the month's evaluations began.
   */
  lemma {:induction false} LevelIsLargestReached(b: Budget, month: int, spends: seq<real>)
    requires b.monthlyUsd > 0.0
    ensures Tracks(b, month, spends)
  {
    if spends != [] {
      var n := |spends| - 1;
      LevelIsLargestReached(b, month, spends[..n]);
      var before := After(b, month, spends[..n]);
      var percent := Percent(b, spends[n]);
      var crossed := NewCrossed(before, month, percent);
      assert spends[..n + 1] == spends;
      forall t ensures Reached(b, spends, t) <==> Reached(b, spends[..n], t) || percent >= t {
        ReachedSnoc(b, spends, n, t);
      }
      var level, start := Notified(After(b, month, spends), month), Notified(b, month);
      assert level == if crossed == [] then Notified(before, month) else Max(crossed);
      forall t | t in b.thresholds && t > start && Reached(b, spends, t) ensures t <= level {
        if percent >= t && t > Notified(before, month) {
          assert t in crossed;
        }
      }
    }
  }

  /**
   * A threshold is among the newly crossed ones of exactly one evaluation, the first that
   * reaches it, unless it had been covered before the month's evaluations began.
   */
  lemma CrossedOnceIff(b: Budget, month: int, spends: seq<real>, k: nat, t: int)
    requires b.monthlyUsd > 0.0 && k < |spends| && t in b.thresholds
    ensures t in NewCrossed(After(b, month, spends[..k]), month, Percent(b, spends[k])) <==>
      t > Notified(b, month) && Percent(b, spends[k]) >= t && forall j :: 0 <= j < k ==> Percent(b, spends[j]) < t
  {
    LevelIsLargestReached(b, month, spends[..k]);
    var level := Notified(After(b, month, spends[..k]), month);
    if forall j :: 0 <= j < k ==> Percent(b, spends[j]) < t {
      if level > Notified(b, month) {
        var j :| 0 <= j < k && Percent(b, spends[..k][j]) >= level;
        assert Percent(b, spends[j]) < t;
      }
    } else {
      var j :| 0 <= j < k && Percent(b, spends[j]) >= t;
      assert Percent(b, spends[..k][j]) >= t;
      assert Reached(b, spends[..k], t);
    }
  }

  /** An evaluation alerts exactly when it is the first to reach some threshold, and then at the largest such. */
  lemma AlertsIff(b: Budget, month: int, spends: seq<real>, k: nat)
    requires b.monthlyUsd > 0.0 && k < |spends|
    ensures AlertAt(b, month, spends, k).Some? <==>
      exists t :: t in b.thresholds && t > Notified(b, month) && Percent(b, spends[k]) >= t
                  && forall j :: 0 <= j < k ==> Percent(b, spends[j]) < t
    ensures AlertAt(b, month, spends, k).Some? ==>
      var alert := AlertAt(b, month, spends, k).value;
      && alert.percent == Percent(b, spends[k])
      && alert.threshold in b.thresholds && alert.threshold <= alert.percent
      && (forall t :: t in b.thresholds && t <= alert.percent ==> t <= alert.threshold)
  {
    var before := After(b, month, spends[..k]);
    var crossed := NewCrossed(before, month, Percent(b, spends[k]));
    forall t | t in b.thresholds
      ensures t in crossed <==>
        t > Notified(b, month) && Percent(b, spends[k]) >= t && forall j :: 0 <= j < k ==> Percent(b, spends[j]) < t
    {
      CrossedOnceIff(b, month, spends, k, t);
    }
    if crossed != [] {
      var highest := Max(crossed);
      assert highest in crossed;
      forall t | t in b.thresholds && t <= Percent(b, spends[k]) ensures t <= highest {
        if t > Notified(before, month) {
          assert t in crossed;
        }
      }
    }
    if t :| t in b.thresholds && t > Notified(b, month) && Percent(b, spends[k]) >= t
            && forall j :: 0 <= j < k ==> Percent(b, spends[j]) < t
    {
      assert t in crossed;
    }
  }

  /** The thresholds alerted in a month strictly increase. */
  lemma AlertsIncrease(b: Budget, month: int, spends: seq<real>, j: nat, k: nat)
    requires b.monthlyUsd > 0.0 && j < k < |spends|
    requires AlertAt(b, month, spends, j).Some? && AlertAt(b, month, spends, k).Some?
    ensures AlertAt(b, month, spends, j).value.threshold < AlertAt(b, month, spends, k).value.threshold
  {
    var before := After(b, month, spends[..k]);
    var first := AlertAt(b, month, spends, j).value.threshold;
    LevelGrows(b, month, spends, j + 1, k);
    assert spends[..j + 1][..j] == spends[..j];
    assert Notified(After(b, month, spends[..j + 1]), month) == first;
    assert AlertAt(b, month, spends, k).value.threshold in NewCrossed(before, month, Percent(b, spends[k]));
  }

  lemma {:induction false} LevelGrows(b: Budget, month: int, spends: seq<real>, j: nat, k: nat)
    requires j <= k <= |spends|
    ensures Notified(After(b, month, spends[..j]), month) <= Notified(After(b, month, spends[..k]), month)
  {
    if j < k {
      LevelGrows(b, month, spends, j, k - 1);
      assert spends[..k][..k - 1] == spends[..k - 1];
    }
  }

  lemma AnyNewCrossed(b: Budget, month: int, percent: int)
    ensures NewCrossed(b, month, percent) != [] <==> exists t :: t in b.thresholds && Notified(b, month) < t <= percent
  {
    var crossed := NewCrossed(b, month, percent);
    if t :| t in b.thresholds && Notified(b, month) < t <= percent {
      assert t in crossed;
    }
    if crossed != [] {
      assert crossed[0] in crossed;
    }
  }

  /** A new month starts afresh: what was alerted before does not matter. */
  lemma NewMonthStartsAfresh(b: Budget, month: int, spend: real)
    requires b.monthlyUsd > 0.0 && b.notifiedCycle != Some(month)
    ensures Evaluated(b, month, spend).1.Some? <==> exists t :: t in b.thresholds && 0 < t <= Percent(b, spend)
    ensures Evaluated(b, month, spend).1 == Evaluated(b.(notifiedPercent := 0, notifiedCycle := None), month, spend).1
  {
    AnyNewCrossed(b, month, Percent(b, spend));
    SameCrossed(b, b.(notifiedPercent := 0, notifiedCycle := None), month, Percent(b, spend));
  }

  lemma SameCrossed(b: Budget, c: Budget, month: int, percent: int)
    requires b.thresholds == c.thresholds && Notified(b, month) == Notified(c, month)
    ensures NewCrossed(b, month, percent) == NewCrossed(c, month, percent)
  {
  }

  // The service

  /** All budgets after their evaluation. */
  function BudgetsAfter(budgets: seq<Budget>, month: int, spend: Budget -> real): (r: seq<Budget>)
    ensures |r| == |budgets|
  {
    if budgets == [] then []
    else
      var n := |budgets| - 1;
      BudgetsAfter(budgets[..n], month, spend) + [Evaluated(budgets[n], month, spend(budgets[n])).0]
  }

  /** Each budget is evaluated on its own. */
  lemma {:induction false} EachOnItsOwn(budgets: seq<Budget>, month: int, spend: Budget -> real, i: nat)
    requires i < |budgets|
    ensures BudgetsAfter(budgets, month, spend)[i] == Evaluated(budgets[i], month, spend(budgets[i])).0
  {
    if i < |budgets| - 1 {
      EachOnItsOwn(budgets[..|budgets| - 1], month, spend, i);
    }
  }

  function AlertsOf(budgets: seq<Budget>, month: int, spend: Budget -> real): seq<Alert> {
    if budgets == [] then []
    else
      var n := |budgets| - 1;
      var alert := Evaluated(budgets[n], month, spend(budgets[n])).1;
      AlertsOf(budgets[..n], month, spend) + if alert.Some? then [alert.value] else []
  }

  lemma EvaluatedSnoc(all: seq<Budget>, month: int, spend: Budget -> real, i: nat)
    requires i < |all|
    ensures var (b, alert) := Evaluated(all[i], month, spend(all[i]));
      && BudgetsAfter(all[..i + 1], month, spend) == BudgetsAfter(all[..i], month, spend) + [b]
      && AlertsOf(all[..i + 1], month, spend)
         == AlertsOf(all[..i], month, spend) + if alert.Some? then [alert.value] else []
  {
    assert all[..i + 1][..i] == all[..i];
  }

  lemma ReplaceNext<T>(front: seq<T>, all: seq<T>, i: nat, b: T)
    requires |front| == i < |all|
    ensures (front + all[i..])[i] == all[i] && (front + all[i..])[i := b] == front + [b] + all[i + 1..]
  {
  }

  predicate IsInteger(t: real) {
    t == t.Floor as real
  }

  /** The usable thresholds: integers from 10 to 200. */
  function Usable(thresholds: seq<real>): seq<int> {
    if thresholds == [] then []
    else
      var rest := Usable(thresholds[1..]);
      var t := thresholds[0];
      if IsInteger(t) && 10.0 <= t <= 200.0 then [t.Floor] + rest else rest
  }

  lemma {:induction false} UsableIs(thresholds: seq<real>, t: int)
    ensures t in Usable(thresholds) <==> 10 <= t <= 200 && t as real in thresholds
  {
    if thresholds != [] {
      UsableIs(thresholds[1..], t);
      var first := thresholds[0];
      assert thresholds == [first] + thresholds[1..];
      assert IsInteger(first) && first.Floor == t ==> first == t as real;
    }
  }

  function ByValue(): int -> Key {
    (t: int) => Key(t, 0.0)
  }

  lemma {:induction false} InsertOrders(x: int, s: seq<int>)
    requires forall i, j :: 0 <= i < j < |s| ==> s[i] <= s[j]
    ensures forall i, j :: 0 <= i < j < |s| + 1 ==> Insert(ByValue(), x, s)[i] <= Insert(ByValue(), x, s)[j]
  {
    if s != [] && Before(ByValue()(s[0]), ByValue()(x)) {
      InsertOrders(x, s[1..]);
      var r := Insert(ByValue(), x, s[1..]);
      InsertPermutes(ByValue(), x, s[1..]);
      SameMembers(r, s[1..] + [x]);
      forall j | 0 <= j < |r| ensures s[0] <= r[j] {
        assert r[j] in s[1..] + [x];
      }
    }
  }

  lemma {:induction false} SortOrders(s: seq<int>)
    ensures forall i, j :: 0 <= i < j < |s| ==> SortBy(ByValue(), s)[i] <= SortBy(ByValue(), s)[j]
  {
    if s != [] {
      SortOrders(s[1..]);
      InsertOrders(s[0], SortBy(ByValue(), s[1..]));
    }
  }

  datatype BudgetError = InvalidAmount | NoThreshold

  const MAX_MONTHLY_USD := 10_000_000.0

  class BudgetPlane {
    var budgets: seq<Budget>
    var alerts: seq<Alert>

    constructor ()
      ensures budgets == [] && alerts == []
    {
      budgets, alerts := [], [];
    }

    /** `createBudget`: stores the usable thresholds in ascending order, or refuses. */
    method CreateBudget(monthlyUsd: real, thresholds: Option<seq<real>>) returns (r: Result<Budget, BudgetError>)
      modifies this
      ensures alerts == old(alerts)
      ensures r.Err? ==> budgets == old(budgets)
      ensures r == Err(InvalidAmount) <==> monthlyUsd <= 0.0 || monthlyUsd > MAX_MONTHLY_USD
      ensures var usable := Usable(if thresholds.Some? then thresholds.value else [50.0, 80.0, 100.0]);
        && (r == Err(NoThreshold) <==> 0.0 < monthlyUsd <= MAX_MONTHLY_USD && usable == [])
        && (r.Ok? ==> multiset(r.value.thresholds) == multiset(usable))
      ensures r.Ok? ==>
        && budgets == old(budgets) + [r.value] && r.value.monthlyUsd == monthlyUsd && r.value.notifiedCycle == None
        && forall i, j :: 0 <= i < j < |r.value.thresholds| ==> r.value.thresholds[i] <= r.value.thresholds[j]
    {
      if monthlyUsd <= 0.0 || monthlyUsd > MAX_MONTHLY_USD {
        return Err(InvalidAmount);
      }
      var usable := Usable(if thresholds.Some? then thresholds.value else [50.0, 80.0, 100.0]);
      var sorted := SortBy(ByValue(), usable);
      SortOrders(usable);
      SortPermutes(ByValue(), usable);
      if |sorted| == 0 {
        return Err(NoThreshold);
      }
      var b := Budget(|budgets|, monthlyUsd, sorted, 0, None);
      budgets := budgets + [b];
      return Ok(b);
    }

    method EvaluateBudget(i: nat, month: int, spend: real) returns (alerted: bool)
      requires i < |budgets|
      modifies this
      ensures var (b, alert) := Evaluated(old(budgets)[i], month, spend);
        && budgets == old(budgets)[i := b]
        && alerts == old(alerts) + (if alert.Some? then [alert.value] else [])
        && alerted == alert.Some?
    {
      var budget := budgets[i];
      alerted := false;
      if budget.monthlyUsd <= 0.0 {
        return;
      }
      var percent := Percent(budget, spend);
      var newCrossed := NewCrossed(budget, month, percent);
      if |newCrossed| > 0 {
        var highest := Max(newCrossed);
        alerts := alerts + [Alert(budget.id, percent, highest, SeverityOf(highest))];
        budgets := budgets[i := budget.(notifiedPercent := highest, notifiedCycle := Some(month))];
        alerted := true;
      }
    }

    /** One round of the loop over the budgets `all`; `raised` is what it alerts. */
    method EvaluateNext(i: nat, month: int, spend: Budget -> real, ghost all: seq<Budget>)
      returns (alerted: bool, ghost raised: seq<Alert>)
      requires i < |all| && budgets == BudgetsAfter(all[..i], month, spend) + all[i..]
      modifies this
      ensures budgets == BudgetsAfter(all[..i + 1], month, spend) + all[i + 1..]
      ensures alerts == old(alerts) + raised && |raised| == if alerted then 1 else 0
      ensures AlertsOf(all[..i + 1], month, spend) == AlertsOf(all[..i], month, spend) + raised
    {
      ghost var (b, alert) := Evaluated(all[i], month, spend(all[i]));
      raised := if alert.Some? then [alert.value] else [];
      ReplaceNext(BudgetsAfter(all[..i], month, spend), all, i, b);
      EvaluatedSnoc(all, month, spend, i);
      alerted := EvaluateBudget(i, month, spend(budgets[i]));
    }

    /** The same with the stages at hand; `sent` are the alerts since `before`. */
    method NextStage(i: nat, month: int, spend: Budget -> real, ghost all: seq<Budget>, ghost stages: seq<Stage>,
                     ghost before: seq<Alert>, ghost sent: seq<Alert>)
      returns (alerted: bool, ghost next: seq<Alert>)
      requires AreStages(stages, all, month, spend) && i < |all| == |budgets|
      requires stages[i] == Stage(budgets, sent) && alerts == before + sent
      modifies this
      ensures |budgets| == |all| && stages[i + 1] == Stage(budgets, next) && alerts == before + next
      ensures |next| == |sent| + if alerted then 1 else 0
    {
      assert stages[i] == StageAt(all, month, spend, i);
      ghost var raised;
      alerted, raised := EvaluateNext(i, month, spend, all);
      next := sent + raised;
      assert stages[i + 1] == StageAt(all, month, spend, i + 1);
    }

    /** `evaluateBudgets`. */
    method EvaluateBudgets(month: int, spend: Budget -> real) returns (evaluated: nat, alerted: nat)
      modifies this
      ensures budgets == BudgetsAfter(old(budgets), month, spend)
      ensures alerts == old(alerts) + AlertsOf(old(budgets), month, spend)
      ensures evaluated == |budgets| && alerted == |AlertsOf(old(budgets), month, spend)|
    {
      ghost var all, before, sent: seq<Alert> := budgets, alerts, [];
      ghost var stages := Stages(all, month, spend);
      var i := 0;
      alerted := 0;
      while i < |budgets|
        invariant i <= |all| == |budgets| && stages[i] == Stage(budgets, sent)
        invariant alerts == before + sent && alerted == |sent|
        decreases |all| - i
      {
        var hit;
        hit, sent := NextStage(i, month, spend, all, stages, before, sent);
        if hit {
          alerted := alerted + 1;
        }
        i := i + 1;
      }
      evaluated := |budgets|;
    }
  }

  /** The budgets after the first `n` evaluations of `all`, and the alerts so far. */
  datatype Stage = Stage(budgets: seq<Budget>, alerts: seq<Alert>)

  function StageAt(all: seq<Budget>, month: int, spend: Budget -> real, n: nat): Stage
    requires n <= |all|
  {
    Stage(BudgetsAfter(all[..n], month, spend) + all[n..], AlertsOf(all[..n], month, spend))
  }

  /** `stages` are these, known by their values only. */
  ghost predicate AreStages(stages: seq<Stage>, all: seq<Budget>, month: int, spend: Budget -> real) {
    && |stages| == |all| + 1
    && forall n: nat {:trigger StageAt(all, month, spend, n)} :: n <= |all| ==>
      stages[n] == StageAt(all, month, spend, n)
  }

  ghost function Stages(all: seq<Budget>, month: int, spend: Budget -> real): (stages: seq<Stage>)
    ensures AreStages(stages, all, month, spend)
    ensures stages[0] == Stage(all, [])
    ensures stages[|all|] == Stage(BudgetsAfter(all, month, spend), AlertsOf(all, month, spend))
  {
    assert all[..0] == [] && all[0..] == all && all[..|all|] == all && all[|all|..] == [];
    seq(|all| + 1, n requires 0 <= n <= |all| => StageAt(all, month, spend, n))
  }
}
