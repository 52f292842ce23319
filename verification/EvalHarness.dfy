/**
 * The engine-side eval harness: the executor claims and dispatches case executions, the
 * scorer settles them on terminal run events and completes the eval run. Terminal deliveries
 * interleave with each other and with requests transaction by transaction, in any order and
 * any number of times, over a fixed dataset; a request is handled in one step.
 */
module EvalHarness {
  import opened Wrappers

  /** A dataset case; `input` is its text when it has one. */
  datatype Case = Case(id: string, input: Option<string>)

  /** Why an execution failed: its case has no text, or as worded elsewhere. */
  datatype Reason = NoText | Worded(text: string)

  datatype ExecState = Pending | Passed | Failed

  /** A row of `eval_case_executions`; its position is its id. */
  datatype Exec = Exec(
    caseId: string, attempt: nat, conversationId: Option<string>, runId: Option<string>,
    state: ExecState, score: Option<real>, failureReason: Option<Reason>)

  datatype EvalState = PendingRun | RunningRun | ClosedRun

  datatype CaseResult = CaseResult(caseId: string, attempt: nat, passed: bool, score: real)

  /** How accepting a message for an execution ends. */
  datatype Accept = Accepted(conversationId: string, runId: string) | Refused(reason: string) | Transient

  const EXECUTIONS_PER_TICK := 50

  datatype Pair = Pair(caseId: string, attempt: nat)

  function KeyOf(e: Exec): Pair {
    Pair(e.caseId, e.attempt)
  }

  // The claim

  /** `Math.min(Math.max(1, Number(attempts ?? 1)), 5)`. */
  function Attempts(requested: Option<int>): (n: nat)
    ensures 1 <= n <= 5 && (requested.None? ==> n == 1)
    ensures requested.Some? && 1 <= requested.value <= 5 ==> n == requested.value
    ensures requested.Some? && n != requested.value ==> (n == 1 <==> requested.value < 1)
  {
    var n := if requested.Some? then requested.value else 1;
    if n < 1 then 1 else if n > 5 then 5 else n
  }

  function AttemptsOf(caseId: string, attempts: nat): seq<Pair> {
    if attempts == 0 then [] else AttemptsOf(caseId, attempts - 1) + [Pair(caseId, attempts)]
  }

  function Wanted(cases: seq<Case>, attempts: nat): seq<Pair> {
    if cases == [] then []
    else Wanted(cases[..|cases| - 1], attempts) + AttemptsOf(cases[|cases| - 1].id, attempts)
  }

  predicate HasKey(execs: seq<Exec>, p: Pair) {
    exists i :: 0 <= i < |execs| && KeyOf(execs[i]) == p
  }

  function Fresh(p: Pair): Exec {
    Exec(p.caseId, p.attempt, None, None, Pending, None, None)
  }

  /** `insert ... on conflict do nothing` under the unique (case, attempt) key. */
  function InsertAll(execs: seq<Exec>, wanted: seq<Pair>): seq<Exec> {
    if wanted == [] then execs
    else
      var before := InsertAll(execs, wanted[..|wanted| - 1]);
      var p := wanted[|wanted| - 1];
      if HasKey(before, p) then before else before + [Fresh(p)]
  }

  predicate Undispatched(e: Exec) {
    e.state.Pending? && e.conversationId.None?
  }

  function PendingIds(execs: seq<Exec>): (ids: seq<nat>)
    ensures forall k :: 0 <= k < |ids| ==> ids[k] < |execs| && Undispatched(execs[ids[k]])
    ensures forall j, k :: 0 <= j < k < |ids| ==> ids[j] < ids[k]
    ensures forall i :: 0 <= i < |execs| && Undispatched(execs[i]) ==> i in ids
  {
    if execs == [] then []
    else
      var n := |execs| - 1;
      var ids := PendingIds(execs[..n]);
      if Undispatched(execs[n]) then ids + [n] else ids
  }

  // The dispatch loop

  function InputOf(cases: seq<Case>, caseId: string): Option<string> {
    if cases == [] then None
    else if cases[0].id == caseId then cases[0].input
    else InputOf(cases[1..], caseId)
  }

  function MarkFailed(e: Exec, reason: Reason): Exec {
    e.(state := Failed, failureReason := Some(reason))
  }

  /** One execution of the loop, or None when a transient failure ends it. */
  function DispatchOne(cases: seq<Case>, e: Exec, accept: Accept): Option<Exec> {
    var input := InputOf(cases, e.caseId);
    if input.None? || input.value == "" then Some(MarkFailed(e, NoText))
    else
      match accept
      case Accepted(conversationId, runId) => Some(e.(conversationId := Some(conversationId), runId := Some(runId)))
      case Refused(reason) => Some(MarkFailed(e, Worded(reason)))
      case Transient => None
  }

  function Dispatch(execs: seq<Exec>, cases: seq<Case>, ids: seq<nat>, k: nat, accept: nat -> Accept): (r: seq<Exec>)
    requires forall j :: 0 <= j < |ids| ==> ids[j] < |execs|
    requires k <= |ids|
    ensures |r| == |execs|
    decreases |ids| - k
  {
    if k == |ids| || k >= EXECUTIONS_PER_TICK then execs
    else
      var done := DispatchOne(cases, execs[ids[k]], accept(ids[k]));
      if done.None? then execs else Dispatch(execs[ids[k] := done.value], cases, ids, k + 1, accept)
  }

  // Settling

  /** The pending execution a run belongs to. */
  function OpenFor(execs: seq<Exec>, runId: string): (i: Option<nat>)
    ensures i.Some? ==> i.value < |execs| && execs[i.value].state.Pending? && execs[i.value].runId == Some(runId)
    ensures i.None? ==> forall j :: 0 <= j < |execs| ==> !(execs[j].state.Pending? && execs[j].runId == Some(runId))
  {
    if execs == [] then None
    else
      var n := |execs| - 1;
      var earlier := OpenFor(execs[..n], runId);
      if earlier.Some? then earlier
      else if execs[n].state.Pending? && execs[n].runId == Some(runId) then Some(n)
      else None
  }

  datatype Judgement = Judgement(passed: bool, score: real, failureReason: Option<Reason>)

  // Scoring

  /** A text with letters folded, as `toLowerCase` leaves it. */
  type Fold = string -> string

  predicate OccursAt(haystack: string, needle: string, i: nat) {
    i <= |haystack| && needle <= haystack[i..]
  }

  predicate Includes(haystack: string, needle: string) {
    exists i: nat :: i <= |haystack| && OccursAt(haystack, needle, i)
  }

  function Missing(fold: Fold, needles: seq<string>, haystack: string): (m: seq<string>)
    ensures |m| <= |needles|
    ensures m == [] <==> forall n :: n in needles ==> Includes(haystack, fold(n))
  {
    if needles == [] then []
    else (if Includes(haystack, fold(needles[0])) then [] else [needles[0]]) + Missing(fold, needles[1..], haystack)
  }

  /** `Number(x.toFixed(4))` on exact fractions. */
  function ToFixed4(x: real): real {
    (x * 10000.0 + 0.5).Floor as real / 10000.0
  }

  function Forbidden(fold: Fold, forbidden: seq<string>, haystack: string): bool {
    exists s :: s in forbidden && Includes(haystack, fold(s))
  }

  /** `scoreLexical`, without the wording of its failure reason. */
  function ScoreLexical(fold: Fold, contains: seq<string>, notContains: seq<string>, response: string): (bool, real) {
    var haystack := fold(response);
    if Forbidden(fold, notContains, haystack) then (false, 0.0)
    else if contains == [] then (true, 1.0)
    else
      var missing := Missing(fold, contains, haystack);
      (missing == [], ToFixed4((|contains| - |missing|) as real / |contains| as real))
  }

  /** The positions from `k` on of the needles the response contains. */
  function Hits(fold: Fold, needles: seq<string>, haystack: string, k: nat): set<nat> {
    set i | k <= i < |needles| && Includes(haystack, fold(needles[i]))
  }

  lemma {:induction false} MissingCounts(fold: Fold, needles: seq<string>, haystack: string, k: nat)
    requires k <= |needles|
    ensures |Missing(fold, needles[k..], haystack)| == |needles| - k - |Hits(fold, needles, haystack, k)|
    decreases |needles| - k
  {
    if k < |needles| {
      MissingCounts(fold, needles, haystack, k + 1);
      assert needles[k..][1..] == needles[k + 1..];
      HitsFrom(fold, needles, haystack, k);
    } else {
      assert Hits(fold, needles, haystack, k) == {};
    }
  }

  lemma HitsFrom(fold: Fold, needles: seq<string>, haystack: string, k: nat)
    requires k < |needles|
    ensures |Hits(fold, needles, haystack, k)|
         == |Hits(fold, needles, haystack, k + 1)| + if Includes(haystack, fold(needles[k])) then 1 else 0
  {
    var rest := Hits(fold, needles, haystack, k + 1);
    assert Hits(fold, needles, haystack, k)
        == if Includes(haystack, fold(needles[k])) then rest + {k} else rest;
  }

  /**
   * A response passes exactly when it contains every needle and nothing forbidden. Something forbidden
   * scores 0, no needles score 1, and else the score is the part of the needles the response contains,
   * rounded to four places; a pass scores 1.
   */
  lemma ScoreLexicalIff(fold: Fold, contains: seq<string>, notContains: seq<string>, response: string)
    ensures var r := ScoreLexical(fold, contains, notContains, response);
      var clean := forall f :: f in notContains ==> !Includes(fold(response), fold(f));
      var hits := |Hits(fold, contains, fold(response), 0)|;
      && (r.0 <==> clean && forall n :: n in contains ==> Includes(fold(response), fold(n)))
      && 0.0 <= r.1 <= 1.0
      && (r.0 || (clean && contains == []) ==> r.1 == 1.0)
      && (!clean ==> r.1 == 0.0)
      && (clean && contains != [] ==> -0.00005 < r.1 - hits as real / |contains| as real <= 0.00005)
  {
    if contains != [] {
      var missing := Missing(fold, contains, fold(response));
      MissingCounts(fold, contains, fold(response), 0);
      assert contains[0..] == contains;
      HitFraction(|contains|, |missing|);
    }
  }

  lemma FractionInRange(part: nat, whole: nat)
    requires 0 < whole && part <= whole
    ensures 0.0 <= part as real / whole as real <= 1.0
    ensures part == whole ==> part as real / whole as real == 1.0
  {
    var x, w := part as real / whole as real, whole as real;
    assert x < 0.0 ==> x * w < 0.0;
    assert x > 1.0 ==> x * w > w;
    assert x * w == part as real;
  }

  lemma RoundsTo4(x: real)
    ensures -0.00005 < ToFixed4(x) - x <= 0.00005
    ensures 0.0 <= x <= 1.0 ==> 0.0 <= ToFixed4(x) <= 1.0
    ensures x == 1.0 ==> ToFixed4(x) == 1.0
  {
    var f := (x * 10000.0 + 0.5).Floor;
    assert 0.0 <= x <= 1.0 ==> 0 <= f <= 10000;
  }

  lemma HitFraction(needles: nat, missing: nat)
    requires 0 < needles && missing <= needles
    ensures var x := (needles - missing) as real / needles as real;
      && 0.0 <= ToFixed4(x) <= 1.0
      && (missing == 0 ==> ToFixed4(x) == 1.0)
      && -0.00005 < ToFixed4(x) - x <= 0.00005
  {
    FractionInRange(needles - missing, needles);
    RoundsTo4((needles - missing) as real / needles as real);
  }

  function Settle(e: Exec, v: Judgement): Exec {
    e.(state := if v.passed then Passed else Failed, score := Some(v.score), failureReason := v.failureReason)
  }

  function Result(e: Exec): CaseResult {
    var passed := e.state.Passed?;
    CaseResult(e.caseId, e.attempt, passed, if e.score.Some? then e.score.value else if passed then 1.0 else 0.0)
  }

  function Results(execs: seq<Exec>): (r: seq<CaseResult>)
    ensures |r| == |execs| && forall i :: 0 <= i < |execs| ==> r[i] == Result(execs[i])
  {
    seq(|execs|, i requires 0 <= i < |execs| => Result(execs[i]))
  }

  predicate AnyPending(execs: seq<Exec>) {
    exists i :: 0 <= i < |execs| && execs[i].state.Pending?
  }

  // Handling events

  /**
   * A terminal delivery is three transactions with a crash possible in between: looking up the
   * run's pending execution, settling that execution by its id, and completing the eval if
   * nothing is pending. `ok` says whether the calls of completeRun outside this model go through.
   */
  datatype Event =
    | RunRequested(pinned: bool, versionExists: bool, accept: nat -> Accept)
    | Finding(delivery: nat, runId: string)
    | Settling(delivery: nat, verdict: Judgement)
    | Completing(delivery: nat, ok: bool)
    | Crashing(delivery: nat)

  /**
   * `completions` records the results completeRun stored, `held` the executions deliveries have
   * found and not yet settled, `owing` the deliveries that have settled and not yet gone on.
   */
  datatype State = State(
    execs: seq<Exec>, evalState: EvalState, completions: seq<seq<CaseResult>>, held: map<nat, nat>, owing: set<nat>)

  function Opened(s: EvalState): EvalState {
    if s.ClosedRun? then ClosedRun else RunningRun
  }

  function Claimed(execs: seq<Exec>, cases: seq<Case>, attempts: nat): seq<Exec> {
    InsertAll(execs, Wanted(cases, attempts))
  }

  function ApplyRequested(
    cases: seq<Case>, attempts: nat, s: State, pinned: bool, versionExists: bool, accept: nat -> Accept): State
  {
    if !pinned then s
    else
      var execs := Claimed(s.execs, cases, attempts);
      var claimed := s.(execs := execs, evalState := Opened(s.evalState));
      if !versionExists then claimed
      else claimed.(execs := Dispatch(execs, cases, PendingIds(execs), 0, accept))
  }

  /** A delivery that finds no pending execution ends there. */
  function ApplyFinding(s: State, delivery: nat, runId: string): State {
    var i := OpenFor(s.execs, runId);
    if delivery in s.held || delivery in s.owing || i.None? then s else s.(held := s.held[delivery := i.value])
  }

  /** The update names the execution by id only: it does not ask whether it is still pending. */
  function ApplySettling(s: State, delivery: nat, verdict: Judgement): State {
    if delivery !in s.held || s.held[delivery] >= |s.execs| then s
    else
      var i := s.held[delivery];
      s.(execs := s.execs[i := Settle(s.execs[i], verdict)], held := s.held - {delivery}, owing := s.owing + {delivery})
  }

  /** The last transaction; completeRun refuses a run that is no longer open. */
  function ApplyCompleting(s: State, delivery: nat, ok: bool): State {
    if delivery !in s.owing then s
    else
      var t := s.(owing := s.owing - {delivery});
      if AnyPending(s.execs) || s.execs == [] || !ok || s.evalState.ClosedRun? then t
      else t.(completions := s.completions + [Results(s.execs)], evalState := ClosedRun)
  }

  function Apply(cases: seq<Case>, attempts: nat, s: State, ev: Event): State {
    match ev
    case RunRequested(pinned, versionExists, accept) =>
      ApplyRequested(cases, attempts, s, pinned, versionExists, accept)
    case Finding(delivery, runId) => ApplyFinding(s, delivery, runId)
    case Settling(delivery, verdict) => ApplySettling(s, delivery, verdict)
    case Completing(delivery, ok) => ApplyCompleting(s, delivery, ok)
    case Crashing(delivery) => s.(held := s.held - {delivery}, owing := s.owing - {delivery})
  }

  /** The rows and effects of one eval run. */
  class Harness {
    const cases: seq<Case>
    const attempts: nat
    var execs: seq<Exec>
    var evalState: EvalState
    var completions: seq<seq<CaseResult>>
    ghost var held: map<nat, nat>
    ghost var owing: set<nat>

    ghost function Contents(): State
      reads this
    {
      State(execs, evalState, completions, held, owing)
    }

    constructor (cases: seq<Case>, requested: Option<int>)
      ensures Contents() == Start() && this.cases == cases && attempts == Attempts(requested)
    {
      this.cases := cases;
      attempts := Attempts(requested);
      execs, evalState, completions, held, owing := [], PendingRun, [], map[], {};
    }

    /** The values of the claim: every case crossed with every attempt. */
    method ClaimValues() returns (values: seq<Pair>)
      ensures values == Wanted(cases, attempts)
    {
      values := [];
      for c := 0 to |cases|
        invariant values == Wanted(cases[..c], attempts)
      {
        ghost var before := values;
        var attempt := 1;
        while attempt <= attempts
          invariant 1 <= attempt <= attempts + 1
          invariant values == before + AttemptsOf(cases[c].id, attempt - 1)
        {
          values := values + [Pair(cases[c].id, attempt)];
          attempt := attempt + 1;
        }
        assert cases[..c + 1][..c] == cases[..c];
      }
      assert cases[..|cases|] == cases;
    }

    /** The dispatch loop, up to the tick limit or the first transient failure. */
    method DispatchPending(pending: seq<nat>, accept: nat -> Accept)
      requires forall k :: 0 <= k < |pending| ==> pending[k] < |execs|
      modifies this`execs
      ensures execs == Dispatch(old(execs), cases, pending, 0, accept)
    {
      var dispatched := 0;
      ghost var outcome := Dispatch(execs, cases, pending, 0, accept);
      while dispatched < |pending| && dispatched < EXECUTIONS_PER_TICK
        invariant dispatched <= |pending| && |execs| == |old(execs)|
        invariant Dispatch(execs, cases, pending, dispatched, accept) == outcome
      {
        var id := pending[dispatched];
        var done := DispatchOne(cases, execs[id], accept(id));
        if done.None? {
          break;
        }
        execs := execs[id := done.value];
        dispatched := dispatched + 1;
      }
    }

    /** `EvalExecutorConsumer.handle`. */
    method HandleRequested(pinned: bool, versionExists: bool, accept: nat -> Accept)
      modifies this
      ensures Contents() == Apply(cases, attempts, old(Contents()), RunRequested(pinned, versionExists, accept))
    {
      if !pinned {
        return;
      }
      evalState := if evalState.ClosedRun? then ClosedRun else RunningRun;
      var values := ClaimValues();
      execs := InsertAll(execs, values);
      var pending := PendingIds(execs);
      if !versionExists {
        return;
      }
      DispatchPending(pending, accept);
    }

    /** The lookup of the run's pending execution. */
    method FindExecution(ghost delivery: nat, runId: string) returns (open: Option<nat>)
      requires delivery !in held && delivery !in owing
      modifies this
      ensures Contents() == Apply(cases, attempts, old(Contents()), Finding(delivery, runId))
      ensures open == OpenFor(old(execs), runId)
      ensures open.Some? <==> delivery in held
    {
      open := OpenFor(execs, runId);
      if open.Some? {
        held := held[delivery := open.value];
      }
    }

    /** `settle`. */
    method SettleExecution(ghost delivery: nat, execution: nat, verdict: Judgement)
      requires delivery in held && held[delivery] == execution < |execs|
      modifies this
      ensures Contents() == Apply(cases, attempts, old(Contents()), Settling(delivery, verdict))
    {
      execs := execs[execution := Settle(execs[execution], verdict)];
      held := held - {delivery};
      owing := owing + {delivery};
    }

    /** `maybeCompleteEvalRun`; `ok` says whether completeRun, once called, goes through. */
    method MaybeCompleteEvalRun(ghost delivery: nat, ok: bool)
      requires delivery in owing
      modifies this
      ensures Contents() == Apply(cases, attempts, old(Contents()), Completing(delivery, ok))
    {
      owing := owing - {delivery};
      if AnyPending(execs) || execs == [] {
        return;
      }
      if !ok || evalState.ClosedRun? {
        return;
      }
      completions := completions + [Results(execs)];
      evalState := ClosedRun;
    }

    /** `EvalScoringConsumer.handle`, undisturbed, given the verdict on the run. */
    method HandleTerminal(ghost delivery: nat, runId: string, verdict: Judgement, ok: bool)
      requires delivery !in held && delivery !in owing
      modifies this
      ensures Contents() == Deliver(cases, attempts, old(Contents()), delivery, runId, verdict, ok)
    {
      var open := FindExecution(delivery, runId);
      if open.None? {
        return;
      }
      SettleExecution(delivery, open.value, verdict);
      MaybeCompleteEvalRun(delivery, ok);
    }
  }

  /** The transactions of a delivery with nothing in between. */
  function Deliver(
    cases: seq<Case>, attempts: nat, s: State, delivery: nat, runId: string, verdict: Judgement, ok: bool): State
  {
    var found := Apply(cases, attempts, s, Finding(delivery, runId));
    var settled := Apply(cases, attempts, found, Settling(delivery, verdict));
    Apply(cases, attempts, settled, Completing(delivery, ok))
  }

  function Start(): State {
    State([], PendingRun, [], map[], {})
  }

  function Run(cases: seq<Case>, attempts: nat, events: seq<Event>): State {
    if events == [] then Start()
    else Apply(cases, attempts, Run(cases, attempts, events[..|events| - 1]), events[|events| - 1])
  }

  // What claiming keeps

  ghost predicate UniqueKeys(execs: seq<Exec>) {
    forall i, j :: 0 <= i < j < |execs| ==> KeyOf(execs[i]) != KeyOf(execs[j])
  }

  /** The executions are exactly the pairs of `wanted`, each once. */
  ghost predicate Covers(execs: seq<Exec>, wanted: seq<Pair>) {
    && UniqueKeys(execs)
    && (forall i :: 0 <= i < |execs| ==> KeyOf(execs[i]) in wanted)
    && forall p :: p in wanted ==> HasKey(execs, p)
  }

  /** `after` keeps the rows of `execs` and adds fresh ones for the missing keys of `wanted`. */
  ghost predicate Fills(execs: seq<Exec>, wanted: seq<Pair>, after: seq<Exec>) {
    && UniqueKeys(after)
    && execs <= after
    && (forall p :: HasKey(after, p) <==> HasKey(execs, p) || p in wanted)
    && forall i :: |execs| <= i < |after| ==> Undispatched(after[i])
  }

  lemma {:induction false} InsertAllFills(execs: seq<Exec>, wanted: seq<Pair>)
    requires UniqueKeys(execs)
    ensures Fills(execs, wanted, InsertAll(execs, wanted))
  {
    if wanted != [] {
      var front, p := wanted[..|wanted| - 1], wanted[|wanted| - 1];
      InsertAllFills(execs, front);
      assert wanted == front + [p];
      InsertOneFills(execs, front, p, InsertAll(execs, front));
    } else {
      NothingFills(execs);
    }
  }

  lemma NothingFills(execs: seq<Exec>)
    requires UniqueKeys(execs)
    ensures Fills(execs, [], execs)
  {
  }

  lemma InsertOneFills(execs: seq<Exec>, wanted: seq<Pair>, p: Pair, before: seq<Exec>)
    requires Fills(execs, wanted, before)
    ensures Fills(execs, wanted + [p], if HasKey(before, p) then before else before + [Fresh(p)])
  {
    if !HasKey(before, p) {
      AppendedKeys(before, Fresh(p));
    }
  }

  lemma AppendedKeys(execs: seq<Exec>, e: Exec)
    ensures forall p :: HasKey(execs + [e], p) <==> HasKey(execs, p) || p == KeyOf(e)
    ensures UniqueKeys(execs) && !HasKey(execs, KeyOf(e)) ==> UniqueKeys(execs + [e])
  {
    var after := execs + [e];
    forall p ensures HasKey(after, p) <==> HasKey(execs, p) || p == KeyOf(e) {
      if HasKey(execs, p) {
        var i :| 0 <= i < |execs| && KeyOf(execs[i]) == p;
        assert KeyOf(after[i]) == p;
      }
      assert KeyOf(after[|execs|]) == KeyOf(e);
    }
  }

  /** A redelivered claim adds nothing. */
  lemma {:induction false} InsertAllAgain(execs: seq<Exec>, wanted: seq<Pair>)
    requires forall p :: p in wanted ==> HasKey(execs, p)
    ensures InsertAll(execs, wanted) == execs
  {
    if wanted != [] {
      InsertAllAgain(execs, wanted[..|wanted| - 1]);
    }
  }

  lemma {:induction false} WantedIs(cases: seq<Case>, attempts: nat, p: Pair)
    ensures p in Wanted(cases, attempts) <==> 1 <= p.attempt <= attempts && exists c :: c in cases && c.id == p.caseId
  {
    if cases != [] {
      var n := |cases| - 1;
      WantedIs(cases[..n], attempts, p);
      AttemptsOfIs(cases[n].id, attempts, p);
      assert cases == cases[..n] + [cases[n]];
    }
  }

  lemma {:induction false} AttemptsOfIs(caseId: string, attempts: nat, p: Pair)
    ensures p in AttemptsOf(caseId, attempts) <==> 1 <= p.attempt <= attempts && p.caseId == caseId
  {
    if attempts > 0 {
      AttemptsOfIs(caseId, attempts - 1, p);
    }
  }

  // What dispatching keeps

  /** Settled rows are left alone; other rows keep their key. */
  ghost predicate Evolves(before: seq<Exec>, after: seq<Exec>) {
    && |before| <= |after|
    && forall i :: 0 <= i < |before| ==>
         KeyOf(after[i]) == KeyOf(before[i]) && (before[i].state.Pending? || after[i] == before[i])
  }

  lemma {:induction false} DispatchEvolves(execs: seq<Exec>, cases: seq<Case>, ids: seq<nat>, k: nat,
      accept: nat -> Accept)
    requires forall j :: 0 <= j < |ids| ==> ids[j] < |execs|
    requires forall j, l :: 0 <= j < l < |ids| ==> ids[j] < ids[l]
    requires forall j :: k <= j < |ids| ==> execs[ids[j]].state.Pending?
    requires k <= |ids|
    ensures Evolves(execs, Dispatch(execs, cases, ids, k, accept))
    decreases |ids| - k
  {
    if k < |ids| && k < EXECUTIONS_PER_TICK {
      var done := DispatchOne(cases, execs[ids[k]], accept(ids[k]));
      if done.Some? {
        var next := execs[ids[k] := done.value];
        forall j | k + 1 <= j < |ids| ensures next[ids[j]].state.Pending? {
          assert ids[k] < ids[j];
        }
        DispatchEvolves(next, cases, ids, k + 1, accept);
      }
    }
  }

  /** Rows keep their keys, and settled ones stay settled. */
  ghost predicate Advances(before: seq<Exec>, after: seq<Exec>) {
    && |before| <= |after|
    && forall i :: 0 <= i < |before| ==>
         KeyOf(after[i]) == KeyOf(before[i]) && (after[i].state.Pending? ==> before[i].state.Pending?)
  }

  lemma {:induction false} DispatchAdvances(execs: seq<Exec>, cases: seq<Case>, ids: seq<nat>, k: nat,
      accept: nat -> Accept)
    requires forall j :: 0 <= j < |ids| ==> ids[j] < |execs|
    requires k <= |ids|
    ensures Advances(execs, Dispatch(execs, cases, ids, k, accept))
    decreases |ids| - k
  {
    if k < |ids| && k < EXECUTIONS_PER_TICK {
      var done := DispatchOne(cases, execs[ids[k]], accept(ids[k]));
      if done.Some? {
        DispatchAdvances(execs[ids[k] := done.value], cases, ids, k + 1, accept);
      }
    }
  }

  /** The case of the execution has a text that is not empty. */
  predicate HasText(cases: seq<Case>, e: Exec) {
    exists i :: 0 <= i < |cases| && cases[i].id == e.caseId && cases[i].input.Some? && cases[i].input.value != ""
  }

  ghost predicate UniqueCases(cases: seq<Case>) {
    forall i, j :: 0 <= i < j < |cases| ==> cases[i].id != cases[j].id
  }

  lemma {:induction false} InputOfIs(cases: seq<Case>, e: Exec)
    requires UniqueCases(cases)
    ensures var input := InputOf(cases, e.caseId); (input.Some? && input.value != "") <==> HasText(cases, e)
  {
    if cases != [] {
      InputOfIs(cases[1..], e);
      if HasText(cases[1..], e) {
        var i :| 0 <= i < |cases[1..]| && cases[1..][i].id == e.caseId && cases[1..][i].input.Some?
          && cases[1..][i].input.value != "";
        assert cases[i + 1] == cases[1..][i];
      }
      if HasText(cases, e) && cases[0].id != e.caseId {
        var i :| 0 <= i < |cases| && cases[i].id == e.caseId && cases[i].input.Some? && cases[i].input.value != "";
        assert cases[1..][i - 1] == cases[i];
      }
    } else {
      assert InputOf(cases, e.caseId) == None;
    }
  }

  /** Without text or refused for good, it has failed for that reason; accepted, it has its conversation and run. */
  predicate HandledAs(cases: seq<Case>, e: Exec, accept: Accept, after: Exec) {
    if !HasText(cases, e) then after == e.(state := Failed, failureReason := Some(NoText))
    else
      match accept
      case Accepted(conversation, run) => after == e.(conversationId := Some(conversation), runId := Some(run))
      case Refused(reason) => after == e.(state := Failed, failureReason := Some(Worded(reason)))
      case Transient => false
  }

  /** The loop has handled the executions of the list from k up to `stop`, and no other one. */
  ghost predicate HandledUpTo(
    execs: seq<Exec>, cases: seq<Case>, ids: seq<nat>, k: nat, stop: nat, accept: nat -> Accept, after: seq<Exec>)
    requires k <= stop <= |ids| && |after| == |execs| && forall j :: 0 <= j < |ids| ==> ids[j] < |execs|
  {
    && (forall j :: k <= j < stop ==> HandledAs(cases, execs[ids[j]], accept(ids[j]), after[ids[j]]))
    && (forall i :: 0 <= i < |execs| && i !in ids[k..stop] ==> after[i] == execs[i])
  }

  /** It stops at the end of the list, at the tick limit, or at the first case with a text that fails transiently. */
  ghost predicate StopsAt(execs: seq<Exec>, cases: seq<Case>, ids: seq<nat>, k: nat, stop: nat, accept: nat -> Accept)
    requires k <= stop <= |ids| && forall j :: 0 <= j < |ids| ==> ids[j] < |execs|
  {
    && (stop <= EXECUTIONS_PER_TICK || stop == k)
    && (stop < |ids| && stop < EXECUTIONS_PER_TICK ==>
          HasText(cases, execs[ids[stop]]) && accept(ids[stop]) == Transient)
  }

  lemma {:induction false} DispatchHandles(
    execs: seq<Exec>, cases: seq<Case>, ids: seq<nat>, k: nat, accept: nat -> Accept) returns (stop: nat)
    requires UniqueCases(cases)
    requires forall j :: 0 <= j < |ids| ==> ids[j] < |execs|
    requires forall j, l :: 0 <= j < l < |ids| ==> ids[j] < ids[l]
    requires k <= |ids|
    ensures k <= stop <= |ids|
    ensures HandledUpTo(execs, cases, ids, k, stop, accept, Dispatch(execs, cases, ids, k, accept))
    ensures StopsAt(execs, cases, ids, k, stop, accept)
    decreases |ids| - k
  {
    stop := k;
    if k < |ids| && k < EXECUTIONS_PER_TICK {
      InputOfIs(cases, execs[ids[k]]);
      var done := DispatchOne(cases, execs[ids[k]], accept(ids[k]));
      if done.Some? {
        var next := execs[ids[k] := done.value];
        stop := DispatchHandles(next, cases, ids, k + 1, accept);
        HandledOne(execs, cases, ids, k, stop, accept, done.value, Dispatch(next, cases, ids, k + 1, accept));
      }
    }
  }

  lemma HandledOne(
    execs: seq<Exec>, cases: seq<Case>, ids: seq<nat>, k: nat, stop: nat, accept: nat -> Accept, done: Exec,
    after: seq<Exec>)
    requires forall j :: 0 <= j < |ids| ==> ids[j] < |execs|
    requires forall j, l :: 0 <= j < l < |ids| ==> ids[j] < ids[l]
    requires k < stop <= |ids| && |after| == |execs| && HandledAs(cases, execs[ids[k]], accept(ids[k]), done)
    requires HandledUpTo(execs[ids[k] := done], cases, ids, k + 1, stop, accept, after)
    ensures HandledUpTo(execs, cases, ids, k, stop, accept, after)
  {
    assert ids[k] !in ids[k + 1..stop];
    assert ids[k..stop] == [ids[k]] + ids[k + 1..stop];
  }

  /**
   * What a request does beyond the claim, which it makes exactly when it names a snapshot: if the version
   * exists, of the undispatched executions, as listed and at most 50, each one has failed for its reason
   * or gets its conversation and run, up to the first transient failure; all others are left alone.
   */
  lemma RequestDispatches(
    cases: seq<Case>, attempts: nat, s: State, pinned: bool, versionExists: bool, accept: nat -> Accept)
    returns (stop: nat)
    requires UniqueCases(cases)
    ensures var claimed := Claimed(s.execs, cases, attempts);
      var t := Apply(cases, attempts, s, RunRequested(pinned, versionExists, accept));
      && (!pinned ==> t == s)
      && t.(execs := s.execs, evalState := s.evalState) == s
      && (s.evalState.ClosedRun? <==> t.evalState.ClosedRun?)
      && stop <= |PendingIds(claimed)| && (!versionExists ==> stop == 0)
      && (pinned ==>
            |t.execs| == |claimed| && HandledUpTo(claimed, cases, PendingIds(claimed), 0, stop, accept, t.execs))
      && (versionExists ==> StopsAt(claimed, cases, PendingIds(claimed), 0, stop, accept))
  {
    var claimed := Claimed(s.execs, cases, attempts);
    stop := 0;
    if versionExists {
      stop := DispatchHandles(claimed, cases, PendingIds(claimed), 0, accept);
    }
  }

  /** A request leaves settled executions alone. */
  lemma RequestEvolves(cases: seq<Case>, attempts: nat, s: State, ev: Event)
    requires UniqueKeys(s.execs) && ev.RunRequested?
    ensures Evolves(s.execs, Apply(cases, attempts, s, ev).execs)
  {
    if ev.pinned {
      InsertAllFills(s.execs, Wanted(cases, attempts));
      var claimed := Claimed(s.execs, cases, attempts);
      assert Evolves(s.execs, claimed) by {
        assert s.execs <= claimed;
      }
      DispatchEvolves(claimed, cases, PendingIds(claimed), 0, ev.accept);
    }
  }

  lemma StepAdvances(cases: seq<Case>, attempts: nat, s: State, ev: Event)
    requires UniqueKeys(s.execs)
    ensures Advances(s.execs, Apply(cases, attempts, s, ev).execs)
  {
    if ev.RunRequested? {
      RequestEvolves(cases, attempts, s, ev);
    }
  }

  // Runs

  ghost predicate ClaimHappened(events: seq<Event>) {
    exists n :: 0 <= n < |events| && events[n].RunRequested? && events[n].pinned
  }

  lemma ClaimHappenedSnoc(events: seq<Event>)
    requires events != []
    ensures var last := events[|events| - 1];
      ClaimHappened(events) <==> ClaimHappened(events[..|events| - 1]) || (last.RunRequested? && last.pinned)
  {
    var front, n := events[..|events| - 1], |events| - 1;
    if ClaimHappened(front) {
      var m :| 0 <= m < n && front[m].RunRequested? && front[m].pinned;
      assert events[m].pinned;
    }
    if ClaimHappened(events) {
      var m :| 0 <= m < |events| && events[m].RunRequested? && events[m].pinned;
      assert m < n ==> front[m].pinned;
    }
  }

  /** Nothing before the first claim, exactly the wanted pairs after it. */
  ghost predicate Claims(cases: seq<Case>, attempts: nat, execs: seq<Exec>, claimed: bool) {
    if claimed then Covers(execs, Wanted(cases, attempts)) else execs == []
  }

  /** The eval is closed by its one completion. */
  ghost predicate Closes(s: State) {
    && |s.completions| <= 1
    && (s.evalState.ClosedRun? <==> s.completions != [])
    && (s.completions != [] ==> s.execs != [] && !AnyPending(s.execs))
  }

  ghost predicate HoldsRows(s: State) {
    forall d :: d in s.held ==> s.held[d] < |s.execs|
  }

  ghost predicate Consistent(cases: seq<Case>, attempts: nat, s: State, claimed: bool) {
    Claims(cases, attempts, s.execs, claimed) && Closes(s) && HoldsRows(s)
  }

  lemma ClaimedCovers(cases: seq<Case>, attempts: nat, execs: seq<Exec>)
    requires execs == [] || Covers(execs, Wanted(cases, attempts))
    ensures Covers(Claimed(execs, cases, attempts), Wanted(cases, attempts))
    ensures execs != [] ==> Claimed(execs, cases, attempts) == execs
  {
    var wanted := Wanted(cases, attempts);
    InsertAllFills(execs, wanted);
    if execs != [] {
      InsertAllAgain(execs, wanted);
    } else {
      var after := Claimed(execs, cases, attempts);
      forall i | 0 <= i < |after| ensures KeyOf(after[i]) in wanted {
        assert HasKey(after, KeyOf(after[i]));
      }
    }
  }

  lemma AdvancesCovers(before: seq<Exec>, after: seq<Exec>, wanted: seq<Pair>)
    requires Covers(before, wanted) && Advances(before, after) && |before| == |after|
    ensures Covers(after, wanted)
  {
    forall p | p in wanted ensures HasKey(after, p) {
      assert HasKey(before, p);
      var i :| 0 <= i < |before| && KeyOf(before[i]) == p;
      assert KeyOf(after[i]) == p;
    }
  }

  lemma RequestKeepsClaims(cases: seq<Case>, attempts: nat, s: State, ev: Event, claimed: bool)
    requires Claims(cases, attempts, s.execs, claimed) && ev.RunRequested? && ev.pinned
    ensures Claims(cases, attempts, Apply(cases, attempts, s, ev).execs, true)
  {
    var execs := Claimed(s.execs, cases, attempts);
    ClaimedCovers(cases, attempts, s.execs);
    if ev.versionExists {
      DispatchAdvances(execs, cases, PendingIds(execs), 0, ev.accept);
      AdvancesCovers(execs, Dispatch(execs, cases, PendingIds(execs), 0, ev.accept), Wanted(cases, attempts));
    }
  }

  /** With executions there and none pending, another request changes none of them. */
  lemma RequestLeavesSettled(cases: seq<Case>, attempts: nat, s: State, ev: Event, claimed: bool)
    requires Claims(cases, attempts, s.execs, claimed) && s.execs != [] && !AnyPending(s.execs) && ev.RunRequested?
    ensures Apply(cases, attempts, s, ev).execs == s.execs
  {
    if ev.pinned {
      ClaimedCovers(cases, attempts, s.execs);
      UndispatchedIsPending(s.execs);
    }
  }

  lemma UndispatchedIsPending(execs: seq<Exec>)
    ensures PendingIds(execs) != [] ==> AnyPending(execs)
  {
    if PendingIds(execs) != [] {
      assert Undispatched(execs[PendingIds(execs)[0]]);
    }
  }

  lemma SettlingAdvances(s: State, delivery: nat, verdict: Judgement)
    ensures var t := ApplySettling(s, delivery, verdict); |t.execs| == |s.execs| && Advances(s.execs, t.execs)
  {
  }

  lemma StepKeepsClaims(cases: seq<Case>, attempts: nat, s: State, ev: Event, claimed: bool)
    requires Claims(cases, attempts, s.execs, claimed)
    ensures Claims(cases, attempts, Apply(cases, attempts, s, ev).execs, claimed || (ev.RunRequested? && ev.pinned))
  {
    if ev.RunRequested? {
      if ev.pinned {
        RequestKeepsClaims(cases, attempts, s, ev, claimed);
      }
    } else if ev.Settling? && claimed {
      SettlingAdvances(s, ev.delivery, ev.verdict);
      AdvancesCovers(s.execs, ApplySettling(s, ev.delivery, ev.verdict).execs, Wanted(cases, attempts));
    }
  }

  /** Once nothing is pending it stays so, no delivery finds an execution any more, and only a settle changes one. */
  lemma StepLeavesSettled(cases: seq<Case>, attempts: nat, s: State, ev: Event, claimed: bool)
    requires Claims(cases, attempts, s.execs, claimed) && s.execs != [] && !AnyPending(s.execs)
    ensures var t := Apply(cases, attempts, s, ev);
      && |t.execs| == |s.execs| && !AnyPending(t.execs)
      && t.held.Keys <= s.held.Keys && t.owing <= s.owing + s.held.Keys
      && (t.execs == s.execs || (ev.Settling? && ev.delivery in s.held))
      && (t.completions == s.completions || (ev.Completing? && ev.ok && ev.delivery in s.owing))
  {
    if ev.RunRequested? {
      RequestLeavesSettled(cases, attempts, s, ev, claimed);
    } else if ev.Settling? {
      SettlingAdvances(s, ev.delivery, ev.verdict);
    }
  }

  lemma StepKeepsCloses(cases: seq<Case>, attempts: nat, s: State, ev: Event, claimed: bool)
    requires Consistent(cases, attempts, s, claimed)
    ensures Closes(Apply(cases, attempts, s, ev))
  {
    if s.completions != [] {
      StepLeavesSettled(cases, attempts, s, ev, claimed);
    }
  }

  lemma StepHoldsRows(cases: seq<Case>, attempts: nat, s: State, ev: Event, claimed: bool)
    requires Consistent(cases, attempts, s, claimed)
    ensures HoldsRows(Apply(cases, attempts, s, ev))
  {
    StepAdvances(cases, attempts, s, ev);
  }

  lemma {:induction false} RunIsConsistent(cases: seq<Case>, attempts: nat, events: seq<Event>)
    ensures Consistent(cases, attempts, Run(cases, attempts, events), ClaimHappened(events))
  {
    if events != [] {
      var n := |events| - 1;
      var s, claimed := Run(cases, attempts, events[..n]), ClaimHappened(events[..n]);
      RunIsConsistent(cases, attempts, events[..n]);
      ClaimHappenedSnoc(events);
      StepKeepsClaims(cases, attempts, s, events[n], claimed);
      StepKeepsCloses(cases, attempts, s, events[n], claimed);
      StepHoldsRows(cases, attempts, s, events[n], claimed);
    }
  }

  /** The results on file are those of some moment at which nothing was pending. */
  ghost predicate FiledOnce(cases: seq<Case>, attempts: nat, events: seq<Event>, results: seq<CaseResult>) {
    exists n :: 0 <= n < |events| && FiledAt(cases, attempts, events, n, results)
  }

  ghost predicate FiledAt(cases: seq<Case>, attempts: nat, events: seq<Event>, n: nat, results: seq<CaseResult>)
    requires n < |events|
  {
    var s := Run(cases, attempts, events[..n]);
    events[n].Completing? && s.execs != [] && !AnyPending(s.execs) && results == Results(s.execs)
  }

  lemma {:induction false} CompletionIsFiled(cases: seq<Case>, attempts: nat, events: seq<Event>)
    requires Run(cases, attempts, events).completions != []
    ensures FiledOnce(cases, attempts, events, Run(cases, attempts, events).completions[0])
  {
    if events != [] {
      var last := |events| - 1;
      var s, results := Run(cases, attempts, events[..last]), Run(cases, attempts, events).completions[0];
      RunIsConsistent(cases, attempts, events[..last]);
      RunIsConsistent(cases, attempts, events);
      if s.completions != [] {
        CompletionIsFiled(cases, attempts, events[..last]);
        var n :| 0 <= n < last && FiledAt(cases, attempts, events[..last], n, results);
        assert events[..last][..n] == events[..n];
        assert FiledAt(cases, attempts, events, n, results);
      } else {
        assert FiledAt(cases, attempts, events, last, results);
      }
    }
  }

  /**
   * Over any interleaving of deliveries: once a claim committed the executions are exactly
   * cases x 1..attempts, each once; the eval is completed at most once, only with nothing
   * pending, and with the result every (case, attempt) had then.
   */
  lemma HarnessSafety(cases: seq<Case>, attempts: nat, events: seq<Event>)
    ensures var s := Run(cases, attempts, events);
      && UniqueKeys(s.execs)
      && (ClaimHappened(events) ==> forall p: Pair ::
            HasKey(s.execs, p) <==> 1 <= p.attempt <= attempts && exists c :: c in cases && c.id == p.caseId)
      && |s.completions| <= 1
      && (s.completions != [] ==> !AnyPending(s.execs) && FiledOnce(cases, attempts, events, s.completions[0]))
  {
    RunIsConsistent(cases, attempts, events);
    var s := Run(cases, attempts, events);
    if s.completions != [] {
      CompletionIsFiled(cases, attempts, events);
    }
    if ClaimHappened(events) {
      forall p: Pair ensures HasKey(s.execs, p) <==> p in Wanted(cases, attempts) {
      }
      forall p: Pair
        ensures HasKey(s.execs, p) <==> 1 <= p.attempt <= attempts && exists c :: c in cases && c.id == p.caseId
      {
        WantedIs(cases, attempts, p);
      }
    }
  }

  // When verdicts are final

  ghost predicate Settled(s: State, i: nat) {
    i < |s.execs| && !s.execs[i].state.Pending?
  }

  /** A settled execution that no delivery holds is not changed by a step, nor found again. */
  lemma StepKeepsVerdict(cases: seq<Case>, attempts: nat, s: State, ev: Event, i: nat)
    requires UniqueKeys(s.execs) && Settled(s, i) && i !in s.held.Values
    ensures var t := Apply(cases, attempts, s, ev); Settled(t, i) && t.execs[i] == s.execs[i] && i !in t.held.Values
  {
    var t := Apply(cases, attempts, s, ev);
    if ev.RunRequested? {
      RequestEvolves(cases, attempts, s, ev);
    } else if ev.Settling? && ev.delivery in s.held {
      assert s.held[ev.delivery] in s.held.Values;
    }
    assert forall d :: d in t.held ==> (d in s.held && t.held[d] == s.held[d]) || s.execs[t.held[d]].state.Pending?;
  }

  lemma {:induction false} VerdictStays(cases: seq<Case>, attempts: nat, events: seq<Event>, n: nat, i: nat)
    requires n <= |events| && Settled(Run(cases, attempts, events[..n]), i)
    requires i !in Run(cases, attempts, events[..n]).held.Values
    ensures Settled(Run(cases, attempts, events), i)
    ensures Run(cases, attempts, events).execs[i] == Run(cases, attempts, events[..n]).execs[i]
    decreases |events| - n
  {
    if n == |events| {
      assert events[..n] == events;
    } else {
      RunIsConsistent(cases, attempts, events[..n]);
      StepKeepsVerdict(cases, attempts, Run(cases, attempts, events[..n]), events[n], i);
      assert events[..n + 1][..n] == events[..n];
      VerdictStays(cases, attempts, events, n + 1, i);
    }
  }

  /** A verdict that differs from what an execution says. */
  function Contrary(e: Exec): Judgement {
    Judgement(!e.state.Passed?, 0.0, None)
  }

  /** A settled verdict is the same under every continuation exactly when no delivery holds its execution. */
  lemma VerdictsAreFinalIff(cases: seq<Case>, attempts: nat, events: seq<Event>, i: nat)
    requires Settled(Run(cases, attempts, events), i)
    ensures var s := Run(cases, attempts, events);
      (forall more: seq<Event> ::
        Settled(Run(cases, attempts, events + more), i) && Run(cases, attempts, events + more).execs[i] == s.execs[i])
      <==> i !in s.held.Values
  {
    var s := Run(cases, attempts, events);
    RunIsConsistent(cases, attempts, events);
    if i in s.held.Values {
      var d :| d in s.held && s.held[d] == i;
      var more := [Settling(d, Contrary(s.execs[i]))];
      assert (events + more)[..|events|] == events;
      assert Run(cases, attempts, events + more).execs[i].state != s.execs[i].state;
    } else {
      forall more: seq<Event>
        ensures Settled(Run(cases, attempts, events + more), i)
        ensures Run(cases, attempts, events + more).execs[i] == s.execs[i]
      {
        assert (events + more)[..|events|] == events;
        VerdictStays(cases, attempts, events + more, |events|, i);
      }
    }
  }

  // When no execution is held twice

  /**
   * The delivery finds no execution that another one holds, as when each run ends in one event
   * and that event is handled by one worker at a time.
   */
  ghost predicate FindsUnheld(s: State, ev: Event) {
    ev.Finding? && OpenFor(s.execs, ev.runId).Some? ==> OpenFor(s.execs, ev.runId).value !in s.held.Values
  }

  ghost predicate HeldOnce(cases: seq<Case>, attempts: nat, events: seq<Event>) {
    forall n :: 0 <= n < |events| ==> FindsUnheld(Run(cases, attempts, events[..n]), events[n])
  }

  /** What is held is pending, dispatched, and held by one delivery. */
  ghost predicate HoldsPending(s: State) {
    && (forall d :: d in s.held ==> HoldsOne(s, d))
    && forall d, e :: d in s.held && e in s.held && s.held[d] == s.held[e] ==> d == e
  }

  ghost predicate HoldsOne(s: State, d: nat)
    requires d in s.held
  {
    var i := s.held[d];
    i < |s.execs| && s.execs[i].state.Pending? && s.execs[i].conversationId.Some?
  }

  /** An execution that has a run has a conversation. */
  ghost predicate Linked(execs: seq<Exec>) {
    forall i :: 0 <= i < |execs| && execs[i].runId.Some? ==> execs[i].conversationId.Some?
  }

  lemma {:induction false} InsertAllLinked(execs: seq<Exec>, wanted: seq<Pair>)
    requires Linked(execs)
    ensures Linked(InsertAll(execs, wanted)) && execs <= InsertAll(execs, wanted)
  {
    if wanted != [] {
      InsertAllLinked(execs, wanted[..|wanted| - 1]);
    }
  }

  lemma {:induction false} DispatchLinked(
    execs: seq<Exec>, cases: seq<Case>, ids: seq<nat>, k: nat, accept: nat -> Accept)
    requires forall j :: 0 <= j < |ids| ==> ids[j] < |execs|
    requires k <= |ids| && Linked(execs)
    ensures Linked(Dispatch(execs, cases, ids, k, accept))
    decreases |ids| - k
  {
    if k < |ids| && k < EXECUTIONS_PER_TICK {
      var done := DispatchOne(cases, execs[ids[k]], accept(ids[k]));
      if done.Some? {
        DispatchLinked(execs[ids[k] := done.value], cases, ids, k + 1, accept);
      }
    }
  }

  /** Dispatching touches no execution outside its list. */
  lemma {:induction false} DispatchElsewhere(
    execs: seq<Exec>, cases: seq<Case>, ids: seq<nat>, k: nat, accept: nat -> Accept, i: nat)
    requires forall j :: 0 <= j < |ids| ==> ids[j] < |execs|
    requires k <= |ids| && i < |execs| && i !in ids
    ensures Dispatch(execs, cases, ids, k, accept)[i] == execs[i]
    decreases |ids| - k
  {
    if k < |ids| && k < EXECUTIONS_PER_TICK {
      var done := DispatchOne(cases, execs[ids[k]], accept(ids[k]));
      if done.Some? {
        DispatchElsewhere(execs[ids[k] := done.value], cases, ids, k + 1, accept, i);
      }
    }
  }

  lemma RequestLeavesDispatched(cases: seq<Case>, attempts: nat, s: State, ev: Event, i: nat)
    requires ev.RunRequested? && Linked(s.execs) && i < |s.execs| && s.execs[i].conversationId.Some?
    ensures var t := Apply(cases, attempts, s, ev); i < |t.execs| && t.execs[i] == s.execs[i]
  {
    if ev.pinned {
      var claimed := Claimed(s.execs, cases, attempts);
      InsertAllLinked(s.execs, Wanted(cases, attempts));
      assert i !in PendingIds(claimed) by {
        assert claimed[i] == s.execs[i] && !Undispatched(claimed[i]);
      }
      DispatchElsewhere(claimed, cases, PendingIds(claimed), 0, ev.accept, i);
    }
  }

  lemma StepKeepsLinked(cases: seq<Case>, attempts: nat, s: State, ev: Event)
    requires Linked(s.execs)
    ensures Linked(Apply(cases, attempts, s, ev).execs)
  {
    if ev.RunRequested? && ev.pinned {
      var claimed := Claimed(s.execs, cases, attempts);
      InsertAllLinked(s.execs, Wanted(cases, attempts));
      DispatchLinked(claimed, cases, PendingIds(claimed), 0, ev.accept);
    }
  }

  lemma StepHoldsPending(cases: seq<Case>, attempts: nat, s: State, ev: Event)
    requires Linked(s.execs) && HoldsPending(s) && FindsUnheld(s, ev)
    ensures HoldsPending(Apply(cases, attempts, s, ev))
  {
    var t := Apply(cases, attempts, s, ev);
    if ev.RunRequested? {
      forall d | d in t.held ensures HoldsOne(t, d) {
        assert HoldsOne(s, d);
        RequestLeavesDispatched(cases, attempts, s, ev, s.held[d]);
      }
    } else {
      forall d | d in t.held ensures HoldsOne(t, d) {
        assert d in s.held ==> HoldsOne(s, d);
      }
    }
  }

  lemma {:induction false} RunHoldsPending(cases: seq<Case>, attempts: nat, events: seq<Event>)
    requires HeldOnce(cases, attempts, events)
    ensures Linked(Run(cases, attempts, events).execs) && HoldsPending(Run(cases, attempts, events))
  {
    if events != [] {
      var n := |events| - 1;
      var s := Run(cases, attempts, events[..n]);
      HeldOnceUpTo(cases, attempts, events, n);
      RunHoldsPending(cases, attempts, events[..n]);
      StepKeepsLinked(cases, attempts, s, events[n]);
      StepHoldsPending(cases, attempts, s, events[n]);
    }
  }

  lemma HeldOnceUpTo(cases: seq<Case>, attempts: nat, events: seq<Event>, n: nat)
    requires HeldOnce(cases, attempts, events) && n <= |events|
    ensures HeldOnce(cases, attempts, events[..n])
  {
    forall k | 0 <= k < n ensures FindsUnheld(Run(cases, attempts, events[..n][..k]), events[..n][k]) {
      assert events[..n][..k] == events[..k];
    }
  }

  /** If no execution is held twice, every settled verdict is final, at whatever step it was settled. */
  lemma VerdictsAreFinal(cases: seq<Case>, attempts: nat, events: seq<Event>, n: nat, i: nat)
    requires HeldOnce(cases, attempts, events) && n <= |events| && Settled(Run(cases, attempts, events[..n]), i)
    ensures Settled(Run(cases, attempts, events), i)
    ensures Run(cases, attempts, events).execs[i] == Run(cases, attempts, events[..n]).execs[i]
  {
    HeldOnceUpTo(cases, attempts, events, n);
    RunHoldsPending(cases, attempts, events[..n]);
    VerdictStays(cases, attempts, events, n, i);
  }

  /** And what completeRun stored are the final results. */
  lemma ResultsAreFinal(cases: seq<Case>, attempts: nat, events: seq<Event>)
    requires HeldOnce(cases, attempts, events) && Run(cases, attempts, events).completions != []
    ensures Run(cases, attempts, events).completions[0] == Results(Run(cases, attempts, events).execs)
  {
    var results := Run(cases, attempts, events).completions[0];
    CompletionIsFiled(cases, attempts, events);
    var n :| 0 <= n < |events| && FiledAt(cases, attempts, events, n, results);
    var s, t := Run(cases, attempts, events[..n]), Run(cases, attempts, events);
    SettledStay(cases, attempts, events, n);
    forall i | 0 <= i < |s.execs| ensures t.execs[i] == s.execs[i] {
      VerdictsAreFinal(cases, attempts, events, n, i);
    }
    assert t.execs == s.execs;
  }

  lemma {:induction false} SettledStay(cases: seq<Case>, attempts: nat, events: seq<Event>, n: nat)
    requires n <= |events|
    requires var s := Run(cases, attempts, events[..n]); s.execs != [] && !AnyPending(s.execs)
    ensures |Run(cases, attempts, events).execs| == |Run(cases, attempts, events[..n]).execs|
    decreases |events| - n
  {
    if n == |events| {
      assert events[..n] == events;
    } else {
      RunIsConsistent(cases, attempts, events[..n]);
      StepLeavesSettled(cases, attempts, Run(cases, attempts, events[..n]), events[n], ClaimHappened(events[..n]));
      assert events[..n + 1][..n] == events[..n];
      SettledStay(cases, attempts, events, n + 1);
    }
  }

  // What a result is

  /** Step m settles execution i: its delivery holds it. */
  ghost predicate SettlesAt(cases: seq<Case>, attempts: nat, events: seq<Event>, m: nat, i: nat)
    requires m < |events|
  {
    var s := Run(cases, attempts, events[..m]);
    events[m].Settling? && events[m].delivery in s.held && s.held[events[m].delivery] == i
  }

  /** No step from m to n settles execution i. */
  ghost predicate Unsettled(cases: seq<Case>, attempts: nat, events: seq<Event>, m: nat, n: nat, i: nat)
    requires n <= |events|
  {
    forall k :: m <= k < n ==> !SettlesAt(cases, attempts, events, k, i)
  }

  /** Step m is the last one before n that settles execution i. */
  ghost predicate LastSettles(cases: seq<Case>, attempts: nat, events: seq<Event>, m: nat, n: nat, i: nat)
    requires m < n <= |events|
  {
    SettlesAt(cases, attempts, events, m, i) && Unsettled(cases, attempts, events, m + 1, n, i)
  }

  /** The execution says what this verdict said. */
  predicate Shows(e: Exec, v: Judgement) {
    e.state == (if v.passed then Passed else Failed) && e.score == Some(v.score) && e.failureReason == v.failureReason
  }

  /** No verdict was written: pending, or failed by the executor. */
  predicate Unscored(e: Exec) {
    !e.state.Passed? && e.score.None?
  }

  lemma {:induction false} DispatchUnscored(
    execs: seq<Exec>, cases: seq<Case>, ids: seq<nat>, k: nat, accept: nat -> Accept, i: nat)
    requires forall j :: 0 <= j < |ids| ==> ids[j] < |execs|
    requires k <= |ids| && i < |execs| && Unscored(execs[i])
    ensures Unscored(Dispatch(execs, cases, ids, k, accept)[i])
    decreases |ids| - k
  {
    if k < |ids| && k < EXECUTIONS_PER_TICK {
      var done := DispatchOne(cases, execs[ids[k]], accept(ids[k]));
      if done.Some? {
        DispatchUnscored(execs[ids[k] := done.value], cases, ids, k + 1, accept, i);
      }
    }
  }

  /** Without a settle, an unscored execution stays unscored, and a new one starts so. */
  lemma StepUnscored(cases: seq<Case>, attempts: nat, s: State, ev: Event, i: nat)
    requires UniqueKeys(s.execs) && (i < |s.execs| ==> Unscored(s.execs[i]))
    requires i < |Apply(cases, attempts, s, ev).execs|
    requires !(ev.Settling? && ev.delivery in s.held && s.held[ev.delivery] == i)
    ensures Unscored(Apply(cases, attempts, s, ev).execs[i])
  {
    if ev.RunRequested? && ev.pinned {
      var claimed := Claimed(s.execs, cases, attempts);
      InsertAllFills(s.execs, Wanted(cases, attempts));
      InsertAllUnscored(s.execs, Wanted(cases, attempts), i);
      if ev.versionExists {
        DispatchUnscored(claimed, cases, PendingIds(claimed), 0, ev.accept, i);
      }
    }
  }

  lemma {:induction false} InsertAllUnscored(execs: seq<Exec>, wanted: seq<Pair>, i: nat)
    requires i < |InsertAll(execs, wanted)| && (i < |execs| ==> Unscored(execs[i]))
    ensures Unscored(InsertAll(execs, wanted)[i])
  {
    if wanted != [] {
      var before := InsertAll(execs, wanted[..|wanted| - 1]);
      if i < |before| {
        InsertAllUnscored(execs, wanted[..|wanted| - 1], i);
      }
    }
  }

  /** Only a settle that holds it changes an execution that shows a verdict. */
  lemma StepShows(cases: seq<Case>, attempts: nat, s: State, ev: Event, i: nat, v: Judgement)
    requires UniqueKeys(s.execs) && i < |s.execs| && Shows(s.execs[i], v)
    requires !(ev.Settling? && ev.delivery in s.held && s.held[ev.delivery] == i)
    ensures var t := Apply(cases, attempts, s, ev); i < |t.execs| && Shows(t.execs[i], v)
  {
    if ev.RunRequested? {
      RequestEvolves(cases, attempts, s, ev);
    }
  }

  lemma {:induction false} LastVerdictShows(
    cases: seq<Case>, attempts: nat, events: seq<Event>, m: nat, n: nat, i: nat)
    requires m < n <= |events| && LastSettles(cases, attempts, events, m, n, i)
    ensures var s := Run(cases, attempts, events[..n]); i < |s.execs| && Shows(s.execs[i], events[m].verdict)
  {
    RunIsConsistent(cases, attempts, events[..n - 1]);
    RunSnoc(cases, attempts, events, n - 1);
    if m < n - 1 {
      assert !SettlesAt(cases, attempts, events, n - 1, i);
      LastVerdictShows(cases, attempts, events, m, n - 1, i);
      StepShows(cases, attempts, Run(cases, attempts, events[..n - 1]), events[n - 1], i, events[m].verdict);
    }
  }

  lemma {:induction false} UnsettledIsUnscored(cases: seq<Case>, attempts: nat, events: seq<Event>, n: nat, i: nat)
    requires n <= |events| && Unsettled(cases, attempts, events, 0, n, i)
    requires i < |Run(cases, attempts, events[..n]).execs|
    ensures Unscored(Run(cases, attempts, events[..n]).execs[i])
  {
    if n > 0 {
      RunIsConsistent(cases, attempts, events[..n - 1]);
      RunSnoc(cases, attempts, events, n - 1);
      assert !SettlesAt(cases, attempts, events, n - 1, i);
      if i < |Run(cases, attempts, events[..n - 1]).execs| {
        UnsettledIsUnscored(cases, attempts, events, n - 1, i);
      }
      StepUnscored(cases, attempts, Run(cases, attempts, events[..n - 1]), events[n - 1], i);
    }
  }

  /**
   * The result for execution i as of step n: it passed exactly when the last verdict written to the
   * execution was a pass, with that verdict's score; without any it failed, with score 0.
   */
  ghost predicate ResultIsVerdict(
    cases: seq<Case>, attempts: nat, events: seq<Event>, n: nat, i: nat, r: CaseResult)
    requires n <= |events|
  {
    && (forall m: nat :: m < n && LastSettles(cases, attempts, events, m, n, i) ==>
          r.passed == events[m].verdict.passed && r.score == events[m].verdict.score)
    && (Unsettled(cases, attempts, events, 0, n, i) ==> !r.passed && r.score == 0.0)
  }

  lemma ResultOfExecution(cases: seq<Case>, attempts: nat, events: seq<Event>, n: nat, i: nat)
    requires n <= |events| && i < |Run(cases, attempts, events[..n]).execs|
    ensures ResultIsVerdict(cases, attempts, events, n, i, Result(Run(cases, attempts, events[..n]).execs[i]))
  {
    forall m: nat | m < n && LastSettles(cases, attempts, events, m, n, i)
      ensures Shows(Run(cases, attempts, events[..n]).execs[i], events[m].verdict)
    {
      LastVerdictShows(cases, attempts, events, m, n, i);
    }
    if Unsettled(cases, attempts, events, 0, n, i) {
      UnsettledIsUnscored(cases, attempts, events, n, i);
    }
  }

  /** Step n completes the eval, and these results go to completeRun: one for each execution. */
  ghost predicate CompletesWith(
    cases: seq<Case>, attempts: nat, events: seq<Event>, n: nat, results: seq<CaseResult>)
    requires n < |events|
  {
    var execs := Run(cases, attempts, events[..n]).execs;
    && Run(cases, attempts, events[..n]).completions == []
    && events[n].Completing? && events[n].ok
    && |results| == |execs|
    && forall i :: 0 <= i < |execs| ==>
         && Pair(results[i].caseId, results[i].attempt) == KeyOf(execs[i])
         && ResultIsVerdict(cases, attempts, events, n, i, results[i])
  }

  /**
   * Over every interleaving that completes the eval, completeRun is given, for each case and attempt,
   * the last verdict written to its execution before.
   */
  lemma CompletesWithVerdicts(cases: seq<Case>, attempts: nat, events: seq<Event>)
    requires Run(cases, attempts, events).completions != []
    ensures var results := Run(cases, attempts, events).completions[0];
      exists n :: 0 <= n < |events| && CompletesWith(cases, attempts, events, n, results)
  {
    assert events[..|events|] == events;
    var n := FirstCompletion(cases, attempts, events, |events|);
    CompletionStays(cases, attempts, events, n + 1);
    CompletionIs(cases, attempts, events, n);
  }

  lemma CompletionIs(cases: seq<Case>, attempts: nat, events: seq<Event>, n: nat)
    requires n < |events| && Run(cases, attempts, events[..n]).completions == []
    requires Run(cases, attempts, events[..n + 1]).completions != []
    ensures CompletesWith(cases, attempts, events, n, Run(cases, attempts, events[..n + 1]).completions[0])
  {
    var s := Run(cases, attempts, events[..n]);
    RunSnoc(cases, attempts, events, n);
    CompletingStores(cases, attempts, s, events[n]);
    forall i | 0 <= i < |s.execs| {
      ResultOfExecution(cases, attempts, events, n, i);
    }
  }

  lemma CompletingStores(cases: seq<Case>, attempts: nat, s: State, ev: Event)
    requires s.completions == [] && Apply(cases, attempts, s, ev).completions != []
    ensures ev.Completing? && ev.ok && Apply(cases, attempts, s, ev).completions == [Results(s.execs)]
  {
  }

  lemma {:induction false} FirstCompletion(cases: seq<Case>, attempts: nat, events: seq<Event>, k: nat) returns (n: nat)
    requires k <= |events| && Run(cases, attempts, events[..k]).completions != []
    ensures n < k && Run(cases, attempts, events[..n]).completions == []
    ensures Run(cases, attempts, events[..n + 1]).completions != []
  {
    n := k - 1;
    if Run(cases, attempts, events[..n]).completions != [] {
      n := FirstCompletion(cases, attempts, events, n);
    }
  }

  // When an eval completes

  /** Delivery `d` settled the execution it held at step m, and neither went on nor crashed by step n. */
  ghost predicate OwesSince(cases: seq<Case>, attempts: nat, events: seq<Event>, d: nat, m: nat, n: nat)
    requires m < n <= |events|
  {
    && events[m].Settling? && events[m].delivery == d && d in Run(cases, attempts, events[..m]).held
    && forall k :: m < k < n ==> !Ends(events[k], d)
  }

  predicate Ends(ev: Event, d: nat) {
    (ev.Completing? || ev.Crashing?) && ev.delivery == d
  }

  ghost predicate Owes(cases: seq<Case>, attempts: nat, events: seq<Event>, d: nat, n: nat)
    requires n <= |events|
  {
    exists m: nat :: m < n && OwesSince(cases, attempts, events, d, m, n)
  }

  /** Step n - 1 makes `d` owe by settling what it held, and ends it by its last transaction or a crash. */
  lemma OwesStep(cases: seq<Case>, attempts: nat, events: seq<Event>, d: nat, n: nat)
    requires 0 < n <= |events|
    ensures var ev := events[n - 1];
      Owes(cases, attempts, events, d, n) <==>
        || (Owes(cases, attempts, events, d, n - 1) && !Ends(ev, d))
        || (ev.Settling? && ev.delivery == d && d in Run(cases, attempts, events[..n - 1]).held)
  {
    var ev := events[n - 1];
    if Owes(cases, attempts, events, d, n) {
      var m: nat :| m < n && OwesSince(cases, attempts, events, d, m, n);
      assert m < n - 1 ==> OwesSince(cases, attempts, events, d, m, n - 1);
    }
    if Owes(cases, attempts, events, d, n - 1) && !Ends(ev, d) {
      var m: nat :| m < n - 1 && OwesSince(cases, attempts, events, d, m, n - 1);
      assert OwesSince(cases, attempts, events, d, m, n);
    }
    if ev.Settling? && ev.delivery == d && d in Run(cases, attempts, events[..n - 1]).held {
      assert OwesSince(cases, attempts, events, d, n - 1, n);
    }
  }

  /** The bookkeeping of deliveries between their transactions says what the events say. */
  lemma {:induction false} OwingIff(cases: seq<Case>, attempts: nat, events: seq<Event>, d: nat, n: nat)
    requires n <= |events|
    ensures d in Run(cases, attempts, events[..n]).owing <==> Owes(cases, attempts, events, d, n)
  {
    if n > 0 {
      OwingIff(cases, attempts, events, d, n - 1);
      assert events[..n][..n - 1] == events[..n - 1];
      RunIsConsistent(cases, attempts, events[..n - 1]);
      OwesStep(cases, attempts, events, d, n);
    }
  }

  /** The delivery that settled an execution at step m gets through completeRun at step n, with nothing pending. */
  ghost predicate Finishes(cases: seq<Case>, attempts: nat, events: seq<Event>, m: nat, n: nat)
    requires m < n < |events|
  {
    && events[n].Completing? && events[n].ok
    && OwesSince(cases, attempts, events, events[n].delivery, m, n)
    && !AnyPending(Run(cases, attempts, events[..n]).execs)
  }

  /**
   * A dead run is meant to complete its eval, never hang it. Over every interleaving, the eval
   * is completed exactly when some terminal delivery settled an execution and its own call of
   * completeRun, made when nothing was pending any more, went through.
   */
  lemma {:induction false} CompletesIff(cases: seq<Case>, attempts: nat, events: seq<Event>)
    ensures Run(cases, attempts, events).completions != []
      <==> exists m: nat, n: nat :: m < n < |events| && Finishes(cases, attempts, events, m, n)
  {
    if exists m: nat, n: nat :: m < n < |events| && Finishes(cases, attempts, events, m, n) {
      var m: nat, n: nat :| m < n < |events| && Finishes(cases, attempts, events, m, n);
      FinishingCompletes(cases, attempts, events, m, n);
      CompletionStays(cases, attempts, events, n + 1);
    }
    if Run(cases, attempts, events).completions != [] {
      assert events[..|events|] == events;
      CompletionHasFinish(cases, attempts, events, |events|);
    }
  }

  lemma FinishingCompletes(cases: seq<Case>, attempts: nat, events: seq<Event>, m: nat, n: nat)
    requires m < n < |events| && Finishes(cases, attempts, events, m, n)
    ensures Run(cases, attempts, events[..n + 1]).completions != []
  {
    assert events[..n + 1][..n] == events[..n];
    RunIsConsistent(cases, attempts, events[..n]);
    RunIsConsistent(cases, attempts, events[..m]);
    OwingIff(cases, attempts, events, events[n].delivery, n);
    RowsStay(cases, attempts, events[..n], m);
    assert events[..n][..m] == events[..m];
  }

  /** Executions never disappear. */
  lemma {:induction false} RowsStay(cases: seq<Case>, attempts: nat, events: seq<Event>, n: nat)
    requires n <= |events|
    ensures |Run(cases, attempts, events[..n]).execs| <= |Run(cases, attempts, events).execs|
    decreases |events| - n
  {
    if n == |events| {
      assert events[..n] == events;
    } else {
      RunIsConsistent(cases, attempts, events[..n]);
      StepAdvances(cases, attempts, Run(cases, attempts, events[..n]), events[n]);
      assert events[..n + 1][..n] == events[..n];
      RowsStay(cases, attempts, events, n + 1);
    }
  }

  lemma {:induction false} CompletionStays(cases: seq<Case>, attempts: nat, events: seq<Event>, n: nat)
    requires n <= |events| && Run(cases, attempts, events[..n]).completions != []
    ensures Run(cases, attempts, events).completions == Run(cases, attempts, events[..n]).completions
    decreases |events| - n
  {
    if n == |events| {
      assert events[..n] == events;
    } else {
      var s := Run(cases, attempts, events[..n]);
      RunIsConsistent(cases, attempts, events[..n]);
      RunIsConsistent(cases, attempts, events[..n + 1]);
      StepLeavesSettled(cases, attempts, s, events[n], ClaimHappened(events[..n]));
      assert events[..n + 1][..n] == events[..n];
      CompletionStays(cases, attempts, events, n + 1);
    }
  }

  lemma {:induction false} CompletionHasFinish(cases: seq<Case>, attempts: nat, events: seq<Event>, k: nat)
    requires k <= |events| && Run(cases, attempts, events[..k]).completions != []
    ensures exists m: nat, n: nat :: m < n < |events| && Finishes(cases, attempts, events, m, n)
  {
    if k > 0 {
      assert events[..k][..k - 1] == events[..k - 1];
      var s, ev := Run(cases, attempts, events[..k - 1]), events[k - 1];
      if s.completions != [] {
        CompletionHasFinish(cases, attempts, events, k - 1);
      } else {
        OwingIff(cases, attempts, events, ev.delivery, k - 1);
        var m: nat :| m < k - 1 && OwesSince(cases, attempts, events, ev.delivery, m, k - 1);
        assert Finishes(cases, attempts, events, m, k - 1);
      }
    }
  }

  /** The run is the only execution still pending. */
  ghost predicate OnlyPending(execs: seq<Exec>, runId: string) {
    exists i :: 0 <= i < |execs| && execs[i].state.Pending? && execs[i].runId == Some(runId)
                && forall j :: 0 <= j < |execs| && j != i ==> !execs[j].state.Pending?
  }

  /**
   * A delivery nobody interrupts completes an open eval exactly when its run is all that is pending
   * and completeRun goes through.
   */
  lemma DeliveryCompletesIff(
    cases: seq<Case>, attempts: nat, events: seq<Event>, delivery: nat, runId: string, verdict: Judgement, ok: bool)
    requires var s := Run(cases, attempts, events);
      s.completions == [] && delivery !in s.held && delivery !in s.owing
    ensures var s := Run(cases, attempts, events);
      Deliver(cases, attempts, s, delivery, runId, verdict, ok).completions != [] <==> ok && OnlyPending(s.execs, runId)
  {
    var s := Run(cases, attempts, events);
    RunIsConsistent(cases, attempts, events);
    SettlesLastIff(s.execs, runId, verdict);
  }

  lemma SettlesLastIff(execs: seq<Exec>, runId: string, verdict: Judgement)
    ensures OnlyPending(execs, runId) <==>
      var i := OpenFor(execs, runId);
      i.Some? && !AnyPending(execs[i.value := Settle(execs[i.value], verdict)])
  {
    var i := OpenFor(execs, runId);
    if i.Some? {
      var after := execs[i.value := Settle(execs[i.value], verdict)];
      if AnyPending(after) {
        var j :| 0 <= j < |after| && after[j].state.Pending?;
        assert execs[j].state.Pending? && j != i.value;
      } else {
        forall j | 0 <= j < |execs| && j != i.value ensures !execs[j].state.Pending? {
          assert after[j] == execs[j];
        }
      }
    }
  }

  /** With nothing pending and no delivery under way, an eval that is not completed never will be. */
  lemma {:induction false} HangsForGood(cases: seq<Case>, attempts: nat, events: seq<Event>, n: nat)
    requires n <= |events|
    requires var s := Run(cases, attempts, events[..n]);
      s.execs != [] && !AnyPending(s.execs) && s.held == map[] && s.owing == {} && s.completions == []
    ensures var t := Run(cases, attempts, events);
      t.execs == Run(cases, attempts, events[..n]).execs && t.completions == []
    decreases |events| - n
  {
    if n == |events| {
      assert events[..n] == events;
    } else {
      RunIsConsistent(cases, attempts, events[..n]);
      StepLeavesSettled(cases, attempts, Run(cases, attempts, events[..n]), events[n], ClaimHappened(events[..n]));
      assert events[..n + 1][..n] == events[..n];
      HangsForGood(cases, attempts, events, n + 1);
    }
  }

  /** Once nothing is pending, some continuation completes the eval exactly when a delivery is still under way. */
  lemma StillCompletesIff(cases: seq<Case>, attempts: nat, events: seq<Event>)
    requires var s := Run(cases, attempts, events); s.execs != [] && !AnyPending(s.execs) && s.completions == []
    ensures (exists more: seq<Event> :: Run(cases, attempts, events + more).completions != [])
      <==> Run(cases, attempts, events).held != map[] || Run(cases, attempts, events).owing != {}
  {
    var s := Run(cases, attempts, events);
    RunIsConsistent(cases, attempts, events);
    if s.owing != {} {
      var d :| d in s.owing;
      OwingCompletes(cases, attempts, events, d);
    } else if s.held != map[] {
      var d :| d in s.held;
      HoldingCompletes(cases, attempts, events, d, Judgement(false, 0.0, None));
    }
    if exists more: seq<Event> :: Run(cases, attempts, events + more).completions != [] {
      var more: seq<Event> :| Run(cases, attempts, events + more).completions != [];
      assert (events + more)[..|events|] == events;
      if s.owing == {} && s.held == map[] {
        HangsForGood(cases, attempts, events + more, |events|);
      }
    }
  }

  lemma OwingCompletes(cases: seq<Case>, attempts: nat, events: seq<Event>, d: nat)
    requires var s := Run(cases, attempts, events);
      s.execs != [] && !AnyPending(s.execs) && s.completions == [] && d in s.owing
    ensures Run(cases, attempts, events + [Completing(d, true)]).completions != []
  {
    RunIsConsistent(cases, attempts, events);
    assert (events + [Completing(d, true)])[..|events|] == events;
  }

  lemma HoldingCompletes(cases: seq<Case>, attempts: nat, events: seq<Event>, d: nat, verdict: Judgement)
    requires var s := Run(cases, attempts, events);
      s.execs != [] && !AnyPending(s.execs) && s.completions == [] && d in s.held
    ensures Run(cases, attempts, events + [Settling(d, verdict), Completing(d, true)]).completions != []
  {
    var next := events + [Settling(d, verdict)];
    RunIsConsistent(cases, attempts, events);
    assert next[..|events|] == events;
    SettlingAdvances(Run(cases, attempts, events), d, verdict);
    OwingCompletes(cases, attempts, next, d);
    assert events + [Settling(d, verdict), Completing(d, true)] == next + [Completing(d, true)];
  }

  /** completeRun throws, or the delivery crashes before it. */
  predicate GivesUp(ev: Event, d: nat) {
    (ev.Completing? && !ev.ok && ev.delivery == d) || (ev.Crashing? && ev.delivery == d)
  }

  /** A delivery that settles its run's execution and then has completeRun throw, or crashes before it. */
  predicate Stumbles(events: seq<Event>, n: nat)
    requires n + 3 <= |events|
  {
    var d := events[n + 1];
    && events[n].Finding? && d.Settling? && d.delivery == events[n].delivery
    && GivesUp(events[n + 2], d.delivery)
  }

  /**
   * What empties the pending set other than a delivery getting through leaves the eval hanging,
   * unless another delivery was under way: the executor's own failure marks, and a delivery that
   * stumbles. Redelivery does not help, since it finds no pending execution and returns.
   */
  lemma EmptiedOtherwiseHangs(cases: seq<Case>, attempts: nat, events: seq<Event>, n: nat, more: nat)
    requires n < more <= |events|
    requires var s := Run(cases, attempts, events[..n]); s.held == map[] && s.owing == {} && AnyPending(s.execs)
    requires !AnyPending(Run(cases, attempts, events[..more]).execs)
    requires (more == n + 1 && events[n].RunRequested?) || (more == n + 3 && Stumbles(events, n))
    ensures Run(cases, attempts, events).completions == []
  {
    RunIsConsistent(cases, attempts, events[..n]);
    RunSnoc(cases, attempts, events, n);
    if more == n + 3 {
      RunSnoc(cases, attempts, events, n + 1);
      RunSnoc(cases, attempts, events, n + 2);
      StumblesOn(cases, attempts, Run(cases, attempts, events[..n]), events[n], events[n + 1], events[n + 2]);
    }
    RowsStay(cases, attempts, events[..more], n);
    assert events[..more][..n] == events[..n];
    HangsForGood(cases, attempts, events, more);
  }

  lemma RunSnoc(cases: seq<Case>, attempts: nat, events: seq<Event>, n: nat)
    requires n < |events|
    ensures Run(cases, attempts, events[..n + 1])
         == Apply(cases, attempts, Run(cases, attempts, events[..n]), events[n])
  {
    assert events[..n + 1][..n] == events[..n];
  }

  lemma StumblesOn(cases: seq<Case>, attempts: nat, s: State, a: Event, b: Event, c: Event)
    requires s.held == map[] && s.owing == {} && s.completions == []
    requires a.Finding? && b.Settling? && b.delivery == a.delivery
    requires GivesUp(c, b.delivery)
    ensures var t := Apply(cases, attempts, Apply(cases, attempts, Apply(cases, attempts, s, a), b), c);
      t.held == map[] && t.owing == {} && t.completions == []
  {
    var t := Apply(cases, attempts, s, a);
    assert t.held == map[] || t.held == map[a.delivery := OpenFor(s.execs, a.runId).value];
  }

  /** An eval whose only case has no text fails that case and then never completes, whatever is delivered. */
  lemma {:induction false} TextlessEvalHangs(c: string, events: seq<Event>)
    requires ClaimHappened(events) && forall n :: 0 <= n < |events| && events[n].RunRequested? ==>
      events[n].pinned && events[n].versionExists
    ensures var s := Run([Case(c, None)], 1, events);
      s.execs == [MarkFailed(Fresh(Pair(c, 1)), NoText)] && s.completions == []
  {
    TextlessRun(c, events);
  }

  lemma {:induction false} TextlessRun(c: string, events: seq<Event>)
    requires forall n :: 0 <= n < |events| && events[n].RunRequested? ==> events[n].pinned && events[n].versionExists
    ensures var s := Run([Case(c, None)], 1, events);
      s.held == map[] && s.owing == {} && s.completions == []
        && s.execs == if ClaimHappened(events) then [MarkFailed(Fresh(Pair(c, 1)), NoText)] else []
  {
    if events != [] {
      var n := |events| - 1;
      TextlessRun(c, events[..n]);
      ClaimHappenedSnoc(events);
      TextlessStep(c, Run([Case(c, None)], 1, events[..n]), events[n]);
    }
  }

  lemma TextlessStep(c: string, s: State, ev: Event)
    requires s.held == map[] && s.owing == {} && s.completions == []
    requires s.execs in {[], [MarkFailed(Fresh(Pair(c, 1)), NoText)]}
    requires ev.RunRequested? ==> ev.pinned && ev.versionExists
    ensures var t := Apply([Case(c, None)], 1, s, ev);
      && t.held == map[] && t.owing == {} && t.completions == []
      && t.execs == if ev.RunRequested? then [MarkFailed(Fresh(Pair(c, 1)), NoText)] else s.execs
  {
    if ev.RunRequested? {
      TextlessClaim(c, s.execs);
      TextlessDispatch(c, ev.accept);
      var settled := [MarkFailed(Fresh(Pair(c, 1)), NoText)];
      assert settled[..0] == [] && PendingIds(settled) == [];
    }
  }

  lemma OneWanted(only: Case)
    ensures Wanted([only], 1) == [Pair(only.id, 1)]
  {
    assert AttemptsOf(only.id, 1) == AttemptsOf(only.id, 0) + [Pair(only.id, 1)];
    assert [only][..0] == [] && Wanted([], 1) == [];
  }

  lemma InsertOne(execs: seq<Exec>, p: Pair)
    ensures InsertAll(execs, [p]) == if HasKey(execs, p) then execs else execs + [Fresh(p)]
  {
    assert [p][..0] == [] && InsertAll(execs, []) == execs;
  }

  lemma TextlessClaim(c: string, execs: seq<Exec>)
    requires execs in {[], [MarkFailed(Fresh(Pair(c, 1)), NoText)]}
    ensures Claimed(execs, [Case(c, None)], 1) == if execs == [] then [Fresh(Pair(c, 1))] else execs
  {
    OneWanted(Case(c, None));
    InsertOne(execs, Pair(c, 1));
    if execs != [] {
      assert KeyOf(execs[0]) == Pair(c, 1);
    }
  }

  lemma TextlessDispatch(c: string, accept: nat -> Accept)
    ensures var execs := [Fresh(Pair(c, 1))];
      PendingIds(execs) == [0]
      && Dispatch(execs, [Case(c, None)], [0], 0, accept) == [MarkFailed(Fresh(Pair(c, 1)), NoText)]
  {
    var cases, execs := [Case(c, None)], [Fresh(Pair(c, 1))];
    assert execs[..0] == [] && PendingIds([]) == [];
    var next := execs[0 := MarkFailed(execs[0], NoText)];
    assert Dispatch(next, cases, [0], 1, accept) == next;
  }
}
