/**
 * Run dispatch: `run.created` events delivered any number of times in any order, the sweep
 * that re-emits them, and other actors moving runs, over one shared store.
 */
module RunDispatch {
  import opened Wrappers

  datatype RunState =
    | ACCEPTED | DISPATCHED | RUNNING | WAITING_APPROVAL | WAITING_INPUT
    | COMPLETED | FAILED | CANCELED | EXPIRED
    | Unknown(name: string)

  /** `ALLOWED_TRANSITIONS`. */
  predicate Allowed(from: RunState, to: RunState) {
    match from
    case ACCEPTED => to in {DISPATCHED, RUNNING, COMPLETED, FAILED, CANCELED, EXPIRED}
    case DISPATCHED => to in {RUNNING, WAITING_APPROVAL, WAITING_INPUT, COMPLETED, FAILED, CANCELED, EXPIRED}
    case RUNNING => to in {WAITING_APPROVAL, WAITING_INPUT, COMPLETED, FAILED, CANCELED}
    case WAITING_APPROVAL => to in {RUNNING, CANCELED, EXPIRED}
    case WAITING_INPUT => to in {RUNNING, CANCELED, EXPIRED}
    case _ => false
  }

  datatype RunRow = RunRow(state: RunState, version: int, lastEventSequence: int, conversationId: string,
    acceptedAt: int)

  datatype RunEventKind =
    | Lifecycle(from: RunState, to: RunState, workflowId: string)
    | Resumed(workflow: string)
    | Other

  datatype RunEvent = RunEvent(runId: string, kind: RunEventKind, engineSequence: int)

  datatype OutboxType = Created | ResumeRequested | Dispatched

  /** Ids that a complete payload must carry are present or not; the run id may come from the aggregate. */
  datatype OutboxEvent = OutboxEvent(eventType: OutboxType, runId: string, payloadComplete: bool)

  /** The store of one organisation. `sequence` is the last value of the engine_sequence serial. */
  datatype Store = Store(runs: map<string, RunRow>, events: seq<RunEvent>, outbox: seq<OutboxEvent>, sequence: int)

  datatype Outcome = Handled | Skipped | Retry

  /** What the surroundings of one delivery do: runtime configuration, conversation lookup, StartRun. */
  datatype Surroundings = Surroundings(configured: bool, conversationExists: bool, started: Option<string>)

  // Specification of the steps

  function Max(a: int, b: int): int {
    if a >= b then a else b
  }

  /** `markDispatched`. */
  function Marked(s: Store, runId: string, workflowId: string): (Outcome, Store) {
    if runId !in s.runs || s.runs[runId].state.Unknown? then (Skipped, s)
    else if s.runs[runId].state != ACCEPTED then (Handled, s)
    else
      var run := s.runs[runId];
      var seqNo := s.sequence + 1;
      (Handled, Store(
        s.runs[runId := run.(
          state := DISPATCHED, lastEventSequence := Max(run.lastEventSequence, seqNo), version := run.version + 1)],
        s.events + [RunEvent(runId, Lifecycle(ACCEPTED, DISPATCHED, workflowId), seqNo)],
        s.outbox + [OutboxEvent(Dispatched, runId, true)],
        seqNo))
  }

  /** One delivery of an outbox event to the consumer. */
  function Delivered(s: Store, e: OutboxEvent, env: Surroundings): (Outcome, Store) {
    if e.eventType.Dispatched? then (Handled, s)
    else if !e.payloadComplete then (Skipped, s)
    else if !env.configured then (Handled, s)
    else if !env.conversationExists then (Skipped, s)
    else if env.started.None? then (Retry, s)
    else if e.eventType.Created? then Marked(s, e.runId, env.started.value)
    else
      var seqNo := s.sequence + 1;
      (Handled, s.(events := s.events + [RunEvent(e.runId, Resumed(env.started.value), seqNo)], sequence := seqNo))
  }

  const BATCH := 50

  predicate Stuck(s: Store, runId: string, cutoff: int) {
    runId in s.runs && s.runs[runId].state == ACCEPTED && s.runs[runId].acceptedAt < cutoff
  }

  function Requeued(ids: seq<string>): (r: seq<OutboxEvent>)
    ensures |r| == |ids| && forall i :: 0 <= i < |ids| ==> r[i] == OutboxEvent(Created, ids[i], true)
  {
    seq(|ids|, i requires 0 <= i < |ids| => OutboxEvent(Created, ids[i], true))
  }

  /** The run store, the consumer acting on it and the sweep beside it. */
  class Engine {
    var runs: map<string, RunRow>
    var events: seq<RunEvent>
    var outbox: seq<OutboxEvent>
    var sequence: int
    var ticking: bool

    ghost function Contents(): Store
      reads this
    {
      Store(runs, events, outbox, sequence)
    }

    constructor ()
      ensures Contents() == Store(map[], [], [], 0) && !ticking
    {
      runs, events, outbox, sequence, ticking := map[], [], [], 0, false;
    }

    method MarkDispatched(runId: string, workflowId: string) returns (outcome: Outcome)
      modifies this`runs, this`events, this`outbox, this`sequence
      ensures (outcome, Contents()) == Marked(old(Contents()), runId, workflowId)
    {
      if runId !in runs {
        return Skipped;
      }
      var run := runs[runId];
      if run.state.Unknown? {
        return Skipped;
      }
      if run.state != ACCEPTED {
        return Handled;
      }
      assert Allowed(run.state, DISPATCHED);
      sequence := sequence + 1;
      events := events + [RunEvent(runId, Lifecycle(ACCEPTED, DISPATCHED, workflowId), sequence)];
      runs := runs[runId := run.(
        state := DISPATCHED,
        lastEventSequence := if run.lastEventSequence >= sequence then run.lastEventSequence else sequence,
        version := run.version + 1)];
      outbox := outbox + [OutboxEvent(Dispatched, runId, true)];
      return Handled;
    }

    method Handle(e: OutboxEvent, env: Surroundings) returns (outcome: Outcome)
      requires !e.eventType.Dispatched?
      modifies this`runs, this`events, this`outbox, this`sequence
      ensures (outcome, Contents()) == Delivered(old(Contents()), e, env)
      ensures outcome == Retry <==>
        e.payloadComplete && env.configured && env.conversationExists && env.started.None?
      ensures outcome == Skipped <==>
        || !e.payloadComplete
        || (env.configured && !env.conversationExists)
        || (env.configured && env.started.Some? && e.eventType.Created?
            && (e.runId !in old(runs) || old(runs)[e.runId].state.Unknown?))
    {
      if !e.payloadComplete {
        return Skipped;
      }
      if !env.configured {
        return Handled;
      }
      if !env.conversationExists {
        return Skipped;
      }
      if env.started.None? {
        return Retry;
      }
      if e.eventType == ResumeRequested {
        sequence := sequence + 1;
        events := events + [RunEvent(e.runId, Resumed(env.started.value), sequence)];
        return Handled;
      }
      outcome := MarkDispatched(e.runId, env.started.value);
    }

    /** `tick`, for the at most 50 stuck rows its query locked. */
    method Tick(rows: seq<string>, cutoff: int) returns (requeued: nat)
      requires |rows| <= BATCH && forall id :: id in rows ==> Stuck(Contents(), id, cutoff)
      modifies this`outbox, this`ticking
      ensures ticking == old(ticking)
      ensures outbox == old(outbox) + if old(ticking) then [] else Requeued(rows)
      ensures requeued == if old(ticking) then 0 else |rows|
    {
      if ticking {
        return 0;
      }
      ticking := true;
      for i := 0 to |rows|
        invariant ticking && outbox == old(outbox) + Requeued(rows[..i])
      {
        outbox := outbox + [OutboxEvent(Created, rows[i], true)];
        assert Requeued(rows[..i + 1]) == Requeued(rows[..i]) + [OutboxEvent(Created, rows[i], true)];
      }
      assert rows[..|rows|] == rows;
      ticking := false;
      return |rows|;
    }
  }

  // Runs of the system

  datatype Action =
    | Accept(runId: string, conversationId: string, acceptedAt: int)
    | Deliver(i: nat, env: Surroundings)
    | Sweep(rows: seq<string>, cutoff: int)
    | Move(runId: string, to: RunState)

  /** Another actor's transition: allowed by the state machine, with its own event and version increment. */
  function Moved(s: Store, runId: string, to: RunState): Store {
    if runId in s.runs && Allowed(s.runs[runId].state, to) then
      var run, seqNo := s.runs[runId], s.sequence + 1;
      s.(runs := s.runs[runId := run.(
           state := to, version := run.version + 1, lastEventSequence := Max(run.lastEventSequence, seqNo))],
         events := s.events + [RunEvent(runId, Other, seqNo)], sequence := seqNo)
    else s
  }

  function Apply(s: Store, a: Action): Store {
    match a
    case Accept(runId, conversationId, acceptedAt) =>
      if runId in s.runs then s
      else s.(runs := s.runs[runId := RunRow(ACCEPTED, 1, 0, conversationId, acceptedAt)],
              outbox := s.outbox + [OutboxEvent(Created, runId, true)])
    case Deliver(i, env) => if i < |s.outbox| then Delivered(s, s.outbox[i], env).1 else s
    case Sweep(rows, cutoff) =>
      if |rows| <= BATCH && forall id :: id in rows ==> Stuck(s, id, cutoff)
      then s.(outbox := s.outbox + Requeued(rows)) else s
    case Move(runId, to) => Moved(s, runId, to)
  }

  function Run(actions: seq<Action>): Store {
    if actions == [] then Store(map[], [], [], 0)
    else Apply(Run(actions[..|actions| - 1]), actions[|actions| - 1])
  }

  predicate IsDispatchEvent(e: RunEvent, runId: string) {
    e.runId == runId && e.kind.Lifecycle?
  }

  /** Lifecycle events the dispatcher wrote for a run. */
  function Lifecycles(events: seq<RunEvent>, runId: string): nat {
    if events == [] then 0
    else Lifecycles(events[..|events| - 1], runId) + if IsDispatchEvent(events[|events| - 1], runId) then 1 else 0
  }

  /** `run.dispatched` notices in the outbox for a run. */
  function Notices(outbox: seq<OutboxEvent>, runId: string): nat {
    if outbox == [] then 0
    else
      var e := outbox[|outbox| - 1];
      Notices(outbox[..|outbox| - 1], runId) + if e.eventType.Dispatched? && e.runId == runId then 1 else 0
  }

  /** A step moved the run from ACCEPTED to DISPATCHED through the dispatcher. */
  predicate Dispatches(s: Store, a: Action, runId: string) {
    && a.Deliver? && a.i < |s.outbox| && s.outbox[a.i].eventType.Created? && s.outbox[a.i].payloadComplete
    && s.outbox[a.i].runId == runId && a.env.configured && a.env.conversationExists && a.env.started.Some?
    && runId in s.runs && s.runs[runId].state == ACCEPTED
  }

  function Dispatches01(s: Store, a: Action, runId: string): nat {
    if Dispatches(s, a, runId) then 1 else 0
  }

  /** How often the dispatcher moved the run over a run of the system. */
  function Dispatchings(actions: seq<Action>, runId: string): nat {
    if actions == [] then 0
    else
      var n := |actions| - 1;
      Dispatchings(actions[..n], runId) + Dispatches01(Run(actions[..n]), actions[n], runId)
  }

  lemma {:induction false} NoticesOfRequeued(outbox: seq<OutboxEvent>, ids: seq<string>, runId: string)
    ensures Notices(outbox + Requeued(ids), runId) == Notices(outbox, runId)
  {
    if ids == [] {
      assert outbox + Requeued(ids) == outbox;
    } else {
      var n := |ids| - 1;
      NoticesOfRequeued(outbox, ids[..n], runId);
      assert (outbox + Requeued(ids))[..|outbox| + n] == outbox + Requeued(ids[..n]);
    }
  }

  /** What one step writes for one run. */
  lemma StepWrites(s: Store, a: Action, runId: string)
    ensures Lifecycles(Apply(s, a).events, runId) == Lifecycles(s.events, runId) + Dispatches01(s, a, runId)
    ensures Notices(Apply(s, a).outbox, runId) == Notices(s.outbox, runId) + Dispatches01(s, a, runId)
  {
    var t := Apply(s, a);
    if |t.events| == |s.events| + 1 {
      assert t.events[..|s.events|] == s.events;
    }
    if a.Sweep? {
      NoticesOfRequeued(s.outbox, a.rows, runId);
    } else if |t.outbox| == |s.outbox| + 1 {
      assert t.outbox[..|s.outbox|] == s.outbox;
    }
  }

  /** A step hands a resume request to the workflow. */
  predicate Resumes(s: Store, a: Action) {
    && a.Deliver? && a.i < |s.outbox| && s.outbox[a.i].eventType.ResumeRequested? && s.outbox[a.i].payloadComplete
    && a.env.configured && a.env.conversationExists && a.env.started.Some?
  }

  /**
   * What the dispatcher records, event by event: a dispatch the transition with the workflow it started
   * and one notice, a resume the workflow that goes on and nothing else, another delivery nothing.
   */
  lemma DeliveryRecords(s: Store, i: nat, env: Surroundings)
    requires i < |s.outbox|
    ensures var a, runId := Deliver(i, env), s.outbox[i].runId;
      var t := Apply(s, a);
      if Dispatches(s, a, runId) then
        && t.events == s.events + [RunEvent(runId, Lifecycle(ACCEPTED, DISPATCHED, env.started.value), s.sequence + 1)]
        && t.outbox == s.outbox + [OutboxEvent(Dispatched, runId, true)]
      else if Resumes(s, a) then
        t == s.(events := s.events + [RunEvent(runId, Resumed(env.started.value), s.sequence + 1)],
                sequence := s.sequence + 1)
      else t == s
  {
  }

  /** Event numbers ascend in the order the events were written, whoever wrote them. */
  lemma {:induction false} EventsAscend(actions: seq<Action>)
    ensures Numbered(Run(actions))
  {
    if actions != [] {
      var s := Run(actions[..|actions| - 1]);
      EventsAscend(actions[..|actions| - 1]);
      StepAppends(s, actions[|actions| - 1]);
      StillNumbered(s, Run(actions));
    }
  }

  ghost predicate Numbered(s: Store) {
    && (forall i, j :: 0 <= i < j < |s.events| ==> s.events[i].engineSequence < s.events[j].engineSequence)
    && (forall i :: 0 <= i < |s.events| ==> s.events[i].engineSequence <= s.sequence)
  }

  /** At most one event more, with the next number. */
  ghost predicate Appends(s: Store, t: Store) {
    || (t.events == s.events && t.sequence == s.sequence)
    || (t.sequence == s.sequence + 1 && exists e :: t.events == s.events + [e] && e.engineSequence == t.sequence)
  }

  lemma StepAppends(s: Store, a: Action)
    ensures Appends(s, Apply(s, a))
  {
  }

  lemma StillNumbered(s: Store, t: Store)
    requires Numbered(s) && Appends(s, t)
    ensures Numbered(t)
  {
  }

  /** What one step does to an existing run: leave it, dispatch it, or make an allowed move. */
  lemma StepMoves(s: Store, a: Action, runId: string)
    requires runId in s.runs
    ensures runId in Apply(s, a).runs
    ensures var before, after := s.runs[runId], Apply(s, a).runs[runId];
      && before.lastEventSequence <= after.lastEventSequence
      && (if Dispatches(s, a, runId)
          then after.state == DISPATCHED && after.version == before.version + 1
               && after.lastEventSequence >= Apply(s, a).sequence == s.sequence + 1
          else after == before || (a == Move(runId, after.state) && Allowed(before.state, after.state)))
  {
  }

  /**
   * Over every run of the system, under any duplication and reordering of deliveries: the
   * dispatcher moves each run from ACCEPTED to DISPATCHED at most once, a run
   * still ACCEPTED has not been moved, and every such move writes exactly one lifecycle event and one
   * `run.dispatched`.
   */
  lemma {:induction false} DispatchedAtMostOnce(actions: seq<Action>, runId: string)
    ensures var s := Run(actions);
      && Lifecycles(s.events, runId) == Notices(s.outbox, runId) == Dispatchings(actions, runId) <= 1
      && (runId !in s.runs || s.runs[runId].state == ACCEPTED ==> Dispatchings(actions, runId) == 0)
  {
    if actions != [] {
      var n := |actions| - 1;
      var s := Run(actions[..n]);
      DispatchedAtMostOnce(actions[..n], runId);
      StepWrites(s, actions[n], runId);
      if runId in s.runs {
        StepMoves(s, actions[n], runId);
      }
    }
  }

  /** `lastEventSequence` and `version` of a run never fall, and its conversation never changes. */
  lemma {:induction false} RunsOnlyAdvance(actions: seq<Action>, n: nat, runId: string)
    requires n <= |actions| && runId in Run(actions[..n]).runs
    ensures runId in Run(actions).runs
    ensures var before, after := Run(actions[..n]).runs[runId], Run(actions).runs[runId];
      before.lastEventSequence <= after.lastEventSequence && before.version <= after.version
      && before.conversationId == after.conversationId
    decreases |actions| - n
  {
    if n == |actions| {
      assert actions[..n] == actions;
    } else {
      assert actions[..n + 1][..n] == actions[..n];
      StepMoves(Run(actions[..n]), actions[n], runId);
      RunsOnlyAdvance(actions, n + 1, runId);
    }
  }

  predicate Terminal(state: RunState) {
    state in {COMPLETED, FAILED, CANCELED, EXPIRED}
  }

  /** A run that has ended is never touched again, by whatever is delivered or tried. */
  lemma {:induction false} EndedRunStays(actions: seq<Action>, n: nat, runId: string)
    requires n <= |actions| && runId in Run(actions[..n]).runs && Terminal(Run(actions[..n]).runs[runId].state)
    ensures runId in Run(actions).runs && Run(actions).runs[runId] == Run(actions[..n]).runs[runId]
    decreases |actions| - n
  {
    if n == |actions| {
      assert actions[..n] == actions;
    } else {
      assert actions[..n + 1][..n] == actions[..n];
      StepMoves(Run(actions[..n]), actions[n], runId);
      EndedRunStays(actions, n + 1, runId);
    }
  }

  /** Marking a run that is not ACCEPTED changes nothing at all. */
  lemma MarkingIsIdempotent(s: Store, runId: string, workflowId: string)
    requires runId in s.runs
    ensures s.runs[runId].state != ACCEPTED ==> Marked(s, runId, workflowId).1 == s
    ensures forall w :: Marked(Marked(s, runId, workflowId).1, runId, w).1 == Marked(s, runId, workflowId).1
  {
  }

  /** A run stuck in ACCEPTED is not lost: the sweep re-emits its event, and delivering that event dispatches it. */
  lemma SweepRecovers(s: Store, rows: seq<string>, cutoff: int, k: nat, env: Surroundings)
    requires k < |rows| <= BATCH && forall id :: id in rows ==> Stuck(s, id, cutoff)
    requires env.configured && env.conversationExists && env.started.Some?
    ensures var swept := Apply(s, Sweep(rows, cutoff));
      && swept.runs == s.runs && swept.events == s.events && rows[k] in s.runs
      && var after := Apply(swept, Deliver(|s.outbox| + k, env)).runs;
         rows[k] in after && after[rows[k]] ==
            s.runs[rows[k]].(state := DISPATCHED, version := s.runs[rows[k]].version + 1,
                               lastEventSequence := Max(s.runs[rows[k]].lastEventSequence, s.sequence + 1))
  {
    assert rows[k] in rows;
  }
}
