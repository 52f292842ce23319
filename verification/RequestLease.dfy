/**
 * The Redis lease of the idempotency interceptor: GET, SET NX, the handler, and SET or DEL
 * as separate steps of any number of interleaved requests.
 */
module RequestLease {
  import opened Wrappers

  /** One request with a usable Idempotency-Key: its Redis key, body fingerprint and response time to live. */
  datatype Request = Request(key: string, fingerprint: string, ttlMs: nat)

  datatype Reply = Reply(status: int, body: string)

  datatype Entry =
    | InFlight(fingerprint: string)
    | Response(fingerprint: string, reply: Reply)

  datatype Stored = Stored(entry: Entry, expiresAt: int)

  datatype Outcome =
    | Executed(reply: Reply)
    | Replayed(reply: Reply)
    | RefusedInFlight
    | RefusedConflict
    | Errored

  /** Where a request stands; `until` is the end of its 600-second lease. */
  datatype Phase =
    | Arrived
    | Missed
    | Running(until: int)
    | Succeeded(until: int, reply: Reply)
    | Failed(until: int)
    | Done(outcome: Outcome)

  const LEASE_MS: nat := 600_000

  datatype State = State(store: map<string, Stored>, phases: seq<Phase>, now: int)

  datatype Action =
    | Get(r: nat)
    | SetNx(r: nat)
    | Finish(r: nat, result: Option<Reply>)
    | Save(r: nat, saved: bool)
    | Del(r: nat, deleted: bool)
    | Tick(ms: nat)

  /** What Redis shows: an expired key is absent. */
  function Visible(store: map<string, Stored>, key: string, now: int): Option<Entry> {
    if key in store && now < store[key].expiresAt then Some(store[key].entry) else None
  }

  function Answer(found: Option<Entry>, fingerprint: string): Phase {
    if found.None? then Missed
    else if found.value.InFlight? then Done(RefusedInFlight)
    else if found.value.fingerprint != fingerprint then Done(RefusedConflict)
    else Done(Replayed(found.value.reply))
  }

  /** One step; an action whose request is in another phase does nothing. */
  function Apply(reqs: seq<Request>, s: State, a: Action): State
    requires |s.phases| == |reqs|
  {
    match a
    case Get(r) =>
      if r < |reqs| && s.phases[r].Arrived? then
        s.(phases := s.phases[r := Answer(Visible(s.store, reqs[r].key, s.now), reqs[r].fingerprint)])
      else s
    case SetNx(r) =>
      if r < |reqs| && s.phases[r].Missed? then
        if Visible(s.store, reqs[r].key, s.now).None? then
          var until := s.now + LEASE_MS;
          s.(store := s.store[reqs[r].key := Stored(InFlight(reqs[r].fingerprint), until)],
             phases := s.phases[r := Running(until)])
        else s.(phases := s.phases[r := Done(RefusedInFlight)])
      else s
    case Finish(r, result) =>
      if r < |reqs| && s.phases[r].Running? then
        var until := s.phases[r].until;
        s.(phases := s.phases[r := if result.Some? then Succeeded(until, result.value) else Failed(until)])
      else s
    case Save(r, saved) =>
      if r < |reqs| && s.phases[r].Succeeded? then
        var p := s.phases[r];
        if saved then
          s.(store := s.store[reqs[r].key := Stored(Response(reqs[r].fingerprint, p.reply), s.now + reqs[r].ttlMs)],
             phases := s.phases[r := Done(Executed(p.reply))])
        else s.(phases := s.phases[r := Failed(p.until)])
      else s
    case Del(r, deleted) =>
      if r < |reqs| && s.phases[r].Failed? then
        s.(store := if deleted then s.store - {reqs[r].key} else s.store, phases := s.phases[r := Done(Errored)])
      else s
    case Tick(ms) => s.(now := s.now + ms)
  }

  /** Redis and the interceptors sharing it. */
  class Interceptors {
    const reqs: seq<Request>
    var store: map<string, Stored>
    var phases: seq<Phase>
    var now: int

    ghost predicate Valid()
      reads this
    {
      |phases| == |reqs|
    }

    ghost function Contents(): State
      reads this
    {
      State(store, phases, now)
    }

    constructor (reqs: seq<Request>, now: int)
      ensures Valid() && this.reqs == reqs && Contents() == Start(reqs, now)
    {
      this.reqs := reqs;
      this.now := now;
      store := map[];
      phases := seq(|reqs|, _ => Arrived);
    }

    /** The lookup: answer from the stored entry, or go on to claim the key. */
    method Lookup(r: nat)
      requires Valid() && r < |reqs| && phases[r].Arrived?
      modifies this
      ensures Valid() && Contents() == Apply(reqs, old(Contents()), Get(r))
    {
      var existing := Visible(store, reqs[r].key, now);
      if existing.Some? {
        if existing.value.InFlight? {
          phases := phases[r := Done(RefusedInFlight)];
          return;
        }
        if existing.value.fingerprint != reqs[r].fingerprint {
          phases := phases[r := Done(RefusedConflict)];
          return;
        }
        phases := phases[r := Done(Replayed(existing.value.reply))];
        return;
      }
      phases := phases[r := Missed];
    }

    /** `SET key ... EX 600 NX`; the handler starts when it succeeds. */
    method Claim(r: nat)
      requires Valid() && r < |reqs| && phases[r].Missed?
      modifies this
      ensures Valid() && Contents() == Apply(reqs, old(Contents()), SetNx(r))
    {
      var claimed := Visible(store, reqs[r].key, now).None?;
      if !claimed {
        phases := phases[r := Done(RefusedInFlight)];
        return;
      }
      store := store[reqs[r].key := Stored(InFlight(reqs[r].fingerprint), now + 600 * 1000)];
      phases := phases[r := Running(now + 600 * 1000)];
    }

    method HandlerEnds(r: nat, result: Option<Reply>)
      requires Valid() && r < |reqs| && phases[r].Running?
      modifies this`phases
      ensures Valid() && Contents() == Apply(reqs, old(Contents()), Finish(r, result))
    {
      if result.Some? {
        phases := phases[r := Succeeded(phases[r].until, result.value)];
      } else {
        phases := phases[r := Failed(phases[r].until)];
      }
    }

    /** `mergeMap`: overwrite the lease with the response; a failed write goes the error way. */
    method StoreResponse(r: nat, saved: bool)
      requires Valid() && r < |reqs| && phases[r].Succeeded?
      modifies this
      ensures Valid() && Contents() == Apply(reqs, old(Contents()), Save(r, saved))
    {
      if saved {
        store := store[reqs[r].key := Stored(Response(reqs[r].fingerprint, phases[r].reply), now + reqs[r].ttlMs)];
        phases := phases[r := Done(Executed(phases[r].reply))];
      } else {
        phases := phases[r := Failed(phases[r].until)];
      }
    }

    /** `catchError`: drop the lease and rethrow. */
    method DropLease(r: nat, deleted: bool)
      requires Valid() && r < |reqs| && phases[r].Failed?
      modifies this
      ensures Valid() && Contents() == Apply(reqs, old(Contents()), Del(r, deleted))
    {
      if deleted {
        store := store - {reqs[r].key};
      }
      phases := phases[r := Done(Errored)];
    }
  }

  // Runs

  function Start(reqs: seq<Request>, now: int): State {
    State(map[], seq(|reqs|, _ => Arrived), now)
  }

  function Run(reqs: seq<Request>, now: int, actions: seq<Action>): (s: State)
    ensures |s.phases| == |reqs|
  {
    if actions == [] then Start(reqs, now)
    else Apply(reqs, Run(reqs, now, actions[..|actions| - 1]), actions[|actions| - 1])
  }

  /** The request holds the lease: its handler runs, or its SET or DEL is still to come. */
  predicate Holds(p: Phase) {
    p.Running? || p.Succeeded? || p.Failed?
  }

  /** No request outlives its lease. */
  ghost predicate Timely(s: State) {
    forall r :: 0 <= r < |s.phases| && Holds(s.phases[r]) ==> s.now < s.phases[r].until
  }

  ghost predicate TimelyRun(reqs: seq<Request>, now: int, actions: seq<Action>) {
    forall n :: 0 <= n <= |actions| ==> Timely(Run(reqs, now, actions[..n]))
  }

  /** Nobody who holds the key of request `r` has outlived its lease. */
  ghost predicate InTime(reqs: seq<Request>, s: State, r: nat)
    requires |s.phases| == |reqs|
  {
    forall q :: 0 <= q < |reqs| && r < |reqs| && reqs[q].key == reqs[r].key && Holds(s.phases[q]) ==>
      s.now < s.phases[q].until
  }

  /** Every SET NX comes before any holder of its key has outlived its lease; handlers may overrun otherwise. */
  ghost predicate ClaimsInTime(reqs: seq<Request>, now: int, actions: seq<Action>) {
    forall n :: 0 <= n < |actions| && actions[n].SetNx? ==> InTime(reqs, Run(reqs, now, actions[..n]), actions[n].r)
  }

  lemma TimelyClaims(reqs: seq<Request>, now: int, actions: seq<Action>)
    requires TimelyRun(reqs, now, actions)
    ensures ClaimsInTime(reqs, now, actions)
  {
    forall n | 0 <= n < |actions| && actions[n].SetNx?
      ensures InTime(reqs, Run(reqs, now, actions[..n]), actions[n].r)
    {
      assert Timely(Run(reqs, now, actions[..n]));
    }
  }

  /** Some request with this key and fingerprint executed and returned this reply. */
  ghost predicate Produced(reqs: seq<Request>, phases: seq<Phase>, key: string, fingerprint: string, reply: Reply)
    requires |phases| == |reqs|
  {
    exists q :: 0 <= q < |reqs| && reqs[q].key == key && reqs[q].fingerprint == fingerprint
      && phases[q] == Done(Executed(reply))
  }

  ghost predicate LeaseHeld(reqs: seq<Request>, s: State)
    requires |s.phases| == |reqs|
  {
    forall r :: 0 <= r < |reqs| && Holds(s.phases[r]) ==>
      reqs[r].key in s.store && s.store[reqs[r].key] == Stored(InFlight(reqs[r].fingerprint), s.phases[r].until)
  }

  ghost predicate Exclusive(reqs: seq<Request>, s: State)
    requires |s.phases| == |reqs|
  {
    forall r, q ::
      0 <= r < |reqs| && 0 <= q < |reqs| && Holds(s.phases[r]) && Holds(s.phases[q]) && reqs[r].key == reqs[q].key ==>
      r == q
  }

  ghost predicate ResponsesProduced(reqs: seq<Request>, s: State)
    requires |s.phases| == |reqs|
  {
    forall k :: k in s.store && s.store[k].entry.Response? ==>
      Produced(reqs, s.phases, k, s.store[k].entry.fingerprint, s.store[k].entry.reply)
  }

  ghost predicate ReplaysProduced(reqs: seq<Request>, s: State)
    requires |s.phases| == |reqs|
  {
    forall r :: 0 <= r < |reqs| && s.phases[r].Done? && s.phases[r].outcome.Replayed? ==>
      Produced(reqs, s.phases, reqs[r].key, reqs[r].fingerprint, s.phases[r].outcome.reply)
  }

  ghost predicate Inv(reqs: seq<Request>, s: State) {
    |s.phases| == |reqs| && LeaseHeld(reqs, s) && Exclusive(reqs, s) && ResponsesProduced(reqs, s)
      && ReplaysProduced(reqs, s)
  }

  /** An executed request stays executed, so what it produced stays produced. */
  lemma ProducedStays(reqs: seq<Request>, s: State, a: Action, key: string, fingerprint: string, reply: Reply)
    requires |s.phases| == |reqs| && Produced(reqs, s.phases, key, fingerprint, reply)
    ensures Produced(reqs, Apply(reqs, s, a).phases, key, fingerprint, reply)
  {
    var q :| 0 <= q < |reqs| && reqs[q].key == key && reqs[q].fingerprint == fingerprint
      && s.phases[q] == Done(Executed(reply));
    assert Apply(reqs, s, a).phases[q] == s.phases[q];
  }

  lemma StepKeepsLeases(reqs: seq<Request>, s: State, a: Action)
    requires Inv(reqs, s) && (a.SetNx? ==> InTime(reqs, s, a.r))
    ensures LeaseHeld(reqs, Apply(reqs, s, a))
  {
  }

  lemma StepKeepsExclusive(reqs: seq<Request>, s: State, a: Action)
    requires Inv(reqs, s) && (a.SetNx? ==> InTime(reqs, s, a.r))
    ensures Exclusive(reqs, Apply(reqs, s, a))
  {
    var t := Apply(reqs, s, a);
    forall r, q | 0 <= r < |reqs| && 0 <= q < |reqs| && Holds(t.phases[r]) && Holds(t.phases[q])
      && reqs[r].key == reqs[q].key
      ensures r == q
    {
      if a.SetNx? {
        assert r != a.r ==> Holds(s.phases[r]);
        assert q != a.r ==> Holds(s.phases[q]);
      } else {
        assert Holds(s.phases[r]) && Holds(s.phases[q]);
      }
    }
  }

  lemma StepKeepsResponses(reqs: seq<Request>, s: State, a: Action)
    requires Inv(reqs, s)
    ensures ResponsesProduced(reqs, Apply(reqs, s, a))
  {
    var t := Apply(reqs, s, a);
    forall k | k in t.store && t.store[k].entry.Response?
      ensures Produced(reqs, t.phases, k, t.store[k].entry.fingerprint, t.store[k].entry.reply)
    {
      var e := t.store[k].entry;
      if k in s.store && s.store[k] == t.store[k] {
        ProducedStays(reqs, s, a, k, e.fingerprint, e.reply);
      } else {
        assert a.Save? && reqs[a.r].key == k && t.phases[a.r] == Done(Executed(e.reply));
      }
    }
  }

  lemma StepKeepsReplays(reqs: seq<Request>, s: State, a: Action)
    requires Inv(reqs, s)
    ensures ReplaysProduced(reqs, Apply(reqs, s, a))
  {
    var t := Apply(reqs, s, a);
    forall r | 0 <= r < |reqs| && t.phases[r].Done? && t.phases[r].outcome.Replayed?
      ensures Produced(reqs, t.phases, reqs[r].key, reqs[r].fingerprint, t.phases[r].outcome.reply)
    {
      ProducedStays(reqs, s, a, reqs[r].key, reqs[r].fingerprint, t.phases[r].outcome.reply);
    }
  }

  lemma {:induction false} RunKeepsInv(reqs: seq<Request>, now: int, actions: seq<Action>)
    requires ClaimsInTime(reqs, now, actions)
    ensures Inv(reqs, Run(reqs, now, actions))
  {
    if actions != [] {
      var n := |actions| - 1;
      var before := actions[..n];
      forall i | 0 <= i < n && before[i].SetNx? ensures InTime(reqs, Run(reqs, now, before[..i]), before[i].r) {
        assert before[..i] == actions[..i];
      }
      RunKeepsInv(reqs, now, before);
      var s := Run(reqs, now, before);
      StepKeepsLeases(reqs, s, actions[n]);
      StepKeepsExclusive(reqs, s, actions[n]);
      StepKeepsResponses(reqs, s, actions[n]);
      StepKeepsReplays(reqs, s, actions[n]);
    }
  }

  /**
   * Over every interleaving in which handlers end within their lease: at most one request
   * per key holds it, none does while a response is stored, and every replay is the reply
   * some request with the same key and fingerprint produced.
   */
  lemma LeaseSafety(reqs: seq<Request>, now: int, actions: seq<Action>)
    requires TimelyRun(reqs, now, actions)
    ensures var s := Run(reqs, now, actions);
      && Exclusive(reqs, s)
      && (forall r :: 0 <= r < |reqs| && Holds(s.phases[r]) ==>
        Visible(s.store, reqs[r].key, s.now) == Some(InFlight(reqs[r].fingerprint)))
      && (forall r :: 0 <= r < |reqs| && s.phases[r].Done? && s.phases[r].outcome.Replayed? ==>
            Produced(reqs, s.phases, reqs[r].key, reqs[r].fingerprint, s.phases[r].outcome.reply))
  {
    TimelyClaims(reqs, now, actions);
    RunKeepsInv(reqs, now, actions);
    assert actions[..|actions|] == actions;
    assert Timely(Run(reqs, now, actions));
  }

  /** A handler starts only where Redis shows nothing under its key: no lease and no response. */
  lemma HandlerStartsAlone(reqs: seq<Request>, now: int, actions: seq<Action>, a: Action, r: nat)
    requires TimelyRun(reqs, now, actions) && r < |reqs|
    requires !Run(reqs, now, actions).phases[r].Running?
    requires Apply(reqs, Run(reqs, now, actions), a).phases[r].Running?
    ensures var s := Run(reqs, now, actions);
      && Visible(s.store, reqs[r].key, s.now).None?
      && forall q :: 0 <= q < |reqs| && reqs[q].key == reqs[r].key ==> !Holds(s.phases[q])
  {
    LeaseSafety(reqs, now, actions);
    var s := Run(reqs, now, actions);
    OnlyClaimStarts(reqs, s, a, r);
    forall q | 0 <= q < |reqs| && reqs[q].key == reqs[r].key ensures !Holds(s.phases[q]) {
      assert Visible(s.store, reqs[q].key, s.now).None?;
    }
  }

  lemma OnlyClaimStarts(reqs: seq<Request>, s: State, a: Action, r: nat)
    requires |s.phases| == |reqs| && r < |reqs|
    requires !s.phases[r].Running? && Apply(reqs, s, a).phases[r].Running?
    ensures a == SetNx(r) && Visible(s.store, reqs[r].key, s.now).None?
  {
  }

  /** While a stored response is alive, every lookup under its key ends without running the handler. */
  lemma StoredResponseAnswers(reqs: seq<Request>, s: State, r: nat)
    requires |s.phases| == |reqs| && r < |reqs| && s.phases[r].Arrived?
    requires Visible(s.store, reqs[r].key, s.now).Some? && Visible(s.store, reqs[r].key, s.now).value.Response?
    ensures var e := Visible(s.store, reqs[r].key, s.now).value;
      Apply(reqs, s, Get(r)).phases[r]
        == Done(if e.fingerprint == reqs[r].fingerprint then Replayed(e.reply) else RefusedConflict)
  {
  }

  /** A live response is never overwritten or deleted: the first execution answers until its time to live ends. */
  lemma LiveResponseStays(reqs: seq<Request>, s: State, a: Action, key: string)
    requires Inv(reqs, s) && Timely(s)
    requires Visible(s.store, key, s.now).Some? && Visible(s.store, key, s.now).value.Response?
    ensures key in Apply(reqs, s, a).store && Apply(reqs, s, a).store[key] == s.store[key]
  {
    var t := Apply(reqs, s, a);
    if a.Save? || a.Del? {
      var r := a.r;
      assert r < |reqs| && Holds(s.phases[r]) ==> reqs[r].key != key;
    }
  }

  /** Failures are not cached: a request whose error path ran leaves the key free for a retry. */
  lemma FailureFreesKey(reqs: seq<Request>, s: State, r: nat)
    requires Inv(reqs, s) && Timely(s) && r < |reqs| && s.phases[r].Failed?
    ensures var t := Apply(reqs, s, Del(r, true));
      && t.phases[r] == Done(Errored)
      && Visible(t.store, reqs[r].key, t.now).None?
      && forall k :: k in s.store && k != reqs[r].key ==> k in t.store && t.store[k] == s.store[k]
  {
  }

  /**
   * A successful request leaves its own reply behind: for its time to live, and no longer, lookups under
   * its fingerprint replay it and lookups under another one are refused.
   */
  lemma SuccessIsServed(reqs: seq<Request>, s: State, r: nat, wait: nat, fingerprint: string)
    requires |s.phases| == |reqs| && r < |reqs| && s.phases[r].Succeeded?
    ensures var t := Apply(reqs, s, Save(r, true));
      && t.phases[r] == Done(Executed(s.phases[r].reply))
      && Answer(Visible(t.store, reqs[r].key, t.now + wait), fingerprint) ==
           if wait >= reqs[r].ttlMs then Missed
           else if fingerprint == reqs[r].fingerprint then Done(Replayed(s.phases[r].reply))
           else Done(RefusedConflict)
  {
  }

  /** While a handler has its key, other requests under it are refused as in flight, at the lookup and at the claim. */
  lemma HolderRefusesOthers(reqs: seq<Request>, now: int, actions: seq<Action>, q: nat, r: nat)
    requires ClaimsInTime(reqs, now, actions) && q < |reqs| && r < |reqs| && reqs[q].key == reqs[r].key
    requires var s := Run(reqs, now, actions); Holds(s.phases[q]) && s.now < s.phases[q].until
    ensures var s := Run(reqs, now, actions);
      && (s.phases[r].Arrived? ==> Apply(reqs, s, Get(r)).phases[r] == Done(RefusedInFlight))
      && (s.phases[r].Missed? ==> Apply(reqs, s, SetNx(r)).phases[r] == Done(RefusedInFlight))
  {
    RunKeepsInv(reqs, now, actions);
  }

  /**
   * When a second handler can start: as long as every SET NX came in time, at most one request
   * per key holds it, and the next SET NX starts a handler beside the holder exactly when the
   * holder has outlived its lease.
   */
  lemma SecondStartsIff(reqs: seq<Request>, now: int, actions: seq<Action>, r: nat, q: nat)
    requires ClaimsInTime(reqs, now, actions) && r < |reqs| && q < |reqs| && reqs[r].key == reqs[q].key
    requires var s := Run(reqs, now, actions); s.phases[r].Missed? && Holds(s.phases[q])
    ensures var s := Run(reqs, now, actions);
      && Exclusive(reqs, s)
      && (Apply(reqs, s, SetNx(r)).phases[r].Running? <==> s.phases[q].until <= s.now)
  {
    RunKeepsInv(reqs, now, actions);
  }

  /**
   * After that, the DEL of the handler that overran frees the key of the one that took over, so a
   * third starts beside it.
   */
  lemma StaleDeleteFrees(reqs: seq<Request>, s: State, p: nat, q: nat, r: nat)
    requires |s.phases| == |reqs| && p < |reqs| && q < |reqs| && r < |reqs|
    requires reqs[p].key == reqs[q].key == reqs[r].key
    requires s.phases[p].Failed? && s.phases[q].Running? && s.phases[r].Missed?
    ensures var t := Apply(reqs, Apply(reqs, s, Del(p, true)), SetNx(r));
      t.phases[q].Running? && t.phases[r].Running?
  {
  }

  /** A handler that outlives its lease lets a second one start under the same key. */
  lemma OverrunBreaksExclusion()
    ensures var reqs := [Request("k", "f", 1), Request("k", "f", 1)];
      var s := Run(reqs, 0, [Get(0), SetNx(0), Tick(LEASE_MS), Get(1), SetNx(1)]);
      s.phases[0].Running? && s.phases[1].Running?
  {
    var reqs := [Request("k", "f", 1), Request("k", "f", 1)];
    var actions := [Get(0), SetNx(0), Tick(LEASE_MS), Get(1), SetNx(1)];
    assert actions[..4] == [Get(0), SetNx(0), Tick(LEASE_MS), Get(1)];
    assert actions[..4][..3] == [Get(0), SetNx(0), Tick(LEASE_MS)];
    assert actions[..4][..3][..2] == [Get(0), SetNx(0)];
    assert actions[..4][..3][..2][..1] == [Get(0)];
    assert actions[..4][..3][..2][..1][..0] == [];
    var s1 := Run(reqs, 0, [Get(0)]);
    assert s1 == Apply(reqs, Start(reqs, 0), Get(0));
    var s2 := Run(reqs, 0, [Get(0), SetNx(0)]);
    assert s2 == Apply(reqs, s1, SetNx(0)) && s2.phases[0] == Running(LEASE_MS);
    var s3 := Run(reqs, 0, [Get(0), SetNx(0), Tick(LEASE_MS)]);
    assert s3 == Apply(reqs, s2, Tick(LEASE_MS));
    var s4 := Run(reqs, 0, actions[..4]);
    assert s4 == Apply(reqs, s3, Get(1)) && s4.phases[1] == Missed;
  }
}
