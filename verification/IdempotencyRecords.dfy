/**
 * The database tier of idempotency: claiming, completing, failing and purging the record
 * of a key, what holds over every run in which no key is claimed past an overdue owner, and
 * what exactly such a claim costs.
 */
module IdempotencyRecords {
  import opened Wrappers

  /** The primary key of a record. */
  datatype Scope = Scope(organizationId: string, principalId: string, endpointFamily: string, idempotencyKey: string)

  datatype Status = InProgress | Succeeded | FailedRetryable | FailedFinal

  datatype Record = Record(requestHash: string, status: Status, resourceRef: Option<string>, expiresAt: int)

  datatype Claim =
    | Claimed
    | Replay(response: Option<string>)
    | HashConflict
    | FinalConflict
    | InFlight

  function Expired(r: Record, now: int): bool {
    r.expiresAt < now
  }

  /** What `claimIdempotency` answers. */
  function ClaimAnswer(rows: map<Scope, Record>, scope: Scope, hash: string, now: int): Claim {
    if scope !in rows then Claimed
    else
      var row := rows[scope];
      if row.requestHash != hash then HashConflict
      else
        match row.status
        case Succeeded => Replay(row.resourceRef)
        case FailedRetryable => Claimed
        case InProgress => if Expired(row, now) then Claimed else InFlight
        case FailedFinal => FinalConflict
  }

  /** The table after `claimIdempotency`: a claim inserts or restarts the record, everything else leaves it. */
  function AfterClaim(rows: map<Scope, Record>, scope: Scope, hash: string, now: int, expiresAt: int)
    : map<Scope, Record>
  {
    if !ClaimAnswer(rows, scope, hash, now).Claimed? then rows
    else if scope !in rows then rows[scope := Record(hash, InProgress, None, expiresAt)]
    else rows[scope := rows[scope].(status := InProgress, expiresAt := expiresAt)]
  }

  function AfterComplete(rows: map<Scope, Record>, scope: Scope, response: string): map<Scope, Record> {
    if scope in rows then rows[scope := rows[scope].(status := Succeeded, resourceRef := Some(response))] else rows
  }

  function AfterFail(rows: map<Scope, Record>, scope: Scope, retryable: bool): map<Scope, Record> {
    if scope in rows then rows[scope := rows[scope].(status := if retryable then FailedRetryable else FailedFinal)]
    else rows
  }

  function AfterPurge(rows: map<Scope, Record>, now: int): map<Scope, Record> {
    map k | k in rows && !Expired(rows[k], now) :: rows[k]
  }

  /** The table `idempotency_records`; each method is one transaction. */
  class RecordTable {
    var rows: map<Scope, Record>

    constructor ()
      ensures rows == map[]
    {
      rows := map[];
    }

    /** A conflicting row may be `hidden` from the caller by row-level security; it refuses like one in flight. */
    method ClaimIdempotency(scope: Scope, hash: string, ttlSeconds: nat, now: int, hidden: bool) returns (answer: Claim)
      modifies this
      ensures hidden && scope in old(rows) ==> answer == InFlight && rows == old(rows)
      ensures !hidden || scope !in old(rows) ==>
        && answer == ClaimAnswer(old(rows), scope, hash, now)
        && rows == AfterClaim(old(rows), scope, hash, now, now + 1000 * ttlSeconds)
    {
      var expiresAt := now + ttlSeconds * 1000;
      if scope !in rows {
        rows := rows[scope := Record(hash, InProgress, None, expiresAt)];
        return Claimed;
      }
      if hidden {
        return InFlight;
      }
      var row := rows[scope];
      if row.requestHash != hash {
        return HashConflict;
      }
      if row.status == Succeeded {
        return Replay(row.resourceRef);
      }
      var expired := row.expiresAt < now;
      if row.status == FailedRetryable || (row.status == InProgress && expired) {
        rows := rows[scope := row.(status := InProgress, expiresAt := expiresAt)];
        return Claimed;
      }
      if row.status == FailedFinal {
        return FinalConflict;
      }
      return InFlight;
    }

    method CompleteIdempotency(scope: Scope, response: string)
      modifies this
      ensures rows == AfterComplete(old(rows), scope, response)
    {
      if scope in rows {
        rows := rows[scope := rows[scope].(status := Succeeded, resourceRef := Some(response))];
      }
    }

    method FailIdempotency(scope: Scope, retryable: bool)
      modifies this
      ensures rows == AfterFail(old(rows), scope, retryable)
    {
      if scope in rows {
        rows := rows[scope := rows[scope].(status := if retryable then FailedRetryable else FailedFinal)];
      }
    }

    method PurgeExpired(now: int) returns (purged: nat)
      modifies this
      ensures rows == AfterPurge(old(rows), now)
      ensures purged == |old(rows)| - |rows|
    {
      var dead := set k | k in rows && rows[k].expiresAt < now;
      assert rows.Keys == (rows.Keys - dead) + dead;
      purged := |dead|;
      rows := rows - dead;
      assert rows.Keys == old(rows).Keys - dead;
    }
  }

  // Runs

  /** A caller whose claim succeeded and who has not yet recorded an outcome or been lost. */
  datatype Owner = Owner(scope: Scope, hash: string, until: int, live: bool)

  /** `done` lists, per key, the completions recorded since its record was inserted. */
  datatype State = State(rows: map<Scope, Record>, owners: seq<Owner>, done: map<Scope, seq<string>>, now: int)

  datatype Action =
    | Acquire(scope: Scope, hash: string, ttlMs: nat)
    | Complete(o: nat, response: string)
    | Fail(o: nat, retryable: bool)
    | Lose(o: nat)
    | Purge
    | Tick(ms: nat)

  function Completions(s: State, scope: Scope): seq<string> {
    if scope in s.done then s.done[scope] else []
  }

  function Retire(owners: seq<Owner>, o: nat): seq<Owner>
    requires o < |owners|
  {
    owners[o := owners[o].(live := false)]
  }

  function Apply(s: State, a: Action): State {
    match a
    case Acquire(scope, hash, ttlMs) =>
      var until := s.now + ttlMs;
      var rows := AfterClaim(s.rows, scope, hash, s.now, until);
      if ClaimAnswer(s.rows, scope, hash, s.now).Claimed? then
        s.(rows := rows, owners := s.owners + [Owner(scope, hash, until, true)],
           done := if scope in s.rows then s.done else s.done[scope := []])
      else s.(rows := rows)
    case Complete(o, response) =>
      if o < |s.owners| && s.owners[o].live then
        var scope := s.owners[o].scope;
        s.(rows := AfterComplete(s.rows, scope, response), owners := Retire(s.owners, o),
           done := s.done[scope := Completions(s, scope) + [response]])
      else s
    case Fail(o, retryable) =>
      if o < |s.owners| && s.owners[o].live then
        s.(rows := AfterFail(s.rows, s.owners[o].scope, retryable), owners := Retire(s.owners, o))
      else s
    case Lose(o) => if o < |s.owners| then s.(owners := Retire(s.owners, o)) else s
    case Purge => s.(rows := AfterPurge(s.rows, s.now))
    case Tick(ms) => s.(now := s.now + ms)
  }

  function Run(now: int, actions: seq<Action>): State {
    if actions == [] then State(map[], [], map[], now)
    else Apply(Run(now, actions[..|actions| - 1]), actions[|actions| - 1])
  }

  /** The claim of a live owner has run out. */
  predicate Overdue(s: State, o: nat)
    requires o < |s.owners|
  {
    s.owners[o].live && s.owners[o].until < s.now
  }

  /** No live owner of the key is overdue. */
  ghost predicate InTime(s: State, scope: Scope) {
    forall o :: 0 <= o < |s.owners| && s.owners[o].scope == scope ==> !Overdue(s, o)
  }

  /** Every claim comes while no live owner of its key is overdue; owners may overrun otherwise. */
  ghost predicate ClaimsInTime(now: int, actions: seq<Action>) {
    forall n :: 0 <= n < |actions| ==> ClaimInTime(now, actions, n)
  }

  ghost predicate ClaimInTime(now: int, actions: seq<Action>, n: nat)
    requires n < |actions|
  {
    actions[n].Acquire? ==> InTime(Run(now, actions[..n]), actions[n].scope)
  }

  /** A live owner's record is in progress for exactly its claim, unless it was purged after that had run out. */
  ghost predicate OwnersHold(s: State) {
    forall o :: 0 <= o < |s.owners| && s.owners[o].live ==> OwnerHolds(s, o)
  }

  ghost predicate OwnerHolds(s: State, o: nat)
    requires o < |s.owners|
  {
    var w := s.owners[o];
    if w.scope in s.rows
    then s.rows[w.scope].requestHash == w.hash && s.rows[w.scope].status == InProgress
         && s.rows[w.scope].expiresAt == w.until
    else w.until < s.now
  }

  predicate SameClaim(a: Owner, b: Owner) {
    a.live && b.live && a.scope == b.scope
  }

  ghost predicate OneOwner(s: State) {
    forall o, p :: 0 <= o < |s.owners| && 0 <= p < |s.owners| && SameClaim(s.owners[o], s.owners[p]) ==> o == p
  }

  /** A record has succeeded exactly when one completion is on file, and it stores that response. */
  ghost predicate OutcomesMatch(s: State) {
    forall k :: k in s.rows ==>
      if s.rows[k].status == Succeeded
      then s.rows[k].resourceRef.Some? && Completions(s, k) == [s.rows[k].resourceRef.value]
      else Completions(s, k) == []
  }

  ghost predicate Inv(s: State) {
    OwnersHold(s) && OneOwner(s) && OutcomesMatch(s)
  }

  lemma StepKeepsOwners(s: State, a: Action)
    requires Inv(s) && (a.Acquire? ==> InTime(s, a.scope))
    ensures OwnersHold(Apply(s, a))
  {
  }

  lemma StepKeepsOneOwner(s: State, a: Action)
    requires Inv(s) && (a.Acquire? ==> InTime(s, a.scope))
    ensures OneOwner(Apply(s, a))
  {
  }

  lemma StepKeepsOutcomes(s: State, a: Action)
    requires Inv(s) && (a.Acquire? ==> InTime(s, a.scope))
    ensures OutcomesMatch(Apply(s, a))
  {
  }

  lemma {:induction false} RunKeepsInv(now: int, actions: seq<Action>)
    requires ClaimsInTime(now, actions)
    ensures Inv(Run(now, actions))
  {
    if actions != [] {
      var n := |actions| - 1;
      var before := actions[..n];
      forall i | 0 <= i < n ensures ClaimInTime(now, before, i) {
        assert before[..i] == actions[..i] && ClaimInTime(now, actions, i);
      }
      assert ClaimInTime(now, actions, n);
      RunKeepsInv(now, before);
      StepKeepsOwners(Run(now, before), actions[n]);
      StepKeepsOneOwner(Run(now, before), actions[n]);
      StepKeepsOutcomes(Run(now, before), actions[n]);
    }
  }

  /**
   * Over every run whose claims come in time: a key has at most one live owner, which blocks
   * every other claim until its own runs out, at most one completion is on file per record,
   * and a record that has one replays exactly it.
   */
  lemma RecordSafety(now: int, actions: seq<Action>)
    requires ClaimsInTime(now, actions)
    ensures var s := Run(now, actions);
      && OneOwner(s)
      && (forall o, hash :: 0 <= o < |s.owners| && s.owners[o].live && s.now <= s.owners[o].until ==>
            ClaimAnswer(s.rows, s.owners[o].scope, hash, s.now)
            == if hash == s.owners[o].hash then InFlight else HashConflict)
      && (forall k :: k in s.rows ==> |Completions(s, k)| <= 1)
      && (forall k :: k in s.rows && |Completions(s, k)| == 1 ==>
            ClaimAnswer(s.rows, k, s.rows[k].requestHash, s.now) == Replay(Some(Completions(s, k)[0])))
  {
    RunKeepsInv(now, actions);
    var s := Run(now, actions);
    forall o, hash | 0 <= o < |s.owners| && s.owners[o].live && s.now <= s.owners[o].until
      ensures ClaimAnswer(s.rows, s.owners[o].scope, hash, s.now)
              == if hash == s.owners[o].hash then InFlight else HashConflict
    {
      assert OwnerHolds(s, o);
    }
  }

  /** The request hash of a record never changes, whatever the callers do. */
  lemma HashIsFixed(s: State, a: Action, scope: Scope)
    requires scope in s.rows && scope in Apply(s, a).rows
    ensures Apply(s, a).rows[scope].requestHash == s.rows[scope].requestHash
  {
  }

  /** Under another hash a key is refused without touching the record. */
  lemma OtherHashIsRefused(s: State, scope: Scope, hash: string, ttlMs: nat)
    requires scope in s.rows && s.rows[scope].requestHash != hash
    ensures ClaimAnswer(s.rows, scope, hash, s.now) == HashConflict
    ensures Apply(s, Acquire(scope, hash, ttlMs)) == s
  {
  }

  /** A succeeded record survives every step but a sweep that finds it expired. */
  lemma SucceededStays(s: State, a: Action, scope: Scope)
    requires Inv(s) && scope in s.rows && s.rows[scope].status == Succeeded
    ensures if a.Purge? && Expired(s.rows[scope], s.now) then scope !in Apply(s, a).rows
      else scope in Apply(s, a).rows && Apply(s, a).rows[scope] == s.rows[scope]
  {
  }

  ghost predicate SweptPast(now: int, actions: seq<Action>, m: nat, expiresAt: int)
    requires m < |actions|
  {
    actions[m].Purge? && expiresAt < Run(now, actions[..m]).now
  }

  /** No sweep from step n to step k came later than this expiry. */
  ghost predicate Unswept(now: int, actions: seq<Action>, n: nat, k: nat, expiresAt: int)
    requires k <= |actions|
  {
    forall m :: n <= m < k ==> !SweptPast(now, actions, m, expiresAt)
  }

  lemma RunSnoc(now: int, actions: seq<Action>, n: nat)
    requires n < |actions|
    ensures Run(now, actions[..n + 1]) == Apply(Run(now, actions[..n]), actions[n])
  {
    assert actions[..n + 1][..n] == actions[..n];
  }

  /**
   * Once a record has succeeded, every same-hash claim replays that response, however the run goes on and
   * even after the record has expired, until a sweep finds it expired.
   */
  lemma {:induction false} ReplaysUntilSwept(now: int, actions: seq<Action>, n: nat, k: nat, scope: Scope)
    requires ClaimsInTime(now, actions) && n <= k <= |actions|
    requires scope in Run(now, actions[..n]).rows
    requires Run(now, actions[..n]).rows[scope].status == Succeeded
    requires Unswept(now, actions, n, k, Run(now, actions[..n]).rows[scope].expiresAt)
    ensures var row := Run(now, actions[..n]).rows[scope]; var s := Run(now, actions[..k]);
      scope in s.rows && s.rows[scope] == row
      && ClaimAnswer(s.rows, scope, row.requestHash, s.now) == Replay(row.resourceRef) && row.resourceRef.Some?
  {
    if k == n {
      RunPrefixInv(now, actions, n);
    } else {
      ReplaysUntilSwept(now, actions, n, k - 1, scope);
      assert !SweptPast(now, actions, k - 1, Run(now, actions[..n]).rows[scope].expiresAt);
      RunPrefixInv(now, actions, k - 1);
      SucceededStays(Run(now, actions[..k - 1]), actions[k - 1], scope);
      RunSnoc(now, actions, k - 1);
    }
  }

  lemma RunPrefixInv(now: int, actions: seq<Action>, n: nat)
    requires ClaimsInTime(now, actions) && n <= |actions|
    ensures ClaimsInTime(now, actions[..n]) && Inv(Run(now, actions[..n]))
  {
    forall i | 0 <= i < n ensures ClaimInTime(now, actions[..n], i) {
      assert actions[..n][..i] == actions[..i] && ClaimInTime(now, actions, i);
    }
    RunKeepsInv(now, actions[..n]);
  }

  /** A lost owner does not block its key forever: the claim opens again exactly when it has expired. */
  lemma LostClaimReopens(s: State, o: nat, wait: nat)
    requires Inv(s) && o < |s.owners| && s.owners[o].live
    ensures var t := Apply(s, Lose(o));
      ClaimAnswer(t.rows, s.owners[o].scope, s.owners[o].hash, t.now + wait)
        == if s.owners[o].until < t.now + wait then Claimed else InFlight
  {
    assert OwnerHolds(s, o);
  }

  // After a failure

  ghost predicate NoOwner(s: State, scope: Scope) {
    forall o :: 0 <= o < |s.owners| && s.owners[o].scope == scope ==> !s.owners[o].live
  }

  /** Step n: a live owner fails the record it still has. */
  ghost predicate FailsAt(now: int, actions: seq<Action>, n: nat, o: nat, retryable: bool) {
    n < |actions| && actions[n] == Fail(o, retryable) &&
    var s := Run(now, actions[..n]);
    o < |s.owners| && s.owners[o].live && s.owners[o].scope in s.rows
  }

  ghost predicate GrantedAt(now: int, actions: seq<Action>, m: nat, scope: Scope)
    requires m < |actions|
  {
    var s := Run(now, actions[..m]);
    actions[m].Acquire? && actions[m].scope == scope && ClaimAnswer(s.rows, scope, actions[m].hash, s.now) == Claimed
  }

  /** No claim of the key was granted between steps n and k. */
  ghost predicate Ungranted(now: int, actions: seq<Action>, n: nat, k: nat, scope: Scope)
    requires k <= |actions|
  {
    forall m :: n < m < k ==> !GrantedAt(now, actions, m, scope)
  }

  /** The record is this failed one of the owner, and nobody works under its key. */
  ghost predicate Rests(s: State, w: Owner, retryable: bool) {
    && w.scope in s.rows && NoOwner(s, w.scope)
    && s.rows[w.scope].requestHash == w.hash && s.rows[w.scope].expiresAt == w.until
    && s.rows[w.scope].status == if retryable then FailedRetryable else FailedFinal
  }

  ghost predicate Gone(s: State, w: Owner) {
    w.scope !in s.rows && NoOwner(s, w.scope)
  }

  lemma FailureRests(s: State, o: nat, retryable: bool)
    requires Inv(s) && o < |s.owners| && s.owners[o].live && s.owners[o].scope in s.rows
    ensures Rests(Apply(s, Fail(o, retryable)), s.owners[o], retryable)
  {
    var w, t := s.owners[o], Apply(s, Fail(o, retryable));
    assert OwnerHolds(s, o);
    forall p | 0 <= p < |t.owners| && t.owners[p].scope == w.scope ensures !t.owners[p].live {
      assert s.owners[p].live ==> SameClaim(s.owners[o], s.owners[p]);
    }
  }

  /** While nobody works under the key, only a granted claim or a sweep after its expiry touches the record. */
  lemma RestsOn(s: State, a: Action, w: Owner, retryable: bool)
    requires Rests(s, w, retryable) && !(a.Purge? && w.until < s.now)
    requires a.Acquire? && a.scope == w.scope ==> ClaimAnswer(s.rows, a.scope, a.hash, s.now) != Claimed
    ensures Rests(Apply(s, a), w, retryable)
  {
  }

  lemma ClosedOn(s: State, a: Action, w: Owner, retryable: bool)
    requires Rests(s, w, retryable) || Gone(s, w)
    requires a.Acquire? && a.scope == w.scope ==> ClaimAnswer(s.rows, a.scope, a.hash, s.now) != Claimed
    ensures Rests(Apply(s, a), w, retryable) || Gone(Apply(s, a), w)
  {
  }

  lemma FailsIntoRest(now: int, actions: seq<Action>, n: nat, o: nat, retryable: bool)
    requires ClaimsInTime(now, actions) && FailsAt(now, actions, n, o, retryable)
    ensures Rests(Run(now, actions[..n + 1]), Run(now, actions[..n]).owners[o], retryable)
  {
    RunPrefixInv(now, actions, n);
    FailureRests(Run(now, actions[..n]), o, retryable);
    RunSnoc(now, actions, n);
  }

  lemma RestsNext(now: int, actions: seq<Action>, k: nat, w: Owner, retryable: bool)
    requires k < |actions| && !GrantedAt(now, actions, k, w.scope) && !SweptPast(now, actions, k, w.until)
    requires Rests(Run(now, actions[..k]), w, retryable)
    ensures Rests(Run(now, actions[..k + 1]), w, retryable)
  {
    RestsOn(Run(now, actions[..k]), actions[k], w, retryable);
    RunSnoc(now, actions, k);
  }

  lemma ClosedNext(now: int, actions: seq<Action>, k: nat, w: Owner, retryable: bool)
    requires k < |actions| && !GrantedAt(now, actions, k, w.scope)
    requires Rests(Run(now, actions[..k]), w, retryable) || Gone(Run(now, actions[..k]), w)
    ensures Rests(Run(now, actions[..k + 1]), w, retryable) || Gone(Run(now, actions[..k + 1]), w)
  {
    ClosedOn(Run(now, actions[..k]), actions[k], w, retryable);
    RunSnoc(now, actions, k);
  }

  /** The failed record stays until a claim is granted or a sweep finds it expired. */
  lemma {:induction false} FailureStays(now: int, actions: seq<Action>, n: nat, w: Owner, retryable: bool, k: nat)
    requires n < k <= |actions| && Rests(Run(now, actions[..n + 1]), w, retryable)
    requires Ungranted(now, actions, n, k, w.scope) && Unswept(now, actions, n, k, w.until)
    ensures Rests(Run(now, actions[..k]), w, retryable)
  {
    if k > n + 1 {
      FailureStays(now, actions, n, w, retryable, k - 1);
      assert !GrantedAt(now, actions, k - 1, w.scope) && !SweptPast(now, actions, k - 1, w.until);
      RestsNext(now, actions, k - 1, w, retryable);
    }
  }

  /** Swept or not, nobody works under the key until a claim is granted. */
  lemma {:induction false} FailureLeaves(now: int, actions: seq<Action>, n: nat, w: Owner, retryable: bool, k: nat)
    requires n < k <= |actions| && Rests(Run(now, actions[..n + 1]), w, retryable)
    requires Ungranted(now, actions, n, k, w.scope)
    ensures Rests(Run(now, actions[..k]), w, retryable) || Gone(Run(now, actions[..k]), w)
  {
    if k > n + 1 {
      FailureLeaves(now, actions, n, w, retryable, k - 1);
      assert !GrantedAt(now, actions, k - 1, w.scope);
      ClosedNext(now, actions, k - 1, w, retryable);
    }
  }

  lemma FinalRefuses(s: State, w: Owner)
    requires Rests(s, w, false)
    ensures forall hash ::
      ClaimAnswer(s.rows, w.scope, hash, s.now) == if hash == w.hash then FinalConflict else HashConflict
  {
  }

  /**
   * A final failure is final: however the run goes on, until a sweep finds the record expired every
   * claim with its hash is refused with the conflict, no claim of the key is granted and nobody owns it.
   */
  lemma FinalFailureIsFinal(now: int, actions: seq<Action>, n: nat, o: nat, k: nat)
    requires ClaimsInTime(now, actions) && FailsAt(now, actions, n, o, false) && n < k <= |actions|
    requires Unswept(now, actions, n, k, Run(now, actions[..n]).owners[o].until)
    ensures var w, s := Run(now, actions[..n]).owners[o], Run(now, actions[..k]);
      && w.scope in s.rows && NoOwner(s, w.scope) && Ungranted(now, actions, n, k, w.scope)
      && forall hash ::
           ClaimAnswer(s.rows, w.scope, hash, s.now) == if hash == w.hash then FinalConflict else HashConflict
  {
    var w := Run(now, actions[..n]).owners[o];
    FailsIntoRest(now, actions, n, o, false);
    FinalUngranted(now, actions, n, w, k);
    FailureStays(now, actions, n, w, false, k);
    FinalRefuses(Run(now, actions[..k]), w);
  }

  lemma {:induction false} FinalUngranted(now: int, actions: seq<Action>, n: nat, w: Owner, k: nat)
    requires n < k <= |actions| && Rests(Run(now, actions[..n + 1]), w, false)
    requires Unswept(now, actions, n, k, w.until)
    ensures Ungranted(now, actions, n, k, w.scope)
  {
    if k > n + 1 {
      FinalUngranted(now, actions, n, w, k - 1);
      FailureStays(now, actions, n, w, false, k - 1);
      FinalRefuses(Run(now, actions[..k - 1]), w);
      assert !GrantedAt(now, actions, k - 1, w.scope);
    }
  }

  /**
   * A retryable failure reopens the key: however the run goes on without a claim of it being granted,
   * the next claim with its hash is, and makes its caller the only owner.
   */
  lemma RetryableFailureReopens(now: int, actions: seq<Action>, n: nat, o: nat, k: nat, ttlMs: nat)
    requires ClaimsInTime(now, actions) && FailsAt(now, actions, n, o, true) && n < k <= |actions|
    requires Ungranted(now, actions, n, k, Run(now, actions[..n]).owners[o].scope)
    ensures var w, s := Run(now, actions[..n]).owners[o], Run(now, actions[..k]);
      && ClaimAnswer(s.rows, w.scope, w.hash, s.now) == Claimed
      && OnlyOwner(Apply(s, Acquire(w.scope, w.hash, ttlMs)), Owner(w.scope, w.hash, s.now + ttlMs, true))
  {
    FailsIntoRest(now, actions, n, o, true);
    FailureLeaves(now, actions, n, Run(now, actions[..n]).owners[o], true, k);
    ReopenedClaim(Run(now, actions[..k]), Run(now, actions[..n]).owners[o], ttlMs);
  }

  ghost predicate OnlyOwner(s: State, w: Owner) {
    && s.owners != [] && s.owners[|s.owners| - 1] == w
    && forall o :: 0 <= o < |s.owners| - 1 && s.owners[o].scope == w.scope ==> !s.owners[o].live
  }

  lemma ReopenedClaim(s: State, w: Owner, ttlMs: nat)
    requires Rests(s, w, true) || Gone(s, w)
    ensures ClaimAnswer(s.rows, w.scope, w.hash, s.now) == Claimed
    ensures OnlyOwner(Apply(s, Acquire(w.scope, w.hash, ttlMs)), Owner(w.scope, w.hash, s.now + ttlMs, true))
  {
  }

  // Claims that come too late for the owner

  /** The sweep ran while the owner was overdue. */
  ghost predicate Swept(now: int, actions: seq<Action>, o: nat, n: nat)
    requires n < |actions|
  {
    var s := Run(now, actions[..n]);
    actions[n].Purge? && o < |s.owners| && Overdue(s, o)
  }

  /** Owners stay, in their order, and none comes back to life. */
  ghost predicate Outlast(before: seq<Owner>, after: seq<Owner>) {
    && |before| <= |after|
    && forall o :: 0 <= o < |before| ==>
         before[o].(live := false) == after[o].(live := false) && (after[o].live ==> before[o].live)
  }

  lemma StepOutlasts(s: State, a: Action)
    ensures Outlast(s.owners, Apply(s, a).owners)
  {
  }

  lemma OutlastTransitive(a: seq<Owner>, b: seq<Owner>, c: seq<Owner>)
    requires Outlast(a, b) && Outlast(b, c)
    ensures Outlast(a, c)
  {
  }

  lemma {:induction false} OwnersStay(now: int, actions: seq<Action>, n: nat)
    requires n <= |actions|
    ensures Outlast(Run(now, actions[..n]).owners, Run(now, actions).owners)
    decreases |actions| - n
  {
    if n == |actions| {
      assert actions[..n] == actions;
    } else {
      OwnersStay(now, actions, n + 1);
      assert actions[..n + 1][..n] == actions[..n];
      StepOutlasts(Run(now, actions[..n]), actions[n]);
      OutlastTransitive(Run(now, actions[..n]).owners, Run(now, actions[..n + 1]).owners, Run(now, actions).owners);
    }
  }

  /** A live owner has lost its record exactly when the sweep ran while it was overdue. */
  lemma {:induction false} RecordGoneIff(now: int, actions: seq<Action>, o: nat)
    requires ClaimsInTime(now, actions) && o < |Run(now, actions).owners| && Run(now, actions).owners[o].live
    ensures Run(now, actions).owners[o].scope !in Run(now, actions).rows
      <==> exists n :: 0 <= n < |actions| && Swept(now, actions, o, n)
  {
    if actions != [] {
      var n := |actions| - 1;
      var s := Run(now, actions[..n]);
      RunPrefixInv(now, actions, n);
      OwnersStay(now, actions, n);
      if o < |s.owners| {
        RecordGoneIff(now, actions[..n], o);
        assert ClaimInTime(now, actions, n);
        GoneStep(s, actions[n], o);
        SweptSnoc(now, actions, o);
      } else {
        NoOwnerNotSwept(now, actions, o);
        FreshOwnerHasRecord(s, actions[n], o);
      }
    }
  }

  lemma GoneStep(s: State, a: Action, o: nat)
    requires Inv(s) && (a.Acquire? ==> InTime(s, a.scope)) && o < |s.owners|
    requires var t := Apply(s, a); o < |t.owners| && t.owners[o].live
    ensures s.owners[o].live && Apply(s, a).owners[o] == s.owners[o]
    ensures s.owners[o].scope !in Apply(s, a).rows
      <==> s.owners[o].scope !in s.rows || (a.Purge? && Overdue(s, o))
  {
    assert OwnerHolds(s, o);
  }

  lemma SweptSnoc(now: int, actions: seq<Action>, o: nat)
    requires actions != []
    ensures var last := |actions| - 1;
      (exists n :: 0 <= n < |actions| && Swept(now, actions, o, n)) <==>
      (exists n :: 0 <= n < last && Swept(now, actions[..last], o, n)) || Swept(now, actions, o, last)
  {
    var last := |actions| - 1;
    forall n | 0 <= n < last ensures Swept(now, actions, o, n) <==> Swept(now, actions[..last], o, n) {
      assert actions[..last][..n] == actions[..n];
    }
  }

  lemma FreshOwnerHasRecord(s: State, a: Action, o: nat)
    requires |s.owners| <= o < |Apply(s, a).owners|
    ensures Apply(s, a).owners[o].scope in Apply(s, a).rows
  {
  }

  lemma NoOwnerNotSwept(now: int, actions: seq<Action>, o: nat)
    requires actions != [] && |Run(now, actions[..|actions| - 1]).owners| <= o
    ensures forall n :: 0 <= n < |actions| ==> !Swept(now, actions, o, n)
  {
    forall n | 0 <= n < |actions| ensures !Swept(now, actions, o, n) {
      OwnersBefore(now, actions, n);
    }
  }

  lemma OwnersBefore(now: int, actions: seq<Action>, n: nat)
    requires n < |actions|
    ensures |Run(now, actions[..n]).owners| <= |Run(now, actions[..|actions| - 1]).owners|
  {
    OwnersStay(now, actions[..|actions| - 1], n);
    assert actions[..|actions| - 1][..n] == actions[..n];
  }

  /**
   * When a second owner can arise: as long as every claim came in time, the next one makes a
   * second owner of the key exactly when the owner is overdue and the claim carries the same
   * hash, or any hash once the sweep took the record.
   */
  lemma SecondOwnerIff(now: int, actions: seq<Action>, o: nat, hash: string, ttlMs: nat)
    requires ClaimsInTime(now, actions) && o < |Run(now, actions).owners| && Run(now, actions).owners[o].live
    ensures var s := Run(now, actions);
      var t := Apply(s, Acquire(s.owners[o].scope, hash, ttlMs));
      && OneOwner(s)
      && (!OneOwner(t) <==>
            Overdue(s, o) && (hash == s.owners[o].hash || exists n :: 0 <= n < |actions| && Swept(now, actions, o, n)))
  {
    var s := Run(now, actions);
    var t := Apply(s, Acquire(s.owners[o].scope, hash, ttlMs));
    RunKeepsInv(now, actions);
    RecordGoneIff(now, actions, o);
    assert OwnerHolds(s, o);
    if |t.owners| > |s.owners| {
      assert SameClaim(t.owners[o], t.owners[|s.owners|]);
    }
  }

  /**
   * What that costs: whichever of the two owners completes last, the response the other one
   * recorded is replaced. Short of such a claim no completion replaces a recorded response.
   */
  lemma ResponseReplacedIff(
    now: int, actions: seq<Action>, o: nat, hash: string, ttlMs: nat, mine: string, theirs: string)
    requires ClaimsInTime(now, actions) && o < |Run(now, actions).owners| && Run(now, actions).owners[o].live
    ensures var s := Run(now, actions);
      var k := s.owners[o].scope;
      var t, q := Apply(s, Acquire(k, hash, ttlMs)), |s.owners|;
      var last, first := Apply(Apply(t, Complete(q, theirs)), Complete(o, mine)),
        Apply(Apply(t, Complete(o, mine)), Complete(q, theirs));
      if OneOwner(t)
      then last == first && (k in s.rows ==> Completions(first, k) == [mine])
      else
        && Completions(last, k) == [theirs, mine]
        && ClaimAnswer(last.rows, k, last.rows[k].requestHash, last.now) == Replay(Some(mine))
        && Completions(first, k) == [mine, theirs]
        && ClaimAnswer(first.rows, k, first.rows[k].requestHash, first.now) == Replay(Some(theirs))
  {
    var s := Run(now, actions);
    RunKeepsInv(now, actions);
    assert OwnerHolds(s, o);
    ClaimedSecond(s, o, hash, ttlMs);
    TwoCompletions(s, o, hash, ttlMs, mine, theirs);
  }

  lemma ClaimedSecond(s: State, o: nat, hash: string, ttlMs: nat)
    requires Inv(s) && o < |s.owners| && s.owners[o].live
    ensures var t := Apply(s, Acquire(s.owners[o].scope, hash, ttlMs));
      !OneOwner(t) <==> |t.owners| == |s.owners| + 1
  {
    var t := Apply(s, Acquire(s.owners[o].scope, hash, ttlMs));
    if |t.owners| > |s.owners| {
      assert SameClaim(t.owners[o], t.owners[|s.owners|]);
    }
  }

  lemma TwoCompletions(s: State, o: nat, hash: string, ttlMs: nat, mine: string, theirs: string)
    requires Inv(s) && o < |s.owners| && s.owners[o].live && OwnerHolds(s, o)
    ensures var k := s.owners[o].scope;
      var t, q := Apply(s, Acquire(k, hash, ttlMs)), |s.owners|;
      var last, first := Apply(Apply(t, Complete(q, theirs)), Complete(o, mine)),
        Apply(Apply(t, Complete(o, mine)), Complete(q, theirs));
      if |t.owners| == |s.owners|
      then last == first && (k in s.rows ==> Completions(first, k) == [mine])
      else
        && Completions(last, k) == [theirs, mine]
        && k in last.rows && last.rows[k].status == Succeeded && last.rows[k].resourceRef == Some(mine)
        && Completions(first, k) == [mine, theirs]
        && k in first.rows && first.rows[k].status == Succeeded && first.rows[k].resourceRef == Some(theirs)
  {
    var k := s.owners[o].scope;
    var t := Apply(s, Acquire(k, hash, ttlMs));
    if |t.owners| > |s.owners| {
      assert Completions(t, k) == [] && k in t.rows;
    }
  }

  /** The shortest such run: the owner that lost its claim overwrites the response of the caller that took it over. */
  lemma LateOwnerOverwrites(k: Scope)
    ensures var s := Apply(Apply(Apply(Apply(Apply(State(map[], [], map[], 0),
        Acquire(k, "h", 10)), Tick(11)), Acquire(k, "h", 10)), Complete(1, "second")), Complete(0, "first"));
      Completions(s, k) == ["second", "first"] && ClaimAnswer(s.rows, k, "h", s.now) == Replay(Some("first"))
  {
    var s2 := Apply(Apply(State(map[], [], map[], 0), Acquire(k, "h", 10)), Tick(11));
    var s3 := Apply(s2, Acquire(k, "h", 10));
    assert s3.owners == [Owner(k, "h", 10, true), Owner(k, "h", 21, true)];
    var s4 := Apply(s3, Complete(1, "second"));
    assert s4.owners[0].live && Completions(s4, k) == ["second"];
  }
}
