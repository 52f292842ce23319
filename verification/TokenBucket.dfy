/**
 * The Redis token bucket: what each script run does to the bucket, and what whole traces
 * of runs admit. Lua numbers are exact reals, times are integer milliseconds.
 */
module TokenBucket {
  import opened Wrappers

  datatype Limits = Limits(capacity: real, refill: real)

  ghost predicate ValidLimits(p: Limits) {
    p.capacity > 0.0 && p.refill > 0.0
  }

  /** The stored hash: fields `tokens` and `ts`. */
  datatype Bucket = Bucket(tokens: real, ts: int)

  datatype Decision = Decision(allowed: bool, retryMs: int)

  function Ceil(x: real): (n: int)
    ensures n as real - 1.0 < x <= n as real
  {
    -(-x).Floor
  }

  function Min(a: real, b: real): real {
    if a <= b then a else b
  }

  function Ahead(a: int, b: int): nat {
    if b >= a then b - a else 0
  }

  /** Tokens earned in `ms` milliseconds. */
  function Gain(p: Limits, ms: nat): real {
    (ms as real / 1000.0) * p.refill
  }

  /** Tokens on hand when a run at `now` decides: a missing key is a full bucket. */
  function OnHand(p: Limits, data: Option<Bucket>, now: int): real {
    if data.None? then Min(p.capacity, p.capacity + Gain(p, 0))
    else Min(p.capacity, data.value.tokens + Gain(p, Ahead(data.value.ts, now)))
  }

  function Decide(p: Limits, tokens: real, cost: real): Decision
    requires ValidLimits(p)
  {
    if tokens >= cost then Decision(true, 0) else Decision(false, Ceil(((cost - tokens) / p.refill) * 1000.0))
  }

  function After(tokens: real, cost: real, now: int): Bucket {
    Bucket(if tokens >= cost then tokens - cost else tokens, now)
  }

  /** The PEXPIRE argument. */
  function Ttl(p: Limits): int
    requires ValidLimits(p)
  {
    Ceil((p.capacity / p.refill) * 2000.0)
  }

  class BucketKey {
    const limits: Limits
    var data: Option<Bucket>
    var expiresAt: int

    constructor (limits: Limits)
      ensures this.limits == limits && data == None
    {
      this.limits := limits;
      data, expiresAt := None, 0;
    }

    /**
     * `TOKEN_BUCKET_LUA`. A refill rate of 0 makes the PEXPIRE argument infinite: Redis refuses
     * the command, and the script fails after it has written the hash.
     */
    method Eval(now: int, cost: real) returns (r: Option<Decision>)
      requires limits.capacity > 0.0 && limits.refill >= 0.0
      modifies this
      ensures data == Some(After(OnHand(limits, old(data), now), cost, now))
      ensures limits.refill == 0.0 ==> r == None && expiresAt == old(expiresAt)
      ensures limits.refill > 0.0 ==> r == Some(Decide(limits, OnHand(limits, old(data), now), cost))
      ensures limits.refill > 0.0 ==> expiresAt == now + Ttl(limits)
    {
      var tokens, ts := limits.capacity, now;
      if data.Some? {
        tokens, ts := data.value.tokens, data.value.ts;
      }
      var elapsed := if now - ts >= 0 then now - ts else 0;
      tokens := Min(limits.capacity, tokens + (elapsed as real / 1000.0) * limits.refill);
      assert tokens == OnHand(limits, data, now);
      ghost var onHand := tokens;
      var allowed := false;
      if tokens >= cost {
        tokens := tokens - cost;
        allowed := true;
      }
      data := Some(Bucket(tokens, now));
      assert data.value == After(onHand, cost, now);
      if limits.refill == 0.0 {
        return None;
      }
      expiresAt := now + Ceil((limits.capacity / limits.refill) * 2000.0);
      var retry := 0;
      if !allowed && limits.refill > 0.0 {
        retry := Ceil(((cost - tokens) / limits.refill) * 1000.0);
      }
      return Some(Decision(allowed, retry));
    }

    /**
     * `canActivate`: admission, or the seconds of the Retry-After header. It fails open when
     * Redis is unreachable or the script fails, so a limit with refill rate 0 refuses nothing.
     */
    method CanActivate(now: int, redisUp: bool) returns (r: Result<(), int>)
      requires limits.capacity > 0.0 && limits.refill >= 0.0
      modifies this
      ensures data == if redisUp then Some(After(OnHand(limits, old(data), now), 1.0, now)) else old(data)
      ensures !redisUp || limits.refill == 0.0 ==> r == Ok(())
      ensures redisUp && limits.refill > 0.0 ==> r == Verdict(Decide(limits, OnHand(limits, old(data), now), 1.0))
      ensures r.Ok? <==> !redisUp || limits.refill == 0.0 || OnHand(limits, old(data), now) >= 1.0
    {
      if !redisUp {
        return Ok(());
      }
      var result := Eval(now, 1.0);
      if result.None? {
        return Ok(());
      }
      if !result.value.allowed {
        var seconds := Ceil(result.value.retryMs as real / 1000.0);
        return Err(if seconds > 1 then seconds else 1);
      }
      return Ok(());
    }
  }

  function Verdict(d: Decision): Result<(), int> {
    if d.allowed then Ok(()) else Err(RetryAfter(d.retryMs))
  }

  /** The Retry-After header: the least positive number of seconds that covers the time. */
  function RetryAfter(retryMs: int): (seconds: int)
    ensures seconds >= 1 && 1000 * seconds >= retryMs
    ensures forall s :: s >= 1 && 1000 * s >= retryMs ==> seconds <= s
  {
    var seconds := Ceil(retryMs as real / 1000.0);
    if seconds > 1 then seconds else 1
  }

  // Traces

  datatype Call = Call(now: int, cost: real)

  ghost predicate ValidTrace(p: Limits, calls: seq<Call>) {
    ValidLimits(p) && forall i :: 0 <= i < |calls| ==> calls[i].cost > 0.0
  }

  /** The bucket before call `j`, starting from a missing key. */
  ghost function Before(p: Limits, calls: seq<Call>, j: nat): Option<Bucket>
    requires j <= |calls|
  {
    if j == 0 then None
    else Some(After(OnHand(p, Before(p, calls, j - 1), calls[j - 1].now), calls[j - 1].cost, calls[j - 1].now))
  }

  ghost function Level(p: Limits, calls: seq<Call>, j: nat): real
    requires j < |calls|
  {
    OnHand(p, Before(p, calls, j), calls[j].now)
  }

  ghost predicate Admitted(p: Limits, calls: seq<Call>, j: nat)
    requires ValidLimits(p) && j < |calls|
  {
    Decide(p, Level(p, calls, j), calls[j].cost).allowed
  }

  /** Cost admitted by calls `i` to `j - 1`. */
  ghost function Spent(p: Limits, calls: seq<Call>, i: nat, j: nat): real
    requires ValidLimits(p) && i <= j <= |calls|
  {
    if i == j then 0.0
    else Spent(p, calls, i, j - 1) + if Admitted(p, calls, j - 1) then calls[j - 1].cost else 0.0
  }

  /** Milliseconds the clock moved forward from call `i` to call `j`; moves backward do not count. */
  ghost function Forward(calls: seq<Call>, i: nat, j: nat): nat
    requires i <= j < |calls|
  {
    if i == j then 0 else Forward(calls, i, j - 1) + Ahead(calls[j - 1].now, calls[j].now)
  }

  /** What a bucket full at call `i` and never capped since would hold at call `j`. */
  ghost function Allowance(p: Limits, calls: seq<Call>, i: nat, j: nat): real
    requires ValidLimits(p) && i <= j < |calls|
  {
    p.capacity + Gain(p, Forward(calls, i, j)) - Spent(p, calls, i, j)
  }

  lemma GainAdds(p: Limits, a: nat, b: nat)
    ensures Gain(p, a + b) == Gain(p, a) + Gain(p, b)
  {
    var x, y := a as real / 1000.0, b as real / 1000.0;
    assert (a + b) as real / 1000.0 == x + y;
    assert (x + y) * p.refill == x * p.refill + y * p.refill;
  }

  lemma AllowanceStep(p: Limits, calls: seq<Call>, i: nat, j: nat)
    requires ValidTrace(p, calls) && i < j < |calls|
    ensures Allowance(p, calls, i, j)
         == Allowance(p, calls, i, j - 1) + Gain(p, Ahead(calls[j - 1].now, calls[j].now))
            - if Admitted(p, calls, j - 1) then calls[j - 1].cost else 0.0
  {
    GainAdds(p, Forward(calls, i, j - 1), Ahead(calls[j - 1].now, calls[j].now));
  }

  lemma LevelStep(p: Limits, calls: seq<Call>, j: nat)
    requires ValidTrace(p, calls) && 0 < j < |calls|
    ensures Level(p, calls, j)
         == Min(p.capacity, Level(p, calls, j - 1) + Gain(p, Ahead(calls[j - 1].now, calls[j].now))
                            - if Admitted(p, calls, j - 1) then calls[j - 1].cost else 0.0)
  {
  }

  /** The bucket holds the least allowance over all earlier starting points. */
  lemma {:induction false} LevelIsLeast(p: Limits, calls: seq<Call>, j: nat) returns (start: nat)
    requires ValidTrace(p, calls) && j < |calls|
    ensures forall i :: 0 <= i <= j ==> Level(p, calls, j) <= Allowance(p, calls, i, j)
    ensures start <= j && Level(p, calls, j) == Allowance(p, calls, start, j)
  {
    assert Allowance(p, calls, j, j) == p.capacity by {
      assert Gain(p, 0) == 0.0;
    }
    start := j;
    if j > 0 {
      start := LevelIsLeast(p, calls, j - 1);
      LevelStep(p, calls, j);
      forall i | 0 <= i < j ensures Level(p, calls, j) <= Allowance(p, calls, i, j) {
        AllowanceStep(p, calls, i, j);
      }
      AllowanceStep(p, calls, start, j);
      if Level(p, calls, j) == p.capacity {
        start := j;
      }
    }
  }

  /**
   * The limiter refuses exactly what would break the rate: a call is admitted iff, from
   * every earlier call on, everything admitted so far plus its own cost stays within one
   * burst plus the refill of the time that passed.
   */
  lemma AdmittedIff(p: Limits, calls: seq<Call>, j: nat)
    requires ValidTrace(p, calls) && j < |calls|
    ensures Admitted(p, calls, j) <==>
      forall i :: 0 <= i <= j ==>
        Spent(p, calls, i, j) + calls[j].cost <= p.capacity + Gain(p, Forward(calls, i, j))
  {
    var start := LevelIsLeast(p, calls, j);
    if Admitted(p, calls, j) {
      forall i | 0 <= i <= j
        ensures Spent(p, calls, i, j) + calls[j].cost <= p.capacity + Gain(p, Forward(calls, i, j))
      {
        assert calls[j].cost <= Level(p, calls, j) <= Allowance(p, calls, i, j);
      }
    } else {
      assert Level(p, calls, j) == Allowance(p, calls, start, j) < calls[j].cost;
      assert Spent(p, calls, start, j) + calls[j].cost > p.capacity + Gain(p, Forward(calls, start, j));
    }
  }

  /** Whatever the clock does, calls `i` to `j` admit at most one burst plus the refill of its forward moves. */
  lemma {:induction false} WindowBound(p: Limits, calls: seq<Call>, i: nat, j: nat)
    requires ValidTrace(p, calls) && i <= j < |calls|
    ensures Spent(p, calls, i, j + 1) <= p.capacity + Gain(p, Forward(calls, i, j))
  {
    AdmittedIff(p, calls, j);
    if !Admitted(p, calls, j) && i < j {
      WindowBound(p, calls, i, j - 1);
      GainAdds(p, Forward(calls, i, j - 1), Ahead(calls[j - 1].now, calls[j].now));
    }
  }

  ghost predicate NonDecreasing(calls: seq<Call>) {
    forall i, j :: 0 <= i < j < |calls| ==> calls[i].now <= calls[j].now
  }

  lemma {:induction false} ForwardIsElapsed(calls: seq<Call>, i: nat, j: nat)
    requires NonDecreasing(calls) && i <= j < |calls|
    ensures Forward(calls, i, j) == calls[j].now - calls[i].now
  {
    if i < j {
      ForwardIsElapsed(calls, i, j - 1);
    }
  }

  lemma GainMonotone(p: Limits, a: nat, b: nat)
    requires ValidLimits(p) && a <= b
    ensures Gain(p, a) <= Gain(p, b)
  {
    GainAdds(p, a, b - a);
  }

  /** While the clock does not go back, any window [from, to] admits at most capacity + refill * (to - from) / 1000. */
  lemma ClockWindowBound(p: Limits, calls: seq<Call>, i: nat, j: nat, from: int, to: int)
    requires ValidTrace(p, calls) && NonDecreasing(calls)
    requires i <= j < |calls| && from <= calls[i].now && calls[j].now <= to
    ensures from <= to && Spent(p, calls, i, j + 1) <= p.capacity + Gain(p, to - from)
  {
    WindowBound(p, calls, i, j);
    ForwardIsElapsed(calls, i, j);
    var elapsed := calls[j].now - calls[i].now;
    assert 0 <= elapsed <= to - from;
    GainMonotone(p, elapsed, to - from);
  }

  /** Tokens stay between zero and the capacity. */
  lemma {:induction false} TokensInRange(p: Limits, calls: seq<Call>, j: nat)
    requires ValidTrace(p, calls) && j <= |calls|
    ensures Before(p, calls, j).Some? ==> 0.0 <= Before(p, calls, j).value.tokens <= p.capacity
  {
    if j > 0 {
      TokensInRange(p, calls, j - 1);
      var before := Before(p, calls, j - 1);
      if before.Some? {
        GainMonotone(p, 0, Ahead(before.value.ts, calls[j - 1].now));
      }
    }
  }

  // Retry times

  /**
   * After a refusal, a later call of the same cost is admitted exactly when it waits at
   * least the returned time, as long as the capacity covers the cost at all.
   */
  lemma RetryIsExact(p: Limits, data: Option<Bucket>, now: int, cost: real, wait: nat)
    requires ValidLimits(p) && cost <= p.capacity
    requires !Decide(p, OnHand(p, data, now), cost).allowed
    ensures var refused := Decide(p, OnHand(p, data, now), cost);
      Decide(p, OnHand(p, Some(After(OnHand(p, data, now), cost, now)), now + wait), cost).allowed
      <==> wait >= refused.retryMs
  {
    var tokens := OnHand(p, data, now);
    var missing := ((cost - tokens) / p.refill) * 1000.0;
    EarnsMissing(p, cost - tokens, wait);
    assert wait as real >= missing <==> wait >= Ceil(missing);
  }

  lemma EarnsMissing(p: Limits, amount: real, wait: nat)
    requires ValidLimits(p)
    ensures Gain(p, wait) >= amount <==> wait as real >= (amount / p.refill) * 1000.0
  {
    var q, w := amount / p.refill, wait as real / 1000.0;
    assert q * p.refill == amount;
    if w >= q {
      assert w * p.refill >= q * p.refill;
    } else {
      assert w * p.refill < q * p.refill;
    }
  }

  /** After a refusal, a whole positive number of seconds is enough exactly when it is at least Retry-After. */
  lemma RetryAfterIsLeast(p: Limits, data: Option<Bucket>, now: int, seconds: nat)
    requires ValidLimits(p) && 1.0 <= p.capacity && seconds >= 1
    requires Verdict(Decide(p, OnHand(p, data, now), 1.0)).Err?
    ensures var after := Some(After(OnHand(p, data, now), 1.0, now));
      Verdict(Decide(p, OnHand(p, after, now + 1000 * seconds), 1.0)).Ok?
      <==> seconds >= Verdict(Decide(p, OnHand(p, data, now), 1.0)).error
  {
    RetryIsExact(p, data, now, 1.0, 1000 * seconds);
  }

  /** A cost above the capacity is refused in every state and at every time. */
  lemma TooDearIsNeverAdmitted(p: Limits, data: Option<Bucket>, now: int, cost: real)
    requires ValidLimits(p)
    ensures cost > p.capacity ==> !Decide(p, OnHand(p, data, now), cost).allowed
    ensures cost <= p.capacity ==> Decide(p, OnHand(p, None, now), cost).allowed
  {
    assert Gain(p, 0) == 0.0;
  }

  // Expiry

  /** Losing the key changes nothing exactly when the bucket would be full by then. */
  lemma ForgettingIsInvisibleIff(p: Limits, b: Bucket, now: int)
    requires ValidLimits(p)
    ensures OnHand(p, None, now) == OnHand(p, Some(b), now)
       <==> b.tokens + Gain(p, Ahead(b.ts, now)) >= p.capacity
  {
    assert Gain(p, 0) == 0.0;
  }

  lemma IdleBucketIsFull(p: Limits, b: Bucket, now: int)
    requires ValidLimits(p) && b.tokens >= 0.0 && now - b.ts >= Ttl(p)
    ensures OnHand(p, Some(b), now) == OnHand(p, None, now)
  {
    var half := (p.capacity / p.refill) * 1000.0;
    assert p.capacity / p.refill > 0.0;
    assert (p.capacity / p.refill) * 2000.0 >= half;
    EarnsMissing(p, p.capacity, Ahead(b.ts, now));
    ForgettingIsInvisibleIff(p, b, now);
  }

  /**
   * The bucket before call `j` when Redis drops the key before the calls marked in `drops`, never
   * before its time to live.
   */
  ghost function BeforeWithExpiry(p: Limits, calls: seq<Call>, drops: set<nat>, j: nat): Option<Bucket>
    requires ValidLimits(p) && j <= |calls|
  {
    if j == 0 then None
    else
      var kept := Surviving(p, BeforeWithExpiry(p, calls, drops, j - 1), calls[j - 1].now, j - 1 in drops);
      Some(After(OnHand(p, kept, calls[j - 1].now), calls[j - 1].cost, calls[j - 1].now))
  }

  ghost function Surviving(p: Limits, data: Option<Bucket>, now: int, drop: bool): Option<Bucket>
    requires ValidLimits(p)
  {
    if drop && data.Some? && now >= data.value.ts + Ttl(p) then None else data
  }

  /** Key expiry cannot be observed: no trace decides differently for it. */
  lemma {:induction false} ExpiryIsInvisible(p: Limits, calls: seq<Call>, drops: set<nat>, j: nat)
    requires ValidTrace(p, calls) && j <= |calls|
    ensures BeforeWithExpiry(p, calls, drops, j) == Before(p, calls, j)
    ensures j < |calls| ==>
      OnHand(p, Surviving(p, BeforeWithExpiry(p, calls, drops, j), calls[j].now, j in drops), calls[j].now)
        == Level(p, calls, j)
  {
    if j > 0 {
      ExpiryIsInvisible(p, calls, drops, j - 1);
    }
    if j < |calls| && Before(p, calls, j).Some? {
      TokensInRange(p, calls, j);
      var b := Before(p, calls, j).value;
      if calls[j].now >= b.ts + Ttl(p) {
        IdleBucketIsFull(p, b, calls[j].now);
      }
    }
  }
}
