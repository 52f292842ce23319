/**
 * The non-negative integers among the doubles: reading a decimal rounds to the nearest one,
 * and `Number.prototype.toString` writes the shortest decimal that reads back as the value.
 */
module Doubles {
  import opened Wrappers
  import opened Text

  const MAX_SAFE_INTEGER := 0x1f_ffff_ffff_ffff

  /** Doubles have this many steps from one power of two to the next. */
  const STEPS: nat := 0x10_0000_0000_0000

  /** The gap between doubles around `m`. */
  function Ulp(m: nat): (u: nat)
    ensures u > 0 && (m >= 1 ==> u <= m)
  {
    if m <= MAX_SAFE_INTEGER then 1 else 2 * Ulp(m / 2)
  }

  /** Round half to even on multiples of the gap. */
  function Nearest(m: nat): (r: nat)
    ensures r <= 2 * m
  {
    RoundTo(m, Ulp(m))
  }

  function RoundTo(m: nat, u: nat): (r: nat)
    requires u > 0 && (m >= 1 ==> u <= m)
    ensures r <= 2 * m
  {
    var q, r := m / u, m % u;
    assert m == q * u + r;
    if 2 * r < u || (2 * r == u && q % 2 == 0) then m - r else m - r + u
  }

  predicate IsDouble(m: nat) {
    m % Ulp(m) == 0
  }

  lemma DoubleIsNearest(m: nat)
    requires IsDouble(m)
    ensures Nearest(m) == m
  {
  }

  lemma {:induction false} UlpRange(m: nat)
    requires m > MAX_SAFE_INTEGER
    ensures Ulp(m) >= 2 && STEPS * Ulp(m) <= m < 2 * STEPS * Ulp(m)
  {
    if m / 2 > MAX_SAFE_INTEGER {
      UlpRange(m / 2);
    } else {
      assert Ulp(m / 2) == 1;
    }
  }

  /** Gaps are powers of two, so of two different ones the greater is at least twice the smaller. */
  lemma {:induction false} UlpOrders(a: nat, b: nat)
    requires a <= b
    ensures Ulp(a) == Ulp(b) || 2 * Ulp(a) <= Ulp(b)
  {
    if a > MAX_SAFE_INTEGER {
      UlpOrders(a / 2, b / 2);
    } else if b > MAX_SAFE_INTEGER {
      UlpRange(b);
    }
  }

  // Multiples

  lemma Distributes(p: int, d: int, u: int)
    ensures (p + d) * u == p * u + d * u
  {
  }

  lemma TimesOrders(p: int, q: int, u: nat)
    ensures p < q ==> p * u + u <= q * u
    ensures p <= q ==> p * u <= q * u
  {
    if p < q {
      Distributes(p, q - p, u);
      Distributes(1, q - p - 1, u);
      assert (q - p - 1) * u >= 0;
    }
  }

  /** The quotient is the only number of whole steps with less than a step left. */
  lemma QuotientIs(m: nat, u: nat, k: nat, r: nat)
    requires u > 0 && m == k * u + r && r < u
    ensures m / u == k && m % u == r
  {
    assert m == m / u * u + m % u;
    TimesOrders(m / u, k, u);
    TimesOrders(k, m / u, u);
  }

  lemma AtMostMultiple(k: nat, u: nat, m: nat)
    requires u > 0 && k * u <= m
    ensures k * u <= m - m % u
  {
    assert m == m / u * u + m % u;
    TimesOrders(k, m / u, u);
    TimesOrders(m / u, k, u);
  }

  lemma BelowMultiple(k: nat, u: nat, m: nat)
    requires u > 0 && m < k * u
    ensures m - m % u + u <= k * u
  {
    assert m == m / u * u + m % u;
    TimesOrders(k, m / u, u);
    TimesOrders(m / u, k, u);
  }

  lemma RoundedRange(m: nat)
    requires m > MAX_SAFE_INTEGER
    ensures STEPS * Ulp(m) <= Nearest(m) <= 2 * STEPS * Ulp(m)
  {
    UlpRange(m);
    AtMostMultiple(STEPS, Ulp(m), m);
    BelowMultiple(2 * STEPS, Ulp(m), m);
  }

  lemma RoundToOrders(a: nat, b: nat, u: nat)
    requires u > 0 && a <= b && (a >= 1 ==> u <= a) && (b >= 1 ==> u <= b)
    ensures RoundTo(a, u) <= RoundTo(b, u)
  {
    assert a == a / u * u + a % u && b == b / u * u + b % u;
    TimesOrders(a / u, b / u, u);
    TimesOrders(b / u, a / u, u);
  }

  /** Rounding keeps the order. */
  lemma NearestOrders(a: nat, b: nat)
    requires a <= b
    ensures Nearest(a) <= Nearest(b)
  {
    var u, v := Ulp(a), Ulp(b);
    UlpOrders(a, b);
    if u == v {
      RoundToOrders(a, b, u);
    } else {
      RoundedRange(b);
      if a > MAX_SAFE_INTEGER {
        RoundedRange(a);
      } else {
        assert Nearest(a) == a;
      }
    }
  }

  lemma RoundedMultiple(m: nat)
    ensures Nearest(m) % Ulp(m) == 0
  {
    var u := Ulp(m);
    assert m == m / u * u + m % u;
    assert (m / u + 1) * u == m / u * u + u;
    if Nearest(m) <= m {
      QuotientIs(Nearest(m), u, m / u, 0);
    } else {
      QuotientIs(Nearest(m), u, m / u + 1, 0);
    }
  }

  /** What a decimal reads as is a double. */
  lemma NearestIsDouble(m: nat)
    ensures IsDouble(Nearest(m)) && Nearest(Nearest(m)) == Nearest(m)
  {
    if m <= MAX_SAFE_INTEGER {
      assert Nearest(m) == m;
    } else {
      UlpRange(m);
      RoundedRange(m);
      RoundedMultiple(m);
      RoundedIsDouble(m, Nearest(m), Ulp(m));
    }
    DoubleIsNearest(Nearest(m));
  }

  lemma RoundedIsDouble(m: nat, c: nat, u: nat)
    requires m > MAX_SAFE_INTEGER && u == Ulp(m) >= 2 && c % u == 0 && STEPS * u <= c <= 2 * STEPS * u
    ensures IsDouble(c)
  {
    UlpRange(c);
    UlpOrders(if m <= c then m else c, if m <= c then c else m);
    if c == 2 * STEPS * u {
      assert Ulp(c) == 2 * u by {
        UlpRange(m);
      }
      QuotientIs(c, 2 * u, STEPS, 0);
    }
  }

  // The shortest decimal

  /** 10^21, from which on numbers print with exponents. */
  const TOP_TEN: nat := 1_000_000_000_000_000_000_000

  predicate PowerOfTen(t: nat) {
    t == 1 || (t >= 10 && t % 10 == 0 && PowerOfTen(t / 10))
  }

  function Below(m: nat, t: nat): (c: nat)
    requires t > 0
    ensures c <= m
  {
    m - m % t
  }

  function Above(m: nat, t: nat): (c: nat)
    requires t > 0
    ensures c >= m
  {
    if m % t == 0 then m else m - m % t + t
  }

  predicate ReadsAs(c: nat, m: nat) {
    Nearest(c) == m
  }

  /** The multiple of `t` nearest to `m` that reads as `m`. */
  function ClosestAt(m: nat, t: nat): Option<nat>
    requires t > 0
  {
    var b, a := Below(m, t), Above(m, t);
    if ReadsAs(b, m) && (!ReadsAs(a, m) || m - b <= a - m) then Some(b)
    else if ReadsAs(a, m) then Some(a)
    else None
  }

  function ShortestFrom(m: nat, t: nat): nat
    requires t > 0
  {
    if t < 10 then m
    else
      var c := ClosestAt(m, t);
      if c.Some? then c.value else ShortestFrom(m, t / 10)
  }

  /**
   * The number whose digits `toString(10)` writes for a double below 10^21: the one with the
   * most trailing zeros that reads back as it, and of several the closest.
   */
  function Shortest(m: nat): nat {
    ShortestFrom(m, TOP_TEN)
  }

  lemma AroundAreMultiples(m: nat, t: nat)
    requires t > 0
    ensures Below(m, t) % t == 0 && Above(m, t) % t == 0
  {
    assert m == m / t * t + m % t;
    Distributes(m / t, 1, t);
    QuotientIs(m / t * t, t, m / t, 0);
    QuotientIs((m / t + 1) * t, t, m / t + 1, 0);
  }

  lemma AdjacentMultiples(m: nat, t: nat, c: nat)
    requires t > 0 && c % t == 0
    ensures c <= m ==> c <= Below(m, t)
    ensures c >= m ==> c >= Above(m, t)
  {
    assert c == c / t * t;
    if c <= m {
      AtMostMultiple(c / t, t, m);
    } else {
      BelowMultiple(c / t, t, m);
    }
  }

  /** If any multiple reads as the double, one of the two around it does, the closest of all. */
  lemma ClosestIs(m: nat, t: nat, c: nat)
    requires t > 0 && IsDouble(m) && c % t == 0 && ReadsAs(c, m)
    ensures ClosestAt(m, t).Some? && Distance(ClosestAt(m, t).value, m) <= Distance(c, m)
  {
    DoubleIsNearest(m);
    AdjacentMultiples(m, t, c);
    if c <= m {
      NearestOrders(c, Below(m, t));
      NearestOrders(Below(m, t), m);
    } else {
      NearestOrders(Above(m, t), c);
      NearestOrders(m, Above(m, t));
    }
  }

  function Distance(a: nat, b: nat): nat {
    if a <= b then b - a else a - b
  }

  /** No multiple of `t` reads as `m`. */
  ghost predicate NoneReads(m: nat, t: nat)
    requires t > 0
  {
    forall c: nat :: ReadsAs(c, m) ==> c % t != 0
  }

  ghost predicate ClosestOf(m: nat, s: nat, t: nat)
    requires t > 0
  {
    forall c: nat :: ReadsAs(c, m) && c % t == 0 ==> Distance(s, m) <= Distance(c, m)
  }

  /** `s` is the closest multiple of `t` that reads as `m`, and no multiple of a greater power of ten does. */
  ghost predicate ShortestAt(m: nat, s: nat, t: nat) {
    PowerOfTen(t) && s % t == 0 && ReadsAs(s, m) && ClosestOf(m, s, t) && (t == TOP_TEN || NoneReads(m, 10 * t))
  }

  lemma NoClosest(m: nat, t: nat)
    requires t > 0 && IsDouble(m) && ClosestAt(m, t).None?
    ensures NoneReads(m, t)
  {
    forall c: nat | ReadsAs(c, m) ensures c % t != 0 {
      if c % t == 0 {
        ClosestIs(m, t, c);
      }
    }
  }

  lemma {:induction false} ShortestFromIs(m: nat, t: nat) returns (u: nat)
    requires PowerOfTen(t) && IsDouble(m) && (t == TOP_TEN || NoneReads(m, 10 * t))
    ensures ShortestAt(m, ShortestFrom(m, t), u)
  {
    if t < 10 {
      DoubleIsNearest(m);
      u := 1;
    } else if ClosestAt(m, t).Some? {
      ClosestShortest(m, t);
      u := t;
    } else {
      NoClosest(m, t);
      assert t == 10 * (t / 10);
      u := ShortestFromIs(m, t / 10);
    }
  }

  lemma ClosestShortest(m: nat, t: nat)
    requires PowerOfTen(t) && IsDouble(m) && ClosestAt(m, t).Some? && (t == TOP_TEN || NoneReads(m, 10 * t))
    ensures ShortestAt(m, ClosestAt(m, t).value, t)
  {
    AroundAreMultiples(m, t);
    forall c: nat | ReadsAs(c, m) && c % t == 0 ensures Distance(ClosestAt(m, t).value, m) <= Distance(c, m) {
      ClosestIs(m, t, c);
    }
  }

  function Tens(n: nat): nat {
    if n == 0 then 1 else 10 * Tens(n - 1)
  }

  lemma TenTimes(t: nat)
    requires PowerOfTen(t)
    ensures PowerOfTen(10 * t)
  {
    assert 10 * t / 10 == t && 10 * t % 10 == 0;
  }

  lemma {:induction false} TensArePowers(n: nat)
    ensures PowerOfTen(Tens(n))
  {
    if n > 0 {
      TensArePowers(n - 1);
      TenTimes(Tens(n - 1));
    }
  }

  lemma TopIsTens()
    ensures Tens(21) == TOP_TEN
  {
    assert Tens(7) == 10_000_000;
    assert Tens(14) == 10_000_000 * Tens(7);
  }

  lemma ShortestIs(m: nat) returns (u: nat)
    requires IsDouble(m)
    ensures ShortestAt(m, Shortest(m), u)
  {
    TopIsTens();
    TensArePowers(21);
    u := ShortestFromIs(m, TOP_TEN);
  }

  /** The shortest decimal reads back as the double. */
  lemma ShortestReads(m: nat)
    requires IsDouble(m)
    ensures Nearest(Shortest(m)) == m
  {
    var u := ShortestIs(m);
  }

  /** In the safe range it is the number itself. */
  lemma SafeIsExact(m: nat)
    requires m <= MAX_SAFE_INTEGER
    ensures IsDouble(m) && Shortest(m) == m
  {
    ShortestReads(m);
    if Shortest(m) > MAX_SAFE_INTEGER {
      UlpRange(Shortest(m));
      RoundedRange(Shortest(m));
    }
  }

  lemma {:induction false} PowersDivide(a: nat, b: nat)
    requires PowerOfTen(a) && PowerOfTen(b)
    ensures a <= b ==> b % a == 0
    ensures a < b ==> b % (10 * a) == 0
  {
    if a == 1 {
      QuotientIs(b, 1, b, 0);
    } else if b > 1 {
      PowersDivide(a / 10, b / 10);
      assert a == 10 * (a / 10) && b == 10 * (b / 10);
      if a <= b {
        Scaled(b / 10, a / 10);
      }
      if a < b {
        Scaled(b / 10, a);
      }
    }
  }

  lemma Scaled(m: nat, t: nat)
    requires t > 0
    ensures (10 * m) % (10 * t) == 10 * (m % t) && 10 * m / (10 * t) == m / t
  {
    assert m == m / t * t + m % t;
    assert 10 * (m / t * t) == m / t * (10 * t);
    QuotientIs(10 * m, 10 * t, m / t, 10 * (m % t));
  }

  lemma DividesThrough(m: nat, u: nat, t: nat)
    requires t > 0 && u > 0 && m % u == 0 && u % t == 0
    ensures m % t == 0
  {
    assert m == m / u * u && u == u / t * t;
    assert m == (m / u * (u / t)) * t;
    QuotientIs(m, t, m / u * (u / t), 0);
  }

  /** Every decimal that reads as the double has no more trailing zeros than the double's own digits. */
  ghost predicate NoRounder(m: nat) {
    forall t: nat, c: nat :: PowerOfTen(t) && ReadsAs(c, m) && c % t == 0 ==> m % t == 0
  }

  /** Its exact digits are written exactly when no decimal with more trailing zeros reads as it. */
  lemma ExactIff(m: nat)
    requires IsDouble(m) && m < TOP_TEN
    ensures Shortest(m) == m <==> NoRounder(m)
  {
    DoubleIsNearest(m);
    var u := ShortestIs(m);
    if Shortest(m) == m {
      forall t: nat, c: nat | PowerOfTen(t) && ReadsAs(c, m) && c % t == 0 ensures m % t == 0 {
        if u == TOP_TEN {
          assert m == 0;
        } else {
          NoRounderThan(m, u, t, c);
        }
      }
    }
    if NoRounder(m) {
      ExactAt(m, Shortest(m), u);
    }
  }

  lemma ExactAt(m: nat, s: nat, u: nat)
    requires ShortestAt(m, s, u) && NoRounder(m) && ReadsAs(m, m)
    ensures s == m
  {
    assert m % u == 0;
    assert Distance(s, m) <= Distance(m, m);
  }

  /** A power of ten that divides a decimal reading as `m` is at most the one where the search ends. */
  lemma RounderBound(m: nat, u: nat, t: nat, c: nat)
    requires PowerOfTen(u) && PowerOfTen(t) && NoneReads(m, 10 * u) && ReadsAs(c, m) && c % t == 0
    ensures t <= u
  {
    PowersDivide(u, t);
    if t > u {
      DividesThrough(c, t, 10 * u);
    }
  }

  lemma NoRounderThan(m: nat, u: nat, t: nat, c: nat)
    requires PowerOfTen(u) && m % u == 0 && NoneReads(m, 10 * u)
    requires PowerOfTen(t) && ReadsAs(c, m) && c % t == 0
    ensures m % t == 0
  {
    RounderBound(m, u, t, c);
    PowersDivide(t, u);
    DividesThrough(m, u, t);
  }

  // Its digits

  lemma {:induction false} DigitsOrder(a: nat, b: nat)
    requires a <= b
    ensures |Digits(a)| <= |Digits(b)|
  {
    if a >= 10 {
      DigitsOrder(a / 10, b / 10);
    }
  }

  lemma {:induction false} BelowKeepsLength(m: nat, t: nat)
    requires PowerOfTen(t) && t <= m
    ensures |Digits(m - m % t)| == |Digits(m)|
  {
    if t > 1 {
      BelowKeepsLength(m / 10, t / 10);
      TenthOfBelow(m, t / 10);
      assert t == 10 * (t / 10);
    }
  }

  lemma TenthOfBelow(m: nat, t: nat)
    requires t > 0 && 10 * t <= m
    ensures m - m % (10 * t) >= 10 && (m - m % (10 * t)) / 10 == m / 10 - m / 10 % t
  {
    var q, r := m / 10 / t, m / 10 % t;
    assert m / 10 == q * t + r && m == 10 * (m / 10) + m % 10;
    assert 10 * (q * t) == q * (10 * t);
    QuotientIs(m, 10 * t, q, 10 * r + m % 10);
  }

  lemma ReadsBetween(m: nat, s: nat, b: nat)
    requires IsDouble(m) && ReadsAs(s, m) && s <= b <= m
    ensures ReadsAs(b, m)
  {
    DoubleIsNearest(m);
    NearestOrders(s, b);
    NearestOrders(b, m);
  }

  lemma ClosestBelow(m: nat, s: nat, u: nat, b: nat)
    requires u > 0 && ClosestOf(m, s, u) && b % u == 0 && ReadsAs(b, m) && s <= b <= m
    ensures s == b
  {
    assert Distance(s, m) <= Distance(b, m);
  }

  lemma BelowSmall(m: nat, u: nat)
    requires u > m
    ensures Below(m, u) == 0
  {
    QuotientIs(m, u, 0, m);
  }

  /** Rounding down, the decimal written is the multiple below. */
  lemma ShortestBelow(m: nat, s: nat, u: nat)
    requires u > 0 && s % u == 0 && ReadsAs(s, m) && ClosestOf(m, s, u) && IsDouble(m) && s < m
    ensures s == Below(m, u) && u <= m
  {
    AroundAreMultiples(m, u);
    AdjacentMultiples(m, u, s);
    ReadsBetween(m, s, Below(m, u));
    ClosestBelow(m, s, u, Below(m, u));
    if u > m {
      BelowSmall(m, u);
    }
  }

  /** The digits written are at least as many as the exact ones. */
  lemma ShortestKeepsLength(m: nat)
    requires IsDouble(m)
    ensures |Digits(Shortest(m))| >= |Digits(m)|
  {
    var s := Shortest(m);
    var u := ShortestIs(m);
    if s < m {
      ShortestBelow(m, s, u);
      BelowKeepsLength(m, u);
    } else {
      DigitsOrder(m, s);
    }
  }

  // Inputs

  const TWO_53: nat := 0x20_0000_0000_0000

  lemma TensMiss53(c: nat)
    requires c % 10 == 0
    ensures !ReadsAs(c, TWO_53)
  {
    assert Ulp(TWO_53) == 2 && Ulp(9007199254741000) == 2 && Nearest(9007199254740990) == 9007199254740990;
    if c <= TWO_53 {
      NearestOrders(c, 9007199254740990);
    } else {
      NearestOrders(9007199254741000, c);
    }
  }

  lemma NoTenReadsAs53()
    ensures IsDouble(TWO_53) && NoneReads(TWO_53, 10)
  {
    assert Ulp(TWO_53) == 2;
    forall c: nat | ReadsAs(c, TWO_53) ensures c % 10 != 0 {
      if c % 10 == 0 {
        TensMiss53(c);
      }
    }
  }

  /** 2^53 is still written exactly; 2^53 + 1 reads as it. */
  lemma ShortestOf53()
    ensures TWO_53 == 9007199254740992 && IsDouble(TWO_53) && Shortest(TWO_53) == TWO_53
    ensures Nearest(9007199254740993) == TWO_53
  {
    NoTenReadsAs53();
    assert Ulp(9007199254740993) == 2;
    var u := ShortestIs(TWO_53);
    LevelOf53(Shortest(TWO_53), u);
  }

  lemma LevelOf53(s: nat, u: nat)
    requires ShortestAt(TWO_53, s, u)
    ensures s == TWO_53
  {
    NoTenReadsAs53();
    DoubleIsNearest(TWO_53);
    if u >= 10 {
      assert PowerOfTen(1) && PowerOfTen(10);
      PowersDivide(10, u);
      DividesThrough(s, u, 10);
    } else {
      assert u == 1;
      NearOne(s);
    }
  }

  lemma NearOne(s: nat)
    requires ClosestOf(TWO_53, s, 1) && ReadsAs(TWO_53, TWO_53)
    ensures s == TWO_53
  {
    assert TWO_53 % 1 == 0;
    assert Distance(s, TWO_53) <= Distance(TWO_53, TWO_53);
  }

  const TWO_57: nat := 0x200_0000_0000_0000

  lemma TwoTo57()
    ensures TWO_57 == 144115188075855872 && IsDouble(TWO_57) && ReadsAs(144115188075855870, TWO_57)
    ensures Nearest(144115188075855800) < TWO_57 < Nearest(144115188075855900)
  {
    assert Ulp(TWO_57) == 32 && Ulp(144115188075855900) == 32;
    assert Ulp(144115188075855870) == 16 && Ulp(144115188075855800) == 16;
  }

  lemma HundredsMiss(c: nat)
    requires c % 100 == 0
    ensures !ReadsAs(c, TWO_57)
  {
    TwoTo57();
    if c <= TWO_57 {
      NearestOrders(c, 144115188075855800);
    } else {
      NearestOrders(144115188075855900, c);
    }
  }

  /** 2^57 is written with its last digit rounded. */
  lemma ShortestOf57()
    ensures IsDouble(TWO_57) && Shortest(TWO_57) == 144115188075855870
  {
    TwoTo57();
    var u := ShortestIs(TWO_57);
    LevelOf57(Shortest(TWO_57), u);
  }

  lemma NotHundred(s: nat, u: nat)
    requires PowerOfTen(u) && s % u == 0 && ReadsAs(s, TWO_57)
    ensures u < 100
  {
    if u >= 100 {
      assert PowerOfTen(1) && PowerOfTen(10) && PowerOfTen(100);
      PowersDivide(100, u);
      DividesThrough(s, u, 100);
      HundredsMiss(s);
    }
  }

  lemma NotOne(u: nat)
    requires PowerOfTen(u) && NoneReads(TWO_57, 10 * u)
    ensures u >= 10
  {
    TwoTo57();
    assert PowerOfTen(1) && PowerOfTen(10);
    RounderBound(TWO_57, u, 10, 144115188075855870);
  }

  lemma TenOnly(u: nat)
    requires PowerOfTen(u) && 10 <= u < 100
    ensures u == 10
  {
  }

  lemma LevelOf57(s: nat, u: nat)
    requires ShortestAt(TWO_57, s, u)
    ensures s == 144115188075855870
  {
    NotHundred(s, u);
    NotOne(u);
    TenOnly(u);
    NearTen(s);
  }

  lemma NearTen(s: nat)
    requires s % 10 == 0 && ClosestOf(TWO_57, s, 10)
    ensures s == 144115188075855870
  {
    TwoTo57();
    assert 144115188075855870 % 10 == 0;
    assert Distance(s, TWO_57) <= Distance(144115188075855870, TWO_57);
  }
}
