/** The retry schedule of the outbox relay, written twice by the program: once in Go
    (`RetryBackoff.Delay`, float64 and int64 arithmetic) and once in the SQL claim
    predicate. Durations are nanoseconds. */
module Backoff {

  const TWO_53: int := 0x20_0000_0000_0000
  const TWO_63: int := 0x8000_0000_0000_0000

  /** `RetryBackoff`; `cap` is its field `Max`. */
  datatype RetryBackoff = RetryBackoff(base: nat, cap: nat) {
    /** What the configuration loader accepts (both are int64 durations). */
    predicate Accepted() {
      0 < base <= cap < TWO_63
    }
  }

  function Min(a: int, b: int): int {
    if a <= b then a else b
  }

  function Pow2(n: nat): (p: nat)
    ensures p >= 1
  {
    if n == 0 then 1 else 2 * Pow2(n - 1)
  }

  /** The exponent both sides clamp to 0..20. */
  function Exponent(attempts: int): nat {
    if attempts - 1 < 0 then 0 else if attempts - 1 > 20 then 20 else attempts - 1
  }

  /** The wait both sides document: Base * 2^e, capped at Max. */
  function Scheduled(b: RetryBackoff, attempts: int): nat {
    Min(b.base * Pow2(Exponent(attempts)), b.cap)
  }

  const MICROSECOND: int := 1000

  /** An interval holds whole microseconds: make_interval rounds to the nearest, ties to even. */
  function Micros(n: nat): nat {
    var q, r := n / MICROSECOND, n % MICROSECOND;
    if 2 * r < MICROSECOND || (2 * r == MICROSECOND && q % 2 == 0) then q * MICROSECOND else (q + 1) * MICROSECOND
  }

  /** The wait of the SQL claim predicate, from exact seconds. */
  function SqlWait(b: RetryBackoff, attempts: int): nat {
    Micros(Scheduled(b, attempts))
  }

  /** Distance between neighbouring float64 values around `n`. */
  function Ulp(n: nat): (u: nat)
    ensures u >= 1
  {
    if n < TWO_53 then 1 else 2 * Ulp(n / 2)
  }

  /** The conversion of an integer to float64: nearest value, ties to even. */
  function ToFloat64(n: nat): nat {
    var u := Ulp(n);
    var q, r := n / u, n % u;
    if 2 * r < u || (2 * r == u && q % 2 == 0) then q * u else (q + 1) * u
  }

  /** Go leaves an out-of-range float-to-int64 conversion to the platform: amd64 yields
      the smallest int64, arm64 saturates. */
  datatype Platform = Amd64 | Arm64

  function ToInt64(x: nat, platform: Platform): int {
    if x < TWO_63 then x else if platform.Amd64? then -TWO_63 else TWO_63 - 1
  }

  /** The Go method. Scaling a float64 by a power of two is exact at these magnitudes. */
  function Delay(b: RetryBackoff, attempts: int, platform: Platform): int {
    var d := ToInt64(ToFloat64(b.base) * Pow2(Exponent(attempts)), platform);
    if b.cap > 0 && (d > b.cap || d < 0) then b.cap else d
  }

  /** Total wait between the first failure and the (n+1)-th, as the claim predicate sees it. */
  function TotalWait(b: RetryBackoff, n: nat): nat {
    if n == 0 then 0 else TotalWait(b, n - 1) + SqlWait(b, n)
  }

  lemma {:induction false} Pow2Monotone(m: nat, n: nat)
    requires m <= n
    ensures Pow2(m) <= Pow2(n)
  {
    if m < n {
      Pow2Monotone(m, n - 1);
    }
  }

  /** Every base below 2^53 ns (104 days) converts exactly. */
  lemma SmallBasesAreExact(n: nat)
    requires n < TWO_53
    ensures ToFloat64(n) == n
  {
    assert Ulp(n) == 1;
    assert n % 1 == 0;
  }

  /** Ulp is a power of two that leaves 53 bits. */
  lemma {:induction false} UlpIsPower(n: nat) returns (j: nat)
    ensures Ulp(n) == Pow2(j) && n / Ulp(n) < TWO_53 && (j > 0 ==> n / Ulp(n) >= TWO_53 / 2)
  {
    if n < TWO_53 {
      j := 0;
    } else {
      j := UlpIsPower(n / 2);
      HalfQuotient(n, Ulp(n / 2));
      j := j + 1;
    }
  }

  lemma HalfQuotient(n: nat, u: nat)
    requires u >= 1
    ensures n / (2 * u) == n / 2 / u
  {
    var q, r := n / 2 / u, n / 2 % u;
    assert n / 2 == q * u + r;
    QuotientIs(n, 2 * u, q, 2 * r + n % 2);
  }

  lemma QuotientIs(n: nat, d: nat, q: nat, r: nat)
    requires r < d && n == q * d + r
    ensures n / d == q
  {
    var q' := n / d;
    assert n == q' * d + n % d;
    if q' < q {
      MulMonotone(d, q' + 1, q);
    } else if q' > q {
      MulMonotone(d, q + 1, q');
    }
  }

  lemma {:induction false} Pow2Split(i: nat, j: nat)
    ensures Pow2(i + j) == Pow2(i) * Pow2(j)
  {
    if i > 0 {
      Pow2Split(i - 1, j);
      DoubleFirst(Pow2(i - 1), Pow2(j));
    }
  }

  lemma DoubleFirst(a: int, b: int)
    ensures 2 * a * b == 2 * (a * b)
  {
  }

  /** No float64 value lies strictly between two neighbouring multiples of the Ulp. */
  lemma NothingBetween(q: nat, j: nat, m: nat, k: nat)
    requires q < TWO_53 && (j > 0 ==> q >= TWO_53 / 2) && m <= TWO_53
    ensures m * Pow2(k) <= q * Pow2(j) || m * Pow2(k) >= (q + 1) * Pow2(j)
  {
    hide Pow2;
    if k >= j {
      Pow2Split(k - j, j);
      Regroup(m, Pow2(k - j), Pow2(j));
      MultipleOrNot(m * Pow2(k - j), q, Pow2(j));
    } else {
      Pow2Monotone(k, j - 1);
      Pow2Next(j);
      CoarserIsBelow(m, Pow2(k), Pow2(j - 1), q);
    }
  }

  lemma Pow2Next(j: nat)
    requires j > 0
    ensures Pow2(j) == 2 * Pow2(j - 1)
  {
  }

  lemma MultipleOrNot(c: nat, q: nat, u: nat)
    ensures c * u <= q * u || c * u >= (q + 1) * u
  {
    if c <= q {
      MulMonotone(u, c, q);
    } else {
      MulMonotone(u, q + 1, c);
    }
  }

  lemma CoarserIsBelow(m: nat, p: nat, h: nat, q: nat)
    requires m <= TWO_53 && p <= h && q >= TWO_53 / 2
    ensures m * p <= q * (2 * h)
  {
    MulMonotone(m, p, h);
    MulMonotone(h, m, 2 * q);
    assert h * (2 * q) == q * (2 * h);
  }

  lemma Regroup(a: nat, b: nat, c: nat)
    ensures a * (b * c) == a * b * c
  {
  }

  function Distance(a: int, b: int): nat {
    if a <= b then b - a else a - b
  }

  /** The conversion yields a float64 value, 53 bits times a power of two; no float64 value is
      nearer to the integer, and when another is as near, the even one is taken. */
  lemma ToFloat64IsNearest(n: nat) returns (c: nat, j: nat)
    ensures ToFloat64(n) == c * Pow2(j) && c <= TWO_53
    ensures forall m: nat, k: nat :: m <= TWO_53 ==> Distance(ToFloat64(n), n) <= Distance(m * Pow2(k), n)
    ensures Distance(ToFloat64(n), n) * 2 == Pow2(j) ==> c % 2 == 0
  {
    hide Pow2;
    hide Ulp;
    hide ToFloat64;
    hide Distance;
    j := UlpIsPower(n);
    c := RoundedMultiple(n);
    forall m: nat, k: nat | m <= TWO_53 ensures Distance(ToFloat64(n), n) <= Distance(m * Pow2(k), n) {
      NothingBetween(n / Ulp(n), j, m, k);
    }
  }

  lemma RoundedMultiple(n: nat) returns (c: nat)
    ensures ToFloat64(n) == c * Ulp(n) && c <= n / Ulp(n) + 1
    ensures forall v: nat :: v <= n / Ulp(n) * Ulp(n) || v >= (n / Ulp(n) + 1) * Ulp(n) ==>
              Distance(ToFloat64(n), n) <= Distance(v, n)
    ensures Distance(ToFloat64(n), n) * 2 == Ulp(n) ==> c % 2 == 0
  {
    hide Ulp;
    hide Distance;
    var u := Ulp(n);
    var q, r := n / u, n % u;
    c := if 2 * r < u || (2 * r == u && q % 2 == 0) then q else q + 1;
    QuotientAndRest(n, u, q, r);
    RoundedIsNearest(n, u, q, r, c);
  }

  lemma QuotientAndRest(n: nat, u: nat, q: nat, r: nat)
    requires u >= 1 && q == n / u && r == n % u
    ensures n == q * u + r && r < u
  {
  }

  lemma RoundedIsNearest(n: nat, u: nat, q: nat, r: nat, c: nat)
    requires n == q * u + r && r < u
    requires c == if 2 * r < u || (2 * r == u && q % 2 == 0) then q else q + 1
    ensures forall v: nat :: v <= q * u || v >= (q + 1) * u ==> Distance(c * u, n) <= Distance(v, n)
    ensures Distance(c * u, n) * 2 == u ==> c % 2 == 0
  {
    assert (q + 1) * u == q * u + u;
  }

  /** The largest duration converts to 2^63, which no longer fits; the wait is the cap all the same. */
  lemma LargestDurationIsCapped(attempts: int, platform: Platform)
    ensures var b := RetryBackoff(9223372036854775807, 9223372036854775807);
            b.Accepted() && Delay(b, attempts, platform) == 9223372036854775807
  {
    hide Ulp;
    hide ToFloat64;
    var b := RetryBackoff(9223372036854775807, 9223372036854775807);
    DelayIsCapped(b, attempts, platform);
    LargestConvertsUp();
    MulMonotone(TWO_63, 1, Pow2(Exponent(attempts)));
  }

  lemma {:induction false} UlpBelowPower(k: nat)
    ensures TWO_53 * Pow2(k) >= 1 && Ulp(TWO_53 * Pow2(k) - 1) == Pow2(k)
  {
    MulMonotone(TWO_53, 1, Pow2(k));
    if k > 0 {
      UlpBelowPower(k - 1);
      DoubleProduct(TWO_53, k);
      MulMonotone(TWO_53, 1, Pow2(k - 1));
    }
  }

  lemma LargestConvertsUp()
    ensures ToFloat64(9223372036854775807) == TWO_63
  {
    UlpBelowPower(10);
    assert Pow2(10) == 1024 by {
      assert Pow2(4) == 16;
      assert Pow2(8) == 16 * Pow2(4);
    }
    hide Ulp;
    assert Ulp(9223372036854775807) == 1024;
  }

  /** Without a cap the product is the wait, as long as it fits. */
  lemma DelayWithoutCap(base: nat, attempts: int, platform: Platform)
    ensures var d := ToFloat64(base) * Pow2(Exponent(attempts));
            Delay(RetryBackoff(base, 0), attempts, platform)
            == if d < 9223372036854775808 then d
               else if platform.Amd64? then -9223372036854775808 else 9223372036854775807
  {
  }

  /** Whatever the float64 rounding and the platform's overflow value, Go computes
      min(float64(Base) * 2^e, Max). */
  lemma DelayIsCapped(b: RetryBackoff, attempts: int, platform: Platform)
    requires b.Accepted()
    ensures Delay(b, attempts, platform) == Min(ToFloat64(b.base) * Pow2(Exponent(attempts)), b.cap)
  {
    var x: nat := ToFloat64(b.base) * Pow2(Exponent(attempts));
    assert x >= TWO_63 ==> Min(x, b.cap) == b.cap;
  }

  /** `m` is the microsecond value nearest to `n`. */
  predicate RoundsTo(n: nat, m: nat) {
    && m % MICROSECOND == 0
    && (-500 < n - m < 500 || ((n - m == 500 || m - n == 500) && (m / MICROSECOND) % 2 == 0))
  }

  lemma MicrosExactly(n: nat, m: nat)
    ensures Micros(n) == m <==> RoundsTo(n, m)
    ensures Micros(n) == n <==> n % MICROSECOND == 0
    ensures -500 <= Micros(n) - n <= 500
  {
    var k := m / MICROSECOND;
    if RoundsTo(n, m) {
      assert m == k * MICROSECOND;
    }
  }

  lemma MicrosMonotone(m: nat, n: nat)
    requires m <= n
    ensures Micros(m) <= Micros(n)
  {
    assert m / MICROSECOND <= n / MICROSECOND;
  }

  /** Exactly when the Go method and the wait of exact seconds agree. Below 2^53 ns the base
      converts exactly, and they agree if and only if the scheduled wait is a whole number of
      microseconds. Otherwise what Go computes must be the microsecond nearest to the scheduled
      wait. (`ServerArithmetic` has the same for seconds that travel as doubles.) */
  lemma DelayAgreesWithSql(b: RetryBackoff, attempts: int, platform: Platform)
    requires b.Accepted()
    ensures Delay(b, attempts, platform) == SqlWait(b, attempts)
            <==> RoundsTo(Scheduled(b, attempts), Min(ToFloat64(b.base) * Pow2(Exponent(attempts)), b.cap))
    ensures b.base < TWO_53 ==>
              (Delay(b, attempts, platform) == SqlWait(b, attempts) <==> Scheduled(b, attempts) % MICROSECOND == 0)
  {
    DelayIsCapped(b, attempts, platform);
    MicrosExactly(Scheduled(b, attempts), Min(ToFloat64(b.base) * Pow2(Exponent(attempts)), b.cap));
    if b.base < TWO_53 {
      SmallBasesAreExact(b.base);
    }
  }

  lemma WholeSchedule(b: RetryBackoff, attempts: int)
    requires b.base % MICROSECOND == 0 && b.cap % MICROSECOND == 0
    ensures Scheduled(b, attempts) % MICROSECOND == 0
  {
    var p := Pow2(Exponent(attempts));
    WholeProduct(b.base / MICROSECOND, p);
    assert b.base == b.base / MICROSECOND * MICROSECOND;
    assert b.base * p == b.base / MICROSECOND * p * MICROSECOND;
  }

  lemma WholeProduct(k: nat, p: nat)
    ensures (k * p * MICROSECOND) % MICROSECOND == 0
  {
  }

  lemma MulMonotone(a: nat, p: int, q: int)
    requires p <= q
    ensures a * p <= a * q
  {
  }

  lemma ScheduleMonotone(b: RetryBackoff, m: int, n: int)
    requires m <= n
    ensures Scheduled(b, m) <= Scheduled(b, n)
  {
    Pow2Monotone(Exponent(m), Exponent(n));
    MulMonotone(b.base, Pow2(Exponent(m)), Pow2(Exponent(n)));
  }

  lemma WaitMonotone(b: RetryBackoff, m: int, n: int)
    requires m <= n
    ensures SqlWait(b, m) <= SqlWait(b, n)
  {
    ScheduleMonotone(b, m, n);
    MicrosMonotone(Scheduled(b, m), Scheduled(b, n));
  }

  /** The schedule levels off at min(Base * 2^20, Max), so it reaches Max, as its comment says,
      exactly when 2^20 doublings of the base suffice; the claim's wait does exactly when Max is
      the microsecond nearest to that plateau. */
  lemma PlateauReachesMax(b: RetryBackoff)
    requires b.Accepted()
    ensures forall n :: n >= 21 ==> Scheduled(b, n) == Min(b.base * Pow2(20), b.cap)
    ensures (exists n :: Scheduled(b, n) == b.cap) <==> b.base * Pow2(20) >= b.cap
    ensures (exists n :: SqlWait(b, n) == b.cap) <==> RoundsTo(Min(b.base * Pow2(20), b.cap), b.cap)
  {
    assert Exponent(21) == 20;
    if n :| Scheduled(b, n) == b.cap {
      ScheduleMonotone(b, n, if n > 21 then n else 21);
    }
    if b.base * Pow2(20) >= b.cap {
      assert Scheduled(b, 21) == b.cap;
    }
    SqlPlateau(b);
  }

  lemma SqlPlateau(b: RetryBackoff)
    requires b.Accepted()
    ensures (exists n :: SqlWait(b, n) == b.cap) <==> RoundsTo(Scheduled(b, 21), b.cap)
  {
    if n :| SqlWait(b, n) == b.cap {
      MicrosExactly(Scheduled(b, n), b.cap);
      MicrosExactly(b.cap, b.cap);
      MicrosMonotone(Scheduled(b, 21), b.cap);
      var m := if n > 21 then n else 21;
      WaitMonotone(b, n, m);
      assert Exponent(m) == Exponent(21);
    }
    MicrosExactly(Scheduled(b, 21), b.cap);
    assert RoundsTo(Scheduled(b, 21), b.cap) ==> SqlWait(b, 21) == b.cap;
  }

  /** A one-nanosecond base never gets near a five-minute cap. */
  lemma PlateauBelowMax()
    ensures var b := RetryBackoff(1, 300_000_000_000);
            b.Accepted() && forall n :: SqlWait(b, n) < b.cap
  {
    var b := RetryBackoff(1, 300_000_000_000);
    Pow2Of20();
    assert Exponent(21) == 20;
    forall n ensures SqlWait(b, n) < b.cap {
      WaitMonotone(b, n, if n > 21 then n else 21);
    }
  }

  lemma Pow2Of20()
    ensures Pow2(5) == 32 && Pow2(6) == 64 && Pow2(20) == 0x10_0000
  {
    assert Pow2(4) == 16;
    assert Pow2(8) == 16 * Pow2(4);
    assert Pow2(12) == 16 * Pow2(8);
    assert Pow2(16) == 16 * Pow2(12);
  }

  /** The same total of the unrounded schedule. */
  function TotalScheduled(b: RetryBackoff, n: nat): nat {
    if n == 0 then 0 else TotalScheduled(b, n - 1) + Scheduled(b, n)
  }

  /** Rounding moves the window by at most half a microsecond per wait, and not at all when
      base and cap are whole microseconds. */
  lemma {:induction false} WindowDrift(b: RetryBackoff, n: nat)
    ensures -500 * n <= TotalWait(b, n) - TotalScheduled(b, n) <= 500 * n
    ensures b.base % MICROSECOND == 0 && b.cap % MICROSECOND == 0 ==> TotalWait(b, n) == TotalScheduled(b, n)
  {
    if n > 0 {
      WindowDrift(b, n - 1);
      MicrosExactly(Scheduled(b, n), Scheduled(b, n));
      if b.base % MICROSECOND == 0 && b.cap % MICROSECOND == 0 {
        WholeSchedule(b, n);
      }
    }
  }

  /** Closed form of the whole scheduled window: `j` doublings below the cap, then the cap. */
  lemma WindowClosedForm(b: RetryBackoff, j: nat, n: nat)
    requires j <= 20 && j <= n
    requires j > 0 ==> b.base * Pow2(j - 1) <= b.cap
    requires b.base * Pow2(j) >= b.cap
    ensures TotalScheduled(b, n) + b.base == b.base * Pow2(j) + (n - j) * b.cap
  {
    Doublings(b, j);
    CappedTail(b, j, n - j);
  }

  lemma {:induction false} CappedTail(b: RetryBackoff, j: nat, extra: nat)
    requires j <= 20 && b.base * Pow2(j) >= b.cap
    ensures TotalScheduled(b, j + extra) == TotalScheduled(b, j) + extra * b.cap
  {
    if extra > 0 {
      CappedTail(b, j, extra - 1);
      CappedWait(b, j, j + extra);
      OneMore(extra, b.cap);
    }
  }

  lemma OneMore(n: nat, c: nat)
    requires n > 0
    ensures n * c == (n - 1) * c + c
  {
  }

  lemma CappedWait(b: RetryBackoff, j: nat, n: nat)
    requires j <= 20 && b.base * Pow2(j) >= b.cap && n > j
    ensures Scheduled(b, n) == b.cap
  {
    assert Scheduled(b, j + 1) == b.cap;
    ScheduleMonotone(b, j + 1, n);
  }

  lemma DoubleProduct(a: int, j: nat)
    requires j > 0
    ensures a * Pow2(j) == a * Pow2(j - 1) + a * Pow2(j - 1)
  {
  }

  lemma {:induction false} Doublings(b: RetryBackoff, j: nat)
    requires j <= 20
    requires j > 0 ==> b.base * Pow2(j - 1) <= b.cap
    ensures TotalScheduled(b, j) + b.base == b.base * Pow2(j)
  {
    if j > 0 {
      DoubleProduct(b.base, j);
      if j > 1 {
        DoubleProduct(b.base, j - 1);
        MulMonotone(b.base, 0, Pow2(j - 2));
      }
      Doublings(b, j - 1);
    }
  }

  /** The documented defaults (5 s, 5 min, 10 attempts) leave a window of 1215 s. */
  lemma DefaultWindow()
    ensures TotalWait(RetryBackoff(5_000_000_000, 300_000_000_000), 9) == 1215_000_000_000
  {
    Pow2Of20();
    WindowClosedForm(RetryBackoff(5_000_000_000, 300_000_000_000), 6, 9);
    WindowDrift(RetryBackoff(5_000_000_000, 300_000_000_000), 9);
  }
}
