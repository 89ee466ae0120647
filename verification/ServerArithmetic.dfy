/** The claim's wait as the server computes it: seconds travel as doubles, and make_interval
    rounds their product with a million to whole microseconds. */
module ServerArithmetic {
  import opened Backoff
  import opened Doubles

  const SECOND: int := 1_000_000_000

  /** 2^32 seconds (136 years) in nanoseconds. */
  const LONGEST: int := 4_294_967_296 * SECOND

  /** Go's Duration.Seconds. Whole seconds of an int64 duration convert exactly. */
  function Seconds(n: nat): real {
    Round((n / SECOND) as real + Round((n % SECOND) as real / 1000000000.0))
  }

  function MinReal(a: real, b: real): real {
    if a <= b then a else b
  }

  /** Seconds scaled by 2^e, which is exact. */
  function Stretched(n: nat, e: nat): real {
    Seconds(n) * Pow2(e) as real
  }

  /** LEAST(Base * POWER(2, e), Max). */
  function ServerSeconds(b: RetryBackoff, attempts: int): real {
    MinReal(Stretched(b.base, Exponent(attempts)), Seconds(b.cap))
  }

  /** make_interval(secs => ...), in nanoseconds. */
  function ServerWait(b: RetryBackoff, attempts: int): int {
    Rint(Round(ServerSeconds(b, attempts) * 1000000.0)) * MICROSECOND
  }

  // ----- Powers and spacings ---------------------------------------------------------------

  lemma {:induction false} SpacingScale(i: nat, j: nat)
    ensures Halved(TOP, i + j) * Pow2(j) as real == Halved(TOP, i)
    decreases j
  {
    if j > 0 {
      SpacingScale(i, j - 1);
      HalvedLast(TOP, i + j);
      var h, p := Halved(TOP, i + j), Pow2(j - 1) as real;
      assert Pow2(j) as real == 2.0 * p;
      assert h * (2.0 * p) == (h * 2.0) * p;
    }
  }

  lemma {:induction false} HalvedLast(u: real, j: nat)
    requires j > 0
    ensures Halved(u, j) * 2.0 == Halved(u, j - 1)
    decreases j
  {
    if j > 1 {
      HalvedLast(u / 2.0, j - 1);
    }
  }

  lemma Powers()
    ensures Pow2(12) == 4096 && Pow2(31) == 2147483648 && Pow2(32) == 4294967296 && Pow2(64) == 18446744073709551616
  {
    assert Pow2(4) == 16;
    assert Pow2(8) == 16 * Pow2(4);
    assert Pow2(12) == 16 * Pow2(8);
    assert Pow2(16) == 16 * Pow2(12);
    Pow2Split(16, 16);
    Pow2Split(32, 32);
  }

  /** The spacings used below: 2^-1, 2^-20, 2^-21 and 2^-53. */
  lemma Spacings()
    ensures Halved(TOP, 12) == 1.0 / 2.0
    ensures Halved(TOP, 31) == 1.0 / 1048576.0 && Halved(TOP, 32) == 1.0 / 2097152.0
    ensures Halved(TOP, 64) == 1.0 / 9007199254740992.0
  {
    Powers();
    SpacingScale(0, 12);
    SpacingScale(0, 31);
    SpacingScale(0, 32);
    SpacingScale(0, 64);
  }

  // ----- Errors of the seconds -------------------------------------------------------------

  /** Half the spacing below 2^32 s, and what the fraction of a second adds: 2^-22 + 2^-34. */
  const SLACK: real := 1.0 / 4194304.0 + 1.0 / 17179869184.0

  const SMALL: real := 1.0 / 18014398509481984.0

  /** The fraction of a second is off by at most 2^-54, and stays below one. */
  lemma FractionNear(nsec: nat)
    requires nsec < SECOND
    ensures var f := nsec as real / 1000000000.0;
            -SMALL <= Round(f) - f <= SMALL && 0.0 <= f <= 1.0 - 1.0 / 1000000000.0
  {
    Spacings();
    RoundError(nsec as real / 1000000000.0, 64);
  }

  lemma FractionPositive(nsec: nat)
    requires nsec < SECOND
    ensures Round(nsec as real / 1000000000.0) >= 0.0
  {
    var f := nsec as real / 1000000000.0;
    SpacingIsPositive(f, TOP, HALVINGS);
    var q := f / Spacing(f);
    assert q >= 0.0;
    assert Rint(q) >= 0;
  }

  lemma ScaleBounds(d: real, lo: real, hi: real, p: real)
    requires lo <= d <= hi && p > 0.0
    ensures lo * p <= d * p <= hi * p
  {
    assert (d - lo) * p >= 0.0;
    assert (hi - d) * p >= 0.0;
  }

  lemma Whole(n: nat, room: nat, p: nat)
    requires p >= 1 && room * p == 4294967296
    ensures n * p < LONGEST <==> n < room * SECOND
  {
    assert room * SECOND * p == room * p * SECOND;
    if n < room * SECOND {
      assert (room * SECOND - n) * p > 0;
    } else {
      assert (n - room * SECOND) * p >= 0;
    }
  }

  /** 2^(32-e): so many whole seconds fit below 2^32 s when scaled by 2^e. */
  lemma Room(n: nat, e: nat) returns (room: nat)
    requires e <= 20
    ensures room >= 1 && room * Pow2(e) == 4294967296
    ensures n * Pow2(e) < LONGEST <==> n / SECOND < room
  {
    hide Pow2;
    room := Pow2(32 - e);
    Pow2Split(32 - e, e);
    Powers();
    Whole(n, room, Pow2(e));
  }

  lemma SplitSeconds(n: nat)
    ensures n as real / 1000000000.0 == (n / SECOND) as real + (n % SECOND) as real / 1000000000.0
  {
    assert n == n / SECOND * SECOND + n % SECOND;
  }

  /** The spacing below 2^(32-e), and its product with 2^e. */
  lemma SpacingRoom(room: nat, e: nat)
    requires e <= 20 && room * Pow2(e) == 4294967296
    ensures P53 * Halved(TOP, 32 + e) == room as real && P52 * Halved(TOP, 31 + e) == room as real
    ensures Halved(TOP, 32 + e) * Pow2(e) as real == 1.0 / 2097152.0
  {
    hide Pow2;
    hide Halved;
    Spacings();
    SpacingScale(32, e);
    SpacingScale(31, e);
    SmallPower(e);
    RealProduct(room, Pow2(e));
    SameProduct(P53, Halved(TOP, 32 + e), Pow2(e) as real, room as real);
    SameProduct(P52, Halved(TOP, 31 + e), Pow2(e) as real, room as real);
  }

  lemma RealProduct(a: nat, b: nat)
    ensures a as real * b as real == (a * b) as real
  {
  }

  lemma SameProduct(k: real, h: real, p: real, room: real)
    requires p >= 1.0 && k * (h * p) == room * p
    ensures k * h == room
  {
    assert (k * h - room) * p == 0.0;
  }

  lemma SmallPower(e: nat)
    requires e <= 20
    ensures 1.0 <= Pow2(e) as real <= 1048576.0
  {
    Pow2Of20();
    Pow2Monotone(e, 20);
  }

  /** Rounding the sum and the fraction, both scaled. */
  lemma ScaledError(s: real, y: real, x: real, h: real, p: real)
    requires 1.0 <= p <= 1048576.0 && h * p == 1.0 / 2097152.0
    requires -h / 2.0 <= s - y <= h / 2.0 && -SMALL <= y - x <= SMALL
    ensures -SLACK <= s * p - x * p <= SLACK
  {
    Halves(h, p);
    Magnitude(s - y, h / 2.0, p, 1.0 / 4194304.0);
    ScaleBounds(p, 1.0, 1048576.0, SMALL);
    Magnitude(y - x, SMALL, p, 1.0 / 17179869184.0);
    Distribute(s, y, x, p);
  }

  lemma Magnitude(d: real, h: real, p: real, m: real)
    requires -h <= d <= h && p > 0.0 && h * p <= m
    ensures -m <= d * p <= m
  {
    assert (h - d) * p >= 0.0;
    assert (d + h) * p >= 0.0;
    assert (d + h) * p == d * p + h * p;
  }

  lemma Halves(h: real, p: real)
    ensures h / 2.0 * p == h * p / 2.0
  {
  }

  lemma Distribute(s: real, y: real, x: real, p: real)
    ensures s * p - x * p == (s - y) * p + (y - x) * p
  {
  }

  /** The whole seconds plus the rounded fraction. */
  function Sum(n: nat): real {
    (n / SECOND) as real + Round((n % SECOND) as real / 1000000000.0)
  }

  lemma SumNear(n: nat, room: nat)
    requires n / SECOND < room
    ensures -SMALL <= Sum(n) - n as real / 1000000000.0 <= SMALL && Sum(n) < room as real
  {
    hide Round;
    FractionNear(n % SECOND);
    SplitSeconds(n);
    assert (n / SECOND) as real <= room as real - 1.0;
  }

  lemma SumFar(n: nat, room: nat)
    requires n / SECOND >= room
    ensures Sum(n) >= room as real
  {
    hide Round;
    FractionPositive(n % SECOND);
  }

  lemma SecondsAreRounded(n: nat)
    ensures Seconds(n) == Round(Sum(n))
  {
    hide Round;
  }

  /** Below 2^32 s the scaled seconds are off by at most the slack. */
  lemma SecondsNear(n: nat, e: nat)
    requires e <= 20 && n * Pow2(e) < LONGEST
    ensures var exact := n as real / 1000000000.0 * Pow2(e) as real;
            -SLACK <= Stretched(n, e) - exact <= SLACK
  {
    hide Pow2;
    hide Halved;
    hide Round;
    hide Seconds;
    hide Sum;
    var room := Room(n, e);
    SecondsAreRounded(n);
    SumNear(n, room);
    SpacingRoom(room, e);
    SmallPower(e);
    RoundError(Sum(n), 32 + e);
    ScaledError(Seconds(n), Sum(n), n as real / 1000000000.0, Halved(TOP, 32 + e), Pow2(e) as real);
  }

  /** From 2^32 s on the scaled seconds are at least that long. */
  lemma SecondsFar(n: nat, e: nat)
    requires e <= 20 && n * Pow2(e) >= LONGEST
    ensures Stretched(n, e) >= 4294967296.0
  {
    hide Pow2;
    hide Halved;
    hide Round;
    hide Seconds;
    hide Sum;
    var room := Room(n, e);
    SecondsAreRounded(n);
    SumFar(n, room);
    SpacingRoom(room, e);
    SmallPower(e);
    RoundFloor(Sum(n), 31 + e);
    RealProduct(room, Pow2(e));
    ScaleBounds(Seconds(n), room as real, Seconds(n), Pow2(e) as real);
  }

  // ----- The wait --------------------------------------------------------------------------

  lemma ExactSeconds(n: nat, p: nat)
    ensures n as real / 1000000000.0 * p as real == (n * p) as real / 1000000000.0
  {
    assert (n * p) as real == n as real * p as real;
  }

  lemma ServerSecondsAre(b: RetryBackoff, attempts: int)
    ensures Exponent(attempts) <= 20
    ensures Scheduled(b, attempts) == Min(b.base * Pow2(Exponent(attempts)), b.cap)
    ensures ServerSeconds(b, attempts) == MinReal(Stretched(b.base, Exponent(attempts)), Seconds(b.cap))
  {
    hide Seconds;
    hide Stretched;
    hide Pow2;
  }

  /** The server's seconds are within the slack of the schedule. */
  lemma ServerSecondsNear(b: RetryBackoff, attempts: int)
    requires Scheduled(b, attempts) < LONGEST
    ensures -SLACK <= ServerSeconds(b, attempts) - Scheduled(b, attempts) as real / 1000000000.0 <= SLACK
  {
    hide Pow2;
    hide Seconds;
    hide Stretched;
    hide Scheduled;
    hide ServerSeconds;
    hide Exponent;
    hide Near;
    ServerSecondsAre(b, attempts);
    StretchedNear(b.base, Exponent(attempts));
    PlainSeconds(b.cap);
    MinNear(Stretched(b.base, Exponent(attempts)), Seconds(b.cap), b.base * Pow2(Exponent(attempts)), b.cap);
  }

  lemma PlainSeconds(n: nat)
    ensures Near(Seconds(n), n)
  {
    hide Seconds;
    hide Near;
    assert Pow2(0) == 1;
    StretchedNear(n, 0);
    assert Stretched(n, 0) == Seconds(n);
  }

  /** Within the slack of `x` nanoseconds, or both beyond 2^32 s. */
  predicate Near(s: real, x: int) {
    if x < LONGEST then -SLACK <= s - x as real / 1000000000.0 <= SLACK else s >= 4294967296.0
  }

  lemma StretchedNear(n: nat, e: nat)
    requires e <= 20
    ensures Near(Stretched(n, e), n * Pow2(e))
  {
    hide Stretched;
    hide Pow2;
    ExactSeconds(n, Pow2(e));
    if n * Pow2(e) < LONGEST {
      SecondsNear(n, e);
    } else {
      SecondsFar(n, e);
    }
  }

  lemma MinNear(s: real, m: real, x: int, cap: int)
    requires Near(s, x) && Near(m, cap) && Min(x, cap) < LONGEST
    ensures -SLACK <= MinReal(s, m) - Min(x, cap) as real / 1000000000.0 <= SLACK
  {
  }

  /** Below 2^32 s a whole number of microseconds survives the double arithmetic. */
  lemma WholeWaitSurvives(b: RetryBackoff, attempts: int)
    requires Scheduled(b, attempts) < LONGEST && Scheduled(b, attempts) % MICROSECOND == 0
    ensures ServerWait(b, attempts) == Scheduled(b, attempts)
  {
    hide Round;
    hide Rint;
    hide Halved;
    hide Scheduled;
    hide ServerSeconds;
    hide ServerWait;
    var s := ServerSeconds(b, attempts);
    ServerWaitIs(b, attempts);
    ServerSecondsNear(b, attempts);
    Spacings();
    RoundError(s * 1000000.0, 12);
    RintNear(Round(s * 1000000.0), Scheduled(b, attempts) / MICROSECOND);
  }

  /** Exactly when Go and the server agree on a wait below 2^32 s, for a base that converts exactly. */
  lemma DelayAgreesWithServer(b: RetryBackoff, attempts: int, platform: Platform)
    requires b.Accepted() && ToFloat64(b.base) == b.base
    ensures Delay(b, attempts, platform) == ServerWait(b, attempts) ==> Scheduled(b, attempts) % MICROSECOND == 0
    ensures Scheduled(b, attempts) < LONGEST ==>
              (Delay(b, attempts, platform) == ServerWait(b, attempts) <==> Scheduled(b, attempts) % MICROSECOND == 0)
  {
    hide Delay;
    hide Scheduled;
    hide ServerWait;
    DelayIsScheduled(b, attempts, platform);
    ServerWaitIs(b, attempts);
    if Scheduled(b, attempts) < LONGEST && Scheduled(b, attempts) % MICROSECOND == 0 {
      WholeWaitSurvives(b, attempts);
    }
  }

  lemma DelayIsScheduled(b: RetryBackoff, attempts: int, platform: Platform)
    requires b.Accepted() && ToFloat64(b.base) == b.base
    ensures Delay(b, attempts, platform) == Scheduled(b, attempts)
  {
    hide ToFloat64;
    hide Pow2;
    DelayIsCapped(b, attempts, platform);
  }

  lemma ServerWaitIs(b: RetryBackoff, attempts: int)
    ensures ServerWait(b, attempts) == Rint(Round(ServerSeconds(b, attempts) * 1000000.0)) * MICROSECOND
    ensures ServerWait(b, attempts) % MICROSECOND == 0
  {
    hide Rint;
    hide Round;
    hide ServerSeconds;
    WholeTimes(Rint(Round(ServerSeconds(b, attempts) * 1000000.0)));
  }

  lemma WholeTimes(k: int)
    ensures (k * MICROSECOND) % MICROSECOND == 0
  {
  }

  /** A base that converts exactly (as all below 2^53 ns do) and a cap below 2^32 s, both in whole
      microseconds: Go, the server and
      the schedule agree at every attempt, so the relay's model of the claim is the server's. */
  lemma WholeMicrosecondsAgree(b: RetryBackoff, attempts: int, platform: Platform)
    requires b.Accepted() && ToFloat64(b.base) == b.base && b.cap < LONGEST
    requires b.base % MICROSECOND == 0 && b.cap % MICROSECOND == 0
    ensures Delay(b, attempts, platform) == ServerWait(b, attempts) == SqlWait(b, attempts) == Scheduled(b, attempts)
  {
    WholeSchedule(b, attempts);
    DelayAgreesWithServer(b, attempts, platform);
    WholeWaitSurvives(b, attempts);
    MicrosExactly(Scheduled(b, attempts), Scheduled(b, attempts));
  }

  /** An accepted base of 1500 ns: Go announces 1500 ns, which no interval can hold. */
  lemma SubMicrosecondBaseDiffers(platform: Platform)
    ensures var b := RetryBackoff(1500, 300_000_000_000);
            && b.Accepted() && Delay(b, 1, platform) == 1500
            && ServerWait(b, 1) != 1500 && SqlWait(b, 1) == 2000
  {
    var b := RetryBackoff(1500, 300_000_000_000);
    hide ServerWait;
    hide ToFloat64;
    hide Delay;
    assert Exponent(1) == 0 && Pow2(0) == 1;
    assert Scheduled(b, 1) == 1500;
    SmallBasesAreExact(b.base);
    DelayIsScheduled(b, 1, platform);
    DelayAgreesWithServer(b, 1, platform);
  }

  /** Beyond 2^32 s whole microseconds need not survive: an accepted cap of 136 years that the
      server makes one microsecond longer. */
  lemma LongWaitDiffers(platform: Platform)
    ensures var b := RetryBackoff(51307261458000, 4295603920581763000);
            && b.Accepted() && b.base < TWO_53 && Scheduled(b, 19) % MICROSECOND == 0
            && Delay(b, 19, platform) == b.cap && ServerWait(b, 19) == b.cap + MICROSECOND
  {
    hide Pow2;
    hide Seconds;
    hide Round;
    hide Rint;
    hide Delay;
    hide ToFloat64;
    var b := RetryBackoff(51307261458000, 4295603920581763000);
    Pow2Of18();
    assert Exponent(19) == 18;
    assert Scheduled(b, 19) == b.cap;
    SmallBasesAreExact(b.base);
    DelayIsScheduled(b, 19, platform);
    LongCapSeconds();
    LongBaseSeconds();
    LongCapProduct();
  }

  lemma Pow2Of18()
    ensures Pow2(18) == 262144
  {
    Pow2Of20();
    assert Pow2(20) == 2 * (2 * Pow2(18));
  }

  lemma LongBaseSeconds()
    ensures Seconds(51307261458000) * 262144.0 >= 8000000000.0
  {
    assert 51307261458000 / SECOND == 51307;
    FractionPositive(261458000);
    Spacings();
    SpacingScale(31, 17);
    Powers17();
    RoundFloor(51307.0 + Round(261458000.0 / 1000000000.0), 48);
  }

  lemma Powers17()
    ensures Pow2(17) == 131072
  {
    Pow2Of18();
  }

  lemma LongCapSeconds()
    ensures Seconds(4295603920581763000) == 4504267176627943.0 / 1048576.0
  {
    assert 4295603920581763000 / SECOND == 4295603920 && 4295603920581763000 % SECOND == 581763000;
    Spacings();
    var f := 581763000.0 / 1000000000.0;
    RoundExactly(f, 64);
    RintNear(f / Halved(TOP, 64), 5240055260035884);
    var y := 4295603920.0 + 5240055260035884.0 / 9007199254740992.0;
    assert Round(f) == 5240055260035884.0 / 9007199254740992.0;
    RoundExactly(y, 31);
    RintNear(y / Halved(TOP, 31), 4504267176627943);
  }

  lemma LongCapProduct()
    ensures Rint(Round(4504267176627943.0 / 1048576.0 * 1000000.0)) == 4295603920581764
  {
    Spacings();
    var m := 4504267176627943.0 / 1048576.0 * 1000000.0;
    RoundExactly(m, 12);
    RintNear(m / Halved(TOP, 12), 8591207841163527);
    assert Round(m) == 8591207841163527.0 / 2.0;
  }
}
