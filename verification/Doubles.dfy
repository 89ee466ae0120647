/** IEEE 754 double arithmetic, as far as the retry schedule needs it: rounding of a non-negative
    real below 2^64 to 53 significant bits, ties to even. */
module Doubles {

  /** The nearest integer, ties to even (`rint`). */
  function Rint(x: real): (n: int)
    ensures -0.5 <= n as real - x <= 0.5
  {
    var down := x.Floor;
    var rest := x - down as real;
    if rest < 0.5 || (rest == 0.5 && down % 2 == 0) then down else down + 1
  }

  /** 2^11, the distance of neighbouring doubles below 2^64. */
  const TOP: real := 2048.0

  const P52: real := 4503599627370496.0
  const P53: real := 9007199254740992.0

  /** How often the search below may halve: down to 2^-89. */
  const HALVINGS: nat := 100

  function SpacingFrom(x: real, u: real, halvings: nat): real
    decreases halvings
  {
    if halvings == 0 || x >= P52 * u then u else SpacingFrom(x, u / 2.0, halvings - 1)
  }

  /** Distance of neighbouring doubles around `x`: the largest power of two with 2^52 of it below. */
  function Spacing(x: real): real {
    SpacingFrom(x, TOP, HALVINGS)
  }

  /** The double nearest to `x`. */
  function Round(x: real): real
  {
    SpacingIsPositive(x, TOP, HALVINGS);
    Rint(x / Spacing(x)) as real * Spacing(x)
  }

  lemma {:induction false} SpacingIsPositive(x: real, u: real, halvings: nat)
    requires u > 0.0
    ensures 0.0 < SpacingFrom(x, u, halvings) <= u
    decreases halvings
  {
    if halvings > 0 && x < P52 * u {
      SpacingIsPositive(x, u / 2.0, halvings - 1);
    }
  }

  /** `u` halved `j` times. */
  function Halved(u: real, j: nat): real
    decreases j
  {
    if j == 0 then u else Halved(u / 2.0, j - 1)
  }

  /** Below 2^53 of some spacing the doubles are at least that dense. */
  lemma {:induction false} SpacingAtMost(x: real, u: real, halvings: nat, j: nat)
    requires u > 0.0 && j <= halvings && x < P53 * Halved(u, j)
    ensures SpacingFrom(x, u, halvings) <= Halved(u, j)
    decreases j
  {
    if j == 0 {
      SpacingIsPositive(x, u, halvings);
    } else {
      HalvedIsSmaller(u / 2.0, j - 1);
      SpacingAtMost(x, u / 2.0, halvings - 1, j - 1);
    }
  }

  lemma {:induction false} HalvedIsSmaller(u: real, j: nat)
    requires u > 0.0
    ensures 0.0 < Halved(u, j) <= u
    decreases j
  {
    if j > 0 {
      HalvedIsSmaller(u / 2.0, j - 1);
    }
  }

  /** From 2^52 of some spacing on they are at most that dense. */
  lemma {:induction false} SpacingAtLeast(x: real, u: real, halvings: nat, j: nat)
    requires u > 0.0 && j <= halvings && x >= P52 * Halved(u, j)
    ensures SpacingFrom(x, u, halvings) >= Halved(u, j)
    decreases j
  {
    HalvedIsSmaller(u, j);
    if j > 0 && x < P52 * u {
      SpacingAtLeast(x, u / 2.0, halvings - 1, j - 1);
    }
  }

  lemma Scaled(n: real, q: real, x: real, u: real)
    requires u > 0.0 && -0.5 <= n - q <= 0.5 && q * u == x
    ensures -u / 2.0 <= n * u - x <= u / 2.0
  {
    var d, a, b := n - q, n * u, q * u;
    assert a - b == d * u;
    ScaledUp(d, u);
  }

  lemma Quotient(x: real, u: real)
    requires u > 0.0
    ensures x / u * u == x
  {
  }

  lemma ScaledUp(d: real, u: real)
    requires u > 0.0 && -0.5 <= d <= 0.5
    ensures -u / 2.0 <= d * u <= u / 2.0
  {
    assert (0.5 - d) * u >= 0.0;
    assert (d + 0.5) * u >= 0.0;
  }

  /** Rounding errs by at most half the spacing. */
  lemma RoundError(x: real, j: nat)
    requires j <= HALVINGS && x < P53 * Halved(TOP, j)
    ensures -Halved(TOP, j) / 2.0 <= Round(x) - x <= Halved(TOP, j) / 2.0
  {
    hide SpacingFrom;
    hide Halved;
    hide Rint;
    var u := Spacing(x);
    SpacingIsPositive(x, TOP, HALVINGS);
    SpacingAtMost(x, TOP, HALVINGS, j);
    var n := Rint(x / u) as real;
    Quotient(x, u);
    Scaled(n, x / u, x, u);
    RoundIs(x);
  }

  lemma RoundIs(x: real)
    ensures Spacing(x) > 0.0 && Round(x) == Rint(x / Spacing(x)) as real * Spacing(x)
  {
    SpacingIsPositive(x, TOP, HALVINGS);
    hide SpacingFrom;
    hide Rint;
  }

  /** Rounding does not cross a power of two. */
  lemma RoundFloor(x: real, j: nat)
    requires j <= HALVINGS && x >= P52 * Halved(TOP, j)
    ensures Round(x) >= P52 * Halved(TOP, j)
  {
    var u := Spacing(x);
    SpacingIsPositive(x, TOP, HALVINGS);
    SpacingAtLeast(x, TOP, HALVINGS, j);
    HalvedIsSmaller(TOP, j);
    SpacingFits(x, TOP, HALVINGS, j);
    assert x / u >= P52 by {
      Divided(x, u);
    }
    assert Rint(x / u) >= 4503599627370496;
    Multiplied(Rint(x / u), u, Halved(TOP, j));
  }

  lemma {:induction false} SpacingFits(x: real, u: real, halvings: nat, j: nat)
    requires u > 0.0 && j <= halvings && x >= P52 * Halved(u, j)
    ensures x >= P52 * SpacingFrom(x, u, halvings)
    decreases j
  {
    if j > 0 && x < P52 * u {
      SpacingFits(x, u / 2.0, halvings - 1, j - 1);
    }
  }

  lemma Divided(x: real, u: real)
    requires u > 0.0 && x >= P52 * u
    ensures x / u >= P52
  {
    var q := x / u;
    assert q * u == x;
    if q < P52 {
      LessTimes(q, P52, u);
      assert false;
    }
  }

  lemma LessTimes(a: real, b: real, u: real)
    requires a < b && u > 0.0
    ensures a * u < b * u
  {
    assert (b - a) * u > 0.0;
  }

  lemma Multiplied(n: int, u: real, v: real)
    requires n >= 4503599627370496 && u >= v > 0.0
    ensures n as real * u >= P52 * v
  {
    assert (n as real - P52) * u >= 0.0;
    assert P52 * (u - v) >= 0.0;
  }

  /** Between 2^52 and 2^53 of a spacing, rounding is rounding to that spacing. */
  lemma RoundExactly(x: real, j: nat)
    requires j <= HALVINGS && P52 * Halved(TOP, j) <= x < P53 * Halved(TOP, j)
    ensures Halved(TOP, j) > 0.0
    ensures Round(x) == Rint(x / Halved(TOP, j)) as real * Halved(TOP, j)
  {
    hide SpacingFrom;
    hide Halved;
    hide Rint;
    HalvedIsSmaller(TOP, j);
    SpacingAtMost(x, TOP, HALVINGS, j);
    SpacingAtLeast(x, TOP, HALVINGS, j);
    assert Spacing(x) == Halved(TOP, j);
  }

  lemma RintNear(x: real, k: int)
    requires -0.5 < x - k as real < 0.5
    ensures Rint(x) == k
  {
  }
}
