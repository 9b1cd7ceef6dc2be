/**
 Angle arithmetic on the circle. The full turn 2π is an abstract positive
 constant: no property below depends on its numeric value, only on its sign.
 Angles are exact reals (no floating-point rounding).
 */
module Angles {

  type Positive = x: real | x > 0.0 witness 1.0

  /** The full turn, 2π, left abstract. */
  const Turn: Positive

  /** The full turn as a plain real. */
  const TwoPi: real := Turn

  /** Half a turn, π. */
  const Pi: real := TwoPi / 2.0

  /** Python's `x % (2 * pi)` on exact reals: floored modulus, so the result is never negative. */
  function Mod2Pi(x: real): (r: real)
    ensures 0.0 <= r < TwoPi
  {
    var k := (x / TwoPi).Floor;
    FloorScale(x, k);
    x - k as real * TwoPi
  }

  /** Multiplying `k <= x / T < k + 1` through by `T > 0`. */
  lemma FloorScale(x: real, k: int)
    requires k == (x / TwoPi).Floor
    ensures 0.0 <= x - k as real * TwoPi < TwoPi
  {
    var q := x / TwoPi;
    DivMul(x, TwoPi);
    var e := q - k as real;
    assert 0.0 <= e < 1.0;
    Distrib(q, k as real, TwoPi);
    MulNonNeg(e, TwoPi);
    MulPos(1.0 - e, TwoPi);
    Distrib(1.0, e, TwoPi);
    assert x == q * TwoPi;
    assert x - k as real * TwoPi == e * TwoPi;
    assert 1.0 * TwoPi - e * TwoPi > 0.0;
    assert e * TwoPi < TwoPi;
  }

  lemma DivMul(x: real, t: real)
    requires t > 0.0
    ensures (x / t) * t == x
  {}

  lemma Distrib(a: real, b: real, t: real)
    ensures a * t - b * t == (a - b) * t
  {}

  lemma MulNonNeg(a: real, t: real)
    requires a >= 0.0 && t > 0.0
    ensures a * t >= 0.0
  {}

  lemma MulPos(a: real, t: real)
    requires a > 0.0 && t > 0.0
    ensures a * t > 0.0
  {}

  /** Python's `uniform(0, t)`, which is `t * random()`: a value in [0, t). */
  function Uniform(t: real, u: real): (r: real)
    requires t > 0.0 && 0.0 <= u < 1.0
    ensures 0.0 <= r < t
  {
    ScaledDrawInRange(t, u);
    t * u
  }

  /** A fraction `u` in [0, 1) of a positive `t` lies in [0, t). */
  lemma ScaledDrawInRange(t: real, u: real)
    requires t > 0.0 && 0.0 <= u < 1.0
    ensures 0.0 <= t * u < t
  {
    MulNonNeg(u, t);
    MulPos(1.0 - u, t);
    Distrib(1.0, u, t);
  }

  /** An integer multiple of a full turn strictly between `-2π` and `2π` is zero. */
  lemma SmallMultipleIsZero(d: int)
    requires -TwoPi < d as real * TwoPi < TwoPi
    ensures d == 0
  {
    if d >= 1 {
      MulNonNeg(d as real - 1.0, TwoPi);
      Distrib(d as real, 1.0, TwoPi);
    } else if d <= -1 {
      MulNonNeg(-1.0 - d as real, TwoPi);
      Distrib(-1.0, d as real, TwoPi);
    }
  }

  /** The residue is the unique value in [0, 2π) congruent to `x`. */
  lemma {:induction false} ModUnique(x: real, r: real, k: int)
    requires 0.0 <= r < TwoPi
    requires x == r + k as real * TwoPi
    ensures Mod2Pi(x) == r
  {
    var m := Mod2Pi(x);
    var j := ModDecompose(x);
    Distrib(k as real, j as real, TwoPi);
    assert (k - j) as real * TwoPi == m - r;
    SmallDifferenceIsZero(k - j, m, r);
  }

  /** A multiple of a full turn that is the difference of two angles in [0, 2π) is zero. */
  lemma SmallDifferenceIsZero(d: int, m: real, r: real)
    requires d as real * TwoPi == m - r
    requires 0.0 <= m < TwoPi && 0.0 <= r < TwoPi
    ensures d == 0
  {
    var p := d as real * TwoPi;
    assert -TwoPi < p < TwoPi;
    SmallMultipleIsZero(d);
  }

  /** Reducing an angle that is already in [0, 2π) leaves it unchanged. */
  lemma ModOfInRange(x: real)
    requires 0.0 <= x < TwoPi
    ensures Mod2Pi(x) == x
  {
    ModUnique(x, x, 0);
  }

  /** Reducing an angle in [2π, 4π) subtracts one full turn. */
  lemma ModOfSecondTurn(x: real)
    requires TwoPi <= x < 2.0 * TwoPi
    ensures Mod2Pi(x) == x - TwoPi
  {
    ModUnique(x, x - TwoPi, 1);
  }

  /** Reducing an angle in [-2π, 0) adds one full turn. */
  lemma ModOfPreviousTurn(x: real)
    requires -TwoPi <= x < 0.0
    ensures Mod2Pi(x) == x + TwoPi
  {
    ModUnique(x, x + TwoPi, -1);
  }

  /** Every real is its residue plus a whole number of turns. */
  lemma ModDecompose(x: real) returns (k: int)
    ensures x == Mod2Pi(x) + k as real * TwoPi
  {
    k := (x / TwoPi).Floor;
  }

  /** The residue of a difference depends only on the residues of its operands. */
  lemma ModOfDifference(a: real, b: real)
    ensures Mod2Pi(a - b) == Mod2Pi(Mod2Pi(a) - Mod2Pi(b))
  {
    var ka := ModDecompose(a);
    var kb := ModDecompose(b);
    var d := Mod2Pi(a) - Mod2Pi(b);
    var kd := ModDecompose(d);
    Distrib(ka as real, kb as real, TwoPi);
    Distrib((kd + ka - kb) as real, kd as real, TwoPi);
    assert a - b == Mod2Pi(d) + (kd + ka - kb) as real * TwoPi;
    ModUnique(a - b, Mod2Pi(d), kd + ka - kb);
  }
}
