/**
 * Angle arithmetic of the scroll generator (the static Trig helpers that need no
 * square root or trigonometric function). Angles are radians; the source works in
 * single precision, so Pi is the float value of Math.PI written out exactly.
 */
module Angles {

  /** The float value of Math.PI, written as an exact decimal. */
  const Pi: real := 3.1415927410125732421875
  /** The float value of Math.Tau, which is exactly twice the float Pi. */
  const Tau: real := 2.0 * Pi
  /** The source's "no angle" sentinel. */
  const NoAngle: real := -100.0

  function Max(a: int, b: int): int { if a < b then b else a }
  function MaxR(a: real, b: real): real { if a < b then b else a }
  function MinR(a: real, b: real): real { if a < b then a else b }
  function AbsR(x: real): real { if x < 0.0 then -x else x }

  /** Math.Ceiling, for reals. */
  function Ceil(x: real): (c: int)
    ensures x <= c as real < x + 1.0
  {
    -((-x).Floor)
  }

  /** x and y differ by a whole number of turns. */
  predicate Congruent(x: real, y: real)
  {
    var q := (x - y) / Tau;
    q.Floor as real == q
  }

  /** Two congruent angles differ by a whole number of turns. */
  lemma CongruentTurns(x: real, y: real) returns (k: int)
    requires Congruent(x, y)
    ensures x - y == k as real * Tau
  {
    k := ((x - y) / Tau).Floor;
  }

  /** A difference of k whole turns makes two angles congruent. */
  lemma TurnsCongruent(x: real, y: real, k: int)
    requires x - y == k as real * Tau
    ensures Congruent(x, y)
  {
    assert (x - y) / Tau == k as real;
  }

  /**
   * Trig.Mod2PI: folds an angle into one turn. A negative angle gets just enough
   * whole turns added to become non-negative, an angle above one turn gets whole
   * turns removed, and an angle already in [0, Tau] is returned unchanged.
   */
  function Mod2Pi(a: real): (r: real)
    ensures 0.0 <= r <= Tau
    ensures Congruent(r, a)
    ensures 0.0 <= a <= Tau ==> r == a
    ensures r == Tau <==> a == Tau
  {
    if a < 0.0 then
      var mult := Max(Ceil(-a / Tau), 1);
      FoldUp(a, mult);
      mult as real * Tau + a
    else if a > Tau then
      var mult := Max((a / Tau).Floor, 1);
      FoldDown(a, mult);
      a - mult as real * Tau
    else
      TurnsCongruent(a, a, 0);
      a
  }

  lemma FoldUp(a: real, mult: int)
    requires a < 0.0 && mult == Max(Ceil(-a / Tau), 1)
    ensures 0.0 <= mult as real * Tau + a < Tau
    ensures Congruent(mult as real * Tau + a, a)
  {
    var x := -a / Tau;
    assert x > 0.0;
    assert mult == Ceil(x);
    assert x <= mult as real < x + 1.0;
    assert -a == x * Tau;
    TurnsCongruent(mult as real * Tau + a, a, mult);
  }

  lemma FoldDown(a: real, mult: int)
    requires a > Tau && mult == Max((a / Tau).Floor, 1)
    ensures 0.0 <= a - mult as real * Tau < Tau
    ensures Congruent(a - mult as real * Tau, a)
  {
    var x := a / Tau;
    assert x > 1.0;
    assert mult == x.Floor;
    assert mult as real <= x < mult as real + 1.0;
    assert a == x * Tau;
    TurnsCongruent(a - mult as real * Tau, a, -mult);
  }

  /** Mod2PI is idempotent. */
  lemma Mod2PiIdempotent(a: real)
    ensures Mod2Pi(Mod2Pi(a)) == Mod2Pi(a)
  {
  }

  /** Two congruent angles other than exactly Tau fold onto the same angle of [0, Tau). */
  lemma {:induction false} Mod2PiCanonical(a: real, b: real)
    requires Congruent(a, b) && a != Tau && b != Tau
    ensures Mod2Pi(a) == Mod2Pi(b)
  {
    var ra, rb := Mod2Pi(a), Mod2Pi(b);
    var qa, qb := (ra - a) / Tau, (rb - b) / Tau;
    var q := (a - b) / Tau;
    assert ra - a == qa * Tau && rb - b == qb * Tau && a - b == q * Tau;
    var k := qa.Floor + q.Floor - qb.Floor;
    assert ra - rb == k as real * Tau;
    assert 0.0 <= ra < Tau && 0.0 <= rb < Tau;
    assert -1 < k < 1;
  }

  /** Trig.ComplementAngle: the direction pointing the opposite way, folded into one turn. */
  function ComplementAngle(a: real): (r: real)
    ensures 0.0 <= r <= Tau
    ensures Congruent(r, a - Pi)
  {
    Mod2Pi(a - Pi)
  }

  /** Complementing twice gives the original angle back for every angle of [0, Tau). */
  lemma ComplementInvolution(a: real)
    requires 0.0 <= a < Tau
    ensures ComplementAngle(ComplementAngle(a)) == a
  {
    if a < Pi {
      assert ComplementAngle(a) == a + Pi;
    } else {
      assert ComplementAngle(a) == a - Pi;
    }
  }

  /** Trig.SpanThruOrigin: the arc from the larger to the smaller of two angles that
      passes through angle zero. */
  function SpanThruOrigin(x: real, y: real): (r: real)
    ensures r == Tau - AbsR(x - y)
  {
    Tau - MaxR(x, y) + MinR(x, y)
  }

  /**
   * Trig.RadRatioMult: the ratio of the larger to the smaller radius, floored at 1.
   * A zero smaller radius makes the float division infinite, which the source's
   * comparison then keeps; here the guard returns 1 for that case.
   */
  function RadRatioMult(r1: real, r2: real): (m: real)
    ensures m >= 1.0
    ensures 0.0 < MinR(r1, r2) ==> m * MinR(r1, r2) == MaxR(r1, r2)
  {
    var lg := MaxR(r1, r2);
    var sm := MinR(r1, r2);
    if sm == 0.0 then 1.0
    else
      var ratio := lg / sm;
      if ratio > 1.0 then ratio else 1.0
  }
}
