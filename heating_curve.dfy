/** The heating curve: water setpoint from the room target, the room and the outside temperature. */
module Curve {
  import Temperatures

  /** Slope of the steepest supported curve (water 55 degrees); the effective factor never exceeds it. */
  const W55: real := 1.175
  /** Default baseline factor A, inside-error gain B and curvature blend C. */
  const DefaultA: real := 0.55
  const DefaultB: real := 0.45
  const DefaultC: real := 0.30

  /** The range a factor setter accepts. */
  predicate InRange(n: real) {
    0.0 <= n <= 1.5
  }

  function Min(x: real, y: real): real {
    if x <= y then x else y
  }

  function Max(x: real, y: real): real {
    if x >= y then x else y
  }

  /** The effective factor: B times the inside error, negated in the cooling regime, never
      below 0, plus the baseline A, capped at the W55 slope. */
  function EffectiveFactor(a: real, b: real, deltaOutside: real, deltaInside: real): (f: real)
    ensures Min(a, W55) <= f <= W55
  {
    var raw := b * deltaInside;
    var signed := if deltaOutside < 0.0 then -raw else raw;
    var demand := if signed < 0.0 then 0.0 else signed;
    if demand + a > W55 then W55 else demand + a
  }

  /** The curve: linear in the outside delta when C is 0, otherwise a blend of a quadratic term
      scaled by the target and a linear one, which agree at delta = target. */
  function CurveShape(c: real, target: real, deltaOutside: real): real
    requires c > 0.0 ==> target != 0.0
  {
    if c > 0.0 then c / target * (deltaOutside * deltaOutside) + (1.0 - c) * deltaOutside
    else deltaOutside
  }

  datatype Result = Result(factor: real, setpoint: real)

  /** `calculate` on the three averages: the effective factor and the water setpoint. */
  function Evaluate(a: real, b: real, c: real, current: real, target: real, outside: real): (r: Result)
    requires c > 0.0 ==> target != 0.0
    ensures Min(a, W55) <= r.factor <= W55
  {
    var f := EffectiveFactor(a, b, target - outside, target - current);
    Result(f, target + f * CurveShape(c, target, target - outside))
  }

  /** The effective factor in closed form: min(W55, A + max(0, s * B * (target - current)))
      with s = -1 exactly when the outside is warmer than the target. */
  lemma FactorClosedForm(a: real, b: real, c: real, current: real, target: real, outside: real)
    requires c > 0.0 ==> target != 0.0
    ensures var s := if target - outside < 0.0 then -1.0 else 1.0;
      Evaluate(a, b, c, current, target, outside).factor == Min(W55, a + Max(0.0, s * b * (target - current)))
  {
  }

  /** With C = 0 the curve is linear: setpoint = target + factor * (target - outside). */
  lemma LinearWithoutCurvature(a: real, b: real, current: real, target: real, outside: real)
    ensures var r := Evaluate(a, b, 0.0, current, target, outside);
      r.setpoint == target + r.factor * (target - outside)
  {
  }

  /** When the outside equals the target no water above or below the target is asked for,
      whatever the factors. */
  lemma BalancedSetpoint(a: real, b: real, c: real, current: real, target: real)
    requires c > 0.0 ==> target != 0.0
    ensures Evaluate(a, b, c, current, target, target).setpoint == target
  {
  }

  /** In the heating regime, with factors in range and a curvature blend of at most 1, the water
      setpoint is never below the room target. */
  lemma HeatingNeverBelowTarget(a: real, b: real, c: real, current: real, target: real, outside: real)
    requires InRange(a) && InRange(b) && 0.0 <= c <= 1.0
    requires target > 0.0 && outside <= target
    ensures Evaluate(a, b, c, current, target, outside).setpoint >= target
  {
    var d := target - outside;
    var f := EffectiveFactor(a, b, d, target - current);
    assert f >= 0.0;
    var shape := CurveShape(c, target, d);
    if c > 0.0 {
      assert d * d >= 0.0;
      assert c / target >= 0.0;
      assert c / target * (d * d) >= 0.0;
      assert (1.0 - c) * d >= 0.0;
    }
    assert shape >= 0.0;
    assert f * shape >= 0.0;
  }

  /** Defaults A = 0.55, B = 0.45, C = 0.30 with room 20.0, target 20.5 and outside 10.0 give the
      factor 0.775 and the setpoint 18005/656 (about 27.45). */
  lemma GoldenValue()
    ensures Evaluate(DefaultA, DefaultB, DefaultC, 20.0, 20.5, 10.0) == Result(0.775, 18005.0 / 656.0)
  {
    assert EffectiveFactor(DefaultA, DefaultB, 10.5, 0.5) == 0.775;
    assert CurveShape(DefaultC, 20.5, 10.5) == 735.0 / 82.0;
  }

  class HeatingCurve {
    var factorA: real
    var factorB: real
    var factorC: real
    var factor: real

    /** Every factor stays in the range its setter accepts. */
    ghost predicate Valid()
      reads this
    {
      InRange(factorA) && InRange(factorB) && InRange(factorC) && 0.0 <= factor <= W55
    }

    constructor ()
      ensures Valid()
      ensures factorA == DefaultA && factorB == DefaultB && factorC == DefaultC
      ensures factor == factorA
    {
      factorA := DefaultA;
      factorB := DefaultB;
      factorC := DefaultC;
      factor := DefaultA;
    }

    /** The effective factor of the last calculation; there is no setter. */
    function CurrentFactor(): (f: real)
      reads this
      ensures Valid() ==> 0.0 <= f <= W55
    {
      factor
    }

    /** Returns the previous A; replaces it only when the new value is in range, so an out-of-range
        argument (the default -1) makes this a getter. */
    method FactorA(newval: real) returns (previous: real)
      requires Valid()
      modifies this
      ensures Valid()
      ensures previous == old(factorA)
      ensures factorA == if InRange(newval) then newval else old(factorA)
      ensures factorB == old(factorB) && factorC == old(factorC) && factor == old(factor)
    {
      previous := factorA;
      if 0.0 <= newval <= 1.5 {
        factorA := newval;
      }
    }

    method FactorB(newval: real) returns (previous: real)
      requires Valid()
      modifies this
      ensures Valid()
      ensures previous == old(factorB)
      ensures factorB == if InRange(newval) then newval else old(factorB)
      ensures factorA == old(factorA) && factorC == old(factorC) && factor == old(factor)
    {
      previous := factorB;
      if 0.0 <= newval <= 1.5 {
        factorB := newval;
      }
    }

    method FactorC(newval: real) returns (previous: real)
      requires Valid()
      modifies this
      ensures Valid()
      ensures previous == old(factorC)
      ensures factorC == if InRange(newval) then newval else old(factorC)
      ensures factorA == old(factorA) && factorB == old(factorB) && factor == old(factor)
    {
      previous := factorC;
      if 0.0 <= newval <= 1.5 {
        factorC := newval;
      }
    }

    /** Reads only the averages of the three readings, writes only the effective factor. */
    method Calculate(current: Temperatures.Temperature, target: Temperatures.Temperature,
                     outside: Temperatures.Temperature) returns (setpoint: real)
      requires Valid()
      requires factorC > 0.0 ==> target.Average() != 0.0
      modifies this
      ensures Valid()
      ensures factorA == old(factorA) && factorB == old(factorB) && factorC == old(factorC)
      ensures var r := Evaluate(factorA, factorB, factorC, current.Average(), target.Average(), outside.Average());
        factor == r.factor && setpoint == r.setpoint
      ensures Min(factorA, W55) <= factor <= W55
    {
      var r := Evaluate(factorA, factorB, factorC, current.Average(), target.Average(), outside.Average());
      factor := r.factor;
      setpoint := r.setpoint;
    }
  }
}
