/** The operating-mode decision: a first-match rule chain that may switch cooling or heating on
    or off, at most one flag per evaluation. */
module Mode {
  import opened Flags

  /** The inside/outside temperature above which cooling is wanted. */
  const ComfortLimit: real := 25.0
  /** Minimum time between two switches (the anti-pendulum timer), in ms. */
  const AntiPendulum: int := 30 * 60 * 1000
  /** Period of the analysis gate, in ms. */
  const AnalyseInterval: int := 10 * 1000

  /** C `round`: to the nearest integer, halfway cases away from zero. */
  function Round(y: real): (n: int)
    ensures y - 0.5 <= n as real <= y + 0.5
  {
    if y >= 0.0 then (y + 0.5).Floor else -((-y + 0.5).Floor)
  }

  /** `round1`: to one decimal place, off by at most 0.05, and a whole number of tenths. */
  function Round1(x: real): (r: real)
    ensures x - 0.05 <= r <= x + 0.05
    ensures (10.0 * r).Floor as real == 10.0 * r
  {
    Round(10.0 * x) as real / 10.0
  }

  lemma RoundOfInteger(n: int)
    ensures Round(n as real) == n
  {
    if n >= 0 {
      assert (n as real + 0.5).Floor == n;
    } else {
      assert (-(n as real) + 0.5).Floor == -n;
    }
  }

  /** Rounding an already rounded value changes nothing. */
  lemma Round1Idempotent(x: real)
    ensures Round1(Round1(x)) == Round1(x)
  {
    var n := Round(10.0 * x);
    assert 10.0 * Round1(x) == n as real;
    RoundOfInteger(n);
  }

  /** An integer (such as a trend) is its own `round1`. */
  lemma Round1OfInteger(n: int)
    ensures Round1(n as real) == n as real
  {
    assert 10.0 * (n as real) == (10 * n) as real;
    RoundOfInteger(10 * n);
  }

  /** Where rounding falls below an integer m: below m - 1/2, or at it too when m - 1/2 is
      negative (there the half rounds away from zero, downwards). */
  lemma RoundBelow(y: real, m: int)
    ensures Round(y) < m <==> if m > 0 then y < m as real - 0.5 else y <= m as real - 0.5
  {
    if y >= 0.0 {
      assert Round(y) == (y + 0.5).Floor;
    } else {
      assert Round(y) == -((-y + 0.5).Floor);
    }
  }

  /** What the rule chain sees of a reading: `get()` and `valid()`. */
  datatype View = View(value: real, valid: bool)

  datatype Transition = CoolingOn | CoolingOff | HeatingOn | HeatingOff | NoChange

  /** The four rules in their fixed order; the first that applies wins. */
  function Decide(f: OperatingFlags, inside: View, outside: View, target: View, setpoint: View,
                  inlet: View, setpointTrend: int): (t: Transition)
    ensures t == CoolingOn ==> !f.enableCooling && inside.valid && outside.valid
    ensures t == CoolingOff ==> f.enableCooling && inside.valid
    ensures t == HeatingOn ==> !f.enableCH && inside.valid && target.valid && setpoint.valid
    ensures t == HeatingOff ==> f.enableCH && setpoint.valid && inlet.valid
  {
    if !f.enableCooling && inside.valid && inside.value > ComfortLimit
       && outside.valid && outside.value > ComfortLimit then CoolingOn
    else if f.enableCooling && inside.valid && inside.value < ComfortLimit then CoolingOff
    else if !f.enableCH && inside.valid && inside.value < ComfortLimit && target.valid && setpoint.valid
       && 2.0 * Round1(setpointTrend as real) > Round1(inside.value - target.value) then HeatingOn
    else if f.enableCH && setpoint.valid && inlet.valid && Round1(inlet.value - setpoint.value) > 0.1 then HeatingOff
    else NoChange
  }

  function Apply(f: OperatingFlags, t: Transition): (g: OperatingFlags)
    ensures g.enableDHW == f.enableDHW && g.enableOTC == f.enableOTC
    ensures g == f <==> t == NoChange || (t == CoolingOn && f.enableCooling) || (t == CoolingOff && !f.enableCooling)
                        || (t == HeatingOn && f.enableCH) || (t == HeatingOff && !f.enableCH)
  {
    match t
    case CoolingOn => f.(enableCooling := true)
    case CoolingOff => f.(enableCooling := false)
    case HeatingOn => f.(enableCH := true)
    case HeatingOff => f.(enableCH := false)
    case NoChange => f
  }

  /** A decision flips exactly one of the heating and cooling enables, or nothing; the DHW and
      OTC enables are never written. */
  lemma DecisionFlipsAtMostOne(f: OperatingFlags, inside: View, outside: View, target: View, setpoint: View,
                               inlet: View, setpointTrend: int)
    ensures var t := Decide(f, inside, outside, target, setpoint, inlet, setpointTrend);
      var g := Apply(f, t);
      && g.enableDHW == f.enableDHW && g.enableOTC == f.enableOTC
      && (t != NoChange <==> g != f)
      && (t != NoChange <==> (g.enableCH != f.enableCH) != (g.enableCooling != f.enableCooling))
  {
  }

  /** The heating-on comparison in plain terms: with the setpoint trend n (an integer), heating is
      wanted when inside - target is below 2n - 0.05 (or at it, when n <= 0). */
  lemma HeatingOnThreshold(error: real, n: int)
    ensures 2.0 * Round1(n as real) > Round1(error)
        <==> if n > 0 then error < 2.0 * n as real - 0.05 else error <= 2.0 * n as real - 0.05
  {
    Round1OfInteger(n);
    RoundBelow(10.0 * error, 20 * n);
    assert 2.0 * Round1(n as real) > Round1(error) <==> Round(10.0 * error) < 20 * n;
  }

  /** The heating-off comparison in plain terms: the return water is at least 0.15 above the
      setpoint. */
  lemma HeatingOffThreshold(delta: real)
    ensures Round1(delta) > 0.1 <==> delta >= 0.15
  {
    RoundBelow(10.0 * delta, 2);
    assert Round1(delta) > 0.1 <==> Round(10.0 * delta) >= 2;
  }

  /** Inside and outside both valid at 26 degrees switch cooling on; afterwards a valid inside
      of 24 degrees switches it off again. */
  lemma CoolingScenario(f: OperatingFlags, target: View, setpoint: View, inlet: View, trend: int)
    requires !f.enableCooling
    ensures Decide(f, View(26.0, true), View(26.0, true), target, setpoint, inlet, trend) == CoolingOn
    ensures var g := Apply(f, CoolingOn);
      Decide(g, View(24.0, true), View(26.0, true), target, setpoint, inlet, trend) == CoolingOff
      && !Apply(g, CoolingOff).enableCooling
  {
  }

  /** Cooling-on does not look at the heating enable: with heating on and a hot house, the rule
      chain enables cooling and both stay enabled. */
  lemma CoolingJoinsHeating(target: View, setpoint: View, inlet: View, trend: int)
    ensures var f := OperatingFlags(true, false, false, false);
      var t := Decide(f, View(26.0, true), View(26.0, true), target, setpoint, inlet, trend);
      t == CoolingOn && Apply(f, t).enableCH && Apply(f, t).enableCooling
  {
  }
}
