/** One validated, time-aware temperature reading (class Temperature of the firmware). */
module Temperatures {
  import opened Timing
  import Statistics

  /** The age timer runs in milliseconds, the maximum age is configured in minutes. */
  const MsPerMinute: int := 60000
  /** Minimum time between two entries into the statistics (the `_stat_interval` gate). */
  const StatInterval: int := 30 * 1000

  function Abs(x: real): real {
    if x < 0.0 then -x else x
  }

  /** The constructor arguments; a 0 disables the corresponding check. */
  datatype Config = Config(maxAge: nat, minVal: real, maxVal: real, maxDiffPsec: real, k: real)

  /** The part of a reading that `set` changes: current value, age timer, statistics buffer. */
  datatype Reading = Reading(cur: real, age: Timer, stats: seq<real>)

  /** What `set` returns together with the reading it leaves behind. */
  datatype Outcome = Outcome(accepted: bool, reading: Reading)

  /** A fresh reading: its age timer is set to 0 at construction time, so it has already passed. */
  function Initial(value: real, now: int): Reading {
    Reading(value, Timer(now, 0), [])
  }

  predicate IsValid(cfg: Config, r: Reading, now: int) {
    cfg.maxAge == 0 || !r.age.Passed(now)
  }

  function AverageOf(r: Reading): real {
    if |r.stats| > 0 then Statistics.Mean(r.stats) else r.cur
  }

  predicate OutOfBounds(cfg: Config, v: real) {
    (cfg.maxVal != 0.0 && v > cfg.maxVal) || (cfg.minVal != 0.0 && v < cfg.minVal)
  }

  /** The change per second since the last stored value exceeds the limit (only checked on a
      valid reading whose age timer has advanced, so that the division is defined). */
  predicate RateExceeded(cfg: Config, r: Reading, v: real, now: int) {
    && cfg.maxDiffPsec != 0.0
    && IsValid(cfg, r, now)
    && r.age.Elapsed(now) > 0
    && Abs(v - r.cur) * 1000.0 / r.age.Elapsed(now) as real > cfg.maxDiffPsec
  }

  /** `v` lies more than `k` standard deviations from the mean of a full buffer. */
  predicate IsSpike(cfg: Config, stats: seq<real>, v: real, stddev: real) {
    cfg.k != 0.0 && Statistics.IsFull(stats) && Abs(v - Statistics.Mean(stats)) > cfg.k * stddev
  }

  function Fold(r: Reading, v: real, statDue: bool): Reading
    requires |r.stats| <= Statistics.Capacity
  {
    if statDue then r.(stats := Statistics.Add(r.stats, v)) else r
  }

  function Store(cfg: Config, r: Reading, v: real, now: int): Reading {
    r.(cur := v, age := Timer(now, cfg.maxAge * MsPerMinute))
  }

  /** The `set` pipeline: expiry clears the statistics, then bounds, rate and spike checks,
      then the value is folded into the statistics when the 30 s gate is due, and stored
      unless it is a spike. Without validation every check is skipped. */
  function SetOutcome(cfg: Config, r: Reading, v: real, validate: bool, now: int, statDue: bool, stddev: real): (o: Outcome)
    requires |r.stats| <= Statistics.Capacity
    ensures |o.reading.stats| <= Statistics.Capacity
  {
    if !validate then
      Outcome(true, Store(cfg, Fold(r, v, statDue), v, now))
    else
      var r1 := if IsValid(cfg, r, now) then r else r.(stats := []);
      if OutOfBounds(cfg, v) || RateExceeded(cfg, r1, v, now) then
        Outcome(false, r1)
      else
        var r2 := Fold(r1, v, statDue);
        Outcome(true, if IsSpike(cfg, r1.stats, v, stddev) then r2 else Store(cfg, r2, v, now))
  }

  class Temperature {
    const config: Config
    var curVal: real
    var age: Timer
    var statistics: seq<real>

    ghost predicate Consistent()
      reads this
    {
      |statistics| <= Statistics.Capacity
    }

    function State(): Reading
      reads this
    {
      Reading(curVal, age, statistics)
    }

    constructor (value: real, maxAge: nat, min: real, max: real, maxDiffPsec: real, k: real, now: int)
      ensures Consistent()
      ensures config == Config(maxAge, min, max, maxDiffPsec, k)
      ensures State() == Initial(value, now)
    {
      config := Config(maxAge, min, max, maxDiffPsec, k);
      curVal := value;
      statistics := [];
      age := Timer(now, 0);
    }

    /** The last stored value, whether or not it is still valid. */
    function Get(): real
      reads this
    {
      curVal
    }

    predicate Valid(now: int)
      reads this
    {
      IsValid(config, State(), now)
    }

    /** The mean of the statistics, or the current value while they are empty; inside the
        bounds whenever every value the reading holds is. */
    function Average(): (a: real)
      reads this
      ensures Within(State(), config.minVal, config.maxVal) ==> config.minVal <= a <= config.maxVal
    {
      if Within(State(), config.minVal, config.maxVal) then
        AverageWithin(State(), config.minVal, config.maxVal);
        AverageOf(State())
      else
        AverageOf(State())
    }

    method Set(value: real, validate: bool, now: int, statDue: bool, stddev: real) returns (accepted: bool)
      requires Consistent() && stddev >= 0.0
      modifies this
      ensures Consistent()
      ensures Outcome(accepted, State()) == SetOutcome(config, old(State()), value, validate, now, statDue, stddev)
    {
      ghost var r0 := State();
      var spike := false;
      if validate {
        if !Valid(now) {
          statistics := [];
        }
        ghost var r1 := State();
        assert r1 == if IsValid(config, r0, now) then r0 else r0.(stats := []);
        if config.maxVal != 0.0 && value > config.maxVal {
          return false;
        }
        if config.minVal != 0.0 && value < config.minVal {
          return false;
        }
        if config.maxDiffPsec != 0.0 && Valid(now) && age.Elapsed(now) > 0 {
          var changePerSec := Abs(value - curVal) * 1000.0 / age.Elapsed(now) as real;
          if changePerSec > config.maxDiffPsec {
            assert RateExceeded(config, r1, value, now);
            return false;
          }
        }
        assert !RateExceeded(config, r1, value, now);
        if config.k != 0.0 && Statistics.IsFull(statistics) {
          spike := Abs(value - Statistics.Mean(statistics)) > config.k * stddev;
        }
        assert spike == IsSpike(config, r1.stats, value, stddev);
      }
      if statDue {
        statistics := Statistics.Add(statistics, value);
      }
      if !spike {
        curVal := value;
        age := Timer(now, config.maxAge * MsPerMinute);
      }
      return true;
    }
  }

  // ---------------------------------------------------------------------------------------
  // Properties of the set pipeline

  /** Without validation the value is always stored and the age timer re-armed for max_age minutes. */
  lemma UncheckedSetStores(cfg: Config, r: Reading, v: real, now: int, statDue: bool, stddev: real)
    requires |r.stats| <= Statistics.Capacity
    ensures var o := SetOutcome(cfg, r, v, false, now, statDue, stddev);
      o.accepted && o.reading.cur == v && o.reading.age == Timer(now, cfg.maxAge * MsPerMinute)
  {
  }

  /** A validated value outside a configured bound is refused and leaves value and age alone. */
  lemma BoundsRejected(cfg: Config, r: Reading, v: real, now: int, statDue: bool, stddev: real)
    requires |r.stats| <= Statistics.Capacity
    requires (cfg.maxVal != 0.0 && v > cfg.maxVal) || (cfg.minVal != 0.0 && v < cfg.minVal)
    ensures var o := SetOutcome(cfg, r, v, true, now, statDue, stddev);
      !o.accepted && o.reading.cur == r.cur && o.reading.age == r.age
  {
  }

  /** A validated value changing faster than max_diff_psec since the last stored value of a valid
      reading is refused and leaves value and age alone. */
  lemma RateRejected(cfg: Config, r: Reading, v: real, now: int, statDue: bool, stddev: real)
    requires |r.stats| <= Statistics.Capacity
    requires !OutOfBounds(cfg, v)
    requires cfg.maxDiffPsec != 0.0 && IsValid(cfg, r, now) && r.age.Elapsed(now) > 0
    requires Abs(v - r.cur) * 1000.0 / r.age.Elapsed(now) as real > cfg.maxDiffPsec
    ensures var o := SetOutcome(cfg, r, v, true, now, statDue, stddev);
      !o.accepted && o.reading.cur == r.cur && o.reading.age == r.age && o.reading.stats == r.stats
  {
  }

  /** A spike is reported as set but leaves value and age alone; it still enters the statistics
      when the 30 s gate is due. */
  lemma SpikeKeepsValue(cfg: Config, r: Reading, v: real, now: int, statDue: bool, stddev: real)
    requires |r.stats| <= Statistics.Capacity
    requires IsValid(cfg, r, now) && !OutOfBounds(cfg, v) && !RateExceeded(cfg, r, v, now)
    requires IsSpike(cfg, r.stats, v, stddev)
    ensures var o := SetOutcome(cfg, r, v, true, now, statDue, stddev);
      && o.accepted && o.reading.cur == r.cur && o.reading.age == r.age
      && o.reading.stats == (if statDue then Statistics.Add(r.stats, v) else r.stats)
  {
  }

  /** A value that passes every check is stored: `get()` follows it and the reading is fresh. */
  lemma PassingValueStored(cfg: Config, r: Reading, v: real, now: int, statDue: bool, stddev: real)
    requires |r.stats| <= Statistics.Capacity
    requires !OutOfBounds(cfg, v)
    requires !RateExceeded(cfg, r, v, now)
    requires !(IsValid(cfg, r, now) && IsSpike(cfg, r.stats, v, stddev))
    ensures var o := SetOutcome(cfg, r, v, true, now, statDue, stddev);
      o.accepted && o.reading.cur == v && o.reading.age == Timer(now, cfg.maxAge * MsPerMinute)
  {
    if !IsValid(cfg, r, now) {
      assert !Statistics.IsFull([]);
    }
  }

  /** A validated set on an expired reading empties the statistics first, even if it then refuses
      the value; a refused value never enters the statistics. */
  lemma ExpiredClearsStatistics(cfg: Config, r: Reading, v: real, now: int, statDue: bool, stddev: real)
    requires |r.stats| <= Statistics.Capacity
    requires !IsValid(cfg, r, now)
    ensures var o := SetOutcome(cfg, r, v, true, now, statDue, stddev);
      o.reading.stats == (if o.accepted && statDue then [v] else [])
  {
  }

  /** `set` only reports false for a validated value out of bounds or changing too fast; then
      nothing but the clearing of expired statistics has happened. */
  lemma RefusalLeavesReading(cfg: Config, r: Reading, v: real, validate: bool, now: int, statDue: bool, stddev: real)
    requires |r.stats| <= Statistics.Capacity
    ensures var o := SetOutcome(cfg, r, v, validate, now, statDue, stddev);
      !o.accepted <==> validate && (OutOfBounds(cfg, v) || RateExceeded(cfg, r, v, now))
    ensures var o := SetOutcome(cfg, r, v, validate, now, statDue, stddev);
      !o.accepted ==> o.reading.cur == r.cur && o.reading.age == r.age
  {
    var r1 := if IsValid(cfg, r, now) then r else r.(stats := []);
    assert RateExceeded(cfg, r1, v, now) == RateExceeded(cfg, r, v, now);
  }

  /** A new reading with a maximum age is invalid until its first stored value. */
  lemma NewReadingInvalid(cfg: Config, value: real, created: int, now: int)
    requires cfg.maxAge > 0 && now >= created
    ensures !IsValid(cfg, Initial(value, created), now)
  {
  }

  /** A value that is stored (unchecked, or passing every check) is reported as set and makes
      the reading valid for exactly max_age minutes from then on, or for ever when max_age is 0. */
  lemma ValidForMaxAge(cfg: Config, r: Reading, v: real, validate: bool, t: int, statDue: bool, stddev: real, later: int)
    requires |r.stats| <= Statistics.Capacity
    requires validate ==> !OutOfBounds(cfg, v) && !RateExceeded(cfg, r, v, t)
                          && !(IsValid(cfg, r, t) && IsSpike(cfg, r.stats, v, stddev))
    ensures var o := SetOutcome(cfg, r, v, validate, t, statDue, stddev);
      && o.accepted && o.reading.cur == v
      && (IsValid(cfg, o.reading, later) <==> cfg.maxAge == 0 || later < t + cfg.maxAge * MsPerMinute)
  {
    if validate {
      PassingValueStored(cfg, r, v, t, statDue, stddev);
    }
  }

  /** The value enters the statistics exactly when it is not refused and the 30 s gate is due,
      spike or not, after an expired reading's statistics were emptied. */
  lemma StatisticsEntry(cfg: Config, r: Reading, v: real, validate: bool, now: int, statDue: bool, stddev: real)
    requires |r.stats| <= Statistics.Capacity
    ensures var o := SetOutcome(cfg, r, v, validate, now, statDue, stddev);
      var base := if validate && !IsValid(cfg, r, now) then [] else r.stats;
      o.reading.stats == if o.accepted && statDue then Statistics.Add(base, v) else base
  {
  }

  /** `average()` is the mean of the statistics, or the current value while they are empty. */
  lemma AverageWithin(r: Reading, lo: real, hi: real)
    requires Within(r, lo, hi)
    ensures lo <= AverageOf(r) <= hi
  {
    if |r.stats| > 0 {
      Statistics.MeanWithin(r.stats, lo, hi);
    }
  }

  /** Every value the reading holds lies in [lo, hi]. */
  predicate Within(r: Reading, lo: real, hi: real) {
    lo <= r.cur <= hi && Statistics.AllWithin(r.stats, lo, hi)
  }

  /** With both bounds configured, validated sets keep every stored and averaged value inside them. */
  lemma ValidatedSetKeepsBounds(cfg: Config, r: Reading, v: real, now: int, statDue: bool, stddev: real)
    requires |r.stats| <= Statistics.Capacity
    requires cfg.minVal != 0.0 && cfg.maxVal != 0.0 && Within(r, cfg.minVal, cfg.maxVal)
    ensures Within(SetOutcome(cfg, r, v, true, now, statDue, stddev).reading, cfg.minVal, cfg.maxVal)
  {
    var r1 := if IsValid(cfg, r, now) then r else r.(stats := []);
    assert Within(r1, cfg.minVal, cfg.maxVal);
    if !OutOfBounds(cfg, v) && !RateExceeded(cfg, r1, v, now) {
      var r2 := Fold(r1, v, statDue);
      if statDue {
        Statistics.AddWithin(r1.stats, v, cfg.minVal, cfg.maxVal);
      }
      assert Within(r2, cfg.minVal, cfg.maxVal);
      assert Within(Store(cfg, r2, v, now), cfg.minVal, cfg.maxVal);
    }
  }

  /** Re-setting the current value without validation keeps a bounded reading bounded. */
  lemma ReassertKeepsBounds(cfg: Config, r: Reading, now: int, statDue: bool, stddev: real, lo: real, hi: real)
    requires |r.stats| <= Statistics.Capacity && Within(r, lo, hi)
    ensures Within(SetOutcome(cfg, r, r.cur, false, now, statDue, stddev).reading, lo, hi)
  {
    if statDue {
      Statistics.AddWithin(r.stats, r.cur, lo, hi);
    }
  }
}
