# SmartControl control core in Dafny

A model of the control core of the SmartControl heat-pump thermostat firmware, with proofs of
its contracts. It covers four pieces:

- **Temperature**: one validated, time-aware reading. It has bounds, a rate-of-change limit,
  spike detection against a 10-value rolling statistic, and an age after which it is invalid.
- **HeatingCurve**: three factors with range-checked setters, and the closed-form law that turns
  the room, target and outside averages into a water setpoint.
- **Operating-mode decision** (`set_operating_mode`): a first-match rule chain that switches
  cooling or heating on or off. It runs only when the 10 s analysis gate is due and the
  30-minute anti-pendulum timer has passed.
- **Poll script**: the fixed table of ten OpenTherm exchanges. It has per-entry failure counters,
  a cursor that wraps after SlaveVersion, and skips an entry once it has 5 failures. The global
  communication error counter saturates at 99. A reset zeroes the counters. This piece also covers
  the response dispatch, the status packing of data-ID 0 (OpenTherm Protocol Specification v2.2)
  and the `SetPoint`/`RoomSet`/`RoomCur` producers.

Modules: `Timing` (timer as a deadline), `Statistics` (the rolling buffer), `Temperatures`,
`Curve`, `Flags`, `Mode`, `PollScript` and `Controller` (class `SmartControl`, which owns the
readings, the curve, the flags, the script array, the cursor and the timers).

Modelling conventions:
- Time is an explicit `now` in milliseconds. A library timer set to `d` at time `t` is
  `Timer(t, d)`: it has passed exactly when `now >= t + d`, and its elapsed time is `now - t`.
  This is an assumption about the timer library, whose source is not part of this model.
- The periodic gates (the 30 s statistics interval, the 10 s analysis gate, the 15-minute
  reset) are boolean inputs.
- The rolling statistic is a `seq<real>` of at most 10 values, newest last, with mean
  `Sum / count`. Its standard deviation is an input (non-negative) of `Set`. `trend()` has no
  body in the firmware, so the setpoint trend is an integer input of the mode decision.
- The transport's decoders (data-ID, `isValidResponse`, `getFloat`), its response status and the
  outcome of an asynchronous send are inputs. A request payload is kept as the value before
  `temperatureToData` encodes it.
- Floats and doubles are reals. C `round` is modelled exactly: halfway cases round away from zero.

Firmware behaviour the model keeps, including details that are easy to miss:
- Every rule of the mode decision reads the last stored value of a reading (`get()`), never its
  average (SmartControl.cpp:365, 375, 384, 388, 404).
- The heating-on rule fires only while the room is below 25 degrees (SmartControl.cpp:384).
- The reset loop stops at the SlaveVersion entry, so that entry's failure count survives every
  reset (SmartControl.cpp:450-451).
- `set` reports success for a value it recognised as a spike and did not store (Temperature.cpp:56-60).
- A failure count keeps growing past 5; only the skip test compares it with 5
  (SmartControl.cpp:303, 427).

## Model

| member | source | states |
|---|---|---|
| Statistics.Add | Temperature.cpp:53-54 | the buffer keeps the newest min(n + 1, 10) values, with the new value last |
| Statistics.MeanWithin | Temperature.cpp:74-79 | the mean of values inside [lo, hi] is inside [lo, hi] |
| Temperatures.SetOutcome | Temperature.cpp:25-61 | the set pipeline never lets the statistics hold more than 10 values |
| Temperatures.Temperature.constructor | Temperature.cpp:13-20 | the configuration is stored, the statistics are empty, and the age timer is set to 0 at construction |
| Temperatures.Temperature.Get | Temperature.cpp:64-66 | plain accessor without a contract of its own: the last stored value, expired or not; what it returns after a set is stated by PassingValueStored, SpikeKeepsValue and RefusalLeavesReading |
| Temperatures.Temperature.Valid | Temperature.cpp:69-71 | plain accessor without a contract of its own: max_age is 0 or the age timer has not passed; the validity window after a set is stated by ValidForMaxAge and NewReadingInvalid |
| Temperatures.Temperature.Average | Temperature.cpp:74-79 | the mean of the statistics, or the current value while they are empty, lies within the configured bounds whenever every held value does |
| Temperatures.Temperature.Set | Temperature.cpp:25-61 | the returned flag and the new value, age and statistics are those of the ordered pipeline, and the buffer stays within 10 |
| Temperatures.UncheckedSetStores | Temperature.cpp:25-60 | set(v, false) returns true, stores v and re-arms the age timer for max_age minutes, with no check |
| Temperatures.BoundsRejected | Temperature.cpp:33-36 | a validated v above a non-zero max or below a non-zero min returns false and leaves the value and age unchanged |
| Temperatures.RateRejected | Temperature.cpp:39-46 | with max_diff != 0, a valid reading, elapsed > 0 and abs(v - cur) * 1000 / elapsed > max_diff, set returns false and leaves value, age and statistics unchanged |
| Temperatures.SpikeKeepsValue | Temperature.cpp:47-60 | a spike (k != 0, full buffer, abs(v - mean) > k * stddev) returns true, keeps value and age, and still enters the statistics when the gate is due |
| Temperatures.PassingValueStored | Temperature.cpp:53-59 | a value inside the bounds and the rate limit that is not a spike is stored: get() follows it and the age timer is re-armed |
| Temperatures.ExpiredClearsStatistics | Temperature.cpp:30-31 | a validated set on an expired reading empties the statistics first, even when v is then refused |
| Temperatures.RefusalLeavesReading | Temperature.cpp:32-46 | set returns false exactly for a validated v that is out of bounds or too fast; then value and age are unchanged |
| Temperatures.NewReadingInvalid | Temperature.cpp:13-20 | a new reading with max_age > 0 is invalid until its first stored value |
| Temperatures.ValidForMaxAge | Temperature.cpp:56-71 | a stored value is valid for exactly max_age minutes after the set, or always when max_age is 0 |
| Temperatures.StatisticsEntry | Temperature.cpp:53-54 | v enters the statistics exactly when it is not refused and the 30 s gate is due, spike or not |
| Temperatures.AverageWithin | Temperature.cpp:74-79 | average() (the mean of a non-empty buffer, else the current value) lies within any bounds that hold all stored values |
| Temperatures.ValidatedSetKeepsBounds | Temperature.cpp:33-36 | with both bounds set, validated sets keep the current value and every buffered value inside them |
| Temperatures.ReassertKeepsBounds | SmartControl.cpp:140-146 | re-setting the current value without validation keeps a bounded reading bounded |
| Curve.EffectiveFactor | HeatingCurve.cpp:66-73 | min(A, 1.175) <= factor <= 1.175 |
| Curve.Evaluate | HeatingCurve.cpp:57-85 | the factor and setpoint `calculate` derives from the three averages; the factor is within [min(A, 1.175), 1.175] |
| Curve.FactorClosedForm | HeatingCurve.cpp:66-74 | factor = min(1.175, A + max(0, s * B * (target - current))), where s = -1 exactly when target - outside < 0 |
| Curve.LinearWithoutCurvature | HeatingCurve.cpp:76-81 | with C = 0, setpoint = target + factor * (target - outside) |
| Curve.BalancedSetpoint | HeatingCurve.cpp:76-81 | when the target and outside averages are equal, setpoint = target for any factors |
| Curve.HeatingNeverBelowTarget | HeatingCurve.cpp:61-81 | with factors in range, C <= 1, a positive target and outside <= target, the setpoint is not below the target |
| Curve.GoldenValue | HeatingCurve.cpp:55-86 | the defaults with room 20.0, target 20.5 and outside 10.0 give factor 0.775 and setpoint 18005/656 |
| Curve.HeatingCurve.constructor | HeatingCurve.cpp:19-24 | A = 0.55, B = 0.45, C = 0.30, and the current factor starts equal to A |
| Curve.HeatingCurve.CurrentFactor | SmartControl.h:47 | the factor of the last calculation, which stays within [0, 1.175] under the curve's invariant |
| Curve.HeatingCurve.FactorA | HeatingCurve.cpp:28-35 | returns the previous A, replaces it only when 0 <= n <= 1.5, and keeps every factor in range |
| Curve.HeatingCurve.FactorB | HeatingCurve.cpp:36-43 | returns the previous B, replaces it only when 0 <= n <= 1.5 |
| Curve.HeatingCurve.FactorC | HeatingCurve.cpp:44-51 | returns the previous C, replaces it only when 0 <= n <= 1.5 |
| Curve.HeatingCurve.Calculate | HeatingCurve.cpp:55-86 | the stored factor and the returned setpoint are the curve law applied to the room, target and outside averages; A, B and C are unchanged; the factor is within [min(A, 1.175), 1.175] |
| Flags.MasterStatus | SmartControl.cpp:176-189 | CH, DHW, Cooling and OTC enable are bits 8 to 11; bits 12 to 15 and the low byte are zero |
| Flags.SlaveStatus | SmartControl.cpp:190-199 | setStatus's decoding of the five slave flags; re-encoding them gives back exactly bits 0 to 4 of the frame |
| Flags.MasterStatusRoundTrip | SmartControl.cpp:176-189 | the packed master status reads back, in the data-ID 0 layout, as the same four flags with CH2 off |
| Flags.SlaveStatusRoundTrip | SmartControl.cpp:190-199 | decoding recovers fault, CH mode, DHW mode, flame and cooling from bits 0 to 4, whatever the higher bits are |
| Flags.SlaveStatusLowBitsOnly | SmartControl.cpp:190-212 | setStatus depends on bits 0 to 4 of the frame only |
| Mode.Round | SmartControl.cpp:340 | C `round`: the result is within 0.5 of its argument |
| Mode.Round1 | SmartControl.cpp:339-341 | round1 is a whole number of tenths within 0.05 of its argument |
| Mode.Round1Idempotent | SmartControl.cpp:339-341 | round1(round1(x)) = round1(x) |
| Mode.Round1OfInteger | SmartControl.cpp:390 | an integer trend is its own round1 |
| Mode.RoundBelow | SmartControl.cpp:339-341 | round(y) < m exactly when y < m - 1/2 (m > 0) or y <= m - 1/2 (m <= 0), because halfway cases round away from zero |
| Mode.Decide | SmartControl.cpp:363-412 | the first rule that fires; a rule only fires when its flag is in the opposite state and the readings it reads are valid |
| Mode.Apply | SmartControl.cpp:369-408 | the flag write of the chosen rule: DHW and OTC are never written, and the flags stay as they were exactly when nothing is chosen or the flag already has its new value |
| Mode.DecisionFlipsAtMostOne | SmartControl.cpp:364-412 | a decision flips exactly one of the CH and Cooling enables, or nothing, and never writes DHW or OTC |
| Mode.HeatingOnThreshold | SmartControl.cpp:383-398 | 2 * round1(n) > round1(inside - target) exactly when inside - target < 2n - 0.05 (n > 0), or <= 2n - 0.05 (n <= 0) |
| Mode.HeatingOffThreshold | SmartControl.cpp:402-411 | round1(inlet - setpoint) > 0.1 exactly when inlet - setpoint >= 0.15 |
| Mode.CoolingScenario | SmartControl.cpp:363-381 | inside and outside valid at 26 switch cooling on; a valid inside of 24 then switches it off |
| Mode.CoolingJoinsHeating | SmartControl.cpp:363-372 | the cooling-on rule ignores the CH enable, so cooling can be enabled while heating stays enabled |
| PollScript.LookupFrom | SmartControl.cpp:289-291 | the scan stops at the first entry whose data-ID matches, or at SlaveVersion; no entry it passed matches |
| PollScript.ScriptLayout | SmartControl.cpp:260-271 | in the script table, SlaveVersion is last and appears only there, the data-IDs are distinct, every counter starts at 0, the WRITE_DATA entries are exactly those whose `getdata` produces a temperature, and the READ_DATA entries are exactly those with a `setdata` |
| PollScript.Lookup | SmartControl.cpp:289-291 | a response goes to the first entry with its data-ID, or to the final SlaveVersion entry when none has it |
| PollScript.NextCursor | SmartControl.cpp:436-439 | the cursor moves to (c + 1) mod 10: to the next entry, and from SlaveVersion back to entry 0 |
| PollScript.AdvanceModulo | SmartControl.cpp:425-440 | after k acting ticks the cursor is at (c + k) mod 10 |
| PollScript.FullCycle | SmartControl.cpp:425-440 | ten acting ticks visit ten different entries and return the cursor to where it started |
| PollScript.OnResponse | SmartControl.cpp:293-311 | response bookkeeping keeps ten counters and the error counter within [0, 99] |
| PollScript.IgnoredResponses | SmartControl.cpp:293-316 | a valid response, or an invalid one for Status or TSet, changes no counter |
| PollScript.CountedResponses | SmartControl.cpp:301-310 | INVALID adds 1 to that entry's failures only; TIMEOUT sets the error counter to min(errors + 1, 99) |
| PollScript.ResetFailures | SmartControl.cpp:448-455 | every counter before SlaveVersion becomes 0; SlaveVersion's is kept |
| PollScript.ResetMakesEligible | SmartControl.cpp:448-451 | after a reset every entry except SlaveVersion has fewer than 5 failures and is sent again |
| PollScript.SlaveVersionStaysSkipped | SmartControl.cpp:448-451 | a SlaveVersion entry with 5 failures stays skipped through resets and responses |
| Controller.SmartControl.constructor | SmartControl.cpp:40-63 | the six readings get their configured bounds and start values; the operating and status flags are all off; ModLvl and Pressure are 0; the curve has its default factors; the counters are zero; the script starts at entry 0; the anti-pendulum timer is armed as a successful `begin` arms it (status flags, ModLvl and Pressure through static zero-initialisation) |
| Controller.SmartControl.FindEntry | SmartControl.cpp:289-291 | the scan loop returns the entry Lookup describes |
| Controller.SmartControl.HandleResponse | SmartControl.cpp:284-317 | the counters change as OnResponse says; a valid response reaches only its entry's consumer, and no other state changes |
| Controller.SmartControl.CountInvalid | SmartControl.cpp:293-311 | the invalid branch updates only the counters, as OnResponse says |
| Controller.SmartControl.Consume | SmartControl.cpp:226-246 | each setdata function writes only its own target: status flags, one reading through a validated set, ModLvl or Pressure |
| Controller.SmartControl.Reset | SmartControl.cpp:448-455 | the loop zeroes the counters before SlaveVersion, then the error counter; flags, ModLvl, Pressure, cursor and timers are unchanged |
| Controller.SmartControl.RoomSet | SmartControl.cpp:140-146 | returns the target and re-sets it without validation |
| Controller.SmartControl.RoomCur | SmartControl.cpp:118-134 | a successful conversion plus the -1.3 calibration goes through a validated inside.set; the inside value is returned |
| Controller.SmartControl.SetPoint | SmartControl.cpp:162-171 | the curve result always goes through setpoint.set; the return is 0 unless CH or Cooling is enabled, else the setpoint, so it is 0 or within [10, 55] |
| Controller.SmartControl.Produced | SmartControl.cpp:176-223 | what one `getdata` call did. Payload: the packed status word; the target before its re-set; the inside value after RoomCur; or SetPoint's value (0 unless CH or Cooling is enabled); or 0 without a producer. New state: the re-set target; the inside reading after the validated set of the calibrated conversion; or the curve factor and setpoint from the curve law. Every other reading and the factor are unchanged |
| Controller.SmartControl.Produce | SmartControl.cpp:215-223 | the payload and new state are as Produced states; a SetPoint payload is 0 or within [10, 55]; the curve's A, B and C are unchanged |
| Controller.SmartControl.Tick | SmartControl.cpp:425-440 | acts only when ready and the spacing timer has passed; skips an entry with 5 failures without re-arming; otherwise sends one request with the entry's type and id, whose payload and effects are as Produced states for the entry's producer, and re-arms the timer for 2000 ms; without a send no reading changes; the cursor advances either way; no counter, flag, ModLvl or Pressure changes, and the curve's A, B and C are unchanged |
| Controller.SmartControl.SetOperatingMode | SmartControl.cpp:344-413 | nothing changes unless the analysis gate is due and the anti-pendulum timer has passed; then the flags follow the first rule that fires, and the result is true and the timer re-armed for 30 min exactly when one flips; counters, status flags, ModLvl, Pressure, cursor and send timer never change |
| Controller.SmartControl.Switch | SmartControl.cpp:369-371 | a rule that fires sets the new flags and re-arms the anti-pendulum timer for 30 min, changing nothing else |
| Controller.SmartControl.Loop | SmartControl.cpp:418-443 | the 15-minute gate resets the counters; one request slot runs as Tick states it (Idle, Skipped, or a request with the entry's type and id, the transport's send outcome and the producer's payload and effects; cursor and send timer); then the mode decision. The flags change only when the analysis gate is due and the anti-pendulum timer had passed, and then the timer is re-armed. DHW and OTC are never written, and at most one of CH and Cooling flips. Without a send no reading and no curve factor changes. The curve's A, B and C, the status flags, ModLvl and Pressure are unchanged |

## Left out

- The OpenTherm transport (`begin`, `process`, `isReady`, `buildRequest`, `sendRequestAync`, `getDataID`, `getFloat`, `getUInt`, `temperatureToData`, `isValidResponse`, `handleInterrupt`) is a foreign library. Readiness, frame decoding, response status and send outcome are inputs, and a request is kept as message type, message id and unencoded payload.
- Interrupt and callback plumbing (`mHandleInterrupt`, the global `handleResponse`, the `_controller` singleton): responses are handled by an ordinary sequential call to HandleResponse. `process()` at the top of `loop` is therefore not part of Loop.
- The NULL-controller checks of `getStatus`/`setStatus` are left out, because the model always has its controller object.
- Dallas/OneWire sensor I/O in `begin` and `RoomCur` (device discovery, address checks, conversion requests): RoomCur gets the conversion's Celsius value, or its absence, as an input.
- `begin` apart from arming the anti-pendulum timer: the constructor arms it as a successful `begin` does. A `begin` that finds no room sensor returns before arming it (SmartControl.cpp:91-98); the model has no such case. The send-spacing timer starts passed.
- Timer, Periodic and RunningAverage internals: a timer is a deadline, the periodic gates are boolean inputs, and the standard deviation is an input. The long-term statistic (`_longterm_stat`, `_longterm_stat_tmr`) has no code in these files, and neither has `trend()`; the setpoint trend is an integer input.
- Float and double rounding: all arithmetic is on reals. When C > 0, `calculate` divides by the target average, so HeatingCurve.Calculate requires it to be non-zero. The controller's invariant keeps the target within its 18 to 25 bounds.
- Millisecond-clock wrap-around and the 16/32-bit width of `_max_age * 60000` are not modelled. The configured ages are at most 5 minutes.
- `toString` and every log and format call; the `last_request`/`last_response` globals, which are only logged.
- `setSlaveVersion` decodes the version into locals and does nothing further with them (its log line is commented out), so its consumer changes nothing.
- `loop` always returns true; Loop returns what the request slot did instead.
- HAOTMonitor (MQTT telemetry), Display, OTDataObjects and ToDo are not part of this model. This includes the remote writes of the target, the factors and the enable flags. A remote validated target write keeps the controller invariant (Temperatures.ValidatedSetKeepsBounds). A direct write of an enable flag bypasses the anti-pendulum timer.
- `_sunrise`, latitude and longitude, and the declared but undefined `analysis()`.
- Controller.SmartControl.constructor: assumes a statically allocated controller. The constructor body does not write the status flags, ModLvl or Pressure (SmartControl.cpp:40-63); they start as false and 0 only through the zero-initialisation of static storage. The file that defines the controller object is not part of this model.
- Controller.SmartControl.Loop: states the flags only as "DHW and OTC unchanged, at most one of CH and Cooling flipped". The exact rule chain is stated by SetOperatingMode.
