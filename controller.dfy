/** The controller object (class SmartControl): the six readings, the heating curve, the flag
    records, the poll script with its cursor, and the timers around them. */
module Controller {
  import opened Timing
  import opened Flags
  import opened PollScript
  import Temperatures
  import Curve
  import Mode

  /** Calibration offset of the room sensor, added to every room reading. */
  const CalibrateRoom: real := -1.3

  /** The configurations the constructor gives the six readings. */
  const InsideConfig: Temperatures.Config := Temperatures.Config(5, 10.0, 40.0, 0.02, 3.0)
  const OutsideConfig: Temperatures.Config := Temperatures.Config(5, -15.0, 40.0, 0.02, 3.0)
  const TargetConfig: Temperatures.Config := Temperatures.Config(0, 18.0, 25.0, 0.0, 0.0)
  const SetpointConfig: Temperatures.Config := Temperatures.Config(5, 10.0, 55.0, 0.0, 0.0)
  const InletConfig: Temperatures.Config := Temperatures.Config(5, 10.0, 55.0, 1.0, 3.0)
  const OutletConfig: Temperatures.Config := Temperatures.Config(5, 10.0, 55.0, 1.0, 3.0)

  /** A response as the transport delivers it: the raw frame and what the transport's decoders
      make of it (data-ID, validity, f8.8 value). */
  datatype Frame = Frame(word: bv32, dataId: int, isValid: bool, asFloat: real)

  /** The payload of a request before the transport encodes it. */
  datatype Payload = Zero | StatusWord(bits: bv16) | Celsius(value: real)

  datatype Request = Request(msgType: MsgType, msgId: MsgId, payload: Payload)

  /** What one tick did on the transport: nothing (not ready or too soon), skipped an unsupported
      entry, or built a request and handed it to the transport (`sendOk` is the transport's answer). */
  datatype TickResult = Idle | Skipped | Sent(request: Request, sendOk: bool)

  /** What the statistics library tells a reading's `set`: whether its 30 s gate is due, and the
      standard deviation of its buffer. */
  datatype StatInputs = StatInputs(statDue: bool, stddev: real)

  /** The room-sensor result: the Celsius value when the conversion succeeded. */
  datatype SensorReading = NoReading | Converted(celsius: real)

  class SmartControl {
    var communicationErrors: int
    var operatingFlags: OperatingFlags
    var statusFlags: StatusFlags
    const curve: Curve.HeatingCurve
    const inside: Temperatures.Temperature
    const target: Temperatures.Temperature
    const setpoint: Temperatures.Temperature
    const inlet: Temperatures.Temperature
    const outlet: Temperatures.Temperature
    const outside: Temperatures.Temperature
    var modLvl: real
    var pressure: real
    var switchTimer: Timer
    /** The poll script, its cursor and the request spacing timer. */
    const script: array<Entry>
    var cmd: nat
    var sendTimer: Timer

    ghost predicate ScriptValid()
      reads this, script
    {
      && script.Length == |Script|
      && (forall i :: 0 <= i < |Script| ==> IsScriptEntry(script[i], i))
      && cmd < |Script|
      && 0 <= communicationErrors <= MaxCommErrors
    }

    ghost predicate Distinct()
      reads this
    {
      && inside != target && inside != setpoint && inside != inlet && inside != outlet && inside != outside
      && target != setpoint && target != inlet && target != outlet && target != outside
      && setpoint != inlet && setpoint != outlet && setpoint != outside
      && inlet != outlet && inlet != outside
      && outlet != outside
    }

    ghost predicate ReadingsValid()
      reads this, inside, target, setpoint, inlet, outlet, outside
    {
      && inside.config == InsideConfig && outside.config == OutsideConfig
      && target.config == TargetConfig && setpoint.config == SetpointConfig
      && inlet.config == InletConfig && outlet.config == OutletConfig
      && inside.Consistent() && outside.Consistent() && target.Consistent()
      && setpoint.Consistent() && inlet.Consistent() && outlet.Consistent()
      // only validated or re-asserted values ever reach the target and the setpoint
      && Temperatures.Within(target.State(), 18.0, 25.0)
      && Temperatures.Within(setpoint.State(), 10.0, 55.0)
    }

    ghost predicate Valid()
      reads this, script, curve, inside, target, setpoint, inlet, outlet, outside
    {
      ScriptValid() && Distinct() && ReadingsValid() && curve.Valid()
    }

    /** The failure counters of the script and the communication error counter. */
    function Counts(): Counters
      reads this, script
    {
      Counters(Failures(script[..]), communicationErrors)
    }

    constructor (now: int)
      ensures Valid() && fresh(script) && fresh(curve)
      ensures fresh(inside) && fresh(target) && fresh(setpoint) && fresh(inlet) && fresh(outlet) && fresh(outside)
      ensures script[..] == Script && cmd == 0 && communicationErrors == 0
      ensures operatingFlags == OperatingFlags(false, false, false, false)
      ensures statusFlags == StatusFlags(false, false, false, false, false) && modLvl == 0.0 && pressure == 0.0
      ensures curve.factorA == Curve.DefaultA && curve.factorB == Curve.DefaultB && curve.factorC == Curve.DefaultC
      ensures curve.factor == Curve.DefaultA
      ensures inside.State() == Temperatures.Initial(20.0, now) && outside.State() == Temperatures.Initial(10.0, now)
      ensures target.State() == Temperatures.Initial(20.5, now) && setpoint.State() == Temperatures.Initial(20.0, now)
      ensures inlet.State() == Temperatures.Initial(20.0, now) && outlet.State() == Temperatures.Initial(20.0, now)
      ensures switchTimer == Timer(now, Mode.AntiPendulum) && sendTimer.Passed(now)
    {
      inside := new Temperatures.Temperature(20.0, 5, 10.0, 40.0, 0.02, 3.0, now);
      outside := new Temperatures.Temperature(10.0, 5, -15.0, 40.0, 0.02, 3.0, now);
      target := new Temperatures.Temperature(20.5, 0, 18.0, 25.0, 0.0, 0.0, now);
      setpoint := new Temperatures.Temperature(20.0, 5, 10.0, 55.0, 0.0, 0.0, now);
      inlet := new Temperatures.Temperature(20.0, 5, 10.0, 55.0, 1.0, 3.0, now);
      outlet := new Temperatures.Temperature(20.0, 5, 10.0, 55.0, 1.0, 3.0, now);
      curve := new Curve.HeatingCurve();
      script := new Entry[|Script|](i requires 0 <= i < |Script| => Script[i]);
      cmd := 0;
      sendTimer := Timer(now, 0);
      communicationErrors := 0;
      operatingFlags := OperatingFlags(false, false, false, false);
      statusFlags := StatusFlags(false, false, false, false, false);
      modLvl := 0.0;
      pressure := 0.0;
      switchTimer := Timer(now, Mode.AntiPendulum);
      new;
      assert ScriptValid() && Distinct();
      assert ReadingsValid();
    }

    /** The scan of `_handleResponse`: the entry a response is charged to. */
    method FindEntry(id: int) returns (i: nat)
      requires Valid()
      ensures i == Lookup(id)
    {
      i := 0;
      while DataId(script[i].msgId) != id && script[i].msgId != SlaveVersion
        invariant i < |Script|
        invariant LookupFrom(i, id) == Lookup(id)
        decreases |Script| - i
      {
        i := i + 1;
      }
    }

    /** `_handleResponse`: count an invalid response against its entry or the link, or hand a
        valid one to the entry's consumer. */
    method HandleResponse(frame: Frame, state: ResponseStatus, now: int, stat: StatInputs)
      requires Valid() && stat.stddev >= 0.0
      modifies this, script, outside, inlet, outlet
      ensures Valid()
      ensures Counts() == OnResponse(old(Counts()), Lookup(frame.dataId), frame.isValid, state)
      ensures var consumer := if frame.isValid then Script[Lookup(frame.dataId)].consumer else NoConsumer;
        && statusFlags == (if consumer == StatusConsumer then SlaveStatus(frame.word) else old(statusFlags))
        && modLvl == (if consumer == ModLvlConsumer then frame.asFloat else old(modLvl))
        && pressure == (if consumer == PressureConsumer then frame.asFloat else old(pressure))
        && outside.State() == (if consumer == OutsideConsumer
             then Temperatures.SetOutcome(OutsideConfig, old(outside.State()), frame.asFloat, true, now, stat.statDue, stat.stddev).reading
             else old(outside.State()))
        && inlet.State() == (if consumer == InletConsumer
             then Temperatures.SetOutcome(InletConfig, old(inlet.State()), frame.asFloat, true, now, stat.statDue, stat.stddev).reading
             else old(inlet.State()))
        && outlet.State() == (if consumer == OutletConsumer
             then Temperatures.SetOutcome(OutletConfig, old(outlet.State()), frame.asFloat, true, now, stat.statDue, stat.stddev).reading
             else old(outlet.State()))
      ensures operatingFlags == old(operatingFlags) && cmd == old(cmd)
      ensures sendTimer == old(sendTimer) && switchTimer == old(switchTimer)
    {
      var i := FindEntry(frame.dataId);
      if !frame.isValid {
        CountInvalid(i, state);
      } else {
        Consume(script[i].consumer, frame, now, stat);
      }
    }

    /** The invalid-response branch of `_handleResponse`: Status and TSet are best-effort writes
        and are not counted; otherwise INVALID counts against the entry and TIMEOUT against the
        link, capped at 99. */
    method CountInvalid(i: nat, state: ResponseStatus)
      requires Valid() && i < |Script|
      modifies this, script
      ensures Valid()
      ensures Counts() == OnResponse(old(Counts()), i, false, state)
      ensures operatingFlags == old(operatingFlags) && statusFlags == old(statusFlags)
      ensures modLvl == old(modLvl) && pressure == old(pressure)
      ensures cmd == old(cmd) && sendTimer == old(sendTimer) && switchTimer == old(switchTimer)
    {
      var msgId := script[i].msgId;
      if msgId != Status && msgId != TSet {
        ghost var before := script[..];
        if state == Invalid {
          script[i] := script[i].(failures := script[i].failures + 1);
        }
        assert Failures(script[..]) == if state == Invalid then Failures(before)[i := Failures(before)[i] + 1] else Failures(before);
        if state == Timeout {
          communicationErrors := communicationErrors + 1;
          if communicationErrors > MaxCommErrors {
            communicationErrors := MaxCommErrors;
          }
        }
      }
    }

    /** The `setdata` functions of the script. */
    method Consume(consumer: Consumer, frame: Frame, now: int, stat: StatInputs)
      requires Valid() && stat.stddev >= 0.0
      modifies this, outside, inlet, outlet
      ensures Valid()
      ensures statusFlags == (if consumer == StatusConsumer then SlaveStatus(frame.word) else old(statusFlags))
      ensures modLvl == (if consumer == ModLvlConsumer then frame.asFloat else old(modLvl))
      ensures pressure == (if consumer == PressureConsumer then frame.asFloat else old(pressure))
      ensures outside.State() == (if consumer == OutsideConsumer
        then Temperatures.SetOutcome(OutsideConfig, old(outside.State()), frame.asFloat, true, now, stat.statDue, stat.stddev).reading
        else old(outside.State()))
      ensures inlet.State() == (if consumer == InletConsumer
        then Temperatures.SetOutcome(InletConfig, old(inlet.State()), frame.asFloat, true, now, stat.statDue, stat.stddev).reading
        else old(inlet.State()))
      ensures outlet.State() == (if consumer == OutletConsumer
        then Temperatures.SetOutcome(OutletConfig, old(outlet.State()), frame.asFloat, true, now, stat.statDue, stat.stddev).reading
        else old(outlet.State()))
      ensures communicationErrors == old(communicationErrors) && operatingFlags == old(operatingFlags)
      ensures cmd == old(cmd) && sendTimer == old(sendTimer) && switchTimer == old(switchTimer)
    {
      match consumer {
        case NoConsumer =>
        case StatusConsumer =>
          statusFlags := SlaveStatus(frame.word);
        case OutsideConsumer =>
          var _ := outside.Set(frame.asFloat, true, now, stat.statDue, stat.stddev);
        case InletConsumer =>
          var _ := inlet.Set(frame.asFloat, true, now, stat.statDue, stat.stddev);
        case OutletConsumer =>
          var _ := outlet.Set(frame.asFloat, true, now, stat.statDue, stat.stddev);
        case ModLvlConsumer =>
          modLvl := frame.asFloat;
        case PressureConsumer =>
          pressure := frame.asFloat;
        case VersionConsumer =>
          // the slave version is decoded into locals and otherwise unused
      }
    }

    /** `reset`: zero the failure counters up to (not including) SlaveVersion and the
        communication error counter. */
    method Reset()
      requires Valid()
      modifies this, script
      ensures Valid()
      ensures Counts() == Counters(ResetFailures(old(Counts()).failures), 0)
      ensures operatingFlags == old(operatingFlags) && statusFlags == old(statusFlags)
      ensures modLvl == old(modLvl) && pressure == old(pressure)
      ensures cmd == old(cmd) && sendTimer == old(sendTimer) && switchTimer == old(switchTimer)
    {
      var c := 0;
      while script[c].msgId != SlaveVersion
        invariant 0 <= c < |Script|
        invariant forall j :: 0 <= j < c ==> script[j] == Script[j]
        invariant forall j :: c <= j < |Script| ==> script[j] == old(script[j])
        modifies script
        decreases |Script| - c
      {
        script[c] := script[c].(failures := 0);
        c := c + 1;
      }
      communicationErrors := 0;
      assert c == Last;
      assert Failures(script[..]) == ResetFailures(old(Counts()).failures);
    }

    /** `RoomSet`: re-assert the target without validation, so that the target's statistics
        fill with it, and return it. */
    method RoomSet(now: int, stat: StatInputs) returns (t: real)
      requires Valid() && stat.stddev >= 0.0
      modifies target
      ensures Valid()
      ensures t == old(target.Get())
      ensures target.State() == Temperatures.SetOutcome(TargetConfig, old(target.State()), t, false, now, stat.statDue, stat.stddev).reading
      ensures target.Get() == t
    {
      t := target.Get();
      Temperatures.ReassertKeepsBounds(TargetConfig, target.State(), now, stat.statDue, stat.stddev, 18.0, 25.0);
      var _ := target.Set(t, false, now, stat.statDue, stat.stddev);
    }

    /** `RoomCur`: a successful sensor conversion, calibrated, is offered to the inside reading;
        the inside value is returned either way. */
    method RoomCur(sensor: SensorReading, now: int, stat: StatInputs) returns (t: real)
      requires Valid() && stat.stddev >= 0.0
      modifies inside
      ensures Valid()
      ensures inside.State() == (if sensor.Converted?
        then Temperatures.SetOutcome(InsideConfig, old(inside.State()), sensor.celsius + CalibrateRoom, true, now, stat.statDue, stat.stddev).reading
        else old(inside.State()))
      ensures t == inside.Get()
    {
      if sensor.Converted? {
        var _ := inside.Set(sensor.celsius + CalibrateRoom, true, now, stat.statDue, stat.stddev);
      }
      t := inside.Get();
    }

    /** `SetPoint`: offer the curve result to the setpoint reading; report it only while heating
        or cooling is enabled, and 0 otherwise. */
    method SetPoint(now: int, stat: StatInputs) returns (tset: real)
      requires Valid() && stat.stddev >= 0.0
      modifies setpoint, curve
      ensures Valid()
      ensures 18.0 <= target.Average() <= 25.0
      ensures var r := Curve.Evaluate(curve.factorA, curve.factorB, curve.factorC, inside.Average(), target.Average(), outside.Average());
        && curve.factor == r.factor
        && setpoint.State() == Temperatures.SetOutcome(SetpointConfig, old(setpoint.State()), r.setpoint, true, now, stat.statDue, stat.stddev).reading
      ensures curve.factorA == old(curve.factorA) && curve.factorB == old(curve.factorB) && curve.factorC == old(curve.factorC)
      ensures tset == if operatingFlags.enableCH || operatingFlags.enableCooling then setpoint.Get() else 0.0
      ensures tset == 0.0 || 10.0 <= tset <= 55.0
    {
      Temperatures.AverageWithin(target.State(), 18.0, 25.0);
      var sp := curve.Calculate(inside, target, outside);
      Temperatures.ValidatedSetKeepsBounds(SetpointConfig, setpoint.State(), sp, now, stat.statDue, stat.stddev);
      var _ := setpoint.Set(sp, true, now, stat.statDue, stat.stddev);
      if operatingFlags.enableCH || operatingFlags.enableCooling {
        tset := setpoint.Get();
      } else {
        tset := 0.0;
      }
    }

    /** What a `getdata` function did: the payload it returned and the one reading it set (with
        the curve factor, for SetPoint); the other readings and the factor are as before. */
    twostate predicate Produced(producer: Producer, flags: OperatingFlags, sensor: SensorReading, now: int,
                                stat: StatInputs, payload: Payload)
      requires old(Valid())
      reads curve, inside, target, setpoint, outside
    {
      && (producer == NoProducer ==> payload == Zero)
      && (producer == StatusProducer ==> payload == StatusWord(MasterStatus(flags)))
      && (producer == RoomSetProducer ==>
            && payload == Celsius(old(target.Get()))
            && target.State() == Temperatures.SetOutcome(TargetConfig, old(target.State()), old(target.Get()), false,
                                                         now, stat.statDue, stat.stddev).reading)
      && (producer == RoomProducer ==>
            && inside.State() == (if sensor.Converted?
                 then Temperatures.SetOutcome(InsideConfig, old(inside.State()), sensor.celsius + CalibrateRoom, true,
                                              now, stat.statDue, stat.stddev).reading
                 else old(inside.State()))
            && payload == Celsius(inside.Get()))
      && (producer == SetPointProducer ==>
            && 18.0 <= target.Average() <= 25.0
            && var r := Curve.Evaluate(curve.factorA, curve.factorB, curve.factorC,
                                       inside.Average(), target.Average(), outside.Average());
            && curve.factor == r.factor
            && setpoint.State() == Temperatures.SetOutcome(SetpointConfig, old(setpoint.State()), r.setpoint, true,
                                                           now, stat.statDue, stat.stddev).reading
            && payload == Celsius(if flags.enableCH || flags.enableCooling then setpoint.Get() else 0.0))
      && (producer != RoomProducer ==> inside.State() == old(inside.State()))
      && (producer != RoomSetProducer ==> target.State() == old(target.State()))
      && (producer != SetPointProducer ==> setpoint.State() == old(setpoint.State()) && curve.factor == old(curve.factor))
    }

    /** The `getdata` functions of the script. */
    method Produce(producer: Producer, sensor: SensorReading, now: int, stat: StatInputs) returns (payload: Payload)
      requires Valid() && stat.stddev >= 0.0
      modifies inside, target, setpoint, curve
      ensures Valid()
      ensures Produced(producer, operatingFlags, sensor, now, stat, payload)
      ensures producer == SetPointProducer ==> payload.value == 0.0 || 10.0 <= payload.value <= 55.0
      ensures curve.factorA == old(curve.factorA) && curve.factorB == old(curve.factorB) && curve.factorC == old(curve.factorC)
    {
      match producer {
        case NoProducer =>
          payload := Zero;
        case StatusProducer =>
          payload := StatusWord(MasterStatus(operatingFlags));
        case RoomSetProducer =>
          var t := RoomSet(now, stat);
          payload := Celsius(t);
        case RoomProducer =>
          var t := RoomCur(sensor, now, stat);
          payload := Celsius(t);
        case SetPointProducer =>
          var t := SetPoint(now, stat);
          payload := Celsius(t);
      }
    }

    /** The request part of `loop`: when the transport is ready and the spacing timer has passed,
        send the current entry unless it has five failures, then advance the cursor. */
    method Tick(ready: bool, sendOk: bool, sensor: SensorReading, now: int, stat: StatInputs) returns (result: TickResult)
      requires Valid() && stat.stddev >= 0.0
      modifies this, inside, target, setpoint, curve
      ensures Valid()
      ensures Counts() == old(Counts())
      ensures operatingFlags == old(operatingFlags) && statusFlags == old(statusFlags) && switchTimer == old(switchTimer)
      ensures modLvl == old(modLvl) && pressure == old(pressure)
      ensures !(ready && old(sendTimer).Passed(now)) ==> result == Idle && cmd == old(cmd) && sendTimer == old(sendTimer)
      ensures ready && old(sendTimer).Passed(now) ==> cmd == NextCursor(old(cmd))
      ensures ready && old(sendTimer).Passed(now) && !Eligible(Counts().failures, old(cmd)) ==>
        result == Skipped && sendTimer == old(sendTimer)
      ensures ready && old(sendTimer).Passed(now) && Eligible(Counts().failures, old(cmd)) ==>
        && result.Sent? && result.sendOk == sendOk
        && result.request.msgType == Script[old(cmd)].msgType && result.request.msgId == Script[old(cmd)].msgId
        && Produced(Script[old(cmd)].producer, operatingFlags, sensor, now, stat, result.request.payload)
        && sendTimer == Timer(now, SendSpacing)
      ensures !result.Sent? ==>
        && inside.State() == old(inside.State()) && target.State() == old(target.State())
        && setpoint.State() == old(setpoint.State()) && curve.factor == old(curve.factor)
      ensures curve.factorA == old(curve.factorA) && curve.factorB == old(curve.factorB) && curve.factorC == old(curve.factorC)
    {
      result := Idle;
      if ready && sendTimer.Passed(now) {
        var entry := script[cmd];
        if entry.failures < MaxFailures {
          var payload := Produce(entry.producer, sensor, now, stat);
          result := Sent(Request(entry.msgType, entry.msgId, payload), sendOk);
          sendTimer := Timer(now, SendSpacing);
        } else {
          result := Skipped;
        }
        if entry.msgId == SlaveVersion {
          cmd := 0;
        } else {
          cmd := cmd + 1;
        }
      }
    }

    function ViewOf(t: Temperatures.Temperature, now: int): Mode.View
      reads t
    {
      Mode.View(t.Get(), t.Valid(now))
    }

    /** `set_operating_mode`: only when the analysis gate is due and the anti-pendulum timer has
        passed, apply the first rule that fires and re-arm the timer when something switched. */
    method SetOperatingMode(analyseDue: bool, now: int, setpointTrend: int) returns (changed: bool)
      requires Valid()
      modifies this
      ensures Valid()
      ensures !analyseDue || !old(switchTimer).Passed(now) ==>
        !changed && operatingFlags == old(operatingFlags) && switchTimer == old(switchTimer)
      ensures analyseDue && old(switchTimer).Passed(now) ==>
        var t := Mode.Decide(old(operatingFlags), ViewOf(inside, now), ViewOf(outside, now), ViewOf(target, now),
                             ViewOf(setpoint, now), ViewOf(inlet, now), setpointTrend);
        && operatingFlags == Mode.Apply(old(operatingFlags), t)
        && changed == (t != Mode.NoChange)
        && switchTimer == if changed then Timer(now, Mode.AntiPendulum) else old(switchTimer)
      ensures Counts() == old(Counts()) && statusFlags == old(statusFlags)
      ensures modLvl == old(modLvl) && pressure == old(pressure)
      ensures cmd == old(cmd) && sendTimer == old(sendTimer)
    {
      if !analyseDue {
        return false;
      }
      if !switchTimer.Passed(now) {
        return false;
      }
      var vInside, vOutside, vTarget := ViewOf(inside, now), ViewOf(outside, now), ViewOf(target, now);
      var vSetpoint, vInlet := ViewOf(setpoint, now), ViewOf(inlet, now);
      ghost var t := Mode.Decide(operatingFlags, vInside, vOutside, vTarget, vSetpoint, vInlet, setpointTrend);
      if operatingFlags.enableCooling == false
         && vInside.valid && vInside.value > Mode.ComfortLimit
         && vOutside.valid && vOutside.value > Mode.ComfortLimit
      {
        assert t == Mode.CoolingOn;
        Switch(operatingFlags.(enableCooling := true), now);
        return true;
      }
      if operatingFlags.enableCooling == true
         && vInside.valid && vInside.value < Mode.ComfortLimit
      {
        assert t == Mode.CoolingOff;
        Switch(operatingFlags.(enableCooling := false), now);
        return true;
      }
      if operatingFlags.enableCH == false
         && vInside.valid && vInside.value < Mode.ComfortLimit
         && vTarget.valid && vSetpoint.valid
      {
        var error := Mode.Round1(vInside.value - vTarget.value);
        var trend := Mode.Round1(setpointTrend as real);
        if 2.0 * trend > error {
          assert t == Mode.HeatingOn;
          Switch(operatingFlags.(enableCH := true), now);
          return true;
        }
      }
      if operatingFlags.enableCH == true
         && vSetpoint.valid && vInlet.valid
         && Mode.Round1(vInlet.value - vSetpoint.value) > 0.1
      {
        assert t == Mode.HeatingOff;
        Switch(operatingFlags.(enableCH := false), now);
        return true;
      }
      assert t == Mode.NoChange;
      return false;
    }

    /** A switch of the operating flags re-arms the anti-pendulum timer. */
    method Switch(flags: OperatingFlags, now: int)
      requires Valid()
      modifies this
      ensures Valid()
      ensures operatingFlags == flags && switchTimer == Timer(now, Mode.AntiPendulum)
      ensures Counts() == old(Counts()) && statusFlags == old(statusFlags)
      ensures modLvl == old(modLvl) && pressure == old(pressure)
      ensures cmd == old(cmd) && sendTimer == old(sendTimer)
    {
      operatingFlags := flags;
      switchTimer := Timer(now, Mode.AntiPendulum);
    }

    /** `loop`: the periodic reset, one request slot, then the operating-mode decision. The
        responses that `process()` delivers arrive through HandleResponse. */
    method Loop(resetDue: bool, ready: bool, sendOk: bool, sensor: SensorReading, analyseDue: bool,
                setpointTrend: int, now: int, stat: StatInputs) returns (result: TickResult)
      requires Valid() && stat.stddev >= 0.0
      modifies this, script, inside, target, setpoint, curve
      ensures Valid()
      ensures Counts() == if resetDue then Counters(ResetFailures(old(Counts()).failures), 0) else old(Counts())
      ensures cmd == if ready && old(sendTimer).Passed(now) then NextCursor(old(cmd)) else old(cmd)
      ensures result.Sent? ==> ready && old(sendTimer).Passed(now) && Eligible(Counts().failures, old(cmd))
      ensures ready && old(sendTimer).Passed(now) && Eligible(Counts().failures, old(cmd)) ==> result.Sent?
      ensures result.Sent? ==>
        && result.request.msgType == Script[old(cmd)].msgType && result.request.msgId == Script[old(cmd)].msgId
        && result.sendOk == sendOk
      ensures !(ready && old(sendTimer).Passed(now)) ==> result == Idle
      ensures ready && old(sendTimer).Passed(now) && !Eligible(Counts().failures, old(cmd)) ==> result == Skipped
      ensures operatingFlags.enableDHW == old(operatingFlags.enableDHW)
      ensures operatingFlags.enableOTC == old(operatingFlags.enableOTC)
      ensures !(operatingFlags.enableCH != old(operatingFlags.enableCH) && operatingFlags.enableCooling != old(operatingFlags.enableCooling))
      ensures operatingFlags != old(operatingFlags) ==> analyseDue && old(switchTimer).Passed(now)
      ensures switchTimer == if operatingFlags != old(operatingFlags) then Timer(now, Mode.AntiPendulum) else old(switchTimer)
      ensures sendTimer == if result.Sent? then Timer(now, SendSpacing) else old(sendTimer)
      ensures result.Sent? ==> Produced(Script[old(cmd)].producer, old(operatingFlags), sensor, now, stat, result.request.payload)
      ensures !result.Sent? ==>
        && inside.State() == old(inside.State()) && target.State() == old(target.State())
        && setpoint.State() == old(setpoint.State()) && curve.factor == old(curve.factor)
      ensures curve.factorA == old(curve.factorA) && curve.factorB == old(curve.factorB) && curve.factorC == old(curve.factorC)
      ensures statusFlags == old(statusFlags) && modLvl == old(modLvl) && pressure == old(pressure)
    {
      if resetDue {
        Reset();
      }
      result := Tick(ready, sendOk, sensor, now, stat);
      ghost var flags := operatingFlags;
      var changed := SetOperatingMode(analyseDue, now, setpointTrend);
      Mode.DecisionFlipsAtMostOne(flags, ViewOf(inside, now), ViewOf(outside, now), ViewOf(target, now),
                                  ViewOf(setpoint, now), ViewOf(inlet, now), setpointTrend);
    }
  }
}
