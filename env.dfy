/** env.py: the `GPUEnv` control loop. Each step clamps the previous power limit
    plus the action into [100, 275], issues the limit, waits, samples the monitor,
    scores the move with the reward of reward.py using the limit from BEFORE the
    step, and only then commits the new limit. The actuator commands, the waits
    and the telemetry queries are recorded, in order, in an event log;
    the query outputs and the clock reads are parameters. */
module Env {
  import opened Numeric
  import opened Telemetry
  import opened MonitorState
  import Reward

  const MinLimitW: real := 100.0
  const MaxLimitW: real := 275.0
  /** The power limit every reset starts from. */
  const ResetLimitW: real := 260.0
  /** The settle delay of `reset`, in seconds. */
  const ResetSettleSecs: real := 1.0

  /** An effect on the outside world. */
  datatype Event =
    | PowerLimitCommand(watts: int)  // nvidia-smi --power-limit=<watts>
    | FanSpeedCommand(percent: int)  // nvidia-settings GPUTargetFanSpeed=<percent>
    | Sleep(secs: real)              // time.sleep
    | Query(at: real)                // the monitor's nvidia-smi query, sampled at `at`

  /** The argument `set_power_limit` puts on the command line: the value clamped
      into [100, 275], then truncated to an integer. */
  function PowerLimitWatts(value: real): (w: int)
    ensures 100 <= w <= 275
    ensures w as real <= Clamp(value, MinLimitW, MaxLimitW) < w as real + 1.0
    ensures value <= 100.0 ==> w == 100
    ensures value >= 275.0 ==> w == 275
  {
    Trunc(Clamp(value, MinLimitW, MaxLimitW))
  }

  /** The argument `set_fan_speed` puts on the command line: the value clamped
      into [0, 100], then truncated to an integer. */
  function FanSpeedPercent(value: real): (p: int)
    ensures 0 <= p <= 100
    ensures p as real <= Clamp(value, 0.0, 100.0) < p as real + 1.0
    ensures value <= 0.0 ==> p == 0
    ensures value >= 100.0 ==> p == 100
  {
    Trunc(Clamp(value, 0.0, 100.0))
  }

  /** The new power limit of a step: `clip(pl_old + delta, 100, 275)`. */
  function NextLimit(plOld: real, delta: real): (p: real)
    ensures MinLimitW <= p <= MaxLimitW
    ensures MinLimitW <= plOld + delta <= MaxLimitW ==> p == plOld + delta
    ensures plOld + delta < MinLimitW ==> p == MinLimitW
    ensures plOld + delta > MaxLimitW ==> p == MaxLimitW
  {
    Clamp(plOld + delta, MinLimitW, MaxLimitW)
  }

  /** A zero action from a limit already in range changes nothing; in particular
      right after a reset the limit stays at 260. */
  lemma IdleStep(plOld: real)
    requires MinLimitW <= plOld <= MaxLimitW
    ensures NextLimit(plOld, 0.0) == plOld
    ensures NextLimit(ResetLimitW, 0.0) == ResetLimitW
  {
  }

  /** Re-clamping a limit a step produced changes nothing, and the command issued
      for it is its integer part. */
  lemma StepLimitIsFixedPoint(plOld: real, delta: real)
    ensures var p := NextLimit(plOld, delta);
      Clamp(p, MinLimitW, MaxLimitW) == p && PowerLimitWatts(p) == p.Floor
  {
  }

  /** The effects of a reset: the limit command for 260 W, the settle delay, the query. */
  function ResetEvents(tQuery: real): (es: seq<Event>)
    ensures es == [PowerLimitCommand(260), Sleep(ResetSettleSecs), Query(tQuery)]
  {
    [PowerLimitCommand(PowerLimitWatts(ResetLimitW)), Sleep(ResetSettleSecs), Query(tQuery)]
  }

  /** Appending three events one by one appends the three of them. */
  lemma AppendEvents(log: seq<Event>, a: Event, b: Event, c: Event)
    ensures log + [a] + [b] + [c] == log + [a, b, c]
  {
  }

  /** The observation array of `step` and `reset`, in its fixed order. */
  function Vector(o: Observation): (v: seq<real>)
    ensures |v| == 7
  {
    [o.temp, o.gpuUtil, o.slope3s, o.powerLimit, o.actualPowerDraw, o.eta, o.fan]
  }

  /** Reads an observation array back. */
  function FromVector(v: seq<real>): Observation
    requires |v| == 7
  {
    Observation(v[0], v[1], v[2], v[3], v[4], v[5], v[6])
  }

  /** The array carries exactly the seven observation fields: reading it back
      gives the observation, and packing a read-back array gives the array. */
  lemma VectorRoundTrip(o: Observation, v: seq<real>)
    requires |v| == 7
    ensures FromVector(Vector(o)) == o
    ensures Vector(FromVector(v)) == v
  {
  }

  class GPUEnv {
    const gpuId: int
    /** The dwell after each actuation, in seconds. */
    const stepTime: real
    const monitor: GPUInfoMonitor

    var currentTemp: real
    var currentSlope3s: real
    var currentPowerLimit: real
    var currentPowerDraw: real
    var currentEta: real
    var currentFan: real
    var currentUtilization: real

    var plOld: real
    var terminatedFlag: bool

    /** The external effects so far, oldest first. */
    var log: seq<Event>

    ghost predicate Valid()
    {
      monitor.historySecs == 10.0
    }

    /** The observation mirrored into the `current_*` fields. */
    function Mirrored(): Observation
      reads this
    {
      Observation(currentTemp, currentUtilization, currentSlope3s, currentPowerLimit,
                  currentPowerDraw, currentEta, currentFan)
    }

    /** The state `reset` leaves behind, with the query outcome `telemetry` sampled
        at `tQuery` and the slope read at `tSlope`: not terminated, back at 260 W,
        the history holding only the new sample, the observation mirrored. */
    ghost predicate AfterReset(tQuery: real, tSlope: real, telemetry: Option<string>)
      reads this, monitor
    {
      plOld == ResetLimitW && !terminatedFlag
      && monitor.UpdatedFrom([], tQuery, telemetry)
      && Mirrored() == monitor.Reported(tSlope)
    }

    /** After a sample the mirrored fields are the parsed telemetry, not the
        commanded values: in particular `current_power_limit` is the limit the
        GPU reports, whatever `pl_new` was. */
    lemma MirrorsTelemetry(before: seq<Sample>, tQuery: real, tSlope: real, telemetry: Option<string>)
      requires monitor.UpdatedFrom(before, tQuery, telemetry) && Mirrored() == monitor.Reported(tSlope)
      ensures var r := ParseNvidiaSmi(telemetry, monitor.floatOf);
        currentTemp == r.temp && currentUtilization == r.gpuUtil && currentPowerLimit == r.powerLimit
        && currentPowerDraw == r.powerDraw && currentFan == r.fanSpeed
        && currentEta == Eta(r.powerDraw, r.powerLimit)
    {
    }

    /** Right after a reset the history is the one new sample, so the reported
        slope is 0. */
    lemma ResetObservation(tQuery: real, tSlope: real, telemetry: Option<string>)
      requires Valid() && AfterReset(tQuery, tSlope, telemetry)
      ensures monitor.tempHistory == [Sample(tQuery, currentTemp)]
      ensures currentSlope3s == 0.0
    {
      FreshHistory(Sample(tQuery, currentTemp), 10.0, currentTemp, tSlope);
    }

    /** `__init__`: the defaults, then a `reset` (with its query output and clock reads). */
    constructor (gpuId: int, stepTime: real, floatOf: string -> Option<real>,
                 tQuery: real, tSlope: real, telemetry: Option<string>)
      ensures Valid() && fresh(monitor)
      ensures this.gpuId == gpuId && this.stepTime == stepTime && monitor.floatOf == floatOf
      ensures AfterReset(tQuery, tSlope, telemetry)
      ensures log == ResetEvents(tQuery)
    {
      this.gpuId := gpuId;
      this.stepTime := stepTime;
      monitor := new GPUInfoMonitor(gpuId, floatOf);
      currentTemp := 0.0;
      currentSlope3s := 0.0;
      currentPowerLimit := 260.0;
      currentPowerDraw := 0.0;
      currentEta := 0.0;
      currentFan := 0.0;
      currentUtilization := 0.0;
      plOld := 260.0;
      terminatedFlag := false;
      log := [];
      new;
      var _ := Reset(tQuery, tSlope, telemetry);
    }

    /** `set_power_limit`: issue the clamped, truncated limit. A command that exits
        with a non-zero status is only reported by the source, so that outcome looks
        like success here; a command that cannot be started at all raises, and the
        model does not capture that. */
    method SetPowerLimit(value: real)
      modifies this`log
      ensures log == old(log) + [PowerLimitCommand(PowerLimitWatts(value))]
    {
      var clamped := Clamp(value, MinLimitW, MaxLimitW);
      log := log + [PowerLimitCommand(Trunc(clamped))];
    }

    /** `set_fan_speed`: issue the clamped, truncated fan speed. */
    method SetFanSpeed(fanSpeed: real)
      modifies this`log
      ensures log == old(log) + [FanSpeedCommand(FanSpeedPercent(fanSpeed))]
    {
      var clamped := Clamp(fanSpeed, 0.0, 100.0);
      log := log + [FanSpeedCommand(Trunc(clamped))];
    }

    /** The query, `update_info` and `get_observation` sequence shared by
        `get_temp`, `step` and `reset`. */
    method QueryMonitor(tQuery: real, tSlope: real, telemetry: Option<string>) returns (obsDict: Observation)
      requires Valid()
      modifies this`log, monitor
      ensures log == old(log) + [Query(tQuery)]
      ensures monitor.UpdatedFrom(old(monitor.tempHistory), tQuery, telemetry)
      ensures obsDict == monitor.Reported(tSlope)
    {
      log := log + [Query(tQuery)];
      monitor.UpdateInfo(tQuery, telemetry);
      obsDict := monitor.GetObservation(tSlope);
    }

    /** Issue a power limit, wait `settle` seconds, then sample: the common middle
        of `step` and `reset`. */
    method Actuate(limit: real, settle: real, tQuery: real, tSlope: real, telemetry: Option<string>)
      returns (obsDict: Observation)
      requires Valid()
      modifies this`log, monitor
      ensures log == old(log) + [PowerLimitCommand(PowerLimitWatts(limit))] + [Sleep(settle)] + [Query(tQuery)]
      ensures monitor.UpdatedFrom(old(monitor.tempHistory), tQuery, telemetry)
      ensures obsDict == monitor.Reported(tSlope)
    {
      SetPowerLimit(limit);
      log := log + [Sleep(settle)];
      obsDict := QueryMonitor(tQuery, tSlope, telemetry);
    }

    /** Mirror the observation dictionary into the `current_*` fields and pack them. */
    method Publish(obsDict: Observation) returns (obs: seq<real>)
      modifies this`currentTemp, this`currentSlope3s, this`currentPowerLimit,
               this`currentPowerDraw, this`currentEta, this`currentFan, this`currentUtilization
      ensures Mirrored() == obsDict && obs == Vector(obsDict)
    {
      currentTemp := obsDict.temp;
      currentSlope3s := obsDict.slope3s;
      currentPowerLimit := obsDict.powerLimit;
      currentPowerDraw := obsDict.actualPowerDraw;
      currentEta := obsDict.eta;
      currentFan := obsDict.fan;
      currentUtilization := obsDict.gpuUtil;
      obs := [currentTemp, currentUtilization, currentSlope3s, currentPowerLimit,
              currentPowerDraw, currentEta, currentFan];
    }

    /** `get_temp`: sample the monitor and mirror only the temperature. */
    method GetTemp(tQuery: real, tSlope: real, telemetry: Option<string>) returns (temp: real)
      requires Valid()
      modifies this`log, this`currentTemp, monitor
      ensures Valid()
      ensures log == old(log) + [Query(tQuery)]
      ensures monitor.UpdatedFrom(old(monitor.tempHistory), tQuery, telemetry)
      ensures temp == currentTemp == monitor.currentTemp
    {
      var obsDict := QueryMonitor(tQuery, tSlope, telemetry);
      currentTemp := obsDict.temp;
      temp := currentTemp;
    }

    /** `step(action)` with `delta = action[0]`; `tQuery` and `tSlope` are the clock
        reads of the monitor's `update_info` and `get_slope_3s`. */
    method Step(delta: real, tQuery: real, tSlope: real, telemetry: Option<string>)
      returns (obs: seq<real>, reward: real, terminated: bool, truncated: bool)
      requires Valid()
      modifies this, monitor
      ensures Valid()
      ensures plOld == NextLimit(old(plOld), delta)
      ensures log == old(log) + [PowerLimitCommand(PowerLimitWatts(plOld))] + [Sleep(stepTime)] + [Query(tQuery)]
      ensures monitor.UpdatedFrom(old(monitor.tempHistory), tQuery, telemetry)
      ensures Mirrored() == monitor.Reported(tSlope) && obs == Vector(Mirrored())
      ensures reward == Reward.ComputeReward(currentTemp, old(plOld), plOld)
      ensures !terminated && !truncated && !terminatedFlag
    {
      var plNew := plOld + delta;
      plNew := Clamp(plNew, MinLimitW, MaxLimitW);
      var obsDict := Actuate(plNew, stepTime, tQuery, tSlope, telemetry);
      var temp := obsDict.temp;
      terminated := false;
      truncated := false;
      reward := Reward.ComputeReward(temp, plOld, plNew);
      plOld := plNew;
      terminatedFlag := terminated;
      obs := Publish(obsDict);
    }

    /** `reset()`: clear the history, go back to 260 W, settle, sample. */
    method Reset(tQuery: real, tSlope: real, telemetry: Option<string>) returns (obs: seq<real>)
      requires Valid()
      modifies this, monitor
      ensures Valid()
      ensures AfterReset(tQuery, tSlope, telemetry) && obs == Vector(Mirrored())
      ensures log == old(log) + ResetEvents(tQuery)
    {
      terminatedFlag := false;
      monitor.tempHistory := [];
      plOld := ResetLimitW;
      var obsDict := Actuate(ResetLimitW, ResetSettleSecs, tQuery, tSlope, telemetry);
      AppendEvents(old(log), PowerLimitCommand(PowerLimitWatts(ResetLimitW)), Sleep(ResetSettleSecs), Query(tQuery));
      obs := Publish(obsDict);
    }
  }
}
