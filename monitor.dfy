/** The stateful half of monitor.py: the `GPUInfoMonitor` object, whose
    temperature history (a deque in the source, a sequence here) and current
    readings are updated in place by `update_info`. The `nvidia-smi` query is an
    input (`None` when the command fails), and each `time.time()` call is a
    parameter. */
module MonitorState {
  import opened Telemetry

  /** The observation dictionary of `get_observation`. */
  datatype Observation = Observation(
    temp: real, gpuUtil: real, slope3s: real, powerLimit: real,
    actualPowerDraw: real, eta: real, fan: real)

  class GPUInfoMonitor {
    const gpuId: int
    /** The history window, in seconds. */
    const historySecs: real
    /** Python's `float()` on one field: a number, or `None` for a `ValueError`. */
    const floatOf: string -> Option<real>

    var tempHistory: seq<Sample>
    var currentTemp: real
    var currentGpuUtil: real
    var currentPowerDraw: real
    var currentPowerLimit: real
    var currentFanSpeed: real

    /** The current readings as one value. */
    function Current(): Reading
      reads this
    {
      Reading(currentTemp, currentGpuUtil, currentPowerDraw, currentPowerLimit, currentFanSpeed)
    }

    /** The observation `get_observation` reports at slope time `now`. */
    function Reported(now: real): Observation
      reads this
    {
      Observation(currentTemp, currentGpuUtil, Slope3s(tempHistory, currentTemp, now),
                  currentPowerLimit, currentPowerDraw, Eta(currentPowerDraw, currentPowerLimit),
                  currentFanSpeed)
    }

    /** The state `update_info` leaves behind when it ran at `now` on a history
        `before` with the query outcome `output`. */
    ghost predicate UpdatedFrom(before: seq<Sample>, now: real, output: Option<string>)
      reads this
    {
      Current() == ParseNvidiaSmi(output, floatOf)
      && tempHistory == Evict(before + [Sample(now, currentTemp)], now, historySecs)
    }

    constructor (gpuId: int, floatOf: string -> Option<real>)
      ensures this.gpuId == gpuId && this.floatOf == floatOf && historySecs == 10.0
      ensures tempHistory == []
      ensures Current() == Fallback
    {
      this.gpuId := gpuId;
      this.floatOf := floatOf;
      historySecs := 10.0;
      tempHistory := [];
      currentTemp := 0.0;
      currentGpuUtil := 0.0;
      currentPowerDraw := 0.0;
      currentPowerLimit := 150.0;
      currentFanSpeed := 0.0;
    }

    /** `update_info` at time `now` with the query outcome `output`: append the
        sample, evict stale entries from the front, overwrite the current readings. */
    method UpdateInfo(now: real, output: Option<string>)
      requires historySecs >= 0.0
      modifies this
      ensures UpdatedFrom(old(tempHistory), now, output)
      ensures Current() == ParseNvidiaSmi(output, floatOf)
      ensures |tempHistory| >= 1 && tempHistory[|tempHistory| - 1] == Sample(now, currentTemp)
      ensures var older := tempHistory[..|tempHistory| - 1];
        |older| <= |old(tempHistory)| && older == old(tempHistory)[|old(tempHistory)| - |older|..]
      ensures Sorted(old(tempHistory)) && (old(tempHistory) == [] || old(tempHistory)[|old(tempHistory)| - 1].t <= now)
        ==> Sorted(tempHistory) && forall s :: s in tempHistory ==> now - s.t <= historySecs
    {
      var r := ParseNvidiaSmi(output, floatOf);
      ghost var h0 := tempHistory;
      tempHistory := tempHistory + [Sample(now, r.temp)];
      ghost var appended := tempHistory;
      while |tempHistory| > 0
        invariant Evict(tempHistory, now, historySecs) == Evict(appended, now, historySecs)
      {
        if now - tempHistory[0].t > historySecs {
          tempHistory := tempHistory[1..];
        } else {
          break;
        }
      }
      currentTemp := r.temp;
      currentGpuUtil := r.gpuUtil;
      currentPowerDraw := r.powerDraw;
      currentPowerLimit := r.powerLimit;
      currentFanSpeed := r.fanSpeed;
      RecordSample(h0, Sample(now, r.temp), historySecs);
    }

    /** The loop of `get_slope_3s`: scan the history from the newest entry back
        for the first one at or before `target`. */
    method FindOlder(target: real) returns (candidate: Option<Sample>)
      ensures match LatestAtOrBefore(tempHistory, target)
        case None => candidate == None
        case Some(k) => candidate == Some(tempHistory[k])
    {
      candidate := None;
      var i := |tempHistory|;
      while i > 0
        invariant 0 <= i <= |tempHistory|
        invariant LatestAtOrBefore(tempHistory, target) == LatestAtOrBefore(tempHistory[..i], target)
      {
        LatestStep(tempHistory, i, target);
        i := i - 1;
        if tempHistory[i].t <= target {
          return Some(tempHistory[i]);
        }
      }
      assert tempHistory[..0] == [];
    }

    /** `get_slope_3s` at time `now`. */
    method GetSlope3s(now: real) returns (slope: real)
      ensures slope == Slope3s(tempHistory, currentTemp, now)
    {
      var target := now - SlopeWindow;
      if |tempHistory| < 2 {
        return 0.0;
      }
      var candidate := FindOlder(target);
      if candidate.None? {
        return 0.0;
      }
      var older := candidate.value;
      var dt := now - older.t;
      if dt < MinElapsed {
        return 0.0;
      }
      slope := (currentTemp - older.temp) / dt;
    }

    /** `get_observation` at time `now` (the slope's clock read). */
    method GetObservation(now: real) returns (obs: Observation)
      ensures obs == Reported(now)
      ensures obs.temp == currentTemp && obs.powerLimit == currentPowerLimit
      ensures obs.slope3s == Slope3s(tempHistory, currentTemp, now)
      ensures obs.eta == Eta(currentPowerDraw, currentPowerLimit)
    {
      var slope := GetSlope3s(now);
      var eta := Eta(currentPowerDraw, currentPowerLimit);
      obs := Observation(currentTemp, currentGpuUtil, slope, currentPowerLimit,
                         currentPowerDraw, eta, currentFanSpeed);
    }
  }
}
