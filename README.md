# GPU power-limit controller, modelled in Dafny

This project models the core of a reinforcement-learning controller for a GPU's
power limit, and proves properties of that model.

The controller is a gym environment, `GPUEnv`. Each `step` moves the power limit by
the agent's action, clamped into [100, 275] W, and waits. It then samples the GPU
through a telemetry monitor, `GPUInfoMonitor`, and scores the move with a reward
function of the temperature, the old limit and the new limit.

The model covers:

- **The three reward strategies**, as pure functions over `real`:
  - `Reward.ComputeReward` is reward.py, the two-regime strategy the environment uses.
  - `FastReward.ComputeReward` is fast/reward.py, the three-regime strategy with a 0.1 floor on the early factor.
  - `TrainReward.Reward1` is `reward_1` of train_reward_1.py.
- **The monitor**, in two parts:
  - The pure part is module `Telemetry`. It holds the `nvidia-smi` line decoder with its fallback reading, and the functions that specify the history eviction, the 3-second slope and the eta ratio.
  - The stateful part is class `MonitorState.GPUInfoMonitor`. Its temperature history is a `seq` field that `UpdateInfo` appends to and evicts from in a loop. `GetSlope3s` scans that history backwards in a loop.
- **The environment**, class `Env.GPUEnv`. It has the `current_*` fields, `pl_old`, `terminated_flag`, and an event log of the commands, waits and queries it issues. `Step` and `Reset` update these fields in the source's order. `Step` scores the move with the limit from before the step, and only then commits the new limit.

The outside world appears only as parameters:

- The text of each `nvidia-smi` query is an `Option<string>`; `None` means the command failed.
- Python's `float()` on one field is the monitor's constant `floatOf: string -> Option<real>`; `None` means a `ValueError`.
- Each `time.time()` read is its own `real` parameter: `tQuery` for `update_info` and `tSlope` for `get_slope_3s`.
- The actuator commands and `time.sleep` appear only as `Event`s in `GPUEnv.log`.

## Model

| member | source | states |
|---|---|---|
| Numeric.Clamp | env.py:58 | `np.clip` on a scalar: the result lies in [lo, hi], equals lo below, hi above, and x inside |
| Numeric.Trunc | env.py:62 | Python `int()` on a float truncates toward zero: for x >= 0 the integer part bounds x from below, for x < 0 from above |
| Numeric.NormPl | fast/reward.py:36-43 | `get_norm_pl` (and the same normalisation written out at reward.py:36-38 and 63-67) lies in [0, 1]; it is 0 exactly when v <= 100, 1 exactly when v >= 275, and `(v - 100) / 175` in between |
| FastReward.ComputeReward | fast/reward.py:1-103 | no contract of its own: the three regimes are stated by HotWithoutCut, HotCutPositive and HotRewardIncreasesWithDrop (temp >= 75), MidBand and MidBandLowerEdge (70 <= temp < 75), and CoolWithoutRaise, CoolRaisePositive and CoolRewardIncreasesWithRaise (temp < 70) |
| FastReward.HotEarlyFactor | fast/reward.py:52-57 | the hot early factor `1 - norm(pl_old)`, floored, lies in [0.1, 1] |
| FastReward.CoolEarlyFactor | fast/reward.py:87-92 | the cool early factor `norm(pl_old)`, floored, lies in [0.1, 1] |
| FastReward.ExtraFactor | fast/reward.py:59-61 | the extra factor is at least 1, and is exactly `1 + 0.3 * amount` for a non-negative amount |
| FastReward.ShapedPositive | fast/reward.py:63-64 | `0.5 * amount * early * extra` is strictly positive for a positive move and early factor |
| FastReward.ShapedStrictlyIncreasing | fast/reward.py:63-64 | with the early factor fixed, the shaped score strictly grows with the size of the move |
| FastReward.HotWithoutCut | fast/reward.py:48-67 | at temp >= 75 (75 included) with no cut, the reward is exactly -1 |
| FastReward.HotCutPositive | fast/reward.py:49-64 | at temp >= 75 with a cut, the reward is strictly positive |
| FastReward.HotRewardIncreasesWithDrop | fast/reward.py:50-64 | at temp >= 75 with pl_old fixed, the reward strictly increases with the drop |
| FastReward.MidBand | fast/reward.py:73-78 | for 70 <= temp < 75 the reward is `norm(pl_new) * (75 - temp) / 5`; it does not depend on pl_old, lies in [0, 1], and is positive exactly when pl_new > 100 |
| FastReward.MidBandLowerEdge | fast/reward.py:73-77 | at temp = 70 the reward is `norm(pl_new)` |
| FastReward.CoolWithoutRaise | fast/reward.py:83-102 | at temp < 70 with no raise, the reward is exactly -1 |
| FastReward.CoolRaisePositive | fast/reward.py:84-99 | at temp < 70 with a raise, the early factor is `max(norm(pl_old), 0.1)`, the reward is `0.5 * up * early * (1 + 0.3 * up)`, and it is strictly positive |
| FastReward.CoolRewardIncreasesWithRaise | fast/reward.py:84-99 | at temp < 70 with pl_old fixed, the reward strictly increases with pl_new |
| FastReward.FloorAtExtremes | fast/reward.py:56-92 | a 1 W cut from 275 W while hot, or a 1 W raise from 100 W while cool, scores 0.065 rather than 0 |
| FastReward.Scenarios | fast/reward.py:48-78 | reward(80, 200, 150) = 1200/7 (about 171.43); reward(80, 150, 200) = -1; reward(72, 100, 275) = 0.6; reward(75, 200, 200) = -1 |
| Reward.ComputeReward | reward.py:1-77 | no contract of its own: the hot regime is stated by HotWithoutCut, HotCut and HotRewardIncreasesWithDrop, the cool regime by CoolRegime, and the inert large-action rule by LargeActionNotZeroed |
| Reward.ExtraFactor | reward.py:45-47 | the extra factor is at least 1, and is exactly `1 + 0.05 * drop` for a non-negative drop |
| Reward.EarlyFactor | reward.py:39 | the early factor `1 - norm_pl_old` lies in [0, 1], and is 0 exactly when pl_old >= 275 (there is no floor) |
| Reward.TempFactor | reward.py:70-74 | below 75 degrees the temperature factor lies in (0, 1]; it is 1 up to 70, and linear above, `(75 - temp) / 5`, from 1 at 70 towards 0 at 75 |
| Reward.HotWithoutCut | reward.py:28-56 | at temp >= 75 with no cut, the reward is exactly -0.5 |
| Reward.HotCut | reward.py:33-52 | at temp >= 75 with a cut, the extra factor is the unclamped `1 + 0.05 * drop`; the reward is >= 0, and is 0 exactly when pl_old >= 275 |
| Reward.HotRewardIncreasesWithDrop | reward.py:33-52 | at temp >= 75 with pl_old < 275 fixed, the reward strictly increases with the drop |
| Reward.CoolRegime | reward.py:62-77 | below 75 degrees the reward is `norm(pl_new) * temp_factor`; it does not depend on pl_old, lies in [0, 1], equals `norm(pl_new)` at or below 70, and is positive exactly when pl_new > 100 |
| Reward.TempFactorContinuous | reward.py:70-74 | the two pieces of the temperature factor meet at 1 at 70 degrees; the factor never falls faster than 1/5 per degree |
| Reward.LargeActionNotZeroed | reward.py:20-77 | a move of 30 W or more is not zeroed: reward(60, 100, 275) = 1, and reward(80, 200, 150) = 25 * (3/7) * 3.5 |
| TrainReward.Reward1 | train_reward_1.py:12-18 | no contract of its own: its three bands are stated by Overheated, WarmBand and CoolIncreasingInLimit, and its shape by WarmBandNonIncreasing, IndependentOfOldLimit and HotNeverPositive |
| TrainReward.Overheated | train_reward_1.py:13-14 | from 80 degrees the reward is exactly -100 |
| TrainReward.WarmBand | train_reward_1.py:15-16 | for 75 <= temp < 80 the reward is `-5 * (temp - 75)`, lies in (-25, 0], and is 0 at 75 |
| TrainReward.WarmBandNonIncreasing | train_reward_1.py:15-16 | on 75 <= temp < 80 the reward does not increase with temperature |
| TrainReward.CoolIncreasingInLimit | train_reward_1.py:17-18 | below 75 degrees the reward strictly increases with pl_new |
| TrainReward.IndependentOfOldLimit | train_reward_1.py:12-18 | the reward never depends on pl_old |
| TrainReward.HotNeverPositive | train_reward_1.py:13-16 | from 75 degrees the reward is never positive |
| Telemetry.StripLeft | monitor.py:34-35 | no contract of its own: `lstrip` is described by StripLeftShape and StripLeftKeeps |
| Telemetry.StripRight | monitor.py:34-35 | no contract of its own: `rstrip` is described by StripRightShape and StripRightKeeps |
| Telemetry.Strip | monitor.py:34-35 | no contract of its own: `str.strip()` is described by StripShape and StripKeeps |
| Telemetry.StripLeftShape | monitor.py:34-35 | `lstrip` removes exactly the leading whitespace: the result is a suffix of the input, everything removed is whitespace, and what remains does not start with whitespace |
| Telemetry.StripRightShape | monitor.py:34-35 | `rstrip` removes exactly the trailing whitespace: the result is a prefix of the input, everything removed is whitespace, and what remains does not end with whitespace |
| Telemetry.StripShape | monitor.py:34-35 | `str.strip()` never lengthens the line and leaves no whitespace at either end |
| Telemetry.StripKeeps | monitor.py:34-35 | `str.strip()` keeps every non-space character, commas included, as often as it occurred |
| Telemetry.Split | monitor.py:35 | `str.split(',')` always gives at least one part |
| Telemetry.SplitParts | monitor.py:35 | no part of a split contains the separator |
| Telemetry.SplitJoin | monitor.py:35 | splitting loses nothing: joining the parts with the separator gives the line back |
| Telemetry.SplitCount | monitor.py:35-36 | there is one more part than there are separators |
| Telemetry.Fields | monitor.py:34-35 | no contract of its own: the stripped, split, per-field-stripped line is described by FieldsCount and FieldsTrimmed |
| Telemetry.FieldsCount | monitor.py:34-36 | the field list has one more entry than the raw line has commas, so the length check of line 36 is a comma count |
| Telemetry.FieldsTrimmed | monitor.py:35 | no field has whitespace at either end |
| Telemetry.ParseFields | monitor.py:36-50 | fewer than five fields gives the fallback `(0, 0, 0, 150, 0)`; so does a non-number among the first five; otherwise the result is the five values in order |
| Telemetry.ExtraFieldsIgnored | monitor.py:40-50 | fields after the fifth do not change the result |
| Telemetry.ParseNvidiaSmi | monitor.py:28-38 | a failed command gives the fallback, and so does a line with fewer than four commas |
| Telemetry.ParseWellFormed | monitor.py:40-50 | a line with five convertible fields gives exactly those five values, in order |
| Telemetry.ParseBadField | monitor.py:40-48 | a field among the first five that does not convert gives the fallback |
| Telemetry.Evict | monitor.py:56-62 | no contract of its own: popping stale entries off the front is described by EvictSuffix, EvictInWindow, AppendThenEvict and RecordSample |
| Telemetry.EvictSuffix | monitor.py:57-62 | eviction keeps a suffix of the history in order; every dropped entry was older than the window; the first kept entry is not |
| Telemetry.EvictInWindow | monitor.py:57-62 | on non-decreasing timestamps every kept entry satisfies `now - t <= window`, and the result stays sorted |
| Telemetry.AppendThenEvict | monitor.py:56-62 | a sample appended at its own time survives eviction and is the last entry; the history is never empty afterwards |
| Telemetry.RecordSample | monitor.py:56-62 | the new sample is last, and the older entries are a suffix of the previous history; on a sorted history that `now` does not precede, the result is sorted and lies in the window |
| Telemetry.LatestAtOrBefore | monitor.py:76-81 | the backward scan finds the newest entry with `t <= target`, and every later entry is newer than the target; it finds nothing only when no entry qualifies |
| Telemetry.Slope3s | monitor.py:70-91 | no contract of its own: the 3-second slope is described by SlopeZeroCases, SlopeFormula and FreshHistory |
| Telemetry.SlopeZeroCases | monitor.py:72-83 | the slope is 0 when the history has fewer than 2 entries, or when no entry is at or before `now - 3` |
| Telemetry.SlopeFormula | monitor.py:76-91 | otherwise the slope is `(current - older.temp) / (now - older.t)` against the newest entry at or before `now - 3`, and the elapsed time is at least 3 s |
| Telemetry.FreshHistory | monitor.py:56-74 | a sample appended to an empty history is all that remains after eviction, and a one-entry history has slope 0 |
| Telemetry.Eta | monitor.py:95-100 | eta is at most 1; it is 0 when the limit is <= 1e-6, 1 when draw >= limit, `draw / limit` below the limit, and >= 0 when draw >= 0 and limit > 0 |
| Telemetry.EtaUnclampedBelow | monitor.py:95-100 | there is no lower clamp: a draw of -30 W against 150 W gives -0.2 |
| MonitorState.GPUInfoMonitor.constructor | monitor.py:10-19 | the window is 10 s, the history is empty, and the current readings are `(0, 0, 0, 150, 0)` |
| MonitorState.GPUInfoMonitor.UpdateInfo | monitor.py:52-68 | the current fields become exactly the parsed tuple; the history is the evicted `old history + [(now, temp)]`; its last entry is the new sample; the older entries are a suffix of the old history; under sorted timestamps, every entry lies in the 10 s window |
| MonitorState.GPUInfoMonitor.FindOlder | monitor.py:76-81 | the reversed `for` scan with `break` returns the sample `LatestAtOrBefore` designates, or nothing when it designates none |
| MonitorState.GPUInfoMonitor.GetSlope3s | monitor.py:70-91 | the result is `Slope3s` of the history, the current temperature and `now` |
| MonitorState.GPUInfoMonitor.GetObservation | monitor.py:93-111 | the dictionary carries the current readings, `Slope3s` and `Eta` of the current draw and limit |
| Env.PowerLimitWatts | env.py:57-62 | the `--power-limit` argument lies in [100, 275] and is the integer part of the clamped value; inputs <= 100 give 100 and inputs >= 275 give 275 |
| Env.FanSpeedPercent | env.py:75-79 | the fan argument lies in [0, 100] and is the integer part of the clamped value; it is 0 at or below 0 and 100 at or above 100 |
| Env.NextLimit | env.py:116-118 | the new limit lies in [100, 275]; it is `pl_old + delta` when that is in range, and 100 or 275 otherwise |
| Env.IdleStep | env.py:117-136 | a zero action from a limit in [100, 275] leaves the limit unchanged; in particular 260 stays 260 after a reset |
| Env.StepLimitIsFixedPoint | env.py:57-67 | re-clamping a limit a step produced does nothing, and the command carries its integer part |
| Env.ResetEvents | env.py:164-166 | a reset commands exactly 260 W, waits 1 s, then queries |
| Env.Vector | env.py:179-187 | the observation array has exactly seven slots; their order is fixed by VectorRoundTrip |
| Env.VectorRoundTrip | env.py:179-187 | the observation array holds exactly the seven fields `[temp, util, slope_3s, power_limit, power_draw, eta, fan]`, in that order: it reads back to the observation, and back again |
| Env.GPUEnv.constructor | env.py:19-55 | the defaults of `__init__` followed by a `reset`: the monitor is new and has a 10 s window, `pl_old` is 260, the flag is clear, the history is the one fresh sample, the mirrored fields equal the monitor's report, and the log is the reset's events |
| Env.GPUEnv.SetPowerLimit | env.py:57-67 | exactly one power-limit command is appended to the log, carrying the clamped, truncated value |
| Env.GPUEnv.SetFanSpeed | env.py:69-84 | exactly one fan command is appended to the log, carrying the clamped, truncated value |
| Env.GPUEnv.QueryMonitor | env.py:123-124 | exactly one query is logged; the monitor is updated from its outcome; the dictionary returned is the monitor's new report |
| Env.GPUEnv.Actuate | env.py:120-124 | the log gets the limit command, the sleep and the query, in that order; the monitor is updated from the query; the dictionary returned is the monitor's new report |
| Env.GPUEnv.Publish | env.py:139-155 | the seven `current_*` fields become the dictionary's values, and the array returned is that dictionary in the order of `Vector` |
| Env.GPUEnv.GetTemp | env.py:104-113 | one query is logged; the monitor is updated from it; the returned temperature is the monitor's new temperature, mirrored into `current_temp` |
| Env.GPUEnv.Step | env.py:115-157 | `pl_old` becomes `clamp(old pl_old + delta)`; the log gets the limit command, the `step_time` sleep and the query, in that order; the monitor is updated; the mirrored fields and the returned array are the monitor's new report; the reward is `compute_reward(temp, old pl_old, new pl_old)`; terminated, truncated and the flag are all false |
| Env.GPUEnv.Reset | env.py:159-189 | the flag is cleared; the history is cleared before sampling; `pl_old` is 260; the log gets the 260 W command, the 1 s sleep and the query; the mirrored fields and the returned array are the report |
| Env.GPUEnv.MirrorsTelemetry | env.py:139-145 | after a sample, the mirrored fields are the parsed telemetry: `current_power_limit` is the reported limit, not `pl_new` |
| Env.GPUEnv.ResetObservation | env.py:161-177 | right after a reset the history is the single new sample, so the mirrored slope is 0 |

## Left out

- The `nvidia-smi` and `nvidia-settings` subprocesses are not modelled (monitor.py:29, env.py:65, env.py:82). A query is its outcome text or `None`. `set_power_limit` and `set_fan_speed` catch only `subprocess.CalledProcessError` (env.py:66, env.py:83): a command that exits with a non-zero status is only printed, so here it looks the same as success. An `OSError` from starting the command, such as `FileNotFoundError` when the tool is missing, is not caught, and it propagates out of `step` (env.py:120), `reset` (env.py:165) and `__init__` (env.py:55). The model does not capture that exception path. The telemetry query catches every exception instead (monitor.py:30), which is the `None` outcome.
- `time.time()` and `time.sleep()` are not modelled. Each clock read is a parameter, and a sleep is only an `Event` in the log that keeps the dwell's order.
- Python `float()` is not modelled. Its string grammar, NaN, infinities and the numpy `float32` cast of the observation array are out of scope. Numbers are `real`, and `float()` on a field is the abstract `floatOf`.
- FastReward.ComputeReward returns `None` in the source for a NaN temperature, because no branch matches. Reals have no NaN, so the model has no such case.
- Telemetry.Strip removes only the ASCII characters Python treats as whitespace. Non-ASCII Unicode whitespace is not stripped.
- The `spaces.Box` action and observation bounds (env.py:25-40) are declared but never enforced by the code. The model does not claim that observations or actions lie within them.
- `super().reset(seed=...)` and the gym seeding are not modelled, and neither are the `info` dictionaries `step` and `reset` return.
- `stress_gpu` (env.py:86-102) is a torch workload and is not modelled. `render` and `close` do nothing.
- The training, inference and callback scripts are launch and logging glue and are not modelled. `env.set_reward` is called at train_reward_1.py:26 but is not defined in env.py.
- Three facts of the code that a reader might not expect; the model follows the code:
  - the eta ratio has no lower clamp (monitor.py:95-100), so a negative draw gives a negative eta;
  - the band 70 <= temp < 75 of fast/reward.py scores 0 when pl_new <= 100 (fast/reward.py:73-77), because the normalised limit is 0 there;
  - the "a move of 30 W or more scores 0" rule of reward.py's docstring (reward.py:8) is written out only inside a second string literal (reward.py:20-25), so it never runs.
