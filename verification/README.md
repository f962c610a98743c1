# Traffic-light countdown engine

A Dafny model of the timing engine of a single traffic light
(`src/TrafficLight/TrafficLight.jsx`). The light cycles red → green → yellow → red.
Each stage counts down from its duration: red 5 s, green 4 s, yellow 2 s.
One button starts and pauses the light. A second button resets it. While the light
runs, it keeps one animation-frame request outstanding. Each frame checks whether a
whole second has passed since its baseline: the last step, or the press that
started it. If so, it applies one stage-advance step.

The project has four modules:

- `StageTable` (`stage_table.dfy`): the closed `Stage` datatype, the order of the stages and the
  shipped table (`Default`). `Next` and `Duration` agree with that table. A `Table` keeps its
  successors and durations as maps, so a table with missing entries can be written down.
  The engine has code for that case.
- `Countdown` (`countdown.dfy`): the pure engine.
  - `Advance` is one stage-advance step, including the fallback to red.
  - `Steps` applies it repeatedly.
  - `WholeSeconds` is the `Math.floor` division of a millisecond gap.
  - `TickStep` is what one frame does to the countdown and its baseline timestamp.
- `Controller` (`controller.dfy`):
  - the `TrafficLight` class, whose fields are the component's state
    (`current`, `secondsLeft`, `isRunning`, `isPaused`) and its two refs
    (`lastTick`, `rafId`);
  - the `Toggle`, `Reset`, `Tick` and `Unmount` methods;
  - `SyncFrame` for the scheduling effect;
  - a small `FrameHost` class holding the set of frame requests the host still has
    live;
  - client scenarios stated against the class.
- `Wrappers` (`wrappers.dfy`): `Option`, which stands for the source's `null`.

`TrafficLight.Valid()` is the object invariant. `Toggle`, `Reset` and `Tick` keep it; `Unmount` ends it. It says:

- the seconds left are within the stage's duration;
- a paused light is not running;
- a frame request is held exactly while the light runs unpaused;
- the host has no live request other than the one the light holds. Requests are
  never leaked and never duplicated.

Three consequences of the code worth stating:

- From a fresh red light at 5, green appears after six whole-second steps, not
  five. Zero is shown as a step of its own, so a stage of duration `d` lasts
  `d + 1` steps and a full cycle takes 14 (`StageLasts`, `DefaultPeriod`,
  `FirstTransition`).
- A seven-second stall at yellow gives one step. From yellow at 0 it gives red at 5.
  From yellow at 2 it would give yellow at 1, not red at 5 (`LongStallIsOneStep`).
- Pressing start/pause twice from a fresh light leaves it paused (`isPaused` true),
  not idle (`ToggleTwice`).

## Model

| member | source | states |
|---|---|---|
| `StageTable.Next` | src/TrafficLight/TrafficLight.jsx:15-19 | the successor is the table's entry for every stage, and no stage follows itself |
| `StageTable.Duration` | src/TrafficLight/TrafficLight.jsx:8-12 | the duration is the table's entry for every stage, and it is positive |
| `StageTable.DefaultWellFormed` | src/TrafficLight/TrafficLight.jsx:5-19 | the shipped table gives every stage a successor and a positive duration |
| `StageTable.DefaultTable` | src/TrafficLight/TrafficLight.jsx:5-19 | red comes first; the order is red → green → yellow → red; durations are 5, 4 and 2 |
| `StageTable.CycleOfThree` | src/TrafficLight/TrafficLight.jsx:15-19 | three `Next` steps return to the start, two do not, and the cycle visits all three stages |
| `Countdown.Advance` | src/TrafficLight/TrafficLight.jsx:34-53 | with seconds left, the step takes one off and keeps the stage. At 0 it lands on a stage the table times, at that stage's full duration: the table's successor at its duration whenever the table has both entries, red when the transition is missing, and red at its duration when the successor has no duration. It keeps the seconds within the stage's duration |
| `Countdown.Steps` | src/TrafficLight/TrafficLight.jsx:34-53 | any number of steps keeps the seconds within the stage's duration |
| `Countdown.WellFormedNeverDiagnoses` | src/TrafficLight/TrafficLight.jsx:40-48 | with a complete table, the error path (diagnostic and reset to red) is never taken |
| `Countdown.AdvanceDefault` | src/TrafficLight/TrafficLight.jsx:34-53 | with the shipped table, a step at 0 moves to `Next` and loads `Duration(Next)`; otherwise it decrements |
| `Countdown.CountsDown` | src/TrafficLight/TrafficLight.jsx:51 | `j` steps within a stage take exactly `j` seconds off |
| `Countdown.StageLasts` | src/TrafficLight/TrafficLight.jsx:35-52 | a stage showing `k` reaches 0 after `k` steps and the successor, at full duration, after `k + 1` |
| `Countdown.DefaultPeriod` | src/TrafficLight/TrafficLight.jsx:5-53 | with the shipped table, a full cycle from the start of any stage takes 14 steps and returns to that start |
| `Countdown.FirstTransition` | src/TrafficLight/TrafficLight.jsx:22-53 | the initial light is red at 5; it is red at 0 after five steps and green at 4 after six |
| `Countdown.WholeSeconds` | src/TrafficLight/TrafficLight.jsx:101 | the result is the floor of the gap in seconds, negative gaps included, and it is at least 1 iff at least 1000 ms passed |
| `Countdown.TickStep` | src/TrafficLight/TrafficLight.jsx:94-105 | a frame applies no step or exactly one, always leaves a baseline, and on the first frame only records the baseline |
| `Countdown.TickNeedsWholeSecond` | src/TrafficLight/TrafficLight.jsx:101-105 | a frame at least 1000 ms after the baseline applies one step and moves the baseline to the frame time; an earlier frame changes nothing |
| `Countdown.LongStallIsOneStep` | src/TrafficLight/TrafficLight.jsx:101-105 | a 7000 ms gap at yellow 0 yields red 5 (one step), whereas seven steps would reach green 4; the same gap at yellow 2 yields yellow 1 |
| `Controller.TrafficLight.constructor` | src/TrafficLight/TrafficLight.jsx:22-30 | a new light is red at 5, stopped, unpaused, with no baseline and no frame request, and the invariant holds |
| `Controller.TrafficLight.SyncFrame` | src/TrafficLight/TrafficLight.jsx:84-121 | afterwards a request is held iff the light runs unpaused; any request it holds is new; the host holds nothing else |
| `Controller.TrafficLight.Toggle` | src/TrafficLight/TrafficLight.jsx:56-67 | a running light becomes paused and stopped, keeps its baseline and holds no request. Any other light becomes running and unpaused, with baseline `now` and one live request. The countdown is unchanged and the invariant is kept |
| `Controller.TrafficLight.Reset` | src/TrafficLight/TrafficLight.jsx:70-81 | from any valid state: red at 5, stopped, unpaused, no baseline, no live request. The result does not depend on the prior state, so a second reset changes nothing |
| `Controller.TrafficLight.Tick` | src/TrafficLight/TrafficLight.jsx:94-111 | the countdown and baseline change exactly as `TickStep` says. The flags are unchanged. The delivered request is replaced by a new one, the only one live, and the invariant is kept |
| `Controller.TrafficLight.Unmount` | src/TrafficLight/TrafficLight.jsx:115-120 | teardown leaves no live frame request |
| `Controller.FirstGreen` | src/TrafficLight/TrafficLight.jsx:56-111 | started and ticked once per second, the light shows red 0 after five frames and green 4 after six |
| `Controller.PauseKeepsProgress` | src/TrafficLight/TrafficLight.jsx:56-111 | red 3 after two seconds. A pause leaves no request that could fire. After resuming, three seconds give red 0 (a sub-second frame in between changes nothing), and the next second gives green 4 |
| `Controller.ToggleTwice` | src/TrafficLight/TrafficLight.jsx:56-67 | two presses from fresh leave the light stopped and paused, with the countdown untouched and no request |
| `Controller.ResetTwice` | src/TrafficLight/TrafficLight.jsx:70-81 | a reset mid-countdown, and a second reset after it, both give the initial stopped state |
| `Controller.RapidToggle` | src/TrafficLight/TrafficLight.jsx:155-161 | any number of start/pause presses in a row never leaves more than one frame request live |

## Left out

- Rendering of the bulbs, timer text and buttons (lines 123-151) and the CSS import are not modelled. They only read the state.
- The two debug buttons (lines 153-174) are not modelled: the `setTimeout` spacing of the rapid toggles and the busy-wait on `performance.now()`. `RapidToggle` only models the resulting run of presses, and a stall shows up only as a large gap between frame timestamps.
- `requestAnimationFrame`, `cancelAnimationFrame` and `performance.now()` are host calls. They become the `FrameHost` bookkeeping, with positive request ids. Timestamps are integer milliseconds passed in as parameters; the browser's fractional-millisecond doubles are not modelled.
- `console.error` (lines 43-45) is modelled only as the predicate `Diagnoses`, which tells when it would be logged.
- React hook semantics are not modelled: state-update batching, `useCallback`, and stale closures. One case is the effect re-running when `current` changes; that re-run cancels the frame just requested and requests another, and the net result (one live request) is the same. The effect is modelled as `SyncFrame`, called after every change of the running or paused flags.
- `src/components/TrafficLight.jsx` is not modelled. It is a static placeholder whose state never changes.
- Advance: requires the table to give red a duration. Without one, the source's fallback would store `undefined` as the countdown, which the model does not represent.
- Tick: requires that the light holds a frame request. The host only invokes callbacks that were requested and not cancelled.
- TrafficLight.Valid: does not state that a running light has a baseline. The first-frame branch of `Tick` is modelled and its behaviour proved, but it is not shown to be unreachable.
- The controller always uses the shipped table. Other tables, and the fallback paths that only a malformed table can reach, are covered by the pure `Advance` and `Steps` only.
