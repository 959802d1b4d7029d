# workout-intervals in Dafny

A model of the core of *workout-intervals*, a Dash web app for timed interval workouts. The
user edits a table of intervals (exercise, duration in seconds, number of sub-intervals). The
app compiles the table into a timestamp-indexed plan, then plays the plan back on a
one-second timer. Each second it shows the current exercise, plays a cue, counts down, and
announces the next exercise.

Modules, following the program's structure:

- `Wrappers` (wrappers.dfy): `Option` and `Result`.
- `Rounding` (rounding.dfy): Python's `round` (half to even), as an exact rational operation.
- `Decimal` (decimal.dfy): `str(int)`, used for the default row name `"Exercise k"`.
- `Helpers` (helpers.dfy): `utils/helpers.py`. It holds the sub-interval boundaries, the plan
  compiler `create_workout_plan`, and the "up next" lookahead `find_next_exercise`. The plan
  is a Python dict, modelled as a `Dict` of entries plus keys in first-insertion order. As in
  CPython, assigning to an existing key keeps its position and replaces its value.
- `PlanTheory` (plan_theory.dfy): an independent description of the schedule. It is the list
  of `(timestamp, event)` pairs each row contributes, called the *timeline*. The module proves
  the compiler builds exactly that. It also proves ordering and lookahead facts, plus worked
  examples.
- `App` (app.py): the decision logic of the callbacks `create_workout`, `workout_mode`,
  `operate_workout` and `count_down`. A callback returns a sparse update. In it, `None` means
  Dash's `no_update`. A callback that raises changes nothing, so it also yields the all-`None`
  update. The `Screen` record holds the component properties `operate_workout` writes.
  `Second` models one firing of the timer.
- `AppTheory` (app_theory.dfy): the controller's button and timer behaviour, the countdown
  over many seconds, the editor's numbering, and launched plans in the controller.

Behaviour of the code worth noting:

- The sub-interval cue is `short_beep` (`ShortBeep`).
- `count_down` also counts down on a listed timestamp whose countdown is 0. These are the
  `short_beep` sub-interval events. The seed is replaced only when the event's countdown is
  non-zero.
- `create_workout_plan` does not reject non-positive durations or an empty table. An empty
  table yields a plan holding only `"Finished"`. `workout_mode` rejects the empty table before
  compiling. Colliding timestamps follow dict semantics (`CreateWorkoutPlanMatchesTimeline`).
- The close branch writes the pause label `"Pause workout"` (lower-case w). The pause branch
  writes `"Pause Workout"`. Both constants are kept as written.

## Model

| member | source | states |
|---|---|---|
| `Rounding.RoundHalfEven` | utils/helpers.py:18 | the result is the integer nearest `a / n`, with ties going to the even neighbour |
| `Rounding.NearestHalfEvenUnique` | utils/helpers.py:18 | at most one integer is the half-to-even rounding of `a / n`, so the characterisation pins down `round` |
| `Helpers.SubIntervalTimestamps` | utils/helpers.py:5-20 | there are exactly `count` boundaries; boundary `i` is `duration * i / count` rounded half to even; the last one is overwritten with the duration |
| `PlanTheory.SubIntervalTimestampsIncreasing` | utils/helpers.py:17-20 | with at least one second per slice, the boundaries start above 0, strictly increase and end at the duration |
| `PlanTheory.SixtySplitThreeWays` | utils/helpers.py:7-8 | 60 seconds in 3 sub-intervals gives `[20, 40, 60]`, the documented example |
| `Helpers.PutLookup` | utils/helpers.py:65-69 | on a well-formed dict, `d[k] = v` makes `v` the value of `k` and leaves the other entries alone; old keys keep their positions; the key list grows by one, ending in `k`, exactly when `k` was new |
| `Helpers.PutKeepsWellFormed` | utils/helpers.py:65-69 | an assignment keeps the key list naming every entry exactly once |
| `Helpers.CompileRowsKeepsWellFormed` | utils/helpers.py:44-73 | after the row loop, the key list still names every entry of the dict exactly once, which is what `list(plan.keys())` relies on |
| `Helpers.CompileRows` | utils/helpers.py:45-73 | the row loop fails with the sub-interval message exactly when some row has more sub-intervals than seconds; otherwise its cursor ends at the start plus every duration |
| `Helpers.CreateWorkoutPlan` | utils/helpers.py:33-82 | fails, with the sub-interval message, iff some row has more sub-intervals than seconds; otherwise the key list names each event key once, the total is start plus all durations, and `"Finished"` (bell, countdown 0) sits at the total |
| `PlanTheory.PutRowMatchesRowEvents` | utils/helpers.py:51-72 | one row's branch assigns exactly that row's timeline entries in order: one beep at the start, then a short beep at each inner boundary |
| `PlanTheory.CompileRowsMatchesEmissions` | utils/helpers.py:45-73 | the whole row loop assigns the concatenated timeline entries of all rows, each row starting where the previous one ends |
| `PlanTheory.CreateWorkoutPlanMatchesTimeline` | utils/helpers.py:44-82 | for every accepted table, even one with colliding timestamps, the plan is the dict built by assigning the timeline in order |
| `PlanTheory.PutAllFresh` | utils/helpers.py:52-69 | assigning distinct timestamps that the dict lacks appends each one to the key order, keeps every old entry and stores each event under its timestamp |
| `PlanTheory.TimelineIncreasing` | utils/helpers.py:45-76 | with positive durations and fitting sub-intervals, the timeline's timestamps strictly increase through the terminal timestamp |
| `PlanTheory.EmissionsOrdered` | utils/helpers.py:45-73 | with positive durations and fitting sub-intervals, the timeline's timestamps strictly increase and stay between the start and the end time |
| `PlanTheory.PlanFollowsTimeline` | utils/helpers.py:44-80 | with positive durations the plan lists the timeline's timestamps in order, strictly increasing, each carrying the timeline's event, and `"Finished"` is listed last at the total |
| `PlanTheory.SingleBeepPlan` | utils/helpers.py:51-56 | with no sub-intervals, row `i` becomes one beep at the start plus the durations of rows before it, with its duration as countdown, followed by `"Finished"` |
| `PlanTheory.SubIntervalRowPlan` | utils/helpers.py:57-72 | a row split into `n` parts gives a full-countdown beep at its start and `n - 1` short beeps with countdown 0 at the inner boundaries; the final boundary gets no event |
| `PlanTheory.EmptyTablePlan` | utils/helpers.py:44-80 | an empty table compiles to `"Finished"` alone at the start timestamp |
| `PlanTheory.SquatsLungesScenario` | utils/helpers.py:44-82 | Squats 30 s then Lunges 60 s in two halves, from 5 s, gives events at 5, 35, 65 and 95, in that order, with total 95 |
| `Helpers.IndexOf` | utils/helpers.py:101 | `list.index`: the position of the first occurrence |
| `Helpers.ScanAhead` | utils/helpers.py:98-107 | the scan finds text iff a later position holds a different exercise, and the text names the first such position; otherwise it returns `None` from position 0 and runs off the list from any later position |
| `Helpers.FindNextExercise` | utils/helpers.py:85-107 | a list of at most one timestamp returns `None` without looking the timestamp up; on a longer list it raises iff the timestamp is not listed; for a listed timestamp it announces the first later different exercise when there is one, and returns `None` (first position) or raises `IndexError` (later position) when there is none |
| `PlanTheory.LookaheadOnCompiledPlan` | utils/helpers.py:97-107 | on a compiled plan, from any listed non-final timestamp, the lookahead always announces an exercise different from the current one |
| `App.CreateWorkout` | app.py:252-273 | after a deletion the rows are renumbered 1..len with everything else kept; "add interval" appends the new row and keeps the others; any other change returns the rows as they are |
| `AppTheory.AddKeepsNumbering` | app.py:259-272 | on a table numbered 1..len, adding a row keeps the numbering and names the new row `"Exercise len+1"` |
| `AppTheory.DeleteThenAddNumbered` | app.py:252-272 | a deletion followed by an addition leaves the table numbered 1..len |
| `App.WorkoutMode` | app.py:418-441 | a close click clears the plan and closes the modal; without a launch click nothing changes; the modal opens iff the table is non-empty and compiles, storing the compiled plan; otherwise the alert shows the empty-table or compiler message |
| `App.OperateWorkout` | app.py:460-567 | start is ignored while running; close always resets; pause toggles the timer and touches only the timer and label; an unlisted tick changes nothing; the timer stops only on close, pause or the `"Finished"` tick; the counter is only reset to 0 or echoed |
| `App.TickAt` | app.py:545-564 | a listed tick shows its event's exercise, cue and timestamp; the `"Finished"` tick disables the timer and pause button and clears up-next; any other tick leaves the timer, pause button and label alone, announces the first later different exercise exactly when there is one, and changes nothing exactly when the lookahead runs off the list |
| `App.Second` | app.py:471-472 | a disabled timer does not advance; an enabled one adds one second to the counter |
| `AppTheory.StartWhileRunningChangesNothing` | app.py:496-506 | a start click while the timer runs leaves the screen unchanged |
| `AppTheory.StartFromStopped` | app.py:508-514 | a start click on a stopped timer runs it from 0 with the bell, "Starting workout", the pause button enabled and the first planned exercise up next; the pause label is kept |
| `AppTheory.CloseResets` | app.py:516-518 | a close click puts every screen field back to the not-started state, whatever the screen |
| `AppTheory.PauseToggles` | app.py:520-541 | a pause click flips the timer, labels the button for the new state, and changes nothing else |
| `AppTheory.PauseTwiceRestoresClock` | app.py:520-541 | two pause clicks give the screen back with only the label changed |
| `AppTheory.PauseResumeCounting` | app.py:520-541 | while paused a second changes nothing; after resuming, the counter goes on from where it stopped |
| `AppTheory.SecondOnTimeline` | app.py:543-567 | a second off the timeline only advances the counter; the `"Finished"` second stops the timer, disables pause and clears up-next; any other listed second keeps the timer running |
| `AppTheory.FinishedStopsTheClock` | app.py:548-550 | once `"Finished"` is shown, further seconds change nothing |
| `AppTheory.TickNeverAnnouncesCurrent` | app.py:551-555 | the up-next text of a tick never names the exercise that tick shows |
| `AppTheory.LaunchThenStart` | app.py:509-514 | launching a valid table opens the modal with its plan; a start click then announces the first row's exercise |
| `AppTheory.CompiledTickAnnouncesNext` | app.py:551-564 | on a compiled plan every non-final listed tick shows its exercise and announces a different one, never empty |
| `App.CountDown` | app.py:642-659 | counter 0 shows the pre-workout countdown; a listed timestamp with non-zero countdown reseeds; otherwise the value drops by one and stays at 0; with the plan cleared nothing changes; non-negative seeds keep it non-negative |
| `AppTheory.CompiledSeedsNonNegative` | utils/helpers.py:51-72 | every countdown seed of a compiled plan with positive durations is non-negative |
| `AppTheory.CountDownRunsOut` | app.py:653-659 | over `k` seconds with no reseeding timestamp, the countdown falls from `c` to `c - k`, or to 0 once that would be negative |
| `Decimal.NatToString` | app.py:268 | the decimal digits of `n`, with no leading zero, reading back as `n` |
| `Decimal.IntToString` | app.py:268 | the sign is shown iff the number is negative; the digits have no leading zero and read back as its magnitude |

## Left out

- Helpers.SubIntervalTimestamps: `round(duration / sub_intervals * i)` is taken as exact rational arithmetic. The float quotient and product can land a hair off a `.5` tie and round the other way; that is not modelled.
- Plan storage: the plan goes through the browser as JSON, so its keys become strings (`str(n)` lookups). The model keys events by integer and leaves the string conversion out.
- Cell parsing: `int(interval["duration"])` and `int(interval["sub-intervals"])` parse the editor's cells. Rows carry integers and the parsing errors are not modelled.
- Helpers.FindNextExercise: the model requires that every listed timestamp has an event. Every compiled plan has this property (`Helpers.CreateWorkoutPlan`). So the `KeyError` paths of the lookups are not modelled, and the same holds for `App.OperateWorkout` and `App.CountDown`.
- App.TickAt: a lookahead that returns `None` is shown as empty text. A lookahead that raises leaves every output unchanged. On compiled plans with positive durations neither happens at a non-final tick (`PlanTheory.LookaheadOnCompiledPlan`). With a non-positive duration timestamps can collide, and a tick can then run off the list.
- App.CreateWorkout: the saved-workout branch (`select-workout`) reads from redis and is left out. So is the workout-name output, which only that branch sets (to the saved workout's name with `_` shown as spaces); the modelled branches never change it.
- App.Second: the browser's timer component is modelled as one firing per second that adds 1 to its counter. Timing, missed firings and concurrent callbacks are left out.
- App.CountDown: the count is an integer state the callback reads back. The pre-workout countdown and the default duration are parameters, because utils/constants.py (`START_COUNTDOWN`, `DEFAUlT_DURATION`) is not part of this model.
- Persistence: saving and loading workouts through redis, the load/save modals and `random_workout_id` depend on an external store and randomness.
- Presentation: the page layout, styles, `progress_bar`, `change_audio` (audio file URL) and the client-side callback that plays the sound.
- `allow_saved_workout_selection`: it only toggles a dropdown, and the plan logic does not depend on it.
