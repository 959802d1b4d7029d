/**
 * Properties of the controller over the workout screen: what each button and each second of
 * the timer does to the screen, how the countdown runs out, how the editor keeps its
 * numbering, and how a launched plan feeds the controller.
 */
module AppTheory {
  import opened Wrappers
  import opened Decimal
  import opened Helpers
  import opened PlanTheory
  import opened App

  const ClosedScreen := Screen(true, NotStartedText, ClosedPauseLabel, Bell, 0, true, "")

  // ---------------------------------------------------------------------------
  // Buttons
  // ---------------------------------------------------------------------------

  /** Start while the timer runs leaves the screen exactly as it was. */
  lemma StartWhileRunningChangesNothing(c: nat, s: Screen, plan: Option<Plan>)
    requires PlanReady(plan) && !s.timerDisabled
    ensures Press(StartClicked(c), s, plan) == s
  {
  }

  /**
   * Start from a stopped timer runs the clock from 0 with the bell, "Starting workout", the
   * pause button enabled and the first planned exercise as "up next"; the pause label stays.
   */
  lemma StartFromStopped(c: nat, s: Screen, plan: Option<Plan>)
    requires PlanReady(plan) && s.timerDisabled && c > 0
    requires plan.Some? && plan.value.timestampList != []
    ensures Press(StartClicked(c), s, plan)
         == s.(timerDisabled := false, content := StartingText, audio := Bell, counter := 0,
               pauseDisabled := false, next := UpNextPrefix + NameAt(plan.value, 0))
  {
  }

  /** Close resets every field of the screen, whatever the screen and the plan. */
  lemma CloseResets(s: Screen, plan: Option<Plan>)
    requires PlanReady(plan)
    ensures Press(CloseClicked, s, plan) == ClosedScreen
  {
  }

  /**
   * A pause click flips the timer and sets the label for the new state ("Pause Workout"
   * when it now runs, "Resume Workout" when it now stands); nothing else changes.
   */
  lemma PauseToggles(c: nat, s: Screen, plan: Option<Plan>)
    requires PlanReady(plan) && c > 0
    ensures Press(PauseClicked(c), s, plan)
         == s.(timerDisabled := !s.timerDisabled,
               pauseLabel := if s.timerDisabled then PauseLabel else ResumeLabel)
  {
  }

  /** Two pause clicks give the timer back its state; only the label remembers them. */
  lemma PauseTwiceRestoresClock(c1: nat, c2: nat, s: Screen, plan: Option<Plan>)
    requires PlanReady(plan) && c1 > 0 && c2 > 0
    ensures Press(PauseClicked(c2), Press(PauseClicked(c1), s, plan), plan)
         == s.(pauseLabel := if s.timerDisabled then ResumeLabel else PauseLabel)
  {
    PauseToggles(c1, s, plan);
    PauseToggles(c2, Press(PauseClicked(c1), s, plan), plan);
  }

  // ---------------------------------------------------------------------------
  // Seconds
  // ---------------------------------------------------------------------------

  /**
   * A second whose counter is a listed timestamp shows that event's exercise and cue; the
   * "Finished" event stops the timer, disables the pause button and clears "up next".
   * A second whose counter is not listed only advances the counter.
   */
  lemma SecondOnTimeline(s: Screen, plan: Option<Plan>)
    requires PlanReady(plan) && plan.Some? && !s.timerDisabled
    ensures var n := s.counter + 1;
      var r := Second(s, plan);
      && (n !in plan.value.timestampList ==> r == s.(counter := n))
      && (n in plan.value.timestampList && plan.value.events[n].exercise == FinishedName ==>
            r == s.(timerDisabled := true, content := FinishedName, audio := plan.value.events[n].audio,
                    counter := n, pauseDisabled := true, next := ""))
      && (n in plan.value.timestampList && plan.value.events[n].exercise != FinishedName ==>
            && r.timerDisabled == s.timerDisabled && r.pauseDisabled == s.pauseDisabled
            && r.pauseLabel == s.pauseLabel && r.counter == n)
  {
  }

  /** The "up next" text of a tick never names the exercise the tick shows. */
  lemma TickNeverAnnouncesCurrent(n: int, plan: Plan, timerDisabled: bool)
    requires Consistent(plan) && n in plan.timestampList
    requires plan.events[n].exercise != FinishedName
    ensures var u := OperateWorkout(TimerTick(n), Some(plan), timerDisabled);
      u.next.Some? && u.next.value != "" ==> u.next.value != UpNextPrefix + plan.events[n].exercise
  {
    var u := OperateWorkout(TimerTick(n), Some(plan), timerDisabled);
    var current := plan.events[n].exercise;
    if u.next.Some? && u.next.value != "" {
      var j :| 0 <= j < |plan.timestampList| && NameAt(plan, j) != current
               && u.next.value == UpNextPrefix + NameAt(plan, j);
      assert (UpNextPrefix + NameAt(plan, j))[|UpNextPrefix|..] == NameAt(plan, j);
      assert (UpNextPrefix + current)[|UpNextPrefix|..] == current;
    }
  }

  /**
   * Pause, a second, resume, a second: the paused second changes nothing, and the counter
   * ends exactly one above where the pause caught it.
   */
  lemma PauseResumeCounting(c1: nat, c2: nat, s: Screen, plan: Option<Plan>)
    requires PlanReady(plan) && !s.timerDisabled && c1 > 0 && c2 > 0
    ensures var paused := Press(PauseClicked(c1), s, plan);
      var idle := Second(paused, plan);
      var resumed := Press(PauseClicked(c2), idle, plan);
      var after := Second(resumed, plan);
      && paused.timerDisabled && idle == paused
      && !resumed.timerDisabled && resumed.counter == s.counter
      && after.counter == s.counter + 1
  {
    PauseToggles(c1, s, plan);
    PauseToggles(c2, Press(PauseClicked(c1), s, plan), plan);
  }

  /** Once the "Finished" second has been shown, further seconds change nothing. */
  lemma FinishedStopsTheClock(s: Screen, plan: Option<Plan>)
    requires PlanReady(plan) && plan.Some? && !s.timerDisabled
    requires s.counter + 1 in plan.value.timestampList
    requires plan.value.events[s.counter + 1].exercise == FinishedName
    ensures Second(s, plan).timerDisabled
    ensures Second(Second(s, plan), plan) == Second(s, plan)
  {
    SecondOnTimeline(s, plan);
  }

  // ---------------------------------------------------------------------------
  // Compiled plans in the controller
  // ---------------------------------------------------------------------------

  /**
   * Launching a valid table stores its compiled plan and opens the modal; a start click then
   * announces the first row's exercise as "up next".
   */
  lemma LaunchThenStart(table: seq<Row>, startCountdown: int, launch: nat, c: nat, s: Screen)
    requires |table| > 0 && PositiveDurations(table) && SubIntervalsFit(table)
    requires launch > 0 && c > 0 && s.timerDisabled
    ensures var u := WorkoutMode(LaunchTriggered, launch, 0, table, startCountdown);
      && u.modalOpen == Some(true) && u.plan.Some? && PlanReady(u.plan.value)
      && Press(StartClicked(c), s, u.plan.value)
         == s.(timerDisabled := false, content := StartingText, audio := Bell, counter := 0,
               pauseDisabled := false, next := UpNextPrefix + table[0].exercise)
  {
    var p := CreateWorkoutPlan(table, startCountdown).value;
    PlanFollowsTimeline(table, startCountdown);
    EmissionsStep(table, startCountdown);
    var first := RowEvents(table[0], startCountdown);
    assert first[0].1.exercise == table[0].exercise;
    assert Timeline(table, startCountdown)[0] == first[0];
    assert NameAt(p, 0) == table[0].exercise;
    StartFromStopped(c, s, Some(p));
  }

  /**
   * On a compiled plan with positive durations, every non-final tick announces a different
   * exercise: the lookahead never raises and never comes back empty.
   */
  lemma CompiledTickAnnouncesNext(table: seq<Row>, start: int, n: int, timerDisabled: bool)
    requires PositiveDurations(table) && SubIntervalsFit(table)
    requires var p := CreateWorkoutPlan(table, start);
      p.Success? && n in p.value.timestampList && p.value.events[n].exercise != FinishedName
    ensures var p := CreateWorkoutPlan(table, start).value;
      var u := OperateWorkout(TimerTick(n), Some(p), timerDisabled);
      && u.content == Some(p.events[n].exercise)
      && u.next.Some? && u.next.value != ""
      && u.next.value != UpNextPrefix + p.events[n].exercise
  {
    var p := CreateWorkoutPlan(table, start).value;
    LookaheadOnCompiledPlan(table, start, n);
    TickNeverAnnouncesCurrent(n, p, timerDisabled);
  }

  // ---------------------------------------------------------------------------
  // Countdown
  // ---------------------------------------------------------------------------

  ghost predicate SeedsAtLeastZero(es: seq<(int, Event)>) {
    forall i :: 0 <= i < |es| ==> es[i].1.countdown >= 0
  }

  lemma RowSeedsNonNegative(row: Row, t: int)
    requires row.duration > 0
    ensures SeedsAtLeastZero(RowEvents(row, t))
  {
  }

  lemma SeedsConcat(a: seq<(int, Event)>, b: seq<(int, Event)>)
    requires SeedsAtLeastZero(a) && SeedsAtLeastZero(b)
    ensures SeedsAtLeastZero(a + b)
  {
  }

  lemma {:induction false} EmissionSeedsNonNegative(table: seq<Row>, t: int)
    requires PositiveDurations(table)
    ensures SeedsAtLeastZero(Emissions(table, t))
    decreases |table|
  {
    if table != [] {
      var rest := table[1..];
      assert PositiveDurations(rest) by {
        assert forall i :: 0 <= i < |rest| ==> rest[i] == table[i + 1];
      }
      var head := RowEvents(table[0], t);
      var tail := Emissions(rest, t + table[0].duration);
      assert SeedsAtLeastZero(tail) by {
        EmissionSeedsNonNegative(rest, t + table[0].duration);
      }
      assert SeedsAtLeastZero(head) by {
        RowSeedsNonNegative(table[0], t);
      }
      assert Emissions(table, t) == head + tail by {
        EmissionsStep(table, t);
      }
      SeedsConcat(head, tail);
    }
  }

  /** Every countdown seed in a compiled plan with positive durations is non-negative. */
  lemma CompiledSeedsNonNegative(table: seq<Row>, start: int)
    requires PositiveDurations(table) && SubIntervalsFit(table)
    ensures CreateWorkoutPlan(table, start).Success?
    ensures SeedsNonNegative(Some(CreateWorkoutPlan(table, start).value))
  {
    var p := CreateWorkoutPlan(table, start).value;
    var tl := Timeline(table, start);
    PlanFollowsTimeline(table, start);
    EmissionSeedsNonNegative(table, start);
    forall k | k in p.timestampList ensures p.events[k].countdown >= 0 {
      var i :| 0 <= i < |p.timestampList| && p.timestampList[i] == k;
      assert tl[i].0 == k;
      if i < |tl| - 1 {
        assert tl[i] == Emissions(table, start)[i];
      }
    }
  }

  /** The countdown shown after the ticks at `n`, `n + 1`, ..., `n + k - 1`. */
  function CountDownTicks(n: int, k: nat, plan: Option<Plan>, current: int, startCountdown: int): int
    requires PlanReady(plan)
    decreases k
  {
    if k == 0 then current
    else CountDownTicks(n + 1, k - 1, plan, CountDown(n, plan, current, startCountdown).GetOr(current),
                        startCountdown)
  }

  /**
   * Between reseeding timestamps the countdown falls by one per second and then rests at 0:
   * after `k` such ticks from `current`, it shows `current - k`, or 0 once that would be negative.
   */
  lemma {:induction false} CountDownRunsOut(n: int, k: nat, plan: Option<Plan>, current: int, startCountdown: int)
    requires PlanReady(plan) && plan.Some? && n > 0 && current >= 0
    requires forall m :: n <= m < n + k ==> !Reseeds(plan, m)
    ensures CountDownTicks(n, k, plan, current, startCountdown) == if current >= k then current - k else 0
    decreases k
  {
    if k > 0 {
      assert !Reseeds(plan, n);
      var next := CountDown(n, plan, current, startCountdown).GetOr(current);
      assert next == if current == 0 then 0 else current - 1;
      CountDownRunsOut(n + 1, k - 1, plan, next, startCountdown);
    }
  }

  // ---------------------------------------------------------------------------
  // Editor
  // ---------------------------------------------------------------------------

  /**
   * On a table numbered 1..len, "add interval" appends row len + 1, named "Exercise len+1",
   * and the table stays numbered.
   */
  lemma AddKeepsNumbering(current: seq<Row>, c: nat, defaultDuration: int)
    requires Numbered(current) && c > 0
    ensures var rows := CreateWorkout(AddIntervalClicked(c), current, defaultDuration);
      && Numbered(rows)
      && rows[|current|].exercise == "Exercise " + IntToString(|current| + 1)
  {
    var rows := CreateWorkout(AddIntervalClicked(c), current, defaultDuration);
    assert rows[|current|].interval == |current| + 1;
    forall i | 0 <= i < |rows| ensures rows[i].interval == i + 1 {
      if i < |current| {
        assert rows[i] == rows[..|current|][i];
      }
    }
  }

  /** Deleting a row and then adding one leaves the table numbered 1..len. */
  lemma DeleteThenAddNumbered(previous: seq<Row>, current: seq<Row>, c: nat, defaultDuration: int)
    requires |current| < |previous| && c > 0
    ensures var renumbered := CreateWorkout(RowsChanged(previous), current, defaultDuration);
      Numbered(CreateWorkout(AddIntervalClicked(c), renumbered, defaultDuration))
  {
    var renumbered := CreateWorkout(RowsChanged(previous), current, defaultDuration);
    AddKeepsNumbering(renumbered, c, defaultDuration);
  }
}
