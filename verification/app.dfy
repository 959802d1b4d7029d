/**
 * The decision logic of the Dash callbacks in app.py: the editor's add-row and renumbering,
 * the launch/close gate, the playback controller and the countdown. Each callback returns a
 * sparse update in which `None` leaves a component property as it is (Dash's `no_update`).
 */
module App {
  import opened Wrappers
  import opened Decimal
  import opened Helpers

  // ---------------------------------------------------------------------------
  // create_workout: the editor table
  // ---------------------------------------------------------------------------

  /** What fired the editor callback: the table's own data changed, or "add interval" was clicked. */
  datatype EditorTrigger = RowsChanged(previous: seq<Row>) | AddIntervalClicked(clicks: nat)

  /** The `interval` column reads 1, 2, ... in table order. */
  ghost predicate Numbered(rows: seq<Row>) {
    forall i :: 0 <= i < |rows| ==> rows[i].interval == i + 1
  }

  /** The row appended by "add interval": numbered one past the last row, or 1 in an empty table. */
  function NewRow(rows: seq<Row>, defaultDuration: int): (r: Row)
    ensures r.exercise == "Exercise " + IntToString(r.interval)
    ensures r.duration == defaultDuration && r.subIntervals == 1
    ensures rows == [] ==> r.interval == 1
    ensures rows != [] ==> r.interval == rows[|rows| - 1].interval + 1
    ensures Numbered(rows) ==> r.interval == |rows| + 1
  {
    var k := if rows != [] then rows[|rows| - 1].interval + 1 else 1;
    Row(k, "Exercise " + IntToString(k), defaultDuration, 1)
  }

  /**
   * create_workout, without the saved-workout branch: after a deletion every row is
   * renumbered; "add interval" appends a new row; otherwise the rows are returned unchanged.
   */
  function CreateWorkout(trigger: EditorTrigger, current: seq<Row>, defaultDuration: int): (rows: seq<Row>)
    ensures trigger.RowsChanged? && |current| < |trigger.previous| ==>
      && |rows| == |current|
      && Numbered(rows)
      && (forall i :: 0 <= i < |rows| ==> rows[i].(interval := current[i].interval) == current[i])
    ensures trigger.RowsChanged? && |current| >= |trigger.previous| ==> rows == current
    ensures trigger.AddIntervalClicked? && trigger.clicks > 0 ==>
      && |rows| == |current| + 1
      && rows[..|current|] == current
      && rows[|current|] == NewRow(current, defaultDuration)
    ensures trigger.AddIntervalClicked? && trigger.clicks == 0 ==> rows == current
  {
    match trigger
    case RowsChanged(previous) =>
      if |current| < |previous| then
        seq(|current|, i requires 0 <= i < |current| => current[i].(interval := i + 1))
      else current
    case AddIntervalClicked(clicks) =>
      if clicks > 0 then current + [NewRow(current, defaultDuration)] else current
  }

  // ---------------------------------------------------------------------------
  // workout_mode: the launch/close gate
  // ---------------------------------------------------------------------------

  const EmptyTableAlert := "Please add at least 1 interval"

  datatype ModeTrigger = LaunchTriggered | CloseTriggered

  /**
   * Outputs of workout_mode: the stored plan (`Some(None)` is the cleared store `[]`),
   * whether the workout modal is open, and the launch alert's text and visibility.
   */
  datatype ModeUpdate = ModeUpdate(plan: Option<Option<Plan>>, modalOpen: Option<bool>,
                                   alert: Option<string>, alertOpen: Option<bool>)

  /**
   * workout_mode: a close click clears the plan and closes the modal; without launch clicks
   * nothing changes; an empty table or a compile error raises the alert; otherwise the plan,
   * compiled to start after `startCountdown` seconds, is stored and the modal opens.
   */
  function WorkoutMode(trigger: ModeTrigger, launch: nat, close: nat, table: seq<Row>,
                       startCountdown: int): (u: ModeUpdate)
    ensures trigger == CloseTriggered && close > 0 ==> u == ModeUpdate(Some(None), Some(false), None, None)
    ensures launch == 0 && !(trigger == CloseTriggered && close > 0) ==>
      u == ModeUpdate(None, None, None, None)
    ensures u.modalOpen == Some(true) <==>
      !(trigger == CloseTriggered && close > 0) && launch > 0 && |table| > 0 && SubIntervalsFit(table)
    ensures u.modalOpen == Some(true) ==>
      && u.plan.Some? && u.plan.value.Some?
      && CreateWorkoutPlan(table, startCountdown) == Success(u.plan.value.value)
    ensures u.alertOpen.Some? <==>
      !(trigger == CloseTriggered && close > 0) && launch > 0 && (|table| == 0 || !SubIntervalsFit(table))
    ensures u.alertOpen.Some? ==>
      && u.alertOpen == Some(true) && u.plan.None? && u.modalOpen.None?
      && u.alert == Some(if |table| == 0 then EmptyTableAlert else SubIntervalError)
  {
    if trigger == CloseTriggered && close > 0 then
      ModeUpdate(Some(None), Some(false), None, None)
    else if launch == 0 then
      ModeUpdate(None, None, None, None)
    else if |table| == 0 then
      ModeUpdate(None, None, Some(EmptyTableAlert), Some(true))
    else
      match CreateWorkoutPlan(table, startCountdown)
      case Failure(message) => ModeUpdate(None, None, Some(message), Some(true))
      case Success(plan) => ModeUpdate(Some(Some(plan)), Some(true), None, None)
  }

  // ---------------------------------------------------------------------------
  // operate_workout: the playback controller
  // ---------------------------------------------------------------------------

  /** What fired the controller: a button (with its click count) or a timer tick at `n` seconds. */
  datatype Trigger = StartClicked(clicks: nat) | PauseClicked(clicks: nat) | CloseClicked | TimerTick(n: int)

  /**
   * The controller's seven outputs, in the callback's order: timer disabled, workout content,
   * pause button label, audio cue, timer counter, pause button disabled, "up next" text.
   */
  datatype Update = Update(timerDisabled: Option<bool>, content: Option<string>,
                           pauseLabel: Option<string>, audio: Option<Audio>, counter: Option<int>,
                           pauseDisabled: Option<bool>, next: Option<string>)

  const NoUpdate := Update(None, None, None, None, None, None, None)

  const StartingText := "Starting workout"
  const NotStartedText := "Workout not started"
  /** The label the close branch writes, lower-case "workout" as in the source. */
  const ClosedPauseLabel := "Pause workout"
  const PauseLabel := "Pause Workout"
  const ResumeLabel := "Resume Workout"

  const CloseUpdate := Update(Some(true), Some(NotStartedText), Some(ClosedPauseLabel), Some(Bell),
                              Some(0), Some(true), Some(""))

  /** The stored plan is absent (cleared to `[]`) or its listed timestamps all have events. */
  ghost predicate PlanReady(plan: Option<Plan>) {
    plan.Some? ==> Consistent(plan.value)
  }

  /**
   * The tick branch, for a tick whose counter is a listed timestamp. The "Finished" event
   * stops the timer and disables the pause button; any other event keeps the timer and asks
   * the lookahead for the next exercise. A lookahead that raises aborts the callback, so
   * nothing changes; one that returns `None` is shown as empty text.
   */
  function TickAt(p: Plan, n: int): (u: Update)
    requires Consistent(p) && n in p.timestampList
    ensures u != NoUpdate ==> u.content == Some(p.events[n].exercise)
                              && u.audio == Some(p.events[n].audio) && u.counter == Some(n)
    ensures u.timerDisabled.Some? <==> p.events[n].exercise == FinishedName
    ensures p.events[n].exercise == FinishedName ==>
      u.timerDisabled == Some(true) && u.pauseDisabled == Some(true) && u.next == Some("")
    ensures p.events[n].exercise != FinishedName ==>
      var pos, current := IndexOf(p.timestampList, n), p.events[n].exercise;
      && u.timerDisabled.None? && u.pauseDisabled.None? && u.pauseLabel.None?
      && (u == NoUpdate <==> !ChangesAfter(p, pos, current) && pos > 0)
      && (u.next.Some? && u.next.value != "" <==> ChangesAfter(p, pos, current))
      && (u.next.Some? && u.next.value != "" ==>
            exists j :: FirstChangeAt(p, pos, current, j) && u.next.value == UpNextPrefix + NameAt(p, j))
  {
    var ev := p.events[n];
    if ev.exercise == FinishedName then
      Update(Some(true), Some(ev.exercise), None, Some(ev.audio), Some(n), Some(true), Some(""))
    else
      match FindNextExercise(p, n, ev.exercise)
      case Found(text) =>
        Update(None, Some(ev.exercise), None, Some(ev.audio), Some(n), None, Some(text))
      case NoneReturned =>
        Update(None, Some(ev.exercise), None, Some(ev.audio), Some(n), None, Some(""))
      case _ => NoUpdate
  }

  /**
   * operate_workout. Start is ignored while the timer runs; otherwise a start click starts it
   * and announces the first exercise. Close resets everything. A pause click toggles the timer
   * and its label. A tick at a listed timestamp shows that timestamp's event; any other tick,
   * and any branch that would raise (no stored plan, an empty timestamp list), changes nothing.
   */
  function OperateWorkout(trigger: Trigger, plan: Option<Plan>, timerDisabled: bool): (u: Update)
    requires PlanReady(plan)
    ensures trigger.StartClicked? && !timerDisabled ==> u == NoUpdate
    ensures trigger.CloseClicked? ==> u == CloseUpdate
    ensures trigger.PauseClicked? ==>
      u.content.None? && u.audio.None? && u.counter.None? && u.pauseDisabled.None? && u.next.None?
    ensures trigger.PauseClicked? && trigger.clicks > 0 ==>
      u.timerDisabled == Some(!timerDisabled)
    ensures trigger.TimerTick? && (plan.None? || trigger.n !in plan.value.timestampList) ==> u == NoUpdate
    ensures u.timerDisabled == Some(true) ==>
      trigger.CloseClicked? || trigger.PauseClicked? || (trigger.TimerTick? && u.content == Some(FinishedName))
    ensures u.counter.Some? ==> u.counter.value == 0 || (trigger.TimerTick? && u.counter.value == trigger.n)
    ensures u.pauseLabel.Some? ==> trigger.CloseClicked? || trigger.PauseClicked?
  {
    match trigger
    case StartClicked(clicks) =>
      if !timerDisabled || clicks == 0 then NoUpdate
      else if plan.None? || plan.value.timestampList == [] then NoUpdate
      else
        var first := UpNextPrefix + NameAt(plan.value, 0);
        Update(Some(false), Some(StartingText), None, Some(Bell), Some(0), Some(false), Some(first))
    case CloseClicked =>
      CloseUpdate
    case PauseClicked(clicks) =>
      if clicks == 0 then NoUpdate
      else if timerDisabled then Update(Some(false), None, Some(PauseLabel), None, None, None, None)
      else Update(Some(true), None, Some(ResumeLabel), None, None, None, None)
    case TimerTick(n) =>
      if plan.None? || n !in plan.value.timestampList then NoUpdate
      else TickAt(plan.value, n)
  }

  // ---------------------------------------------------------------------------
  // The workout screen and one second of the timer
  // ---------------------------------------------------------------------------

  /** The component properties operate_workout writes. */
  datatype Screen = Screen(timerDisabled: bool, content: string, pauseLabel: string, audio: Audio,
                           counter: int, pauseDisabled: bool, next: string)

  /** Dash applies an update: each `Some` field is written, each `None` field is left alone. */
  function Apply(u: Update, s: Screen): (r: Screen)
    ensures u == NoUpdate ==> r == s
    ensures u.counter.None? ==> r.counter == s.counter
    ensures u.timerDisabled.None? ==> r.timerDisabled == s.timerDisabled
  {
    Screen(u.timerDisabled.GetOr(s.timerDisabled), u.content.GetOr(s.content),
           u.pauseLabel.GetOr(s.pauseLabel), u.audio.GetOr(s.audio), u.counter.GetOr(s.counter),
           u.pauseDisabled.GetOr(s.pauseDisabled), u.next.GetOr(s.next))
  }

  /** A button press handled by operate_workout. */
  function Press(trigger: Trigger, s: Screen, plan: Option<Plan>): Screen
    requires PlanReady(plan)
  {
    Apply(OperateWorkout(trigger, plan, s.timerDisabled), s)
  }

  /**
   * One second of the timer component: a disabled timer does not fire; an enabled one raises
   * its counter by one and operate_workout handles the tick.
   */
  function Second(s: Screen, plan: Option<Plan>): (r: Screen)
    requires PlanReady(plan)
    ensures s.timerDisabled ==> r == s
    ensures !s.timerDisabled ==> r.counter == s.counter + 1
  {
    if s.timerDisabled then s
    else
      var n := s.counter + 1;
      Apply(OperateWorkout(TimerTick(n), plan, false), s.(counter := n))
  }

  // ---------------------------------------------------------------------------
  // count_down
  // ---------------------------------------------------------------------------

  /** The tick lands on a listed timestamp whose event carries a non-zero countdown. */
  ghost predicate Reseeds(plan: Option<Plan>, n: int)
    requires PlanReady(plan)
  {
    plan.Some? && n in plan.value.timestampList && plan.value.events[n].countdown != 0
  }

  /** Every listed event's countdown seed is non-negative. */
  ghost predicate SeedsNonNegative(plan: Option<Plan>)
    requires PlanReady(plan)
  {
    plan.Some? ==> forall k :: k in plan.value.timestampList ==> plan.value.events[k].countdown >= 0
  }

  /**
   * count_down: at counter 0 the pre-workout countdown; at a timestamp with a non-zero
   * countdown, that countdown; otherwise one less, except that 0 stays (no update). A non-zero
   * counter with the plan cleared raises, which leaves the countdown as it is.
   */
  function CountDown(n: int, plan: Option<Plan>, current: int, startCountdown: int): (r: Option<int>)
    requires PlanReady(plan)
    ensures n == 0 ==> r == Some(startCountdown)
    ensures n != 0 && Reseeds(plan, n) ==> r == Some(plan.value.events[n].countdown)
    ensures n != 0 && plan.Some? && !Reseeds(plan, n) ==> r == (if current == 0 then None else Some(current - 1))
    ensures n != 0 && plan.None? ==> r == None
    ensures current >= 0 && startCountdown >= 0 && SeedsNonNegative(plan) ==> r.GetOr(current) >= 0
  {
    if n == 0 then Some(startCountdown)
    else if plan.None? then None
    else if n in plan.value.timestampList && plan.value.events[n].countdown != 0 then
      Some(plan.value.events[n].countdown)
    else if current == 0 then None
    else Some(current - 1)
  }
}
