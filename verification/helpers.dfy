/**
 * The plan compiler of utils/helpers.py: sub-interval boundaries, the timestamp-indexed
 * workout plan, and the "up next" lookahead.
 */
module Helpers {
  import opened Wrappers
  import opened Rounding

  /** The three audio cues the workout screen can ask for. */
  datatype Audio = Bell | Beep | ShortBeep

  /** What happens at one timestamp: the exercise shown, the cue played, the countdown seed. */
  datatype Event = Event(exercise: string, audio: Audio, countdown: int)

  /** One row of the workout editor table. */
  datatype Row = Row(interval: int, exercise: string, duration: int, subIntervals: int)

  /**
   * A compiled plan: integer-keyed events, the keys in insertion order, and the
   * timestamp of the terminal event.
   */
  datatype Plan = Plan(events: map<int, Event>, timestampList: seq<int>, totalDuration: int)

  const FinishedName := "Finished"
  const FinishedEvent := Event(FinishedName, Bell, 0)
  const SubIntervalError := "Please ensure no sub-intervals exceed interval duration"
  const UpNextPrefix := "Up next: "

  ghost predicate Distinct(s: seq<int>) {
    forall i, j :: 0 <= i < j < |s| ==> s[i] != s[j]
  }

  ghost predicate StrictlyIncreasing(s: seq<int>) {
    forall i, j :: 0 <= i < j < |s| ==> s[i] < s[j]
  }

  /** Every listed timestamp has an event, so the plan's lookups never fail. */
  ghost predicate Consistent(p: Plan) {
    forall k :: k in p.timestampList ==> k in p.events
  }

  /** The timestamp list names each key of the event map exactly once. */
  ghost predicate WellFormedPlan(p: Plan) {
    && Distinct(p.timestampList)
    && (forall k :: k in p.events <==> k in p.timestampList)
  }

  function SumDurations(table: seq<Row>): int {
    if table == [] then 0 else table[0].duration + SumDurations(table[1..])
  }

  /** No row asks for more sub-intervals than it has seconds. */
  ghost predicate SubIntervalsFit(table: seq<Row>) {
    forall i :: 0 <= i < |table| ==> table[i].subIntervals <= table[i].duration
  }

  // ---------------------------------------------------------------------------
  // Sub-interval boundaries
  // ---------------------------------------------------------------------------

  /**
   * create_sub_interval_timestamps: boundary i (1-based) is duration * i / count rounded
   * half-to-even, except the last, which is the duration itself.
   */
  function SubIntervalTimestamps(duration: int, count: int): (r: seq<int>)
    requires count >= 1
    ensures |r| == count
    ensures r[count - 1] == duration
    ensures forall i :: 0 <= i < count - 1 ==> NearestHalfEven(duration * (i + 1), count, r[i])
  {
    seq(count, i requires 0 <= i < count =>
      if i == count - 1 then duration else RoundHalfEven(duration * (i + 1), count))
  }

  // ---------------------------------------------------------------------------
  // Python dict with integer keys
  // ---------------------------------------------------------------------------

  /** A dict: its entries, and its keys in first-insertion order. */
  datatype Dict = Dict(entries: map<int, Event>, keys: seq<int>)

  const EmptyDict := Dict(map[], [])

  ghost predicate WellFormed(d: Dict) {
    && Distinct(d.keys)
    && (forall k :: k in d.entries <==> k in d.keys)
  }

  /** `d[k] = v`: a new key goes to the end; an existing key keeps its place and takes the new value. */
  function Put(d: Dict, k: int, v: Event): (r: Dict)
    ensures r.entries == d.entries[k := v]
    ensures k in d.entries ==> r.keys == d.keys
    ensures k !in d.entries ==> r.keys == d.keys + [k]
  {
    if k in d.entries then Dict(d.entries[k := v], d.keys)
    else Dict(d.entries[k := v], d.keys + [k])
  }

  lemma PutKeepsWellFormed(d: Dict, k: int, v: Event)
    requires WellFormed(d)
    ensures WellFormed(Put(d, k, v))
  {
  }

  /**
   * On a well-formed dict, `d[k] = v` makes `v` the value of `k` and leaves every other entry
   * alone; the old keys keep their positions, and the key list grows by one, ending in `k`,
   * exactly when `k` was not yet a key.
   */
  lemma PutLookup(d: Dict, k: int, v: Event)
    requires WellFormed(d)
    ensures var r := Put(d, k, v);
      && k in r.entries && r.entries[k] == v
      && (forall k' :: k' in d.entries && k' != k ==> k' in r.entries && r.entries[k'] == d.entries[k'])
      && |r.keys| >= |d.keys| && r.keys[..|d.keys|] == d.keys
      && |r.keys| == (if k in d.keys then |d.keys| else |d.keys| + 1)
      && (k !in d.keys ==> r.keys[|d.keys|] == k)
  {
  }

  // ---------------------------------------------------------------------------
  // create_workout_plan
  // ---------------------------------------------------------------------------

  /**
   * The inner loop over the boundaries of one row: each boundary first places an event at
   * the previous boundary, then becomes the previous boundary; only the first event is a
   * full-countdown "beep".
   */
  function PutSubIntervals(plan: Dict, exercise: string, t: int, bounds: seq<int>,
                           offset: int, audio: Audio, countdown: int): (r: Dict)
    decreases |bounds|
  {
    if bounds == [] then plan
    else
      PutSubIntervals(Put(plan, t + offset, Event(exercise, audio, countdown)),
                      exercise, t, bounds[1..], bounds[0], ShortBeep, 0)
  }

  /** The events of one row that passed the sub-interval check, starting at `t`. */
  function PutRow(plan: Dict, row: Row, t: int): (r: Dict)
  {
    if row.subIntervals <= 1 then
      Put(plan, t, Event(row.exercise, Beep, row.duration))
    else
      PutSubIntervals(plan, row.exercise, t,
                      SubIntervalTimestamps(row.duration, row.subIntervals), 0, Beep, row.duration)
  }

  /**
   * The loop over the table rows with cursor `t`. It fails on the first row whose
   * sub-intervals exceed its duration; otherwise the cursor ends at `t` plus every duration.
   */
  function CompileRows(plan: Dict, t: int, table: seq<Row>): (r: Result<(Dict, int), string>)
    ensures r.Success? <==> SubIntervalsFit(table)
    ensures r.Failure? ==> r.error == SubIntervalError
    ensures r.Success? ==> r.value.1 == t + SumDurations(table)
    decreases |table|
  {
    if table == [] then Success((plan, t))
    else if table[0].subIntervals > table[0].duration then Failure(SubIntervalError)
    else
      var r := CompileRows(PutRow(plan, table[0], t), t + table[0].duration, table[1..]);
      assert SubIntervalsFit(table) <==> SubIntervalsFit(table[1..]) by {
        assert forall i :: 0 < i < |table| ==> table[i] == table[1..][i - 1];
      }
      r
  }

  lemma {:induction false} PutSubIntervalsKeepsWellFormed(plan: Dict, exercise: string, t: int, bounds: seq<int>,
                                                          offset: int, audio: Audio, countdown: int)
    requires WellFormed(plan)
    ensures WellFormed(PutSubIntervals(plan, exercise, t, bounds, offset, audio, countdown))
    decreases |bounds|
  {
    if bounds != [] {
      var next := Put(plan, t + offset, Event(exercise, audio, countdown));
      PutKeepsWellFormed(plan, t + offset, Event(exercise, audio, countdown));
      PutSubIntervalsKeepsWellFormed(next, exercise, t, bounds[1..], bounds[0], ShortBeep, 0);
    }
  }

  /**
   * The compiled dict keeps its invariant: the key list names every entry exactly once.
   */
  lemma {:induction false} CompileRowsKeepsWellFormed(plan: Dict, t: int, table: seq<Row>)
    requires WellFormed(plan) && CompileRows(plan, t, table).Success?
    ensures WellFormed(CompileRows(plan, t, table).value.0)
    decreases |table|
  {
    hide RoundHalfEven, NearestHalfEven;
    if table != [] {
      var row := table[0];
      var next := PutRow(plan, row, t);
      assert WellFormed(next) by {
        if row.subIntervals <= 1 {
          PutKeepsWellFormed(plan, t, Event(row.exercise, Beep, row.duration));
        } else {
          PutSubIntervalsKeepsWellFormed(plan, row.exercise, t,
            SubIntervalTimestamps(row.duration, row.subIntervals), 0, Beep, row.duration);
        }
      }
      assert CompileRows(plan, t, table) == CompileRows(next, t + row.duration, table[1..]);
      CompileRowsKeepsWellFormed(next, t + row.duration, table[1..]);
    }
  }

  /**
   * create_workout_plan: every row's events from `start` on, then the terminal "Finished"
   * event at the final cursor, which is also the total duration.
   */
  function CreateWorkoutPlan(table: seq<Row>, start: int): (r: Result<Plan, string>)
    ensures r.Failure? <==> exists i :: 0 <= i < |table| && table[i].subIntervals > table[i].duration
    ensures r.Failure? ==> r.error == SubIntervalError
    ensures r.Success? ==> WellFormedPlan(r.value) && Consistent(r.value)
    ensures r.Success? ==> r.value.totalDuration == start + SumDurations(table)
    ensures r.Success? ==> r.value.totalDuration in r.value.events
                           && r.value.events[r.value.totalDuration] == FinishedEvent
  {
    match CompileRows(EmptyDict, start, table)
    case Failure(e) => Failure(e)
    case Success((rows, t)) =>
      CompileRowsKeepsWellFormed(EmptyDict, start, table);
      PutKeepsWellFormed(rows, t, FinishedEvent);
      var d := Put(rows, t, FinishedEvent);
      Success(Plan(d.entries, d.keys, t))
  }

  // ---------------------------------------------------------------------------
  // find_next_exercise
  // ---------------------------------------------------------------------------

  /**
   * Outcomes of the lookahead: the "Up next" text; Python's implicit `None`; the `ValueError`
   * of `list.index` when the timestamp is not listed; the `IndexError` of running off the list.
   */
  datatype Lookahead = Found(text: string) | NoneReturned | MissingTimestamp | RanPastEnd

  /** Position of the first occurrence of `x`, as `list.index` returns it. */
  function IndexOf(s: seq<int>, x: int): (i: nat)
    requires x in s
    ensures i < |s| && s[i] == x
    ensures forall j :: 0 <= j < i ==> s[j] != x
  {
    if s[0] == x then 0 else 1 + IndexOf(s[1..], x)
  }

  /** The exercise at position `j` of the timestamp list. */
  function NameAt(p: Plan, j: int): string
    requires Consistent(p) && 0 <= j < |p.timestampList|
  {
    var k := p.timestampList[j];
    assert k in p.timestampList;
    p.events[k].exercise
  }

  /** `j` is the first position after `pos` whose exercise differs from `current`. */
  ghost predicate FirstChangeAt(p: Plan, pos: int, current: string, j: int)
    requires Consistent(p)
  {
    && pos < j < |p.timestampList|
    && 0 <= j
    && NameAt(p, j) != current
    && (forall k :: pos < k < j && 0 <= k ==> NameAt(p, k) == current)
  }

  /** Some position after `pos` holds an exercise other than `current`; the first one is the answer. */
  ghost predicate ChangesAfter(p: Plan, pos: int, current: string)
    requires Consistent(p)
  {
    exists j :: FirstChangeAt(p, pos, current, j)
  }

  /**
   * The `while` loop of find_next_exercise: the loop bound is `len(list)` but the index read
   * is `pos + i`, so the scan can run past the end before `i` reaches the bound.
   */
  function ScanAhead(p: Plan, pos: nat, i: nat, current: string): (r: Lookahead)
    requires Consistent(p)
    requires pos < |p.timestampList|
    requires 1 <= i && pos + i <= |p.timestampList|
    requires forall k :: pos < k < pos + i && k < |p.timestampList| ==> NameAt(p, k) == current
    ensures r != MissingTimestamp
    ensures r.Found? <==> ChangesAfter(p, pos, current)
    ensures r.Found? ==> exists j :: FirstChangeAt(p, pos, current, j)
                                     && r.text == UpNextPrefix + NameAt(p, j)
    ensures r == NoneReturned ==> pos == 0
    ensures r == RanPastEnd ==> pos > 0
    decreases |p.timestampList| - i
  {
    if i >= |p.timestampList| then
      NoneReturned
    else if pos + i >= |p.timestampList| then
      RanPastEnd
    else if NameAt(p, pos + i) != current then
      assert FirstChangeAt(p, pos, current, pos + i);
      Found(UpNextPrefix + NameAt(p, pos + i))
    else
      ScanAhead(p, pos, i + 1, current)
  }

  /**
   * find_next_exercise: "Up next: " and the first later exercise that differs from the
   * current one. The position of the timestamp is looked up inside the loop body, so a list of
   * at most one timestamp never looks it up and returns `None`, listed timestamp or not. With
   * no later different exercise it returns `None` when the timestamp is first in the list and
   * raises `IndexError` otherwise.
   */
  function FindNextExercise(p: Plan, n: int, current: string): (r: Lookahead)
    requires Consistent(p)
    ensures r == MissingTimestamp <==> n !in p.timestampList && |p.timestampList| > 1
    ensures |p.timestampList| <= 1 ==> r == NoneReturned
    ensures n in p.timestampList ==>
      var pos := IndexOf(p.timestampList, n);
      && (r.Found? <==> ChangesAfter(p, pos, current))
      && (r.Found? ==> exists j :: FirstChangeAt(p, pos, current, j)
                                   && r.text == UpNextPrefix + NameAt(p, j))
      && (r == NoneReturned <==> !r.Found? && pos == 0)
      && (r == RanPastEnd <==> !r.Found? && pos > 0)
  {
    if |p.timestampList| <= 1 then NoneReturned
    else if n !in p.timestampList then MissingTimestamp
    else
      var pos := IndexOf(p.timestampList, n);
      var r := ScanAhead(p, pos, 1, current);
      assert r.Found? <==> ChangesAfter(p, pos, current);
      r
  }
}
