/**
 * What the plan compiler produces, stated against an independent description of the
 * schedule: the list of (timestamp, event) pairs each row contributes, in order.
 */
module PlanTheory {
  import opened Wrappers
  import opened Rounding
  import opened Helpers

  // ---------------------------------------------------------------------------
  // Sub-interval boundaries
  // ---------------------------------------------------------------------------

  /** Consecutive rounded multiples of `d / n` differ when a slice is at least one second long. */
  lemma NearestStep(d: int, n: int, x: int, r1: int, r2: int)
    requires 1 <= n <= d
    requires NearestHalfEven(d * x, n, r1) && NearestHalfEven(d * (x + 1), n, r2)
    ensures r1 < r2
  {
    var p, a, b := d * x, n * r1, n * r2;
    assert d * (x + 1) == p + d;
    assert -n <= 2 * (p - a) <= n;
    assert -n <= 2 * (p + d - b) <= n;
    if d == n {
      // Whole multiples of n round to themselves.
      assert p - a == n * (x - r1);
      assert p + d - b == n * (x + 1 - r2);
      WithinHalfIsZero(n, x - r1);
      WithinHalfIsZero(n, x + 1 - r2);
    } else {
      CancelPositiveFactor(n, r1, r2);
    }
  }

  /** Positive multiples of `n` near `a > n/2` are positive; those below `n * d - n/2` stay below `d`. */
  lemma NearestFirstAndLast(d: int, n: int, r0: int, rLast: int)
    requires 2 <= n <= d
    requires NearestHalfEven(d * 1, n, r0)
    requires NearestHalfEven(d * (n - 1), n, rLast)
    ensures 0 < r0 && rLast < d
  {
    assert n * r0 == n * (r0 - 0);
    assert d * (n - 1) == n * d - d;
    assert n * d - n * rLast == n * (d - rLast);
  }

  lemma {:induction false} ChainIncreasing(s: seq<int>, i: int, j: int)
    requires forall k :: 0 <= k < |s| - 1 ==> s[k] < s[k + 1]
    requires 0 <= i < j < |s|
    ensures s[i] < s[j]
    decreases j - i
  {
    if j > i + 1 {
      ChainIncreasing(s, i, j - 1);
    }
  }

  /**
   * With one second or more per slice, the boundaries of create_sub_interval_timestamps
   * start above zero, strictly increase, and end at the duration.
   */
  lemma SubIntervalTimestampsIncreasing(d: int, n: int)
    requires 1 <= n <= d
    ensures var b := SubIntervalTimestamps(d, n);
      && StrictlyIncreasing(b)
      && 0 < b[0]
      && b[n - 1] == d
  {
    var b := SubIntervalTimestamps(d, n);
    if n >= 2 {
      NearestFirstAndLast(d, n, b[0], b[n - 2]);
      forall k | 0 <= k < n - 1 ensures b[k] < b[k + 1] {
        if k + 1 < n - 1 {
          NearestStep(d, n, k + 1, b[k], b[k + 1]);
        }
      }
      forall i, j | 0 <= i < j < n ensures b[i] < b[j] {
        ChainIncreasing(b, i, j);
      }
    }
  }

  /** create_sub_interval_timestamps(60, 3) == [20, 40, 60]. */
  lemma SixtySplitThreeWays()
    ensures SubIntervalTimestamps(60, 3) == [20, 40, 60]
  {
    var b := SubIntervalTimestamps(60, 3);
    assert b[0] == RoundHalfEven(60, 3) == 20;
    assert b[1] == RoundHalfEven(120, 3) == 40;
  }

  // ---------------------------------------------------------------------------
  // The schedule as a list of emissions
  // ---------------------------------------------------------------------------

  /** The events a row contributes when it starts at `t`, in the order they are placed. */
  function RowEvents(row: Row, t: int): seq<(int, Event)> {
    if row.subIntervals <= 1 then
      [(t, Event(row.exercise, Beep, row.duration))]
    else
      var b := SubIntervalTimestamps(row.duration, row.subIntervals);
      seq(row.subIntervals, j requires 0 <= j < row.subIntervals =>
        if j == 0 then (t, Event(row.exercise, Beep, row.duration))
        else (t + b[j - 1], Event(row.exercise, ShortBeep, 0)))
  }

  /** Every row's events, each row starting where the previous one ends. */
  function Emissions(table: seq<Row>, t: int): seq<(int, Event)>
    decreases |table|
  {
    if table == [] then []
    else RowEvents(table[0], t) + Emissions(table[1..], t + table[0].duration)
  }

  /** The whole schedule: the rows' events, then the terminal event at the end time. */
  function Timeline(table: seq<Row>, start: int): seq<(int, Event)> {
    Emissions(table, start) + [(start + SumDurations(table), FinishedEvent)]
  }

  function Stamps(es: seq<(int, Event)>): (s: seq<int>)
    ensures |s| == |es|
    ensures forall i :: 0 <= i < |es| ==> s[i] == es[i].0
  {
    seq(|es|, i requires 0 <= i < |es| => es[i].0)
  }

  /** Assigns each emission into the dict in turn. */
  function PutAll(d: Dict, es: seq<(int, Event)>): Dict
    decreases |es|
  {
    if es == [] then d else PutAll(Put(d, es[0].0, es[0].1), es[1..])
  }

  ghost predicate PositiveDurations(table: seq<Row>) {
    forall i :: 0 <= i < |table| ==> table[i].duration > 0
  }

  ghost predicate Bounded(s: seq<int>, lo: int, hi: int) {
    forall i :: 0 <= i < |s| ==> lo <= s[i] < hi
  }

  // ---------------------------------------------------------------------------
  // The compiler places exactly the schedule
  // ---------------------------------------------------------------------------

  lemma {:induction false} PutAllAppend(d: Dict, a: seq<(int, Event)>, b: seq<(int, Event)>)
    ensures PutAll(d, a + b) == PutAll(PutAll(d, a), b)
    decreases |a|
  {
    if a == [] {
      assert a + b == b;
    } else {
      assert (a + b)[0] == a[0];
      assert (a + b)[1..] == a[1..] + b;
      PutAllAppend(Put(d, a[0].0, a[0].1), a[1..], b);
    }
  }

  /** The inner loop, entered after `k` boundaries, places the rest of the row's events. */
  lemma {:induction false} SubIntervalTail(plan: Dict, row: Row, t: int, k: nat)
    requires row.subIntervals > 1
    requires 1 <= k <= row.subIntervals
    ensures var b := SubIntervalTimestamps(row.duration, row.subIntervals);
      PutSubIntervals(plan, row.exercise, t, b[k..], b[k - 1], ShortBeep, 0)
        == PutAll(plan, RowEvents(row, t)[k..])
    decreases row.subIntervals - k
  {
    hide RoundHalfEven, NearestHalfEven;
    var b := SubIntervalTimestamps(row.duration, row.subIntervals);
    var es := RowEvents(row, t);
    if k < row.subIntervals {
      assert b[k..][1..] == b[k + 1..];
      assert es[k..][1..] == es[k + 1..];
      assert es[k..][0] == (t + b[k - 1], Event(row.exercise, ShortBeep, 0));
      SubIntervalTail(Put(plan, t + b[k - 1], Event(row.exercise, ShortBeep, 0)), row, t, k + 1);
    } else {
      assert b[k..] == [] && es[k..] == [];
    }
  }

  /** One row of the compiler's loop places exactly that row's events. */
  lemma PutRowMatchesRowEvents(plan: Dict, row: Row, t: int)
    ensures PutRow(plan, row, t) == PutAll(plan, RowEvents(row, t))
  {
    hide RoundHalfEven, NearestHalfEven;
    if row.subIntervals > 1 {
      var b := SubIntervalTimestamps(row.duration, row.subIntervals);
      var es := RowEvents(row, t);
      var first := Put(plan, t + 0, Event(row.exercise, Beep, row.duration));
      assert PutSubIntervals(plan, row.exercise, t, b, 0, Beep, row.duration)
          == PutSubIntervals(first, row.exercise, t, b[1..], b[0], ShortBeep, 0);
      SubIntervalTail(first, row, t, 1);
    }
  }

  lemma FitsTail(table: seq<Row>)
    requires table != [] && SubIntervalsFit(table)
    ensures table[0].subIntervals <= table[0].duration
    ensures SubIntervalsFit(table[1..])
  {
    assert forall i :: 0 <= i < |table| - 1 ==> table[1..][i] == table[i + 1];
  }

  /** One turn of the compiler's row loop, for a row that passes the check. */
  lemma CompileRowsStep(plan: Dict, t: int, table: seq<Row>)
    requires table != [] && table[0].subIntervals <= table[0].duration
    ensures CompileRows(plan, t, table)
         == CompileRows(PutRow(plan, table[0], t), t + table[0].duration, table[1..])
  {
  }

  lemma EmissionsStep(table: seq<Row>, t: int)
    requires table != []
    ensures Emissions(table, t) == RowEvents(table[0], t) + Emissions(table[1..], t + table[0].duration)
    ensures SumDurations(table) == table[0].duration + SumDurations(table[1..])
  {
  }

  /** Placing the first row and then the rest's events places the whole table's events. */
  lemma FirstRowThenRest(plan: Dict, t: int, table: seq<Row>)
    requires table != []
    ensures PutAll(PutRow(plan, table[0], t), Emissions(table[1..], t + table[0].duration))
         == PutAll(plan, Emissions(table, t))
    ensures t + table[0].duration + SumDurations(table[1..]) == t + SumDurations(table)
  {
    PutRowMatchesRowEvents(plan, table[0], t);
    PutAllAppend(plan, RowEvents(table[0], t), Emissions(table[1..], t + table[0].duration));
    EmissionsStep(table, t);
  }

  lemma CompileRowsEmptyTable(plan: Dict, t: int)
    ensures CompileRows(plan, t, []) == Success((PutAll(plan, Emissions([], t)), t + SumDurations([])))
  {
    assert Emissions([], t) == [] && SumDurations([]) == 0;
    assert PutAll(plan, []) == plan;
  }

  /** The compiler's row loop assigns exactly the rows' events, in order. */
  lemma {:induction false} CompileRowsMatchesEmissions(plan: Dict, t: int, table: seq<Row>)
    requires SubIntervalsFit(table)
    ensures CompileRows(plan, t, table)
         == Success((PutAll(plan, Emissions(table, t)), t + SumDurations(table)))
    decreases |table|, 1
  {
    if table == [] {
      CompileRowsEmptyTable(plan, t);
    } else {
      RowLoopTurn(plan, t, table);
    }
  }

  /** One turn of the row loop: the first row, then the rest of the table by induction. */
  lemma {:induction false} RowLoopTurn(plan: Dict, t: int, table: seq<Row>)
    requires table != [] && SubIntervalsFit(table)
    ensures CompileRows(plan, t, table)
         == Success((PutAll(plan, Emissions(table, t)), t + SumDurations(table)))
    decreases |table|, 0
  {
    hide *;
    FitsTail(table);
    CompileRowsMatchesEmissions(PutRow(plan, table[0], t), t + table[0].duration, table[1..]);
    CompileRowsStep(plan, t, table);
    FirstRowThenRest(plan, t, table);
  }

  /**
   * For every accepted table, the compiled plan is the dict obtained by assigning the
   * timeline's events in order, and its total duration is the start plus every duration.
   * This holds even when timestamps collide (later assignments win, first positions stay).
   */
  lemma CreateWorkoutPlanMatchesTimeline(table: seq<Row>, start: int)
    requires SubIntervalsFit(table)
    ensures CreateWorkoutPlan(table, start).Success?
    ensures var p, d := CreateWorkoutPlan(table, start).value, PutAll(EmptyDict, Timeline(table, start));
      && p.events == d.entries
      && p.timestampList == d.keys
      && p.totalDuration == start + SumDurations(table)
  {
    var total := start + SumDurations(table);
    var em := Emissions(table, start);
    var rows := PutAll(EmptyDict, em);
    var tl := Timeline(table, start);
    hide *;
    TimelineSplit(table, start);
    assert CompileRows(EmptyDict, start, table) == Success((rows, total)) by {
      CompileRowsMatchesEmissions(EmptyDict, start, table);
    }
    var d := Put(rows, total, FinishedEvent);
    assert CreateWorkoutPlan(table, start) == Success(Plan(d.entries, d.keys, total)) by {
      CreateWorkoutPlanFromRows(table, start);
    }
    assert PutAll(EmptyDict, tl) == d by {
      PutAllThenFinish(em, total);
    }
  }

  lemma TimelineSplit(table: seq<Row>, start: int)
    ensures Timeline(table, start) == Emissions(table, start) + [(start + SumDurations(table), FinishedEvent)]
  {
  }

  /** The plan is the rows' dict with the terminal event assigned at the final cursor. */
  lemma CreateWorkoutPlanFromRows(table: seq<Row>, start: int)
    requires SubIntervalsFit(table)
    ensures CompileRows(EmptyDict, start, table).Success?
    ensures var (rows, total) := CompileRows(EmptyDict, start, table).value;
      var d := Put(rows, total, FinishedEvent);
      CreateWorkoutPlan(table, start) == Success(Plan(d.entries, d.keys, total))
  {
  }

  /** Assigning a list and then the terminal event is one more assignment after the list. */
  lemma PutAllThenFinish(es: seq<(int, Event)>, total: int)
    ensures PutAll(EmptyDict, es + [(total, FinishedEvent)])
         == Put(PutAll(EmptyDict, es), total, FinishedEvent)
  {
    var fin := [(total, FinishedEvent)];
    PutAllAppend(EmptyDict, es, fin);
    assert fin[1..] == [];
  }

  // ---------------------------------------------------------------------------
  // With distinct timestamps, every assignment appends
  // ---------------------------------------------------------------------------

  /** A fresh list minus its head is still fresh, now against the dict with the head assigned. */
  lemma FreshRest(d: Dict, es: seq<(int, Event)>)
    requires es != [] && Distinct(Stamps(es))
    requires forall i :: 0 <= i < |es| ==> es[i].0 !in d.entries
    ensures Stamps(es) == [es[0].0] + Stamps(es[1..])
    ensures Distinct(Stamps(es[1..]))
    ensures forall i :: 0 <= i < |es| - 1 ==> es[1..][i].0 !in Put(d, es[0].0, es[0].1).entries
  {
    var s, sr := Stamps(es), Stamps(es[1..]);
    assert s == [es[0].0] + sr by {
      assert forall i :: 0 <= i < |sr| ==> sr[i] == s[i + 1];
    }
    assert Distinct(sr) by {
      forall i, j | 0 <= i < j < |sr| ensures sr[i] != sr[j] {
        assert sr[i] == s[i + 1] && sr[j] == s[j + 1];
      }
    }
    forall i | 0 <= i < |es| - 1 ensures es[1..][i].0 !in Put(d, es[0].0, es[0].1).entries {
      assert es[1..][i] == es[i + 1];
      assert s[0] != s[i + 1];
    }
  }

  lemma PutAllCons(d: Dict, es: seq<(int, Event)>)
    requires es != []
    ensures PutAll(d, es) == PutAll(Put(d, es[0].0, es[0].1), es[1..])
  {
  }

  /** With fresh, distinct timestamps, every assignment appends its key and keeps the old entries. */
  lemma {:induction false} PutAllFresh(d: Dict, es: seq<(int, Event)>)
    requires Distinct(Stamps(es))
    requires forall i :: 0 <= i < |es| ==> es[i].0 !in d.entries
    ensures PutAll(d, es).keys == d.keys + Stamps(es)
    ensures forall k :: k in d.entries ==> k in PutAll(d, es).entries
                                           && PutAll(d, es).entries[k] == d.entries[k]
    ensures forall i :: 0 <= i < |es| ==> es[i].0 in PutAll(d, es).entries
                                           && PutAll(d, es).entries[es[i].0] == es[i].1
    decreases |es|, 1
  {
    if es == [] {
      assert Stamps(es) == [];
    } else {
      PutAllFreshTurn(d, es);
    }
  }

  /** One assignment of `PutAllFresh`: the head is appended, then the rest by induction. */
  lemma {:induction false} PutAllFreshTurn(d: Dict, es: seq<(int, Event)>)
    requires es != [] && Distinct(Stamps(es))
    requires forall i :: 0 <= i < |es| ==> es[i].0 !in d.entries
    ensures PutAll(d, es).keys == d.keys + Stamps(es)
    ensures forall k :: k in d.entries ==> k in PutAll(d, es).entries
                                           && PutAll(d, es).entries[k] == d.entries[k]
    ensures forall i :: 0 <= i < |es| ==> es[i].0 in PutAll(d, es).entries
                                           && PutAll(d, es).entries[es[i].0] == es[i].1
    decreases |es|, 0
  {
    hide *;
    var k0, v0, rest := es[0].0, es[0].1, es[1..];
    var d1 := Put(d, k0, v0);
    assert k0 !in d.entries;
    FreshRest(d, es);
    PutAllFresh(d1, rest);
    PutAllCons(d, es);
    var r := PutAll(d, es);
    assert r.keys == d.keys + Stamps(es) by {
      assert d1.keys == d.keys + [k0];
      assert (d.keys + [k0]) + Stamps(rest) == d.keys + ([k0] + Stamps(rest));
    }
    forall i | 0 <= i < |es| ensures es[i].0 in r.entries && r.entries[es[i].0] == es[i].1 {
      if i > 0 {
        assert es[i] == rest[i - 1];
      }
    }
  }

  lemma StampsAppend(a: seq<(int, Event)>, b: seq<(int, Event)>)
    ensures Stamps(a + b) == Stamps(a) + Stamps(b)
  {
  }

  lemma IncreasingConcat(a: seq<int>, b: seq<int>, lo: int, mid: int, hi: int)
    requires lo <= mid <= hi
    requires StrictlyIncreasing(a) && Bounded(a, lo, mid)
    requires StrictlyIncreasing(b) && Bounded(b, mid, hi)
    ensures StrictlyIncreasing(a + b) && Bounded(a + b, lo, hi)
  {
  }

  /** A valid row's events start at `t`, strictly increase, and end before `t + duration`. */
  lemma RowEventsOrdered(row: Row, t: int)
    requires 0 < row.duration && row.subIntervals <= row.duration
    ensures var s := Stamps(RowEvents(row, t));
      |s| > 0 && s[0] == t && StrictlyIncreasing(s) && Bounded(s, t, t + row.duration)
  {
    if row.subIntervals > 1 {
      var n := row.subIntervals;
      var b := SubIntervalTimestamps(row.duration, n);
      SubIntervalTimestampsIncreasing(row.duration, n);
      var s := Stamps(RowEvents(row, t));
      forall i, j | 0 <= i < j < |s| ensures s[i] < s[j] {
        if i == 0 {
          assert b[0] <= b[j - 1];
        }
      }
      forall i | 0 <= i < |s| ensures t <= s[i] < t + row.duration {
        if i > 0 {
          assert b[0] <= b[i - 1] < b[n - 1];
        }
      }
    }
  }

  lemma {:induction false} EmissionsOrdered(table: seq<Row>, t: int)
    requires PositiveDurations(table) && SubIntervalsFit(table)
    ensures SumDurations(table) >= 0
    ensures var s := Stamps(Emissions(table, t));
      StrictlyIncreasing(s) && Bounded(s, t, t + SumDurations(table))
    decreases |table|
  {
    if table != [] {
      var row, rest := table[0], table[1..];
      var next := t + row.duration;
      assert 0 < row.duration && row.subIntervals <= row.duration by {
        assert table[0] == row;
      }
      assert PositiveDurations(rest) && SubIntervalsFit(rest) by {
        assert forall i :: 0 <= i < |rest| ==> rest[i] == table[i + 1];
      }
      var a, b := Stamps(RowEvents(row, t)), Stamps(Emissions(rest, next));
      assert StrictlyIncreasing(a) && Bounded(a, t, next) by {
        RowEventsOrdered(row, t);
      }
      assert SumDurations(rest) >= 0 && StrictlyIncreasing(b)
             && Bounded(b, next, next + SumDurations(rest)) by {
        EmissionsOrdered(rest, next);
      }
      EmissionsStep(table, t);
      assert Stamps(Emissions(table, t)) == a + b by {
        StampsAppend(RowEvents(row, t), Emissions(rest, next));
      }
      IncreasingConcat(a, b, t, next, t + SumDurations(table));
    }
  }

  // ---------------------------------------------------------------------------
  // The plan of a valid table
  // ---------------------------------------------------------------------------

  /**
   * With positive durations and sub-intervals that fit, the compiled plan lists the
   * timeline's timestamps in order, strictly increasing, each with the timeline's event,
   * and ends with the terminal event at the total duration.
   */
  lemma PlanFollowsTimeline(table: seq<Row>, start: int)
    requires PositiveDurations(table) && SubIntervalsFit(table)
    ensures CreateWorkoutPlan(table, start).Success?
    ensures var p := CreateWorkoutPlan(table, start).value;
      var tl := Timeline(table, start);
      && p.timestampList == Stamps(tl)
      && StrictlyIncreasing(p.timestampList)
      && (forall i :: 0 <= i < |tl| ==> tl[i].0 in p.events && p.events[tl[i].0] == tl[i].1)
      && p.timestampList[|p.timestampList| - 1] == p.totalDuration
      && p.events[p.totalDuration] == FinishedEvent
  {
    hide *;
    var tl := Timeline(table, start);
    var total := start + SumDurations(table);
    CreateWorkoutPlanMatchesTimeline(table, start);
    TimelineIncreasing(table, start);
    TimelineSplit(table, start);
    IncreasingIsDistinct(Stamps(tl));
    PutAllFromEmpty(tl);
    assert tl[|tl| - 1] == (total, FinishedEvent);
  }

  /** The timeline's timestamps strictly increase, ending with the total. */
  lemma TimelineIncreasing(table: seq<Row>, start: int)
    requires PositiveDurations(table) && SubIntervalsFit(table)
    ensures StrictlyIncreasing(Stamps(Timeline(table, start)))
  {
    var total := start + SumDurations(table);
    var em := Emissions(table, start);
    EmissionsOrdered(table, start);
    StampsAppend(em, [(total, FinishedEvent)]);
    assert Stamps([(total, FinishedEvent)]) == [total];
    IncreasingConcat(Stamps(em), [total], start, total, total + 1);
  }

  lemma IncreasingIsDistinct(s: seq<int>)
    requires StrictlyIncreasing(s)
    ensures Distinct(s)
  {
  }

  /** Assigning distinct timestamps into the empty dict lists them in order, each with its event. */
  lemma PutAllFromEmpty(es: seq<(int, Event)>)
    requires Distinct(Stamps(es))
    ensures PutAll(EmptyDict, es).keys == Stamps(es)
    ensures forall i :: 0 <= i < |es| ==> es[i].0 in PutAll(EmptyDict, es).entries
                                          && PutAll(EmptyDict, es).entries[es[i].0] == es[i].1
  {
    PutAllFresh(EmptyDict, es);
    assert EmptyDict.keys + Stamps(es) == Stamps(es);
  }

  ghost predicate NoSubIntervals(table: seq<Row>) {
    forall i :: 0 <= i < |table| ==> table[i].subIntervals <= 1
  }

  lemma PrefixSumStep(table: seq<Row>, i: int)
    requires 0 < i <= |table|
    ensures SumDurations(table[..i]) == table[0].duration + SumDurations(table[1..][..i - 1])
  {
    assert table[..i][1..] == table[1..][..i - 1];
  }

  lemma SingleBeepRow(row: Row, t: int)
    requires row.subIntervals <= 1
    ensures RowEvents(row, t) == [(t, Event(row.exercise, Beep, row.duration))]
  {
  }

  /** Without sub-intervals, row `i` of the table is emitted once, at the durations before it. */
  lemma {:induction false} SingleBeepEmissions(table: seq<Row>, t: int)
    requires NoSubIntervals(table)
    ensures var es := Emissions(table, t);
      && |es| == |table|
      && forall i :: 0 <= i < |table| ==>
           es[i] == (t + SumDurations(table[..i]), Event(table[i].exercise, Beep, table[i].duration))
    decreases |table|, 1
  {
    if table != [] {
      SingleBeepTurn(table, t);
    }
  }

  lemma {:induction false} SingleBeepTurn(table: seq<Row>, t: int)
    requires table != [] && NoSubIntervals(table)
    ensures var es := Emissions(table, t);
      && |es| == |table|
      && forall i :: 0 <= i < |table| ==>
           es[i] == (t + SumDurations(table[..i]), Event(table[i].exercise, Beep, table[i].duration))
    decreases |table|, 0
  {
    hide RowEvents;
    SingleBeepRow(table[0], t);
    var rest, t1 := table[1..], t + table[0].duration;
    assert NoSubIntervals(rest) by {
      assert forall i :: 0 <= i < |rest| ==> rest[i] == table[i + 1];
    }
    SingleBeepEmissions(rest, t1);
    EmissionsStep(table, t);
    var es, tail := Emissions(table, t), Emissions(rest, t1);
    assert es == [(t, Event(table[0].exercise, Beep, table[0].duration))] + tail;
    forall i | 0 <= i < |table|
      ensures es[i] == (t + SumDurations(table[..i]), Event(table[i].exercise, Beep, table[i].duration))
    {
      if i == 0 {
        assert table[..0] == [];
      } else {
        PrefixSumStep(table, i);
        assert es[i] == tail[i - 1] && table[i] == rest[i - 1];
      }
    }
  }

  /**
   * When no row has sub-intervals, the plan holds one "beep" event per row at the row's
   * cumulative start, with the row's duration as countdown, then the terminal event.
   */
  lemma SingleBeepPlan(table: seq<Row>, start: int)
    requires PositiveDurations(table)
    requires NoSubIntervals(table)
    ensures CreateWorkoutPlan(table, start).Success?
    ensures var p := CreateWorkoutPlan(table, start).value;
      && |p.timestampList| == |table| + 1
      && (forall i :: 0 <= i < |table| ==>
            && p.timestampList[i] == start + SumDurations(table[..i])
            && p.events[p.timestampList[i]] == Event(table[i].exercise, Beep, table[i].duration))
      && p.timestampList[|table|] == p.totalDuration == start + SumDurations(table)
      && p.events[p.totalDuration] == FinishedEvent
  {
    PlanFollowsTimeline(table, start);
    SingleBeepEmissions(table, start);
    var tl := Timeline(table, start);
    assert forall i :: 0 <= i < |table| ==> tl[i] == Emissions(table, start)[i];
  }

  /**
   * A single row with 1 < n <= duration sub-intervals: a full-countdown "beep" at the start,
   * a "short_beep" with countdown 0 at each inner boundary, no event at the final boundary,
   * and the terminal event at start + duration.
   */
  lemma SubIntervalRowPlan(row: Row, start: int)
    requires 1 < row.subIntervals <= row.duration
    ensures CreateWorkoutPlan([row], start).Success?
    ensures var p := CreateWorkoutPlan([row], start).value;
      var n := row.subIntervals;
      var b := SubIntervalTimestamps(row.duration, n);
      && |p.timestampList| == n + 1
      && p.timestampList[0] == start
      && p.events[start] == Event(row.exercise, Beep, row.duration)
      && (forall j :: 1 <= j < n ==>
            && p.timestampList[j] == start + b[j - 1]
            && p.events[p.timestampList[j]] == Event(row.exercise, ShortBeep, 0))
      && p.timestampList[n] == p.totalDuration == start + row.duration
      && p.events[p.totalDuration] == FinishedEvent
  {
    hide RoundHalfEven, NearestHalfEven;
    PlanFollowsTimeline([row], start);
    assert [row][1..] == [];
    assert Emissions([row], start) == RowEvents(row, start);
    assert SumDurations([row]) == row.duration;
  }

  /** An empty table compiles to the terminal event alone, at the start timestamp. */
  lemma EmptyTablePlan(start: int)
    ensures CreateWorkoutPlan([], start) == Success(Plan(map[start := FinishedEvent], [start], start))
  {
    assert CompileRows(EmptyDict, start, []) == Success((EmptyDict, start));
    assert Put(EmptyDict, start, FinishedEvent) == Dict(map[start := FinishedEvent], [start]);
  }

  /** Squats 30 s, then Lunges 60 s in two halves, starting after a 5 s countdown. */
  lemma SquatsLungesScenario()
    ensures CreateWorkoutPlan([Row(1, "Squats", 30, 1), Row(2, "Lunges", 60, 2)], 5)
         == Success(Plan(
              map[5 := Event("Squats", Beep, 30), 35 := Event("Lunges", Beep, 60),
                  65 := Event("Lunges", ShortBeep, 0), 95 := FinishedEvent],
              [5, 35, 65, 95], 95))
  {
    var squats, lunges := Row(1, "Squats", 30, 1), Row(2, "Lunges", 60, 2);
    var table := [squats, lunges];
    var squatsAt5 := (5, Event("Squats", Beep, 30));
    var lungesAt35 := [(35, Event("Lunges", Beep, 60)), (65, Event("Lunges", ShortBeep, 0))];
    assert SubIntervalTimestamps(60, 2) == [30, 60] by {
      assert RoundHalfEven(60, 2) == 30;
    }
    assert RowEvents(squats, 5) == [squatsAt5];
    assert RowEvents(lunges, 35) == lungesAt35;
    assert table[1..] == [lunges] && [lunges][1..] == [];
    EmissionsStep(table, 5);
    EmissionsStep([lunges], 35);
    assert Emissions(table, 5) == [squatsAt5] + lungesAt35;
    assert SumDurations(table) == 90;
    var tl := Timeline(table, 5);
    assert tl == [squatsAt5] + lungesAt35 + [(95, FinishedEvent)];
    PlanFollowsTimeline(table, 5);
    var p := CreateWorkoutPlan(table, 5).value;
    assert p.timestampList == [5, 35, 65, 95];
    assert WellFormedPlan(p);
    assert forall k :: k in p.events <==> k in {5, 35, 65, 95} by {
      assert forall k :: k in p.timestampList <==> k in {5, 35, 65, 95};
    }
  }

  // ---------------------------------------------------------------------------
  // The lookahead on compiled plans
  // ---------------------------------------------------------------------------

  /** If some later position has a different exercise, there is a first such position. */
  lemma {:induction false} FirstChangeExists(p: Plan, pos: int, current: string, j: int)
    requires Consistent(p)
    requires pos < j < |p.timestampList| && 0 <= j
    requires NameAt(p, j) != current
    ensures ChangesAfter(p, pos, current)
    decreases j - pos
  {
    if !FirstChangeAt(p, pos, current, j) {
      var k :| pos < k < j && 0 <= k && NameAt(p, k) != current;
      FirstChangeExists(p, pos, current, k);
    }
  }

  /**
   * On a compiled plan with positive durations, the lookahead from any listed timestamp whose
   * exercise is not "Finished" always announces a different exercise: the terminal event is
   * last, so the scan never runs off the list.
   */
  lemma LookaheadOnCompiledPlan(table: seq<Row>, start: int, n: int)
    requires PositiveDurations(table) && SubIntervalsFit(table)
    requires var p := CreateWorkoutPlan(table, start);
      p.Success? && n in p.value.timestampList && p.value.events[n].exercise != FinishedName
    ensures var p := CreateWorkoutPlan(table, start).value;
      var r := FindNextExercise(p, n, p.events[n].exercise);
      r.Found? && exists j :: 0 <= j < |p.timestampList|
                              && NameAt(p, j) != p.events[n].exercise
                              && r.text == UpNextPrefix + NameAt(p, j)
  {
    var p := CreateWorkoutPlan(table, start).value;
    PlanFollowsTimeline(table, start);
    var last := |p.timestampList| - 1;
    var pos := IndexOf(p.timestampList, n);
    assert NameAt(p, last) == FinishedName;
    assert pos != last;
    FirstChangeExists(p, pos, p.events[n].exercise, last);
  }
}
