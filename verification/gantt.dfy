/**
 * The Gantt chart builder: the in-place scheduling pass over the list of
 * works, and the projection of the scheduled works into table rows.
 */
module Gantt {
  import opened Wrappers
  import opened ProjectData
  import opened GanttSpec

  /** Why building the chart can fail: the crew's daily man-hours are zero. */
  datatype GanttError = ZeroDivision

  /**
   * One row of the chart. The amount and unit are kept apart (the script
   * prints them together), and the dates are day offsets, not formatted text.
   */
  datatype GanttRow = GanttRow(
    work: string,
    amount: real,
    unit: string,
    manHours: real,
    durationDays: int,
    start: real,
    end: real,
    dependencies: string)

  /** The dependency names joined with ", ". */
  function JoinNames(deps: seq<string>): (r: string)
    requires deps != []
    ensures |deps| == 1 ==> r == deps[0]
    decreases |deps|
  {
    if |deps| == 1 then deps[0]
    else JoinNames(deps[..|deps| - 1]) + ", " + deps[|deps| - 1]
  }

  /** The joined column begins with the first name and ends with the last. */
  lemma {:induction false} JoinNamesEnds(deps: seq<string>)
    requires deps != []
    ensures deps[0] <= JoinNames(deps)
    ensures var r, last := JoinNames(deps), deps[|deps| - 1];
      |r| >= |last| && r[|r| - |last|..] == last
    decreases |deps|
  {
    if |deps| > 1 {
      var front := deps[..|deps| - 1];
      assert front[0] == deps[0];
      JoinNamesEnds(front);
    }
  }

  /** Joining two lists back to back puts ", " between their joins. */
  lemma {:induction false} JoinNamesConcat(xs: seq<string>, ys: seq<string>)
    requires xs != [] && ys != []
    ensures JoinNames(xs + ys) == JoinNames(xs) + ", " + JoinNames(ys)
    decreases |ys|
  {
    var zs := xs + ys;
    var last := ys[|ys| - 1];
    assert zs[|zs| - 1] == last;
    if |ys| == 1 {
      assert zs[..|zs| - 1] == xs;
    } else {
      var front := ys[..|ys| - 1];
      assert zs[..|zs| - 1] == xs + front;
      JoinNamesConcat(xs, front);
      var jx, jf := JoinNames(xs), JoinNames(front);
      assert JoinNames(zs) == JoinNames(xs + front) + ", " + last;
      assert JoinNames(ys) == jf + ", " + last;
      assert jx + ", " + jf + ", " + last == jx + ", " + (jf + ", " + last);
    }
  }

  /** The dependency column: the joined names, or "Нет" ("none") when empty. */
  function DependencyColumn(deps: seq<string>): (r: string)
    ensures deps == [] ==> r == "Нет"
    ensures deps != [] ==> r == JoinNames(deps)
  {
    if deps == [] then "Нет" else JoinNames(deps)
  }

  /** The chart row of a scheduled work. Its duration column is the whole
      number of days between start and end, rounded down. */
  function Row(w: ConstructionWork): (row: GanttRow)
    requires w.IsScheduled()
    ensures row.durationDays as real <= w.endDate.value - w.startDate.value < row.durationDays as real + 1.0
  {
    GanttRow(w.name, w.amount, w.unit, w.ManHours(),
             (w.endDate.value - w.startDate.value).Floor,
             w.startDate.value, w.endDate.value, DependencyColumn(w.dependencies))
  }

  /** The row of a scheduled work reports its name, its labour, and its
      duration rounded down to whole days. */
  lemma ScheduledRow(ws: seq<ConstructionWork>, s: real, a: ProjectAnalyzer, i: nat)
    requires i < |ws| && CrewHours(a) != 0
    ensures Schedule(ws, s, a)[i].IsScheduled()
    ensures var row := Row(Schedule(ws, s, a)[i]);
      var d := CalculateDuration(a, ws[i]);
      row.work == ws[i].name && row.manHours == ws[i].manHoursPerUnit * ws[i].amount &&
      row.durationDays as real <= d < row.durationDays as real + 1.0
  {
    EveryWorkScheduled(ws, s, a, i);
    ScheduleKeepsWorks(ws, s, a);
  }

  /** The inner scan for one dependency name: `acc` raised to the end of
      every work called `name` whose end is set. */
  method ScanForName(works: array<ConstructionWork>, name: string, acc: real) returns (maxEndDate: real)
    ensures maxEndDate == ScanWorks(acc, name, works[..])
  {
    maxEndDate := acc;
    var j := 0;
    while j < works.Length
      invariant 0 <= j <= works.Length
      invariant maxEndDate == ScanWorks(acc, name, works[..j])
    {
      var depWork := works[j];
      if depWork.name == name && depWork.endDate.Some? {
        maxEndDate := Max(maxEndDate, depWork.endDate.value);
      }
      assert works[..j + 1][..j] == works[..j];
      j := j + 1;
    }
    assert works[..j] == works[..];
  }

  /** The dependency scan of a work: the latest end among the works named by
      `deps` whose end is set, starting from `startDate`. */
  method LatestDependencyEnd(works: array<ConstructionWork>, deps: seq<string>, startDate: real) returns (maxEndDate: real)
    ensures maxEndDate == LatestEnd(works[..], deps, startDate)
  {
    maxEndDate := startDate;
    var k := 0;
    while k < |deps|
      invariant 0 <= k <= |deps|
      invariant maxEndDate == LatestEnd(works[..], deps[..k], startDate)
    {
      maxEndDate := ScanForName(works, deps[k], maxEndDate);
      assert deps[..k + 1][..k] == deps[..k];
      k := k + 1;
    }
    assert deps[..k] == deps;
  }

  /**
   * The scheduling pass. Each work in turn gets the tentative dates
   * `[startDate, startDate + d)`; a work with dependencies is then moved to
   * the latest end, seen in the list as it stands, of the works its
   * dependencies name (never earlier than `startDate`).
   */
  method SchedulePass(a: ProjectAnalyzer, works: array<ConstructionWork>, startDate: real)
    requires CrewHours(a) != 0
    modifies works
    ensures works[..] == Schedule(old(works[..]), startDate, a)
  {
    ghost var original := works[..];
    var i := 0;
    while i < works.Length
      invariant 0 <= i <= works.Length
      invariant works[..] == ScheduledPrefix(original, startDate, a, i)
    {
      ghost var before := works[..];
      var work := works[i];
      var workDuration := CalculateDuration(a, work);
      works[i] := Placed(work, startDate, workDuration);
      if work.dependencies != [] {
        var maxEndDate := LatestDependencyEnd(works, work.dependencies, startDate);
        works[i] := Placed(work, maxEndDate, workDuration);
      }
      assert works[..] == Step(before, i, startDate, a);
      i := i + 1;
    }
  }

  /** The chart rows, one per work, in list order. */
  method GanttRows(works: array<ConstructionWork>) returns (rows: seq<GanttRow>)
    requires forall i :: 0 <= i < works.Length ==> works[i].IsScheduled()
    ensures |rows| == works.Length
    ensures forall i :: 0 <= i < works.Length ==> rows[i] == Row(works[i])
  {
    rows := [];
    var i := 0;
    while i < works.Length
      invariant 0 <= i <= works.Length
      invariant |rows| == i
      invariant forall k :: 0 <= k < i ==> rows[k] == Row(works[k])
    {
      rows := rows + [Row(works[i])];
      i := i + 1;
    }
  }

  /**
   * Schedules the works in place from `startDate` and returns the chart
   * rows. With a non-empty list and zero daily crew man-hours the duration
   * of the first work divides by zero before anything is written.
   */
  method CreateGanttChart(a: ProjectAnalyzer, works: array<ConstructionWork>, startDate: real)
    returns (result: Result<seq<GanttRow>, GanttError>)
    modifies works
    ensures result.Failure? <==> CrewHours(a) == 0 && works.Length > 0
    ensures result.Failure? ==> works[..] == old(works[..])
    ensures CrewHours(a) != 0 ==> works[..] == Schedule(old(works[..]), startDate, a)
    ensures result.Success? ==>
      |result.value| == works.Length &&
      forall i :: 0 <= i < works.Length ==> works[i].IsScheduled() && result.value[i] == Row(works[i])
  {
    if works.Length == 0 {
      return Success([]);
    }
    if CrewHours(a) == 0 {
      return Failure(ZeroDivision);
    }
    ghost var original := works[..];
    SchedulePass(a, works, startDate);
    forall i | 0 <= i < works.Length ensures works[i].IsScheduled() {
      EveryWorkScheduled(original, startDate, a, i);
    }
    var rows := GanttRows(works);
    return Success(rows);
  }
}
