/**
 * What one forward pass of the Gantt scheduler computes, as functions on the
 * list of works, and what is proved about it.
 *
 * The pass visits the works in list order. Work `i` first gets the tentative
 * dates `[start, start + d)`. If it names dependencies, the pass then looks at
 * the list AS IT IS AT THAT MOMENT: works before `i` carry their final dates,
 * work `i` carries its tentative dates, and works after `i` carry whatever they
 * held before the pass (nothing, in a freshly built list). The new start is
 * the latest end among the works whose name is a dependency and whose end is
 * set, and never earlier than the project start.
 */
module GanttSpec {
  import opened Wrappers
  import opened ProjectData

  function Max(x: real, y: real): real {
    if x >= y then x else y
  }

  /** `w` is a work whose end date the dependency scan of `deps` picks up. */
  predicate Contributes(w: ConstructionWork, deps: seq<string>) {
    w.name in deps && w.endDate.Some?
  }

  /**
   * The inner scan over the list for one dependency name: `acc` raised to
   * every set end of a work called `name`. It is the maximum of `acc` and
   * those ends: an upper bound of all of them, and equal to one of them.
   */
  function ScanWorks(acc: real, name: string, ws: seq<ConstructionWork>): (m: real)
    ensures m >= acc
    ensures forall j :: 0 <= j < |ws| && ws[j].name == name && ws[j].endDate.Some? ==> m >= ws[j].endDate.value
    ensures m == acc || exists j :: 0 <= j < |ws| && ws[j].name == name && ws[j].endDate.Some? && m == ws[j].endDate.value
    decreases |ws|
  {
    if ws == [] then acc
    else
      var init := ws[..|ws| - 1];
      var w := ws[|ws| - 1];
      var m := ScanWorks(acc, name, init);
      assert forall j :: 0 <= j < |init| ==> init[j] == ws[j];
      if w.name == name && w.endDate.Some? then Max(m, w.endDate.value) else m
  }

  /**
   * The whole dependency scan: the latest end among the works that
   * contribute to `deps`, seeded with the project start `s`.
   */
  function LatestEnd(ws: seq<ConstructionWork>, deps: seq<string>, s: real): (m: real)
    ensures m >= s
    ensures forall j :: 0 <= j < |ws| && Contributes(ws[j], deps) ==> m >= ws[j].endDate.value
    ensures m == s || exists j :: 0 <= j < |ws| && Contributes(ws[j], deps) && m == ws[j].endDate.value
    decreases |deps|
  {
    if deps == [] then s
    else
      var front := deps[..|deps| - 1];
      var last := deps[|deps| - 1];
      assert deps == front + [last];
      assert forall x :: x in deps <==> x in front || x == last;
      ScanWorks(LatestEnd(ws, front, s), last, ws)
  }

  /** The work `w` with its dates set to start at `t` and last `d` days. */
  function Placed(w: ConstructionWork, t: real, d: real): ConstructionWork {
    w.(startDate := Some(t), endDate := Some(t + d))
  }

  /** The list after the pass has handled position `i`. */
  function Step(ws: seq<ConstructionWork>, i: nat, s: real, a: ProjectAnalyzer): (r: seq<ConstructionWork>)
    requires i < |ws| && CrewHours(a) != 0
    ensures |r| == |ws|
    ensures forall j :: 0 <= j < |ws| && j != i ==> r[j] == ws[j]
    ensures SameWork(r[i], ws[i]) && r[i].IsScheduled()
  {
    var d := CalculateDuration(a, ws[i]);
    var tentative := ws[i := Placed(ws[i], s, d)];
    if ws[i].dependencies == [] then tentative
    else tentative[i := Placed(ws[i], LatestEnd(tentative, ws[i].dependencies, s), d)]
  }

  /** The list after the pass has handled its first `n` positions. */
  function ScheduledPrefix(ws: seq<ConstructionWork>, s: real, a: ProjectAnalyzer, n: nat): (r: seq<ConstructionWork>)
    requires n <= |ws| && CrewHours(a) != 0
    ensures |r| == |ws|
  {
    if n == 0 then ws else Step(ScheduledPrefix(ws, s, a, n - 1), n - 1, s, a)
  }

  /** The list after the whole pass, from project start `s`. */
  function Schedule(ws: seq<ConstructionWork>, s: real, a: ProjectAnalyzer): (r: seq<ConstructionWork>)
    requires CrewHours(a) != 0
    ensures |r| == |ws|
  {
    ScheduledPrefix(ws, s, a, |ws|)
  }

  /**
   * Handling `n` positions keeps the list's length and every work's
   * non-date fields, leaves the positions from `n` on as they were, and
   * leaves each handled position as it was when it was handled.
   */
  lemma {:induction false} ScheduledPrefixFrame(ws: seq<ConstructionWork>, s: real, a: ProjectAnalyzer, n: nat)
    requires n <= |ws| && CrewHours(a) != 0
    ensures |ScheduledPrefix(ws, s, a, n)| == |ws|
    ensures forall j :: 0 <= j < |ws| ==> SameWork(ScheduledPrefix(ws, s, a, n)[j], ws[j])
    ensures forall j :: n <= j < |ws| ==> ScheduledPrefix(ws, s, a, n)[j] == ws[j]
  {
    if n > 0 {
      ScheduledPrefixFrame(ws, s, a, n - 1);
    }
  }

  /** Positions already handled are not touched again by later steps. */
  lemma {:induction false} HandledPositionsAreFinal(ws: seq<ConstructionWork>, s: real, a: ProjectAnalyzer, n: nat, m: nat)
    requires n <= m <= |ws| && CrewHours(a) != 0
    ensures |ScheduledPrefix(ws, s, a, m)| == |ScheduledPrefix(ws, s, a, n)| == |ws|
    ensures forall j :: 0 <= j < n ==> ScheduledPrefix(ws, s, a, m)[j] == ScheduledPrefix(ws, s, a, n)[j]
  {
    ScheduledPrefixFrame(ws, s, a, n);
    if m > n {
      HandledPositionsAreFinal(ws, s, a, n, m - 1);
      ScheduledPrefixFrame(ws, s, a, m - 1);
    }
  }

  /** Scheduling keeps the list's length, order and every non-date field. */
  lemma ScheduleKeepsWorks(ws: seq<ConstructionWork>, s: real, a: ProjectAnalyzer)
    requires CrewHours(a) != 0
    ensures |Schedule(ws, s, a)| == |ws|
    ensures forall j :: 0 <= j < |ws| ==> SameWork(Schedule(ws, s, a)[j], ws[j])
  {
    ScheduledPrefixFrame(ws, s, a, |ws|);
  }

  /**
   * The list the dependency scan of work `i` sees: final works before `i`,
   * work `i` with its tentative dates, untouched works after `i`.
   */
  function ViewAt(ws: seq<ConstructionWork>, r: seq<ConstructionWork>, i: nat, s: real, a: ProjectAnalyzer): seq<ConstructionWork>
    requires i < |ws| && i <= |r| && CrewHours(a) != 0
  {
    r[..i] + [Placed(ws[i], s, CalculateDuration(a, ws[i]))] + ws[i + 1..]
  }

  /**
   * The rule behind every start date: work `i` ends its own duration after
   * it starts, and starts at the project start when it has no dependencies,
   * else at the latest end its dependency scan sees in `ViewAt`.
   */
  lemma StartRule(ws: seq<ConstructionWork>, s: real, a: ProjectAnalyzer, i: nat)
    requires i < |ws| && CrewHours(a) != 0
    ensures |Schedule(ws, s, a)| == |ws|
    ensures var r := Schedule(ws, s, a);
      var start := if ws[i].dependencies == [] then s else LatestEnd(ViewAt(ws, r, i, s, a), ws[i].dependencies, s);
      r[i] == Placed(ws[i], start, CalculateDuration(a, ws[i]))
  {
    var r := Schedule(ws, s, a);
    var before := ScheduledPrefix(ws, s, a, i);
    ScheduledPrefixFrame(ws, s, a, i);
    HandledPositionsAreFinal(ws, s, a, i, |ws|);
    HandledPositionsAreFinal(ws, s, a, i + 1, |ws|);
    DurationIgnoresDates(a, before[i], ws[i]);
    assert before[i] == ws[i];
    var d := CalculateDuration(a, ws[i]);
    var tentative := before[i := Placed(ws[i], s, d)];
    assert tentative == ViewAt(ws, r, i, s, a);
    assert ScheduledPrefix(ws, s, a, i + 1) == Step(before, i, s, a);
  }

  /**
   * After the pass every work has both dates, ends its own duration after it
   * starts, starts no earlier than the project start, and starts exactly at
   * the project start when it has no dependencies.
   */
  lemma EveryWorkScheduled(ws: seq<ConstructionWork>, s: real, a: ProjectAnalyzer, i: nat)
    requires i < |ws| && CrewHours(a) != 0
    ensures |Schedule(ws, s, a)| == |ws|
    ensures var w := Schedule(ws, s, a)[i];
      && w.IsScheduled()
      && w.endDate.value == w.startDate.value + CalculateDuration(a, ws[i])
      && w.startDate.value >= s
      && (ws[i].dependencies == [] ==> w.startDate.value == s)
  {
    StartRule(ws, s, a, i);
  }

  /** A dependency that precedes its dependent in the list is respected:
      the dependent starts no earlier than the dependency ends. */
  lemma PrecedingDependencyRespected(ws: seq<ConstructionWork>, s: real, a: ProjectAnalyzer, j: nat, i: nat)
    requires j < i < |ws| && CrewHours(a) != 0
    requires ws[j].name in ws[i].dependencies
    ensures |Schedule(ws, s, a)| == |ws|
    ensures Schedule(ws, s, a)[i].IsScheduled() && Schedule(ws, s, a)[j].IsScheduled()
    ensures Schedule(ws, s, a)[i].startDate.value >= Schedule(ws, s, a)[j].endDate.value
  {
    var r := Schedule(ws, s, a);
    StartRule(ws, s, a, i);
    StartRule(ws, s, a, j);
    var v := ViewAt(ws, r, i, s, a);
    assert v[j] == r[j];
    assert Contributes(v[j], ws[i].dependencies);
  }

  /** A work that names itself as a dependency sees its own tentative end,
      so it starts at least its own duration after the project start. */
  lemma SelfReferenceShiftsStart(ws: seq<ConstructionWork>, s: real, a: ProjectAnalyzer, i: nat)
    requires i < |ws| && CrewHours(a) != 0
    requires ws[i].name in ws[i].dependencies
    ensures |Schedule(ws, s, a)| == |ws|
    ensures Schedule(ws, s, a)[i].IsScheduled()
    ensures Schedule(ws, s, a)[i].startDate.value >= s + CalculateDuration(a, ws[i])
  {
    var r := Schedule(ws, s, a);
    StartRule(ws, s, a, i);
    var v := ViewAt(ws, r, i, s, a);
    assert v[i] == Placed(ws[i], s, CalculateDuration(a, ws[i]));
    assert Contributes(v[i], ws[i].dependencies);
  }

  /** A later work's end date left from before the pass is still visible to
      the scan, so a dependent starts no earlier than that stale end. */
  lemma StaleEndVisible(ws: seq<ConstructionWork>, s: real, a: ProjectAnalyzer, i: nat, j: nat)
    requires i < j < |ws| && CrewHours(a) != 0
    requires ws[j].name in ws[i].dependencies && ws[j].endDate.Some?
    ensures |Schedule(ws, s, a)| == |ws|
    ensures Schedule(ws, s, a)[i].IsScheduled()
    ensures Schedule(ws, s, a)[i].startDate.value >= ws[j].endDate.value
  {
    var r := Schedule(ws, s, a);
    StartRule(ws, s, a, i);
    var v := ViewAt(ws, r, i, s, a);
    assert v[j] == ws[j];
    assert Contributes(v[j], ws[i].dependencies);
  }

  /** The list was freshly built: no work has an end date yet. */
  predicate Fresh(ws: seq<ConstructionWork>) {
    forall j :: 0 <= j < |ws| ==> ws[j].endDate.None?
  }

  /** Works without an end date add nothing to a dependency scan. */
  lemma {:induction false} UnfinishedSuffixIgnored(xs: seq<ConstructionWork>, ys: seq<ConstructionWork>, deps: seq<string>, s: real)
    requires forall j :: 0 <= j < |ys| ==> ys[j].endDate.None?
    ensures LatestEnd(xs + ys, deps, s) == LatestEnd(xs, deps, s)
  {
    var m, n := LatestEnd(xs + ys, deps, s), LatestEnd(xs, deps, s);
    forall j | 0 <= j < |xs| ensures (xs + ys)[j] == xs[j] { }
    forall j | |xs| <= j < |xs + ys| ensures !Contributes((xs + ys)[j], deps) {
      assert (xs + ys)[j] == ys[j - |xs|];
    }
    if m != s {
      var j :| 0 <= j < |xs + ys| && Contributes((xs + ys)[j], deps) && m == (xs + ys)[j].endDate.value;
      assert m <= n;
    }
    if n != s {
      var j :| 0 <= j < |xs| && Contributes(xs[j], deps) && n == xs[j].endDate.value;
      assert Contributes((xs + ys)[j], deps);
    }
  }

  /**
   * In a freshly built list, works after `i` contribute nothing to its start:
   * only earlier works (with their final dates) and work `i` itself (with
   * its tentative dates) can move it.
   */
  lemma FreshListIgnoresLaterWorks(ws: seq<ConstructionWork>, s: real, a: ProjectAnalyzer, i: nat)
    requires i < |ws| && CrewHours(a) != 0 && Fresh(ws)
    requires ws[i].dependencies != []
    ensures |Schedule(ws, s, a)| == |ws|
    ensures Schedule(ws, s, a)[i].IsScheduled()
    ensures var r := Schedule(ws, s, a);
      r[i].startDate.value == LatestEnd(r[..i] + [Placed(ws[i], s, CalculateDuration(a, ws[i]))], ws[i].dependencies, s)
  {
    var r := Schedule(ws, s, a);
    StartRule(ws, s, a, i);
    var xs := r[..i] + [Placed(ws[i], s, CalculateDuration(a, ws[i]))];
    var ys := ws[i + 1..];
    assert forall j :: 0 <= j < |ys| ==> ys[j] == ws[i + 1 + j];
    UnfinishedSuffixIgnored(xs, ys, ws[i].dependencies, s);
  }

  /**
   * If no work that the dependency scan of `i` sees (earlier works as
   * scheduled, `i` itself, later works as they were) both matches a
   * dependency name and has an end, work `i` starts at the project start.
   */
  lemma NoContributorStartsAtProjectStart(ws: seq<ConstructionWork>, s: real, a: ProjectAnalyzer, i: nat)
    requires i < |ws| && CrewHours(a) != 0
    requires ws[i].name !in ws[i].dependencies
    requires forall k :: 0 <= k < i ==> !Contributes(Schedule(ws, s, a)[k], ws[i].dependencies)
    requires forall k :: i < k < |ws| ==> !Contributes(ws[k], ws[i].dependencies)
    ensures Schedule(ws, s, a)[i].startDate == Some(s)
  {
    var r := Schedule(ws, s, a);
    StartRule(ws, s, a, i);
    if ws[i].dependencies != [] {
      var v := ViewAt(ws, r, i, s, a);
      forall j | 0 <= j < |v| ensures !Contributes(v[j], ws[i].dependencies) {
        if j < i {
          assert v[j] == r[j];
        } else if j > i {
          assert v[j] == ws[j];
        }
      }
    }
  }

  /**
   * In a freshly built list a work none of whose dependency names belongs to
   * it or to an earlier work (an unknown name, or one that only appears
   * later) starts at the project start.
   */
  lemma FreshListUnresolvedDepsStartAtProjectStart(ws: seq<ConstructionWork>, s: real, a: ProjectAnalyzer, i: nat)
    requires i < |ws| && CrewHours(a) != 0 && Fresh(ws)
    requires forall k :: 0 <= k <= i ==> ws[k].name !in ws[i].dependencies
    ensures |Schedule(ws, s, a)| == |ws|
    ensures Schedule(ws, s, a)[i].startDate == Some(s)
  {
    ScheduleKeepsWorks(ws, s, a);
    NoContributorStartsAtProjectStart(ws, s, a, i);
  }

  /** Names that appear in no work of the list are ignored: if no work
      carries any of `i`'s dependency names, `i` starts at the project start. */
  lemma UnknownDependenciesIgnored(ws: seq<ConstructionWork>, s: real, a: ProjectAnalyzer, i: nat)
    requires i < |ws| && CrewHours(a) != 0
    requires forall k :: 0 <= k < |ws| ==> ws[k].name !in ws[i].dependencies
    ensures |Schedule(ws, s, a)| == |ws|
    ensures Schedule(ws, s, a)[i].startDate == Some(s)
  {
    ScheduleKeepsWorks(ws, s, a);
    NoContributorStartsAtProjectStart(ws, s, a, i);
  }

  /**
   * The sample list from the estimate: none of its dependency names is the
   * name of a work, so with the default crew every work starts at the project
   * start and ends 75, 18.75, 15 and 15 days later.
   */
  lemma SampleEstimateSchedule(s: real)
    ensures var r := Schedule(ExtractFromEstimate(), s, DefaultAnalyzer);
      |r| == 4 &&
      (forall i :: 0 <= i < 4 ==> r[i].startDate == Some(s)) &&
      r[0].endDate == Some(s + 75.0) && r[1].endDate == Some(s + 18.75) &&
      r[2].endDate == Some(s + 15.0) && r[3].endDate == Some(s + 15.0)
  {
    var ws := ExtractFromEstimate();
    forall i | 0 <= i < 4
      ensures Schedule(ws, s, DefaultAnalyzer)[i].startDate == Some(s)
      ensures Schedule(ws, s, DefaultAnalyzer)[i].endDate == Some(s + CalculateDuration(DefaultAnalyzer, ws[i]))
    {
      UnknownDependenciesIgnored(ws, s, DefaultAnalyzer, i);
      EveryWorkScheduled(ws, s, DefaultAnalyzer, i);
    }
    SampleDurations();
  }
}
