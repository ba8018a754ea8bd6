/**
 * The values the project analyzer works on: a construction work item, the
 * analyzer's crew configuration, and the duration estimate of one work.
 *
 * Dates are day offsets (`real`) from an arbitrary origin; amounts, labour
 * rates and durations are exact `real`s.
 */
module ProjectData {
  import opened Wrappers

  /** One construction work. `startDate` and `endDate` are absent until the
      scheduler sets them; every other field is fixed when the list is built. */
  datatype ConstructionWork = ConstructionWork(
    name: string,
    unit: string,
    amount: real,
    manHoursPerUnit: real,
    dependencies: seq<string>,
    startDate: Option<real>,
    endDate: Option<real>)
  {
    /** Total labour of the work, in man-hours. */
    function ManHours(): real {
      manHoursPerUnit * amount
    }

    /** Both dates have been assigned. */
    predicate IsScheduled() {
      startDate.Some? && endDate.Some?
    }
  }

  /** `w` and `v` are the same work up to their dates. */
  predicate SameWork(w: ConstructionWork, v: ConstructionWork) {
    w.name == v.name && w.unit == v.unit && w.amount == v.amount &&
    w.manHoursPerUnit == v.manHoursPerUnit && w.dependencies == v.dependencies
  }

  /** The analyzer's configuration: crew size and length of a workday. */
  datatype ProjectAnalyzer = ProjectAnalyzer(workersCount: int, workdayHours: int)

  /** The analyzer built with its default arguments. */
  const DefaultAnalyzer := ProjectAnalyzer(2, 8)

  /** Man-hours the whole crew delivers in one day; the divisor of the duration. */
  function CrewHours(a: ProjectAnalyzer): int {
    a.workdayHours * a.workersCount
  }

  /**
   * Calendar days needed for `w`: its total labour spread over the crew's
   * daily man-hours. A zero divisor raises in the script; callers must avoid it.
   */
  function CalculateDuration(a: ProjectAnalyzer, w: ConstructionWork): (d: real)
    requires CrewHours(a) != 0
    ensures d * CrewHours(a) as real == w.ManHours()
    ensures w.amount >= 0.0 && w.manHoursPerUnit >= 0.0 && CrewHours(a) > 0 ==> d >= 0.0
  {
    w.ManHours() / CrewHours(a) as real
  }

  /** Duration depends on the amount and the rate only, never on the dates. */
  lemma DurationIgnoresDates(a: ProjectAnalyzer, w: ConstructionWork, v: ConstructionWork)
    requires CrewHours(a) != 0 && SameWork(w, v)
    ensures CalculateDuration(a, w) == CalculateDuration(a, v)
  {
  }

  /** A freshly built work item with no dates yet. */
  function NewWork(name: string, unit: string, amount: real, manHours: real, deps: seq<string>): ConstructionWork {
    ConstructionWork(name, unit, amount, manHours, deps, None, None)
  }

  /** The fixed sample list the estimate extractor returns, in its order. */
  function ExtractFromEstimate(): (ws: seq<ConstructionWork>)
    ensures |ws| == 4
    ensures forall i :: 0 <= i < |ws| ==> ws[i].startDate.None? && ws[i].endDate.None?
    ensures forall i, j :: 0 <= i < |ws| && 0 <= j < |ws| ==> ws[i].name !in ws[j].dependencies
  {
    [ NewWork("Устройство асфальтового покрытия", "м2", 500.0, 2.4, []),
      NewWork("Установка скамеек", "шт", 15.0, 20.0, ["Подготовка территории"]),
      NewWork("Посадка деревьев", "шт", 30.0, 8.0, ["Устройство покрытия"]),
      NewWork("Монтаж освещения", "шт", 20.0, 12.0, ["Устройство покрытия"]) ]
  }

  /** With the default crew (2 workers, 8-hour days) the sample works take
      75, 18.75, 15 and 15 days. */
  lemma SampleDurations()
    ensures var ws := ExtractFromEstimate();
      CalculateDuration(DefaultAnalyzer, ws[0]) == 75.0 &&
      CalculateDuration(DefaultAnalyzer, ws[1]) == 18.75 &&
      CalculateDuration(DefaultAnalyzer, ws[2]) == 15.0 &&
      CalculateDuration(DefaultAnalyzer, ws[3]) == 15.0
  {
  }
}
