/**
 * The document-completeness analysis: a weighted score over a fixed catalog
 * of project documents, the list of missing documents in catalog order, and
 * canned advice for some of them.
 */
module Completeness {

  /** A catalog entry: the flag to look up, the document's label, its weight. */
  datatype Criterion = Criterion(key: string, document: string, weight: real)

  const TechnicalTask := "Техническое задание"
  const Estimate := "Смета с трудозатратами"
  const WorkSchedule := "График работ"
  const VisualPlans := "Визуальные планы"

  /** The fixed catalog, in the order the analysis visits it. */
  const Criteria: seq<Criterion> := [
    Criterion("has_technical_task", TechnicalTask, 1.0),
    Criterion("has_estimate", Estimate, 2.0),
    Criterion("has_schedule", WorkSchedule, 1.0),
    Criterion("has_visual_plans", VisualPlans, 0.5)]

  /** The divisor the analysis uses for the percentage. */
  const MaxScore: real := 4.0

  /** A flag counts as present only when it is in the map and true. */
  predicate Present(filesInfo: map<string, bool>, key: string) {
    key in filesInfo && filesInfo[key]
  }

  /** Sum of the weights of the criteria whose flag is present. */
  function Score(cs: seq<Criterion>, filesInfo: map<string, bool>): real
    decreases |cs|
  {
    if cs == [] then 0.0
    else
      var c := cs[|cs| - 1];
      Score(cs[..|cs| - 1], filesInfo) + (if Present(filesInfo, c.key) then c.weight else 0.0)
  }

  /** Labels of the criteria whose flag is absent or false, in catalog order. */
  function Missing(cs: seq<Criterion>, filesInfo: map<string, bool>): seq<string>
    decreases |cs|
  {
    if cs == [] then []
    else
      var c := cs[|cs| - 1];
      Missing(cs[..|cs| - 1], filesInfo) + (if Present(filesInfo, c.key) then [] else [c.document])
  }

  /** Sum of all the weights of a catalog. */
  function TotalWeight(cs: seq<Criterion>): real
    decreases |cs|
  {
    if cs == [] then 0.0 else TotalWeight(cs[..|cs| - 1]) + cs[|cs| - 1].weight
  }

  predicate AllPresent(cs: seq<Criterion>, filesInfo: map<string, bool>) {
    forall k :: 0 <= k < |cs| ==> Present(filesInfo, cs[k].key)
  }

  predicate NonePresent(cs: seq<Criterion>, filesInfo: map<string, bool>) {
    forall k :: 0 <= k < |cs| ==> !Present(filesInfo, cs[k].key)
  }

  predicate PositiveWeights(cs: seq<Criterion>) {
    forall k :: 0 <= k < |cs| ==> cs[k].weight > 0.0
  }

  /** A document label is missing exactly when some criterion with that
      label has no present flag. */
  lemma {:induction false} MissingIsAbsentLabels(cs: seq<Criterion>, filesInfo: map<string, bool>)
    ensures |Missing(cs, filesInfo)| <= |cs|
    ensures forall x :: x in Missing(cs, filesInfo) <==>
      exists k :: 0 <= k < |cs| && cs[k].document == x && !Present(filesInfo, cs[k].key)
  {
    if cs != [] {
      var front := cs[..|cs| - 1];
      MissingIsAbsentLabels(front, filesInfo);
      assert forall k :: 0 <= k < |front| ==> front[k] == cs[k];
    }
  }

  /** Nothing is missing exactly when every flag is present. */
  lemma {:induction false} MissingEmptyIffAllPresent(cs: seq<Criterion>, filesInfo: map<string, bool>)
    ensures Missing(cs, filesInfo) == [] <==> AllPresent(cs, filesInfo)
  {
    if cs != [] {
      var front := cs[..|cs| - 1];
      MissingEmptyIffAllPresent(front, filesInfo);
      assert forall k :: 0 <= k < |front| ==> front[k] == cs[k];
    }
  }

  /** With no flag present every document is missing, in catalog order. */
  lemma {:induction false} NonePresentMissesAll(cs: seq<Criterion>, filesInfo: map<string, bool>)
    requires NonePresent(cs, filesInfo)
    ensures |Missing(cs, filesInfo)| == |cs|
    ensures forall k :: 0 <= k < |cs| ==> Missing(cs, filesInfo)[k] == cs[k].document
  {
    if cs != [] {
      var front := cs[..|cs| - 1];
      assert forall k :: 0 <= k < |front| ==> front[k] == cs[k];
      NonePresentMissesAll(front, filesInfo);
    }
  }

  /** With non-negative weights the score lies between 0 and the total weight. */
  lemma {:induction false} ScoreBounds(cs: seq<Criterion>, filesInfo: map<string, bool>)
    requires forall k :: 0 <= k < |cs| ==> cs[k].weight >= 0.0
    ensures 0.0 <= Score(cs, filesInfo) <= TotalWeight(cs)
  {
    if cs != [] {
      var front := cs[..|cs| - 1];
      assert forall k :: 0 <= k < |front| ==> front[k] == cs[k];
      ScoreBounds(front, filesInfo);
    }
  }

  /** With positive weights the score reaches the total weight exactly when
      every flag is present, and is zero exactly when none is. */
  lemma {:induction false} ScoreExtremes(cs: seq<Criterion>, filesInfo: map<string, bool>)
    requires PositiveWeights(cs)
    ensures Score(cs, filesInfo) == TotalWeight(cs) <==> AllPresent(cs, filesInfo)
    ensures Score(cs, filesInfo) == 0.0 <==> NonePresent(cs, filesInfo)
  {
    if cs != [] {
      var front := cs[..|cs| - 1];
      assert forall k :: 0 <= k < |front| ==> front[k] == cs[k];
      ScoreExtremes(front, filesInfo);
      ScoreBounds(front, filesInfo);
    }
  }

  /** The catalog's weights are positive and sum to 4.5, not to `MaxScore`. */
  lemma CatalogWeights()
    ensures PositiveWeights(Criteria)
    ensures TotalWeight(Criteria) == 4.5
  {
    assert Criteria[..1][..0] == [];
    assert TotalWeight(Criteria[..1]) == 1.0;
    assert Criteria[..2][..1] == Criteria[..1];
    assert TotalWeight(Criteria[..2]) == 3.0;
    assert Criteria[..3][..2] == Criteria[..2];
    assert TotalWeight(Criteria[..3]) == 4.0;
    assert Criteria[..3] == Criteria[..|Criteria| - 1];
  }

  /** For the fixed catalog: the score adds 1, 2, 1 and 0.5 for the present
      flags, and the missing labels come in catalog order. */
  lemma CatalogSpelledOut(filesInfo: map<string, bool>)
    ensures Score(Criteria, filesInfo) ==
      (if Present(filesInfo, "has_technical_task") then 1.0 else 0.0) +
      (if Present(filesInfo, "has_estimate") then 2.0 else 0.0) +
      (if Present(filesInfo, "has_schedule") then 1.0 else 0.0) +
      (if Present(filesInfo, "has_visual_plans") then 0.5 else 0.0)
    ensures Missing(Criteria, filesInfo) ==
      (if Present(filesInfo, "has_technical_task") then [] else [TechnicalTask]) +
      (if Present(filesInfo, "has_estimate") then [] else [Estimate]) +
      (if Present(filesInfo, "has_schedule") then [] else [WorkSchedule]) +
      (if Present(filesInfo, "has_visual_plans") then [] else [VisualPlans])
  {
    var f := filesInfo;
    var t, e, w, v := Present(f, "has_technical_task"), Present(f, "has_estimate"),
                      Present(f, "has_schedule"), Present(f, "has_visual_plans");
    assert Criteria[..1][..0] == [];
    assert Score(Criteria[..1], f) == if t then 1.0 else 0.0;
    assert Missing(Criteria[..1], f) == if t then [] else [TechnicalTask];
    assert Criteria[..2][..1] == Criteria[..1];
    assert Score(Criteria[..2], f) == Score(Criteria[..1], f) + if e then 2.0 else 0.0;
    assert Missing(Criteria[..2], f) == Missing(Criteria[..1], f) + if e then [] else [Estimate];
    assert Criteria[..3][..2] == Criteria[..2];
    assert Score(Criteria[..3], f) == Score(Criteria[..2], f) + if w then 1.0 else 0.0;
    assert Missing(Criteria[..3], f) == Missing(Criteria[..2], f) + if w then [] else [WorkSchedule];
    assert Criteria[..3] == Criteria[..|Criteria| - 1];
  }

  /** What the analysis returns. */
  datatype CompletenessReport = CompletenessReport(
    completenessPercent: real,
    missingDocuments: seq<string>,
    recommendations: seq<string>)

  /** A piece of canned advice for a missing document. */
  datatype Advice = Advice(document: string, text: string)

  /** The advice table, in the order the recommendations are emitted. The
      visual plans have no entry. */
  const AdviceTable: seq<Advice> := [
    Advice(TechnicalTask, "Запросить ТЗ у заказчика или найти аналогичный проект"),
    Advice(Estimate, "Использовать средние трудозатраты по аналогичным работам"),
    Advice(WorkSchedule, "Восстановить график из сметы через расчёт трудозатрат")]

  /** The texts of the table entries whose document is in `missing`, in table order. */
  function AdviceFor(table: seq<Advice>, missing: seq<string>): (r: seq<string>)
    ensures |r| <= |table|
    ensures r == [] <==> forall k :: 0 <= k < |table| ==> table[k].document !in missing
    decreases |table|
  {
    if table == [] then []
    else (if table[0].document in missing then [table[0].text] else []) + AdviceFor(table[1..], missing)
  }

  /** The table's advice, spelled out: the technical-brief line if that
      document is missing, then the estimate line, then the schedule line. */
  lemma AdviceTableSpelledOut(missing: seq<string>)
    ensures AdviceFor(AdviceTable, missing) ==
      (if TechnicalTask in missing then [AdviceTable[0].text] else []) +
      (if Estimate in missing then [AdviceTable[1].text] else []) +
      (if WorkSchedule in missing then [AdviceTable[2].text] else [])
  {
    var t := AdviceTable;
    assert t[1..][1..][1..] == [];
    assert AdviceFor(t[1..][1..], missing) == if WorkSchedule in missing then [t[2].text] else [];
    assert AdviceFor(t[1..], missing) ==
      (if Estimate in missing then [t[1].text] else []) + AdviceFor(t[1..][1..], missing);
  }

  /** Advice depends only on which table labels are missing: other labels,
      repetitions and order in `missing` change nothing. */
  lemma {:induction false} AdviceDependsOnTableLabelsOnly(table: seq<Advice>, m1: seq<string>, m2: seq<string>)
    requires forall k :: 0 <= k < |table| ==> (table[k].document in m1 <==> table[k].document in m2)
    ensures AdviceFor(table, m1) == AdviceFor(table, m2)
  {
    if table != [] {
      AdviceDependsOnTableLabelsOnly(table[1..], m1, m2);
    }
  }

  /** A missing visual plan produces no advice line. */
  lemma VisualPlansGetNoAdvice(missing: seq<string>)
    ensures AdviceFor(AdviceTable, missing + [VisualPlans]) == AdviceFor(AdviceTable, missing)
  {
    AdviceDependsOnTableLabelsOnly(AdviceTable, missing + [VisualPlans], missing);
  }

  /**
   * The advice for the missing documents: one line for each of the technical
   * brief, the estimate and the work schedule that is in `missing`, in that order.
   */
  method GenerateRecommendations(missing: seq<string>) returns (recommendations: seq<string>)
    ensures recommendations == AdviceFor(AdviceTable, missing)
    ensures |recommendations| <= 3
  {
    AdviceTableSpelledOut(missing);
    recommendations := [];
    if TechnicalTask in missing {
      recommendations := recommendations + ["Запросить ТЗ у заказчика или найти аналогичный проект"];
    }
    if Estimate in missing {
      recommendations := recommendations + ["Использовать средние трудозатраты по аналогичным работам"];
    }
    if WorkSchedule in missing {
      recommendations := recommendations + ["Восстановить график из сметы через расчёт трудозатрат"];
    }
  }

  /** The report the analysis produces for `filesInfo`. */
  function ReportFor(filesInfo: map<string, bool>): CompletenessReport {
    var missing := Missing(Criteria, filesInfo);
    CompletenessReport(Score(Criteria, filesInfo) / MaxScore * 100.0, missing, AdviceFor(AdviceTable, missing))
  }

  /**
   * The analysis: visit the catalog in order, add the weight of every present
   * flag to the score and record the document of every absent one, then divide
   * the score by `MaxScore`.
   */
  method AnalyzeProjectCompleteness(filesInfo: map<string, bool>) returns (report: CompletenessReport)
    ensures report == ReportFor(filesInfo)
  {
    var completenessScore := 0.0;
    var missingDocs := [];
    var i := 0;
    while i < |Criteria|
      invariant 0 <= i <= |Criteria|
      invariant completenessScore == Score(Criteria[..i], filesInfo)
      invariant missingDocs == Missing(Criteria[..i], filesInfo)
    {
      var c := Criteria[i];
      if c.key in filesInfo && filesInfo[c.key] {
        completenessScore := completenessScore + c.weight;
      } else {
        missingDocs := missingDocs + [c.document];
      }
      assert Criteria[..i + 1][..i] == Criteria[..i];
      i := i + 1;
    }
    assert Criteria[..i] == Criteria;
    var recommendations := GenerateRecommendations(missingDocs);
    report := CompletenessReport(completenessScore / MaxScore * 100.0, missingDocs, recommendations);
  }

  /** Every catalog flag false (or absent): 0 percent, all four labels
      missing, and three advice lines. */
  lemma NothingPresentReport(filesInfo: map<string, bool>)
    requires NonePresent(Criteria, filesInfo)
    ensures ReportFor(filesInfo).completenessPercent == 0.0
    ensures ReportFor(filesInfo).missingDocuments == [TechnicalTask, Estimate, WorkSchedule, VisualPlans]
    ensures ReportFor(filesInfo).recommendations == [AdviceTable[0].text, AdviceTable[1].text, AdviceTable[2].text]
  {
    CatalogWeights();
    ScoreExtremes(Criteria, filesInfo);
    NonePresentMissesAll(Criteria, filesInfo);
    AdviceTableSpelledOut(ReportFor(filesInfo).missingDocuments);
  }

  /** Every catalog flag true: 112.5 percent, nothing missing, no advice. */
  lemma EverythingPresentReport(filesInfo: map<string, bool>)
    requires AllPresent(Criteria, filesInfo)
    ensures ReportFor(filesInfo).completenessPercent == 112.5
    ensures ReportFor(filesInfo).missingDocuments == []
    ensures ReportFor(filesInfo).recommendations == []
  {
    CatalogWeights();
    ScoreExtremes(Criteria, filesInfo);
    MissingEmptyIffAllPresent(Criteria, filesInfo);
  }

  /**
   * As written, the percentage ranges over [0, 112.5] and exceeds 100
   * exactly when every document is present, since the weights sum to 4.5
   * while the divisor is 4.
   */
  lemma PercentCanExceedHundred(filesInfo: map<string, bool>)
    ensures 0.0 <= ReportFor(filesInfo).completenessPercent <= 112.5
    ensures ReportFor(filesInfo).completenessPercent > 100.0 <==> AllPresent(Criteria, filesInfo)
  {
    CatalogWeights();
    ScoreBounds(Criteria, filesInfo);
    ScoreExtremes(Criteria, filesInfo);
    if !AllPresent(Criteria, filesInfo) {
      var k :| 0 <= k < |Criteria| && !Present(filesInfo, Criteria[k].key);
      ScoreWithoutOne(Criteria, filesInfo, k);
    }
  }

  /** Leaving out one present flag lowers the score by at least that weight. */
  lemma {:induction false} ScoreWithoutOne(cs: seq<Criterion>, filesInfo: map<string, bool>, k: nat)
    requires k < |cs| && !Present(filesInfo, cs[k].key)
    requires forall j :: 0 <= j < |cs| ==> cs[j].weight >= 0.0
    ensures Score(cs, filesInfo) <= TotalWeight(cs) - cs[k].weight
  {
    var front := cs[..|cs| - 1];
    assert forall j :: 0 <= j < |front| ==> front[j] == cs[j];
    if k < |cs| - 1 {
      ScoreWithoutOne(front, filesInfo, k);
    } else {
      ScoreBounds(front, filesInfo);
    }
  }

  /** The percentage with the divisor derived from the catalog. */
  function CorrectedPercent(filesInfo: map<string, bool>): real {
    assert TotalWeight(Criteria) != 0.0 by { CatalogWeights(); }
    Score(Criteria, filesInfo) / TotalWeight(Criteria) * 100.0
  }

  /** With the derived divisor the percentage stays within [0, 100], is 100
      exactly when everything is present and 0 exactly when nothing is. */
  lemma CorrectedPercentInRange(filesInfo: map<string, bool>)
    ensures 0.0 <= CorrectedPercent(filesInfo) <= 100.0
    ensures CorrectedPercent(filesInfo) == 100.0 <==> AllPresent(Criteria, filesInfo)
    ensures CorrectedPercent(filesInfo) == 0.0 <==> NonePresent(Criteria, filesInfo)
  {
    CatalogWeights();
    ScoreBounds(Criteria, filesInfo);
    ScoreExtremes(Criteria, filesInfo);
  }

  /** In the report, the advice line of each of the first three catalog
      documents appears exactly when that document's flag is not present. */
  lemma AdviceFollowsFlags(filesInfo: map<string, bool>, k: nat)
    requires k < 3
    ensures AdviceTable[k].text in ReportFor(filesInfo).recommendations <==> !Present(filesInfo, Criteria[k].key)
  {
    var missing := Missing(Criteria, filesInfo);
    MissingIsAbsentLabels(Criteria, filesInfo);
    AdviceTableSpelledOut(missing);
    assert AdviceTable[k].document == Criteria[k].document;
    assert Criteria[k].document in missing <==> !Present(filesInfo, Criteria[k].key) by {
      if Criteria[k].document in missing {
        var j :| 0 <= j < |Criteria| && Criteria[j].document == Criteria[k].document && !Present(filesInfo, Criteria[j].key);
        assert j == k;
      }
    }
  }
}
