# Landscaping project analyzer — a Dafny model

This project models the analysis core of a demonstration script for
landscaping (urban improvement) construction projects. The script's
`ProjectAnalyzer` does three independent things:

- **Duration estimate.** A work's total labour (`man_hours_per_unit * amount`)
  is divided by the crew's daily man-hours (`workday_hours * workers_count`)
  to give calendar days.
- **Gantt chart.** One forward pass over the list of works, in the caller's
  order, sets each work's start and end dates in place. A work with
  dependencies starts at the latest end date, set at that moment, of the
  works its dependency names match, and never before the project start.
  Then one chart row per work is built.
- **Document completeness.** A fixed catalog of four documents, weighted
  1, 2, 1 and 0.5, gives a score, the list of missing documents, and up to
  three fixed recommendation lines.

Modules:

- `Wrappers` (`wrappers.dfy`): `Option` and `Result`.
- `ProjectData` (`project_data.dfy`): the `ConstructionWork` record, the analyzer's
  crew configuration, the duration estimate, and the sample work list.
- `GanttSpec` (`gantt_spec.dfy`): the scheduling pass as functions on the list.
  Lemmas state what the pass guarantees.
- `Gantt` (`gantt.dfy`): the pass as an in-place method over an
  `array<ConstructionWork>`, and the chart rows.
- `Completeness` (`completeness.dfy`): the completeness analysis and its recommendations.

Representation:

- Dates are `real` day offsets from an arbitrary origin.
- A work's start and end are `Option<real>`, absent until scheduled.
- Amounts, labour rates and durations are exact `real`s.
- Document flags are a `map<string, bool>`. A key missing from the map counts as false.

## Model

| member | source | states |
|---|---|---|
| `ProjectData.CalculateDuration` | code_example.py:35-38 | The duration times the crew's daily man-hours equals the work's total man-hours (rate × amount). It is non-negative when amount and rate are non-negative and the crew-hours positive. A zero divisor is excluded; the chart models it as an error. |
| `GanttSpec.ScanWorks` | code_example.py:87-89 | The scan of the list for one dependency name is the maximum of the running value and the set end dates of works with that name: an upper bound of all of them, and equal to one of them. |
| `GanttSpec.LatestEnd` | code_example.py:85-89 | The whole dependency scan is the maximum of the project start and the end dates of every work whose name is in the dependency list and whose end is set. |
| `GanttSpec.Step` | code_example.py:78-92 | Handling one position changes only that position. The work keeps every non-date field and ends up with both dates set. |
| `GanttSpec.ScheduledPrefixFrame` | code_example.py:77-92 | After the first n positions are handled: the length and all non-date fields are unchanged, and the positions from n on are untouched. |
| `GanttSpec.HandledPositionsAreFinal` | code_example.py:77-92 | A position, once handled, is not changed by later iterations. |
| `GanttSpec.ScheduleKeepsWorks` | code_example.py:77-92 | Scheduling keeps the list's length and order, and each work's name, unit, amount, rate and dependency list. |
| `GanttSpec.StartRule` | code_example.py:77-92 | Each work ends its own duration after it starts. It starts at the project start if it has no dependencies. Otherwise it starts at the latest end seen in the list as it is at that moment: earlier works with final dates, itself with tentative dates, later works with their dates from before the pass. |
| `GanttSpec.EveryWorkScheduled` | code_example.py:79-92 | After the pass every work has both dates and end = start + duration. Its start is at or after the project start, and exactly the project start when it has no dependencies. |
| `GanttSpec.PrecedingDependencyRespected` | code_example.py:86-91 | If work B names work A and A comes before B in the list, B starts no earlier than A ends. |
| `GanttSpec.SelfReferenceShiftsStart` | code_example.py:80-89 | A work that names itself sees its own tentative end. It starts at least its own duration after the project start. |
| `GanttSpec.StaleEndVisible` | code_example.py:87-89 | An end date a later work held before the pass is still seen by the scan. A work depending on it starts no earlier than that stale end. |
| `GanttSpec.FreshListIgnoresLaterWorks` | code_example.py:83-91 | In a freshly built list (no end dates) the works after a work add nothing to its start. Only earlier works and the work itself count. |
| `GanttSpec.NoContributorStartsAtProjectStart` | code_example.py:85-91 | A work that does not name itself, when no work its scan sees matches a dependency with an end set, starts at the project start. |
| `GanttSpec.FreshListUnresolvedDepsStartAtProjectStart` | code_example.py:83-91 | In a freshly built list, a work whose dependency names match neither itself nor an earlier work starts at the project start. This covers unknown names and forward references. |
| `GanttSpec.UnknownDependenciesIgnored` | code_example.py:86-91 | Dependency names that match no work in the list are ignored: the work starts at the project start. |
| `GanttSpec.SampleEstimateSchedule` | code_example.py:48-53 | For the sample list with the default crew (2 workers, 8-hour days), every work starts at the project start. They end 75, 18.75, 15 and 15 days later. |
| `Gantt.ScanForName` | code_example.py:87-89 | The inner loop over the list returns the scan value for one dependency name. |
| `Gantt.LatestDependencyEnd` | code_example.py:85-89 | The loop over the dependency names returns the latest matching end date, seeded with the project start. |
| `Gantt.SchedulePass` | code_example.py:77-92 | The in-place pass leaves the array equal to the scheduled list computed from its old contents. |
| `ProjectData.ExtractFromEstimate` | code_example.py:40-65 | The sample list has four works, none with dates yet. No work's name appears in any work's dependency list. |
| `Gantt.JoinNames` | code_example.py:104 | Joining a single name gives that name unchanged. |
| `Gantt.JoinNamesEnds` | code_example.py:104 | The ", "-joined column begins with the first dependency name and ends with the last. |
| `Gantt.JoinNamesConcat` | code_example.py:104 | Joining two non-empty name lists back to back is joining each and putting ", " between them. With the one-name case this fixes the whole column. |
| `Gantt.DependencyColumn` | code_example.py:104 | The column is "Нет" for an empty dependency list and the ", "-join of the names otherwise. |
| `Gantt.Row` | code_example.py:97-105 | The row's whole-day duration is the difference end − start rounded down. |
| `Gantt.ScheduledRow` | code_example.py:100-101 | A scheduled work's row carries its name and its man-hours (rate × amount). Its day count is the work's duration rounded down, not the exact duration. |
| `Gantt.GanttRows` | code_example.py:95-105 | One row per work, in list order. |
| `Gantt.CreateGanttChart` | code_example.py:67-107 | With a non-empty list and zero crew-hours it fails with a division by zero and changes nothing. Otherwise it schedules the array in place and returns one row per scheduled work. |
| `Completeness.MissingIsAbsentLabels` | code_example.py:126-130 | A label is in the missing list exactly when some criterion with that label has an absent or false flag. |
| `Completeness.MissingEmptyIffAllPresent` | code_example.py:126-130 | Nothing is missing exactly when every flag is present. |
| `Completeness.NonePresentMissesAll` | code_example.py:126-130 | With no flag present, the missing list is every label, in catalog order. |
| `Completeness.ScoreBounds` | code_example.py:126-128 | With non-negative weights the score lies between 0 and the sum of the weights. |
| `Completeness.ScoreExtremes` | code_example.py:126-128 | With positive weights the score equals the weight sum exactly when all flags are present, and is 0 exactly when none is. |
| `Completeness.CatalogWeights` | code_example.py:119-124 | The catalog's weights are positive and sum to 4.5. |
| `Completeness.CatalogSpelledOut` | code_example.py:119-130 | For the fixed catalog the score is 1, 2, 1 and 0.5 summed over the present flags. The missing labels are the absent ones in catalog order. |
| `Completeness.AdviceFor` | code_example.py:140-151 | The advice list is no longer than the advice table. It is empty exactly when no table document is missing. |
| `Completeness.AdviceTableSpelledOut` | code_example.py:142-149 | The advice is the technical-brief line, then the estimate line, then the schedule line, each exactly when its document is missing. |
| `Completeness.AdviceDependsOnTableLabelsOnly` | code_example.py:142-149 | Only membership of the three advised labels matters. Other entries, repetition and order in the missing list change nothing. |
| `Completeness.VisualPlansGetNoAdvice` | code_example.py:138-151 | Missing visual plans add no advice line. |
| `Completeness.GenerateRecommendations` | code_example.py:138-151 | The method's three conditional appends produce the table-driven advice, at most three lines. |
| `Completeness.AnalyzeProjectCompleteness` | code_example.py:109-136 | The loop over the catalog yields the score divided by 4, times 100. It also yields the missing labels in catalog order and the advice for them. |
| `Completeness.NothingPresentReport` | code_example.py:114-136 | All flags false or absent: 0 percent, all four labels missing, three advice lines. |
| `Completeness.EverythingPresentReport` | code_example.py:114-136 | All flags true: 112.5 percent, nothing missing, no advice. |
| `Completeness.PercentCanExceedHundred` | code_example.py:115-133 | As written, the percentage lies in [0, 112.5]. It exceeds 100 exactly when every document is present. |
| `Completeness.CorrectedPercentInRange` | code_example.py:115-133 | Dividing by the catalog's weight sum instead keeps the percentage in [0, 100]. It is 100 exactly when everything is present and 0 exactly when nothing is. |
| `Completeness.AdviceFollowsFlags` | code_example.py:135-149 | In the report, the advice line of each of the first three catalog documents appears exactly when that document's flag is not present. |

## Findings

| source | as written | input that shows it | evidently intended | confidence | as-written member | corrected member |
|---|---|---|---|---|---|---|
| code_example.py:115 | `max_score = 4` while the catalog weights sum to 1 + 2 + 1 + 0.5 = 4.5 | all four flags true: 4.5 / 4 × 100 = 112.5 percent | a percentage of at most 100, the divisor being the weight sum | medium, not executed | `Completeness.PercentCanExceedHundred` | `Completeness.CorrectedPercentInRange` |

`Completeness.AnalyzeProjectCompleteness` keeps the script's divisor of 4, so the report is modelled as written.
Nothing else in the model uses the percentage. `Completeness.CorrectedPercent` is the fixed definition.

Notes on the script's behaviour:

- With every document present the percentage is 112.5 (code_example.py:115, 133).
- A dependent work starts at or after the end of an earlier dependency. It starts later than that end when another matching work ends later.
- The document labels and advice texts are the script's Russian strings.

## Left out

- The list holds work values in an array. The same work object listed twice (aliasing through Python references) is not modelled.
- The nested dependency scan is split into two helper methods (`Gantt.ScanForName`, `Gantt.LatestDependencyEnd`). They run the same loops in the same order.
- Python `datetime`/`timedelta` calendar arithmetic, microsecond rounding and IEEE float rounding are not modelled. Dates and durations are exact reals.
- `strftime` date formatting and the `f"{amount} {unit}"` text are not modelled. The row keeps the numbers and the unit as separate fields.
- `round(..., 1)` of an integer day count is the identity and is not modelled separately.
- The pandas `DataFrame` wrapper is not modelled. The chart is the sequence of rows.
- `ProjectData.CalculateDuration`: requires non-zero crew-hours. Python raises `ZeroDivisionError` instead; `Gantt.CreateGanttChart` models that error path.
- `ProjectData.ExtractFromEstimate`: takes no argument, because `extract_from_estimate` ignores its `estimate_data` parameter and returns a fixed list.
- `src/utils.py` (JSON file I/O, wall-clock timestamp, logging to console and file) is not part of this model.
- `demonstrate_workflow`, `data_structure_example` and the script entry point are not part of this model. They are console printing and fixed roadmap and schema text.
- The demo's "critical path" (works without dependencies) is not part of this model.
- Uniqueness of work names is neither checked by the code nor assumed by the model. With duplicate names every matching work's end is considered.
