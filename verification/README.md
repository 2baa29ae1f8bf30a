# Balanced Scorecard effort model

A Dafny model of `BscEffort`, the effort metric of the Redmine Balanced
Scorecard plugin. For a project and its sub-projects, the metric reports
scheduled, incurred and remaining hours per workforce profile. For each
profile it also derives an *ideal capacity*: the hours each person of that
profile would have to work per day to finish by the scheduled end date. When
the plan cannot be met it also gives advice: add profiles, decrease the
scheduled time, or delay the end date.

The model is pure functions over plain values. The database, the metrics
service (`BSC::Metrics`), the profile directory and today's date are all
parameters:

- `Base`: ids, dates (day numbers), `Option` for `nil`, `Result` for a raised error.
- `RubyHash`: the insertion-ordered Ruby `Hash` of numbers created with
  `Hash.new(0.0)`. `Fetch` reads a key and gives the default when the key
  is missing. `Add` is `h[k] += n`. `Sum` is `values.sum`.
- `Advice`: the localised messages as tokens, and the `join` that renders
  them. Alternatives are joined by "or" and fragments by "and".
- `IdealCapacity`: the `get_ideal_capacity` decision rule and the constant
  `WORKDAY_HOURS`.
- `Headcount`: `get_profiles_number`, the headcount per profile over the last
  checkpoints of the project hierarchy.
- `EffortMetrics`: the figures read from the metrics service, and the days
  remaining to the scheduled finish date.
- `EffortTable`: `get_table_data` (one row per profile plus a Total row) and
  `get_header` (the alert count).
- `EffortChart`: `get_date`, `get_chart_data` and `get_data`.
- `EffortHistory`: `record_date`, the backfill of the stored time series.

## Model

| member | source | states |
|---|---|---|
| `IdealCapacity.GetIdealCapacity` | app/models/bsc_effort.rb:131-152 | No effort left gives 0 and no advice. Negative effort gives -1 and only "increase scheduled time". With people and days available, the value is the per-person daily rate (value × people × days = effort), with the three-option advice iff it exceeds 8 hours. Without people or days, the value is -1 and the advice has "delay end date" first (iff days ≤ 0) and "add profiles or decrease time" last (iff people ≤ 0). |
| `IdealCapacity.RateExceedsWorkday` | app/models/bsc_effort.rb:141-143 | With people and days, the rate exceeds a workday iff effort > 8 × people × days. |
| `IdealCapacity.AdviceIffProblem` | app/models/bsc_effort.rb:135-148 | Advice is given iff effort is negative, or positive with nobody, no days, or more than a workday per person per day. |
| `IdealCapacity.SentinelIffInfeasible` | app/models/bsc_effort.rb:135-147 | The value is -1 exactly for over-scheduled effort or for positive effort without people or days. It never arises as a genuine rate. |
| `IdealCapacity.SilentMeansFeasible` | app/models/bsc_effort.rb:135-148 | Without advice, the value lies between 0 and 8 hours. |
| `IdealCapacity.TextPresentIffAdvice` | app/models/bsc_effort.rb:151 | The joined advice text is non-empty (`present?`) iff at least one fragment was produced. |
| `IdealCapacity.ExampleOverloaded` | app/models/bsc_effort.rb:141-143 | 100 h, 2 people, 5 days gives 10.0 and the three-option advice. |
| `IdealCapacity.ExampleComfortable` | app/models/bsc_effort.rb:141-143 | 10 h, 2 people, 5 days gives 1.0 and no advice. |
| `IdealCapacity.ExampleNoPeopleNoTime` | app/models/bsc_effort.rb:144-151 | 10 h, 0 people, 0 days gives -1 and the text "delay end date AND add profiles OR decrease scheduled time". |
| `Advice.Render` | app/models/bsc_effort.rb:151 | When every fragment is non-empty, the text joined by "and" is empty iff there are no fragments. |
| `Advice.SplitJoin` | app/models/bsc_effort.rb:151 | Joining separator-free parts loses nothing: splitting at the separator gives the parts back. |
| `Advice.RenderRoundTrip` | app/models/bsc_effort.rb:143-151 | Cutting rendered advice at every "and" gives back each fragment's "or"-joined text, in order. |
| `RubyHash.Fetch` | app/models/bsc_effort.rb:69-71 | A `Hash.new(0.0)` reads 0.0 for a missing key and the stored value for a present one. |
| `RubyHash.Add` | app/models/bsc_effort.rb:158-161 | `h[k] += n` adds n to k's reading and leaves every other key's reading alone. It keeps the key order and appends k only if it is new. Keys stay distinct, and the sum grows by n. |
| `Headcount.LastCheckpoints` | app/models/bsc_effort.rb:155-156 | The non-nil last checkpoints are exactly those of some project in the hierarchy. There are no more of them than projects. |
| `Headcount.LastCheckpointsAppend` | app/models/bsc_effort.rb:155-156 | Over a concatenation of project lists, the last checkpoints are those of the first part followed by those of the second, so hierarchy order and repeats are kept. |
| `Headcount.LastCheckpointsSingle` | app/models/bsc_effort.rb:155-156 | One project contributes its last checkpoint, or nothing when it has none (`reject{|p| p.blank?}`). |
| `Headcount.TallyAdds` | app/models/bsc_effort.rb:158-161 | Folding effort lines into a hash adds each profile's line total to its reading. It adds the lines' total to the sum and keeps keys distinct. The keys become the old keys plus the profiles that have a line. |
| `Headcount.ProfilesNumber` | app/models/bsc_effort.rb:154-163 | Each profile reads the headcount summed over the last checkpoints of every project in the hierarchy (0 if it never appears). The keys are exactly the profiles that appear, and the values sum to the hierarchy's total headcount. |
| `EffortMetrics.DaysRemaining` | app/models/bsc_effort.rb:67 | Days remaining is the finish date minus the date when a finish date exists, and 0 otherwise. |
| `EffortTable.MergeNames` | app/models/bsc_effort.rb:66 | Merging a non-empty directory maps exactly its ids, and the last entry's id gets the last entry's name. |
| `EffortTable.LastNameWins` | app/models/bsc_effort.rb:66 | In `reduce(&:merge)`, an id carries the name from its last entry. |
| `EffortTable.ProfileNames` | app/models/bsc_effort.rb:66 | The name map is `nil` exactly when the profile directory is empty. |
| `EffortTable.ProfileRows` | app/models/bsc_effort.rb:78-92 | One row per remaining-hours entry, in iteration order, each for that entry's profile. |
| `EffortTable.TableData` | app/models/bsc_effort.rb:64-105 | Row i is profile row i of `remaining` (in hash order), then one Total row. Each profile row is named `profiles_name[profile]`: the last directory name for that id, or no name when the id is unknown or the directory is empty (corrected; as written an empty directory raises, see `TableDataAsWritten`). It has its own remaining hours, scheduled/incurred/headcount read with a 0.0 default, and its ideal capacity and advice text. The Total row sums every key of each hash, with "-" and no advice. |
| `EffortTable.TableDataAsWritten` | app/models/bsc_effort.rb:64-105 | As written, the table raises `NoMethodError` on `nil` iff the profile directory is empty and some profile has remaining hours. Otherwise it equals `TableData`. |
| `EffortTable.EmptyDirectoryRaises` | app/models/bsc_effort.rb:66-83 | An empty directory and one profile with 5 hours left raises `NoMethodError` on `nil`. |
| `EffortTable.TotalRemainingIsRowSum` | app/models/bsc_effort.rb:87-99 | Before rounding, the Total row's remaining hours equal the sum over the profile rows. |
| `EffortTable.TotalScheduledIsRowSum` | app/models/bsc_effort.rb:85-97 | Before rounding, the Total row's scheduled hours equal the sum over the profile rows when every scheduled profile has a row. |
| `EffortTable.TotalIncurredIsRowSum` | app/models/bsc_effort.rb:85-98 | Before rounding, the Total row's incurred hours equal the sum over the profile rows when every profile with incurred hours has a row. |
| `EffortTable.TotalScheduledCountsHiddenProfiles` | app/models/bsc_effort.rb:85-97 | In the table as the code builds it, with a directory naming profile 1, scheduled hours of a profile with no remaining entry count in the Total row, although that profile has no row. |
| `EffortTable.TotalNumberIsHierarchyHeadcount` | app/models/bsc_effort.rb:72-96 | With `get_profiles_number`'s headcount, the Total number is all the hierarchy's headcount, including profiles that have no row. |
| `EffortTable.AlertCountIsCardinality` | app/models/bsc_effort.rb:116-118 | Over distinct keys, the `result += 1` loop counts the set of profiles whose advice text is present. |
| `EffortTable.GetHeader` | app/models/bsc_effort.rb:108-124 | `result` is the number of remaining-hours profiles whose advice text is present. The status is alert iff `result > 0`, and success otherwise. |
| `EffortTable.HeaderAlertIffAdvice` | app/models/bsc_effort.rb:116-123 | The header is in alert iff some profile with remaining hours receives ideal-capacity advice. |
| `EffortTable.HeaderCountsAdvisedRows` | app/models/bsc_effort.rb:77-118 | For the same day and figures, the header's `result` equals the number of table rows that carry advice. |
| `EffortChart.GetDate` | app/models/bsc_effort.rb:19-32 | The unsaved record carries the given project and date, the metrics' scheduled and incurred hours and finish date, and the metrics' per-profile breakdowns as present (non-`nil`) details. |
| `EffortChart.Stored` | app/models/bsc_effort.rb:47 | The query keeps exactly the table's records of the project dated up to the end date. |
| `EffortChart.StoredAppend` | app/models/bsc_effort.rb:47 | Over a concatenation of tables, the query gives the kept records of the first part followed by those of the second, so table order and repeated records are kept. |
| `EffortChart.StoredSingle` | app/models/bsc_effort.rb:47 | A single record is kept iff it belongs to the project and is dated up to the end date. |
| `EffortChart.ChartData` | app/models/bsc_effort.rb:46-61 | With no stored record at the end date, the output is the fresh point from the metrics followed by the stored points in order. Otherwise it is the stored points alone. Either way some point is dated at the end date, and all points belong to the project and are dated up to the end date. |
| `EffortChart.SeriesFacts` | app/models/bsc_effort.rb:47-48 | The series has a record at the end date, and only the project's records up to that date. |
| `EffortChart.ChartNewestFirst` | app/models/bsc_effort.rb:47-48 | A table ordered newest first gives a chart ordered newest first, with the fresh point included. |
| `EffortChart.ChartHasOneEndPoint` | app/models/bsc_effort.rb:47-48 | If the table holds at most one record per date for the project, exactly one point is at the end date. |
| `EffortChart.ChartTwoEndPoints` | app/models/bsc_effort.rb:47-48 | Two stored records of the project at the end date both become chart points, so the end date appears twice. |
| `EffortChart.NilDetailsReadEmpty` | app/models/bsc_effort.rb:56-57 | A `nil` breakdown column reads as an empty hash. |
| `EffortChart.GetData` | app/models/bsc_effort.rb:35-43 | The page data raises iff building the table raises (empty profile directory and some remaining hours). Otherwise its chart is `ChartData` for the date, with an end-date point, its table is `TableData` for the same metrics, and its finish date is the metrics'. |
| `EffortHistory.Changes` | app/models/bsc_effort.rb:11 | The selected checkpoints are exactly the hierarchy's last checkpoints updated on the date itself. |
| `EffortHistory.ChangesAppend` | app/models/bsc_effort.rb:11 | Over a concatenation of project lists, the selection is that of the first part followed by that of the second. |
| `EffortHistory.ChangesPresentIff` | app/models/bsc_effort.rb:11 | The selection is non-empty iff some project's last checkpoint was updated that day. |
| `EffortHistory.RecordDate` | app/models/bsc_effort.rb:8-16 | A date gets a saved record iff it lies in the inclusive range and some project of the hierarchy has a last checkpoint updated that day. No other date is written. Each record holds that day's metrics, and records are saved in increasing date order, one per day. |

## Behaviour worth knowing

- The Total row sums every key of the scheduled and incurred hashes. That
  includes profiles with no remaining-hours entry, which have no row, so
  even before rounding the Total can differ from the sum of the rows (in
  either direction, since hours may be negative). `TotalScheduledIsRowSum`
  gives the condition under which the unrounded Total is the row sum, and
  `TotalScheduledCountsHiddenProfiles` gives an input where it is not.
  Rounding is a second reason: each row and the Total are rounded to two
  decimals separately (`round(2)`), so two rows of 0.004 hours show 0.0
  each while the Total shows 0.01. Rounding is not part of this model.
- The chart always holds at least one point for the end date. It holds
  exactly one when the store has at most one record of the project per date
  (`ChartHasOneEndPoint`). Two stored records of the project dated at the
  end date give two points (`ChartTwoEndPoints`), and nothing in the code
  prevents that.
- Each run of the historic recorder saves a fresh record for every
  qualifying date. Running it twice over the same range stores each record
  twice. `RecordDate` returns the records of one run.

## Left out

- EffortTable.TableData: no rounding to two decimals. Hours and ideal capacity are exact reals, because floating-point rounding is not modelled.
- EffortTable.GetHeader: advice text counts as `present?` when it is non-empty. A localised message that is only whitespace would be blank in Ruby, but the messages are tokens here.
- RubyHash.Sum: sums are exact reals. The compensated float summation of `Array#sum` is not modelled.
- EffortChart.ChartData: the `to_json`/`JSON.parse` round trip of the breakdowns is the identity. Ruby's stringification of hash keys is not modelled.
- EffortChart.ChartNewestFirst: the table must be given newest first. The database's `order("date DESC")` is a precondition, not modelled sorting.
- EffortHistory.RecordDate: `save` is modelled as returning the records to be saved, in order. Persistence and its failures are outside the model.
- Floating point: all hour figures and headcounts are `real`. The checkpoint headcount column is taken as a number, and its database type is not part of this model.
- `Project.find`, `self_and_descendants` and `last_checkpoint`: the hierarchy is given as a sequence of project ids, and the last checkpoint as a function of project and date. How the last checkpoint is chosen is not part of this model.
- `BSC::Metrics` and `BSC::Integration.get_profiles`: their figures are given as a `Metrics` value and a profile list. Memoization through `@metrics` and the use of `Date.today` become explicit parameters.
- `updated_at.to_date`: a timestamp carries its calendar date. Time zones are not modelled.
- `MIN_VARIATION`: declared but used only in commented-out code, so it has no behaviour.
- The controller (`bsc_metrics_controller.rb`) and the view helper (`bsc_helper.rb`): HTTP filters, authorisation, rendering, currency and number formatting.
- Localisation: each `l(...)` message is a token, and the joined text is a sequence of tokens and connectives.

## Findings

| source | as written | input that shows it | evidently intended | confidence | as-written member | corrected member |
|---|---|---|---|---|---|---|
| app/models/bsc_effort.rb:66-83 | `get_profiles.map{...}.reduce(&:merge)` is `nil` for an empty profile directory, and `profiles_name[profile]` then raises `NoMethodError` while building the first row | empty profile directory, one profile with 5.0 remaining hours | rows without a profile name, as for a profile missing from a non-empty directory | medium, not executed | `EffortTable.EmptyDirectoryRaises` | `EffortTable.TableData` |
