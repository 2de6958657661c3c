# DISPOO contractual availability — a Dafny model

DISPOO computes how available an electric-vehicle charging station was, month
by month, under the rules of its maintenance contract. This project models
three parts of it and proves their properties:

- **The contractual engine** (`Dispo/contract_calculator.py`).
  - Availability timelines and their point lookup (`status_at`, a
    `bisect_right` over cached start times).
  - Exclusion ranges (`covers`).
  - Timeline construction from raw records: `build_timeline` clips each
    record to the window, drops the empty ones and sorts the rest stably by start.
  - The monthly calculation `calculate_monthly`. It walks the window in
    10-minute steps and probes each step at 10 checkpoints, one per minute
    plus 30 s. Each step passes three gates:
    - the AC unit,
    - the pair of batteries DC1/DC2,
    - a quorum of charge points (the denominator is at least six).

    Each step adds to its month's counters: T2 counts steps, T3 counts
    excluded steps, and T_sum adds up step values. The months are then
    turned into rows with a percentage, and warnings are added for missing
    data.
- **The duration formatter** `_format_minutes` (`Dispo/export.py`). It renders a
  number of minutes in French as days, hours and minutes.
- **The monthly raw/excluded availability** `calculate_availability`
  (`Dispo/Analyse_mois.py`). It classifies blocks of time into available,
  unavailable and not counted, and computes the available percentage.

Modules and files:

| file | module | contents |
|---|---|---|
| `wrappers.dfy` | `Wrappers` | `Option` |
| `strings.dfy` | `Strings` | `str.join`, one-character `split`, decimal rendering of integers and its parse-back |
| `timelines.dfy` | `Timelines` | intervals, timelines, `bisect_right`, `status_at`, `covers`, `build_timeline` |
| `contract.dfy` | `Contract` | the gates, the stepping loop, the per-month counters, the rows and the warnings |
| `duration_format.dfy` | `DurationFormat` | `_format_minutes` and a reader of its output |
| `monthly_analysis.dfy` | `MonthlyAnalysis` | `calculate_availability` and its decision table |

Modelling choices:

- **Time.** Timestamps are integer seconds on an absolute time line, as the
  source's timezone-aware timestamps are: adding 10 minutes is adding 600 s,
  across daylight-saving changes too. A step is 600 s. Checkpoint `i` of a step starting at `s` is
  `s + 60·i + 30`.
- **Months.** The Europe/Paris calendar month of an instant is an abstract
  parameter `monthOf: int -> int`. A month key is an integer, and ascending keys stand
  for ascending months.
- **Ratios.** Ratios, step values and percentages are exact `real`s.
- **Equipment.** The loaders' results are inputs: a `Site` holds the equipment
  timelines, the charge-point timelines and the exclusion ranges. The
  equipment dictionary is an association list in insertion order: the
  missing-data warning lists roles in that order, and a lookup takes the
  first entry with that name.
- **Timelines.** `Timeline` is a subset type. Its cached start list must equal
  the starts of its intervals and be sorted, which is what `bisect_right`
  relies on.
- **Imperative and pure parts.** The search loops, the stepping loop and the
  finalisation loop are methods with loop invariants. Each is proved equal
  to a specification function: `StatusAt`, `Covered`, `StepOutcome`, `Fold`
  of `Steps`, and `RowsOf`. The formatter and the availability classifier are
  pure functions.

Consequences of the code that are easy to miss, all kept by the model:

- The denominator is the larger of six and the number of charge-point
  timelines. With fewer than four timelines, at least three places are down
  at every checkpoint, so every step that reaches the charge-point gate is
  skipped (`Contract.FewChargePointsBlock`). Two charge points, both up, are
  skipped too.
- The missing-data warning names only the roles that are present in the
  equipment dictionary and whose timeline has no intervals
  (`Contract.MissingRoles`). A role absent from the dictionary is looked up
  as an empty timeline and is not named. A missing AC skips every
  non-excluded step (`Contract.MissingAcSkips`). A missing DC1 or DC2 leaves
  the other battery to carry the battery gate alone
  (`Contract.BatteryRedundancy`).
- Steps start at `start` and advance by 10 minutes. They are not aligned to
  fixed clock boundaries, and a trailing partial step is not walked
  (`Contract.StepCountMeaning`).

## Model

| member | source | states |
|---|---|---|
| Timelines.MakeTimeline | Dispo/contract_calculator.py:13-20 | wrapping sorted intervals keeps them unchanged and caches their starts |
| Timelines.CountAtMost | Dispo/contract_calculator.py:27 | the bisect split point: every start before it is at most `ts`, every start from it on is above `ts` |
| Timelines.BisectRight | Dispo/contract_calculator.py:27 | the binary search returns exactly that split point |
| Timelines.StatusAt | Dispo/contract_calculator.py:22-34 | the status is either all false or has data, and has data only at or after the first start; `StatusAtRightmost` and `StatusAtHasData` characterise it fully |
| Timelines.HasData | Dispo/contract_calculator.py:36-37 | a timeline without data gives all false at every instant |
| Timelines.LookupStatus | Dispo/contract_calculator.py:22-34 | the imperative lookup (`bisect_right` minus one, then the range test) equals `StatusAt` |
| Timelines.StatusAtBeforeFirst | Dispo/contract_calculator.py:24-29 | an empty timeline, or an instant before the first start, gives (False, False, False) |
| Timelines.StatusAtRightmost | Dispo/contract_calculator.py:27-34 | with `k` the rightmost interval starting at or before `ts`: that interval's status if `ts` is before its end, otherwise no data |
| Timelines.StatusAtHasData | Dispo/contract_calculator.py:22-34 | without data the status is all false; data exactly when the rightmost interval starting at or before `ts` still runs at `ts` |
| Timelines.HasDataMeaning | Dispo/contract_calculator.py:36-37 | a timeline without intervals has no data anywhere; one with non-empty intervals has data at its last start |
| Timelines.Covers | Dispo/contract_calculator.py:44-48 | the search loop returns true iff some range starts at or before the step and ends at or after it |
| Timelines.Clip | Dispo/contract_calculator.py:73-91 | a record is kept iff both timestamps exist and the clipped start is before the clipped end; a kept interval lies in the window |
| Timelines.ClipAll | Dispo/contract_calculator.py:71-91 | the kept intervals are exactly the clipped images of the input records, all inside the window, no more of them than records |
| Timelines.SortByStart | Dispo/contract_calculator.py:93 | the sort result is ordered by start and is a permutation of its input |
| Timelines.SortByStartStable | Dispo/contract_calculator.py:93 | the sort is stable: intervals sharing a start keep their input order |
| Timelines.InsertByStartStable | Dispo/contract_calculator.py:93 | inserting one interval puts it after every equal-start interval already present |
| Timelines.BuildTimeline | Dispo/contract_calculator.py:63-94 | a missing or empty frame gives an empty timeline; otherwise the stably sorted clipped records, a permutation of them, inside the window and sorted |
| Contract.Role | Dispo/contract_calculator.py:157-169 | `equipment.get(name, empty)`: the first entry with that name, or the empty timeline when there is none |
| Contract.Checkpoint | Dispo/contract_calculator.py:141-142 | every checkpoint lies strictly inside its step |
| Contract.CheckAc | Dispo/contract_calculator.py:157-166 | the loop with early exit decides that AC has data and is available at all ten checkpoints |
| Contract.CheckBatteries | Dispo/contract_calculator.py:168-182 | the loop decides that at no checkpoint both batteries are down or without data |
| Contract.CountAvailable | Dispo/contract_calculator.py:192-196 | the inner loop counts the charge points up at the checkpoint |
| Contract.Denominator | Dispo/contract_calculator.py:184 | the denominator is at least six and at least the number of charge points, and equals one of the two |
| Contract.Ratio | Dispo/contract_calculator.py:201 | a checkpoint's ratio of charge points up lies in [0, 1] |
| Contract.CheckChargePoints | Dispo/contract_calculator.py:184-207 | blocked iff at some checkpoint denominator − available ≥ 3; otherwise the value is the mean of the ten ratios |
| Contract.StepOutcome | Dispo/contract_calculator.py:150-208 | a counted step's value lies in [0, 1], and with fewer than four charge points no step is counted |
| Contract.EvaluateStep | Dispo/contract_calculator.py:150-208 | one step's outcome (excluded, skipped or counted with its value) equals the gate-by-gate `StepOutcome` |
| Contract.TallyStep | Dispo/contract_calculator.py:137-208 | T2 goes up for every step, T3 for an excluded one, and T_sum adds a counted step's value, in a fresh month if needed |
| Contract.FinalizeRows | Dispo/contract_calculator.py:212-232 | one row per month with T2 > 0, ascending by month, each read off its counters; no T2 lost or doubled |
| Contract.CalculateMonthly | Dispo/contract_calculator.py:110-234 | an invalid or missing range gives no rows and exactly the invalid-range warning; otherwise the warnings, the rows of the step fold, total T2 equal to the whole-step count, and every row with T3 + T_sum ≤ T2 and a percentage in [0, 100] |
| Contract.StepCountMeaning | Dispo/contract_calculator.py:144-146 | the number of steps is the number of whole 10-minute steps in the range; a trailing partial step is dropped |
| Contract.StepsTotal | Dispo/contract_calculator.py:144-148 | the T2 of all months adds up to the number of steps walked |
| Contract.SumT2Tally | Dispo/contract_calculator.py:148 | each step adds exactly one to the total T2 |
| Contract.StepValueBounds | Dispo/contract_calculator.py:201-207 | a step value lies in [0, 1] |
| Contract.FoldBounded | Dispo/contract_calculator.py:148-208 | in every month T3 + T_sum ≤ T2, with T_sum ≥ 0 |
| Contract.RowPctBounds | Dispo/contract_calculator.py:219 | a row's availability percentage lies in [0, 100] |
| Contract.FoldPerMonth | Dispo/contract_calculator.py:137-148 | a month has counters iff one of its steps was walked; its T2, T3 and T_sum are the number of its steps, of its excluded steps and the sum of its counted values |
| Contract.NoStepsNoCounters | Dispo/contract_calculator.py:148-153 | a month with no steps has no excluded steps and no value |
| Contract.FoldOtherMonths | Dispo/contract_calculator.py:147-148 | steps of other months leave a month's counters unchanged |
| Contract.WindowExtension | Dispo/contract_calculator.py:144-148 | with a monotone month function, lengthening the window leaves the counters of earlier months unchanged |
| Contract.MissingAcSkips | Dispo/contract_calculator.py:157-166 | without AC data every non-excluded step is skipped |
| Contract.BatteryRedundancy | Dispo/contract_calculator.py:171-179 | the battery gate passes iff at every checkpoint at least one battery is up with data |
| Contract.FewChargePointsBlock | Dispo/contract_calculator.py:184-199 | with fewer than four charge-point timelines every step reaching the gate is blocked |
| Contract.UniformStepValue | Dispo/contract_calculator.py:201-207 | the same number up at every checkpoint gives that number over the denominator |
| Contract.PassingStep | Dispo/contract_calculator.py:150-208 | a step passing all gates counts its mean ratio |
| Contract.SixChargePointsScenario | Dispo/contract_calculator.py:157-208 | six charge points, constantly `up` of them: four or more counts up/6, three or fewer is skipped |
| Contract.MissingRoles | Dispo/contract_calculator.py:130 | the roles named in the warning are exactly those whose timeline has no intervals |
| Contract.WarningsMeaning | Dispo/contract_calculator.py:126-132 | the charge-point warning comes first exactly when there are no charge points; the missing-data line, if any, is last and names the roles |
| Contract.Warnings | Dispo/contract_calculator.py:126-132 | at most two warnings, and none exactly when there are charge points and no role lacks data |
| DurationFormat.Decomposition | Dispo/export.py:53-55 | days·1440 + hours·60 + minutes equals the input, with hours in [0, 24) and minutes in [0, 60) |
| DurationFormat.PartsValue | Dispo/export.py:53-63 | the emitted components add back up to the input minutes |
| DurationFormat.PartsShape | Dispo/export.py:57-63 | one to three components; days and hours exactly when non-zero; minutes when non-zero or nothing else; order day, hour, minute; zero only in a lone "0 minutes" |
| DurationFormat.WordAgreement | Dispo/export.py:59-63 | the word is plural for every amount but one, and names the component's unit |
| DurationFormat.ParsePartRender | Dispo/export.py:59-63 | one rendered component reads back as its minutes |
| DurationFormat.FormatMinutes | Dispo/export.py:50-64 | the text is never empty and holds a comma exactly when more than one component is rendered |
| DurationFormat.FormatRoundTrip | Dispo/export.py:50-64 | reading the output back gives the normalised input, for every integer and for a missing one |
| DurationFormat.FormatInjective | Dispo/export.py:50-64 | two inputs render the same text iff they normalise to the same minutes |
| DurationFormat.ZeroText | Dispo/export.py:53-64 | a missing input and zero both render exactly "0 minutes" |
| Strings.IntToStringRoundTrip | Dispo/export.py:59-63 | the decimal rendering of an integer is a literal that reads back as the same integer |
| Strings.SplitJoinComma | Dispo/export.py:64 | splitting a ", "-join at the commas gives the parts back, each after the first behind one space |
| MonthlyAnalysis.MasksMatchTable | Dispo/Analyse_mois.py:65-84 | the available and unavailable masks are exactly the table's classes, so they are disjoint |
| MonthlyAnalysis.SumsMatchTable | Dispo/Analyse_mois.py:86-87 | the two masked sums are the minutes of the table's available and unavailable rows |
| MonthlyAnalysis.CalculateAvailability | Dispo/Analyse_mois.py:62-94 | available minutes are the minutes of the rows the decision table calls available, the total adds those it calls unavailable, and the percentage is the available share of the total; an empty frame gives zeros |
| MonthlyAnalysis.AvailabilityBounds | Dispo/Analyse_mois.py:86-89 | with non-negative durations, 0 ≤ available ≤ total and the percentage lies in [0, 100] |
| MonthlyAnalysis.ExclusionsEffect | Dispo/Analyse_mois.py:75-88 | with every exclusion flag 0 or 1, applying exclusions keeps the total and moves exactly the excluded downtime to available; with non-negative durations neither the available minutes nor the percentage go down |
| MonthlyAnalysis.MissingWithoutModeIgnored | Dispo/Analyse_mois.py:65-71 | without a mode column, rows without data count for nothing: dropping them changes nothing |

## Left out

- Time zones. The Europe/Paris localisation and conversions, with their DST
  rules, are left out (`localize_to_paris` and the tz branches of
  `build_timeline`). Timestamps are taken as absolute instants in seconds,
  and `monthOf` stands for their Paris calendar month.
- Month labels. `to_period("M")` and the `strftime("%Y-%m")` labels are
  replaced by the abstract `monthOf`. The final `sort_values("Mois")` is the
  ascending month order of the rows.
- NaT and NaN. `pd.to_datetime` and `pd.isna` become `Option` fields.
  `int()` of a NaN flag, which raises, is not modelled: flags are integers.
- Contract.FinalizeRows: does not model `round(..., 2)` of T_sum and of the
  percentage, because rounding is float presentation; the rows carry exact
  reals.
- Loaders and database. The three injected loaders are replaced by the
  `Site` inputs, and the call arguments `site, start_dt, end_dt` are not
  modelled. MySQL, `update_monthly`, the SQL builder and the PDF/plot
  rendering are also left out.
- Dead guards. `total_pdc == 0` and `not minute_ratios` can never hold, since
  the denominator is at least 6 and there are ten checkpoints, so they have
  no branch in the model.
- Timelines.LookupStatus: covers only timelines whose starts are sorted.
  `AvailabilityTimeline` itself accepts any list, on which `bisect_right`
  has no defined meaning; every timeline `build_timeline` produces is sorted.
- MonthlyAnalysis.CalculateAvailability: treats durations as integers, not
  the float sum that `int()` truncates. It also does not model a missing
  `is_excluded` column. The source reads that column only when
  `include_exclusions` is true (Analyse_mois.py lines 75-81), and only then
  does a missing column raise.
- Duplicate equipment names. The model keeps the equipment as an association
  list, and it assumes the names are distinct, as the keys of a Python
  dictionary are. With a repeated name, `Contract.Role` takes the first entry
  and `Contract.MissingRoles` could name a role twice.
- DurationFormat.FormatMinutes takes an optional integer. A float input, which
  `int()` truncates, is not modelled.
