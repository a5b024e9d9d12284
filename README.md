# Test-time regression analysis, modelled in Dafny

This project models `scripts/analyze_xunit_percentage_changed.py`, a script
that compares the test timings of two runs (a *base* run and a *compare*
run) read from xunit reports and fails when tests got slower by more than a
percentage threshold. It has three stages, each one module:

- `JunitReport` (`junit_report.dfy`): the report tree (suites holding nested
  suites and test cases) and `convert_junit_to_dict`, which flattens it into
  a map from test key `suite.classname.name` to duration. `Flatten` is the
  specification; `ConvertJunitToDict` is the recursive method with a loop
  over the children, proved equal to it. An independent reference (`Entries`,
  the list of all cases in document order, read by `LastWins`) pins down
  what the map holds: exactly the keys of the cases, each with the duration
  of the LAST case carrying it.
- `PercentChange` (`percent_change.dfy`): `calculate_changed`. `Change` is the
  per-test percentage change with its zero-base guard; `CalculateChanged`
  is the loop over the shared keys, in whatever order the set yields them.
- `Totals` (`totals.dfy`): `sum(d.values())` as `Total`, with the lemma that
  the order of summation does not matter and a loop `SumValues` proved to
  compute it.
- `ThresholdCheck` (`threshold_check.dfy`): the decision block of `main`,
  lifted into `Check`, which returns `Ok`, `PerTestExceeded(payload)`,
  `TotalExceeded(payload)` or `DivByZero` instead of raising
  `ThresholdExceeded` or `ZeroDivisionError`; `Analyze` and `AnalyzeReports`
  are the program's body as methods, proved to reach `Check`'s outcome.

Durations and percentages are exact `real`s. The key prefix is the name of
the suite that IMMEDIATELY encloses a case: line 66 recurses with the nested
suite as `xml`, so line 68 reads that suite's name, not the root report's.
A description of the tool in which every key carries the root's name does
not match the code; the model follows the code, and
`EnclosingSuiteNamesTheKey` shows it on a two-level tree.

## Model

| member | source | states |
|---|---|---|
| `JunitReport.ConvertJunitToDict` | scripts/analyze_xunit_percentage_changed.py:62-69 | the map built by walking the children in order (recursing into nested suites and merging their maps, storing each case under its key) is exactly `Flatten` of the tree |
| `JunitReport.FlattenLookup` | scripts/analyze_xunit_percentage_changed.py:62-69 | a key is in the flattened map iff some case of the tree, keyed by its immediately enclosing suite, carries it; it then maps to the duration of the last such case in document order |
| `JunitReport.FlattenIsLastWins` | scripts/analyze_xunit_percentage_changed.py:62-69 | flattening a suite equals reading the document-order list of all its cases into a map, later entries overwriting earlier ones |
| `JunitReport.FlattenChildrenIsLastWins` | scripts/analyze_xunit_percentage_changed.py:64-68 | the same for any run of children of a suite |
| `JunitReport.LastWinsLookup` | scripts/analyze_xunit_percentage_changed.py:66-68 | reading pairs into a map: a key is present iff some pair carries it, and its value is that of the last pair carrying it |
| `JunitReport.LastWinsAppend` | scripts/analyze_xunit_percentage_changed.py:66 | reading two lists in a row equals merging the second's map over the first's (dict.update) |
| `JunitReport.FlattenChildrenAppend` | scripts/analyze_xunit_percentage_changed.py:64-68 | folding children in two halves equals merging the second half's map over the first's, so later children overwrite earlier ones |
| `JunitReport.FlattenAround` | scripts/analyze_xunit_percentage_changed.py:64-68 | a suite's map is the children before `i`, then child `i`, then the children after `i`, each merged over the previous |
| `JunitReport.CaseUnderSuite` | scripts/analyze_xunit_percentage_changed.py:67-68 | a case directly under suite S yields key `S.name + "." + classname + "." + name`, holding the case's duration unless a later child of S yields the same key |
| `JunitReport.NestedUnderSuite` | scripts/analyze_xunit_percentage_changed.py:65-66 | every entry of a nested suite's own map (keyed under its own name) is in the parent's map, with the same duration unless a later child of the parent yields the same key |
| `JunitReport.EnclosingSuiteNamesTheKey` | scripts/analyze_xunit_percentage_changed.py:66-68 | a case in suite `inner` inside report `root` is keyed `inner.C.t`, not `root.C.t` |
| `PercentChange.CalculateChanged` | scripts/analyze_xunit_percentage_changed.py:72-82 | the change map holds exactly the keys present in both runs, each mapped to its change, whatever order the shared keys are visited in |
| `PercentChange.ZeroBaseNoChange` | scripts/analyze_xunit_percentage_changed.py:78-79 | a base duration of 0 gives a change of 0 whatever the compare duration |
| `PercentChange.ChangeRecoversCompare` | scripts/analyze_xunit_percentage_changed.py:80-81 | with a nonzero base, the compare duration is the base grown by the change in percent, so the change determines it |
| `PercentChange.ChangeSign` | scripts/analyze_xunit_percentage_changed.py:80-81 | with a positive base, the change is > 0 iff the test got slower, 0 iff it took as long, < 0 iff it got faster |
| `PercentChange.ChangeMonotonic` | scripts/analyze_xunit_percentage_changed.py:80-81 | with a positive base, a slower compare duration never gives a smaller change |
| `Totals.TotalPick` | scripts/analyze_xunit_percentage_changed.py:99-100 | the sum of a map's values is any one value plus the sum of the rest, so the order of summation does not matter |
| `Totals.TotalAllZero` | scripts/analyze_xunit_percentage_changed.py:99 | a run that is empty or whose durations are all 0 sums to 0 |
| `Totals.TotalZeroIff` | scripts/analyze_xunit_percentage_changed.py:99 | for non-negative durations the sum is non-negative, and 0 iff every duration is 0 |
| `Totals.TotalSingle` | scripts/analyze_xunit_percentage_changed.py:99-100 | the sum of a one-test run is that test's duration |
| `Totals.SumValues` | scripts/analyze_xunit_percentage_changed.py:99-100 | adding the values up one key at a time yields the sum of the map's values |
| `ThresholdCheck.PerTestOutcome` | scripts/analyze_xunit_percentage_changed.py:90-96 | the run fails per test iff some change is strictly above the threshold, and the payload holds exactly those tests with their changes |
| `ThresholdCheck.AtThresholdPasses` | scripts/analyze_xunit_percentage_changed.py:90 | changes at or below the threshold (a change equal to it included) never fail the per-test check |
| `ThresholdCheck.PerTestShortCircuits` | scripts/analyze_xunit_percentage_changed.py:92-98 | once a test is over the threshold the outcome is the per-test failure whatever the two runs hold: the totals are never evaluated |
| `ThresholdCheck.TotalOutcome` | scripts/analyze_xunit_percentage_changed.py:98-109 | the run fails on the total iff no test is over, the base total is nonzero and the total change is strictly above the threshold; the payload maps exactly the tests in compare but not in base to their compare durations |
| `ThresholdCheck.DivByZeroOutcome` | scripts/analyze_xunit_percentage_changed.py:99-103 | the decision is a division by zero iff no test is over the threshold and the base total is 0 |
| `ThresholdCheck.ZeroBaseDividesByZero` | scripts/analyze_xunit_percentage_changed.py:99-103 | an empty or all-zero base run ends in a division by zero, not a pass, once the per-test check has passed |
| `ThresholdCheck.OkOutcome` | scripts/analyze_xunit_percentage_changed.py:90-109 | the run passes iff no test is over the threshold, the base total is nonzero and the total change is at most the threshold |
| `ThresholdCheck.ScenarioExactlyAtThreshold` | scripts/analyze_xunit_percentage_changed.py:89-104 | base 10 s, compare 11 s, threshold 10: the change is exactly 10 and the run passes both checks |
| `ThresholdCheck.ScenarioPerTestFailure` | scripts/analyze_xunit_percentage_changed.py:89-96 | base 10 s, compare 11.5 s: the run fails per test with payload `{S.C.t1: 15}` |
| `ThresholdCheck.ScenarioNewTestFailsTotal` | scripts/analyze_xunit_percentage_changed.py:98-109 | an unchanged test plus a new 100 s test: the total grows 2000% and the payload is the new test with its duration |
| `ThresholdCheck.ScenarioZeroBase` | scripts/analyze_xunit_percentage_changed.py:76-103 | base 0 s, compare 5 s: the change is 0 by the guard, and the zero base total then divides by zero |
| `ThresholdCheck.Analyze` | scripts/analyze_xunit_percentage_changed.py:89-109 | computing the change map, filtering it, summing both runs and comparing the total change yields exactly `Check`'s outcome |
| `ThresholdCheck.AnalyzeReports` | scripts/analyze_xunit_percentage_changed.py:85-109 | from two report trees, flattening each and deciding yields `Check`'s outcome on their flattened maps |

## Left out

- `parse_args` (lines 29-45): command-line plumbing; the threshold is a `real` parameter, with the default 10 as `DefaultThreshold`. A threshold given on the command line arrives as a string, which line 90 would then compare with a number; that failure is not modelled.
- `parse_junit_reports` (lines 48-59): path checks, the directory walk and XML reading through the report library are I/O. `AnalyzeReports` starts from the report trees; how the library merges several files into one tree (`+=`) is not part of this model, and neither is which elements the library yields when a suite is iterated.
- The progress-bar fallback and the import error handling (lines 7-22): they do not change the result.
- The messages of the raised exceptions (lines 93-96, 106-109): only their payload maps are modelled.
- Floating point: durations are Python floats; the model uses exact reals, so no statement depends on rounding.
- The iteration order over the shared keys (line 76) and over the summed values (lines 99-100) is left arbitrary; `CalculateChanged` and `SumValues` are proved for every order.
- `Totals.Total` and `ThresholdCheck.Check` are ghost: a sum over a map with string keys has no order to pick its keys by in compiled Dafny, so the compiled counterparts are the methods `SumValues` and `Analyze`.
