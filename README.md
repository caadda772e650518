# Benchmark regression gate, modelled in Dafny

`benchmarks/compare.py` is a CI gate for BenchmarkDotNet results. It reads
every `*-report-full.json` report of the current run. It pairs each one with
the baseline report of the same file name and compares the mean time of
every benchmark. It exits with status 0 only when the current run has at
least one report file, no comparison divides by zero and no compared
benchmark got slower by more than a threshold fraction (default 0.15). It
exits with status 1 otherwise, and a zero baseline mean makes it crash
instead of exiting normally.

The model has a module per part of the script, one for Python's string
order and one of end-to-end runs:

- `StringOrder` (`string_order.dfy`): Python's `<` on `str` (`Below`) and
  `sorted` over a set of names (`Sorted`). It proves that the order is
  irreflexive, transitive and total, and that an ascending sequence of a set
  of names is unique.
- `Loader` (`loader.dfy`): `load_benchmarks` on an already decoded report.
  It keeps the entries whose statistics block is present and whose mean is
  not null. A repeated name takes the mean of its last such entry.
- `Comparator` (`comparator.dfy`): `compare_files`. It returns one row per
  current benchmark in ascending name order: `New` when the baseline lacks
  the name, `Matched` otherwise. It also returns whether no matched
  benchmark regressed. A benchmark regresses iff
  `(current - baseline) / baseline > threshold`.
- `Driver` (`driver.dfy`): `main` after argument parsing. A directory is a
  map from file name to its parsed report. The result is the exit status
  and one event per report file handled (skipped for lack of a baseline, or
  compared with its verdict). What a run may end in is the predicate
  `RunOutcome`, which `Run` ensures.
- `Scenarios` (`scenarios.dfy`): end-to-end runs on small directories.
  Each is derived from the contract of `Driver.Run` alone.

Means are Dafny `real`, not IEEE doubles. A zero baseline mean makes line
40 raise `ZeroDivisionError`, which nothing catches. The model makes this an
explicit outcome: `Comparator.Outcome.DivisionByZero` and
`Driver.Exit.ZeroDivisionError`. The run stops at the first report file, in
sorted order, that has such a benchmark.

Names need not be unique within a report. The dictionary comprehension
(benchmarks/compare.py:18-22) lets the last entry of a repeated name win, and
the model follows it.

## Model

| member | source | states |
|---|---|---|
| `Loader.CollectKeys` | benchmarks/compare.py:18-22 | a name is a key of the comprehension's result iff some entry of that name has a statistics block with a non-null mean |
| `Loader.CollectLastWins` | benchmarks/compare.py:18-22 | the value loaded for a name is the mean of the last entry of that name that has a mean; no later such entry carries the name |
| `Loader.LoadedMeans` | benchmarks/compare.py:18-22 | the same two facts for a whole report; a report without a `Benchmarks` list loads no benchmark |
| `Loader.LoadedSize` | benchmarks/compare.py:18-22 | when names are unique among the entries that have a mean, the loaded mapping has exactly one key per such entry, so entries without statistics or mean are dropped and nothing else is |
| `StringOrder.Sorted` | benchmarks/compare.py:35 | `sorted` yields every name of the set exactly once, in strictly ascending order of Python's string comparison |
| `StringOrder.SortedUnique` | benchmarks/compare.py:35 | two ascending sequences of the same names are equal, so the order in which rows and files are visited is determined by the names alone |
| `Comparator.ChangeRestoresCurrent` | benchmarks/compare.py:40 | the relative change applied to the baseline mean gives back the current mean: `baseline + baseline * change == current` |
| `Comparator.RegressionBound` | benchmarks/compare.py:40-44 | for a positive baseline mean, a benchmark is flagged iff its current mean exceeds `(1 + threshold)` times the baseline; a change exactly equal to the threshold is not flagged |
| `Comparator.CompareMeans` | benchmarks/compare.py:34-47 | rows are in strictly ascending name order and each one is a current benchmark. A row is `New` iff its name is not in the baseline. A `Matched` row carries both means and the relative change, and it is flagged iff the change exceeds the threshold. The result is true iff no matched benchmark regressed. The loop aborts iff some matched benchmark has a zero baseline mean, after the rows of exactly the names below the first such benchmark, and it names that benchmark, the least matched one with a zero baseline mean. Without an abort, every current name gets a row. |
| `Comparator.CompareFiles` | benchmarks/compare.py:25-47 | the same contract, stated for the means loaded from the two reports |
| `Comparator.NewBenchmarkIsNeutral` | benchmarks/compare.py:35-38 | adding a benchmark that the baseline lacks, with any mean, changes neither whether the comparison passes nor whether it aborts |
| `Comparator.RemovedBenchmarkIsIgnored` | benchmarks/compare.py:35 | adding a benchmark that only the baseline has changes neither whether the comparison passes nor whether it aborts |
| `Comparator.UnchangedPasses` | benchmarks/compare.py:40-44 | a report compared with itself never regresses for a non-negative threshold |
| `Driver.ReportFileIffSuffixed` | benchmarks/compare.py:57-59 | a file name passes the filter iff it is some stem followed by `-report-full.json` |
| `Driver.Run` | benchmarks/compare.py:57-81 | (stated by `Driver.RunOutcome`) with no file ending in `-report-full.json`, status 1 and no comparison. Otherwise report files are visited in strictly ascending order. A file without a same-named baseline is skipped, and the others are compared. The run aborts iff some report file's comparison would divide by zero, at the first such file in ascending order and at its least benchmark with a zero baseline mean. The status is 0 iff there is a report file, nothing aborts and every compared file passes. Otherwise the status is 1. |
| `Driver.AbortedBenchmarkDetermined` | benchmarks/compare.py:35-40 | two runs that abort on the same report file report the same benchmark, so the crash is determined by the inputs |
| `Driver.UnchangedRunPasses` | benchmarks/compare.py:65-81 | a current directory compared with itself passes every pair for a non-negative threshold when no mean is zero |
| `Scenarios.RegressionFails` | benchmarks/compare.py:65-81 | baseline mean 100 against current mean 120 at the default threshold 0.15 ends with status 1 |
| `Scenarios.SmallIncreasePasses` | benchmarks/compare.py:65-81 | baseline mean 100 against current mean 110 at the default threshold ends with status 0 |
| `Scenarios.MissingBaselinePasses` | benchmarks/compare.py:65-71 | a report file with no baseline file is skipped and the run ends with status 0 |
| `Scenarios.NoReportFails` | benchmarks/compare.py:57-63 | a current directory with no full report ends with status 1 and compares nothing |

## Left out

- Reading files and decoding JSON (`open`, `json.load`): a report is given
  already parsed. Unreadable or malformed files crash the script by design
  and are not modelled outcomes.
- A kept entry without a `FullName` (a `KeyError`), and a `Statistics` or
  `Mean` value of an unexpected JSON type: every entry has a name in the
  model, and a mean is a number or null.
- `argparse`, `os.listdir`, `os.path.join`, `os.path.exists` and `sys.exit`.
  A directory is a map from file name to parsed report. Listing it gives the
  map's keys, and a baseline exists iff its name is a key. A baseline path
  that exists but is a directory is not modelled. `main`'s threshold is a
  parameter of `Driver.Run`, and its default is the constant
  `Driver.DefaultThreshold`.
- Printing: the table's header, column widths, number formats, the
  "Comparing" line, the warning for a missing baseline and the final
  banner. Only the rows (`Comparator.Row`) and the per-file events
  (`Driver.FileEvent`) are modelled, not their text.
- Names are sequences of Unicode scalar values (Dafny `char`). Python
  strings can also hold lone surrogates, for example from `os.listdir`'s
  surrogate escapes or a JSON `\udXXX` escape; such names are not modelled.
- IEEE floating point: rounding of the subtraction and division, infinities,
  NaN and negative zero. Means and the threshold are exact reals.
