/**
 * The comparator of compare.py (`compare_files`): one baseline report
 * against one current report. Each current benchmark, in ascending order of
 * name, becomes a report row; the result says whether none regressed.
 * The printed table is modelled by the rows only, not by its text.
 */
module Comparator {
  import opened StringOrder
  import opened Loader

  /** One printed row: a benchmark absent from the baseline, or a matched one. */
  datatype Row =
    | New(name: string, current: real)
    | Matched(name: string, baseline: real, current: real, change: real, regressed: bool)

  /**
   * How `compare_files` ends: it returns whether every benchmark passed, or
   * it raises ZeroDivisionError at the first matched benchmark, in ascending
   * order of name, whose baseline mean is zero.
   */
  datatype Outcome = Finished(passed: bool) | DivisionByZero(name: string)

  /** `(current_mean - baseline_mean) / baseline_mean` */
  function PctChange(baselineMean: real, currentMean: real): real
    requires baselineMean != 0.0
  {
    (currentMean - baselineMean) / baselineMean
  }

  /** The relative change, applied to the baseline mean, gives back the current mean. */
  lemma ChangeRestoresCurrent(baselineMean: real, currentMean: real)
    requires baselineMean != 0.0
    ensures baselineMean + baselineMean * PctChange(baselineMean, currentMean) == currentMean
  {
  }

  /** The regression test of one matched benchmark; the inequality is strict. */
  predicate IsRegression(baselineMean: real, currentMean: real, threshold: real)
    requires baselineMean != 0.0
  {
    PctChange(baselineMean, currentMean) > threshold
  }

  /** Some benchmark of `current` is matched in `baseline` with a zero mean there. */
  ghost predicate HasZeroBaseline(baseline: map<string, real>, current: map<string, real>)
  {
    exists n :: n in current && n in baseline && baseline[n] == 0.0
  }

  /** No matched benchmark of `current` regressed; names only in one of the two play no part. */
  ghost predicate NoRegression(baseline: map<string, real>, current: map<string, real>, threshold: real)
  {
    forall n :: n in current && n in baseline && baseline[n] != 0.0 ==>
      !IsRegression(baseline[n], current[n], threshold)
  }

  /** `row` is what the loop prints for its benchmark. */
  ghost predicate RowFor(baseline: map<string, real>, current: map<string, real>, threshold: real, row: Row)
  {
    && row.name in current
    && row.current == current[row.name]
    && (row.New? <==> row.name !in baseline)
    && (row.Matched? ==>
          && row.baseline == baseline[row.name]
          && row.baseline != 0.0
          && row.change == PctChange(row.baseline, row.current)
          && (row.regressed <==> row.change > threshold))
  }

  /** The names of `rows`, in order. */
  function Names(rows: seq<Row>): (names: seq<string>)
    ensures |names| == |rows| && forall i :: 0 <= i < |rows| ==> names[i] == rows[i].name
  {
    seq(|rows|, i requires 0 <= i < |rows| => rows[i].name)
  }

  /**
   * The loop of `compare_files` over the loaded means: visits the current
   * benchmarks in ascending order of name. A benchmark missing from the
   * baseline is a New row and never fails the comparison; a matched one fails
   * it iff its relative change exceeds `threshold`. A zero baseline mean
   * aborts the loop, after the rows of the names before it.
   */
  method CompareMeans(baseline: map<string, real>, current: map<string, real>, threshold: real)
    returns (outcome: Outcome, rows: seq<Row>)
    ensures outcome.DivisionByZero? <==> HasZeroBaseline(baseline, current)
    ensures outcome.Finished? ==> (outcome.passed <==> NoRegression(baseline, current, threshold))
    ensures forall i :: 0 <= i < |rows| ==> RowFor(baseline, current, threshold, rows[i])
    ensures StrictlyIncreasing(Names(rows))
    ensures outcome.Finished? ==> forall n :: n in current <==> n in Names(rows)
    ensures outcome.DivisionByZero? ==>
      && outcome.name in current && outcome.name in baseline && baseline[outcome.name] == 0.0
      && (forall n :: n in current ==> (n in Names(rows) <==> Below(n, outcome.name)))
      && forall n :: n in current && n in baseline && baseline[n] == 0.0 ==> !Below(n, outcome.name)
  {
    var names := Sorted(current.Keys);
    var passed := true;
    rows := [];
    for i := 0 to |names|
      invariant |rows| == i && forall k :: 0 <= k < i ==> rows[k].name == names[k]
      invariant forall k :: 0 <= k < i ==> RowFor(baseline, current, threshold, rows[k])
      invariant passed <==> forall k :: 0 <= k < i ==> !(rows[k].Matched? && rows[k].regressed)
    {
      var name := names[i];
      var currentMean := current[name];
      if name !in baseline {
        rows := rows + [New(name, currentMean)];
        continue;
      }
      var baselineMean := baseline[name];
      if baselineMean == 0.0 {
        outcome := DivisionByZero(name);
        assert Names(rows) == names[..i];
        SortedPrefix(names, i);
        return;
      }
      var pctChange := (currentMean - baselineMean) / baselineMean;
      var regressed := false;
      if pctChange > threshold {
        regressed := true;
        passed := false;
      }
      rows := rows + [Matched(name, baselineMean, currentMean, pctChange, regressed)];
    }
    outcome := Finished(passed);
    assert Names(rows) == names;
    forall n | n in current && n in baseline
      ensures baseline[n] != 0.0 && (IsRegression(baseline[n], current[n], threshold) <==> rows[IndexOf(names, n)].regressed)
    {
      var k := IndexOf(names, n);
      assert RowFor(baseline, current, threshold, rows[k]);
    }
  }

  /** In an ascending sequence, the names before position `i` are exactly those below `s[i]`. */
  lemma SortedPrefix(s: seq<string>, i: nat)
    requires StrictlyIncreasing(s) && i < |s|
    ensures forall n :: n in s ==> (n in s[..i] <==> Below(n, s[i]))
  {
    forall n | n in s
      ensures n in s[..i] <==> Below(n, s[i])
    {
      var j :| 0 <= j < |s| && s[j] == n;
      if j < i {
        assert s[..i][j] == n;
      } else {
        if n in s[..i] {
          var k :| 0 <= k < i && s[k] == n;
          BelowIrreflexive(n);
        }
        if j > i {
          BelowAsymmetric(s[i], n);
        } else {
          BelowIrreflexive(n);
        }
      }
    }
  }

  /**
   * `compare_files`: loads the baseline and the current report, then
   * compares their means (see CompareMeans).
   */
  method CompareFiles(baselineReport: Report, currentReport: Report, threshold: real)
    returns (outcome: Outcome, rows: seq<Row>)
    ensures var baseline, current := LoadBenchmarks(baselineReport), LoadBenchmarks(currentReport);
      && (outcome.DivisionByZero? <==> HasZeroBaseline(baseline, current))
      && (outcome.Finished? ==> (outcome.passed <==> NoRegression(baseline, current, threshold)))
      && (forall i :: 0 <= i < |rows| ==> RowFor(baseline, current, threshold, rows[i]))
      && StrictlyIncreasing(Names(rows))
      && (outcome.Finished? ==> forall n :: n in current <==> n in Names(rows))
      && (outcome.DivisionByZero? ==>
            && outcome.name in current && outcome.name in baseline && baseline[outcome.name] == 0.0
            && (forall n :: n in current ==> (n in Names(rows) <==> Below(n, outcome.name)))
            && forall n :: n in current && n in baseline && baseline[n] == 0.0 ==> !Below(n, outcome.name))
  {
    var baseline := LoadBenchmarks(baselineReport);
    var current := LoadBenchmarks(currentReport);
    outcome, rows := CompareMeans(baseline, current, threshold);
  }

  /** The position of `x` in `s`. */
  function IndexOf(s: seq<string>, x: string): (k: nat)
    requires x in s
    ensures k < |s| && s[k] == x
  {
    if s[0] == x then 0 else 1 + IndexOf(s[1..], x)
  }

  /** A benchmark only in the current report neither fails nor aborts the comparison, whatever its mean. */
  lemma NewBenchmarkIsNeutral(baseline: map<string, real>, current: map<string, real>, threshold: real, name: string, mean: real)
    requires name !in baseline
    ensures NoRegression(baseline, current[name := mean], threshold) <==> NoRegression(baseline, current, threshold)
    ensures HasZeroBaseline(baseline, current[name := mean]) <==> HasZeroBaseline(baseline, current)
  {
  }

  /** A benchmark only in the baseline report plays no part in the comparison. */
  lemma RemovedBenchmarkIsIgnored(baseline: map<string, real>, current: map<string, real>, threshold: real, name: string, mean: real)
    requires name !in current
    ensures NoRegression(baseline[name := mean], current, threshold) <==> NoRegression(baseline, current, threshold)
    ensures HasZeroBaseline(baseline[name := mean], current) <==> HasZeroBaseline(baseline, current)
  {
  }

  /**
   * For a positive baseline mean, a benchmark regresses iff its current mean
   * is above `1 + threshold` times the baseline; exactly at that bound it
   * does not.
   */
  lemma RegressionBound(baselineMean: real, currentMean: real, threshold: real)
    requires baselineMean > 0.0
    ensures IsRegression(baselineMean, currentMean, threshold) <==> currentMean > baselineMean * (1.0 + threshold)
  {
    var change := PctChange(baselineMean, currentMean);
    ChangeRestoresCurrent(baselineMean, currentMean);
    assert currentMean == baselineMean * (1.0 + change);
    if change > threshold {
      assert baselineMean * change > baselineMean * threshold;
    } else {
      assert baselineMean * change <= baselineMean * threshold;
    }
  }

  /** Comparing a report with itself passes for any non-negative threshold. */
  lemma UnchangedPasses(means: map<string, real>, threshold: real)
    requires threshold >= 0.0
    ensures NoRegression(means, means, threshold)
  {
    forall n | n in means && means[n] != 0.0
      ensures !IsRegression(means[n], means[n], threshold)
    {
      assert PctChange(means[n], means[n]) == 0.0;
    }
  }
}
