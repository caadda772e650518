/**
 * End-to-end runs of the regression gate on small directories, derived from
 * the contract of Driver.Run alone.
 */
module Scenarios {
  import opened StringOrder
  import opened Loader
  import opened Comparator
  import opened Driver

  /** A report holding one benchmark, `Foo.Bar`, with the given mean. */
  function OneBenchmark(mean: real): Report
  {
    Report(Some([Benchmark("Foo.Bar", Some(Statistics(Some(mean))))]))
  }

  lemma OneBenchmarkMeans(mean: real)
    ensures LoadBenchmarks(OneBenchmark(mean)) == map["Foo.Bar" := mean]
  {
    var entries := Entries(OneBenchmark(mean));
    assert entries[..|entries| - 1] == [];
    assert Collect(entries) == Collect([])["Foo.Bar" := mean];
  }

  lemma OneReportFile(dir: Directory, f: string)
    requires dir.Keys == {f} && IsReportFile(f)
    ensures ReportFiles(dir) == {f}
  {
  }

  lemma ReportFileA()
    ensures IsReportFile("A-report-full.json")
  {
    ReportFileIffSuffixed("A-report-full.json");
    assert "A-report-full.json" == "A" + ReportSuffix;
  }

  /** Baseline mean 100, current mean 120, default threshold: a 20% increase fails the run. */
  method RegressionFails() returns (exit: Exit)
    ensures exit == Status(1)
  {
    var f := "A-report-full.json";
    ReportFileA();
    OneReportFile(map[f := OneBenchmark(120.0)], f);
    OneBenchmarkMeans(100.0);
    OneBenchmarkMeans(120.0);
    var baselineDir := map[f := OneBenchmark(100.0)];
    var currentDir := map[f := OneBenchmark(120.0)];
    assert Means(baselineDir, f) == map["Foo.Bar" := 100.0];
    assert Means(currentDir, f) == map["Foo.Bar" := 120.0];
    var name := "Foo.Bar";
    assert name in Means(currentDir, f) && name in Means(baselineDir, f);
    assert IsRegression(Means(baselineDir, f)[name], Means(currentDir, f)[name], DefaultThreshold);
    assert !PairPasses(baselineDir, currentDir, f, DefaultThreshold);
    assert !PairAborts(baselineDir, currentDir, f);
    var events;
    exit, events := Run(baselineDir, currentDir, DefaultThreshold);
  }

  /** Baseline mean 100, current mean 110, default threshold: a 10% increase passes. */
  method SmallIncreasePasses() returns (exit: Exit)
    ensures exit == Status(0)
  {
    var f := "A-report-full.json";
    ReportFileA();
    OneReportFile(map[f := OneBenchmark(110.0)], f);
    OneBenchmarkMeans(100.0);
    OneBenchmarkMeans(110.0);
    var baselineDir := map[f := OneBenchmark(100.0)];
    var currentDir := map[f := OneBenchmark(110.0)];
    assert Means(baselineDir, f) == map["Foo.Bar" := 100.0];
    assert Means(currentDir, f) == map["Foo.Bar" := 110.0];
    assert !IsRegression(100.0, 110.0, DefaultThreshold);
    assert PairPasses(baselineDir, currentDir, f, DefaultThreshold);
    assert !PairAborts(baselineDir, currentDir, f);
    var events;
    exit, events := Run(baselineDir, currentDir, DefaultThreshold);
  }

  /** A current report with no baseline file is skipped and the run passes. */
  method MissingBaselinePasses() returns (exit: Exit, events: seq<FileEvent>)
    ensures exit == Status(0) && events == [Skipped("A-report-full.json")]
  {
    var f := "A-report-full.json";
    ReportFileA();
    var currentDir := map[f := OneBenchmark(120.0)];
    OneReportFile(currentDir, f);
    exit, events := Run(map[], currentDir, DefaultThreshold);
    assert StrictlyIncreasing([f]);
    SortedUnique(Files(events), [f]);
  }

  /** No file named like a full report: status 1, nothing compared. */
  method NoReportFails() returns (exit: Exit, events: seq<FileEvent>)
    ensures exit == Status(1) && events == []
  {
    var currentDir := map["A-report.csv" := OneBenchmark(120.0)];
    assert !IsReportFile("A-report.csv");
    assert ReportFiles(currentDir) == {};
    exit, events := Run(currentDir, currentDir, DefaultThreshold);
  }
}
