/**
 * The driver of compare.py (`main`): pairs each full report of the current
 * run with the baseline report of the same file name and turns the
 * comparisons into an exit status. A directory is modelled as a map from
 * file name to the report that file holds, already parsed; listing it and
 * testing for a baseline file become the map's keys.
 */
module Driver {
  import opened StringOrder
  import opened Loader
  import opened Comparator

  /** The suffix that marks a BenchmarkDotNet full report. */
  const ReportSuffix: string := "-report-full.json"

  /** The default of `--threshold`: a regression is an increase of more than 15%. */
  const DefaultThreshold: real := 0.15

  type Directory = map<string, Report>

  /** `filename.endswith("-report-full.json")` */
  predicate IsReportFile(filename: string)
  {
    |ReportSuffix| <= |filename| && filename[|filename| - |ReportSuffix|..] == ReportSuffix
  }

  /** A file is a report iff its name is some stem followed by the suffix. */
  lemma ReportFileIffSuffixed(filename: string)
    ensures IsReportFile(filename) <==> exists stem :: filename == stem + ReportSuffix
  {
    if IsReportFile(filename) {
      var stem := filename[..|filename| - |ReportSuffix|];
      assert filename == stem + ReportSuffix;
    }
    if exists stem :: filename == stem + ReportSuffix {
      var stem :| filename == stem + ReportSuffix;
      assert filename[|filename| - |ReportSuffix|..] == ReportSuffix;
    }
  }

  /** What `main` does with one report file of the current run. */
  datatype FileEvent = Skipped(file: string) | Compared(file: string, passed: bool)

  /** How the process ends: `sys.exit(main())`, or an uncaught ZeroDivisionError. */
  datatype Exit = Status(code: int) | ZeroDivisionError(file: string, benchmark: string)

  /** The current run's report files. */
  function ReportFiles(currentDir: Directory): set<string>
  {
    set f | f in currentDir && IsReportFile(f)
  }

  /** The loaded means of file `f` of `dir`. */
  function Means(dir: Directory, f: string): map<string, real>
    requires f in dir
  {
    LoadBenchmarks(dir[f])
  }

  /** Comparing report `f` with its baseline would divide by a zero baseline mean. */
  ghost predicate PairAborts(baselineDir: Directory, currentDir: Directory, f: string)
  {
    f in currentDir && f in baselineDir && HasZeroBaseline(Means(baselineDir, f), Means(currentDir, f))
  }

  /** Report `f` has no baseline, or no benchmark of it regressed against its baseline. */
  ghost predicate PairPasses(baselineDir: Directory, currentDir: Directory, f: string, threshold: real)
  {
    f in currentDir && (f in baselineDir ==> NoRegression(Means(baselineDir, f), Means(currentDir, f), threshold))
  }

  /** What `main` does with report `f`, when it gets that far. */
  ghost predicate EventFor(baselineDir: Directory, currentDir: Directory, threshold: real, e: FileEvent)
  {
    && e.file in ReportFiles(currentDir)
    && (e.Skipped? <==> e.file !in baselineDir)
    && (e.Compared? ==> !PairAborts(baselineDir, currentDir, e.file) && (e.passed <==> PairPasses(baselineDir, currentDir, e.file, threshold)))
  }

  /** The files of `events`, in order. */
  function Files(events: seq<FileEvent>): (files: seq<string>)
    ensures |files| == |events| && forall i :: 0 <= i < |events| ==> files[i] == events[i].file
  {
    seq(|events|, i requires 0 <= i < |events| => events[i].file)
  }

  /**
   * How a run of `main` may end, given the two directories and the
   * threshold. With no report file in the current run: status 1 and no
   * comparison. Otherwise the report files are visited in ascending order of
   * name; one without a baseline is skipped and changes nothing, the others
   * are compared. The run aborts with ZeroDivisionError iff some report file
   * has a benchmark whose baseline mean is zero, at the first such file and
   * the first such benchmark of it in ascending order of name; it
   * ends with status 0 iff there is a report file and every compared file
   * passed, and with status 1 otherwise.
   */
  ghost predicate RunOutcome(baselineDir: Directory, currentDir: Directory, threshold: real, exit: Exit, events: seq<FileEvent>)
  {
    && (ReportFiles(currentDir) == {} ==> exit == Status(1) && events == [])
    && (exit.ZeroDivisionError? <==> exists f :: f in ReportFiles(currentDir) && PairAborts(baselineDir, currentDir, f))
    && (exit == Status(0) <==>
          && ReportFiles(currentDir) != {}
          && (forall f :: f in ReportFiles(currentDir) ==> !PairAborts(baselineDir, currentDir, f))
          && (forall f :: f in ReportFiles(currentDir) ==> PairPasses(baselineDir, currentDir, f, threshold)))
    && (exit.Status? ==> exit.code == 0 || exit.code == 1)
    && (forall i :: 0 <= i < |events| ==> EventFor(baselineDir, currentDir, threshold, events[i]))
    && StrictlyIncreasing(Files(events))
    && (exit.Status? ==> forall f :: f in ReportFiles(currentDir) <==> f in Files(events))
    && (exit.ZeroDivisionError? ==>
          && exit.file in ReportFiles(currentDir) && PairAborts(baselineDir, currentDir, exit.file)
          && exit.benchmark in Means(currentDir, exit.file) && exit.benchmark in Means(baselineDir, exit.file)
          && Means(baselineDir, exit.file)[exit.benchmark] == 0.0
          && (forall n :: n in Means(currentDir, exit.file) && n in Means(baselineDir, exit.file) && Means(baselineDir, exit.file)[n] == 0.0 ==>
                !Below(n, exit.benchmark))
          && forall f :: f in ReportFiles(currentDir) ==> (f in Files(events) <==> Below(f, exit.file)))
  }

  /** `main`, once the command line is parsed. */
  method Run(baselineDir: Directory, currentDir: Directory, threshold: real)
    returns (exit: Exit, events: seq<FileEvent>)
    ensures RunOutcome(baselineDir, currentDir, threshold, exit, events)
  {
    var reportFiles := ReportFiles(currentDir);
    if reportFiles == {} {
      exit, events := Status(1), [];
      NoReportFiles(baselineDir, currentDir, threshold);
      return;
    }
    var files := Sorted(reportFiles);
    var allPassed := true;
    events := [];
    for i := 0 to |files|
      invariant |events| == i && forall k :: 0 <= k < i ==> events[k].file == files[k]
      invariant forall k :: 0 <= k < i ==> EventFor(baselineDir, currentDir, threshold, events[k])
      invariant allPassed <==> forall k :: 0 <= k < i ==> PairPasses(baselineDir, currentDir, files[k], threshold)
    {
      var filename := files[i];
      assert filename in reportFiles;
      if filename !in baselineDir {
        events := events + [Skipped(filename)];
        continue;
      }
      var outcome, rows := CompareFiles(baselineDir[filename], currentDir[filename], threshold);
      if outcome.DivisionByZero? {
        exit := ZeroDivisionError(filename, outcome.name);
        assert Files(events) == files[..i];
        AbortedAt(baselineDir, currentDir, threshold, files, i, events, outcome.name);
        return;
      }
      if !outcome.passed {
        allPassed := false;
      }
      events := events + [Compared(filename, outcome.passed)];
    }
    exit := if allPassed then Status(0) else Status(1);
    assert Files(events) == files;
    AllFilesVisited(baselineDir, currentDir, threshold, files, events, allPassed);
  }

  lemma NoReportFiles(baselineDir: Directory, currentDir: Directory, threshold: real)
    requires ReportFiles(currentDir) == {}
    ensures RunOutcome(baselineDir, currentDir, threshold, Status(1), [])
  {
  }

  /** The run that aborts at `files[i]` after visiting the files before it. */
  lemma AbortedAt(baselineDir: Directory, currentDir: Directory, threshold: real, files: seq<string>, i: nat,
                  events: seq<FileEvent>, benchmark: string)
    requires StrictlyIncreasing(files) && forall f :: f in files <==> f in ReportFiles(currentDir)
    requires i < |files| && Files(events) == files[..i]
    requires forall k :: 0 <= k < |events| ==> EventFor(baselineDir, currentDir, threshold, events[k])
    requires files[i] in currentDir && files[i] in baselineDir
    requires benchmark in Means(currentDir, files[i]) && benchmark in Means(baselineDir, files[i])
    requires Means(baselineDir, files[i])[benchmark] == 0.0
    requires forall n :: n in Means(currentDir, files[i]) && n in Means(baselineDir, files[i]) && Means(baselineDir, files[i])[n] == 0.0 ==>
      !Below(n, benchmark)
    ensures RunOutcome(baselineDir, currentDir, threshold, ZeroDivisionError(files[i], benchmark), events)
  {
    assert files[i] in files;
    assert PairAborts(baselineDir, currentDir, files[i]);
    SortedPrefix(files, i);
    forall a, b | 0 <= a < b < |events|
      ensures Below(Files(events)[a], Files(events)[b])
    {
      assert Files(events)[a] == files[a] && Files(events)[b] == files[b];
    }
  }

  /**
   * The run that visited every report file: none aborts, and all of them
   * pass iff every visited one passed.
   */
  lemma AllFilesVisited(baselineDir: Directory, currentDir: Directory, threshold: real, files: seq<string>,
                        events: seq<FileEvent>, allPassed: bool)
    requires ReportFiles(currentDir) != {}
    requires StrictlyIncreasing(files) && forall f :: f in files <==> f in ReportFiles(currentDir)
    requires Files(events) == files
    requires forall k :: 0 <= k < |events| ==> EventFor(baselineDir, currentDir, threshold, events[k])
    requires allPassed <==> forall k :: 0 <= k < |files| ==> PairPasses(baselineDir, currentDir, files[k], threshold)
    ensures RunOutcome(baselineDir, currentDir, threshold, if allPassed then Status(0) else Status(1), events)
  {
    forall f | f in ReportFiles(currentDir)
      ensures !PairAborts(baselineDir, currentDir, f)
      ensures PairPasses(baselineDir, currentDir, f, threshold) <== allPassed
    {
      var k := IndexOf(files, f);
      assert EventFor(baselineDir, currentDir, threshold, events[k]);
    }
  }

  /** A run that aborts on a given report file names the same benchmark whatever run it is. */
  lemma {:induction false} AbortedBenchmarkDetermined(baselineDir: Directory, currentDir: Directory, threshold: real,
                                                       exit1: Exit, events1: seq<FileEvent>, exit2: Exit, events2: seq<FileEvent>)
    requires RunOutcome(baselineDir, currentDir, threshold, exit1, events1)
    requires RunOutcome(baselineDir, currentDir, threshold, exit2, events2)
    requires exit1.ZeroDivisionError? && exit2.ZeroDivisionError? && exit1.file == exit2.file
    ensures exit1.benchmark == exit2.benchmark
  {
    if exit1.benchmark != exit2.benchmark {
      BelowTotal(exit1.benchmark, exit2.benchmark);
    }
  }

  /** Two runs with the same reports and no zero mean pass for any non-negative threshold. */
  lemma UnchangedRunPasses(dir: Directory, threshold: real)
    requires threshold >= 0.0
    requires forall f :: f in ReportFiles(dir) ==> forall n :: n in Means(dir, f) ==> Means(dir, f)[n] != 0.0
    ensures forall f :: f in ReportFiles(dir) ==> !PairAborts(dir, dir, f) && PairPasses(dir, dir, f, threshold)
  {
    forall f | f in ReportFiles(dir)
      ensures PairPasses(dir, dir, f, threshold)
    {
      UnchangedPasses(Means(dir, f), threshold);
    }
  }
}
