/**
 * The loader of compare.py (`load_benchmarks`): from one parsed
 * BenchmarkDotNet full report to the mapping from benchmark name to mean.
 * Reading the file and decoding its JSON are not modelled; a report is given
 * here already parsed.
 */
module Loader {

  datatype Option<T> = None | Some(value: T)

  /** The `Statistics` object of a benchmark entry; its `Mean` may be null. */
  datatype Statistics = Statistics(mean: Option<real>)

  /** One entry of the `Benchmarks` list: its `FullName` and, if present, its `Statistics`. */
  datatype Benchmark = Benchmark(fullName: string, statistics: Option<Statistics>)

  /** A parsed report; the `Benchmarks` field may be absent. */
  datatype Report = Report(benchmarks: Option<seq<Benchmark>>)

  /** `data.get("Benchmarks", [])` */
  function Entries(report: Report): seq<Benchmark>
  {
    match report.benchmarks
    case None => []
    case Some(entries) => entries
  }

  /**
   * The filter of the comprehension: a statistics block is present and its
   * mean is not null. An empty statistics block is falsy in Python, but it has
   * no mean either, so it is dropped just the same.
   */
  predicate HasMean(b: Benchmark)
  {
    b.statistics.Some? && b.statistics.value.mean.Some?
  }

  function MeanOf(b: Benchmark): real
    requires HasMean(b)
  {
    b.statistics.value.mean.value
  }

  /** Entry `i` has a mean and no later entry with a mean carries the same name. */
  ghost predicate LastWithMean(entries: seq<Benchmark>, i: int)
  {
    && 0 <= i < |entries|
    && HasMean(entries[i])
    && forall j :: i < j < |entries| && HasMean(entries[j]) ==> entries[j].fullName != entries[i].fullName
  }

  /** The dictionary comprehension over `entries`, in order. */
  function Collect(entries: seq<Benchmark>): map<string, real>
  {
    if entries == [] then map[]
    else
      var b := entries[|entries| - 1];
      var m := Collect(entries[..|entries| - 1]);
      if HasMean(b) then m[b.fullName := MeanOf(b)] else m
  }

  /** A name is loaded iff some entry of that name has a mean. */
  lemma {:induction false} CollectKeys(entries: seq<Benchmark>)
    ensures forall n :: n in Collect(entries) <==> exists i :: 0 <= i < |entries| && HasMean(entries[i]) && entries[i].fullName == n
  {
    if entries != [] {
      var earlier := entries[..|entries| - 1];
      CollectKeys(earlier);
      assert forall i :: 0 <= i < |earlier| ==> earlier[i] == entries[i];
    }
  }

  /** The loaded mean of a name is that of the last entry of that name with a mean. */
  lemma {:induction false} CollectLastWins(entries: seq<Benchmark>)
    ensures forall n :: n in Collect(entries) ==>
      exists i :: LastWithMean(entries, i) && entries[i].fullName == n && Collect(entries)[n] == MeanOf(entries[i])
  {
    if entries != [] {
      var earlier := entries[..|entries| - 1];
      var b := entries[|entries| - 1];
      var m := Collect(entries);
      CollectLastWins(earlier);
      forall n | n in m
        ensures exists i :: LastWithMean(entries, i) && entries[i].fullName == n && m[n] == MeanOf(entries[i])
      {
        if HasMean(b) && n == b.fullName {
          assert LastWithMean(entries, |entries| - 1);
        } else {
          assert n in Collect(earlier) && m[n] == Collect(earlier)[n];
          var i :| LastWithMean(earlier, i) && earlier[i].fullName == n && Collect(earlier)[n] == MeanOf(earlier[i]);
          assert earlier[i] == entries[i];
          assert LastWithMean(entries, i);
        }
      }
    }
  }

  /** `load_benchmarks`, once the file has been read and decoded. */
  function LoadBenchmarks(report: Report): map<string, real>
  {
    Collect(Entries(report))
  }

  /**
   * A name is loaded iff some entry of that name has a mean, and its value
   * is the mean of the last such entry; a missing `Benchmarks` list loads
   * nothing.
   */
  lemma LoadedMeans(report: Report)
    ensures forall n :: n in LoadBenchmarks(report) <==> exists b :: b in Entries(report) && HasMean(b) && b.fullName == n
    ensures forall n :: n in LoadBenchmarks(report) ==>
      exists i :: LastWithMean(Entries(report), i) && Entries(report)[i].fullName == n && LoadBenchmarks(report)[n] == MeanOf(Entries(report)[i])
    ensures report.benchmarks.None? ==> LoadBenchmarks(report) == map[]
  {
    CollectKeys(Entries(report));
    CollectLastWins(Entries(report));
  }

  /** The entries the comprehension keeps, in order. */
  function Kept(entries: seq<Benchmark>): seq<Benchmark>
  {
    if entries == [] then []
    else
      var rest := Kept(entries[..|entries| - 1]);
      if HasMean(entries[|entries| - 1]) then rest + [entries[|entries| - 1]] else rest
  }

  /** No two entries with a mean carry the same name (names are unique within a report). */
  ghost predicate DistinctNames(entries: seq<Benchmark>)
  {
    forall i, j :: 0 <= i < j < |entries| && HasMean(entries[i]) && HasMean(entries[j]) ==>
      entries[i].fullName != entries[j].fullName
  }

  /** With unique names, the loaded mapping has one key per entry that has a mean. */
  lemma {:induction false} LoadedSize(entries: seq<Benchmark>)
    requires DistinctNames(entries)
    ensures |Collect(entries)| == |Kept(entries)|
  {
    if entries != [] {
      var earlier := entries[..|entries| - 1];
      var b := entries[|entries| - 1];
      assert DistinctNames(earlier);
      LoadedSize(earlier);
      CollectKeys(earlier);
      assert forall i :: 0 <= i < |earlier| ==> earlier[i] == entries[i];
      assert HasMean(b) ==> b.fullName !in Collect(earlier);
    }
  }
}
