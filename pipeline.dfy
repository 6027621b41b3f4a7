/**
 * `main` of analyze_experiments.py: load the folder, stop when loading fails
 * or yields no delays, aggregate the statistics, then produce the delay
 * charts and the throughput charts, for the interval asked for or for every
 * interval in the statistics. Argument parsing, the printed summary and the
 * optional CSV export are not modelled.
 */
module Pipeline {
  import opened Common
  import opened FileNames
  import opened Ingestion
  import opened Statistics
  import opened Comparison

  datatype Outcome =
    | Failed(error: LoadError)
    | NoData
    | Report(data: Loaded, stats: seq<Summary>, intervals: seq<int>,
             delayCharts: seq<Option<Chart>>, throughputCharts: seq<Option<Chart>>)

  /** `sorted(stats_df['message_frequency'].unique())`. */
  function Intervals(stats: seq<Summary>): (ivs: seq<nat>)
    ensures Increasing(ivs)
    ensures forall x :: x in ivs <==> exists i :: 0 <= i < |stats| && stats[i].key.interval == x
  {
    if stats == [] then []
    else
      var init := stats[..|stats| - 1];
      assert forall i :: 0 <= i < |init| ==> init[i] == stats[i];
      InsertUnique(stats[|stats| - 1].key.interval, Intervals(init))
  }

  /** The intervals to chart: the one asked for, or every interval of the statistics in ascending order. */
  function Requested(stats: seq<Summary>, interval: Option<int>): seq<int>
  {
    if interval.Some? then [interval.value] else Intervals(stats)
  }

  /** `main()` with `--data-folder` given as the folder and `--interval` as `interval`. */
  method Analyze(folder: Folder, interval: Option<int>) returns (o: Outcome)
    ensures folder.Missing? ==> o == Failed(FolderNotFound)
    ensures folder.Present? && CsvFiles(folder.entries) == [] ==> o == Failed(NoCsvFiles)
    ensures o.Failed? <==> folder.Missing? || CsvFiles(folder.entries) == []
    ensures folder.Present? && CsvFiles(folder.entries) != [] ==>
              (o.NoData? <==> KeyOrder(Shares(CsvFiles(folder.entries))) == [])
    ensures folder.Present? && CsvFiles(folder.entries) != [] && KeyOrder(Shares(CsvFiles(folder.entries))) != [] ==>
              o.Report?
    ensures o.Report? ==>
              && folder.Present? && CsvFiles(folder.entries) != []
              && LoadedFrom(o.data, Shares(CsvFiles(folder.entries)))
              && o.stats == Aggregate(o.data.order, o.data.pools)
              && o.stats != []
              && o.intervals == Requested(o.stats, interval)
              && |o.delayCharts| == |o.intervals| == |o.throughputCharts|
              && (forall i :: 0 <= i < |o.intervals| ==> o.delayCharts[i] == DelayChart(o.stats, o.intervals[i]))
              && (forall i :: 0 <= i < |o.intervals| ==> DrawsStats(o.stats, o.intervals[i], o.delayCharts[i]))
              && (forall i :: 0 <= i < |o.intervals| ==> ThroughputChartOf(o.data.runs, o.intervals[i], o.throughputCharts[i]))
    ensures o.Report? && interval.None? ==> forall i :: 0 <= i < |o.delayCharts| ==> o.delayCharts[i].Some?
  {
    var r := LoadExperimentData(folder);
    if r.Err? {
      return Failed(r.error);
    }
    var data := r.value;
    if data.order == [] {
      return NoData;
    }
    var stats := AggregateStatistics(data.order, data.pools);
    StatsNotEmpty(data, CsvFiles(folder.entries));
    var intervals := Requested(stats, interval);

    var delayCharts := DelayCharts(stats, intervals);
    KeyOrderMembers(Shares(CsvFiles(folder.entries)));
    AggregateDistinct(data.order, data.pools);
    forall i | 0 <= i < |intervals| ensures DrawsStats(stats, intervals[i], delayCharts[i]) {
      DelayChartDraws(stats, intervals[i]);
    }
    var throughputCharts := ThroughputCharts(data.runs, intervals);
    if interval.None? {
      EveryIntervalHasRows(stats);
    }
    return Report(data, stats, intervals, delayCharts, throughputCharts);
  }

  /** The delay chart of each interval, in order. */
  method DelayCharts(stats: seq<Summary>, intervals: seq<int>) returns (charts: seq<Option<Chart>>)
    ensures |charts| == |intervals|
    ensures forall j :: 0 <= j < |intervals| ==> charts[j] == DelayChart(stats, intervals[j])
  {
    charts := [];
    var i := 0;
    while i < |intervals|
      invariant 0 <= i <= |intervals|
      invariant |charts| == i
      invariant forall j :: 0 <= j < i ==> charts[j] == DelayChart(stats, intervals[j])
    {
      charts := charts + [DelayChart(stats, intervals[i])];
      i := i + 1;
    }
  }

  /** The throughput chart of each interval, in order. */
  method ThroughputCharts(runs: map<ExperimentKey, seq<Run>>, intervals: seq<int>) returns (charts: seq<Option<Chart>>)
    ensures |charts| == |intervals|
    ensures forall j :: 0 <= j < |intervals| ==> ThroughputChartOf(runs, intervals[j], charts[j])
  {
    charts := [];
    var i := 0;
    while i < |intervals|
      invariant 0 <= i <= |intervals|
      invariant |charts| == i
      invariant forall j :: 0 <= j < i ==> ThroughputChartOf(runs, intervals[j], charts[j])
    {
      var c := ThroughputForInterval(runs, intervals[i]);
      charts := charts + [c];
      i := i + 1;
    }
  }

  /** Loaded data with a key has a statistics row. */
  lemma StatsNotEmpty(l: Loaded, files: seq<Entry>)
    requires LoadedFrom(l, Shares(files)) && l.order != []
    ensures Aggregate(l.order, l.pools) != []
  {
    KeyOrderMembers(Shares(files));
    AggregateRows(l.order, l.pools);
    var k := l.order[0];
    assert k in l.order;
    var s :| s in Aggregate(l.order, l.pools) && s.key == k;
  }

  /** Every interval taken from the statistics has a row, so its delay chart is drawn. */
  lemma EveryIntervalHasRows(stats: seq<Summary>)
    ensures forall i :: 0 <= i < |Intervals(stats)| ==> DelayChart(stats, Intervals(stats)[i]).Some?
  {
    forall i | 0 <= i < |Intervals(stats)| ensures HasInterval(stats, Intervals(stats)[i]) {
      assert Intervals(stats)[i] in Intervals(stats);
    }
  }
}
