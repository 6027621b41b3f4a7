/**
 * The data behind the two comparison charts of analyze_experiments.py:
 * `plot_delay_vs_devices_for_interval` and
 * `plot_throughput_vs_devices_for_interval`. A chart is its file name and
 * one series per protocol (HTTP first, then MQTT) that has data, each series
 * a list of points ordered by device count. Drawing and saving are not modelled.
 */
module Comparison {
  import opened Common
  import opened Text
  import opened FileNames
  import opened Numbers
  import opened Ingestion
  import opened Statistics

  datatype Point = Point(devices: nat, value: real)

  datatype Series = Series(protocol: Protocol, points: seq<Point>)

  datatype Chart = Chart(file: string, series: seq<Series>)

  /** A value observed for a device count: one row of the frame a chart groups. */
  datatype Sample = Sample(devices: nat, value: real)

  // ---------------------------------------------------------------------------
  // `groupby('num_devices')[...].mean().sort_index()`

  predicate Increasing(ds: seq<nat>)
  {
    forall i, j :: 0 <= i < j < |ds| ==> ds[i] < ds[j]
  }

  function InsertUnique(x: nat, ds: seq<nat>): (r: seq<nat>)
    requires Increasing(ds)
    ensures Increasing(r)
    ensures forall y :: y in r <==> y == x || y in ds
  {
    if ds == [] then [x]
    else if x < ds[0] then [x] + ds
    else if x == ds[0] then ds
    else
      var r := InsertUnique(x, ds[1..]);
      assert forall y :: y in ds <==> y == ds[0] || y in ds[1..];
      forall i | 0 <= i < |r| ensures ds[0] < r[i] {
        assert r[i] in r;
        if r[i] != x {
          var k :| 0 <= k < |ds[1..]| && ds[1..][k] == r[i];
          assert ds[k + 1] == r[i];
        }
      }
      [ds[0]] + r
  }

  /** Some sample has device count `d`. */
  predicate Occurs(samples: seq<Sample>, d: nat)
  {
    exists j :: 0 <= j < |samples| && samples[j].devices == d
  }

  /** The distinct device counts of the samples, ascending: the group index. */
  function DeviceCounts(samples: seq<Sample>): (ds: seq<nat>)
    ensures Increasing(ds)
    ensures forall d :: d in ds <==> Occurs(samples, d)
  {
    if samples == [] then []
    else
      var init := samples[..|samples| - 1];
      var ds := InsertUnique(samples[|samples| - 1].devices, DeviceCounts(init));
      assert forall i :: 0 <= i < |init| ==> init[i] == samples[i];
      ds
  }

  /** The values of the samples with device count `d`, in order: one group. */
  function Group(samples: seq<Sample>, d: nat): (g: seq<real>)
    ensures |g| <= |samples|
    ensures Occurs(samples, d) ==> g != []
  {
    if samples == [] then []
    else
      var init, s := samples[..|samples| - 1], samples[|samples| - 1];
      assert forall i :: 0 <= i < |init| ==> init[i] == samples[i];
      Group(init, d) + if s.devices == d then [s.value] else []
  }

  function MeansOver(samples: seq<Sample>, ds: seq<nat>): (ps: seq<Point>)
    requires forall i :: 0 <= i < |ds| ==> Group(samples, ds[i]) != []
    ensures |ps| == |ds|
    ensures forall i :: 0 <= i < |ds| ==> ps[i] == Point(ds[i], Mean(Group(samples, ds[i])))
  {
    if ds == [] then []
    else MeansOver(samples, ds[..|ds| - 1]) + [Point(ds[|ds| - 1], Mean(Group(samples, ds[|ds| - 1])))]
  }

  /**
   * One point per distinct device count, ascending, whose value is the mean
   * of that group's values and so lies between the group's extremes.
   */
  function GroupMeans(samples: seq<Sample>): (ps: seq<Point>)
    ensures |ps| == |DeviceCounts(samples)|
    ensures forall i, j :: 0 <= i < j < |ps| ==> ps[i].devices < ps[j].devices
    ensures forall i :: 0 <= i < |ps| ==>
              ps[i].devices == DeviceCounts(samples)[i] &&
              Group(samples, ps[i].devices) != [] && ps[i].value == Mean(Group(samples, ps[i].devices)) &&
              Min(Group(samples, ps[i].devices)) <= ps[i].value <= Max(Group(samples, ps[i].devices))
  {
    var ds := DeviceCounts(samples);
    forall i | 0 <= i < |ds| ensures Group(samples, ds[i]) != [] {
      assert ds[i] in ds;
    }
    MeansOver(samples, ds)
  }

  predicate DistinctDevices(samples: seq<Sample>)
  {
    forall i, j :: 0 <= i < j < |samples| ==> samples[i].devices != samples[j].devices
  }

  lemma {:induction false} GroupMember(samples: seq<Sample>, d: nat)
    requires Group(samples, d) != []
    ensures Occurs(samples, d)
  {
    var init, s := samples[..|samples| - 1], samples[|samples| - 1];
    if s.devices != d {
      GroupMember(init, d);
      var j :| 0 <= j < |init| && init[j].devices == d;
      assert samples[j] == init[j];
    }
  }

  /** When no device count repeats, a group is the one value of its sample. */
  lemma {:induction false} GroupOfDistinct(samples: seq<Sample>, j: nat)
    requires DistinctDevices(samples) && j < |samples|
    ensures Group(samples, samples[j].devices) == [samples[j].value]
  {
    var n := |samples| - 1;
    var init, s := samples[..n], samples[n];
    var d := samples[j].devices;
    assert forall i :: 0 <= i < n ==> init[i] == samples[i];
    if j == n {
      if Group(init, d) != [] {
        GroupMember(init, d);
      }
    } else {
      GroupOfDistinct(init, j);
      assert samples[j] == init[j];
    }
  }

  /** When no device count repeats, each point is one of the samples. */
  lemma PointOfDistinct(samples: seq<Sample>, i: nat)
    requires DistinctDevices(samples) && i < |GroupMeans(samples)|
    ensures exists j :: 0 <= j < |samples| && samples[j] == Sample(GroupMeans(samples)[i].devices, GroupMeans(samples)[i].value)
  {
    var pt := GroupMeans(samples)[i];
    var ds := DeviceCounts(samples);
    assert ds[i] in ds;
    var j :| 0 <= j < |samples| && samples[j].devices == pt.devices;
    GroupOfDistinct(samples, j);
    MeanOfOne(samples[j].value);
  }

  /**
   * The series a chart draws: the HTTP points if there are HTTP samples,
   * then the MQTT points if there are MQTT samples.
   */
  function Assemble(file: string, http: seq<Point>, hasHttp: bool, mqtt: seq<Point>, hasMqtt: bool): (c: Chart)
    ensures c.file == file && |c.series| <= 2
    ensures forall k :: 0 <= k < |c.series| && c.series[k].protocol == HTTP ==> c.series[k].points == http
    ensures forall k :: 0 <= k < |c.series| && c.series[k].protocol == MQTT ==> c.series[k].points == mqtt
    ensures (exists k :: 0 <= k < |c.series| && c.series[k].protocol == HTTP) <==> hasHttp
    ensures (exists k :: 0 <= k < |c.series| && c.series[k].protocol == MQTT) <==> hasMqtt
    ensures forall k, l :: 0 <= k < l < |c.series| ==> c.series[k].protocol == HTTP && c.series[l].protocol == MQTT
  {
    var h, m := Series(HTTP, http), Series(MQTT, mqtt);
    if !hasHttp && !hasMqtt then Chart(file, [])
    else if !hasHttp then assert [m][0] == m; Chart(file, [m])
    else if !hasMqtt then assert [h][0] == h; Chart(file, [h])
    else assert [h, m][0] == h && [h, m][1] == m; Chart(file, [h, m])
  }

  /** The chart drawn from the HTTP and the MQTT samples, each protocol grouped by device count. */
  function Plot(file: string, http: seq<Sample>, mqtt: seq<Sample>): Chart
  {
    Assemble(file, GroupMeans(http), http != [], GroupMeans(mqtt), mqtt != [])
  }

  /** Each series of a chart draws the grouped means of its own protocol's samples. */
  lemma SeriesPoints(file: string, http: seq<Sample>, mqtt: seq<Sample>, k: nat)
    requires k < |Plot(file, http, mqtt).series|
    ensures var s := Plot(file, http, mqtt).series[k];
            s.points == GroupMeans(if s.protocol == HTTP then http else mqtt)
  {
  }

  // ---------------------------------------------------------------------------
  // Average delay against device count

  /** Whether some statistics row has the interval: `not stats_df[stats_df['message_frequency'] == interval].empty`. */
  predicate HasInterval(stats: seq<Summary>, interval: int)
  {
    exists i :: 0 <= i < |stats| && stats[i].key.interval == interval
  }

  /** The `mean_delay` samples of one protocol among the rows of one interval, in row order. */
  function DelaySamples(stats: seq<Summary>, interval: int, p: Protocol): (samples: seq<Sample>)
    ensures samples != [] <==> exists i :: 0 <= i < |stats| && stats[i].key.interval == interval && stats[i].key.protocol == p
    ensures forall j :: 0 <= j < |samples| ==>
              exists i :: 0 <= i < |stats| && stats[i].key.interval == interval && stats[i].key.protocol == p &&
                          samples[j] == Sample(stats[i].key.devices, stats[i].mean)
  {
    if stats == [] then []
    else
      var init, s := stats[..|stats| - 1], stats[|stats| - 1];
      assert forall i :: 0 <= i < |init| ==> init[i] == stats[i];
      DelaySamples(init, interval, p) +
      if s.key.interval == interval && s.key.protocol == p then [Sample(s.key.devices, s.mean)] else []
  }

  /** `f'delay_vs_devices_{interval}s.png'`. */
  function DelayFile(interval: int): string
  {
    "delay_vs_devices_" + IntToString(interval) + "s.png"
  }

  /**
   * `plot_delay_vs_devices_for_interval(stats_df, interval_seconds=interval)`:
   * `None` when no row has the interval, otherwise a series for each protocol
   * with rows, HTTP first.
   */
  function DelayChart(stats: seq<Summary>, interval: int): (c: Option<Chart>)
    ensures c.None? <==> !HasInterval(stats, interval)
    ensures c.Some? ==> c.value == Plot(DelayFile(interval), DelaySamples(stats, interval, HTTP), DelaySamples(stats, interval, MQTT))
  {
    if !HasInterval(stats, interval) then None
    else Some(Plot(DelayFile(interval), DelaySamples(stats, interval, HTTP), DelaySamples(stats, interval, MQTT)))
  }

  /** With one row per key, no device count repeats within one interval and protocol. */
  lemma {:induction false} DelaySamplesDistinct(stats: seq<Summary>, interval: int, p: Protocol)
    requires forall i, j :: 0 <= i < j < |stats| ==> stats[i].key != stats[j].key
    ensures DistinctDevices(DelaySamples(stats, interval, p))
  {
    if stats != [] {
      var n := |stats| - 1;
      var init, s := stats[..n], stats[n];
      assert forall i :: 0 <= i < n ==> init[i] == stats[i];
      DelaySamplesDistinct(init, interval, p);
      var before := DelaySamples(init, interval, p);
      if s.key.interval == interval && s.key.protocol == p {
        forall j | 0 <= j < |before| ensures before[j].devices != s.key.devices {
          var i :| 0 <= i < n && init[i].key.interval == interval && init[i].key.protocol == p &&
                   before[j] == Sample(init[i].key.devices, init[i].mean);
          assert stats[i].key != stats[n].key;
        }
        DistinctSnoc(before, Sample(s.key.devices, s.mean));
        assert DelaySamples(stats, interval, p) == before + [Sample(s.key.devices, s.mean)];
      } else {
        assert DelaySamples(stats, interval, p) == before;
      }
    }
  }

  /**
   * With one row per key, as `aggregate_statistics` produces, each point of
   * the delay chart is the mean delay of the one configuration it stands for.
   */
  lemma DelayPointIsRowMean(stats: seq<Summary>, interval: int, k: nat, i: nat)
    requires forall i, j :: 0 <= i < j < |stats| ==> stats[i].key != stats[j].key
    requires DelayChart(stats, interval).Some?
    requires k < |DelayChart(stats, interval).value.series|
    requires i < |DelayChart(stats, interval).value.series[k].points|
    ensures var series := DelayChart(stats, interval).value.series[k];
            exists r :: 0 <= r < |stats| &&
              stats[r].key.interval == interval && stats[r].key.protocol == series.protocol &&
              stats[r].key.devices == series.points[i].devices && stats[r].mean == series.points[i].value
  {
    var series := DelayChart(stats, interval).value.series[k];
    var samples := DelaySamples(stats, interval, series.protocol);
    SeriesPoints(DelayFile(interval), DelaySamples(stats, interval, HTTP), DelaySamples(stats, interval, MQTT), k);
    DelaySamplesDistinct(stats, interval, series.protocol);
    PointOfDistinct(samples, i);
  }

  /** Some statistics row has this interval and protocol. */
  predicate HasRows(stats: seq<Summary>, interval: int, p: Protocol)
  {
    exists i :: 0 <= i < |stats| && stats[i].key.interval == interval && stats[i].key.protocol == p
  }

  /** The point is the mean delay of a statistics row of this interval, protocol and device count. */
  predicate MeanAt(stats: seq<Summary>, interval: int, p: Protocol, pt: Point)
  {
    exists r :: 0 <= r < |stats| && stats[r].key.interval == interval && stats[r].key.protocol == p &&
                stats[r].key.devices == pt.devices && stats[r].mean == pt.value
  }

  /**
   * What the delay step of an interval yields: nothing when no statistics
   * row has the interval; otherwise a chart laid out by protocol with a
   * series for each protocol that has rows, whose points are exactly the
   * mean delays of the interval's rows.
   */
  ghost predicate DrawsStats(stats: seq<Summary>, interval: int, c: Option<Chart>)
  {
    && (c.None? <==> !HasInterval(stats, interval))
    && (c.Some? ==> DrawsMeans(stats, interval, c.value))
  }

  ghost predicate DrawsMeans(stats: seq<Summary>, interval: int, c: Chart)
  {
    && c.file == DelayFile(interval) && LaidOut(c)
    && (forall p :: HasSeries(c, p) <==> HasRows(stats, interval, p))
    && OnlyMeans(stats, interval, c)
    && AllMeans(stats, interval, c)
  }

  /** Every point is the mean delay of a row of its interval, protocol and device count. */
  ghost predicate OnlyMeans(stats: seq<Summary>, interval: int, c: Chart)
  {
    forall k, i :: 0 <= k < |c.series| && 0 <= i < |c.series[k].points| ==>
      MeanAt(stats, interval, c.series[k].protocol, c.series[k].points[i])
  }

  /** Every row of the interval is drawn at its device count in its protocol's series. */
  ghost predicate AllMeans(stats: seq<Summary>, interval: int, c: Chart)
  {
    forall r :: 0 <= r < |stats| && stats[r].key.interval == interval ==>
      Drawn(c, stats[r].key.protocol, Point(stats[r].key.devices, stats[r].mean))
  }

  /**
   * With one row per key, as `aggregate_statistics` produces, the delay chart
   * of an interval draws exactly the mean delays of that interval's rows.
   */
  lemma DelayChartDraws(stats: seq<Summary>, interval: int)
    requires forall i, j :: 0 <= i < j < |stats| ==> stats[i].key != stats[j].key
    ensures DrawsStats(stats, interval, DelayChart(stats, interval))
  {
    if HasInterval(stats, interval) {
      var http, mqtt := DelaySamples(stats, interval, HTTP), DelaySamples(stats, interval, MQTT);
      var c := Plot(DelayFile(interval), http, mqtt);
      PlotLayout(DelayFile(interval), http, mqtt);
      DelaySeries(stats, interval, c);
      DelayOnlyMeans(stats, interval);
      DelayAllMeans(stats, interval);
    }
  }

  lemma DelaySeries(stats: seq<Summary>, interval: int, c: Chart)
    requires HasSeries(c, HTTP) <==> HasRows(stats, interval, HTTP)
    requires HasSeries(c, MQTT) <==> HasRows(stats, interval, MQTT)
    ensures forall p :: HasSeries(c, p) <==> HasRows(stats, interval, p)
  {
    forall p ensures HasSeries(c, p) <==> HasRows(stats, interval, p) {
      if p == HTTP {} else {}
    }
  }

  lemma DelayOnlyMeans(stats: seq<Summary>, interval: int)
    requires forall i, j :: 0 <= i < j < |stats| ==> stats[i].key != stats[j].key
    requires HasInterval(stats, interval)
    ensures OnlyMeans(stats, interval, DelayChart(stats, interval).value)
  {
    var c := DelayChart(stats, interval).value;
    forall k, i | 0 <= k < |c.series| && 0 <= i < |c.series[k].points|
      ensures MeanAt(stats, interval, c.series[k].protocol, c.series[k].points[i])
    {
      DelayPointIsRowMean(stats, interval, k, i);
    }
  }

  lemma DelayAllMeans(stats: seq<Summary>, interval: int)
    requires forall i, j :: 0 <= i < j < |stats| ==> stats[i].key != stats[j].key
    requires HasInterval(stats, interval)
    ensures AllMeans(stats, interval, DelayChart(stats, interval).value)
  {
    forall r | 0 <= r < |stats| && stats[r].key.interval == interval
      ensures Drawn(DelayChart(stats, interval).value, stats[r].key.protocol, Point(stats[r].key.devices, stats[r].mean))
    {
      DelayComplete(stats, interval, r);
    }
  }

  /** Each statistics row of the interval gives one of its protocol's delay samples. */
  lemma {:induction false} DelaySampleOf(stats: seq<Summary>, interval: int, r: nat)
    requires r < |stats| && stats[r].key.interval == interval
    ensures var samples := DelaySamples(stats, interval, stats[r].key.protocol);
            exists j :: 0 <= j < |samples| && samples[j] == Sample(stats[r].key.devices, stats[r].mean)
  {
    var n := |stats| - 1;
    var p := stats[r].key.protocol;
    var init := stats[..n];
    var s := Sample(stats[r].key.devices, stats[r].mean);
    if r == n {
      var before := DelaySamples(init, interval, p);
      assert DelaySamples(stats, interval, p)[|before|] == s;
    } else {
      assert init[r] == stats[r];
      DelaySampleOf(init, interval, r);
      var j :| 0 <= j < |DelaySamples(init, interval, p)| && DelaySamples(init, interval, p)[j] == s;
      assert DelaySamples(stats, interval, p)[j] == s;
    }
  }

  /**
   * With one row per key, every statistics row of the interval is drawn, at
   * its device count and with its mean delay, in its protocol's series.
   */
  lemma DelayComplete(stats: seq<Summary>, interval: int, r: nat)
    requires forall i, j :: 0 <= i < j < |stats| ==> stats[i].key != stats[j].key
    requires r < |stats| && stats[r].key.interval == interval
    ensures DelayChart(stats, interval).Some?
    ensures Drawn(DelayChart(stats, interval).value, stats[r].key.protocol, Point(stats[r].key.devices, stats[r].mean))
  {
    var p := stats[r].key.protocol;
    var http, mqtt := DelaySamples(stats, interval, HTTP), DelaySamples(stats, interval, MQTT);
    var samples := DelaySamples(stats, interval, p);
    assert samples == if p == HTTP then http else mqtt;
    DelaySampleOf(stats, interval, r);
    var j :| 0 <= j < |samples| && samples[j] == Sample(stats[r].key.devices, stats[r].mean);
    DelaySamplesDistinct(stats, interval, p);
    GroupMeansOfDistinct(samples, j);
    var m :| 0 <= m < |GroupMeans(samples)| && GroupMeans(samples)[m] == Point(stats[r].key.devices, stats[r].mean);
    GroupedPointDrawn(DelayFile(interval), http, mqtt, p, m);
  }

  // ---------------------------------------------------------------------------
  // Throughput against device count

  /** One record of the throughput frame: a configuration and its mean message rate. */
  datatype Record = Record(key: ExperimentKey, rate: real)

  /** The number of runs with a positive span. */
  function UsableRuns(runs: seq<Run>): (n: nat)
    ensures n <= |runs|
    ensures n == |runs| <==> forall i :: 0 <= i < |runs| ==> runs[i].span > 0.0
  {
    if runs == [] then 0
    else
      var init := runs[..|runs| - 1];
      assert forall i :: 0 <= i < |init| ==> init[i] == runs[i];
      UsableRuns(init) + if runs[|runs| - 1].span > 0.0 then 1 else 0
  }

  /** The rate of a run: its message count over its span. */
  function RunRate(r: Run): real
    requires r.span > 0.0
  {
    r.count as real / r.span
  }

  /**
   * `[cnt / span for (cnt, span) in runs if span > 0]`: one rate per run with
   * a positive span, each the rate of such a run, and every such run's rate
   * among them.
   */
  function PerRunRates(runs: seq<Run>): (rates: seq<real>)
    ensures |rates| == UsableRuns(runs)
    ensures forall i :: 0 <= i < |rates| ==> exists j :: 0 <= j < |runs| && runs[j].span > 0.0 && rates[i] == RunRate(runs[j])
    ensures forall j :: 0 <= j < |runs| && runs[j].span > 0.0 ==> RunRate(runs[j]) in rates
  {
    if runs == [] then []
    else
      var init, r := runs[..|runs| - 1], runs[|runs| - 1];
      assert forall i :: 0 <= i < |init| ==> init[i] == runs[i];
      PerRunRates(init) + if r.span > 0.0 then [RunRate(r)] else []
  }

  /** The rates keep the order of the runs: the rates of two lists of runs are the rates of each, in turn. */
  lemma {:induction false} PerRunRatesAppend(a: seq<Run>, b: seq<Run>)
    ensures PerRunRates(a + b) == PerRunRates(a) + PerRunRates(b)
  {
    if b != [] {
      var n := |b| - 1;
      assert (a + b)[..|a + b| - 1] == a + b[..n];
      assert (a + b)[|a + b| - 1] == b[n];
      PerRunRatesAppend(a, b[..n]);
    } else {
      assert a + b == a;
    }
  }

  /** The mean rate of every configuration of the interval that has a run with a positive span. */
  function RateTable(runs: map<ExperimentKey, seq<Run>>, interval: int): map<ExperimentKey, real>
  {
    map k | k in runs && k.interval == interval && PerRunRates(runs[k]) != [] :: Mean(PerRunRates(runs[k]))
  }

  /**
   * The record loop of `plot_throughput_vs_devices_for_interval`: one record
   * per configuration of the interval with a usable run. Records come out in
   * the dictionary's iteration order, which the model leaves open.
   */
  method ThroughputRecords(runs: map<ExperimentKey, seq<Run>>, interval: int) returns (records: seq<Record>)
    ensures forall i, j :: 0 <= i < j < |records| ==> records[i].key != records[j].key
    ensures forall r :: r in records <==> r.key in RateTable(runs, interval) && r.rate == RateTable(runs, interval)[r.key]
  {
    var table := RateTable(runs, interval);
    records := [];
    var todo := runs.Keys;
    while todo != {}
      invariant todo <= runs.Keys
      invariant ListsDone(records, table, todo)
      decreases todo
    {
      var k :| k in todo;
      var next := [];
      if k.interval == interval && runs[k] != [] {
        var rates := PerRunRates(runs[k]);
        if rates != [] {
          next := [Record(k, Mean(rates))];
        }
      }
      assert next == if k in table then [Record(k, table[k])] else [];
      RecordsStep(records, table, todo, k);
      records, todo := records + next, todo - {k};
    }
  }

  /** The records list, once each, exactly the entries of the table whose key has been visited. */
  ghost predicate ListsDone(records: seq<Record>, table: map<ExperimentKey, real>, todo: set<ExperimentKey>)
  {
    && (forall i, j :: 0 <= i < j < |records| ==> records[i].key != records[j].key)
    && (forall r :: r in records ==> r.key !in todo)
    && (forall r :: r in records <==> r.key in table && r.key !in todo && r.rate == table[r.key])
  }

  /** Visiting one more key appends its entry, if it has one. */
  lemma RecordsStep(records: seq<Record>, table: map<ExperimentKey, real>, todo: set<ExperimentKey>, k: ExperimentKey)
    requires k in todo && ListsDone(records, table, todo)
    ensures ListsDone(records + if k in table then [Record(k, table[k])] else [], table, todo - {k})
  {
    var next := if k in table then [Record(k, table[k])] else [];
    var all := records + next;
    forall i, j | 0 <= i < j < |all| ensures all[i].key != all[j].key {
      if j >= |records| {
        assert all[i] in records;
      }
    }
  }

  /** The rate samples of one protocol among the records, in record order. */
  function RateSamples(records: seq<Record>, p: Protocol): (samples: seq<Sample>)
    ensures samples != [] <==> exists i :: 0 <= i < |records| && records[i].key.protocol == p
    ensures forall j :: 0 <= j < |samples| ==>
              exists i :: 0 <= i < |records| && records[i].key.protocol == p &&
                          samples[j] == Sample(records[i].key.devices, records[i].rate)
  {
    if records == [] then []
    else
      var init, r := records[..|records| - 1], records[|records| - 1];
      assert forall i :: 0 <= i < |init| ==> init[i] == records[i];
      RateSamples(init, p) + if r.key.protocol == p then [Sample(r.key.devices, r.rate)] else []
  }

  lemma DistinctSnoc(samples: seq<Sample>, s: Sample)
    requires DistinctDevices(samples)
    requires forall j :: 0 <= j < |samples| ==> samples[j].devices != s.devices
    ensures DistinctDevices(samples + [s])
  {
    var all := samples + [s];
    forall i, j | 0 <= i < j < |all| ensures all[i].devices != all[j].devices {
      if j == |samples| {
        assert all[i] == samples[i] && all[j] == s;
      } else {
        assert all[i] == samples[i] && all[j] == samples[j];
      }
    }
  }

  /** Records of one interval with distinct keys give no repeated device count within a protocol. */
  lemma {:induction false} RateSamplesDistinct(records: seq<Record>, interval: int, p: Protocol)
    requires forall i :: 0 <= i < |records| ==> records[i].key.interval == interval
    requires forall i, j :: 0 <= i < j < |records| ==> records[i].key != records[j].key
    ensures DistinctDevices(RateSamples(records, p))
  {
    if records != [] {
      var n := |records| - 1;
      var init, r := records[..n], records[n];
      assert forall i :: 0 <= i < n ==> init[i] == records[i];
      RateSamplesDistinct(init, interval, p);
      var before := RateSamples(init, p);
      if r.key.protocol == p {
        forall j | 0 <= j < |before| ensures before[j].devices != r.key.devices {
          var i :| 0 <= i < n && init[i].key.protocol == p && before[j] == Sample(init[i].key.devices, init[i].rate);
          assert records[i].key != records[n].key;
        }
        DistinctSnoc(before, Sample(r.key.devices, r.rate));
        assert RateSamples(records, p) == before + [Sample(r.key.devices, r.rate)];
      } else {
        assert RateSamples(records, p) == before;
      }
    }
  }

  /** `f'throughput_vs_devices_{interval}s.png'`. */
  function ThroughputFile(interval: int): string
  {
    "throughput_vs_devices_" + IntToString(interval) + "s.png"
  }

  /** The throughput chart of the records, or `None` when there are none. */
  function ThroughputChart(records: seq<Record>, interval: int): (c: Option<Chart>)
    ensures c.None? <==> records == []
    ensures c.Some? ==> c.value == Plot(ThroughputFile(interval), RateSamples(records, HTTP), RateSamples(records, MQTT))
  {
    if records == [] then None
    else Some(Plot(ThroughputFile(interval), RateSamples(records, HTTP), RateSamples(records, MQTT)))
  }

  /** The point stands for the configuration of this interval, protocol and device count, and is its rate in the table. */
  predicate RateAt(table: map<ExperimentKey, real>, interval: int, p: Protocol, pt: Point)
  {
    interval >= 0 && ExperimentKey(interval, pt.devices, p) in table && table[ExperimentKey(interval, pt.devices, p)] == pt.value
  }

  /** Records list the table's entries, one per key. */
  ghost predicate Lists(records: seq<Record>, table: map<ExperimentKey, real>)
  {
    forall r :: r in records <==> r.key in table && r.rate == table[r.key]
  }

  lemma SampleIsRate(table: map<ExperimentKey, real>, interval: int, records: seq<Record>, p: Protocol, j: nat)
    requires forall key :: key in table ==> key.interval == interval
    requires Lists(records, table)
    requires j < |RateSamples(records, p)|
    ensures RateAt(table, interval, p, Point(RateSamples(records, p)[j].devices, RateSamples(records, p)[j].value))
  {
    var samples := RateSamples(records, p);
    var i :| 0 <= i < |records| && records[i].key.protocol == p &&
             samples[j] == Sample(records[i].key.devices, records[i].rate);
    assert records[i] in records;
    var key := records[i].key;
    assert key == ExperimentKey(interval, samples[j].devices, p);
  }

  /** Each grouped rate sample of a protocol, from records that list a table of one interval, is a rate of that table. */
  lemma GroupedRateIsRate(table: map<ExperimentKey, real>, interval: int, records: seq<Record>, p: Protocol, i: nat)
    requires forall key :: key in table ==> key.interval == interval
    requires Lists(records, table)
    requires forall i, j :: 0 <= i < j < |records| ==> records[i].key != records[j].key
    requires i < |GroupMeans(RateSamples(records, p))|
    ensures RateAt(table, interval, p, GroupMeans(RateSamples(records, p))[i])
  {
    var samples := RateSamples(records, p);
    forall j | 0 <= j < |records| ensures records[j].key.interval == interval {
      assert records[j] in records;
    }
    RateSamplesDistinct(records, interval, p);
    PointOfDistinct(samples, i);
    var pt := GroupMeans(samples)[i];
    var j :| 0 <= j < |samples| && samples[j] == Sample(pt.devices, pt.value);
    SampleIsRate(table, interval, records, p, j);
  }

  /** Points listed by strictly increasing device count, as `sort_index()` leaves them. */
  predicate Ascending(ps: seq<Point>)
  {
    forall i, j :: 0 <= i < j < |ps| ==> ps[i].devices < ps[j].devices
  }

  /** At most two series, HTTP before MQTT, each ascending by device count. */
  predicate LaidOut(c: Chart)
  {
    && |c.series| <= 2
    && (forall k, l :: 0 <= k < l < |c.series| ==> c.series[k].protocol == HTTP && c.series[l].protocol == MQTT)
    && (forall k :: 0 <= k < |c.series| ==> Ascending(c.series[k].points))
  }

  predicate HasSeries(c: Chart, p: Protocol)
  {
    exists k :: 0 <= k < |c.series| && c.series[k].protocol == p
  }

  /** The chart draws this point in a series of this protocol. */
  predicate Drawn(c: Chart, p: Protocol, pt: Point)
  {
    exists k, i :: 0 <= k < |c.series| && c.series[k].protocol == p && 0 <= i < |c.series[k].points| && c.series[k].points[i] == pt
  }

  /**
   * What the throughput step of an interval yields: nothing when no
   * configuration of the interval has a usable run; otherwise a chart laid
   * out by protocol with a series for each protocol that has a rate, whose
   * points are exactly the rates of the configurations they stand for.
   */
  ghost predicate ThroughputChartOf(runs: map<ExperimentKey, seq<Run>>, interval: int, c: Option<Chart>)
  {
    DrawsTable(RateTable(runs, interval), interval, c)
  }

  /** The chart, if any, draws this table of rates of one interval; there is one exactly when the table has a rate. */
  ghost predicate DrawsTable(table: map<ExperimentKey, real>, interval: int, c: Option<Chart>)
  {
    && (c.None? <==> table == map[])
    && (c.Some? ==> DrawsRates(table, interval, c.value))
  }

  /**
   * The chart is the throughput chart of the interval, laid out by protocol
   * with a series for each protocol that has a rate, and its points are
   * exactly the rates of the configurations they stand for.
   */
  ghost predicate DrawsRates(table: map<ExperimentKey, real>, interval: int, c: Chart)
  {
    && c.file == ThroughputFile(interval) && LaidOut(c)
    && SeriesPerProtocol(table, c)
    && OnlyRates(table, interval, c)
    && AllRates(table, c)
  }

  /** A series is drawn for a protocol exactly when the table has a configuration of that protocol. */
  ghost predicate SeriesPerProtocol(table: map<ExperimentKey, real>, c: Chart)
  {
    forall p :: HasSeries(c, p) <==> exists key :: key in table && key.protocol == p
  }

  /** Every point is the rate of the configuration of its interval, protocol and device count. */
  ghost predicate OnlyRates(table: map<ExperimentKey, real>, interval: int, c: Chart)
  {
    forall k, i :: 0 <= k < |c.series| && 0 <= i < |c.series[k].points| ==>
      RateAt(table, interval, c.series[k].protocol, c.series[k].points[i])
  }

  /** Every rate of the table is drawn in its protocol's series. */
  ghost predicate AllRates(table: map<ExperimentKey, real>, c: Chart)
  {
    forall key :: key in table ==> Drawn(c, key.protocol, Point(key.devices, table[key]))
  }

  /**
   * `plot_throughput_vs_devices_for_interval(stats_df, throughput_runs, interval_seconds=interval)`:
   * skipped when no configuration of the interval has a usable run; otherwise
   * the chart draws, per protocol and by device count, exactly the rates of
   * the interval's configurations.
   */
  method ThroughputForInterval(runs: map<ExperimentKey, seq<Run>>, interval: int) returns (c: Option<Chart>)
    ensures ThroughputChartOf(runs, interval, c)
  {
    var records := ThroughputRecords(runs, interval);
    c := ThroughputChart(records, interval);
    var table := RateTable(runs, interval);
    assert forall key :: key in table ==> key.interval == interval;
    ChartOfRecords(table, interval, records);
  }

  /** The chart of records that list a table of one interval, once per key, draws that table. */
  lemma ChartOfRecords(table: map<ExperimentKey, real>, interval: int, records: seq<Record>)
    requires forall key :: key in table ==> key.interval == interval
    requires forall i, j :: 0 <= i < j < |records| ==> records[i].key != records[j].key
    requires Lists(records, table)
    ensures DrawsTable(table, interval, ThroughputChart(records, interval))
  {
    RecordsCoverTable(table, records);
    if records != [] {
      PlotDrawsRates(table, interval, records);
    }
  }

  lemma PlotDrawsRates(table: map<ExperimentKey, real>, interval: int, records: seq<Record>)
    requires forall key :: key in table ==> key.interval == interval
    requires forall i, j :: 0 <= i < j < |records| ==> records[i].key != records[j].key
    requires Lists(records, table)
    ensures DrawsRates(table, interval, Plot(ThroughputFile(interval), RateSamples(records, HTTP), RateSamples(records, MQTT)))
  {
    var file := ThroughputFile(interval);
    var c := Plot(file, RateSamples(records, HTTP), RateSamples(records, MQTT));
    PlotLayout(file, RateSamples(records, HTTP), RateSamples(records, MQTT));
    PlotDrawsGroupedRates(file, records);
    ThroughputPoints(table, interval, records, c);
    ThroughputSeries(table, records, c);
    ThroughputComplete(table, interval, records, file);
  }

  /** A chart is laid out by protocol, with a series exactly for each protocol that has samples. */
  lemma PlotLayout(file: string, http: seq<Sample>, mqtt: seq<Sample>)
    ensures LaidOut(Plot(file, http, mqtt))
    ensures HasSeries(Plot(file, http, mqtt), HTTP) <==> http != []
    ensures HasSeries(Plot(file, http, mqtt), MQTT) <==> mqtt != []
  {
    var c := Plot(file, http, mqtt);
    forall k | 0 <= k < |c.series| ensures Ascending(c.series[k].points) {
      SeriesPoints(file, http, mqtt, k);
    }
  }

  /** Each record of a protocol gives one of that protocol's rate samples. */
  lemma {:induction false} RateSampleOf(records: seq<Record>, p: Protocol, i: nat)
    requires i < |records| && records[i].key.protocol == p
    ensures exists j :: 0 <= j < |RateSamples(records, p)| && RateSamples(records, p)[j] == Sample(records[i].key.devices, records[i].rate)
  {
    var n := |records| - 1;
    var init, r := records[..n], records[n];
    var s := Sample(records[i].key.devices, records[i].rate);
    if i == n {
      var before := RateSamples(init, p);
      assert RateSamples(records, p)[|before|] == s;
    } else {
      assert init[i] == records[i];
      RateSampleOf(init, p, i);
      var j :| 0 <= j < |RateSamples(init, p)| && RateSamples(init, p)[j] == s;
      assert RateSamples(records, p)[j] == s;
    }
  }

  /** When no device count repeats, every sample is a point of the grouped means. */
  lemma GroupMeansOfDistinct(samples: seq<Sample>, j: nat)
    requires DistinctDevices(samples) && j < |samples|
    ensures exists m :: 0 <= m < |GroupMeans(samples)| && GroupMeans(samples)[m] == Point(samples[j].devices, samples[j].value)
  {
    var d := samples[j].devices;
    var ds := DeviceCounts(samples);
    assert Occurs(samples, d);
    var m :| 0 <= m < |ds| && ds[m] == d;
    GroupOfDistinct(samples, j);
    MeanOfOne(samples[j].value);
    assert GroupMeans(samples)[m] == Point(d, samples[j].value);
  }

  /** A series is drawn for a protocol exactly when the table has a configuration of that protocol. */
  lemma ThroughputSeries(table: map<ExperimentKey, real>, records: seq<Record>, c: Chart)
    requires Lists(records, table)
    requires HasSeries(c, HTTP) <==> RateSamples(records, HTTP) != []
    requires HasSeries(c, MQTT) <==> RateSamples(records, MQTT) != []
    ensures SeriesPerProtocol(table, c)
  {
    forall p ensures HasSeries(c, p) <==> exists key :: key in table && key.protocol == p {
      if HasSeries(c, p) {
        var i :| 0 <= i < |records| && records[i].key.protocol == p;
        assert records[i] in records;
      }
      if exists key :: key in table && key.protocol == p {
        var key :| key in table && key.protocol == p;
        assert Record(key, table[key]) in records;
      }
    }
  }

  /** Every rate of a table of one interval, listed once per key by the records, is drawn in its protocol's series. */
  lemma ThroughputComplete(table: map<ExperimentKey, real>, interval: int, records: seq<Record>, file: string)
    requires forall key :: key in table ==> key.interval == interval
    requires Lists(records, table)
    requires forall i, j :: 0 <= i < j < |records| ==> records[i].key != records[j].key
    ensures AllRates(table, Plot(file, RateSamples(records, HTTP), RateSamples(records, MQTT)))
  {
    var c := Plot(file, RateSamples(records, HTTP), RateSamples(records, MQTT));
    forall key | key in table ensures Drawn(c, key.protocol, Point(key.devices, table[key])) {
      RateDrawn(table, interval, records, file, key);
    }
  }

  lemma RateDrawn(table: map<ExperimentKey, real>, interval: int, records: seq<Record>, file: string, key: ExperimentKey)
    requires forall key :: key in table ==> key.interval == interval
    requires Lists(records, table)
    requires forall i, j :: 0 <= i < j < |records| ==> records[i].key != records[j].key
    requires key in table
    ensures Drawn(Plot(file, RateSamples(records, HTTP), RateSamples(records, MQTT)), key.protocol, Point(key.devices, table[key]))
  {
    var pt := Point(key.devices, table[key]);
    RateGrouped(table, interval, records, key);
    var m :| 0 <= m < |GroupMeans(RateSamples(records, key.protocol))| && GroupMeans(RateSamples(records, key.protocol))[m] == pt;
    GroupedPointDrawn(file, RateSamples(records, HTTP), RateSamples(records, MQTT), key.protocol, m);
  }

  /** The rate of a key is one of the grouped rate samples of its protocol. */
  lemma RateGrouped(table: map<ExperimentKey, real>, interval: int, records: seq<Record>, key: ExperimentKey)
    requires forall key :: key in table ==> key.interval == interval
    requires Lists(records, table)
    requires forall i, j :: 0 <= i < j < |records| ==> records[i].key != records[j].key
    requires key in table
    ensures exists m :: 0 <= m < |GroupMeans(RateSamples(records, key.protocol))| &&
                        GroupMeans(RateSamples(records, key.protocol))[m] == Point(key.devices, table[key])
  {
    var p := key.protocol;
    var samples := RateSamples(records, p);
    assert Record(key, table[key]) in records;
    var i :| 0 <= i < |records| && records[i] == Record(key, table[key]);
    RateSampleOf(records, p, i);
    var j :| 0 <= j < |samples| && samples[j] == Sample(key.devices, table[key]);
    forall j | 0 <= j < |records| ensures records[j].key.interval == interval {
      assert records[j] in records;
    }
    RateSamplesDistinct(records, interval, p);
    GroupMeansOfDistinct(samples, j);
  }

  /** A grouped point of a protocol's samples is drawn in that protocol's series. */
  lemma GroupedPointDrawn(file: string, http: seq<Sample>, mqtt: seq<Sample>, p: Protocol, m: nat)
    requires m < |GroupMeans(if p == HTTP then http else mqtt)|
    ensures Drawn(Plot(file, http, mqtt), p, GroupMeans(if p == HTTP then http else mqtt)[m])
  {
    var c := Plot(file, http, mqtt);
    PlotLayout(file, http, mqtt);
    assert (if p == HTTP then http else mqtt) != [];
    var k :| 0 <= k < |c.series| && c.series[k].protocol == p;
    SeriesPoints(file, http, mqtt, k);
    assert c.series[k].points[m] == GroupMeans(if p == HTTP then http else mqtt)[m];
  }

  lemma RecordsCoverTable(table: map<ExperimentKey, real>, records: seq<Record>)
    requires Lists(records, table)
    ensures records == [] <==> table == map[]
  {
    assert forall k :: k in table ==> Record(k, table[k]) in records;
    if records != [] {
      assert records[0] in records;
    }
  }

  /** Each series of the chart draws the grouped rate samples of its protocol. */
  ghost predicate DrawsGroupedRates(c: Chart, records: seq<Record>)
  {
    forall k :: 0 <= k < |c.series| ==> c.series[k].points == GroupMeans(RateSamples(records, c.series[k].protocol))
  }

  lemma PlotDrawsGroupedRates(file: string, records: seq<Record>)
    ensures DrawsGroupedRates(Plot(file, RateSamples(records, HTTP), RateSamples(records, MQTT)), records)
  {
    var http, mqtt := RateSamples(records, HTTP), RateSamples(records, MQTT);
    var c := Plot(file, http, mqtt);
    forall k | 0 <= k < |c.series|
      ensures c.series[k].points == GroupMeans(RateSamples(records, c.series[k].protocol))
    {
      SeriesPoints(file, http, mqtt, k);
    }
  }

  /** Each point of a chart drawn from records that list a table of one interval is a rate of that table. */
  lemma ThroughputPoints(table: map<ExperimentKey, real>, interval: int, records: seq<Record>, c: Chart)
    requires forall key :: key in table ==> key.interval == interval
    requires Lists(records, table)
    requires forall i, j :: 0 <= i < j < |records| ==> records[i].key != records[j].key
    requires DrawsGroupedRates(c, records)
    ensures OnlyRates(table, interval, c)
  {
    forall k, i | 0 <= k < |c.series| && 0 <= i < |c.series[k].points|
      ensures RateAt(table, interval, c.series[k].protocol, c.series[k].points[i])
    {
      GroupedRateIsRate(table, interval, records, c.series[k].protocol, i);
    }
  }

  /** A configuration's rate is the mean of its per-run rates, between the slowest and the fastest run. */
  lemma RateBetweenRuns(runs: map<ExperimentKey, seq<Run>>, interval: int, k: ExperimentKey)
    requires k in RateTable(runs, interval)
    ensures k in runs && k.interval == interval
    ensures PerRunRates(runs[k]) != [] && RateTable(runs, interval)[k] == Mean(PerRunRates(runs[k]))
    ensures Min(PerRunRates(runs[k])) <= RateTable(runs, interval)[k] <= Max(PerRunRates(runs[k]))
  {
  }

  /**
   * Rates are averaged per run, not pooled: a run of one message over one
   * second and one over two seconds average 0.75 messages per second, while
   * pooling the two would give 2/3.
   */
  lemma PerRunNotPooled()
    ensures var runs := [Run(1, 1.0), Run(1, 2.0)];
            Mean(PerRunRates(runs)) == 0.75 &&
            (runs[0].count + runs[1].count) as real / (runs[0].span + runs[1].span) != 0.75
  {
    var runs := [Run(1, 1.0), Run(1, 2.0)];
    assert runs[..1] == [Run(1, 1.0)] && runs[..1][..0] == [];
    assert PerRunRates(runs) == [1.0, 0.5];
    assert [1.0, 0.5][..1] == [1.0] && [1.0, 0.5][..1][..0] == [];
    assert Sum([1.0, 0.5]) == 1.5;
  }

  /** The observations a load records all have a positive span, so every run yields a rate. */
  lemma LoadedRunsAllCount(l: Loaded, files: seq<Entry>, k: ExperimentKey)
    requires LoadedFrom(l, Shares(files)) && k in l.runs
    ensures |PerRunRates(l.runs[k])| == |l.runs[k]| > 0
  {
    forall i | 0 <= i < |files| ensures Shares(files)[i] == ShareOf(files[i]) {
      MapSeqAt(ShareOf, files, i);
    }
    RunsPositive(Shares(files), k);
  }

  lemma {:induction false} RunsPositive(shares: seq<Option<Share>>, k: ExperimentKey)
    requires forall i :: 0 <= i < |shares| && shares[i].Some? && shares[i].value.run.Some? ==> shares[i].value.run.value.span > 0.0
    ensures forall i :: 0 <= i < |RunsFor(shares, k)| ==> RunsFor(shares, k)[i].span > 0.0
  {
    if shares != [] {
      var init := shares[..|shares| - 1];
      assert forall i :: 0 <= i < |init| ==> init[i] == shares[i];
      RunsPositive(init, k);
    }
  }
}
