/**
 * `load_experiment_data` (analyze_experiments.py): the walk over the run files
 * of a folder that pools accepted delays per experiment key and records one
 * throughput observation per readable file.
 *
 * The folder is given in memory: its entries in directory order, each with the
 * table `pd.read_csv` would produce, or `None` where reading raises (the file
 * is then skipped, as the `except` clause does).
 */
module Ingestion {
  import opened Common
  import opened Timestamps
  import opened Delays
  import opened FileNames
  import opened Numbers
  import opened Tables

  datatype Entry = Entry(name: string, table: Option<Table>)

  datatype Folder = Missing | Present(entries: seq<Entry>)

  /** `FileNotFoundError` and the `ValueError` raised for a folder without CSV files. */
  datatype LoadError = FolderNotFound | NoCsvFiles

  /** One throughput observation: the number of parseable receive times and the seconds they span. */
  datatype Run = Run(count: nat, span: real)

  /**
   * What the loader returns: the delay pools with their keys in insertion
   * order (a Python dict), and the throughput observations per key.
   */
  datatype Loaded = Loaded(order: seq<ExperimentKey>, pools: map<ExperimentKey, seq<real>>, runs: map<ExperimentKey, seq<Run>>)

  predicate IsCsvName(name: string)
  {
    |name| >= 4 && name[|name| - 4..] == ".csv"
  }

  /** `data_folder.glob("*.csv")`: the entries whose name ends in `.csv`, in directory order. */
  function CsvFiles(entries: seq<Entry>): (files: seq<Entry>)
    ensures forall f :: f in files ==> f in entries && IsCsvName(f.name)
    ensures forall e :: e in entries && IsCsvName(e.name) ==> e in files
  {
    if entries == [] then []
    else
      var e := entries[|entries| - 1];
      var init := entries[..|entries| - 1];
      assert entries == init + [e];
      CsvFiles(init) + (if IsCsvName(e.name) then [e] else [])
  }

  /** `calculate_delay(row.to_dict())`. */
  function RowDelay(row: Row): Option<real>
  {
    CalculateDelay(Cell(row, "timestamp"), Cell(row, "receive_time"))
  }

  /** The filter `delay is not None and delay >= 0`. */
  predicate Accepts(d: Option<real>)
  {
    d.Some? && d.value >= 0.0
  }

  /** The delay of every row, in row order. */
  function DelayColumn(rows: seq<Row>): seq<Option<real>>
  {
    MapSeq(RowDelay, rows)
  }

  /** The delays the filter keeps, in order. */
  function Kept(ds: seq<Option<real>>): (kept: seq<real>)
    ensures forall i :: 0 <= i < |kept| ==> kept[i] >= 0.0
  {
    if ds == [] then []
    else Kept(ds[..|ds| - 1]) + (if Accepts(ds[|ds| - 1]) then [ds[|ds| - 1].value] else [])
  }

  lemma KeptStep(ds: seq<Option<real>>, j: nat)
    requires j < |ds|
    ensures Kept(ds[..j + 1]) == Kept(ds[..j]) + if Accepts(ds[j]) then [ds[j].value] else []
  {
    assert ds[..j + 1][..j] == ds[..j];
  }

  /** The delays a table's rows yield and the filter keeps, in row order. */
  function AcceptedDelays(rows: seq<Row>): seq<real>
  {
    Kept(DelayColumn(rows))
  }

  /** `pd.to_datetime(df['receive_time'], errors='coerce', utc=True).dropna()`, as UTC microseconds. */
  function ReceiveInstants(rows: seq<Row>): seq<real>
  {
    if rows == [] then []
    else
      var t := Cell(rows[|rows| - 1], "receive_time");
      var p := if t.Some? then ParseUtc(t.value) else None;
      ReceiveInstants(rows[..|rows| - 1]) + (if p.Some? then [p.value as real] else [])
  }

  /**
   * `max(1e-9, (rt.max() - rt.min()).total_seconds())`: never zero, and
   * exact as soon as the receive times are a microsecond apart.
   */
  function SpanSeconds(instants: seq<real>): (span: real)
    requires |instants| > 0
    ensures span > 0.0
    ensures span >= (Max(instants) - Min(instants)) / 1000000.0
    ensures Max(instants) - Min(instants) >= 1.0 ==> span == (Max(instants) - Min(instants)) / 1000000.0
    ensures Max(instants) == Min(instants) ==> span == 0.000000001
  {
    var x := (Max(instants) - Min(instants)) / 1000000.0;
    if 0.000000001 < x then x else 0.000000001
  }

  /** The throughput observation of one table, if it has a `receive_time` column with a parseable entry. */
  function FileRun(t: Table): (r: Option<Run>)
    ensures r.Some? <==> "receive_time" in t.columns && ReceiveInstants(t.rows) != []
    ensures r.Some? ==> r.value.count == |ReceiveInstants(t.rows)| && r.value.count > 0 && r.value.span > 0.0
  {
    if "receive_time" !in t.columns then None
    else
      var rt := ReceiveInstants(t.rows);
      if rt == [] then None else Some(Run(|rt|, SpanSeconds(rt)))
  }

  /**
   * What one file hands on: its key, the delays it accepts and its throughput
   * observation. `None` for a file whose name does not decode or that cannot
   * be read; such a file adds nothing.
   */
  datatype Share = Share(key: ExperimentKey, delays: seq<real>, run: Option<Run>)

  function ShareOf(f: Entry): (s: Option<Share>)
    ensures s.None? <==> ParseFilename(f.name).None? || f.table.None?
  {
    var key := ParseFilename(f.name);
    if key.None? || f.table.None? then None
    else Some(Share(key.value, AcceptedDelays(f.table.value.rows), FileRun(f.table.value)))
  }

  function Shares(files: seq<Entry>): seq<Option<Share>>
  {
    MapSeq(ShareOf, files)
  }

  /** The delays a share adds to the pool of key `k`. */
  function DelaysFor(s: Option<Share>, k: ExperimentKey): seq<real>
  {
    if s.Some? && s.value.key == k then s.value.delays else []
  }

  /** The observation a share adds to the runs of key `k`. */
  function RunFor(s: Option<Share>, k: ExperimentKey): seq<Run>
  {
    if s.Some? && s.value.key == k && s.value.run.Some? then [s.value.run.value] else []
  }

  /** The pool of key `k` after the given shares: their delays for `k`, concatenated in file order. */
  function Pooled(shares: seq<Option<Share>>, k: ExperimentKey): seq<real>
  {
    if shares == [] then [] else Pooled(shares[..|shares| - 1], k) + DelaysFor(shares[|shares| - 1], k)
  }

  /** The runs of key `k` after the given shares, in file order. */
  function RunsFor(shares: seq<Option<Share>>, k: ExperimentKey): seq<Run>
  {
    if shares == [] then [] else RunsFor(shares[..|shares| - 1], k) + RunFor(shares[|shares| - 1], k)
  }

  /** The keys of the pools, in the order a first delay reached them. */
  function KeyOrder(shares: seq<Option<Share>>): seq<ExperimentKey>
  {
    if shares == [] then []
    else
      var init := KeyOrder(shares[..|shares| - 1]);
      var s := shares[|shares| - 1];
      if s.Some? && s.value.delays != [] && s.value.key !in init then init + [s.value.key] else init
  }

  /** `m[k]`, or the empty list a `defaultdict(list)` creates on first access. */
  function Get<T>(m: map<ExperimentKey, seq<T>>, k: ExperimentKey): seq<T>
  {
    if k in m then m[k] else []
  }

  ghost predicate PoolsMatch(pools: map<ExperimentKey, seq<real>>, shares: seq<Option<Share>>)
  {
    && (forall k :: k in pools <==> Pooled(shares, k) != [])
    && (forall k :: k in pools ==> pools[k] == Pooled(shares, k))
  }

  ghost predicate RunsMatch(runs: map<ExperimentKey, seq<Run>>, shares: seq<Option<Share>>)
  {
    && (forall k :: k in runs <==> RunsFor(shares, k) != [])
    && (forall k :: k in runs ==> runs[k] == RunsFor(shares, k))
  }

  /** `l` is what walking files with these shares in order produces. */
  ghost predicate LoadedFrom(l: Loaded, shares: seq<Option<Share>>)
  {
    l.order == KeyOrder(shares) && PoolsMatch(l.pools, shares) && RunsMatch(l.runs, shares)
  }

  lemma WalkStep(shares: seq<Option<Share>>, s: Option<Share>)
    ensures forall k :: Pooled(shares + [s], k) == Pooled(shares, k) + DelaysFor(s, k)
    ensures forall k :: RunsFor(shares + [s], k) == RunsFor(shares, k) + RunFor(s, k)
    ensures KeyOrder(shares + [s]) ==
            if s.Some? && s.value.delays != [] && s.value.key !in KeyOrder(shares)
            then KeyOrder(shares) + [s.value.key] else KeyOrder(shares)
  {
    assert (shares + [s])[..|shares|] == shares;
  }

  lemma SkipStep(l: Loaded, shares: seq<Option<Share>>)
    requires LoadedFrom(l, shares)
    ensures LoadedFrom(l, shares + [None])
  {
    WalkStep(shares, None);
  }

  lemma PoolsStep(pools: map<ExperimentKey, seq<real>>, shares: seq<Option<Share>>, s: Share)
    requires PoolsMatch(pools, shares)
    ensures PoolsMatch(if s.delays != [] then pools[s.key := Get(pools, s.key) + s.delays] else pools, shares + [Some(s)])
  {
    WalkStep(shares, Some(s));
  }

  lemma RunsStep(runs: map<ExperimentKey, seq<Run>>, shares: seq<Option<Share>>, s: Share)
    requires RunsMatch(runs, shares)
    ensures RunsMatch(if s.run.Some? then runs[s.key := Get(runs, s.key) + [s.run.value]] else runs, shares + [Some(s)])
  {
    WalkStep(shares, Some(s));
  }

  lemma OrderStep(pools: map<ExperimentKey, seq<real>>, shares: seq<Option<Share>>, s: Share)
    requires PoolsMatch(pools, shares)
    ensures KeyOrder(shares + [Some(s)]) ==
            if s.delays != [] && s.key !in pools then KeyOrder(shares) + [s.key] else KeyOrder(shares)
  {
    WalkStep(shares, Some(s));
    KeyOrderMembers(shares);
  }

  /** The row loop of one file: the delays it accepts. */
  method FileDelays(rows: seq<Row>) returns (delays: seq<real>)
    ensures delays == AcceptedDelays(rows)
  {
    ghost var column := DelayColumn(rows);
    delays := [];
    var j := 0;
    while j < |rows|
      invariant 0 <= j <= |rows|
      invariant delays == Kept(column[..j])
    {
      var d := RowDelay(rows[j]);
      MapSeqAt(RowDelay, rows, j);
      KeptStep(column, j);
      if d.Some? && d.value >= 0.0 {
        delays := delays + [d.value];
      }
      j := j + 1;
    }
    assert column[..j] == column;
  }

  /** The body of the file loop: decode the name, read the table, collect its delays and its observation. */
  method FileShare(f: Entry) returns (share: Option<Share>)
    ensures share == ShareOf(f)
  {
    var key := ParseFilename(f.name);
    if key.None? || f.table.None? {
      return None;
    }
    var delays := FileDelays(f.table.value.rows);
    var run := FileRun(f.table.value);
    return Some(Share(key.value, delays, run));
  }

  /** What walking one more file does to the loader's state. */
  function Absorb(l: Loaded, share: Option<Share>): Loaded
  {
    if share.None? then l
    else
      var s := share.value;
      var order := if s.delays != [] && s.key !in l.pools then l.order + [s.key] else l.order;
      var pools := if s.delays != [] then l.pools[s.key := Get(l.pools, s.key) + s.delays] else l.pools;
      var runs := if s.run.Some? then l.runs[s.key := Get(l.runs, s.key) + [s.run.value]] else l.runs;
      Loaded(order, pools, runs)
  }

  lemma AbsorbStep(l: Loaded, shares: seq<Option<Share>>, share: Option<Share>)
    requires LoadedFrom(l, shares)
    ensures LoadedFrom(Absorb(l, share), shares + [share])
  {
    if share.None? {
      SkipStep(l, shares);
    } else {
      var s := share.value;
      OrderStep(l.pools, shares, s);
      PoolsStep(l.pools, shares, s);
      RunsStep(l.runs, shares, s);
    }
  }

  /** The updates the file loop makes for one file's share. */
  method AddShare(order: seq<ExperimentKey>, pools: map<ExperimentKey, seq<real>>, runs: map<ExperimentKey, seq<Run>>,
                  share: Option<Share>)
    returns (order': seq<ExperimentKey>, pools': map<ExperimentKey, seq<real>>, runs': map<ExperimentKey, seq<Run>>)
    ensures Loaded(order', pools', runs') == Absorb(Loaded(order, pools, runs), share)
  {
    order', pools', runs' := order, pools, runs;
    if share.Some? {
      var s := share.value;
      if s.delays != [] {
        if s.key !in pools' {
          order' := order' + [s.key];
        }
        pools' := pools'[s.key := Get(pools', s.key) + s.delays];
      }
      if s.run.Some? {
        runs' := runs'[s.key := Get(runs', s.key) + [s.run.value]];
      }
    }
  }

  /** `load_experiment_data(folder)`. */
  method LoadExperimentData(folder: Folder) returns (r: Result<Loaded, LoadError>)
    ensures folder.Missing? ==> r == Err(FolderNotFound)
    ensures folder.Present? && CsvFiles(folder.entries) == [] ==> r == Err(NoCsvFiles)
    ensures folder.Present? && CsvFiles(folder.entries) != [] ==>
              r.Ok? && LoadedFrom(r.value, Shares(CsvFiles(folder.entries)))
  {
    if folder.Missing? {
      return Err(FolderNotFound);
    }
    var files := CsvFiles(folder.entries);
    if files == [] {
      return Err(NoCsvFiles);
    }
    var order: seq<ExperimentKey> := [];
    var pools: map<ExperimentKey, seq<real>> := map[];
    var runs: map<ExperimentKey, seq<Run>> := map[];
    var i := 0;
    while i < |files|
      invariant 0 <= i <= |files|
      invariant LoadedFrom(Loaded(order, pools, runs), Shares(files[..i]))
    {
      var share := FileShare(files[i]);
      LoadStep(Loaded(order, pools, runs), files, i);
      order, pools, runs := AddShare(order, pools, runs, share);
      i := i + 1;
    }
    assert files[..i] == files;
    return Ok(Loaded(order, pools, runs));
  }

  /** Absorbing the share of the next file extends the walk by that file. */
  lemma LoadStep(l: Loaded, files: seq<Entry>, i: nat)
    requires i < |files| && LoadedFrom(l, Shares(files[..i]))
    ensures LoadedFrom(Absorb(l, ShareOf(files[i])), Shares(files[..i + 1]))
  {
    MapSeqPrefix(ShareOf, files, i);
    AbsorbStep(l, Shares(files[..i]), ShareOf(files[i]));
  }

  /** A key is listed exactly when its pool is non-empty, and no key is listed twice. */
  lemma {:induction false} KeyOrderMembers(shares: seq<Option<Share>>)
    ensures forall k :: k in KeyOrder(shares) <==> Pooled(shares, k) != []
    ensures forall i, j :: 0 <= i < j < |KeyOrder(shares)| ==> KeyOrder(shares)[i] != KeyOrder(shares)[j]
  {
    if shares != [] {
      KeyOrderMembers(shares[..|shares| - 1]);
    }
  }

  // ---------------------------------------------------------------------------
  // What the walk guarantees

  /** The rows of a table whose delay the filter keeps. */
  function AcceptedRows(rows: seq<Row>): set<nat>
  {
    set j: nat | j < |rows| && Accepts(RowDelay(rows[j]))
  }

  lemma {:induction false} KeptCount(ds: seq<Option<real>>)
    ensures |Kept(ds)| == |set j: nat | j < |ds| && Accepts(ds[j])|
  {
    if ds != [] {
      var n := |ds| - 1;
      KeptCount(ds[..n]);
      var before := set j: nat | j < n && Accepts(ds[..n][j]);
      var now := set j: nat | j < |ds| && Accepts(ds[j]);
      assert before == set j: nat | j < n && Accepts(ds[j]);
      if Accepts(ds[n]) {
        assert now == before + {n};
      } else {
        assert now == before;
      }
    }
  }

  lemma AcceptedDelaysCount(rows: seq<Row>)
    ensures |AcceptedDelays(rows)| == |AcceptedRows(rows)|
  {
    var ds := DelayColumn(rows);
    KeptCount(ds);
    forall j | 0 <= j < |rows| ensures ds[j] == RowDelay(rows[j]) {
      MapSeqAt(RowDelay, rows, j);
    }
    assert AcceptedRows(rows) == set j: nat | j < |ds| && Accepts(ds[j]);
  }

  /** The number of rows of one file whose delay is kept, if the file is readable and named for key `k`. */
  function FileAccepted(f: Entry, k: ExperimentKey): nat
  {
    if ParseFilename(f.name) == Some(k) && f.table.Some? then |AcceptedRows(f.table.value.rows)| else 0
  }

  /** The number of rows, over all readable files named for key `k`, whose delay is kept. */
  function AcceptedCount(files: seq<Entry>, k: ExperimentKey): nat
  {
    if files == [] then 0 else AcceptedCount(files[..|files| - 1], k) + FileAccepted(files[|files| - 1], k)
  }

  lemma ShareCount(f: Entry, k: ExperimentKey)
    ensures |DelaysFor(ShareOf(f), k)| == FileAccepted(f, k)
  {
    if f.table.Some? {
      AcceptedDelaysCount(f.table.value.rows);
    }
  }

  lemma PoolGrowth(shares: seq<Option<Share>>, s: Option<Share>, k: ExperimentKey)
    ensures |Pooled(shares + [s], k)| == |Pooled(shares, k)| + |DelaysFor(s, k)|
  {
    WalkStep(shares, s);
  }

  /** The pool of a key holds one delay per accepted row of the files named for it. */
  lemma {:induction false} PoolSizeIsAcceptedRows(files: seq<Entry>, k: ExperimentKey)
    ensures |Pooled(Shares(files), k)| == AcceptedCount(files, k)
  {
    if files != [] {
      var n := |files| - 1;
      PoolSizeIsAcceptedRows(files[..n], k);
      SharesInit(files);
      PoolGrowth(Shares(files[..n]), ShareOf(files[n]), k);
      ShareCount(files[n], k);
    }
  }

  /** The shares of a non-empty list: those of all but the last file, then the last file's. */
  lemma SharesInit(files: seq<Entry>)
    requires files != []
    ensures Shares(files) == Shares(files[..|files| - 1]) + [ShareOf(files[|files| - 1])]
  {
  }

  lemma {:induction false} KeptFrom(ds: seq<Option<real>>, x: real)
    requires x in Kept(ds)
    ensures exists j :: 0 <= j < |ds| && ds[j] == Some(x)
  {
    var n := |ds| - 1;
    if x in Kept(ds[..n]) {
      KeptFrom(ds[..n], x);
      var j :| 0 <= j < n && ds[..n][j] == Some(x);
      assert ds[j] == Some(x);
    } else {
      assert ds[n] == Some(x);
    }
  }

  lemma AcceptedDelaysFromRows(rows: seq<Row>, x: real)
    requires x in AcceptedDelays(rows)
    ensures x >= 0.0
    ensures exists j :: 0 <= j < |rows| && RowDelay(rows[j]) == Some(x)
  {
    var ds := DelayColumn(rows);
    KeptFrom(ds, x);
    var j :| 0 <= j < |ds| && ds[j] == Some(x);
    MapSeqAt(RowDelay, rows, j);
    var i :| 0 <= i < |AcceptedDelays(rows)| && AcceptedDelays(rows)[i] == x;
  }

  /** A readable file named for `k` has a row whose delay is `x`. */
  predicate RowOf(f: Entry, k: ExperimentKey, x: real)
  {
    && ParseFilename(f.name) == Some(k) && f.table.Some?
    && exists j :: 0 <= j < |f.table.value.rows| && RowDelay(f.table.value.rows[j]) == Some(x)
  }

  /** Every pooled delay is non-negative and is the delay of some row of a file named for that key. */
  lemma PooledFromRows(files: seq<Entry>, k: ExperimentKey, x: real)
    requires x in Pooled(Shares(files), k)
    ensures x >= 0.0
    ensures exists i :: 0 <= i < |files| && RowOf(files[i], k, x)
  {
    PooledFromShare(Shares(files), k, x);
    var i :| 0 <= i < |files| && x in DelaysFor(Shares(files)[i], k);
    MapSeqAt(ShareOf, files, i);
    ShareRow(files[i], k, x);
  }

  /** A pooled delay was handed on by one of the shares. */
  lemma {:induction false} PooledFromShare(shares: seq<Option<Share>>, k: ExperimentKey, x: real)
    requires x in Pooled(shares, k)
    ensures exists i :: 0 <= i < |shares| && x in DelaysFor(shares[i], k)
  {
    var n := |shares| - 1;
    var earlier, added := Pooled(shares[..n], k), DelaysFor(shares[n], k);
    assert x in earlier + added;
    if x in earlier {
      PooledFromShare(shares[..n], k, x);
      var i :| 0 <= i < n && x in DelaysFor(shares[..n][i], k);
      assert shares[..n][i] == shares[i];
    } else {
      assert x in DelaysFor(shares[n], k);
    }
  }

  /** A delay a file hands on for key `k` is non-negative and is the delay of one of its rows. */
  lemma ShareRow(f: Entry, k: ExperimentKey, x: real)
    requires x in DelaysFor(ShareOf(f), k)
    ensures x >= 0.0 && RowOf(f, k, x)
  {
    AcceptedDelaysFromRows(f.table.value.rows, x);
  }

  lemma SharesSnoc(files: seq<Entry>, f: Entry)
    ensures Shares(files + [f]) == Shares(files) + [ShareOf(f)]
  {
    MapSeqSnoc(ShareOf, files, f);
  }

  lemma SharesConcat(a: seq<Entry>, b: seq<Entry>)
    ensures Shares(a + b) == Shares(a) + Shares(b)
  {
    MapSeqConcat(ShareOf, a, b);
  }

  lemma {:induction false} NoneIgnored(a: seq<Option<Share>>, b: seq<Option<Share>>)
    ensures forall k :: Pooled(a + [None] + b, k) == Pooled(a + b, k)
    ensures forall k :: RunsFor(a + [None] + b, k) == RunsFor(a + b, k)
    ensures KeyOrder(a + [None] + b) == KeyOrder(a + b)
  {
    if b == [] {
      assert a + [None] + b == a + [None] && a + b == a;
      WalkStep(a, None);
    } else {
      var n := |b| - 1;
      NoneIgnored(a, b[..n]);
      assert a + [None] + b == (a + [None] + b[..n]) + [b[n]];
      assert a + b == (a + b[..n]) + [b[n]];
      WalkStep(a + [None] + b[..n], b[n]);
      WalkStep(a + b[..n], b[n]);
    }
  }

  /**
   * A file whose name does not decode, or that cannot be read, contributes
   * nothing wherever it lies: no delay, no observation, no key.
   */
  lemma UnmatchedFileIgnored(a: seq<Entry>, f: Entry, b: seq<Entry>)
    requires ParseFilename(f.name).None? || f.table.None?
    ensures forall k :: Pooled(Shares(a + [f] + b), k) == Pooled(Shares(a + b), k)
    ensures forall k :: RunsFor(Shares(a + [f] + b), k) == RunsFor(Shares(a + b), k)
    ensures KeyOrder(Shares(a + [f] + b)) == KeyOrder(Shares(a + b))
  {
    SharesConcat(a + [f], b);
    SharesSnoc(a, f);
    SharesConcat(a, b);
    NoneIgnored(Shares(a), Shares(b));
  }

  lemma {:induction false} InstantsFromReceiveTimes(r1: seq<Row>, r2: seq<Row>)
    requires |r1| == |r2|
    requires forall j :: 0 <= j < |r1| ==> Cell(r1[j], "receive_time") == Cell(r2[j], "receive_time")
    ensures ReceiveInstants(r1) == ReceiveInstants(r2)
  {
    if r1 != [] {
      var n := |r1| - 1;
      assert forall j :: 0 <= j < n ==> r1[..n][j] == r1[j] && r2[..n][j] == r2[j];
      InstantsFromReceiveTimes(r1[..n], r2[..n]);
    }
  }

  /**
   * Throughput does not look at delays: two files with the same name, header
   * and receive times hand on the same observation, whatever their origin
   * timestamps and however many of their delays are accepted.
   */
  lemma ThroughputIgnoresTimestamps(f: Entry, g: Entry)
    requires f.name == g.name && f.table.Some? && g.table.Some?
    requires f.table.value.columns == g.table.value.columns
    requires |f.table.value.rows| == |g.table.value.rows|
    requires forall j :: 0 <= j < |f.table.value.rows| ==>
               Cell(f.table.value.rows[j], "receive_time") == Cell(g.table.value.rows[j], "receive_time")
    ensures ShareOf(f).Some? == ShareOf(g).Some?
    ensures ShareOf(f).Some? ==> ShareOf(f).value.run == ShareOf(g).value.run
  {
    InstantsFromReceiveTimes(f.table.value.rows, g.table.value.rows);
  }

  /** A file named for `k` whose delays are all rejected still records its observation. */
  lemma RunWithoutDelays(files: seq<Entry>, f: Entry, k: ExperimentKey)
    requires ParseFilename(f.name) == Some(k) && f.table.Some?
    requires AcceptedDelays(f.table.value.rows) == [] && FileRun(f.table.value).Some?
    ensures Pooled(Shares(files + [f]), k) == Pooled(Shares(files), k)
    ensures RunsFor(Shares(files + [f]), k) == RunsFor(Shares(files), k) + [FileRun(f.table.value).value]
  {
    SharesSnoc(files, f);
    WalkStep(Shares(files), ShareOf(f));
  }
}
