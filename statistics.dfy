/**
 * `aggregate_statistics` (analyze_experiments.py): one summary row per
 * experiment key whose delay pool is non-empty, in the pools' insertion order.
 */
module Statistics {
  import opened Common
  import opened FileNames
  import opened Numbers
  import opened Ingestion

  /**
   * One row of the statistics table. `variance` stands for `std_delay`,
   * whose square root is not modelled.
   */
  datatype Summary = Summary(
    key: ExperimentKey,
    mean: real, variance: real, min: real, max: real,
    median: real, p95: real, p99: real,
    count: nat)

  /** The summary of one pool: its size, and the order statistics in their natural order. */
  function Summarize(key: ExperimentKey, pool: seq<real>): (s: Summary)
    requires |pool| > 0
    ensures s.key == key && s.count == |pool|
    ensures s.min in pool && s.max in pool
    ensures forall i :: 0 <= i < |pool| ==> s.min <= pool[i] <= s.max
    ensures s.min <= s.median <= s.p95 <= s.p99 <= s.max
    ensures s.min <= s.mean <= s.max
    ensures s.variance >= 0.0
    ensures s.median == Percentile(pool, 50)
  {
    PercentileEnds(pool);
    MedianIsPercentile50(pool);
    PercentileMonotone(pool, 0, 50);
    PercentileMonotone(pool, 50, 95);
    PercentileMonotone(pool, 95, 99);
    PercentileMonotone(pool, 99, 100);
    Summary(key, Mean(pool), Variance(pool), Min(pool), Max(pool),
            Median(pool), Percentile(pool, 95), Percentile(pool, 99), |pool|)
  }

  /** The table `aggregate_statistics` builds from keys in this order and these pools. */
  function Aggregate(order: seq<ExperimentKey>, pools: map<ExperimentKey, seq<real>>): seq<Summary>
  {
    if order == [] then []
    else
      var k := order[|order| - 1];
      var pool := Get(pools, k);
      Aggregate(order[..|order| - 1], pools) + (if pool != [] then [Summarize(k, pool)] else [])
  }

  /** `aggregate_statistics(experiment_data)`: the loop over the pools in insertion order. */
  method AggregateStatistics(order: seq<ExperimentKey>, pools: map<ExperimentKey, seq<real>>) returns (stats: seq<Summary>)
    ensures stats == Aggregate(order, pools)
  {
    stats := [];
    var i := 0;
    while i < |order|
      invariant 0 <= i <= |order|
      invariant stats == Aggregate(order[..i], pools)
    {
      assert order[..i + 1][..i] == order[..i];
      var k := order[i];
      if k in pools && pools[k] != [] {
        stats := stats + [Summarize(k, pools[k])];
      }
      i := i + 1;
    }
    assert order[..i] == order;
  }

  /**
   * Each row summarises the pool of a listed key, and each listed key with a
   * non-empty pool has a row.
   */
  lemma AggregateRows(order: seq<ExperimentKey>, pools: map<ExperimentKey, seq<real>>)
    ensures forall s :: s in Aggregate(order, pools) ==>
              s.key in order && Get(pools, s.key) != [] && s == Summarize(s.key, Get(pools, s.key))
    ensures forall k :: k in order && Get(pools, k) != [] ==> exists s :: s in Aggregate(order, pools) && s.key == k
  {
    AggregateRowsSound(order, pools);
    AggregateRowsComplete(order, pools);
  }

  lemma {:induction false} AggregateRowsSound(order: seq<ExperimentKey>, pools: map<ExperimentKey, seq<real>>)
    ensures forall s :: s in Aggregate(order, pools) ==>
              s.key in order && Get(pools, s.key) != [] && s == Summarize(s.key, Get(pools, s.key))
  {
    if order != [] {
      var init, k := order[..|order| - 1], order[|order| - 1];
      AggregateRowsSound(init, pools);
      assert order == init + [k];
      var pool := Get(pools, k);
      var last := if pool != [] then [Summarize(k, pool)] else [];
      assert Aggregate(order, pools) == Aggregate(init, pools) + last;
      forall s | s in Aggregate(order, pools)
        ensures s.key in order && Get(pools, s.key) != [] && s == Summarize(s.key, Get(pools, s.key))
      {
        if s !in Aggregate(init, pools) {
          assert s in last;
        }
      }
    }
  }

  lemma {:induction false} AggregateRowsComplete(order: seq<ExperimentKey>, pools: map<ExperimentKey, seq<real>>)
    ensures forall k :: k in order && Get(pools, k) != [] ==> exists s :: s in Aggregate(order, pools) && s.key == k
  {
    if order != [] {
      var init, k := order[..|order| - 1], order[|order| - 1];
      AggregateRowsComplete(init, pools);
      assert order == init + [k];
      var rows := Aggregate(order, pools);
      var pool := Get(pools, k);
      var last := if pool != [] then [Summarize(k, pool)] else [];
      assert rows == Aggregate(init, pools) + last;
      forall x | x in order && Get(pools, x) != []
        ensures exists s :: s in rows && s.key == x
      {
        if x in init {
          var s :| s in Aggregate(init, pools) && s.key == x;
          assert s in rows;
        } else {
          assert x == k && last[0] in rows;
        }
      }
    }
  }

  /** Distinct keys give rows with distinct keys. */
  lemma {:induction false} AggregateDistinct(order: seq<ExperimentKey>, pools: map<ExperimentKey, seq<real>>)
    requires Distinct(order)
    ensures forall i, j :: 0 <= i < j < |Aggregate(order, pools)| ==>
              Aggregate(order, pools)[i].key != Aggregate(order, pools)[j].key
  {
    if order != [] {
      var init, k := order[..|order| - 1], order[|order| - 1];
      DistinctInit(order);
      AggregateDistinct(init, pools);
      AggregateRowsSound(init, pools);
      var last := if Get(pools, k) != [] then [Summarize(k, Get(pools, k))] else [];
      KeysDistinctSnoc(Aggregate(init, pools), last, k);
    }
  }

  /** Appending at most one row with a new key keeps the keys distinct. */
  lemma KeysDistinctSnoc(before: seq<Summary>, last: seq<Summary>, k: ExperimentKey)
    requires forall i, j :: 0 <= i < j < |before| ==> before[i].key != before[j].key
    requires forall s :: s in before ==> s.key != k
    requires |last| <= 1 && forall s :: s in last ==> s.key == k
    ensures forall i, j :: 0 <= i < j < |before + last| ==> (before + last)[i].key != (before + last)[j].key
  {
    forall i | 0 <= i < |before| ensures before[i] in before { }
    if last != [] {
      assert last[0] in last;
    }
  }

  /** The keys with a non-empty pool. */
  function Filled(order: seq<ExperimentKey>, pools: map<ExperimentKey, seq<real>>): set<ExperimentKey>
  {
    set k | k in order && Get(pools, k) != []
  }

  lemma FilledGrows(order: seq<ExperimentKey>, pools: map<ExperimentKey, seq<real>>)
    requires |order| > 0 && order[|order| - 1] !in order[..|order| - 1]
    ensures var init, k := order[..|order| - 1], order[|order| - 1];
      |Filled(order, pools)| == |Filled(init, pools)| + if Get(pools, k) != [] then 1 else 0
  {
    var init, k := order[..|order| - 1], order[|order| - 1];
    assert forall x :: x in order <==> x in init || x == k by {
      assert order == init + [k];
    }
    if Get(pools, k) != [] {
      assert Filled(order, pools) == Filled(init, pools) + {k};
    } else {
      assert Filled(order, pools) == Filled(init, pools);
    }
  }

  /** With distinct keys, the table has exactly one row per key whose pool is non-empty. */
  lemma {:induction false} AggregateSize(order: seq<ExperimentKey>, pools: map<ExperimentKey, seq<real>>)
    requires Distinct(order)
    ensures |Aggregate(order, pools)| == |Filled(order, pools)|
  {
    if order != [] {
      DistinctInit(order);
      AggregateSize(order[..|order| - 1], pools);
      FilledGrows(order, pools);
    }
  }

  /**
   * After loading, the table has exactly one row per key whose pool is
   * non-empty, and the row of a key counts the accepted rows of every file
   * named for it.
   */
  lemma LoadedStatistics(l: Loaded, files: seq<Entry>)
    requires LoadedFrom(l, Shares(files))
    ensures forall i, j :: 0 <= i < j < |Aggregate(l.order, l.pools)| ==>
              Aggregate(l.order, l.pools)[i].key != Aggregate(l.order, l.pools)[j].key
    ensures forall s :: s in Aggregate(l.order, l.pools) ==> s.count == AcceptedCount(files, s.key) > 0
    ensures forall k :: AcceptedCount(files, k) > 0 ==> exists s :: s in Aggregate(l.order, l.pools) && s.key == k
  {
    KeyOrderMembers(Shares(files));
    AggregateDistinct(l.order, l.pools);
    AggregateRows(l.order, l.pools);
    forall k | AcceptedCount(files, k) > 0
      ensures k in l.order && Get(l.pools, k) != []
    {
      PoolSizeIsAcceptedRows(files, k);
    }
    forall s | s in Aggregate(l.order, l.pools)
      ensures s.count == AcceptedCount(files, s.key)
    {
      PoolSizeIsAcceptedRows(files, s.key);
    }
  }
}
