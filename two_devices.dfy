/**
 * plot_two_devices.py: pick a device in each of two run files, keep its rows
 * (optionally of one sensor type) whose timestamp can be read, assemble the
 * warning, and name the output image. Reading the CSV files, timestamp
 * parsing itself, sorting by time and drawing are not modelled; which
 * timestamps pandas can read is a parameter.
 */
module TwoDevices {
  import opened Common
  import opened Text
  import opened Tables

  /** The `KeyError` of a missing column, and the `ValueError` of `idxmax` on no values. */
  datatype PlotError = MissingColumn(column: string) | NoDeviceIds

  /** Python truthiness of an optional string: present and non-empty. */
  predicate Truthy(o: Option<string>)
  {
    o.Some? && o.value != ""
  }

  // ---------------------------------------------------------------------------
  // Row selection

  /** The rows satisfying `p`, in their original order (boolean-mask indexing). */
  function Where<T(!new)>(rows: seq<T>, p: T -> bool): (r: seq<T>)
    ensures |r| <= |rows|
  {
    if rows == [] then []
    else
      var last := rows[|rows| - 1];
      Where(rows[..|rows| - 1], p) + (if p(last) then [last] else [])
  }

  lemma WhereSnoc<T(!new)>(rows: seq<T>, row: T, p: T -> bool)
    ensures Where(rows + [row], p) == Where(rows, p) + if p(row) then [row] else []
  {
    assert (rows + [row])[..|rows|] == rows;
  }

  /** The selection holds exactly the rows satisfying `p`. */
  lemma {:induction false} WhereMembers<T(!new)>(rows: seq<T>, p: T -> bool)
    ensures forall row :: row in Where(rows, p) <==> row in rows && p(row)
  {
    if rows != [] {
      var init, last := rows[..|rows| - 1], rows[|rows| - 1];
      WhereMembers(init, p);
      assert rows == init + [last];
    }
  }

  /** Selection keeps order: selecting from two halves and concatenating is selecting from the whole. */
  lemma {:induction false} WhereConcat<T(!new)>(a: seq<T>, b: seq<T>, p: T -> bool)
    ensures Where(a + b, p) == Where(a, p) + Where(b, p)
  {
    if b != [] {
      var init, last := b[..|b| - 1], b[|b| - 1];
      assert b == init + [last];
      assert a + b == (a + init) + [last];
      WhereConcat(a, init, p);
      WhereSnoc(a + init, last, p);
      WhereSnoc(init, last, p);
    } else {
      assert a + b == a;
    }
  }

  /** Selecting rows that all qualify changes nothing. */
  lemma {:induction false} WhereAll<T(!new)>(rows: seq<T>, p: T -> bool)
    requires forall i :: 0 <= i < |rows| ==> p(rows[i])
    ensures Where(rows, p) == rows
  {
    if rows != [] {
      var init, last := rows[..|rows| - 1], rows[|rows| - 1];
      assert forall i :: 0 <= i < |init| ==> init[i] == rows[i];
      WhereAll(init, p);
      assert rows == init + [last];
      WhereSnoc(init, last, p);
    }
  }

  /** Two successive selections may be made in either order. */
  lemma {:induction false} WhereCommutes<T(!new)>(rows: seq<T>, p: T -> bool, q: T -> bool)
    ensures Where(Where(rows, p), q) == Where(Where(rows, q), p)
  {
    if rows != [] {
      var init, last := rows[..|rows| - 1], rows[|rows| - 1];
      WhereCommutes(init, p, q);
      var wp := if p(last) then [last] else [];
      var wq := if q(last) then [last] else [];
      WhereConcat(Where(init, p), wp, q);
      WhereConcat(Where(init, q), wq, p);
      if p(last) {
        assert Where(wp, q) == Where([] + [last], q) by { assert wp == [] + [last]; WhereSnoc([], last, q); }
      }
      if q(last) {
        assert Where(wq, p) == Where([] + [last], p) by { assert wq == [] + [last]; WhereSnoc([], last, p); }
      }
    }
  }

  /** Selections by two tests that agree on every row are the same. */
  lemma {:induction false} WhereSame<T(!new)>(rows: seq<T>, p: T -> bool, q: T -> bool)
    requires forall x :: p(x) == q(x)
    ensures Where(rows, p) == Where(rows, q)
  {
    if rows != [] {
      WhereSame(rows[..|rows| - 1], p, q);
    }
  }

  /** Selecting by `p` and then by `q` is selecting once by their conjunction `pq`. */
  lemma {:induction false} WhereBoth<T(!new)>(rows: seq<T>, p: T -> bool, q: T -> bool, pq: T -> bool)
    requires forall x :: pq(x) == (p(x) && q(x))
    ensures Where(Where(rows, p), q) == Where(rows, pq)
  {
    if rows != [] {
      var init, last := rows[..|rows| - 1], rows[|rows| - 1];
      WhereBoth(init, p, q, pq);
      var wp := if p(last) then [last] else [];
      WhereConcat(Where(init, p), wp, q);
      if p(last) {
        assert Where(wp, q) == Where([] + [last], q) by { assert wp == [] + [last]; WhereSnoc([], last, q); }
      }
    }
  }

  /** `df[column] == value`: the cell is present and equal (NaN equals nothing). */
  function Matching(column: string, value: string): Row -> bool
  {
    row => Cell(row, column) == Some(value)
  }

  /** Whether a row passes `_filter_df`'s filters for these arguments. */
  predicate Selected(row: Row, deviceId: Option<string>, sensor: Option<string>)
  {
    && (Truthy(deviceId) ==> Cell(row, "device_id") == Some(deviceId.value))
    && (Truthy(sensor) ==> Cell(row, "sensor") == Some(sensor.value))
  }

  function Selection(deviceId: Option<string>, sensor: Option<string>): Row -> bool
  {
    row => Selected(row, deviceId, sensor)
  }

  /** The two successive masks of `_filter_df` keep, in order, the rows `Selection` accepts. */
  lemma NarrowedRows(rows: seq<Row>, deviceId: Option<string>, sensor: Option<string>)
    ensures var byId := if Truthy(deviceId) then Where(rows, Matching("device_id", deviceId.value)) else rows;
      (if Truthy(sensor) then Where(byId, Matching("sensor", sensor.value)) else byId) == Where(rows, Selection(deviceId, sensor))
  {
    var sel := Selection(deviceId, sensor);
    if Truthy(deviceId) && Truthy(sensor) {
      WhereBoth(rows, Matching("device_id", deviceId.value), Matching("sensor", sensor.value), sel);
    } else if Truthy(deviceId) {
      WhereSame(rows, Matching("device_id", deviceId.value), sel);
    } else if Truthy(sensor) {
      WhereSame(rows, Matching("sensor", sensor.value), sel);
    } else {
      WhereAll(rows, sel);
    }
  }

  /**
   * `_filter_df(df, device_id=..., sensor=...)`: a copy of the table, narrowed
   * first to the device and then to the sensor type, each only when its
   * argument is truthy. The table passed in is a value and is not changed.
   */
  function FilterDf(t: Table, deviceId: Option<string>, sensor: Option<string>): (r: Result<Table, PlotError>)
    ensures !Truthy(deviceId) && !Truthy(sensor) ==> r == Ok(t)
    ensures r.Err? <==> (Truthy(deviceId) && "device_id" !in t.columns) || (Truthy(sensor) && "sensor" !in t.columns)
    ensures r.Err? ==> r.error == MissingColumn(if Truthy(deviceId) && "device_id" !in t.columns then "device_id" else "sensor")
    ensures r.Ok? ==> r.value.columns == t.columns
    ensures r.Ok? ==> r.value.rows == Where(t.rows, Selection(deviceId, sensor))
    ensures r.Ok? ==> forall row :: row in r.value.rows <==> row in t.rows && Selected(row, deviceId, sensor)
  {
    if Truthy(deviceId) && "device_id" !in t.columns then Err(MissingColumn("device_id"))
    else
      var out :=
        if Truthy(deviceId) then Table(t.columns, Where(t.rows, Matching("device_id", deviceId.value)))
        else t;
      if Truthy(sensor) && "sensor" !in out.columns then Err(MissingColumn("sensor"))
      else
        var narrowed :=
          if Truthy(sensor) then Table(out.columns, Where(out.rows, Matching("sensor", sensor.value)))
          else out;
        NarrowedRows(t.rows, deviceId, sensor);
        WhereMembers(t.rows, Selection(deviceId, sensor));
        Ok(narrowed)
  }

  /** The filter keeps the rows' order: filtering a table split in two is filtering each part. */
  lemma FilterDfKeepsOrder(columns: set<string>, a: seq<Row>, b: seq<Row>, deviceId: Option<string>, sensor: Option<string>)
    requires FilterDf(Table(columns, a + b), deviceId, sensor).Ok?
    ensures FilterDf(Table(columns, a), deviceId, sensor).Ok? && FilterDf(Table(columns, b), deviceId, sensor).Ok?
    ensures FilterDf(Table(columns, a + b), deviceId, sensor).value.rows ==
            FilterDf(Table(columns, a), deviceId, sensor).value.rows + FilterDf(Table(columns, b), deviceId, sensor).value.rows
  {
    if Truthy(deviceId) {
      var p := Matching("device_id", deviceId.value);
      WhereConcat(a, b, p);
      if Truthy(sensor) {
        WhereConcat(Where(a, p), Where(b, p), Matching("sensor", sensor.value));
      }
    } else if Truthy(sensor) {
      WhereConcat(a, b, Matching("sensor", sensor.value));
    }
  }

  /** Filtering by device and then by sensor type is filtering by sensor type and then by device. */
  lemma FilterOrderIrrelevant(t: Table, deviceId: string, sensor: string)
    requires deviceId != "" && sensor != ""
    requires FilterDf(t, Some(deviceId), Some(sensor)).Ok?
    ensures FilterDf(t, Some(deviceId), Some(sensor)).value.rows ==
            Where(Where(t.rows, Matching("sensor", sensor)), Matching("device_id", deviceId))
  {
    WhereCommutes(t.rows, Matching("device_id", deviceId), Matching("sensor", sensor));
  }

  // ---------------------------------------------------------------------------
  // Default device

  /** How many rows carry this device id (`value_counts()[id]`). */
  function Frequency(rows: seq<Row>, id: string): nat
  {
    |Where(rows, Matching("device_id", id))|
  }

  /** Some row carries this device id. */
  predicate HasId(rows: seq<Row>, id: string)
  {
    exists row :: row in rows && Cell(row, "device_id") == Some(id)
  }

  lemma FrequencyPositive(rows: seq<Row>, id: string)
    ensures Frequency(rows, id) > 0 <==> HasId(rows, id)
  {
    var w := Where(rows, Matching("device_id", id));
    WhereMembers(rows, Matching("device_id", id));
    if |w| > 0 {
      assert w[0] in w;
    }
    if HasId(rows, id) {
      var row :| row in rows && Cell(row, "device_id") == Some(id);
      assert row in w;
    }
  }

  /** The device ids present in the rows, in row order, repeats included. */
  function DeviceIds(rows: seq<Row>): (ids: seq<string>)
    ensures forall i :: 0 <= i < |ids| ==> HasId(rows, ids[i])
    ensures ids == [] <==> forall row :: row in rows ==> "device_id" !in row
  {
    if rows == [] then []
    else
      var init, last := rows[..|rows| - 1], rows[|rows| - 1];
      var earlier := DeviceIds(init);
      assert forall i :: 0 <= i < |earlier| ==> HasId(rows, earlier[i]) by {
        forall i | 0 <= i < |earlier| ensures HasId(rows, earlier[i]) {
          var row :| row in init && Cell(row, "device_id") == Some(earlier[i]);
          assert row in rows;
        }
      }
      assert rows == init + [last];
      if "device_id" in last then
        assert Cell(last, "device_id") == Some(last["device_id"]) && last in rows;
        earlier + [last["device_id"]]
      else
        earlier
  }

  /** Among the candidates, one whose frequency is largest; the earliest such on a tie. */
  function MostFrequent(candidates: seq<string>, rows: seq<Row>): (m: string)
    requires candidates != []
    ensures m in candidates
    ensures forall j :: 0 <= j < |candidates| ==> Frequency(rows, candidates[j]) <= Frequency(rows, m)
  {
    if |candidates| == 1 then candidates[0]
    else
      var best := MostFrequent(candidates[1..], rows);
      assert forall j :: 1 <= j < |candidates| ==> candidates[j] == candidates[1..][j - 1];
      if Frequency(rows, candidates[0]) >= Frequency(rows, best) then candidates[0] else best
  }

  /**
   * `_pick_default_device_id(df)`: nothing when the `device_id` column is
   * missing or the table is empty; an error when no row has a device id;
   * otherwise an id of maximal frequency.
   */
  function PickDefaultDeviceId(t: Table): (r: Result<Option<string>, PlotError>)
    ensures r == Ok(None) <==> "device_id" !in t.columns || t.rows == []
    ensures r.Err? <==> "device_id" in t.columns && t.rows != [] && forall row :: row in t.rows ==> "device_id" !in row
    ensures r.Err? ==> r.error == NoDeviceIds
    ensures r.Ok? && r.value.Some? ==> HasId(t.rows, r.value.value)
    ensures r.Ok? && r.value.Some? ==> forall id :: Frequency(t.rows, id) <= Frequency(t.rows, r.value.value)
  {
    if "device_id" !in t.columns || t.rows == [] then Ok(None)
    else
      var ids := DeviceIds(t.rows);
      if ids == [] then Err(NoDeviceIds)
      else
        var m := MostFrequent(ids, t.rows);
        assert forall id :: Frequency(t.rows, id) <= Frequency(t.rows, m) by {
          forall id ensures Frequency(t.rows, id) <= Frequency(t.rows, m) {
            if Frequency(t.rows, id) > 0 {
              FrequencyPositive(t.rows, id);
              var row :| row in t.rows && Cell(row, "device_id") == Some(id);
              MostFrequentBeatsPresent(t.rows, id, row, m);
            }
          }
        }
        Ok(Some(m))
  }

  /** An id present in some row is among `DeviceIds`, so the most frequent candidate beats it. */
  lemma MostFrequentBeatsPresent(rows: seq<Row>, id: string, row: Row, m: string)
    requires row in rows && Cell(row, "device_id") == Some(id)
    requires DeviceIds(rows) != [] && m == MostFrequent(DeviceIds(rows), rows)
    ensures Frequency(rows, id) <= Frequency(rows, m)
  {
    IdListed(rows, row);
    var ids := DeviceIds(rows);
    var j :| 0 <= j < |ids| && ids[j] == id;
  }

  lemma {:induction false} IdListed(rows: seq<Row>, row: Row)
    requires row in rows && "device_id" in row
    ensures row["device_id"] in DeviceIds(rows)
  {
    var init, last := rows[..|rows| - 1], rows[|rows| - 1];
    assert rows == init + [last];
    if row != last {
      assert row in init;
      IdListed(init, row);
    }
  }

  // ---------------------------------------------------------------------------
  // Warning

  const InferMessage := "Could not infer device IDs from one or both files."
  const NoDataMessage := "No data points after filtering for at least one file."

  /** The messages that apply, in the order they are raised. */
  function Messages(idA: Option<string>, idB: Option<string>, emptyA: bool, emptyB: bool): seq<string>
  {
    (if idA.None? || idB.None? then [InferMessage] else []) + (if emptyA || emptyB then [NoDataMessage] else [])
  }

  /**
   * The warning `plot_two_devices` returns, built as the source builds it:
   * set when an id is unknown, then extended (after a space) or set when a
   * filtered table is empty. It is absent exactly when no message applies,
   * and otherwise is the applicable messages joined by single spaces.
   */
  function Warning(idA: Option<string>, idB: Option<string>, emptyA: bool, emptyB: bool): (w: Option<string>)
    ensures w.None? <==> idA.Some? && idB.Some? && !emptyA && !emptyB
    ensures w.Some? ==> Messages(idA, idB, emptyA, emptyB) != [] && w.value == Join(Messages(idA, idB, emptyA, emptyB), ' ')
  {
    var first: Option<string> := if idA.None? || idB.None? then Some(InferMessage) else None;
    if emptyA || emptyB then Some(WithNoData(first)) else first
  }

  /** `(warn + " " if warn else "") + "No data points ..."`. */
  function WithNoData(warn: Option<string>): string
  {
    (if warn.Some? && warn.value != "" then warn.value + " " else "") + NoDataMessage
  }

  // ---------------------------------------------------------------------------
  // Output name

  /** Position of the last `.` in `s`, or -1 (`str.rfind`). */
  function LastDot(s: string): (i: int)
    ensures -1 <= i < |s|
    ensures i >= 0 ==> s[i] == '.'
    ensures forall j :: i < j < |s| ==> s[j] != '.'
  {
    if s == [] then -1
    else if s[|s| - 1] == '.' then |s| - 1
    else LastDot(s[..|s| - 1])
  }

  /** `Path(name).stem`: the name without its last suffix, where a suffix needs a dot neither first nor last. */
  function Stem(name: string): string
  {
    var i := LastDot(name);
    if 0 < i < |name| - 1 then name[..i] else name
  }

  /** The stem of `base.ext` is `base`, for a non-empty base and an extension without dots. */
  lemma StemOfExtension(base: string, ext: string)
    requires |base| > 0 && |ext| > 0 && '.' !in ext
    ensures Stem(base + "." + ext) == base
  {
    var name := base + "." + ext;
    assert name[|base|] == '.';
    assert name[..|base|] == base;
    assert forall j :: |base| < j < |name| ==> name[j] == ext[j - |base| - 1];
    assert LastDot(name) == |base|;
  }

  /** A file named only `.csv` is its own stem. */
  lemma StemOfBareExtension()
    ensures Stem(".csv") == ".csv"
  {
    assert ".csv"[0] == '.' && '.' !in ".csv"[1..];
  }

  /** `f"two_devices_split_{base_a}__{base_b}{sensor_suffix}.png"`. */
  function OutputName(stemA: string, stemB: string, sensor: Option<string>): string
  {
    "two_devices_split_" + stemA + "__" + stemB + (if Truthy(sensor) then "_" + sensor.value else "") + ".png"
  }

  /** The image for two run files is named after both stems, and its own stem is the name without `.png`. */
  lemma OutputNameOfRunFiles(baseA: string, baseB: string, sensor: Option<string>)
    requires |baseA| > 0 && |baseB| > 0
    ensures var out := OutputName(Stem(baseA + ".csv"), Stem(baseB + ".csv"), sensor);
      && out == "two_devices_split_" + baseA + "__" + baseB + (if Truthy(sensor) then "_" + sensor.value else "") + ".png"
      && Stem(out) + ".png" == out
  {
    assert baseA + ".csv" == baseA + "." + "csv" && baseB + ".csv" == baseB + "." + "csv";
    StemOfExtension(baseA, "csv");
    StemOfExtension(baseB, "csv");
    var head := "two_devices_split_" + baseA + "__" + baseB + (if Truthy(sensor) then "_" + sensor.value else "");
    var out := OutputName(baseA, baseB, sensor);
    assert out == head + ".png";
    assert head + ".png" == head + "." + "png";
    StemOfExtension(head, "png");
  }

  // ---------------------------------------------------------------------------
  // The plot

  /** A run file: its name and its contents. */
  datatype CsvFile = CsvFile(name: string, table: Table)

  /**
   * What `plot_two_devices` produces: the path and the warning it returns,
   * with the ids it settled on and the rows it plots for each file.
   */
  datatype Plot = Plot(path: string, warning: Option<string>,
                       idA: Option<string>, idB: Option<string>,
                       pointsA: seq<Row>, pointsB: seq<Row>)

  /** A row is plotted when it passes the filters and its timestamp can be read. */
  predicate Plotted(row: Row, deviceId: Option<string>, sensor: Option<string>, readable: string -> bool)
  {
    Selected(row, deviceId, sensor) && "timestamp" in row && readable(row["timestamp"])
  }

  /** `dropna(subset=['ts'])` after parsing: the timestamp cell is present and readable. */
  function TimeReadable(readable: string -> bool): Row -> bool
  {
    row => "timestamp" in row && readable(row["timestamp"])
  }

  function PlottedBy(deviceId: Option<string>, sensor: Option<string>, readable: string -> bool): Row -> bool
  {
    row => Plotted(row, deviceId, sensor, readable)
  }

  /** The rows of a file drawn for a device and sensor type, in file order. */
  function Points(t: Table, deviceId: Option<string>, sensor: Option<string>, readable: string -> bool): seq<Row>
  {
    Where(t.rows, PlottedBy(deviceId, sensor, readable))
  }

  /** The points are exactly the file's rows that pass the filters and have a readable timestamp. */
  lemma PointsMembers(t: Table, deviceId: Option<string>, sensor: Option<string>, readable: string -> bool)
    ensures forall row :: row in Points(t, deviceId, sensor, readable) <==> row in t.rows && Plotted(row, deviceId, sensor, readable)
  {
    WhereMembers(t.rows, PlottedBy(deviceId, sensor, readable));
  }

  /** Dropping unreadable timestamps from the filtered table leaves the points, in order. */
  lemma TimedPoints(t: Table, deviceId: Option<string>, sensor: Option<string>, readable: string -> bool)
    requires FilterDf(t, deviceId, sensor).Ok?
    ensures Where(FilterDf(t, deviceId, sensor).value.rows, TimeReadable(readable)) == Points(t, deviceId, sensor, readable)
  {
    WhereBoth(t.rows, Selection(deviceId, sensor), TimeReadable(readable), PlottedBy(deviceId, sensor, readable));
  }

  /** The id given, or (`None` given) the default picked from the file. */
  function ChosenId(given: Option<string>, t: Table): Result<Option<string>, PlotError>
  {
    if given.Some? then Ok(given) else PickDefaultDeviceId(t)
  }

  /**
   * Both ids are settled, both tables pass `_filter_df`, and both have a
   * `timestamp` column: everything before the drawing succeeds.
   */
  predicate Prepared(a: CsvFile, b: CsvFile, idA: Option<string>, idB: Option<string>, sensor: Option<string>)
  {
    && ChosenId(idA, a.table).Ok? && ChosenId(idB, b.table).Ok?
    && FilterDf(a.table, ChosenId(idA, a.table).value, sensor).Ok?
    && FilterDf(b.table, ChosenId(idB, b.table).value, sensor).Ok?
    && "timestamp" in a.table.columns && "timestamp" in b.table.columns
  }

  /**
   * The first error raised before the drawing, in the order of the source:
   * the default id of `a`, of `b`, the filters on `a`, on `b`, then the
   * `timestamp` column of `a` and of `b`.
   */
  function PreparationError(a: CsvFile, b: CsvFile, idA: Option<string>, idB: Option<string>, sensor: Option<string>): (e: Option<PlotError>)
    ensures e.None? <==> Prepared(a, b, idA, idB, sensor)
  {
    var ca, cb := ChosenId(idA, a.table), ChosenId(idB, b.table);
    if ca.Err? then Some(ca.error)
    else if cb.Err? then Some(cb.error)
    else
      var fa, fb := FilterDf(a.table, ca.value, sensor), FilterDf(b.table, cb.value, sensor);
      if fa.Err? then Some(fa.error)
      else if fb.Err? then Some(fb.error)
      else if "timestamp" !in a.table.columns || "timestamp" !in b.table.columns then Some(MissingColumn("timestamp"))
      else None
  }

  /** The label reads `protocol` and the drawing reads `value` only from a non-empty selection. */
  predicate Drawable(t: Table, points: seq<Row>)
  {
    points == [] || ("protocol" in t.columns && "value" in t.columns)
  }

  predicate LacksProtocol(t: Table, points: seq<Row>)
  {
    points != [] && "protocol" !in t.columns
  }

  /** The `if device_x_id is None` defaults, taken for `a` and then for `b`; the first error ends it. */
  method SettleIds(ta: Table, tb: Table, idA: Option<string>, idB: Option<string>)
    returns (r: Result<(Option<string>, Option<string>), PlotError>)
    ensures r.Ok? <==> ChosenId(idA, ta).Ok? && ChosenId(idB, tb).Ok?
    ensures r.Ok? ==> r.value == (ChosenId(idA, ta).value, ChosenId(idB, tb).value)
    ensures r.Err? ==> r.error == if ChosenId(idA, ta).Err? then ChosenId(idA, ta).error else ChosenId(idB, tb).error
  {
    var deviceA, deviceB := idA, idB;
    if deviceA.None? {
      var picked := PickDefaultDeviceId(ta);
      if picked.Err? {
        return Err(picked.error);
      }
      deviceA := picked.value;
    }
    if deviceB.None? {
      var picked := PickDefaultDeviceId(tb);
      if picked.Err? {
        return Err(picked.error);
      }
      deviceB := picked.value;
    }
    return Ok((deviceA, deviceB));
  }

  /** Setting the first message and then extending it, as the source does, gives the warning. */
  lemma WarningSteps(first: Option<string>, warn: Option<string>, idA: Option<string>, idB: Option<string>, emptyA: bool, emptyB: bool)
    requires first == if idA.None? || idB.None? then Some(InferMessage) else None
    requires warn == if emptyA || emptyB then Some(WithNoData(first)) else first
    ensures warn == Warning(idA, idB, emptyA, emptyB)
  {
  }

  /**
   * The `KeyError` the labels (`protocol` of `a`, then of `b`) and then the
   * plots (`value` of `a`, then of `b`) raise, each read only when its
   * selection is non-empty.
   */
  function DrawingError(ta: Table, tb: Table, pointsA: seq<Row>, pointsB: seq<Row>): (e: Option<PlotError>)
    ensures e.None? <==> Drawable(ta, pointsA) && Drawable(tb, pointsB)
    ensures e.Some? ==> e.value == MissingColumn(if LacksProtocol(ta, pointsA) || LacksProtocol(tb, pointsB) then "protocol" else "value")
  {
    if LacksProtocol(ta, pointsA) || LacksProtocol(tb, pointsB) then Some(MissingColumn("protocol"))
    else if (pointsA != [] && "value" !in ta.columns) || (pointsB != [] && "value" !in tb.columns) then Some(MissingColumn("value"))
    else None
  }

  /**
   * `plot_two_devices(file_a=..., file_b=..., device_a_id=..., device_b_id=..., sensor=...)`,
   * with `readable` telling which timestamp texts pandas turns into instants.
   * Any error before the drawing is `PreparationError`'s; after it, a missing
   * `protocol` column (read by the labels of `a`, then `b`) comes before a
   * missing `value` column (read by the plots of `a`, then `b`).
   */
  method PlotTwoDevices(a: CsvFile, b: CsvFile, idA: Option<string>, idB: Option<string>,
                        sensor: Option<string>, readable: string -> bool)
    returns (r: Result<Plot, PlotError>)
    ensures !Prepared(a, b, idA, idB, sensor) ==> r == Err(PreparationError(a, b, idA, idB, sensor).value)
    ensures Prepared(a, b, idA, idB, sensor) ==>
      var deviceA, deviceB := ChosenId(idA, a.table).value, ChosenId(idB, b.table).value;
      var pointsA, pointsB := Points(a.table, deviceA, sensor, readable), Points(b.table, deviceB, sensor, readable);
      && (r.Ok? <==> Drawable(a.table, pointsA) && Drawable(b.table, pointsB))
      && (r.Err? ==> r.error == MissingColumn(if LacksProtocol(a.table, pointsA) || LacksProtocol(b.table, pointsB) then "protocol" else "value"))
      && (r.Ok? ==> r.value == Plot(OutputName(Stem(a.name), Stem(b.name), sensor),
                                    Warning(deviceA, deviceB, pointsA == [], pointsB == []),
                                    deviceA, deviceB, pointsA, pointsB))
  {
    var ids := SettleIds(a.table, b.table, idA, idB);
    if ids.Err? {
      assert !Prepared(a, b, idA, idB, sensor);
      return Err(ids.error);
    }
    var (deviceA, deviceB) := ids.value;

    var warn: Option<string> := None;
    if deviceA.None? || deviceB.None? {
      warn := Some(InferMessage);
    }

    var fa := FilterDf(a.table, deviceA, sensor);
    if fa.Err? {
      assert !Prepared(a, b, idA, idB, sensor);
      return Err(fa.error);
    }
    var fb := FilterDf(b.table, deviceB, sensor);
    if fb.Err? {
      assert !Prepared(a, b, idA, idB, sensor);
      return Err(fb.error);
    }
    if "timestamp" !in fa.value.columns {
      assert !Prepared(a, b, idA, idB, sensor);
      return Err(MissingColumn("timestamp"));
    }
    if "timestamp" !in fb.value.columns {
      assert !Prepared(a, b, idA, idB, sensor);
      return Err(MissingColumn("timestamp"));
    }
    assert Prepared(a, b, idA, idB, sensor);
    var pointsA := Where(fa.value.rows, TimeReadable(readable));
    var pointsB := Where(fb.value.rows, TimeReadable(readable));
    TimedPoints(a.table, deviceA, sensor, readable);
    TimedPoints(b.table, deviceB, sensor, readable);

    ghost var first := warn;
    if pointsA == [] || pointsB == [] {
      warn := Some(WithNoData(warn));
    }
    WarningSteps(first, warn, deviceA, deviceB, pointsA == [], pointsB == []);

    var missing := DrawingError(a.table, b.table, pointsA, pointsB);
    if missing.Some? {
      return Err(missing.value);
    }

    var path := OutputName(Stem(a.name), Stem(b.name), sensor);
    return Ok(Plot(path, warn, deviceA, deviceB, pointsA, pointsB));
  }
}
