# IoT MQTT/HTTP device simulation: the analysis core, verified

This project models in Dafny the parts of the IoT device simulation that decide
what its experiments report. It then proves properties of that model.

Each experiment run leaves a CSV file named `<interval>_<devices>_<PROTOCOL>.csv`.
Every row of the file is one sensor reading with the time the device stamped it
(`timestamp`) and the time the collector received it (`receive_time`). The
analysis script does the following:

- decodes each file name into an experiment key;
- computes a delay in milliseconds for every row;
- pools the non-negative delays per key;
- records one throughput observation (a message count and a time span) per file;
- summarises each pool (count, mean, variance, min, max, median, 95th and 99th percentile);
- draws two charts per message interval:
  - the mean delay against the number of devices;
  - the mean per-run message rate against the number of devices.

The demo runner names the run file, checks the protocol, derives the collector's
host and port from its URL, and hands sensor types to devices round robin. The
two-device plot picks a default device, filters rows, names its output file and
assembles a warning.

Modules, in dependency order:

- `Common`: `Option`, `Result` and a few generic sequence lemmas.
- `Text`: digits, numerals, padding, ASCII upper-casing, `split`/`join`/`find` on strings.
- `Numbers`: sum, min, max, mean, variance, sorting, and NumPy's linear-interpolation percentile.
- `Tables`: a CSV table as a column set and rows of text cells.
- `FileNames`: `parse_filename`.
- `Timestamps`: a documented subset of `datetime.fromisoformat`, of the `strptime` pattern `%Y-%m-%dT%H:%M:%S.%f`, and of `pd.to_datetime(..., utc=True)`. Instants are integer microseconds.
- `Delays`: `calculate_delay`.
- `Ingestion`: `load_experiment_data`, as a method over an in-memory folder.
- `Statistics`: `aggregate_statistics`.
- `Comparison`: the data behind the delay chart and the throughput chart.
- `Pipeline`: `main` of the analysis script.
- `Demo`: the pure pieces of `run_demo.py`.
- `TwoDevices`: the row selection and naming logic of `plot_two_devices.py`.

Code that loops and appends in the source is modelled as methods with loop
invariants. Each method is proved against a function of its inputs:

- `LoadExperimentData`, `FileDelays`, `AddShare`;
- `AggregateStatistics`, `ThroughputRecords`;
- `Analyze`, `DelayCharts`, `ThroughputCharts`;
- `SpawnDevices`, `CreateDevices`, `SettleIds`, `PlotTwoDevices`.

The expression-style parts are functions with lemmas about them.

Three behaviours of the code are modelled as written:

- `calculate_delay` cuts each timestamp at its first `+` or `Z`. A positive offset is therefore dropped, while a negative offset such as `-05:00` is kept. Stamps with different positive offsets are compared as if they were in one zone (`Delays.PositiveOffsetsConflated`).
- A negative offset kept on one side only makes the subtraction fail (aware minus naive), so the delay is `None`.
- `parse_filename` removes every `.csv` in the name, not only the extension. Its `$` also matches before one final newline, as Python's `re` does.

## Model

| member | source | states |
|---|---|---|
| FileNames.ParseFilenameComplete | analyze_experiments.py:25-40 | a name that is, with every `.csv` removed, `digits_digits_P` (up to one trailing newline), with `P` equal to HTTP or MQTT in any case, decodes to the two numbers and the protocol |
| FileNames.ParseFilenameSound | analyze_experiments.py:25-40 | every name that decodes has that shape, and its key is made of the two numbers and the protocol of the token |
| FileNames.ProtocolToken | analyze_experiments.py:31-37 | a protocol token decodes exactly when it equals HTTP or MQTT ignoring case; the decoded protocol's name is the upper-case word |
| FileNames.ProtocolName | analyze_experiments.py:37 | a decoded protocol is always written as a four-letter upper-case word |
| FileNames.BogusIsSkipped | analyze_experiments.py:92-96 | a name outside the pattern, such as `bogus.csv`, yields no key |
| Demo.CsvFilenameRoundTrip | run_demo.py:20-27 | for a non-negative interval and device count and a known protocol in any case, the generated name decodes to exactly that interval, count and upper-cased protocol |
| Demo.GeneratedNameMatches | run_demo.py:26 | `<numeral>_<numeral>_<HTTP or MQTT>.csv` has the shape the analysis pattern accepts |
| Demo.ProtocolOf | run_demo.py:98-99 | the protocol is accepted exactly when it upper-cases to HTTP or MQTT; otherwise the error carries the upper-cased name |
| Demo.CreateDevices | run_demo.py:30-101 | an unknown protocol fails before any device exists; otherwise there are `max(0, num_devices)` devices, device `k` has number `k + 1`, sensor type `k mod 3`, the configured interval and the protocol's link |
| Demo.SpawnDevices | run_demo.py:57-65 | the `range(num_devices)` loop creates device `k` with number `k + 1` and sensor type `k mod 3`, and no device for a negative count |
| Demo.RoundRobinBalanced | run_demo.py:58 | among `n` devices, `⌈n/3⌉` read temperature, `⌊(n+1)/3⌋` read humidity and `⌊n/3⌋` read light |
| Demo.CollectorAddress | run_demo.py:125-134 | after a leading `http://` is removed: no `:` gives the whole rest as host and port 5000; one `:` gives the text before it as host and the integer before the next `/` as port, or an error if `int()` rejects it; two or more `:` fail to unpack |
| Demo.CollectorAddressRoundTrip | run_demo.py:125-134 | `http://host:port/path`, with no `:` in host or path, yields exactly that host and port |
| Demo.ParseInt | run_demo.py:131 | `int()` succeeds exactly on an optional sign followed by ASCII digits |
| Demo.ParseIntOfString | run_demo.py:131 | `int(str(i)) == i` for every integer |
| Delays.StripZone | analyze_experiments.py:51-52 | the kept text contains neither `+` nor `Z` |
| Delays.CalculateDelay | analyze_experiments.py:43-68 | a missing field gives `None` rather than an error |
| Delays.DelayOfParsed | analyze_experiments.py:51-65 | when both stripped stamps parse, the delay is receive minus origin in milliseconds; an aware/naive pair gives `None` |
| Delays.StampDelay | analyze_experiments.py:64-68 | the delay is exact (microseconds over 1000) and may be negative; it is absent exactly when one stamp has a zone and the other does not |
| Delays.DelayIgnoresZoneSuffix | analyze_experiments.py:51-52 | stripping is idempotent, and the delay depends only on the stripped texts |
| Delays.SameDelayWhateverSuffix | analyze_experiments.py:51-52 | two pairs of stamps that differ only in what follows their first `+` or `Z` give the same delay |
| Delays.DelayOfIsoFormats | analyze_experiments.py:51-64 | for stamps written by `isoformat()`, the delay is the difference of the stamps with positive offsets dropped and other offsets kept |
| Delays.DelayOfUtcStamps | analyze_experiments.py:51-64 | for two UTC stamps as the devices and the collector write them, the delay is the exact difference of the wall-clock readings in milliseconds |
| Delays.NaiveStampDelay | analyze_experiments.py:64-65 | a reception before origination gives a negative delay, returned rather than rejected |
| Delays.PositiveOffsetsConflated | analyze_experiments.py:51-52 | stamps one hour apart, written `+01:00` and `+00:00` with the same wall-clock reading, get delay 0 |
| Delays.DelayOfFallback | analyze_experiments.py:55-61 | when one stripped stamp is not ISO but both match the `strptime` format, the delay is that of two naive stamps, the plain wall-clock difference |
| Delays.UnparsedHasNoDelay | analyze_experiments.py:51-68 | a timestamp that neither parser accepts once stripped yields `None` whatever the receive time |
| Delays.NotADateHasNoDelay | analyze_experiments.py:51-68 | the text `not-a-date` is such a timestamp and yields `None` whatever the receive time |
| Delays.NoDateWithoutLeadingDigit | analyze_experiments.py:55-61 | text not starting with a digit is rejected by both the ISO parser and the `strptime` fallback |
| Timestamps.IsoFormatRoundTrip | analyze_experiments.py:56-57 | `fromisoformat(isoformat(d))` gives back `d` and its offset, for every valid stamp |
| Timestamps.StrftimeRoundTrip | analyze_experiments.py:60-61 | the `strptime` fallback reads back a stamp written with its own pattern |
| Timestamps.FromIsoFormat | analyze_experiments.py:56-57 | every stamp the ISO parser accepts is a valid calendar date and time with an offset under a day |
| Timestamps.Strptime | analyze_experiments.py:60-61 | every stamp the fallback parser accepts is a valid calendar date and time |
| Timestamps.ParseUtcOfIsoFormat | analyze_experiments.py:121 | the throughput parser reads a written stamp as its UTC instant, honouring the offset |
| Ingestion.CsvFiles | analyze_experiments.py:83 | the files walked are exactly the folder's entries whose name ends in `.csv` |
| Ingestion.LoadExperimentData | analyze_experiments.py:71-135 | a missing folder and a folder without CSV files are the two errors; otherwise the pools, their key order and the throughput runs are those of the file-by-file walk |
| Ingestion.FileShare | analyze_experiments.py:90-133 | one file contributes nothing when its name does not parse or it cannot be read; otherwise its accepted delays and its throughput run under its key |
| Ingestion.FileDelays | analyze_experiments.py:106-110 | the row loop keeps, in order, the delays that exist and are at least 0 |
| Ingestion.AddShare | analyze_experiments.py:112-125 | a file's delays extend its key's pool only when non-empty, and its run is appended whether or not it has delays |
| Ingestion.WalkStep | analyze_experiments.py:112-125 | one more file appends its delays to its key's pool, its run to its key's runs, and adds its key to the order only when it is new and brings delays |
| Ingestion.KeyOrderMembers | analyze_experiments.py:112-114 | a key appears in the loaded order exactly when its pool is non-empty, and at most once |
| Ingestion.PoolSizeIsAcceptedRows | analyze_experiments.py:92-114 | each key's pool is as long as the number of rows, over all files named for that key, whose delay exists and is at least 0 |
| Ingestion.KeptCount | analyze_experiments.py:107-110 | the kept delays are as many as the accepted rows |
| Ingestion.PooledFromRows | analyze_experiments.py:106-114 | every pooled delay is non-negative and is the delay of a row of a file named for that key |
| Ingestion.UnmatchedFileIgnored | analyze_experiments.py:90-133 | a file whose name does not parse, or which cannot be read, changes no pool, no run list and no key order |
| Ingestion.SpanSeconds | analyze_experiments.py:123 | the span is always positive: the spread of the receive instants in seconds, floored at 1e-9 |
| Ingestion.FileRun | analyze_experiments.py:119-125 | a run is recorded exactly when the file has a `receive_time` column with at least one parseable value; its count is the number of parseable receive times |
| Ingestion.RunWithoutDelays | analyze_experiments.py:112-125 | a file without accepted delays leaves its key's pool alone but still appends its run |
| Ingestion.ThroughputIgnoresTimestamps | analyze_experiments.py:119-125 | the run of a file depends only on its receive times, not on its origin timestamps |
| Numbers.Mean | analyze_experiments.py:154 | the mean lies between the minimum and the maximum |
| Numbers.Variance | analyze_experiments.py:155 | the variance is non-negative |
| Numbers.Sort | analyze_experiments.py:158-160 | the sort is ordered and a permutation of its input |
| Numbers.PercentileMonotone | analyze_experiments.py:158-160 | a higher percentile is never smaller |
| Numbers.PercentileEnds | analyze_experiments.py:156-160 | the 0th percentile is the minimum and the 100th is the maximum |
| Numbers.MedianIsPercentile50 | analyze_experiments.py:158 | the median is the 50th percentile |
| Statistics.Summarize | analyze_experiments.py:150-161 | a row's count is its pool's length, its min and max occur in the pool and bound it, and min ≤ median ≤ p95 ≤ p99 ≤ max and min ≤ mean ≤ max |
| Statistics.AggregateStatistics | analyze_experiments.py:138-164 | the loop emits the summaries of the non-empty pools in key order |
| Statistics.AggregateRows | analyze_experiments.py:148-162 | each row summarises the pool of a listed key, and each listed key with a non-empty pool has a row |
| Statistics.AggregateDistinct | analyze_experiments.py:148-162 | distinct keys give rows with distinct keys |
| Statistics.AggregateSize | analyze_experiments.py:148-162 | with distinct keys there is exactly one row per non-empty pool |
| Statistics.LoadedStatistics | analyze_experiments.py:92-162 | after loading, rows have distinct keys, each row's count is the number of accepted rows for its key, and each key with an accepted row has a row |
| Comparison.GroupMeans | analyze_experiments.py:183 | one point per distinct device count, in ascending order, each the mean of its group and so between the group's extremes |
| Comparison.DelayChart | analyze_experiments.py:172-184 | no chart when no statistics row has the interval; otherwise a series per protocol that has rows, HTTP first, which groups that protocol's mean delays; what the chart then draws is stated by DelayChartDraws |
| Comparison.DelaySampleOf | analyze_experiments.py:179-183 | every statistics row of the interval is one of its protocol's delay samples, with its device count and mean delay |
| Comparison.DelayComplete | analyze_experiments.py:172-184 | with one row per key, every statistics row of the interval is drawn, at its device count and with its mean delay, in its protocol's series |
| Comparison.DelayChartDraws | analyze_experiments.py:166-193 | with one row per key, the delay chart is absent exactly when no row has the interval; otherwise it is named after the interval, has at most two series, HTTP first, each ascending by device count, a series exactly for each protocol with rows, and its points are exactly the mean delays of the interval's rows |
| Comparison.DelayPointIsRowMean | analyze_experiments.py:172-184 | with one row per key, each point of the delay chart is the mean delay of the one configuration it stands for |
| Comparison.PerRunRates | analyze_experiments.py:218 | one rate per run with a positive span; each rate is count / span of such a run, and every such run's rate is among them |
| Comparison.UsableRuns | analyze_experiments.py:218 | the number of runs with a positive span is at most the number of runs, and equals it exactly when every span is positive |
| Comparison.PerRunRatesAppend | analyze_experiments.py:218 | the rates keep the order of the runs: the rates of two lists of runs in turn are the rates of the first, then of the second |
| Comparison.ThroughputRecords | analyze_experiments.py:214-225 | exactly one record per key of the interval with a rate, carrying the mean of its per-run rates, keys not repeated |
| Comparison.RateBetweenRuns | analyze_experiments.py:215-224 | a configuration's rate is the mean of its per-run rates, between the slowest and the fastest run |
| Comparison.PerRunNotPooled | analyze_experiments.py:218-224 | rates are averaged per run, not pooled: runs of 1 message/1 s and 1 message/2 s give 0.75, while pooling would give 2/3 |
| Comparison.ThroughputChart | analyze_experiments.py:227-239 | no chart when there are no records; otherwise a series per protocol that has records, HTTP first |
| Comparison.PlotLayout | analyze_experiments.py:234-239 | a chart has at most two series, HTTP before MQTT, each ascending by device count, and a series for a protocol exactly when that protocol has samples |
| Comparison.GroupMeansOfDistinct | analyze_experiments.py:238 | when no device count repeats, every sample is itself a grouped point |
| Comparison.ThroughputSeries | analyze_experiments.py:234-237 | a throughput series is drawn for a protocol exactly when some configuration of that protocol has a rate |
| Comparison.ThroughputComplete | analyze_experiments.py:214-239 | every configuration of the interval with a rate is drawn, at its device count, in its protocol's series |
| Comparison.ChartOfRecords | analyze_experiments.py:214-239 | the chart of the records is absent exactly when the interval has no rate; otherwise it is laid out by protocol and its points are exactly the rates of the configurations they stand for |
| Comparison.ThroughputForInterval | analyze_experiments.py:198-250 | the chart is absent exactly when no configuration of the interval has a usable run; otherwise it is named after the interval, has a series exactly for each protocol with a rate, HTTP first, each ascending by device count, and its points are exactly the rates of the configurations with that interval, protocol and device count |
| Comparison.LoadedRunsAllCount | analyze_experiments.py:123 | every run the loader records has a positive span, so each of them yields a rate in the per-run rates |
| Pipeline.Intervals | analyze_experiments.py:337 | the intervals of the statistics, each once, in ascending order |
| Pipeline.Analyze | analyze_experiments.py:276-360 | the run fails exactly when the folder is missing or has no CSV file; with CSV files it ends with no output exactly when no delay was pooled, and otherwise produces a report: the statistics are the aggregate of the loaded pools, not empty, and each requested interval gets, in order, a delay chart that draws exactly the mean delays of that interval's rows and a throughput chart that draws exactly the rates of that interval |
| Pipeline.EveryIntervalHasRows | analyze_experiments.py:336-338 | without `--interval`, every charted interval has statistics rows, so each delay chart is drawn |
| TwoDevices.PickDefaultDeviceId | plot_two_devices.py:25-28 | no id when the `device_id` column is absent or the table is empty; otherwise an id that occurs with maximal frequency |
| TwoDevices.WhereBoth | plot_two_devices.py:33-36 | two successive masks select, in order, the rows that pass both tests |
| TwoDevices.NarrowedRows | plot_two_devices.py:33-36 | the device mask and then the sensor mask, each applied only when its argument is truthy, keep in order exactly the rows that pass both filters |
| TwoDevices.FilterDf | plot_two_devices.py:31-37 | without filters the table is returned unchanged; otherwise its rows are, in order, exactly those matching the truthy device id and sensor; the columns are kept, and a missing filtered column is an error (`device_id` first) |
| TwoDevices.FilterDfKeepsOrder | plot_two_devices.py:31-37 | filtering the concatenation of two row lists is the concatenation of the filtered lists, so the original order is kept |
| TwoDevices.FilterOrderIrrelevant | plot_two_devices.py:33-36 | filtering by device and then by sensor keeps the same rows, in the same order, as filtering by sensor and then by device |
| TwoDevices.Warning | plot_two_devices.py:62-79 | no warning exactly when both ids are known and both filtered sets are non-empty; otherwise the applicable messages joined by one space, in order |
| TwoDevices.OutputNameOfRunFiles | plot_two_devices.py:106-109 | for run files `A.csv` and `B.csv` the plot is `two_devices_split_A__B` with `_sensor` when a sensor is given, then `.png` |
| TwoDevices.StemOfExtension | plot_two_devices.py:106-107 | a file's stem is its name without the last suffix |
| TwoDevices.TimedPoints | plot_two_devices.py:67-76 | dropping the rows whose timestamp cannot be read from a filtered table leaves the points: the table's rows, in order, that pass the filters and have a readable timestamp |
| TwoDevices.PointsMembers | plot_two_devices.py:67-76 | a row is plotted exactly when it is in the file, passes the filters and has a readable timestamp |
| TwoDevices.SettleIds | plot_two_devices.py:57-60 | a missing id is replaced by the file's default, `a` before `b`; the first `ValueError` of a default pick is the error |
| TwoDevices.PreparationError | plot_two_devices.py:57-74 | no error exactly when both ids settle, both tables pass the filters and both have a `timestamp` column; otherwise the first error in the order the source raises them |
| TwoDevices.DrawingError | plot_two_devices.py:82-95 | no error exactly when each non-empty selection's table has `protocol` and `value`; otherwise a missing `protocol` (read by the labels) is reported before a missing `value` (read by the plots) |
| TwoDevices.PlotTwoDevices | plot_two_devices.py:40-113 | succeeds exactly when the preparation succeeds and both selections can be drawn; any error is the first one the source raises; on success the ids are the given ones or the defaults, the points of each file are its filtered readable rows in file order, and the warning and the output name are as above |

## Left out

- Drawing, labels, titles, saving figures, `mkdir`, `glob`, `pd.read_csv`, `to_csv` and every printed message are I/O. The folder is given in memory as entries in directory order, each with its read table or a read failure.
- Sorting the two-device points by `ts` is left out: the model keeps the filtered order and states its contents.
- `Numbers.Variance`: models the variance; the square root that turns it into `std_delay` is not modelled, because there is no real square root to reason about exactly.
- Floating-point rounding of NumPy's mean, variance and percentiles is left out: sums and quotients are exact reals.
- `Timestamps.FromIsoFormat`: accepts one documented subset of `datetime.fromisoformat`: `YYYY-MM-DDTHH:MM:SS`, an optional `.` or `,` fraction (first six digits count), then `Z` or `±HH:MM` or nothing. Other ISO forms the library accepts (week dates, a date without time, a space separator, seconds in the offset) are rejected in the model.
- `Timestamps.ParseUtc`: models `pd.to_datetime(..., utc=True)` only on the same subset, reading naive stamps as UTC. Pandas' general format inference is left out, and so are fraction digits past the sixth, which the model drops while pandas keeps nanoseconds.
- `Delays.Ms`: milliseconds are the exact quotient of integer microseconds; the rounding of `total_seconds() * 1000` in floating point is left out.
- `Ingestion.SpanSeconds`: the span is an exact difference of reals; the floating-point seconds pandas computes are left out.
- `Timestamps.Strptime`: accepts the pattern `%Y-%m-%dT%H:%M:%S.%f` on ASCII digits only, one or two digits per field after the year. Python's `_strptime` also accepts a day written as a space and one digit (`2024-01- 5T10:00:00.5`) and matches any Unicode decimal digit with `\d`; the model rejects both.
- `FileNames.ParseFilename`: `\d` is ASCII digits only, while Python's matches any Unicode decimal digit.
- `Demo.ParseInt`: accepts an optional sign and ASCII digits; `int()`'s acceptance of surrounding whitespace, underscores between digits and non-ASCII digits is left out.
- `Text.Upper`: upper-cases ASCII letters only; Python's full Unicode case mapping is left out.
- Table cells are text, or absent for an empty cell. Pandas' dtype inference, which can make a numeric `device_id` column compare unequal to a string id, is left out.
- `Config`: numeric configuration values are integers; a float `message_interval` is left out.
- `TwoDevices.PickDefaultDeviceId`: when several ids share the top frequency, the model fixes one but only promises some id of maximal frequency. It does not model which one `value_counts().idxmax()` picks.
- `file_a.stem` is modelled on the file name alone; path normalisation by `pathlib` is left out.
- `Comparison.ThroughputRecords`: the order in which the records are listed is left open, since `throughput_runs` is a dict whose order only affects the grouping, which sorts by device count.
- Device classes, their threads and HTTP/MQTT publishing, the collectors, the CSV storage with its lock, `start_collector`'s servers and thread, `_wait_for_http`, `time.sleep` and `load_config` are concurrency, network and file I/O.
- Argument parsing, the printed summary (`print_summary_statistics`) and the optional CSV export of `main` are I/O.
