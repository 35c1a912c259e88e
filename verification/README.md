# homeserver scripts, modelled in Dafny

This project models the logic inside three small home-automation scripts
and proves properties of that logic.

- **Xiaomi sensor acquisition** (`xiaomi/read_Mi_Temp_Humid.py`).
  `get_temperature` runs a helper script repeatedly and reads its output
  lines:
  - a blank line ends the run;
  - `reading failed` or `error` counts a retry against a ceiling of 5 and
    backs off exponentially;
  - `busy` aborts;
  - any other line is split into location, temperature and humidity. It
    becomes a `Temperature`, which is appended to a CSV file when its
    values are plausible.
- **Broadband merge** (`breitbandmessung/src/breitbandmessung.py`).
  `handle_data` normalises the downloaded `Breitbandmessung_*.csv`
  exports. It concatenates them after the master table's rows, drops
  duplicate test ids keeping the first, overwrites the master, and then
  deletes the exports.
- **Weather report** (`openweather/openweather.py`).
  `getCurrentData` turns an OpenWeatherMap response into a report:
  - the weather fields come from the first element of the response's
    `weather` list;
  - sunrise and sunset are rendered as `HH:MM:SS`;
  - rain and snow keys are added only when present.

  `is_valid` checks the temperature, and `write_to_influxdb` builds one
  point.

Modules:

- `Wrappers`: `Option`, and `MapAll`, which fails when any
  element fails.
- `Text`: Python's `in`, `split`, `join`, `rstrip` and single-character
  `replace` on strings.
- `Clock`: calendar values and the `%H:%M:%S` rendering of an epoch
  second.
- `Temperature`, `Acquisition`: the sensor script.
- `Measurements`, `Broadband`: the merge.
- `Json`, `Weather`: the weather poller.

## Model

| member | source | states |
|---|---|---|
| Temperature.NewReading | xiaomi/read_Mi_Temp_Humid.py:46-50 | A reading exists exactly when `float(temperature)` and `int(humidity)` both succeed; it keeps the location verbatim, the clock's text as timestamp and the two converted numbers |
| Temperature.ValidIffWithinBounds | xiaomi/read_Mi_Temp_Humid.py:61-66 | `is_valid` holds iff -10 <= temperature <= 60 and 0 <= humidity <= 100, all bounds inclusive |
| Temperature.CsvLineSplitsIntoFields | xiaomi/read_Mi_Temp_Humid.py:52-53 | The `str()` line splits back on `", "` into timestamp, location, temperature with `°C`, humidity with `%`, in that order, when no field contains the separator |
| Temperature.WriteAllAppendsLines | xiaomi/read_Mi_Temp_Humid.py:55-59 | Calling `write_to_file` for several readings in turn leaves the old content first, then exactly one line per reading (its `str()` and a newline) in the order written; any write makes the file longer |
| Acquisition.ClassifyMeaning | xiaomi/read_Mi_Temp_Humid.py:15-19 | A line ends the run iff it is all whitespace (or absent); it is a transient failure iff it contains `reading failed` or `error`; it is a busy abort iff it contains `busy` and no failure marker; data lines carry none of these |
| Acquisition.ClassifyFields | xiaomi/read_Mi_Temp_Humid.py:32-36 | A data line with three fields is exactly those fields joined by `", "`, no field containing the separator; any other field count is malformed |
| Acquisition.FailureCheckedBeforeBusy | xiaomi/read_Mi_Temp_Humid.py:19-30 | A line with both a failure marker and `busy` is a failure, never a busy abort |
| Acquisition.Run | xiaomi/read_Mi_Temp_Humid.py:14-43 | One run sleeps at most once, only when it ends the run with fewer than 5 retries so far, and then for 2^(retries+1) seconds; it gives up only at 5 retries; success holds iff something was written; only valid readings are written |
| Acquisition.Acquire | xiaomi/read_Mi_Temp_Humid.py:12-43 | Over all runs the sleeps never push retries past 5; giving up means the ceiling was reached; `Done` means at least one reading was written; only valid readings are written |
| Acquisition.AcquireBackoff | xiaomi/read_Mi_Temp_Humid.py:25-27 | Over all runs each sleep is twice the one before, starting from 2^(retries+1) |
| Acquisition.FailingRunsThenDone | xiaomi/read_Mi_Temp_Humid.py:19-28 | Failed runs within the ceiling, then a run with a valid reading: the call is `Done`, writes exactly that reading and slept once per failed run |
| Acquisition.FailingRunsGiveUp | xiaomi/read_Mi_Temp_Humid.py:19-28 | More failed runs than the ceiling allows: the call gives up with nothing written, after sleeping until retries reach 5 |
| Acquisition.GetTemperature | xiaomi/read_Mi_Temp_Humid.py:8-43 | From a fresh start the sleeps are a prefix of 2, 4, 8, 16, 32; giving up means all five happened; every written reading is valid |
| Acquisition.BackoffFromStart | xiaomi/read_Mi_Temp_Humid.py:25-27 | Doubling sleeps from no retries are exactly a prefix of 2, 4, 8, 16, 32 |
| Acquisition.BusyAbortsAcquisition | xiaomi/read_Mi_Temp_Humid.py:29-30 | A busy line first in a run returns at once: no sleep, no write, no retry, and later runs are never read |
| Acquisition.EndOfRunKeepsRetries | xiaomi/read_Mi_Temp_Humid.py:17-18 | A blank line, the end of output or a malformed line ends the run with retries, success and logs unchanged |
| Acquisition.CoercionFailureCrashes | xiaomi/read_Mi_Temp_Humid.py:39 | A three-field line whose numbers do not convert ends everything with an uncaught error |
| Acquisition.WriteContinuesRun | xiaomi/read_Mi_Temp_Humid.py:41-43 | After a valid write the same run goes on with the next line: the result is the rest of the run's result with this reading written first |
| Acquisition.TwoReadingsInOneRun | xiaomi/read_Mi_Temp_Humid.py:41-43 | Two valid data lines in one run write both readings, in order |
| Acquisition.FailuresThenReading | xiaomi/read_Mi_Temp_Humid.py:19-28 | Runs that each start with a failure, then a run with a valid reading: the reading is written after one sleep per failed run if the ceiling allows, otherwise the call gives up with nothing written |
| Acquisition.CeilingOfFive | xiaomi/read_Mi_Temp_Humid.py:21-25 | From a fresh start, with k failing runs and then a valid reading: the call is done iff k <= 5 and gives up iff k > 5; it writes exactly that reading when k <= 5 and nothing otherwise |
| Acquisition.CeilingOfFiveFile | xiaomi/read_Mi_Temp_Humid.py:21-28 | After at most five failing runs the CSV file gains exactly the reading's line; after more it is unchanged |
| Acquisition.AcquisitionFile | xiaomi/read_Mi_Temp_Humid.py:41-43 | The CSV file after `get_temperature` is the old file followed by the lines of the written readings in order, and a successful call adds at least one line |
| Text.SplitJoinsBack | xiaomi/read_Mi_Temp_Humid.py:33 | Joining the parts of `split(sep)` gives the string back, and no part contains the separator |
| Text.SplitJoin | xiaomi/read_Mi_Temp_Humid.py:33 | `split` undoes `join` for a separator that cannot overlap itself and parts that do not contain it |
| Text.RStripSpec | xiaomi/read_Mi_Temp_Humid.py:15 | `rstrip` removes only whitespace, and what it keeps does not end in whitespace |
| Text.ContainsRStrip | xiaomi/read_Mi_Temp_Humid.py:15-19 | A marker not ending in whitespace occurs in the stripped line iff it occurs in the line |
| Text.FindLeftmost | xiaomi/read_Mi_Temp_Humid.py:33 | The occurrence `split` cuts at is the leftmost one, and "none" means there is no occurrence |
| Measurements.DropDuplicates | breitbandmessung/src/breitbandmessung.py:123 | The result has no two rows with one test id, the same test ids as the input, and each kept row is the first row of the input with its id |
| Measurements.DropDuplicatesIsSubsequence | breitbandmessung/src/breitbandmessung.py:123 | The kept rows are the input with rows left out and the rest in their order |
| Measurements.DropDuplicatesSize | breitbandmessung/src/breitbandmessung.py:123 | Exactly one row per distinct test id survives |
| Measurements.DropDuplicatesOfUnique | breitbandmessung/src/breitbandmessung.py:123 | A table without repeated ids is left unchanged |
| Measurements.DropDuplicatesIdempotent | breitbandmessung/src/breitbandmessung.py:123 | Dropping duplicates twice equals dropping them once |
| Measurements.DropDuplicatesPrefix | breitbandmessung/src/breitbandmessung.py:122-123 | Deduplicating `a + b` starts with the deduplicated `a`: earlier rows always win |
| Measurements.FirstWithIdAppend | breitbandmessung/src/breitbandmessung.py:122-123 | Rows concatenated after a table do not change which row is first for an id the table has |
| Measurements.MasterRowsWin | breitbandmessung/src/breitbandmessung.py:122-123 | Under a unique master the merge keeps every master row unchanged and in place, adds only rows with new ids, and holds the ids of both |
| Measurements.KnownRowsAbsorbed | breitbandmessung/src/breitbandmessung.py:122-123 | New rows whose ids the unique master already has leave the master exactly as it was |
| Measurements.DropDuplicatesScan | breitbandmessung/src/breitbandmessung.py:123 | A one-pass scan with a set of seen ids computes the same table as the keep-first definition |
| Broadband.Pending | breitbandmessung/src/breitbandmessung.py:103 | The consumed files are exactly the directory's files whose names match `Breitbandmessung_*.csv`, and none if none match |
| Broadband.CombinedTimestampSplits | breitbandmessung/src/breitbandmessung.py:110-111 | The helper column splits at its space back into exactly the date cell and the time cell when neither holds a space, so the date-and-time parse sees both cells unchanged |
| Broadband.DecimalPoint | breitbandmessung/src/breitbandmessung.py:112-113 | Replacing commas keeps the length, leaves no comma, turns each comma into a point and keeps every other character |
| Broadband.NormaliseRow | breitbandmessung/src/breitbandmessung.py:110-114 | A row normalises iff its combined timestamp and both comma-fixed rates parse; the time column is gone and the other cells are kept |
| Broadband.NormaliseFileRowwise | breitbandmessung/src/breitbandmessung.py:109-114 | Normalising a file column by column (all times, then downloads, then uploads) equals normalising it row by row, failing exactly when a row fails |
| Broadband.FlattenAround | breitbandmessung/src/breitbandmessung.py:122 | In the concatenation each file's rows sit unchanged after all earlier files' rows and before all later ones |
| Broadband.NoExportsOnlyCreatesMaster | breitbandmessung/src/breitbandmessung.py:93-105 | With no export present the only step is creating a missing master; an existing master and every file stay as they were |
| Broadband.MissingMasterCreatedFirst | breitbandmessung/src/breitbandmessung.py:96-101 | A missing master is created first, with the fixed eight-column header and no rows |
| Broadband.ParseFailureKeepsExports | breitbandmessung/src/breitbandmessung.py:107-114 | A cell that does not parse raises after at most creating the master: nothing is written and no export is deleted |
| Broadband.WriteBeforeRemovals | breitbandmessung/src/breitbandmessung.py:124-128 | A successful merge writes the master once, before any removal, then removes each consumed export once in glob order |
| Broadband.MergeResult | breitbandmessung/src/breitbandmessung.py:116-128 | After a successful merge the master is the old rows followed by the exports' rows in file order, first row per id kept; every export is gone and every other file stays |
| Broadband.MergedMasterUnique | breitbandmessung/src/breitbandmessung.py:122-123 | The written master has no repeated test id and holds every id of the old master and of the exports |
| Broadband.MasterRowsKept | breitbandmessung/src/breitbandmessung.py:122-123 | Against a master without repeated ids, the old rows survive as a prefix and every added row carries a new id |
| Broadband.ReplayAbsorbed | breitbandmessung/src/breitbandmessung.py:122-124 | Exports that only repeat tests already in the master leave the master unchanged |
| Broadband.SecondRunIsNoOp | breitbandmessung/src/breitbandmessung.py:103-105 | Right after a successful run another run takes no step at all |
| Json.Truncate | openweather/openweather.py:116-119 | `int()` of a float is the integer part toward zero: within one of the value on the side of zero |
| Json.ToInt | openweather/openweather.py:116 | `int()` keeps integers, truncates floats, maps booleans to 0 and 1, and raises on null, lists and objects |
| Json.AddSecondsWhole | openweather/openweather.py:118-119 | For a whole-valued float event time, taken as an exact real, `int(x + shift)` is exactly the integer sum |
| Json.AddSeconds | openweather/openweather.py:118-119 | `int(x + shift)` succeeds exactly for numbers and booleans; it is the sum for integers and the truncated exact sum for floats |
| Clock.TimeOfDay | openweather/openweather.py:118-119 | The rendering is a well-formed zero-padded `HH:MM:SS` whose H*3600+M*60+S is the second modulo 86400 |
| Clock.TimeOfDaySameIffWholeDays | openweather/openweather.py:118-119 | Two seconds render the same time of day iff they differ by whole days |
| Weather.KeyInjective | openweather/openweather.py:95-126 | Distinct report fields are stored under distinct dict keys, so the field-keyed data map holds what the source's `data` dict holds |
| Weather.KeyRoundTrip | openweather/openweather.py:95-126 | Every field's dict key names that field back |
| Weather.DataDict | openweather/openweather.py:95-126 | The data as the source's dict: every field's value sits under its key, and every key names a field of the data |
| Weather.MeasurementNameRoundTrip | openweather/openweather.py:61-64 | `CURRENT` is written as `current_weather` and `FORECAST` as `forecast_weather`; the name gives the kind back and the two names differ |
| Weather.PointDeterminesReport | openweather/openweather.py:65-71 | The point has the measurement of the report's kind, the single tag `location`, the report's time and its data as fields; two reports give the same point iff they differ at most in coordinates |
| Weather.WriteToInflux | openweather/openweather.py:60-72 | Writing appends exactly one point, whose measurement gives back the kind and whose fields and tag are the report's |
| Weather.IsValid | openweather/openweather.py:74-78 | Validity is false iff the temperature is `None`, and a missing temperature key raises instead of answering |
| Weather.UtcTimeOfDay | openweather/openweather.py:118-119 | `utcfromtimestamp` succeeds iff the second lies in years 1 to 9999, and then the text is that second's time of day |
| Weather.NonOkGivesEmptyReport | openweather/openweather.py:84-86 | A status other than 200 gives a current report stamped now with no location and an empty data map |
| Weather.ExceptionGivesNone | openweather/openweather.py:130-132 | A failing request or an undecodable body gives no report |
| Weather.ReportKeys | openweather/openweather.py:94-126 | A built report holds the fourteen fixed keys, the rain keys iff the response has `rain`, the snow keys iff it has `snow`, and nothing else |
| Weather.SunTimesAreShiftedTimeOfDay | openweather/openweather.py:115-119 | Sunrise and sunset are the `HH:MM:SS` of the event second plus the time-zone shift, with H*3600+M*60+S equal to that sum modulo 86400 |
| Weather.ConditionsFromFirstEntry | openweather/openweather.py:94-97 | `weather` and `weather description` are `main` and `description` of the first element of the response's `weather` list |
| Weather.ReadingsCopied | openweather/openweather.py:99-113 | Each reading is the response's value from its place (`main.temp`, `main.feels_like`, `clouds.all`, `wind.deg`, ...) under its report key |
| Weather.ReportCopiesResponse | openweather/openweather.py:89-113 | The report's location is the response's `name`, it is a current report stamped now, and its data holds the descriptive fields and readings unchanged |
| Weather.PrecipitationNeedsBothHorizons | openweather/openweather.py:121-126 | A `rain` or `snow` block without a `3h` entry makes the whole report fail |
| Weather.SunOutOfRangeFails | openweather/openweather.py:118-119 | A shifted sunrise or sunset outside years 1 to 9999 makes the whole report fail |
| Weather.NonOkCrashesPoll | openweather/openweather.py:134-140 | At the script's top level a non-200 status is not absorbed: `is_valid` raises on the empty report and nothing is written |
| Weather.PollWritesOnlyValid | openweather/openweather.py:134-140 | The script writes at most one point, exactly when a report exists whose temperature is present and not `None`, and that point is the report's |

## Where the code and its description differ

The model follows the code in each of these cases.

- A malformed sensor line ends the current run; it does not move on to
  the next line of the same run (`xiaomi/read_Mi_Temp_Humid.py:34-36`).
- A successful sensor reading does not stop the current run. The run's
  remaining lines are still read and may write, retry or abort
  (`xiaomi/read_Mi_Temp_Humid.py:41-43`).
- The sensor's retry ceiling is 5.
- A weather response with a status other than 200 is not absorbed. The
  empty report has no `temperature` key, so the script's `is_valid` call
  raises `KeyError` (`openweather/openweather.py:74-78`, `:127-129`,
  `:137`).
- Weather validity looks at `data['temperature']`, not at the location.

## Left out

- Browser automation in `get_data` and `_set_viewport_size`: UI
  scripting against an external website.
- The HTTP request, `dotenv` configuration and the InfluxDB client: a
  fetch is a parameter, and written points are an appended list.
- `subprocess`, `time.sleep` and `datetime.now()`:
  - a run is a given finite list of lines, and the end of output is the
    end of that list;
  - sleeps are recorded;
  - the clock is one parameter per call, so it does not advance between
    readings of one call.
- Acquisition.GetTemperature: the source starts the helper script again
  for as long as it has not succeeded. The model reads a finite list of
  runs and ends with `Exhausted` when the list runs out.
- Decoding the helper script's output: lines are taken as text that has
  already been decoded. In the source, a line that is not valid UTF-8
  raises out of `get_temperature` (`xiaomi/read_Mi_Temp_Humid.py:15`),
  which ends the call as `Crash` does.
- Python's `float()`/`int()` on text, `str()` of numbers, pandas'
  `to_datetime` and `astype(float)`: these are partial functions passed
  in as parameters.
- Json.AddSeconds: a JSON float is an exact real here, and the sum with
  the whole-second shift is truncated exactly. Python adds a float and an
  int in IEEE double precision, which rounds. So a fractional event time
  can land one second away: `2147483000.9999998 + 3600` rounds up to
  `2147486601.0` in Python, while the model truncates the exact sum to
  2147486600. Python's `json` also accepts `NaN` and `Infinity`, on which
  `int()` raises; `Json` has no value for them.
- Json.AddSecondsWhole: the integer sum is exact for every `n` and `k`
  only because floats are exact reals here. With Python floats it holds
  while `|n + k| <= 2^53`.
- Weather.SunTimesAreShiftedTimeOfDay: the shifted event time is
  `Json.AddSeconds`'s exact sum, so the one-second rounding difference
  above carries over to the sunrise and sunset text.
- Json.ToInt: the float case truncates an exact real. Python's `int()`
  raises on NaN and infinity, which `Json` cannot hold.
- Temperature.ValidIffWithinBounds: it holds for real numbers only.
  `float('nan')` passes Python's `is_valid` because every comparison
  with NaN is false, and the model's reals have no NaN or infinity.
- pandas dtype inference is not modelled:
  - the rates are always text; a rate column that pandas reads as numbers
    (no decimal comma anywhere) would make `.str` raise;
  - test ids are compared as text, while pandas may read them back from
    the master as numbers.
- CSV reading and writing: the master and the exports are in-memory
  tables, and the master is assumed to read back as it was written.
- The order of `glob`'s result is the directory listing order, given as
  the order of the store's files.
- `WeatherReport.__str__` (JSON rendering), the `Direction` enum, which
  nothing uses, and forecast reports, which nothing builds.
- The sensor script's `__main__`, whose loop over sensors is commented
  out.
- Printed diagnostics.
