# mch-extract request resolution, modelled in Dafny

This project models the core of `mch-extract`, a tool that extracts MeteoSwiss
observations. The model covers how a data request is resolved and validated against
the station/parameter metadata catalog before any download:

- which requested stations are valid;
- which provider parameter codes the requested variables and raw DWH codes stand for;
- which of those codes are kept, and which advisories (warnings) are raised per station;
- the date-range rules: start ≤ end, and no monthly data for the current month;
- the order in which the checks run, and which failures are fatal;
- how the per-station tables are combined: diagonal concatenation, sorting by
  `(datetime_temp, station_abbr)`, dropping the temporary column, and optional renaming
  of parameter columns to full names.

It also models the command line's post-parse logic: granularity flags to a time scale,
the default end date, the date-order checks, the strict station check, and the
arguments handed to the extractor.

The catalog (`MeteoData`) is an immutable input value. So is "today".
Three collaborators whose code is not part of this model are function-typed parameters:

- the variable-name converter, `(name, timescale) -> codes`;
- the data-availability checker, `(start, end, timescale) -> (ok, reason)`;
- the per-station downloader, which returns the station tables in order.

Warnings are returned as a set of `Advisory` values next to the result. They are kept on
the failure path too, since the source logs them before it raises. They form a set
because the source emits them while iterating over Python sets (the valid stations, the
available parameters), so their order is unspecified.

Modules, one per file:

- `wrappers.dfy`: `Option` and `Result`.
- `dates.dfy`: `datetime.date` as (year, month, day), years 1 to 9999, with leap years.
- `catalog.dfy`: `TimeScale`, `Parameter`, `Station`, `Catalog`, and the catalog invariant.
- `cells.dfy`: cell values, plus the ascending order the table sort uses (nulls first).
- `frames.dfy`: tables, with diagonal concatenation, sort, drop and rename.
- `resolution.dfy`: station validation and parameter resolution. It includes the station
  loop and a proof that the loop gives the same result in any station order.
- `api.dfy`: time-scale tokens, the ordered checks, combination, `GetData`, and the
  catalog queries.
- `commandline.dfy`: the command line's post-parse logic.

Choices where the source leaves room:

- The missing-codes warning looks every missing code up in the catalog
  (`mchextract/api.py:290`). A requested code that the catalog lacks raises `KeyError`
  there, before any warning is logged. The model makes this the error
  `ParameterLookupFailed`; it does not require the code to be in the catalog.
  Python's `KeyError` names only the first missing code it meets, and that depends on set
  iteration order. The error's payload, which lists every unknown requested code, is the
  model's own choice.
  Under the catalog invariant, such a code is missing at every station, so the failure
  happens at the first station visited, whatever the order.
- `ResolveParameters` and the others assume the catalog invariant `WellFormed`:
  - stations are keyed by their abbreviation;
  - parameters are keyed by their short code;
  - every code a station exposes is a catalog parameter.
  The comment at `mchextract/api.py:301` relies on this, and so does the lookup at
  `mchextract/api.py:294`.
- Stepping back one day from 0001-01-01 raises `OverflowError` in Python. The model
  turns that into a `DateOverflow` error, both for the monthly suggestion and for the
  command-line defaults.
- When `datetime_temp` is present but `station_abbr` is not, the sort would fail on the
  missing column. The model returns `ColumnNotFound`.
- The sort is not stable (polars' default), so the model says only that the output is
  some ascending permutation.
- Nulls sort first, as in polars' default.

## Model

| member | source | states |
|---|---|---|
| Dates.PrevDay | mchextract/commandline.py:128-129 | `d - 1 day` is the latest valid date strictly before `d`. It overflows exactly at 0001-01-01. |
| Dates.LastDayOfPreviousMonth | mchextract/api.py:219 | The suggested end date is the last day of the month before the end date's month, crossing into December of the previous year for January. It is strictly earlier than the end date, and no valid date of an earlier month is later. |
| Catalog.AbbreviationsAreKeys | mchextract/commandline.py:143 | In a well-formed catalog, the set of station abbreviations the command line checks against equals the catalog's station keys. |
| Catalog.ParamDict | mchextract/api.py:282-286 | The per-station dictionary's keys are exactly the station's parameter short codes. |
| Catalog.ParamDictKeepsLast | mchextract/api.py:282-285 | For a repeated short code, the dictionary keeps the last entry with that code. |
| Frames.DiagonalConcat | mchextract/api.py:247-248 | The combined columns are the union of the station tables' columns, with unique names. Row `j` of table `k`, widened to the union with nulls, sits at position `j` after all rows of the earlier tables. There are exactly as many output rows as input rows, so the output is the tables' rows in order, each exactly once. |
| Frames.RealignCells | mchextract/api.py:248 | In a widened row, a column that the row's own table lacks is null. Every other cell is the table's own cell for that column. |
| Frames.SortRows | mchextract/api.py:251-252 | Sorting yields a permutation of the rows that ascends by (first key, second key). |
| Frames.DropColumn | mchextract/api.py:254 | After the drop, the column is gone. Every other column keeps its relative order and, in every row, its cells. |
| Frames.RenameColumns | mchextract/api.py:257-263 | A column is renamed iff its name is a key of the renaming. Every other column keeps its name, and no cell changes. |
| Resolution.ValidateStations | mchextract/api.py:172-189 | The valid stations are requested ∩ catalog. One advisory is raised iff some requested station is unknown, and it lists exactly the unknown ones. No valid station is the fatal `NoValidStations`, never an empty success. |
| Resolution.ExpandAll | mchextract/api.py:276-277 | A code is in the expansion iff some requested variable expands to it at the time scale. |
| Resolution.RequestedCodes | mchextract/api.py:276-278 | The requested code set is the union of the variables' expansions and the raw DWH codes. Duplicates collapse. |
| Resolution.ResolveParameters | mchextract/api.py:279-318 | A requested code is kept iff some valid station exposes it. Each kept code maps to the catalog parameter whose short code it is. The conversion fails iff there is a valid station and some requested code is unknown to the catalog. |
| Resolution.MissingCodeAdvisories | mchextract/api.py:286-291 | Each valid station reports exactly the requested codes it lacks, iff it lacks some. Parameter resolution never reports unknown stations. |
| Resolution.StartDateAdvisories | mchextract/api.py:299-308 | A start-date advisory for (station, code) is raised iff the code is requested and exposed there, and the station's window for it starts after the requested start. |
| Resolution.EndDateAdvisories | mchextract/api.py:310-314 | An end-date advisory for (station, code) is raised iff the code is requested and exposed there, and the station's window for it ends before the requested end. |
| Resolution.StationLoopFails | mchextract/api.py:287-291 | When a requested code is unknown to the catalog, the station loop fails at its first station. No advisory of its own is raised. |
| Resolution.StationLoopSucceeds | mchextract/api.py:281-318 | When every requested code is known, the loop over any station sequence accumulates exactly the kept parameters and the advisories of the stations visited. |
| Resolution.StationLoopMatchesResolution | mchextract/api.py:281-318 | The station loop yields the set-based resolution (same parameters, advisories and failure) whatever order the valid stations are visited in. |
| Api.ParseTimeScale | mchextract/api.py:152-165 | A token is accepted iff it is one of the five time-scale tokens, and it yields the time scale that token names. Any other token is `InvalidTimeScale`. An enumeration value passes through unchanged. |
| Api.TokenRoundTrip | mchextract/api.py:154-160 | Every time scale's token parses back to that time scale. |
| Api.CheckParameters | mchextract/api.py:191-206 | Parameters are resolved only when variables or DWH codes were asked for. On success, the mapping is exactly the set-based resolution: a code is a key iff it is requested and some valid station exposes it, and it maps to its catalog parameter. The advisories are those of the resolution. A requested code unknown to the catalog is `ParameterLookupFailed`, listing exactly the unknown codes. Asking for known codes and keeping none is `NoValidParameters`. Asking for none gives an empty mapping and no advisory. |
| Api.CheckDates | mchextract/api.py:208-229 | In order: start > end is `StartAfterEnd`. Monthly data whose end date is in today's month is refused, with the last day of the previous month as the suggestion. Otherwise the availability oracle decides. |
| Api.Validate | mchextract/api.py:152-229 | The request passes iff all checks pass: time scale, stations, parameters, start ≤ end, current month, availability. Each error is raised only when its own check failed and every earlier check passed. The advisories are the station check's, plus the parameter check's once the station check passed. A successful plan carries the non-empty set of valid stations and exactly the resolved parameter mapping. |
| Api.Arrange | mchextract/api.py:241-254 | No station table is the fatal `NoDataDownloaded`. Without `datetime_temp`, the output is the diagonal concatenation itself. With it, the output rows are an ascending (`datetime_temp`, `station_abbr`) permutation of the concatenated rows with the time column removed. A missing `station_abbr` in that case is `ColumnNotFound`. The columns are the union of the tables' columns, without `datetime_temp`. |
| Api.Combine | mchextract/api.py:241-265 | Combining fails exactly when arranging fails. With short names (the default), the result is the arranged table itself. With full names, exactly the columns that are resolved codes are renamed, to the catalog full name. Every other column and every cell is unchanged. |
| Api.GetData | mchextract/api.py:112-265 | A successful request passed every check, in particular start ≤ end. All advisories come from validation. Once validation passes, the result is the combination of what the downloader returns for the validated stations, parameters, dates and time scale. A request that fails validation returns that failure without consulting the downloader. |
| Api.GetStationInfo | mchextract/api.py:95-110 | Returns `None` iff the code is not a catalog station. Otherwise it is the station's record, and its parameter list is the station's short codes in order. |
| Api.GetAvailableStations | mchextract/api.py:65-72 | Lists every catalog station code exactly once. |
| CommandLine.FlagsToTimeScale | mchextract/commandline.py:99-106 | The first set flag, in the order monthly, daily, hourly, 10 min, picks the time scale. Yearly is never produced, and no flag gives no time scale. |
| CommandLine.ExclusiveFlagDecides | mchextract/commandline.py:56-73 | With mutually exclusive flags, the time scale is the one whose flag is set. |
| CommandLine.LatestNotBefore | mchextract/commandline.py:130-134 | A computed end date is accepted iff it is not before the start date. Otherwise it is rejected as `NoValidDates`, carrying that date. A missing date (overflow) is `DateOverflow`. |
| CommandLine.DefaultEndDate | mchextract/commandline.py:119-134 | Hourly and 10 min default to today. Daily defaults to the latest date before today, and is accepted iff the start date is before today. Monthly defaults to the last day of the previous month, and is accepted iff the start date is in an earlier month. A rejection carries that default date. Only the daily and monthly defaults are checked against the start date. |
| CommandLine.ParseArgs | mchextract/commandline.py:98-163 | A command line is accepted iff a granularity flag is set, stations are given, the end date in force (given or defaulted) exists and is not before the start, and every station is in the catalog. The checks run in that order: `StartAfterEnd` carries the end date in force, and `UnknownStations` arises only after the dates passed. `NoValidDates` and `DateOverflow` come only from the default end date. On success all other fields carry over unchanged, and `use_cache = not no_cache`. |

## Left out

- Metadata loading and the caching downloader: network and cache I/O. The catalog is an input value.
- `DataDownloader.download_multiple_stations`, `DataAvailabilityChecker.check_data_availability` and `convert_common_name_to_dwh` are not part of this model. They are function-typed parameters.
- `get_available_variables`: it lists the keys of the converter table, which is not part of this model.
- The module-level `get_data` wrapper: it only constructs the extractor and delegates.
- Input normalisation of a single string into a one-element list, and of `None` into `[]`: requests take sequences directly.
- Argument declaration and parsing, and `strptime` date parsing: dates arrive already parsed. An empty `--to` string is treated like a missing end date, as Python's truthiness test does.
- Logging setup, verbosity, and the debug log line. Warnings are the returned advisory set, and their texts and order are not modelled.
- `date.today()` is read twice in the source. The model reads "today" once, as an input.
- Polars internals: column data types, mixed-type columns, and the duplicate-name error a rename can raise. Rows are sequences of optional values aligned with the column list.
- The availability window per timescale and the variable-name expansion table live in the unmodelled collaborators. Their failures are not modelled either.
- Api.Combine: its renaming step does not check for name collisions, since the source has no such check.
- Api.GetAvailableStations: the source lists station codes in the catalog's insertion order. The catalog is a map here, so the model promises each code exactly once, in no particular order.
- The default arguments of `get_data` (`timescale` daily, `short` true): a request always carries both values explicitly.
