# COVID-19 data loaders: a Dafny model

This project models how the tud7/covid19 notebooks and provider classes load
COVID-19 tables. It covers where each provider reads from, how the newest
Johns Hopkins daily report is chosen, and how a table is reordered,
relabelled and filtered. It also covers what happens when a download fails.

A table is an abstract value: a sequence of rows, each row a map from column
name to cell (`Str`, `Int` or a calendar `Stamp`). `pd.read_csv` is a world
`Net` from location to outcome: a table, an HTTP error, or any other failure.
Python exceptions and unbound locals become `Err` values of a `Result`:
`HttpError`, `OtherReadError`, `IndexError`, `ValueError`, `TypeError`,
`KeyError`, `AttributeError` and `UnboundLocal`.

Where the code can change state, the model uses classes:

- `DataSources.DataSource` holds `url` and `df`. Its methods read, reformat and unify in place.
- `DraftDataSources.DraftSource` holds `url` and `df` for the draft class of src/python/DataSource.py. Its read assigns `df`.
- `WhoSandbox.FileSystem` holds the local files. The sandbox notebook's archive write updates it.

Everything else is a function. `Strptime` models Python's `_strptime` exactly
for `'%Y%m%d'` and `'%Y-%m-%d'`. It takes the first regular-expression match
in alternative order, rejects left-over text, then validates the calendar.
`MonthDayLabel` is `strftime('%b-%d')` in the C locale.

The model follows the code as written, including where it does not fail:

- After an HTTP error, `JohnHopkins` and `OurWorldInData` in DataSource.py carry on without a table. `CovidTracking` then fails with AttributeError, because its `_reformat_data` reads the missing `self.df`.
- `_unify_date` swallows every failure instead of reporting it.
- When no archive is used, the WHO notebooks' HTTP-error fallbacks end in `UnboundLocalError`. When an archive is used, the outcome of reading it propagates. The Johns Hopkins notebook has no fallback: an HTTP error leaves `df` unbound and also ends in `UnboundLocalError`.

Modules:

- `Frames` (frames.dfy): tables, errors, `read_csv` outcomes, mask selection, `unique()`, column assignment.
- `Text` (text.dfy): Python string order, greatest element, decimal digits.
- `Sorting` (sorting.dfy): `sort_values`.
- `Calendar` (calendar.dfy): `strptime`, `strftime`, `str()` of a cell.
- `Fetching` (fetching.dfy): the newest-report choice.
- `DataSources` (datasource.dfy): DataSource.py.
- `DraftDataSources` (draft_datasource.dfy): src/python/DataSource.py.
- `WhoExplore` (who_explore.dfy): explore_who_covid19_data.py.
- `WhoSandbox` (who_sandbox.dfy): sandbox/explore_who_covid19_data.py.
- `JohnsHopkinsExplore` (jh_explore.dfy): sandbox/explore_johns_hopkins_covid19_data.py.
- `CovidTrackingExplore` (covidtracking_explore.dfy): sandbox/explore_covidtracking_data.py.

## Model

| member | source | states |
|---|---|---|
| DataSources.DataSource.constructor | DataSource.py:14-16 | construction first stores the given `url`; `df` is not yet assigned |
| DataSources.Construction | DataSource.py:14-19 | construction holds a table only after a successful read; it raises only a read failure, AttributeError, KeyError or TypeError, and anything but a read failure only for CovidTracking |
| DataSources.Build | DataSource.py:14-19 | construction stores `url`, then runs read, reformat and unify in that order; the first exception ends it; otherwise the object's `url` is the argument and its `df` is the composed outcome `Construction` |
| DataSources.ReadStep | DataSource.py:25-30 | a read table becomes `df`; an HTTP error is swallowed and leaves `df` as it was; any other read failure propagates |
| DataSources.DataSource.ReadData | DataSource.py:22-30 | the method reads `url`, updates only `df`, and reports an escaping exception exactly when `ReadStep` fails |
| DataSources.ConstructionAfterHttpError | DataSource.py:25-30 | after an HTTP error, JohnHopkins and OurWorldInData are built with no table, while CovidTracking's reformat raises AttributeError |
| DataSources.ConstructionAfterReadFailure | DataSource.py:25-30 | a read failure other than HTTP propagates out of construction |
| DataSources.UnifyStep | DataSource.py:36-39 | unification never raises and never unassigns `df`, and keeps the row count |
| DataSources.UnifyAllOrNothing | DataSource.py:36-39 | unification never raises; either every date cell becomes its converted stamp with all other cells kept, or, when `df`, the column or the conversion is missing, the table is exactly as before |
| DataSources.DataSource.UnifyDate | DataSource.py:33-39 | the method leaves `df` as `UnifyStep` of its old value and changes nothing else |
| DataSources.DataSource.GetFullData | DataSource.py:42-45 | returns `df` unchanged; an unassigned `df` raises AttributeError |
| DataSources.ReformatStep | DataSource.py:48-49 | the base reformat (inherited by JohnHopkins and OurWorldInData) returns `df` untouched |
| DataSources.ConstructionKeepsRows | DataSource.py:48-49 | a table read by JohnHopkins or OurWorldInData keeps its row count and every non-date cell |
| DataSources.NewJohnHopkins | DataSource.py:60-61 | the `url` argument is ignored; the object reads the newest report of the listing; an empty listing raises IndexError before anything is read; otherwise construction fails exactly when `Construction` of the newest report does, with the same exception |
| DataSources.USRows | DataSource.py:64-113 | a provider's US rows are exactly those whose region column holds its value (`Country_Region == "US"` for JohnHopkins, `location == "United States"` for OurWorldInData), in their original order, each as often as in the table, possibly none; a missing column raises KeyError; CovidTracking returns its whole table |
| DataSources.DataSource.GetUSData | DataSource.py:64-113 | an unassigned `df` raises AttributeError; otherwise the result is the object's provider's `USRows` of `df` |
| Fetching.LatestReport | DataSource.py:76-80 | `"file://"` followed by a listed path that no listed path exceeds in string order; IndexError exactly when the listing is empty |
| Fetching.LatestReportOrderFree | DataSource.py:77-78 | the choice depends only on which paths are listed, not on the order `glob` returns them in |
| Fetching.LatestReportOfTwo | DataSource.py:78 | of two paths, the one later in string order is chosen, whichever order they are listed in |
| Fetching.LatestReportAcrossNewYear | DataSource.py:78 | with reports `12-31-2020.csv` and `01-01-2021.csv`, the 2020 report is chosen: for MM-DD-YYYY names, string order is not date order |
| DataSources.NewCovidTracking | DataSource.py:89-90 | CovidTracking reads the fixed covidtracking.com URL; it fails exactly when `Construction` does, with the same exception (AttributeError after an HTTP error), and otherwise its state is the `Construction` outcome |
| DataSources.CovidTrackingConstruction | DataSource.py:95-99 | a read CovidTracking table yields an object exactly when its `date` column exists with cells of one kind, and then it keeps its row count |
| DataSources.CovidTrackingTextOrder | DataSource.py:95-99 | once every date is an eight-digit integer, the date strings after the reformat are in string order too: sorting happens before the conversion to text |
| DataSources.DateAsText | DataSource.py:99 | each date cell becomes the `str()` text of that cell, every other cell and the row count are kept |
| DataSources.DataSource.ReformatData | DataSource.py:93-99 | CovidTracking sorts by `date` and then turns each date into its `str()` text; the new `df` is `ReformatStep` of the old one; a missing `df`, a missing column or mixed cells raise |
| DataSources.NewOurWorldInData | DataSource.py:108-109 | OurWorldInData reads the fixed ourworldindata.org URL; it fails exactly when `Construction` does, with the same exception, and otherwise its state is the `Construction` outcome |
| Sorting.SortValues | DataSource.py:95 | `sort_values(by=col)` gives a permutation of the rows, non-decreasing in `col`, of the same length; a missing column raises KeyError, cells of different kinds raise TypeError |
| Sorting.SortRows | DataSource.py:95 | insertion sort by a column: sorted, and a permutation of the input |
| Sorting.InsertSorted | DataSource.py:95 | inserting a row into a sorted table keeps it sorted |
| Sorting.InsertCounts | DataSource.py:95 | inserting a row adds exactly that row |
| Sorting.ValueLeTotal | DataSource.py:95 | any two cells are ordered one way or the other |
| Sorting.ValueLeTransitive | DataSource.py:95 | the cell order is transitive |
| Calendar.CellText | DataSource.py:99 | `str()` of a string cell is the string itself; an integer prints as non-empty text |
| Calendar.CellTextOfDateNumber | DataSource.py:97-99 | from year 1000 on, `str()` of a date's YYYYMMDD integer is its eight-digit YYYYMMDD text |
| DraftDataSources.DraftSource.constructor | src/python/DataSource.py:13-15 | construction records the class and `url`; `df` is not yet assigned |
| DraftDataSources.NewDraft | src/python/DataSource.py:13-16 | construction sets `url`, then assigns `df` the result of `read_data`; an exception there ends construction |
| DraftDataSources.DraftConstruction | src/python/DataSource.py:13-16 | the abstract base cannot be instantiated (TypeError); a JohnHopkins object exists exactly when the read succeeds, and its `df` is always None |
| DraftDataSources.DraftRead | src/python/DataSource.py:19-30 | a read table is passed through the reformat; an HTTP error reaches `return df` unbound (UnboundLocal); other failures propagate |
| DraftDataSources.DraftSource.ReadData | src/python/DataSource.py:19-30 | the object's read never yields a table, and an HTTP error gives UnboundLocal |
| DraftDataSources.DraftReformat | src/python/DataSource.py:39-40 | JohnHopkins' `_reformat_data` returns None |
| DraftDataSources.DraftVersusFinal | src/python/DataSource.py:22-30 | on the same location, the final JohnHopkins keeps a read table while the draft keeps None; the final one survives an HTTP error without a table while the draft raises; both propagate other failures |
| DraftDataSources.DraftScript | src/python/DataSource.py:43-45 | `JohnHopkins('file://05-15-2020.csv')` gives an object exactly when that file is read, and the object then holds no table |
| WhoSandbox.FileSystem.constructor | sandbox/explore_who_covid19_data.py:43-57 | the disk starts with the given files |
| WhoSandbox.SandboxLoad | sandbox/explore_who_covid19_data.py:34-57 | a download is returned and written to the archive (default `latest_fulldata_archived.csv`); an HTTP error returns an existing archive without writing, or else raises UnboundLocal; other read failures propagate without a write |
| WhoSandbox.LoadData | sandbox/explore_who_covid19_data.py:43-57 | the method's result and the files after it are `SandboxLoad` of the files before it |
| WhoSandbox.WithIndexColumn | sandbox/explore_who_covid19_data.py:47 | the archive read back has the same rows, each with its position in the extra index column and every other cell kept |
| WhoSandbox.OutageAfterDownload | sandbox/explore_who_covid19_data.py:43-55 | a download followed by an HTTP error returns the first download's archive, with the index column, and writes nothing more |
| WhoSandbox.SandboxAgreesWithExplore | sandbox/explore_who_covid19_data.py:49-57 | when the archive exists and reads as stored, the sandbox returns what the other notebook returns given that archive |
| WhoSandbox.SandboxWithoutArchive | sandbox/explore_who_covid19_data.py:53-57 | without the archive file, the sandbox returns what the other notebook returns given no archive |
| WhoSandbox.Notebook | sandbox/explore_who_covid19_data.py:117-142 | the opening cells update the files as `load_data` does, offer `LocationOptions` and select the rows of `"United States"` of the loaded table; they succeed exactly when the load succeeds and its table has a location column, and otherwise raise the load's exception or AttributeError; that location is offered exactly when it has rows |
| WhoExplore.LoadData | explore_who_covid19_data.py:40-58 | a download is returned and nothing is written; an HTTP error reads the named archive, and a failure there propagates; with no archive named, it raises UnboundLocal; other read failures propagate |
| WhoExplore.LocationRows | explore_who_covid19_data.py:72-73 | exactly the rows of the selected location, in their original order, each as often as in the table; empty exactly when no row has it; a missing column raises KeyError |
| WhoExplore.LocationOptions | explore_who_covid19_data.py:123 | the distinct locations, each once, exactly those present, in order of first appearance; a table without the column raises AttributeError |
| WhoExplore.OfferedIffSelectable | explore_who_covid19_data.py:72-73 | a location is among the options exactly when selecting it finds rows |
| WhoExplore.Notebook | explore_who_covid19_data.py:112-130 | the opening cells load with archive `who_covid19_data_20200317.csv`, offer `LocationOptions` and select the rows of `"World"` of the loaded table; they succeed exactly when the load succeeds and its table has a location column, and otherwise raise the load's exception or AttributeError; `"World"` is offered exactly when it has rows |
| Frames.MaskExact | sandbox/explore_who_covid19_data.py:77-78 | boolean-mask selection returns exactly the matching rows, in order, with their multiplicities |
| Frames.WhereOrdered | sandbox/explore_who_covid19_data.py:77-78 | the selection is a subsequence of the table |
| Frames.WhereOnlyMatches | sandbox/explore_who_covid19_data.py:77-78 | every selected row matches |
| Frames.WhereCounts | sandbox/explore_who_covid19_data.py:77-78 | each matching row is selected as often as it occurs, and no other row |
| Frames.WhereEmptyIff | sandbox/explore_who_covid19_data.py:77-78 | the selection is empty exactly when no row matches |
| Frames.WhereIdempotent | sandbox/explore_who_covid19_data.py:77-78 | selecting again with the same key changes nothing |
| Frames.WhereAppend | sandbox/explore_who_covid19_data.py:77-78 | selection distributes over putting two tables together |
| Frames.Mask | sandbox/explore_who_covid19_data.py:77-78 | a missing column raises KeyError; otherwise the matching rows, possibly none |
| Frames.Unique | sandbox/explore_who_covid19_data.py:134 | `unique()` has no duplicates, the same members as its input, in order of first appearance |
| Frames.ReadCsv | sandbox/explore_covidtracking_data.py:42 | `read_csv` outside a `try`: a table, or its failure propagated (HTTP or other) |
| JohnsHopkinsExplore.LoadData | sandbox/explore_johns_hopkins_covid19_data.py:50-66 | a given `url` is used; without one, the newest report of the listing is used (an empty listing raises IndexError); an HTTP error leaves `df` unbound (UnboundLocal); other failures propagate |
| Text.Greatest | sandbox/explore_johns_hopkins_covid19_data.py:42 | `sorted(xs, reverse=True)[0]` is a member of the list that every member is at most |
| Text.GreatestUnique | sandbox/explore_johns_hopkins_covid19_data.py:42 | any greatest member is that one: ties do not matter |
| Text.LexLeTotal | sandbox/explore_johns_hopkins_covid19_data.py:42 | Python string order is total |
| Text.LexLeTransitive | sandbox/explore_johns_hopkins_covid19_data.py:42 | Python string order is transitive |
| Text.LexLeAntisymmetric | sandbox/explore_johns_hopkins_covid19_data.py:42 | two strings each at most the other are equal |
| Text.LexLePrefix | sandbox/explore_johns_hopkins_covid19_data.py:44 | putting the same `"file://"` in front keeps the order of paths |
| JohnsHopkinsExplore.ColumnTotal | sandbox/explore_johns_hopkins_covid19_data.py:77-79 | `sum()` of an integer column is the sum of its cells; a missing column raises KeyError, a non-integer cell TypeError |
| JohnsHopkinsExplore.ColumnTotalAppend | sandbox/explore_johns_hopkins_covid19_data.py:77-79 | totals add up over a table split in two |
| JohnsHopkinsExplore.SumAppend | sandbox/explore_johns_hopkins_covid19_data.py:77-79 | the sum of two lists put together is the sum of their sums |
| JohnsHopkinsExplore.USPie | sandbox/explore_johns_hopkins_covid19_data.py:74-87 | the pie is drawn exactly when the US rows exist and the Confirmed, Deaths and Recovered columns hold integers; otherwise the first of these steps to fail gives the exception (KeyError or TypeError); the labels are the dict keys Unknown, Recovered, Deaths in insertion order; each labelled value is that column's total over the US rows, and the three values add up to the confirmed total |
| JohnsHopkinsExplore.Keys | sandbox/explore_johns_hopkins_covid19_data.py:86 | `list(d.keys())` lists the keys in insertion order |
| JohnsHopkinsExplore.Notebook | sandbox/explore_johns_hopkins_covid19_data.py:72-87 | the notebook loads the newest report: an empty listing raises IndexError and an HTTP error UnboundLocal; any failed load raises its exception; a successful load gives exactly the pie of what was loaded |
| CovidTrackingExplore.LoadTestsData | sandbox/explore_covidtracking_data.py:38-47 | the method reads the covidtracking.com URL, sorts by `date`, assigns the labels over the column, and returns `TestsData`, with the row count kept |
| CovidTrackingExplore.TestsData | sandbox/explore_covidtracking_data.py:42-45 | read failures propagate; a read table goes through `SortAndRelabel` on `date` |
| CovidTrackingExplore.SortAndRelabel | sandbox/explore_covidtracking_data.py:43-45 | the result exists exactly when the column exists, its cells are of one kind and every cell has a label; it is a sorted permutation of the rows, with only that column replaced by labels, and the same row count |
| CovidTrackingExplore.Labels | sandbox/explore_covidtracking_data.py:45 | the comprehension labels every cell in order, or raises the exception of the first cell that fails |
| CovidTrackingExplore.PermutedCells | sandbox/explore_covidtracking_data.py:43-45 | sorting first does not change whether every date can be labelled |
| CovidTrackingExplore.Relabel | sandbox/explore_covidtracking_data.py:45 | parse and reformat succeed exactly when `strptime` does; the label is six characters with a hyphen at position 3; any failure is ValueError |
| CovidTrackingExplore.TestsLabel | sandbox/explore_covidtracking_data.py:45 | a test-data cell is labelled exactly when its `str()` text parses under `'%Y%m%d'`, with the `%b-%d` label of that date; otherwise ValueError |
| CovidTrackingExplore.TestsLabelOfInt | sandbox/explore_covidtracking_data.py:45 | an eight-digit integer gets the label of the date its digit groups spell, or ValueError when they spell no real date |
| CovidTrackingExplore.TestsLabelMarch15 | sandbox/explore_covidtracking_data.py:45 | 20200315 is labelled `"Mar-15"` |
| CovidTrackingExplore.TestsLabelFebruary30 | sandbox/explore_covidtracking_data.py:45 | 20200230 raises ValueError |
| CovidTrackingExplore.TestsLabelDropsYear | sandbox/explore_covidtracking_data.py:45 | a date's YYYYMMDD integer gets its `%b-%d` label; two dates share a label exactly when they share month and day |
| CovidTrackingExplore.SortedTestsChronological | sandbox/explore_covidtracking_data.py:43 | rows sorted by YYYYMMDD integers are in calendar order |
| CovidTrackingExplore.LoadSp500Data | sandbox/explore_covidtracking_data.py:53-63 | the method reads `GSPC.csv` in the notebook's directory, sorts by `Date`, assigns the labels over that column, and returns `PricesData` |
| CovidTrackingExplore.PricesData | sandbox/explore_covidtracking_data.py:58-61 | read failures propagate; a read table goes through `SortAndRelabel` on `Date`, where a non-string cell raises TypeError |
| CovidTrackingExplore.JoinPath | sandbox/explore_covidtracking_data.py:56 | `os.path.join` keeps the directory as a prefix and ends with the file name |
| CovidTrackingExplore.PricesLabel | sandbox/explore_covidtracking_data.py:61 | a price cell that is not a string raises TypeError; a string is labelled exactly when it parses under `'%Y-%m-%d'`, with the `%b-%d` label of that date; otherwise ValueError |
| CovidTrackingExplore.PricesLabelOfIso | sandbox/explore_covidtracking_data.py:61 | a `YYYY-MM-DD` string gets its date's `%b-%d` label |
| CovidTrackingExplore.SortedPricesChronological | sandbox/explore_covidtracking_data.py:59 | rows sorted by `YYYY-MM-DD` strings are in calendar order |
| Calendar.Strptime | sandbox/explore_covidtracking_data.py:45 | every failure is ValueError; every result is a real calendar date |
| Calendar.StrptimeOfEightDigitInt | sandbox/explore_covidtracking_data.py:45 | `strptime(str(n), '%Y%m%d')` on an eight-digit integer gives the date its digit groups spell if it is valid, else ValueError |
| Calendar.StrptimeEightDigits | sandbox/explore_covidtracking_data.py:45 | on eight digits, `'%Y%m%d'` gives the date the digits spell if it is valid, else ValueError |
| Calendar.StrptimeIsoShape | sandbox/explore_covidtracking_data.py:61 | on `YYYY-MM-DD` digits, `'%Y-%m-%d'` gives the date the fields spell if it is valid, else ValueError |
| Calendar.StrptimeFixedWidth | sandbox/explore_covidtracking_data.py:45 | on four year digits, two month digits and two day digits around the separators, the format gives the date those fields spell if it is valid, else ValueError |
| Calendar.StrptimeOfPadded | sandbox/explore_covidtracking_data.py:45 | zero-padded year, month and day fields parse to that date if it is valid, else ValueError |
| Calendar.FieldsRoundTrip | sandbox/explore_covidtracking_data.py:45 | every valid date written in zero-padded fields parses back to itself, for either separator (`""` or `"-"`) |
| Calendar.CompactRoundTrip | sandbox/explore_covidtracking_data.py:45 | every valid date written as YYYYMMDD parses back to itself |
| Calendar.IsoRoundTrip | sandbox/explore_covidtracking_data.py:61 | every valid date written as YYYY-MM-DD parses back to itself |
| Calendar.MonthDayLabel | sandbox/explore_covidtracking_data.py:45 | `%b-%d` is the month's three-letter English abbreviation, a hyphen and the two-digit day |
| Calendar.MonthDayLabelInjective | sandbox/explore_covidtracking_data.py:45 | two valid dates get the same label exactly when their month and day agree |
| Calendar.IsoTextChronological | sandbox/explore_covidtracking_data.py:59 | ISO date strings compare as strings the way their dates compare in time |
| Calendar.DateNumberChronological | sandbox/explore_covidtracking_data.py:43 | YYYYMMDD integers compare as numbers the way their dates compare in time |
| Text.NatTextValue | sandbox/explore_covidtracking_data.py:45 | reading back `str(n)` gives `n` |
| Text.NatTextIsPadded | sandbox/explore_covidtracking_data.py:45 | a `w`-digit number prints as its `w`-digit zero-padded text |
| Text.PadDigitsValue | sandbox/explore_covidtracking_data.py:45 | zero-padded text reads back as its number |
| Text.PadDigitsOfValue | sandbox/explore_covidtracking_data.py:45 | a digit string is the zero-padding of its own value to its own width |
| Text.PadDigitsOrder | sandbox/explore_covidtracking_data.py:59 | zero-padded numbers of one width compare as strings the way they compare as numbers |

## Left out

- Plotting, widgets and display (`matplotlib`, `plotly`, `ipywidgets`, `print`) are output only, so they are not modelled. So are the dropdown callbacks and the dropdown's check that its default value is among the options.
- The `git submodule update` subprocess, `os.path.realpath` and `glob.glob` are not modelled: the directory listing and the notebook's directory are inputs.
- `pd.read_csv` is the abstract `Net` outcome: neither the network nor CSV parsing nor column type inference is modelled.
- A column exists when every row has it; the header of an empty table is not modelled, so an empty table has every column.
- `pd.to_datetime` is an abstract column conversion (`ToDatetime`); only its all-or-nothing effect on the table is modelled. A result of the wrong length counts as a failure.
- Floating-point columns, NaN handling in `sum()` and int64 overflow are out of scope: totals are unbounded integers, and `sum()` over text cells raises TypeError in the model.
- Sort stability is not promised by `sort_values`, so only "sorted and a permutation" is stated; `Sorting.SortRows` fixes one order.
- Cells of different kinds raise TypeError in `SortValues`; pandas' finer rules for mixed columns are not modelled.
- `Calendar.CellText`: a time stamp prints at day resolution; one outside the calendar prints as `NaT`. CSV reads never produce stamps.
- Non-ASCII digits, which Python's `\d` also accepts, are not modelled in `Calendar.Strptime`.
- The sandbox archive: what `to_csv` writes and `read_csv` reads back is modelled as `WhoSandbox.WithIndexColumn`, without CSV type coercion. A failing `to_csv`, a failing read of an existing archive, and a table that already has an `Unnamed: 0` column are not modelled.
- The base `DataSource` of DataSource.py has no instances: `get_US_data` is abstract, so only the three providers are modelled.
