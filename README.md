# PM2.5 dashboard: a verified model of its data rules

The dashboard (`app.py`) is a Streamlit page. It takes an uploaded CSV of
fine-particulate (PM2.5) readings, normalises it, and draws four views: a
time series, a year × day-of-year "stripes" grid, a comparison of cities,
and a map of monitors coloured by US EPA severity band. This project models
the logic behind those views. Widgets, plotting and file handling are left
out.

- **Severity** (`severity.dfy`) models `get_pm25_color`. It is a first-match
  scan over the breakpoints `[0, 12, 35.4, 55.4, 150.4, 250.4, 500.4]`, with
  both ends of each band inclusive. `GetPm25Color` is the loop itself, proved
  equal to the recursive scan `Pm25Color`. That scan is proved equal to an
  independent table of intervals (`ByRange`). `MarkerColor` adds the
  missing-value guard used when the markers are drawn.
- **Ingest** (`ingest.dfy`) models an uploaded table as column names plus
  rows of cells (number, text or empty). The ingestion step does the
  following, in order:
  - finds the first column whose name contains `PM2.5` and renames it;
  - keeps the rows whose value is above 5;
  - rounds that column;
  - finds the first column whose name contains `Datetime` and renames it;
  - projects one of two column layouts.

  Every way steps app.py:24-35 can raise (duplicate names aside) is an error value: no such column, text
  in the concentration column, or a projected column that is missing.
- **Selection** (`selection.dfy`) works on parsed readings. It models the
  city and monitor selectors with their "All" entry, the inclusive date
  range followed by the sort, and the "more than one city" gate.
- **Aggregate** (`aggregate.dfy`) models three group-by-means and returns
  each as a map from key to mean:
  - the stripes grid, keyed on (year, day of year) and pivoted;
  - the comparison table, keyed on (instant, city);
  - the map points, keyed on (Name, longitude, latitude).

  A key that no reading has is absent from the map. It is never a zero.
- **Sequences** and **Wrappers** hold generic helpers: filter, first index,
  sum, min, max, mean, `Option` and `Result`.

Assumptions, and behaviour kept exactly as the script has it:

- **Rounding.** `round(series, 0)` uses numpy's rounding, so the model rounds
  halves to the even neighbour (`RoundHalfEven`). The properties proved about
  ingestion only use the fact that the result is a whole number within 0.5
  of the input, so they hold for any nearest-integer rule.
- **Not open-ended.** The top band is closed at 500.4, as the script's table
  has it. A value above 500.4 is gray.
- **Pivot columns.** The pivot has one column per day of the year that occurs
  in the data. It has one row per year that occurs. It does not reserve 366
  columns.
- **City gate.** The test `('Name' and 'City') in df.columns` evaluates the
  `and` first, so it only checks `'City'`. An upload with `City` but no
  `Name` therefore picks the City/Name layout and fails at the projection.
  The model does exactly that (`IngestCityWithoutName`). The map's test
  `('latitude' and 'longitude')` likewise only checks `longitude`.

## Model

| member | source | states |
|---|---|---|
| Severity.GetPm25Color | app.py:152-159 | the loop over the breakpoint pairs returns exactly the colour of the first band whose closed interval holds the value, and gray when none does |
| Severity.MarkerColor | app.py:175 | a missing (NaN) mean is gray without consulting the breakpoints; any other value gets `get_pm25_color`'s colour |
| Severity.BandIsByRange | app.py:152-158 | the first-match scan agrees everywhere with an independent interval table: `[0,12]`, `(12,35.4]`, `(35.4,55.4]`, `(55.4,150.4]`, `(150.4,250.4]`, `(250.4,500.4]`, and no band outside `[0,500.4]` |
| Severity.BandCharacterised | app.py:156-158 | a value gets band `b` if and only if it lies in band `b`'s closed interval and in no earlier band's |
| Severity.ColorInRange | app.py:152-159 | every value in `[0, 500.4]` gets one of the six colours, and the result is gray exactly when the value is negative or above 500.4 |
| Severity.BoundaryTakesLowerBand | app.py:156-158 | a value exactly on an inner breakpoint (12, 35.4, 55.4, 150.4, 250.4) gets the band and colour below it |
| Severity.EdgeExamples | app.py:152-159 | 12 is green and 12.01 yellow; 250.4 is purple and 250.41 maroon; -0.1 and 500.5 are gray |
| Severity.BandMonotone | app.py:152-157 | on `[0, 500.4]` a larger concentration never gets a lower band |
| Sequences.FirstIndex | app.py:24 | the index returned satisfies the test and no earlier index does; none is returned exactly when no element satisfies it |
| Ingest.ContainsIff | app.py:24 | the substring scan used by `filter(like=...)` succeeds exactly when the pattern occurs at some position of the name |
| Ingest.RenameKeeps | app.py:25 | a rename leaves the presence of every other column name as it was |
| Ingest.DropLow | app.py:26 | a row survives the filter exactly when it was in the table and its concentration is a number strictly above 5 (an empty cell is not); a surviving row keeps its full multiplicity |
| Ingest.DropLowOrder | app.py:26 | the filter distributes over concatenation, so the surviving rows keep their relative order |
| Ingest.RoundHalfEven | app.py:27 | the rounded value is within 0.5 of the input, and a tie goes to the even neighbour |
| Ingest.RoundingExamples | app.py:27 | 2.5 rounds to 2, 3.5 to 4, -0.5 to 0, 10.2 to 10 and 20.6 to 21 |
| Ingest.RoundColumn | app.py:27 | only the concentration column changes; each number in it becomes a whole number within 0.5 of the original; empty and text cells stay as they are |
| Ingest.CleanValues | app.py:26-27 | after filter and round, the k-th row is the k-th kept row, and its concentration is a whole number within 0.5 of the original and at least 5 |
| Ingest.Positions | app.py:33-35 | each projected name maps to the first column of that name |
| Ingest.Resolve | app.py:33-35 | the projection succeeds exactly when every name is a column; otherwise the error lists exactly the missing names |
| Ingest.Project | app.py:33-35 | the projection keeps every row, each with one cell per projected name |
| Ingest.GatesTestSecondName | app.py:32 | `('Name' and 'City') in cols` holds exactly when `'City'` is a column, and `('latitude' and 'longitude') in cols` exactly when `'longitude'` is |
| Ingest.IngestNeedsPm25Column | app.py:24 | ingestion fails for want of a concentration column exactly when no column name contains "PM2.5" |
| Ingest.IngestNeedsNumbers | app.py:26 | once the concentration column is found, ingestion fails on its contents exactly when one of its cells is text |
| Ingest.FinishErrors | app.py:29-35 | the timestamp and projection steps fail only with the missing-timestamp or missing-columns error |
| Ingest.IngestNeedsDatetimeColumn | app.py:24-30 | the timestamp search fails exactly when every column whose name contains "Datetime" bears the concentration column's name, which was renamed to "PM2.5" first |
| Ingest.IngestLayout | app.py:32-35 | a successful ingestion has the City/Name layout exactly when the upload has a "City" column, and both layouts pass the map's gate |
| Ingest.IngestCityWithoutName | app.py:32-33 | an upload with "City" but no "Name" (and usable concentration and timestamp columns) fails at the projection, and "Name" is among the missing columns |
| Ingest.IngestSucceeds | app.py:24-35 | once usable concentration and timestamp columns are found, ingestion succeeds exactly when the upload has "longitude" and "latitude" and, if it has "City", also "Name"; a failure is the projection's KeyError listing exactly the chosen layout's names the upload lacks |
| Ingest.FinishRows | app.py:29-35 | the projected table is well formed, keeps every row, and its "PM2.5" column is the first column so named before the timestamp step |
| Ingest.FinishCells | app.py:29-35 | every cell of the projected table is the input cell under the first column of that name, after the timestamp rename |
| Ingest.IngestRows | app.py:24-35 | a successful ingestion has one row per kept reading, in order; each row's concentration is the kept value rounded to a whole number within 0.5, hence at least 5 |
| Ingest.IngestCells | app.py:24-35 | every other cell of output row k is kept row k's cell, unrounded, under the first column of that name once both renames are done |
| Selection.SelectCity | app.py:50-53 | with no City column or with "All" the rows are unchanged; otherwise exactly the readings of the chosen city remain, each with its full multiplicity |
| Selection.SelectMonitor | app.py:55-58 | with no Name column or with "All" the rows are unchanged; otherwise exactly the readings of the chosen monitor remain, each with its full multiplicity |
| Selection.SelectionKeepsOrder | app.py:53-58 | both selectors distribute over concatenation, so they keep the surviving readings in order |
| Selection.Window | app.py:64 | each reading is kept with its full multiplicity when its time lies in `[start, end]`, and dropped otherwise |
| Selection.SortByTime | app.py:65 | the result is sorted by time and is a permutation of the input |
| Selection.DateRange | app.py:63-65 | filter then sort: the result is sorted, holds each in-range reading with its multiplicity, and holds nothing else |
| Selection.SeriesRows | app.py:50-65 | the time-series rows are sorted, and are exactly the in-range readings that match every selector that is set, each with its full multiplicity |
| Selection.MoreThanOneCityIff | app.py:117 | `nunique() > 1` holds exactly when two readings name different cities (empty cells are not a city) |
| Sequences.Mean | app.py:92 | the mean of a non-empty group lies between its minimum and its maximum |
| Aggregate.KeysOf | app.py:92 | a key is among the group keys exactly when some pair carries it |
| Aggregate.GroupMean | app.py:92 | one entry per distinct key present and no other, each between two values of its own group |
| Aggregate.Pairs | app.py:92 | a (key, concentration) pair occurs exactly when some reading has that key and that concentration; a reading with no key yields no pair |
| Aggregate.PairsGroup | app.py:92 | the values grouped under a key are exactly the concentrations of the readings with that key, in order and with repeats |
| Aggregate.GroupMeanIs | app.py:92 | a group's mean is the plain mean of the concentrations of all readings with that key, each reading counted once |
| Aggregate.GroupedReadings | app.py:92 | grouping readings by any key gives an entry exactly for the keys some reading has, each between the concentrations of two readings with that key |
| Aggregate.StripesCells | app.py:87-93 | a stripes cell has data exactly when the city has a reading on that day of that year (otherwise it is "no data", not zero), and its value lies between two of those readings |
| Aggregate.StripesMean | app.py:87-92 | a stripes cell with data is the mean of all the city's concentrations on that day of that year, repeats included |
| Aggregate.StripesExample | app.py:87-93 | two readings of a city on one day (10 and 21) and one of another city give that day's cell the mean of the two (15.5) |
| Aggregate.StripesAxes | app.py:93 | the grid has a row for a year, and a column for a day, exactly when the city has a reading then |
| Aggregate.PivotAxes | app.py:93 | the pivot's rows and columns are exactly the first and second components of the grouped keys |
| Aggregate.CityTableCells | app.py:118-120 | a comparison cell exists exactly for a chosen city with a reading at that instant, and lies between two of those readings |
| Aggregate.MapPointsCells | app.py:144-147 | a monitor has a map point exactly when it has a reading in the window, and the point lies between two of those readings |
| Aggregate.MapPointColor | app.py:174-175 | with ingested readings (all at least 5), a map point is gray exactly when its mean is above 500.4 |

## Left out

- Uploading, CSV reading, widgets and every `st.` call (app.py:14-21, 42-43, 51, 56, 63, 88, 119, 123, 145) are UI and I/O. The user's choices (city, monitor, date range, chosen cities) are parameters.
- The time-series, stripes, comparison and map rendering with plotly, matplotlib and folium (app.py:77-83, 95-113, 133-134, 149, 172-191) are foreign libraries.
- The JavaScript cluster-icon function (app.py:161-170) is foreign code that the model does not run.
- `pd.to_datetime` and the calendar fields (app.py:37-38, 90-91) are not modelled, nor is the error `pd.to_datetime` raises on a timestamp it cannot parse. A reading's instant, year and day of year are given fields, and instants are abstract integers.
- The `resample(...).mean()` steps (app.py:60, 125-130) depend on pandas' calendar offsets and index alignment, which are not visible here. `SeriesRows` therefore composes the selectors with the date range directly.
- The summary statistics (app.py:69) are not modelled.
- The date bounds are not modelled at date-versus-timestamp granularity. `pd.Timestamp(end_date)` is midnight, so at app.py:64 a reading later on the end day falls outside. `Window` compares abstract instants.
- The label slice `map_df.loc[start_date:end_date]` (app.py:146) runs on an index that was never sorted. pandas may raise there. `MapPoints` uses the inclusive window instead.
- The stripes selector and the comparison gate (app.py:88, 117) read `df['City']` whether or not the layout has it, so an upload without a "City" column raises there. The model has no error for this: a missing city is an absent field, and such readings match no city.
- Duplicate column names are not modelled. A rename (app.py:25, app.py:30) can produce two columns with the same name, for example `["PM2.5 raw", "PM2.5"]` after the first rename or `["Datetime", "datetime"]` after the second; `read_csv` itself renames repeated headers to `X`, `X.1`, and so on. pandas then returns a frame where the script expects a column. The model resolves each name to its first column.
- Selection.SortByTime: states only that the result is sorted and a permutation. The model's insertion sort happens to be stable, but no contract states or relies on that. pandas' default `sort_index` is not guaranteed stable, so readings at equal instants may be ordered differently by the script.
- Floating point: concentrations and breakpoints are exact reals, so 35.4 is exactly 35.4. Within one ulp of a breakpoint, IEEE results may differ.
- Aggregate.GroupMean: returns a map, so it does not state the row order of the grouped frame or the row and column order of the pivot (pandas sorts them).
- Aggregate.MapPoints: takes no "missing mean" case. The readings carry numbers after ingestion, so a group mean always exists, and the NaN guard is modelled separately by `Severity.MarkerColor`.
