# TaxiProject in Dafny

A model of the analysis scripts of TaxiProject. The scripts work on GPS readings from
Shenzhen taxis. Each reading has a taxi id, a time, a position and an occupancy status,
and the scripts cut each taxi's readings into passenger trips ("routes"):

- an occupied reading with no trip in progress starts a trip and takes the current trip
  number;
- further occupied readings continue the trip;
- the first unoccupied reading ends the trip and advances the number;
- any other unoccupied reading belongs to no trip (route -1).

Around this state machine the model covers:

- bounding-box tests for the airport, the bus station and the train stations;
- route selections by where a trip starts and ends;
- table filters: by box and occupancy, by column value, by number of readings, by start
  and end times, and by fraud thresholds;
- per-route durations, and copying a route's distance and duration onto its rows;
- binning points into grid cells.

## Structure

Data frames are sequences of row records, and a boolean mask is a function of a row.
pandas `unique()` lists values in order of first appearance, and `.iloc[0]` of a
selection is the first matching row. Where pandas raises, the model returns an error
value:

- `pd.concat` of an empty list gives `EmptyConcat`;
- `.iloc[0]` of an empty selection gives `MissingRow`;
- `int()` of a non-integer string gives `NotAnInteger`.

Loops over rows are Dafny methods proved equal to functions defined by recursion on a
sequence's last element, and the properties are proved about those functions.

| module | models |
|---|---|
| `Tables` | masks, `unique()`, `.iloc[0]`, concatenation, the error values |
| `Decimal` | `str` and `int` on integers |
| `Records` | the row records and their columns |
| `Zones` | `near_airport`, `near_bus_station`, `near_train_station` |
| `Trajectories` | AirToTrain/Python-Scripts/find_relevant_trajectories.py, and the labelling state machine all copies share |
| `TrajectoriesThree` | AirToTrain/Python-Scripts/find_relevant_trajectories_three.py |
| `NewData` | AirToTrain/Notebooks/new_data.py |
| `TrainRoutes` | AirToTrain/Python-Scripts/find_train_to_train_routes.py |
| `DistanceTime` | AirToTrain/Python-Scripts/distance_time.py |
| `GridCells` | Python-Scripts/map_gps_to_cells.py |
| `EndingCells` | another_one.py |

The functions that several scripts repeat are defined once:

- the `near_*` predicates, which are repeated word for word;
- `find_routes_with_ten_readings` is `TrainRoutes.FindRoutesWithReadings`, which is also
  Python-Scripts/map_gps_to_cells.py:62-75. The two copies differ only in their progress
  printing: the train-routes copy has an extra `verbose=False` parameter, prints under
  `elif verbose:` and words its summary differently, while the grid copy prints under a
  bare `else:`. `min_num_readings` defaults to 10 in both, as `minReadings` does here;
- `distance_between_gps` is `DistanceTime.DistanceBetweenGps`, which is also
  AirToTrain/Python-Scripts/find_train_to_train_routes.py:273-281. The two copies differ
  only in a comment.

find_relevant_trajectories.py defines `label_trajectories` twice. The later definition,
which labels only the first ten taxis, replaces the earlier one when the module loads.
Both are modelled: `Trajectories.LabelTrajectoriesAllTaxis` and
`Trajectories.LabelTrajectories`.

Times are integers (seconds). Coordinates are exact reals. An occupancy status counts as
"passenger on board" when it is non-zero, as Python's truthiness does. The filters test
`occupancy_status == 1` exactly. new_data.py keeps six zone-flag lists, one entry per
reading each. The model keeps them as one list of `ZoneFlags` records, one per reading,
which holds the same columns.

## Model

| member | source | states |
|---|---|---|
| `Tables.Filter` | AirToTrain/Python-Scripts/find_train_to_train_routes.py:25-28 | a mask selection is no longer than the frame, and holds exactly the rows of the frame that satisfy the mask |
| `Tables.FilterCount` | AirToTrain/Python-Scripts/find_train_to_train_routes.py:270 | a kept row occurs as often as in the frame, and a rejected row not at all |
| `Tables.Unique` | AirToTrain/Python-Scripts/find_relevant_trajectories.py:41 | `unique()` holds exactly the values of the column, each once |
| `Tables.UniqueFirstAppearance` | AirToTrain/Python-Scripts/find_relevant_trajectories_three.py:66 | `unique()` lists values in strictly increasing order of their first index in the column |
| `Tables.FirstIsEarliest` | AirToTrain/Python-Scripts/find_relevant_trajectories.py:115-125 | `.iloc[0]` of a selection is the matching row of least index, and the selection is empty iff no row matches |
| `Tables.FilterOrder` | AirToTrain/Python-Scripts/find_relevant_trajectories_three.py:70-91 | selecting from a duplicate-free list keeps the relative order of what it keeps |
| `Decimal.IntToStringRoundTrip` | another_one.py:21-22 | `int(str(i)) == i` for every integer |
| `Decimal.NatToStringInjective` | Python-Scripts/map_gps_to_cells.py:17-18 | `str` gives different non-negative integers different texts |
| `Decimal.DigitsValueConcat` | another_one.py:21-22 | the value of two digit strings written one after the other is the first shifted by the length of the second, plus the second |
| `Decimal.ParseIntRejectsInnerSign` | another_one.py:22 | `int` refuses a text with a minus sign after its first character |
| `Zones.ZonesDisjoint` | AirToTrain/Python-Scripts/find_relevant_trajectories.py:135-153 | no point is in two of the airport, bus station and train station boxes |
| `Zones.ZonesAreClosed` | AirToTrain/Python-Scripts/find_relevant_trajectories.py:135-153 | the corners of each box are inside it: the tests are closed |
| `Trajectories.LabelRows` | AirToTrain/Python-Scripts/find_relevant_trajectories.py:59-91 | one label per reading: the label list has the taxi's row count |
| `Trajectories.LabelTaxi` | AirToTrain/Python-Scripts/find_relevant_trajectories.py:54-91 | the per-taxi loop, with its flag, counter and three lists, computes the labels of the state machine and the counter after the taxi |
| `Trajectories.LabelClosedForm` | AirToTrain/Python-Scripts/find_relevant_trajectories.py:59-87 | the i-th label keeps its reading; it is a start iff the reading is occupied and the previous one is not (or it is first); it is an end iff it is unoccupied and the previous one is occupied; its route is the counter plus the number of ends before it, for occupied and end readings, and -1 otherwise |
| `Trajectories.TrackerAfterClosedForm` | AirToTrain/Python-Scripts/find_relevant_trajectories.py:63-83 | after a taxi, the on-board flag is the occupancy of its last reading, and the counter has grown by the number of trip ends |
| `Trajectories.StartEndExclusive` | AirToTrain/Python-Scripts/find_relevant_trajectories.py:78-87 | no reading is both a start and an end; a route -1 reading is neither and is unoccupied |
| `Trajectories.CounterAdvancesAtEnds` | AirToTrain/Python-Scripts/find_relevant_trajectories.py:70-76 | the counter grows by one exactly at a reading labelled as an end, and never decreases |
| `Trajectories.RouteNumberBounds` | AirToTrain/Python-Scripts/find_relevant_trajectories.py:68-82 | every route number is -1 or lies between the counter before and after the taxi, and an end's number is below the counter after |
| `Trajectories.SortByTime` | AirToTrain/Python-Scripts/find_relevant_trajectories.py:52 | the sorted readings are in time order and a permutation of the input |
| `Trajectories.TaxiRows` | AirToTrain/Python-Scripts/find_relevant_trajectories.py:50-52 | a taxi's rows, sorted or not, are a permutation of the table rows with its id |
| `Trajectories.LabelTable` | AirToTrain/Python-Scripts/find_relevant_trajectories.py:48-92 | the loop over taxis concatenates each taxi's labelled rows, carrying the counter from one taxi to the next |
| `Trajectories.LabelTrajectoriesAllTaxis` | AirToTrain/Python-Scripts/find_relevant_trajectories.py:39-98 | the first `label_trajectories`: every distinct taxi in first-appearance order, numbered from 1; an empty table fails at the concatenation |
| `Trajectories.FirstTaxis` | AirToTrain/Python-Scripts/find_relevant_trajectories.py:224 | `taxi_ids[:10]` holds at most ten distinct ids, and none exactly for an empty table |
| `Trajectories.LabelTrajectories` | AirToTrain/Python-Scripts/find_relevant_trajectories.py:214-272 | the effective `label_trajectories`: the first ten distinct taxis, each sorted by time, numbered from 1; an empty table fails at the concatenation |
| `Trajectories.LabelRowsReadings` | AirToTrain/Python-Scripts/find_relevant_trajectories.py:89-91 | labelling adds columns and leaves every reading as it was, in order |
| `Trajectories.LabelTaxisReadings` | AirToTrain/Python-Scripts/find_relevant_trajectories.py:48-92 | each reading of a listed taxi appears in the output as often as in the table, and no other reading appears |
| `Trajectories.AllTaxisLabelsEveryReading` | AirToTrain/Python-Scripts/find_relevant_trajectories.py:39-98 | labelling every taxi returns a permutation of the table's readings |
| `Trajectories.FirstTenTaxisOnly` | AirToTrain/Python-Scripts/find_relevant_trajectories.py:224-226 | the effective version returns exactly the readings of the first ten taxis |
| `Trajectories.LabelTaxisRoutes` | AirToTrain/Python-Scripts/find_relevant_trajectories.py:44-92 | over a whole table the counter never decreases, no row is both start and end, route numbers lie in the counter's range, and every finished trip's number is below the final counter |
| `Trajectories.OpenTripSharesNumber` | AirToTrain/Python-Scripts/find_relevant_trajectories.py:44-54 | the flag is reset per taxi and the counter is not: for any counter, any readings `a` whose last reading is occupied and any readings `b` whose first occupied reading is `j`, labelling `b` from the counter `a` leaves makes `j` a start with the same route number as `a`'s open trip |
| `Trajectories.ClassifyRoutesMeaning` | AirToTrain/Python-Scripts/find_relevant_trajectories.py:108-130 | the route loop fails with the `.iloc[0]` error iff a listed route other than -1 lacks a start row or an end row; otherwise it returns exactly the listed routes that qualify, in list order |
| `Trajectories.SelectRoutes` | AirToTrain/Python-Scripts/find_relevant_trajectories.py:101-132 | the loop over `unique()` route numbers, appending qualifying routes, computes the route classification |
| `Trajectories.SelectRoutesFails` | AirToTrain/Python-Scripts/find_relevant_trajectories.py:115-125 | the selection fails iff some row's route is not -1 and lacks a start row or an end row |
| `Trajectories.SelectRoutesContents` | AirToTrain/Python-Scripts/find_relevant_trajectories.py:104-130 | the selected routes are distinct, and a route is selected iff it occurs in the table and qualifies |
| `Trajectories.SelectRoutesOrder` | AirToTrain/Python-Scripts/find_relevant_trajectories_three.py:66-70 | selected routes follow the order in which route numbers first appear in the table |
| `Trajectories.FindTrajectoriesAtAirportOrTrain` | AirToTrain/Python-Scripts/find_relevant_trajectories.py:101-132 | `find_trajectories_at_airport_or_train` is the route selection with the airport-or-bus-to-train test |
| `Trajectories.AirportOrTrainSelection` | AirToTrain/Python-Scripts/find_relevant_trajectories.py:108-130 | route r is returned iff r is not -1, has a start row and an end row, its first end row is in the train box, and its first start row is in the airport box or the bus box |
| `Trajectories.FilterDataByGps` | AirToTrain/Python-Scripts/find_relevant_trajectories.py:156-179 | a row is kept iff it is in the closed airport box, and also occupied (status 1) when `with_pass` is set |
| `Trajectories.FilterDataByTrainGps` | AirToTrain/Python-Scripts/find_relevant_trajectories.py:182-203 | a row is kept iff it is in the closed train station box, and also occupied when `with_pass` is set |
| `Trajectories.FixedBoxFilters` | AirToTrain/Python-Scripts/find_relevant_trajectories.py:163-203 | both filters are the order-preserving parameterised box filter with their constants, and the train filter with a passenger is the north-station selection |
| `Trajectories.GetTaxiDataNearAirportData` | AirToTrain/Python-Scripts/find_relevant_trajectories.py:206-211 | a row of the full table is kept iff some row near the airport has its taxi id |
| `TrajectoriesThree.LabelTrajectoriesUnsorted` | AirToTrain/Python-Scripts/find_relevant_trajectories_three.py:4-60 | the first ten taxis, readings in table order, numbered from 1; an empty table fails at the concatenation |
| `TrajectoriesThree.UnsortedKeepsTableOrder` | AirToTrain/Python-Scripts/find_relevant_trajectories_three.py:13-21 | the labelled readings are the table's readings grouped by taxi, each group in input order |
| `TrajectoriesThree.FindTrajectoriesAtAirportOrBus` | AirToTrain/Python-Scripts/find_relevant_trajectories_three.py:63-93 | this script's route selection, with the airport-to-bus-or-bus-to-airport test |
| `TrajectoriesThree.AirportOrBusSelection` | AirToTrain/Python-Scripts/find_relevant_trajectories_three.py:70-91 | route r is returned iff r is not -1, has start and end rows, and one of them is in the airport box and the other in the bus box |
| `TrajectoriesThree.NoSameZoneRoute` | AirToTrain/Python-Scripts/find_relevant_trajectories_three.py:96-107 | a returned route never starts and ends in the same zone |
| `NewData.ZoneStep` | AirToTrain/Notebooks/new_data.py:64-148 | one step of the loop: the new flag and counter, the label, and the zone flags of the branch taken |
| `NewData.LabelTaxiZones` | AirToTrain/Notebooks/new_data.py:47-160 | the per-taxi loop gives the zoned labels of the taxi's readings, minus route -1 rows, and the counter after the taxi |
| `NewData.LabelZoneTable` | AirToTrain/Notebooks/new_data.py:43-165 | the loop over taxis concatenates the taxis' kept rows, carrying the counter |
| `NewData.LabelTrajectoriesWithZones` | AirToTrain/Notebooks/new_data.py:34-168 | numbering starts at the counter passed in; the rows of every taxi, sorted by time, are zoned and route -1 rows dropped; the next unused counter is returned; an empty table fails |
| `NewData.ZoneTableRows` | AirToTrain/Notebooks/new_data.py:85-160 | each returned row has route other than -1 in the counter's range, with end rows below the next counter; a start (end) flag is set only on start (end) rows and iff the point is in the airport or train box; airport and train flags exclude each other and together make the relevant flag |
| `NewData.ZoneSelectionsEmpty` | AirToTrain/Notebooks/new_data.py:173-174 | no returned row has a start-zone flag and an end-zone flag, so both row selections of `find_trajectories_at_airport_or_bus` are empty |
| `NewData.FileNumberPadded` | AirToTrain/Notebooks/new_data.py:241-246 | for 0 <= i < 100 the file number has five digits and denotes i |
| `NewData.LoadAllDataFrom` | AirToTrain/Notebooks/new_data.py:233-254 | the loop over files labels each file numbered from the counter the previous file returned, starting at 1; an empty file stops it with the concatenation error |
| `NewData.FinishedTripsNotReused` | AirToTrain/Notebooks/new_data.py:246-250 | across files the counter never decreases, every route number is at least the start, every finished trip is below the final counter, and no finished trip of one file shares its number with a row of a later file |
| `TrainRoutes.FilterByGps` | AirToTrain/Python-Scripts/find_train_to_train_routes.py:11-41 | the rows kept are the order-preserving selection of rows in the closed box, occupied when `with_pass` |
| `TrainRoutes.NearWestTrainBox` | AirToTrain/Python-Scripts/find_train_to_train_routes.py:46-55 | a row is near the west station iff it is occupied and within 0.025 of the station in each coordinate |
| `TrainRoutes.GpsRecordsWithTaxiIdIn` | AirToTrain/Python-Scripts/find_train_to_train_routes.py:69-70 | a row is kept iff its taxi id is in the list |
| `TrainRoutes.ColumnIntersection` | AirToTrain/Python-Scripts/find_train_to_train_routes.py:73-85 | the intersection lists each value present in both columns exactly once |
| `TrainRoutes.ColumnIntersectionMeaning` | AirToTrain/Python-Scripts/find_train_to_train_routes.py:81-85 | v is in the intersection iff some row of each frame has value v |
| `TrainRoutes.RowsWithKeyIn` | AirToTrain/Python-Scripts/find_train_to_train_routes.py:88-89 | a row is kept iff its column value is in the list |
| `TrainRoutes.FindRoutesWithReadings` | AirToTrain/Python-Scripts/find_train_to_train_routes.py:206-219 | the loop appends each listed route's rows when it has at least `min_num_readings`, then concatenates |
| `TrainRoutes.LongRoutesMeaning` | AirToTrain/Python-Scripts/find_train_to_train_routes.py:209-219 | nothing is appended, so the concatenation fails, iff no listed route has enough rows; a row is in the result iff its route is listed and has enough rows |
| `TrainRoutes.RemoveRoutesWithCorruptTimes` | AirToTrain/Python-Scripts/find_train_to_train_routes.py:233-266 | the loop records a duration for each route whose first start precedes its first end, and keeps that route's rows |
| `TrainRoutes.DurationsMeaning` | AirToTrain/Python-Scripts/find_train_to_train_routes.py:240-263 | one entry per route at most; a route has an entry iff it has start and end rows, with the start strictly first when that is required; the entry is first end time minus first start time, positive when required |
| `TrainRoutes.RemoveRoutesKeeps` | AirToTrain/Python-Scripts/find_train_to_train_routes.py:255-266 | a row is kept iff its route has a start row and an end row and the first start time is below the first end time |
| `TrainRoutes.FindFraudRoutes` | AirToTrain/Python-Scripts/find_train_to_train_routes.py:269-270 | a row is kept, as often as it occurs, iff its distance and duration are both at least the thresholds |
| `DistanceTime.RouteStartRow` | AirToTrain/Python-Scripts/distance_time.py:27-30 | the first start (end) row within a route's rows is the route's first start (end) row in the table |
| `DistanceTime.CalculateRouteDurations` | AirToTrain/Python-Scripts/distance_time.py:21-59 | the loop records, for each route in first-appearance order that has start and end rows, first end time minus first start time |
| `DistanceTime.RouteDurationsMeaning` | AirToTrain/Python-Scripts/distance_time.py:24-56 | at most one entry per route, and route r has one iff it has a start row and an end row |
| `DistanceTime.NegativeDurationRecorded` | AirToTrain/Python-Scripts/distance_time.py:45-56 | an end before the start yields a negative duration, which is recorded |
| `DistanceTime.DistanceBetweenGps` | AirToTrain/Python-Scripts/distance_time.py:62-69 | the distance returned is never negative, and equals the underlying distance or its negation |
| `DistanceTime.MergeDistanceTimeIntoRouteDf` | AirToTrain/Python-Scripts/distance_time.py:113-129 | the loop over routes copies each route's first `dt_df` distance and duration onto its rows; a missing route raises, and an empty table fails at the concatenation |
| `DistanceTime.MergeRoutesFails` | AirToTrain/Python-Scripts/distance_time.py:117-122 | the merge fails with the `.iloc[0]` error iff a listed route has no row in `dt_df` |
| `DistanceTime.MergeRoutesMeasures` | AirToTrain/Python-Scripts/distance_time.py:119-125 | every merged row carries the distance and duration of its route's first `dt_df` row |
| `DistanceTime.MergeRoutesRows` | AirToTrain/Python-Scripts/distance_time.py:117-127 | a row of a listed route appears as often as in the table, other columns unchanged, and no other row appears |
| `DistanceTime.MergeKeepsEveryRow` | AirToTrain/Python-Scripts/distance_time.py:113-129 | the merge fails iff some row's route is missing from `dt_df`; otherwise its rows are a permutation of the table, each with its route's measures |
| `DistanceTime.FirstWithKey` | AirToTrain/Python-Scripts/distance_time.py:137-139 | the row found is in the table and has the value |
| `DistanceTime.ReduceDataframeByCol` | AirToTrain/Python-Scripts/distance_time.py:132-141 | the loop collects, per distinct value in first-appearance order, the first row having it; an empty table fails at the concatenation |
| `DistanceTime.FirstRowsMeaning` | AirToTrain/Python-Scripts/distance_time.py:134-139 | one row per distinct value; the i-th is in the table, has the i-th distinct value, and no earlier row has that value |
| `GridCells.MapGpsToBox` | Python-Scripts/map_gps_to_cells.py:21-37 | the result is (-1, -1, -1) iff the row or column is negative, and otherwise carries the floor-divided row and column |
| `GridCells.OutsideGrid` | Python-Scripts/map_gps_to_cells.py:22-30 | a point gets no cell iff it is south of latitude 22 or west of longitude 113 |
| `GridCells.CellContainsPoint` | Python-Scripts/map_gps_to_cells.py:10-23 | a point lies in the half-open square of side 0.05 that its row and column name |
| `GridCells.NoNorthernBound` | Python-Scripts/map_gps_to_cells.py:4-37 | with no upper check, every point at or north of latitude 23 and not west of the grid gets a cell, in row 20 or above |
| `GridCells.NoEasternBound` | Python-Scripts/map_gps_to_cells.py:7-37 | with no upper check, every point at or east of longitude 115 and not south of the grid gets a cell, in column 40 or above |
| `GridCells.LabelsDistinct` | Python-Scripts/map_gps_to_cells.py:17-37 | two points with the same `"row-col"` label have the same row and column |
| `GridCells.MapGpsToCell` | Python-Scripts/map_gps_to_cells.py:40-59 | one cell, row and column per table row, in order, each the result of `map_gps_to_box` on that row |
| `EndingCells.CellNumberMeaning` | another_one.py:18-22 | with a non-negative column, the number is the row shifted by the column's digit count plus the column (keeping the row's sign); a negative column makes `int` fail |
| `EndingCells.CellNumbersCollide` | another_one.py:21-22 | cells (1, 12) and (11, 2) both get number 112 |
| `EndingCells.EndingsCollide` | another_one.py:17-22 | the centres of cells (1, 12) and (11, 2) lie in those cells and map to the same number |
| `EndingCells.WestOfGridFails` | another_one.py:19-22 | an ending west of the grid makes `map_ending_to_box` raise |
| `EndingCells.RowOfLatitude` | another_one.py:17-39 | a latitude is in row r iff `get_lat_for_row(r) <= lat < get_lat_for_row(r + 1)` |
| `EndingCells.ColumnOfLongitude` | another_one.py:17-19 | a longitude is in column c iff it lies between column c's western edge, included, and column c + 1's |
| `EndingCells.MapEndingsToCell` | another_one.py:25-35 | one cell number per ending, in order; the first ending whose number `int` refuses makes the whole call fail |

## Left out

- CSV loading and saving, writing `RouteNumbers.txt`, reading the fraud list and all
  plotting: I/O with no logic of its own. Each file of `load_all_data_from` is a
  parameter (`files[i]` holds the readings of `part-m-` followed by `i` padded with zeros to
  five digits, `part-m-00003` or `part-m-00010`).
- `lookup` (datetime parsing): times are given as integer seconds.
- `calculate_route_distances` and `remove_routes_with_excessive_distances`: they rely on
  floating-point geodesy from the `mpu` library and on pandas label lookup.
  `distance_between_gps` takes the great-circle distance as a function argument.
- Floating-point rounding: the grid binning and the zone tests use exact reals, so
  results differ from the scripts' for points within rounding error of an edge. For
  example, the double nearest 1.0 / 20.0 is slightly above 0.05, so the script gives
  latitude 23.0 row 19, where the model gives row 20. The lemmas about edges
  (`GridCells.NoNorthernBound`, `EndingCells.RowOfLatitude`) hold in exact arithmetic.
- `NewData.LoadAllDataFrom` collects each file's labelled table, not the rows
  `find_trajectories_at_airport_or_bus` selects from it. That selection adds two numpy
  arrays element-wise and then applies `isin`, which is not modelled.
  `NewData.ZoneSelectionsEmpty` shows that both arrays come from empty row selections.
- Updates in place (`df['time'] = ...`, `inplace=True`, new columns assigned to a
  frame) are modelled by returning new sequences. Aliasing between a frame and its
  slices is not modelled.
- `Trajectories.SortByTime`: pandas' default quicksort is not stable, and the model
  sorts stably, so the order of readings with equal times is a choice of the model.
- `TrainRoutes.ColumnIntersection`: the script returns `list(set(...))`, whose order is
  unspecified. The model lists values in order of first appearance in the first frame.
- `Decimal.ParseInt`: `int` also accepts surrounding whitespace and underscores between
  digits. The model accepts only an optional sign followed by decimal digits; the texts
  built by the scripts contain neither.
- Progress printing, and the top-level script code:
  - the calls on an empty frame in find_train_to_train_routes.py;
  - the 76-file batch at the end of new_data.py;
  - the sample computation at another_one.py:13-14.
- `map_gps_to_box` in find_train_to_train_routes.py refers to names that file never
  defines, so it would raise, and is not modelled; `GridCells.MapGpsToBox` models the
  working copy.
