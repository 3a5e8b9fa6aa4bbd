# GIS helpers for traffic data, modelled in Dafny

This project models the computational core of a small Python toolbox for
traffic and transit analysis. The core has three parts.

- `get_OD_line_shp` (GISshape.py) turns an origin–destination (OD) table
  into one flow row per group, sorted by the aggregated measure, largest
  first. A group is a directed (origin, destination) pair, or with
  `combine` an undirected pair of places.
  - With `combine`, it first builds a place table: every name from either
    column, kept once at its first occurrence, sorted by name and numbered
    0..N-1.
  - It keys each row by the "min-max" string of its two place IDs, sums
    the measure per key (or divides the sum by the number of distinct
    dates for `countd`), and looks the two endpoints up again by ID.
- `snap_points_to_line` and `split_routes` (Busshape.py) work on bus data.
  - The first moves each bus stop onto the first route row with the same
    name and direction.
  - The second cuts every route row into one segment per pair of
    consecutive stops, taken in ascending sequence order.
- `getdatelist` (ProcessBasic.py) lists every day between two dates as
  `YYYYMMDD` strings, whichever date is given first.

The project has five modules, one per file:

| file | module | models |
|---|---|---|
| `text.dfy` | `Text` | Python's `<` on `str`, `str(n)` and zero-padded fields |
| `date_list.dfy` | `DateList` | `getdatelist` on a proleptic Gregorian calendar |
| `place_registry.dfy` | `PlaceRegistry` | the place table and the pair key |
| `od_flow.dfy` | `OdFlow` | the grouping, the aggregation, the endpoints and the sort |
| `bus_shape.dfy` | `BusShape` | the two bus functions, as methods with loops |

- The pandas pipeline is pure dataflow, so `get_OD_line_shp` and
  `getdatelist` are modelled as functions over sequences, with lemmas.
- The bus functions loop and append, so they are methods whose loop
  invariants tie the result to a specification function.
- Shapely's `project`, `interpolate` and `substring` are parameters of
  the bus model (the `Geometry` record). The proofs hold for every choice
  of them.
- The source does not say what ordering it uses for ties. pandas'
  `sort_values` is not stable. The model sorts by insertion and places
  each row into what is already sorted, so which of two rows with equal
  keys comes first is the model's choice. No lemma depends on it.
- pandas' `groupby` returns its groups sorted by key. The model keeps
  them in order of first appearance. The descending sort that follows
  makes the two agree except among equal measures.

## Model

| member | source | states |
|---|---|---|
| Text.StrLessIrreflexive | GISshape.py:42 | No name sorts before itself under Python's string order. |
| Text.StrLessTransitive | GISshape.py:42 | Python's string order is transitive. |
| Text.StrLessTotal | GISshape.py:42 | Two different strings are ordered one way or the other. |
| Text.StrLessAsymmetric | GISshape.py:42 | A string order never holds in both directions. |
| Text.StrLessConcat | ProcessBasic.py:27 | For first parts of equal width, the first parts decide the order of two concatenations unless they are equal. |
| Text.NatToString | GISshape.py:51-52 | `str(n)` is a non-empty run of digits with a leading zero only for 0. |
| Text.NatToStringRoundTrip | GISshape.py:55 | `int(str(n)) == n`. |
| Text.PadDigits | ProcessBasic.py:35 | A zero-padded field has exactly its width in digits. |
| Text.PadDigitsRoundTrip | ProcessBasic.py:35 | Reading a zero-padded field back gives the number. |
| Text.PadDigitsOrder | ProcessBasic.py:35 | Padded fields of one width compare as strings exactly as their numbers compare. |
| DateList.DaysInMonth | ProcessBasic.py:34 | Every month has 28 to 31 days. |
| DateList.Next | ProcessBasic.py:34 | The next day is a valid date and comes after the given one. |
| DateList.NextIsOneDayLater | ProcessBasic.py:34 | The next day's day number is one more than the given day's. |
| DateList.MonthsMonotone | ProcessBasic.py:34 | Within a year, a later month starts on a later day number. |
| DateList.YearsMonotone | ProcessBasic.py:34 | A later year starts on a later day number. |
| DateList.OrdinalOrder | ProcessBasic.py:27-34 | Calendar order is day-number order, and equal day numbers mean equal dates. |
| DateList.OrdinalMonotone | ProcessBasic.py:34 | An earlier date has a smaller day number. |
| DateList.DaysFrom | ProcessBasic.py:34 | `date_range`: one entry per day, first the start and last the end, each a valid date between them, entry i being i days after the start. |
| DateList.DaysFromConsecutive | ProcessBasic.py:34 | Entry i + 1 of the range is the day after entry i. |
| DateList.GetDateList | ProcessBasic.py:22-36 | The whole function on dates. Its meaning is stated by GetDateListSymmetric, GetDateListShape, GetDateListConsecutive, GetDateListFormat and GetDateListAscending. |
| DateList.GetDateListSymmetric | ProcessBasic.py:27-32 | `getdatelist(a, b) == getdatelist(b, a)`. |
| DateList.GetDateListShape | ProcessBasic.py:27-36 | Success exactly when both dates are in pandas' range. The list runs from the earlier to the later date, with (days between) + 1 entries, and equal dates give one entry. |
| DateList.GetDateListConsecutive | ProcessBasic.py:34-35 | Each entry, read back, is the day after the previous entry. |
| DateList.GetDateListFormat | ProcessBasic.py:35 | Every entry is 8 digits `YYYYMMDD` naming a day between the two arguments. |
| DateList.GetDateListAscending | ProcessBasic.py:34-35 | Entries are strictly ascending as strings, so none repeats. |
| DateList.CompactRoundTrip | ProcessBasic.py:35 | `%Y%m%d` of a date is 8 digits that read back to the same date. |
| DateList.Compact | ProcessBasic.py:35 | `strftime("%Y%m%d")`. CompactRoundTrip and CompactOrder state that it is 8 digits that read back to the date and that it keeps date order. |
| DateList.CompactOrder | ProcessBasic.py:35 | `%Y%m%d` strings compare like the dates they name. |
| DateList.IsoOrder | ProcessBasic.py:27 | `%Y-%m-%d` strings compare like their dates, so `time1 > time2` is the chronological test. |
| DateList.FieldsOrder | ProcessBasic.py:27 | Year, month and day fields compare as strings like their numbers. |
| PlaceRegistry.OriginPlaces | GISshape.py:39 | The origin half of the concatenation has one place per row, and its names are exactly the names of the origin column. |
| PlaceRegistry.DestPlaces | GISshape.py:40 | The destination half has one place per row, and its names are exactly the names of the destination column. |
| PlaceRegistry.CandidateNames | GISshape.py:39-40 | The concatenated places carry exactly the names of either column. |
| PlaceRegistry.KeepFirst | GISshape.py:41 | `drop_duplicates` on the name keeps each name once, loses none, and keeps each name's first occurrence. |
| PlaceRegistry.InsertByName | GISshape.py:42 | Inserting into the name-sorted table adds exactly that place. |
| PlaceRegistry.SortByName | GISshape.py:42 | `sort_values('PlaceName')` permutes the places. |
| PlaceRegistry.InsertByNameSorted | GISshape.py:42 | Inserting a new name keeps the table sorted by name. |
| PlaceRegistry.SortByNameSorted | GISshape.py:42 | With distinct names, the sorted table is strictly ascending by name. |
| PlaceRegistry.BuildRegistry | GISshape.py:39-43 | Builds the place table: concatenation, `drop_duplicates`, name sort. Its meaning is stated by RegistryIsBijection, RegistryFirstOccurrence and PlaceIdRowOrderIndependent. |
| PlaceRegistry.RegistryIsBijection | GISshape.py:39-43 | The place table has one row per distinct name of either column, no name twice, sorted by name, so the IDs are 0..N-1. |
| PlaceRegistry.RegistryFirstOccurrence | GISshape.py:39-41 | Each place's coordinates are those of the name's first occurrence, origins before destinations. |
| PlaceRegistry.PlaceId | GISshape.py:43-46 | The ID a name gets is the index of its row in the place table. |
| PlaceRegistry.PlaceIdUnique | GISshape.py:43 | A row's index is the ID of its name. |
| PlaceRegistry.PlaceIdOrder | GISshape.py:42-43 | Name a < name b exactly when id(a) < id(b). |
| PlaceRegistry.SortedNamesUnique | GISshape.py:42-43 | Two name-sorted tables with the same names have the same length and the same name at every position. |
| PlaceRegistry.PlaceIdRowOrderIndependent | GISshape.py:39-43 | A name's ID depends only on the set of names, not on the row order. |
| PlaceRegistry.PairKey | GISshape.py:50-52 | Builds the 'Pair' string, smaller ID first. Its meaning is stated by PairKeySymmetric, PairKeyRoundTrip and PairKeyInjective. |
| PlaceRegistry.SplitPair | GISshape.py:55 | Splits a key at its first '-' and reads both halves as integers, or gives None where `astype(int)` raises. PairKeyRoundTrip states that it inverts PairKey. |
| PlaceRegistry.PairKeySymmetric | GISshape.py:50-52 | `key(o, d) == key(d, o)`. |
| PlaceRegistry.PairKeyRoundTrip | GISshape.py:50-55 | Splitting the key at '-' gives (min, max) of the two IDs, and a self-pair is "id-id". |
| PlaceRegistry.PairKeyInjective | GISshape.py:50-52 | Two pairs of IDs share a key exactly when they are the same unordered pair. |
| PlaceRegistry.DashIndex | GISshape.py:55 | The split point is the first '-' of the key, or its end when there is none. |
| OdFlow.GroupKeys | GISshape.py:54 | `groupby` yields each key of the table exactly once. |
| OdFlow.GroupMeasure | GISshape.py:33-36 | A group's measure under `how`: its sum, its mean, or its sum divided by its distinct dates. Its meaning is stated by GroupNonEmpty, CountDGroup and DirectedFlowRow. |
| OdFlow.GroupNonEmpty | GISshape.py:73-75 | A group has at least one row and one date, so its mean and its per-day division are defined. |
| OdFlow.GroupSumsAddUp | GISshape.py:54 | The group sums add up to the column total. |
| OdFlow.GroupKeysCount | GISshape.py:54 | There are as many groups as distinct keys. |
| OdFlow.InsertDesc | GISshape.py:54 | Inserting into the descending table adds exactly that row and its measure. |
| OdFlow.SortDesc | GISshape.py:54 | `sort_values(ascending=False)` permutes the rows and keeps their total. |
| OdFlow.InsertDescSorted | GISshape.py:54 | Inserting keeps the table in descending order. |
| OdFlow.SortDescSorted | GISshape.py:54 | The sorted table is descending by measure. |
| OdFlow.InsertDescDistinct | GISshape.py:54 | Inserting a row with a new key keeps one row per key. |
| OdFlow.SortDescDistinct | GISshape.py:54 | Sorting keeps one row per key. |
| OdFlow.TagPairs | GISshape.py:44-52 | The two inner merges on the place names and the 'Pair' column. TagPairsKeepsRows states that no row is dropped and each row gets its key. |
| OdFlow.TagPairsKeepsRows | GISshape.py:44-52 | When the place table covers every name, the two merges drop no row. Each row gets its "min-max" key, and the measure total is kept. |
| OdFlow.CombinedTaggedRows | GISshape.py:39-52 | With the place table built from the rows, every row is kept and keyed by its two places' IDs. |
| OdFlow.AggregatePairs | GISshape.py:53-77 | The aggregates carry exactly the keys of the table, each once, each with its group's sum ('mean' also sums) or with countd its sum per distinct date. With 'sum' or 'mean' the aggregate measures add up to the table's total. |
| OdFlow.Endpoints | GISshape.py:55-70 | An attached endpoint row keeps its group's key and measure. |
| OdFlow.AttachEndpoints | GISshape.py:62-70 | The two merges that look both IDs up in the place table. AttachEndpointsKeepsRows and PairEndpoints state what they keep and which coordinates they attach. |
| OdFlow.AttachEndpointsKeepsRows | GISshape.py:62-63 | When every key splits into two IDs of the place table, the final merges keep every row in order. |
| OdFlow.PairEndpoints | GISshape.py:55-70 | A group's origin columns are the smaller ID's coordinates and its destination columns the larger ID's. |
| OdFlow.CombinedOutput | GISshape.py:55-70 | On the combine path every group finds both its places, so the output has one row per ranked group. |
| OdFlow.CombinedFlowRow | GISshape.py:39-91 | combine=True: each output row is a pair of places from the input. Its measure is that pair's sum over both directions (per distinct date for countd; 'mean' also sums). Its origin and destination are the smaller and larger PlaceID's coordinates. |
| OdFlow.CombinedFlowsCoverPairs | GISshape.py:50-54 | combine=True: exactly one output row per undirected pair occurring in the input. |
| OdFlow.CombinedKeys | GISshape.py:54-63 | combine=True: output rows carry the keys of the ranked groups, one row per key. |
| OdFlow.CombinedMergesDirections | GISshape.py:50-52 | combine=True: two rows share a group exactly when they join the same two places, in either direction. |
| OdFlow.CombinedTotalPreserved | GISshape.py:53-54 | combine=True with 'sum' or 'mean': the output measures add up to the input total. |
| OdFlow.TagDirected | GISshape.py:33-35 | combine=False: each row is kept, and the group keys are exactly the ordered (origin, destination) pairs of the rows. |
| OdFlow.DirectedFlows | GISshape.py:33-35 | combine=False: the flows carry exactly the keys of the table, one flow per key. |
| OdFlow.DirectedFlowRow | GISshape.py:31-37 | combine=False: each output row is an ordered pair from the input. Its measure is aggregated with `how` (per distinct date for countd), and its coordinates are the group means. |
| OdFlow.DirectedFlowsCoverPairs | GISshape.py:31-37 | combine=False: exactly one output row per ordered pair, so A→B and B→A stay apart. |
| OdFlow.GetODLine | GISshape.py:30-91 | The whole function without the line geometry. Its meaning is stated by CombinedFlowRow, CombinedFlowsCoverPairs, CombinedTotalPreserved, DirectedFlowRow, DirectedFlowsCoverPairs and GetODLineSortedDesc. |
| OdFlow.GetODLineSortedDesc | GISshape.py:31-77 | Both paths return the table sorted by measure, largest first. |
| OdFlow.CountDGroup | GISshape.py:73-75 | A countd group of measures 10, 20 and 30 seen on two dates has measure 30. |
| OdFlow.CountDExample | GISshape.py:39-91 | combine=True with countd: A→B 10 on d1, A→B 20 on d2 and B→A 30 on d1 give one row of measure 30. |
| BusShape.MatchingRoutes | Busshape.py:28-29 | The filtered route table holds exactly the routes with the stop's name and direction. |
| BusShape.NoMatchingRoute | Busshape.py:28-31 | The filtered table is empty exactly when no route row serves the stop. |
| BusShape.FirstMatchingRoute | Busshape.py:28-33 | `iloc[0]` of the filtered table is the first route row that serves the stop. |
| BusShape.SnapPointsToLine | Busshape.py:24-46 | One row per stop, in order. Its geometry is the snapped point, Lat/Lon become that point's y/x, and route, direction and sequence are kept. |
| BusShape.SnappedPoint | Busshape.py:28-39 | Where one stop ends up. UnservedStopKeepsPoint and ServedStopProjected state both cases. |
| BusShape.UnservedStopKeepsPoint | Busshape.py:37-39 | A stop no route serves keeps its point. |
| BusShape.ServedStopProjected | Busshape.py:31-36 | A served stop moves to `interpolate(line, project(line, stop))` on the first route serving it. |
| BusShape.StopsOf | Busshape.py:78-79 | The selection holds each stop row of the route's name and direction exactly as often as the table does, and no other row. |
| BusShape.StopsOfCount | Busshape.py:78-79 | The selection has as many rows as the table has rows of that route, duplicates included. |
| BusShape.InsertBySeq | Busshape.py:79 | Inserting into the sequence-sorted stops adds exactly that stop. |
| BusShape.SortBySeq | Busshape.py:79 | `sort_values(seq_seq_col)` permutes the selected stops. |
| BusShape.InsertBySeqAscending | Busshape.py:79 | Inserting keeps the stops ascending by sequence number. |
| BusShape.SortBySeqAscending | Busshape.py:79 | The sorted stops are ascending by sequence number. |
| BusShape.RouteStopsArePermutation | Busshape.py:78-82 | A route row works on exactly its selected stops, in ascending sequence order. |
| BusShape.SplitRoute | Busshape.py:73-101 | Selects and sorts the row's stops (Busshape.py:78-79), then cuts them with CutPairs; the result is the row's segment list RouteSegments. |
| BusShape.CutPairs | Busshape.py:82-101 | The loop over consecutive pairs of the sorted stops yields PairSegments: one segment per pair, in pair order, with the geometry `substring(line, project(start), project(end))`. |
| BusShape.SplitRoutes | Busshape.py:70-103 | The output is every route row's segments, route rows in table order and pairs in index order. |
| BusShape.RouteSegmentsCount | Busshape.py:78-84 | A route row with k stops yields max(k - 1, 0) segments. |
| BusShape.RouteSegmentsChain | Busshape.py:84-101 | Segment i of a route has its name and direction and runs from sorted stop i to stop i + 1, so StartSeq <= EndSeq. Each EndSeq is the next StartSeq, and the geometry is `substring(line, project(start), project(end))`. |
| BusShape.AllSegmentsAppend | Busshape.py:72-101 | Adding route rows, duplicates included, appends their segments after the earlier ones. |
| BusShape.AllSegmentsCount | Busshape.py:72-84 | The number of segments is the sum of max(k - 1, 0) over the route rows. |

## Left out

- The line geometry of `get_OD_line_shp` (`get_line`, GISshape.py:23-28, and the call at :93) is left out: it builds shapely LineStrings and sets a CRS in geopandas. Its `y1` default is `o_x_col` where `o_y_col` is evidently meant, so every line would start at (lng, lng). The model stops before that step and does not claim it.
- The combine branch reads a name `cvp` (GISshape.py:39-40, 44) that is not a parameter. The model takes it to be the `df` argument.
- The `OD` column (GISshape.py:47) is computed but never used afterwards, so it is not modelled.
- OdFlow.How: only 'sum', 'mean' and 'countd' are modelled. On the combine=False path (GISshape.py:33) the source passes any other string to pandas' aggregator, which may accept it ('max', 'min', ...) or raise. On the combine=True path any `how` other than 'countd' takes the branch at GISshape.py:53-54, which always sums, so 'max' sums there exactly as `OdFlow.CombinedHow` makes 'mean' sum.
- OdFlow.DatesWhere: counts distinct dates as a set of strings. pandas' `nunique` also skips missing dates, and missing values (NaN) are not modelled.
- OdFlow.GetODLine: on an empty table with combine=True the model returns an empty list. The source raises instead: the empty `countdf['Pair'].str.split('-', expand=True)` at GISshape.py:55 (and :79 for countd) has no columns, and assigning it to the two columns `PlaceID1` and `PlaceID2` raises a ValueError. The combine-path lemmas (`OdFlow.CombinedTotalPreserved`, `OdFlow.CombinedFlowsCoverPairs`, ...) hold trivially on that input, which the source rejects.
- OdFlow.Endpoints: a key that does not split into two numbers makes pandas raise in `astype(int)`. The model drops such a row instead, and the lemmas show that no key of the pipeline is of that kind.
- BusShape.SortBySeq: sequence numbers (and directions) are integers. A Seq column held as strings sorts lexicographically in the source (Busshape.py:79), "10" before "9", and the model's ascending-order lemmas do not describe that case.
- OdFlow.SortDesc, BusShape.SortBySeq: rows with equal measures or equal sequence numbers keep their input order here. pandas' default sort does not promise any order for ties, and no lemma states one.
- OdFlow.AttachEndpoints: the model keeps the rows in the order of the ranked table. This relies on pandas' inner merge keeping the left table's row order, which pandas documents and follows from version 2.2 on. Earlier versions could group the rows of an inner merge by key, leaving the combined table unsorted. `OdFlow.AttachEndpointsKeepsRows` and `OdFlow.GetODLineSortedDesc` rely on this assumption.
- Floating point: measures and coordinates are exact reals. The mean and per-day division are exact divisions, with no rounding.
- Shapely's `project`, `interpolate` and `substring` are parameters (`BusShape.Geometry`). Their arc-length numerics are not modelled.
- PlaceRegistry.BuildRegistry: place names are modelled as strings, and PlaceIDs follow Python's string order (`Text.StrLess`). The name columns may also hold numbers, such as a stop sequence number, and `sort_values('PlaceName')` (GISshape.py:42) then sorts them numerically, 2 before 10, where the string order puts "10" before "2". The PlaceID order lemmas hold only for string name columns.
- Dataframe columns named by arguments (`o_col`, `seq_lat_col`, ...) are fixed fields of the row datatypes.
- Extra columns that pass through the bus functions are not modelled. Neither are the geodataframe wrappers, CRS metadata and the `reset_index` calls, which only renumber.
- DateList.GetDateList: takes dates, not strings. The source's string comparison `time1 > time2` is modelled as the calendar order, which `DateList.IsoOrder` shows to be the same for zero-padded `%Y-%m-%d` strings. A Date stands only for such a string. pandas also parses unpadded strings such as "2020-1-9", and for those the string comparison is not chronological. "2020-1-10" sorts before "2020-1-9", so the source takes 2020-01-10 as the start and returns an empty list for either argument order, where the model of the two dates returns two days. The model's shape, order and format lemmas hold only for the padded format. A malformed string is modelled as an invalid date (the `InvalidDate` error). The error for dates outside Timestamp's range, 1677-09-22 to 2262-04-11, is `OutOfTimestampRange`.
- The rest of the repository is not part of this model: the freeway XML download and conversion (freewaylistdownload.py), the Selenium crawler (THIWebCrawler.py), and the folder and file helpers `create_folder`, `delete_folders` and `findfiles` (ProcessBasic.py). They are network, browser and filesystem I/O.
