# Incremental transit and flight-segment builds, in Dafny

This project models the two incremental build scripts of a transportation
mapping site and proves properties of the model.

- **The change-detection ledger** is shared by both scripts. The file
  `raw_data_source_status.json` maps a logical source name to the modification
  time its source file had when it was last processed. A stage runs when its source has no entry, or
  when the source's modification time is strictly later than the entry.
  `Ledger.StatusFile` is the file as an object: `Load` is `loadStatus`,
  `Save` is the read-modify-write `saveStatus`, and `IsStale` is the transit
  script's `shouldProcess`.
- **The transit build** (`processGTFS.cjs`) reads the lines of the GTFS files
  `shapes.txt` and `stop_times.txt`. The first line is the header. Every
  later line is split on ',' and transcoded by position against it
  (`Transcode`, `Streaming`).
  - Shape points are grouped by `shape_id` in first-seen order (`Grouping`).
    Each group is sorted stably by `shape_pt_sequence` (`Sorting`) and
    emitted as a `LineString` of `[lon, lat]` positions, the order of section
    3.1.1 of RFC 7946 (`Shapes`).
  - Stops are grouped by `trip_id` into a plain object (`StopTimes`). Its
    serialization follows `Object.keys` order: array-index keys first, then
    the others in creation order (`JsObjects`).
  - Both outputs are written whole, then recorded in the ledger, then written
    again as numbered parts of 1000 (`Chunking`), and then the whole file is
    removed (`Gtfs`).
- **The flight-segment build** (`processBTS.js`) sums the passengers of the
  rows whose origin is DCA, IAD or BWI and whose destination is not empty.
  The sums are keyed by `origin + '-' + dest`, in first-seen order. They are
  rounded once, at emission, and the key is split back on '-' (`Bts`).

A run is modelled as the sequence of file effects it produces, together with
the ledger it leaves behind. Each effect carries the serialized content of
the file it writes. Instants are integers (milliseconds). A missing input
file has no modification time.

## Model

| member | source | states |
|---|---|---|
| Ledger.ShouldProcess | scripts/processBTS.js:26-28 | a source with no recorded instant runs; one with a recorded instant runs iff its modification time is strictly later, so an equal time is skipped |
| Ledger.StatusFile.IsStale | scripts/processGTFS.cjs:30-35 | a key absent from the loaded ledger is stale; a present key is stale iff the file's time is later than the entry, where a missing file counts as instant 0 and is stale only against an entry before 0 |
| Ledger.MissingRecordedSourceIsSkipped | scripts/processGTFS.cjs:26-35 | a missing source whose key holds an instant from 0 on is not stale, so its stage is skipped instead of failing |
| Ledger.RecordedSourceIsSkipped | scripts/processBTS.js:26-28 | once an instant is recorded, that same instant is skipped and any later one runs |
| Ledger.ShouldProcessMonotonic | scripts/processBTS.js:26-28 | if a source must run at one time, it must run at every later time |
| Ledger.RecordingIsolatesKeys | scripts/processGTFS.cjs:20-24 | recording one key leaves the run/skip decision of every other key unchanged |
| Ledger.StatusFile.Load | scripts/processGTFS.cjs:15-18 | the ledger is empty when the status file does not exist, and is the file's contents otherwise |
| Ledger.StatusFile.Save | scripts/processGTFS.cjs:20-24 | the file then exists and holds the previously loaded ledger with only `key` set to `time`; every other key keeps its entry |
| Text.SplitCount | scripts/processGTFS.cjs:48 | a line with n commas splits into n + 1 pieces, empty ones included |
| Text.SplitUnique | scripts/processGTFS.cjs:52 | the pieces of `split` are exactly the one nonempty list of separator-free pieces whose join is the string |
| Text.JoinSplit | scripts/processGTFS.cjs:48 | joining the pieces of `split(',')` with ',' gives back the line, so splitting loses nothing |
| Text.SplitJoin | scripts/processGTFS.cjs:52 | splitting the join of separator-free pieces gives back those pieces |
| Text.SplitPiecesLackSeparator | scripts/processGTFS.cjs:52 | no piece of a split contains the separator |
| Text.SplitAfterFirst | scripts/processBTS.js:46 | splitting `a + '-' + b`, where `a` has no '-', yields `a` followed by the pieces of `b` |
| Numbers.ParseIntReads | scripts/processGTFS.cjs:59 | `parseInt` with radix 10 skips leading white space and line terminators, takes an optional '+' or '-', reads any run of decimal digits that follows (leading zeros included) as its value, negated only after '-', and ignores the rest |
| Numbers.ParseIntWithoutDigits | scripts/processGTFS.cjs:59 | text with no digit at all gives NaN |
| Numbers.ParseIntOfDigits | scripts/processGTFS.cjs:59 | a bare digit string is read as its decimal value |
| Numbers.ParseIntOfDecimalString | scripts/processGTFS.cjs:59 | `parseInt` with radix 10 reads back the canonical numeral of any natural number |
| Numbers.ParseIntOfNegatedDecimalString | scripts/processGTFS.cjs:59 | a '-' before the numeral negates it |
| Numbers.ParseIntOfPaddedDecimalString | scripts/processGTFS.cjs:59 | a leading space before the numeral is skipped |
| Numbers.ParseIntOfZeroPadded | scripts/processGTFS.cjs:59 | leading zeros do not change the number read, so "007" gives 7 |
| Transcode.TranscodeRow | scripts/processGTFS.cjs:53-54 | the `forEach` loop builds the entry that assigns each header name its positional value, left to right |
| Transcode.EntryKeys | scripts/processGTFS.cjs:53-54 | the entry's keys are exactly the header names |
| Transcode.FieldAt | scripts/processGTFS.cjs:54 | a header name holds the value at its last position in the header, and is undefined when the line is too short |
| Transcode.FieldOfNonHeader | scripts/processGTFS.cjs:54 | a name that is not in the header reads undefined |
| Transcode.EntryIgnoresExtraValues | scripts/processGTFS.cjs:54 | values beyond the header's length are dropped |
| Streaming.GroupRows | scripts/processGTFS.cjs:46-63 | only the first line becomes the header; every later line is transcoded and pushed into its key's group, giving the group-by of all data rows |
| Grouping.GroupHoldsValuesFor | scripts/processGTFS.cjs:61-62 | the map is well formed, and each key's array holds exactly the values of the rows with that key, in row order |
| Grouping.GroupKeysInFirstSeenOrder | scripts/processGTFS.cjs:61 | the keys are distinct, are exactly the keys of the rows, and are ordered by first occurrence |
| Grouping.GroupTotal | scripts/processGTFS.cjs:62 | the arrays together hold one value per row |
| Grouping.GroupFacts | scripts/processGTFS.cjs:131-132 | any group-by, in particular the shape map and the trip map, is well formed, holds each key's values in row order, lists exactly the row keys in first-seen order, and holds one value per row |
| Grouping.GroupMapKeys | scripts/processBTS.js:40-41 | grouping by an injective image of the key yields the same groups in the same order |
| Shapes.PointOfReadsSequence | scripts/processGTFS.cjs:56-59 | a point keeps the latitude and longitude cells; as `seq` it takes the value of the digits in `shape_pt_sequence` after any leading white space and optional sign, leading zeros included, negated after '-', with whatever follows ignored |
| Shapes.PointOfUnreadableSequence | scripts/processGTFS.cjs:59 | an undefined `shape_pt_sequence`, or one without a digit, gives `seq` 0 in place of NaN |
| Shapes.CollectShapes | scripts/processGTFS.cjs:43-63 | the streaming loop leaves `routes` equal to the group-by of the file's points by shape id (whose order and contents Grouping.GroupFacts states), holding one point per data line after the header; each point is read as Shapes.PointOfReadsSequence states |
| Sorting.SortByCorrect | scripts/processGTFS.cjs:66 | the sort by `seq` is ascending, is a permutation, and keeps points with equal `seq` in their input order |
| Sorting.SortBySorted | scripts/processGTFS.cjs:66 | points already in order stay as they are |
| Shapes.FeatureOrdersPoints | scripts/processGTFS.cjs:65-74 | a feature carries its shape id; its coordinates are its points, stably sorted by sequence, each written `[lon, lat]` |
| Shapes.FeaturesInFirstSeenOrder | scripts/processGTFS.cjs:65 | there is one feature per shape id, in first-seen order |
| Shapes.EveryShapeHasFeature | scripts/processGTFS.cjs:65 | every row's shape id has a feature |
| Shapes.FeatureHoldsItsRows | scripts/processGTFS.cjs:65-73 | feature i's coordinates are exactly the points of the rows with its id, sorted stably by sequence |
| Chunking.SplitIntoParts | scripts/processGTFS.cjs:87-96 | the loop stepping `i` by 1000 emits part `i/1000 + 1` holding `slice(i, i + 1000)` for every `i` below the length |
| Chunking.PartSizes | scripts/processGTFS.cjs:88-91 | no elements give no parts; every part but the last holds exactly 1000 elements; the last holds 1 to 1000 |
| Chunking.PartsConcatenate | scripts/processGTFS.cjs:88-91 | the parts, concatenated in part order, are the whole collection |
| Chunking.PartOfElement | scripts/processGTFS.cjs:91-93 | element i lands in part `i/1000 + 1`, at position `i % 1000` |
| StopTimes.CollectTrips | scripts/processGTFS.cjs:114-133 | the streaming loop leaves `trips` equal to the group-by of the file's `{stop, arrival}` records by trip id, in file order and unsorted, holding one record per data line after the header |
| StopTimes.Summarize | scripts/processGTFS.cjs:135-138 | the loop copies the map into the plain object, assigning the entries in map order |
| StopTimes.SummaryValid | scripts/processGTFS.cjs:135-138 | each property of `result` is created once, and every created one is present |
| StopTimes.SummaryOfNamedTrips | scripts/processGTFS.cjs:136-137 | when every row has a trip id, `result` creates one property per trip, in map order, holding that trip's stops |
| StopTimes.SummaryLastWriteWins | scripts/processGTFS.cjs:135-138 | a property of the trip object holds the stops of the last map entry whose trip id reads as that property name |
| StopTimes.UndefinedTripsCollide | scripts/processGTFS.cjs:137 | in any trip map holding both an undefined trip id and the id "undefined", the two share the property "undefined", and it holds the stops of whichever entry comes later in the map |
| JsObjects.OwnKeysPermutes | scripts/processGTFS.cjs:145 | `Object.keys` lists every created key once: array indices first, ascending by value, then the rest |
| JsObjects.OwnKeysOfOrdered | scripts/processGTFS.cjs:145 | keys already in that order are listed as created |
| JsObjects.OwnKeysWithoutIndices | scripts/processGTFS.cjs:145 | without array-index keys, `Object.keys` is creation order |
| JsObjects.ChunkKeysKeepOrder | scripts/processGTFS.cjs:149-151 | a contiguous run of `Object.keys`, assigned into a fresh chunk, is listed by the chunk in the same order |
| StopTimes.SummaryEntriesInMapOrder | scripts/processGTFS.cjs:140 | with named, non-numeric trip ids, the summary lists trips in first-seen order with their stops |
| StopTimes.BuildChunk | scripts/processGTFS.cjs:148-151 | the `forEach` fills the chunk with each id in the run and that id's stops from `result` |
| StopTimes.ChunkOfDistinct | scripts/processGTFS.cjs:149-151 | a chunk filled from distinct ids creates them in run order, each holding the stops `result` holds |
| StopTimes.ChunkSerializesSlice | scripts/processGTFS.cjs:145-153 | chunk k serializes to exactly the k-th run of 1000 trips of the whole summary |
| StopTimes.ChunksCoverSummary | scripts/processGTFS.cjs:145-155 | the chunks filled from the runs of 1000 `Object.keys`, serialized and concatenated in part order, give back the whole summary's trips in order with their stops |
| Gtfs.ShapesEffectsOrder | scripts/processGTFS.cjs:82-98 | the shapes stage writes the whole collection, then records its key, then parts 1..n that concatenate to the collection, then removes the whole file |
| Gtfs.StopTimesEffectsOrder | scripts/processGTFS.cjs:140-157 | the stop-times stage writes the summary, then records its key, then parts 1..n that are consecutive runs of the summary, then removes the whole file |
| Gtfs.SummaryEffectsOrder | scripts/processGTFS.cjs:140-157 | the same order, for any well-formed trip object |
| Gtfs.PartWritesAreSlices | scripts/processGTFS.cjs:147-154 | the part written as number k + 1 holds the k-th run of the summary's trips |
| Gtfs.ParseShapes | scripts/processGTFS.cjs:37-98 | a missing file fails with no effect and no ledger change; otherwise the stage produces the effects above and records the file's time under `gtfs_shapes.txt` |
| Gtfs.SummarizeStopTimes | scripts/processGTFS.cjs:108-157 | a missing file fails with no effect and no ledger change; otherwise the stage produces the effects above and records the file's time under `gtfs_stop_times.txt` |
| Gtfs.Run | scripts/processGTFS.cjs:166-180 | each stage runs iff forced or its source is stale; a failing shapes stage stops the run; the effects and the new ledger are exactly those of the stages that ran; after a successful run neither source is stale |
| Bts.ParsedPassengers | scripts/processBTS.js:38 | a missing or empty PASSENGERS cell reads 0; any other cell reads as `parseFloat` gives it, so NaN arises only from a nonempty cell the parser rejects |
| Bts.RouteItemsOfContributingRows | scripts/processBTS.js:39-41 | exactly the rows with origin DCA, IAD or BWI and a nonempty destination are summed: every summed item is the key and passengers of such a row, and every such row is summed |
| Bts.AccumulateRoutes | scripts/processBTS.js:35-43 | the `'data'` handler's route map equals the reference: the contributing rows grouped by route key in first-seen order, each group summed unrounded |
| Bts.TotalsSnoc | scripts/processBTS.js:41 | one `routeMap.set(key, (get(key) \|\| 0) + passengers)` extends the reference totals by one row |
| Bts.TotalsAreSums | scripts/processBTS.js:40-41 | each route's sum is the sum of the passengers of exactly the rows with its key; route keys are listed in first-seen order |
| Bts.Round | scripts/processBTS.js:47 | `Math.round` gives an integer within one half of its argument, rounding halves up |
| Bts.RoundingAtEmission | scripts/processBTS.js:41-47 | 150.4 + 0.4 is emitted as 151, whereas rounding each row would give 150 |
| Bts.RouteKeyInjective | scripts/processBTS.js:40 | for the three relevant origins, the key `origin-dest` determines both origin and destination |
| Bts.DecodeKey | scripts/processBTS.js:46 | the destination is defined iff the key has a '-'; the key then starts with origin, '-', destination, followed by its end or another '-', and neither part holds a '-'; without a '-' the origin is the whole key |
| Bts.Emit | scripts/processBTS.js:45-48 | one record per route of the map |
| Bts.EmitAt | scripts/processBTS.js:45-47 | the record of route `o-d`, with `d` free of '-', is origin `o`, destination `d` and the sum rounded by `Math.round` |
| Bts.DecodeRouteKey | scripts/processBTS.js:46 | splitting a route key gives back the origin always, and the destination iff it has no '-'; otherwise its part before the first '-' |
| Bts.FlowsMatchReference | scripts/processBTS.js:45-48 | when no destination has '-', the output has exactly one record per distinct contributing (origin, destination) pair, in first-seen order, with the rounded sum of that pair |
| Bts.AggregationExample | scripts/processBTS.js:35-48 | rows DCA-ATL 100, DCA-ATL 50, IAD-LAX 10 and ORD-ATL 999 give DCA-ATL 150 and then IAD-LAX 10; ORD is excluded |
| Bts.NaNDropsEarlierRows | scripts/processBTS.js:38-41 | as written, counts 5, an unparsable cell, then 3 leave the route at 3; counting the bad cell as 0 gives 8 |
| Bts.AsWrittenWithoutNaN | scripts/processBTS.js:41 | without unparsable cells, the written accumulation is the plain sum |
| Bts.ProcessCsv | scripts/processBTS.js:30-53 | the stage writes the flows, then records the file's time under the segment key, and changes no other ledger entry |
| Bts.Run | scripts/processBTS.js:55-71 | a missing file produces no effect and leaves the ledger untouched; otherwise the file is processed iff its entry is absent or older; afterwards it is not stale |

## Left out

- File-system and stream plumbing is not modelled: `fs`, `readline`, `createReadStream`, the asynchronous event handlers and console output. Inputs are given as the lines (transit) or parsed rows (flights) of a file, together with its modification time. Outputs are the effects a run produces.
- The CSV parser of the flight build is not part of this model. Rows arrive as column-to-cell maps.
- Number parsing is a parameter. `parseFloat` is passed in as a function from cell text to a number or NaN. Shape coordinates stay as the cell text. Binary floating point is modelled as exact reals, so sums carry no rounding error.
- Shapes.PointOf: a `shape_pt_sequence` that `parseInt` cannot read is modelled as 0. In the source it is NaN, which makes the sort comparator inconsistent, so the resulting order is left to the engine.
- Numbers.ParseInt reads numerals exactly. The source's result is a double, so a numeral beyond 2^53 is rounded there; sequence numbers that large are not modelled.
- Dates are not modelled: `Date`, `toISOString` and `new Date(...)` of a stored string. Instants are integers. A malformed ledger string, which the source reads as an invalid date, is not representable.
- JSON serialization and pretty-printing are not modelled. Effects carry the serialized content as data.
- The `.gitignore` append (processGTFS.cjs:100-105, 159-163) is left out. It does not affect the artifacts or the ledger.
- A trip id of `__proto__` is not modelled. Assigning it to a plain object changes the prototype instead of creating a property.
- Gtfs.ParseShapes, Gtfs.SummarizeStopTimes: a missing input file makes the stage fail before it writes anything. On runtimes whose `readline` does not forward the stream's error, the unhandled `'error'` event of the read stream ends the process at once, also before anything is written. Either way the stage ends with no ledger change and no parts.
- Gtfs.ParseShapes, Gtfs.SummarizeStopTimes, Bts.ProcessCsv: the time recorded is the modification time read before the run. The source reads it again when recording, so a file changed during the run is not modelled.
- Gtfs.Run, Bts.Run: the process exit code is not modelled. In Gtfs.Run a stage failure ends the run and `ok` is false. Bts.Run reports only whether the segment file was found; a failure inside its stage is not modelled.
- Gtfs.Run follows the code for a missing input whose key already has a ledger entry from instant 0 on. The absent modification time reads as instant 0, which is not later than the entry, so the stage is skipped and the run reports success with no effect for it (Ledger.MissingRecordedSourceIsSkipped). A missing input is meant to be an error; the code treats it as one only when the key has no entry.
- Bts.Run: a missing segment file is meant to stop the run with a non-zero exit. The code logs the error and returns normally, with no effect and no ledger change, and that is what the model states.
- Gtfs.ParseShapes, Gtfs.SummarizeStopTimes: the ledger entry is recorded after the whole artifact is written but before any part. A failure while writing parts therefore leaves the source recorded as processed. A stage that fails part-way is meant to leave no ledger entry; the model follows the code's order instead.
- Bts.AccumulateRoutes counts a passenger cell that does not parse as 0 (see Findings). The as-written behaviour is modelled separately by Bts.RunningTotalAsWritten.
- The site's other code is not part of this model: random synthetic data, distance geometry, the data loader's `fetch`, and the map projection.

## Findings

| source | as written | input that shows it | evidently intended | confidence | as-written member | corrected member |
|---|---|---|---|---|---|---|
| scripts/processBTS.js:38-41 | a PASSENGERS cell that does not parse adds NaN, and the next row reads the NaN sum through `\|\| 0` as 0, dropping every earlier row of that route | one route whose cells are 5, "n/a", then 3 ends at 3; if the bad cell is last, the record's passengers is NaN, serialized as null | an unparsable count contributes 0, as a missing one does, giving 8 | medium, not executed | Bts.NaNDropsEarlierRows | Bts.AccumulateRoutes |
