/**
 * The transit build script's driver and its two stages, as the sequence of
 * file effects each run produces and the ledger it leaves behind.
 */
module Gtfs {
  import opened Wrappers
  import opened Ledger
  import opened Chunking
  import opened JsObjects
  import Grouping
  import Shapes
  import StopTimes

  /** The ledger keys of the two sources. */
  const ShapesKey: string := "gtfs_shapes.txt"
  const StopTimesKey: string := "gtfs_stop_times.txt"

  /** An input file: its modification time (none when it does not exist) and its lines. */
  datatype Source = Source(mtime: Option<int>, lines: seq<string>)

  /** What a run does to the file system, in order; artifacts are given by their serialized content. */
  datatype Effect =
    | WroteShapes(features: seq<Shapes.Feature>)                      // shapes.geojson
    | WroteShapesPart(number: nat, features: seq<Shapes.Feature>)     // shapes_part_<number>.geojson
    | RemovedShapes                                                   // shapes.geojson unlinked
    | WroteStopTimes(trips: seq<StopTimes.Trip>)                      // stop_times_summary.json
    | WroteStopTimesPart(number: nat, trips: seq<StopTimes.Trip>)     // stop_times_part_<number>.json
    | RemovedStopTimes                                                // stop_times_summary.json unlinked
    | Recorded(key: string, time: int)                                // the ledger rewritten with key := time

  /** The features the shapes stage builds from the file's lines. */
  function ShapeFeatures(lines: seq<string>): seq<Shapes.Feature> {
    Shapes.Features(Grouping.Group(Shapes.PointsByShape(lines)))
  }

  function ShapesPartWrites(parts: seq<Part<Shapes.Feature>>): seq<Effect> {
    seq(|parts|, k requires 0 <= k < |parts| => WroteShapesPart(parts[k].number, parts[k].items))
  }

  /** The shapes stage on an existing file: full write, ledger update, the parts, then removal of the full file. */
  function ShapesEffects(lines: seq<string>, time: int): seq<Effect> {
    var features := ShapeFeatures(lines);
    [WroteShapes(features)] + [Recorded(ShapesKey, time)] + ShapesPartWrites(Parts(features)) + [RemovedShapes]
  }

  /** The trip object the stop-times stage builds from the file's lines. */
  function TripSummary(lines: seq<string>): JsObject<seq<StopTimes.Stop>> {
    var trips := Grouping.Group(StopTimes.StopsByTrip(lines));
    StopTimes.Summary(trips.order, trips.groups)
  }

  function StopTimesPartWrites(result: JsObject<seq<StopTimes.Stop>>, parts: seq<Part<string>>): seq<Effect> {
    seq(|parts|, k requires 0 <= k < |parts| =>
      WroteStopTimesPart(parts[k].number, StopTimes.Entries(StopTimes.ChunkOf(result, parts[k].items))))
  }

  lemma StopTimesPartWritesSnoc(result: JsObject<seq<StopTimes.Stop>>, parts: seq<Part<string>>, k: nat)
    requires k < |parts|
    ensures StopTimesPartWrites(result, parts[..k + 1]) == StopTimesPartWrites(result, parts[..k])
      + [WroteStopTimesPart(parts[k].number, StopTimes.Entries(StopTimes.ChunkOf(result, parts[k].items)))]
  {
  }

  /** The stop-times stage on an existing file, in the same four steps. */
  function StopTimesEffects(lines: seq<string>, time: int): seq<Effect> {
    SummaryEffects(TripSummary(lines), time)
  }

  function SummaryEffects(result: JsObject<seq<StopTimes.Stop>>, time: int): seq<Effect> {
    [WroteStopTimes(StopTimes.Entries(result))] + [Recorded(StopTimesKey, time)]
      + StopTimesPartWrites(result, Parts(OwnKeys(result.created))) + [RemovedStopTimes]
  }

  /**
   * The shapes stage writes the whole collection, then records the source
   * time, then writes parts 1, 2, ... of at most 1000 non-empty features
   * that together are the collection in order, then removes the whole file.
   */
  lemma ShapesEffectsOrder(lines: seq<string>, time: int)
    ensures var e := ShapesEffects(lines, time);
      var features := ShapeFeatures(lines);
      && |e| == PartCount(|features|) + 3
      && e[0] == WroteShapes(features)
      && e[1] == Recorded(ShapesKey, time)
      && e[|e| - 1] == RemovedShapes
      && (forall j :: 2 <= j < |e| - 1 ==>
            && e[j] == WroteShapesPart(j - 1, Parts(features)[j - 2].items)
            && 0 < |e[j].features| <= ChunkSize)
      && Concat(Parts(features)) == features
  {
    var features := ShapeFeatures(lines);
    ShapesSteps(ShapesEffects(lines, time), features, time);
    PartsConcatenate(features);
  }

  /** The four steps, for any feature collection. */
  lemma ShapesSteps(e: seq<Effect>, features: seq<Shapes.Feature>, time: int)
    requires e == [WroteShapes(features)] + [Recorded(ShapesKey, time)] + ShapesPartWrites(Parts(features)) + [RemovedShapes]
    ensures |e| == PartCount(|features|) + 3
    ensures e[0] == WroteShapes(features) && e[1] == Recorded(ShapesKey, time)
    ensures e[|e| - 1] == RemovedShapes
    ensures forall j :: 2 <= j < |e| - 1 ==>
      && e[j] == WroteShapesPart(j - 1, Parts(features)[j - 2].items)
      && 0 < |e[j].features| <= ChunkSize
  {
    var writes := ShapesPartWrites(Parts(features));
    PartSizes(features);
    forall j | 2 <= j < |e| - 1
      ensures e[j] == WroteShapesPart(j - 1, Parts(features)[j - 2].items)
      ensures 0 < |e[j].features| <= ChunkSize
    {
      assert e[j] == writes[j - 2];
    }
  }

  /**
   * The stop-times stage writes the whole summary, then records the source
   * time, then writes parts 1, 2, ..., each serializing to its run of at
   * most 1000 consecutive trips of the summary, then removes the whole file.
   */
  lemma StopTimesEffectsOrder(lines: seq<string>, time: int)
    ensures var e := StopTimesEffects(lines, time);
      var trips := StopTimes.Entries(TripSummary(lines));
      && |e| == PartCount(|trips|) + 3
      && e[0] == WroteStopTimes(trips)
      && e[1] == Recorded(StopTimesKey, time)
      && e[|e| - 1] == RemovedStopTimes
      && (forall j :: 2 <= j < |e| - 1 ==>
            && e[j] == WroteStopTimesPart(j - 1, Parts(trips)[j - 2].items)
            && 0 < |e[j].trips| <= ChunkSize)
      && Concat(Parts(trips)) == trips
  {
    var g := Grouping.Group(StopTimes.StopsByTrip(lines));
    StopTimes.SummaryValid(g.order, g.groups);
    SummaryEffectsOrder(TripSummary(lines), time);
  }

  lemma SummaryEffectsOrder(result: JsObject<seq<StopTimes.Stop>>, time: int)
    requires JsObjects.Valid(result)
    ensures var e := SummaryEffects(result, time);
      var trips := StopTimes.Entries(result);
      && |e| == PartCount(|trips|) + 3
      && e[0] == WroteStopTimes(trips)
      && e[1] == Recorded(StopTimesKey, time)
      && e[|e| - 1] == RemovedStopTimes
      && (forall j :: 2 <= j < |e| - 1 ==>
            && e[j] == WroteStopTimesPart(j - 1, Parts(trips)[j - 2].items)
            && 0 < |e[j].trips| <= ChunkSize)
      && Concat(Parts(trips)) == trips
  {
    var trips := StopTimes.Entries(result);
    var writes := StopTimesPartWrites(result, Parts(OwnKeys(result.created)));
    PartWritesAreSlices(result);
    StopTimesSteps(SummaryEffects(result, time), trips, writes, time);
    PartsConcatenate(trips);
  }

  /** The four steps, for any summary and any part writes that are its runs in order. */
  lemma StopTimesSteps(e: seq<Effect>, trips: seq<StopTimes.Trip>, writes: seq<Effect>, time: int)
    requires e == [WroteStopTimes(trips)] + [Recorded(StopTimesKey, time)] + writes + [RemovedStopTimes]
    requires |writes| == |Parts(trips)|
    requires forall k :: 0 <= k < |writes| ==> writes[k] == WroteStopTimesPart(k + 1, Parts(trips)[k].items)
    ensures |e| == PartCount(|trips|) + 3
    ensures e[0] == WroteStopTimes(trips) && e[1] == Recorded(StopTimesKey, time)
    ensures e[|e| - 1] == RemovedStopTimes
    ensures forall j :: 2 <= j < |e| - 1 ==>
      && e[j] == WroteStopTimesPart(j - 1, Parts(trips)[j - 2].items)
      && 0 < |e[j].trips| <= ChunkSize
  {
    PartSizes(trips);
    forall j | 2 <= j < |e| - 1
      ensures e[j] == WroteStopTimesPart(j - 1, Parts(trips)[j - 2].items)
      ensures 0 < |e[j].trips| <= ChunkSize
    {
      assert e[j] == writes[j - 2];
    }
  }

  /** Chunk `k + 1` holds the `k`-th run of the summary's trips. */
  lemma PartWritesAreSlices(result: JsObject<seq<StopTimes.Stop>>)
    requires JsObjects.Valid(result)
    ensures var writes := StopTimesPartWrites(result, Parts(OwnKeys(result.created)));
      var parts := Parts(StopTimes.Entries(result));
      && |writes| == |parts|
      && forall k :: 0 <= k < |writes| ==> writes[k] == WroteStopTimesPart(k + 1, parts[k].items)
  {
    var keys := OwnKeys(result.created);
    assert |StopTimes.Entries(result)| == |keys|;
    forall k | 0 <= k < |Parts(keys)|
      ensures StopTimesPartWrites(result, Parts(keys))[k]
        == WroteStopTimesPart(k + 1, Parts(StopTimes.Entries(result))[k].items)
    {
      StopTimes.ChunkSerializesSlice(result, k);
    }
  }

  /** A stage run: nothing at all when the file is missing, since reading it fails before any write. */
  function ShapesRun(source: Source): seq<Effect> {
    if source.mtime.None? then [] else ShapesEffects(source.lines, source.mtime.value)
  }

  function StopTimesRun(source: Source): seq<Effect> {
    if source.mtime.None? then [] else StopTimesEffects(source.lines, source.mtime.value)
  }

  /** The ledger after a stage for `key` ran on `source`. */
  function After(ledger: map<string, int>, key: string, source: Source): map<string, int> {
    if source.mtime.None? then ledger else ledger[key := source.mtime.value]
  }

  /** `parseShapes()`; `ok` is false when the stage throws because the file is missing. */
  method ParseShapes(status: StatusFile, source: Source) returns (effects: seq<Effect>, ok: bool)
    modifies status
    ensures ok == source.mtime.Some?
    ensures effects == ShapesRun(source)
    ensures !ok ==> unchanged(status)
    ensures ok ==> status.Load() == After(old(status.Load()), ShapesKey, source)
  {
    if source.mtime.None? {
      return [], false;
    }
    var time := source.mtime.value;
    var routes := Shapes.CollectShapes(source.lines);
    var features := Shapes.Features(routes);
    effects := [WroteShapes(features)];
    status.Save(ShapesKey, time);
    effects := effects + [Recorded(ShapesKey, time)];
    var parts := SplitIntoParts(features);
    effects := effects + ShapesPartWrites(parts) + [RemovedShapes];
    ok := true;
  }

  /** `summarizeStopTimes()`, with the chunk loop filling one fresh object per part. */
  method SummarizeStopTimes(status: StatusFile, source: Source) returns (effects: seq<Effect>, ok: bool)
    modifies status
    ensures ok == source.mtime.Some?
    ensures effects == StopTimesRun(source)
    ensures !ok ==> unchanged(status)
    ensures ok ==> status.Load() == After(old(status.Load()), StopTimesKey, source)
  {
    if source.mtime.None? {
      return [], false;
    }
    var time := source.mtime.value;
    var trips := StopTimes.CollectTrips(source.lines);
    var result := StopTimes.Summarize(trips);
    assert result == TripSummary(source.lines);
    effects := [WroteStopTimes(StopTimes.Entries(result))];
    status.Save(StopTimesKey, time);
    effects := effects + [Recorded(StopTimesKey, time)];
    var tripIds := OwnKeys(result.created);
    var parts := SplitIntoParts(tripIds);
    var writes: seq<Effect> := [];
    for k := 0 to |parts|
      invariant writes == StopTimesPartWrites(result, parts[..k])
      modifies {}
    {
      var chunk := StopTimes.BuildChunk(result, parts[k].items);
      StopTimesPartWritesSnoc(result, parts, k);
      writes := writes + [WroteStopTimesPart(parts[k].number, StopTimes.Entries(chunk))];
    }
    assert parts[..|parts|] == parts;
    effects := effects + writes + [RemovedStopTimes];
    ok := true;
  }

  /**
   * `main()`: each stage runs when forced or when its source is newer than
   * its ledger entry; a stage that throws ends the run, so the later stage
   * does not run.
   */
  method Run(status: StatusFile, force: bool, shapes: Source, stopTimes: Source)
    returns (effects: seq<Effect>, ok: bool)
    modifies status
    ensures var runShapes := force || old(status.IsStale(ShapesKey, shapes.mtime));
      var runStopTimes := force || old(status.IsStale(StopTimesKey, stopTimes.mtime));
      var shapesOk := !runShapes || shapes.mtime.Some?;
      && ok == (shapesOk && (!runStopTimes || stopTimes.mtime.Some?))
      && effects == (if runShapes then ShapesRun(shapes) else [])
                    + (if shapesOk && runStopTimes then StopTimesRun(stopTimes) else [])
      && status.Load() ==
           (var afterShapes := if runShapes then After(old(status.Load()), ShapesKey, shapes) else old(status.Load());
            if shapesOk && runStopTimes then After(afterShapes, StopTimesKey, stopTimes) else afterShapes)
    ensures ok ==> !status.IsStale(ShapesKey, shapes.mtime) && !status.IsStale(StopTimesKey, stopTimes.mtime)
  {
    effects := [];
    ghost var ledger := status.Load();
    if force || status.IsStale(ShapesKey, shapes.mtime) {
      effects, ok := ParseShapes(status, shapes);
      if !ok {
        return;
      }
    }
    assert status.IsStale(StopTimesKey, stopTimes.mtime) == old(status.IsStale(StopTimesKey, stopTimes.mtime));
    if force || status.IsStale(StopTimesKey, stopTimes.mtime) {
      var more;
      more, ok := SummarizeStopTimes(status, stopTimes);
      effects := effects + more;
      if !ok {
        return;
      }
    }
    ok := true;
  }
}
