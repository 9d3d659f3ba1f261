/**
 * The stop-times stage of the transit script: rows of `stop_times.txt`
 * grouped by `trip_id` in first-seen order into a plain object, which is
 * serialized whole and then in chunks of 1000 trips.
 */
module StopTimes {
  import opened Wrappers
  import opened Transcode
  import opened Streaming
  import opened Grouping
  import opened JsObjects
  import opened Chunking

  /** `{ stop: stopId, arrival: time }`, both fields as read. */
  datatype Stop = Stop(stop: Option<string>, arrival: Option<string>)

  /** A serialized trip: its property name and its stops. */
  type Trip = (string, seq<Stop>)

  function StopOf(entry: Entry): Stop {
    Stop(Field(entry, "stop_id"), Field(entry, "arrival_time"))
  }

  /** Every data row of the file as its `trip_id` and its stop, in file order. */
  function StopsByTrip(lines: seq<string>): seq<(Option<string>, Stop)> {
    KeyedRows(lines, "trip_id", StopOf)
  }

  /**
   * The streaming loop building `trips`: the group-by of the file's stops by
   * trip id (whose order and contents `GroupFacts` states; stops are never
   * sorted), with one stop per data line altogether.
   */
  method CollectTrips(lines: seq<string>) returns (trips: Grouped<Option<string>, Stop>)
    ensures trips == Group(StopsByTrip(lines))
    ensures Total(trips.order, trips.groups) == if |lines| == 0 then 0 else |lines| - 1
  {
    trips := GroupRows(lines, "trip_id", StopOf);
    GroupTotal(StopsByTrip(lines));
  }

  /** A trip id used as a property name: a missing `trip_id` becomes "undefined". */
  function PropertyKey(id: Option<string>): string {
    match id
    case None => "undefined"
    case Some(s) => s
  }

  /** `result` after `result[tripId] = stops` for each map entry in order. */
  function Summary(order: seq<Option<string>>, groups: map<Option<string>, seq<Stop>>): JsObject<seq<Stop>>
    decreases |order|
  {
    if |order| == 0 then JsObject([], map[])
    else
      var last := order[|order| - 1];
      Assign(Summary(order[..|order| - 1], groups), PropertyKey(last), GroupOf(groups, last))
  }

  /** The `for ... of trips.entries()` loop copying the map into a plain object. */
  method Summarize(trips: Grouped<Option<string>, Stop>) returns (result: JsObject<seq<Stop>>)
    ensures result == Summary(trips.order, trips.groups)
  {
    result := JsObject([], map[]);
    for i := 0 to |trips.order|
      invariant result == Summary(trips.order[..i], trips.groups)
    {
      assert trips.order[..i + 1][..i] == trips.order[..i];
      var tripId := trips.order[i];
      result := Assign(result, PropertyKey(tripId), GroupOf(trips.groups, tripId));
    }
    assert trips.order[..|trips.order|] == trips.order;
  }

  /** `o[key]`, or no stops for a key the object lacks. */
  function Prop(o: JsObject<seq<Stop>>, key: string): seq<Stop> {
    GroupOf(o.props, key)
  }

  /** `JSON.stringify(o)` of a trip object: its properties in `Object.keys` order. */
  function Entries(o: JsObject<seq<Stop>>): seq<Trip> {
    var keys := OwnKeys(o.created);
    seq(|keys|, i requires 0 <= i < |keys| => (keys[i], Prop(o, keys[i])))
  }

  /** A chunk: `ids.forEach(id => { chunk[id] = result[id]; })` into a fresh object. */
  function ChunkOf(result: JsObject<seq<Stop>>, ids: seq<string>): JsObject<seq<Stop>>
    decreases |ids|
  {
    if |ids| == 0 then JsObject([], map[])
    else
      var last := ids[|ids| - 1];
      Assign(ChunkOf(result, ids[..|ids| - 1]), last, Prop(result, last))
  }

  /** The `forEach` filling one chunk. */
  method BuildChunk(result: JsObject<seq<Stop>>, ids: seq<string>) returns (chunk: JsObject<seq<Stop>>)
    ensures chunk == ChunkOf(result, ids)
  {
    chunk := JsObject([], map[]);
    for i := 0 to |ids|
      invariant chunk == ChunkOf(result, ids[..i])
    {
      assert ids[..i + 1][..i] == ids[..i];
      chunk := Assign(chunk, ids[i], Prop(result, ids[i]));
    }
    assert ids[..|ids|] == ids;
  }

  /** The object is well formed: each property created once, and every created one present. */
  lemma {:induction false} SummaryValid(order: seq<Option<string>>, groups: map<Option<string>, seq<Stop>>)
    ensures JsObjects.Valid(Summary(order, groups))
    decreases |order|
  {
    if |order| > 0 {
      SummaryValid(order[..|order| - 1], groups);
    }
  }

  /**
   * When every row has a trip id, the object has one property per trip, created
   * in the map's order, each holding that trip's stops.
   */
  lemma {:induction false} SummaryOfNamedTrips(order: seq<Option<string>>, groups: map<Option<string>, seq<Stop>>)
    requires Distinct(order)
    requires forall i :: 0 <= i < |order| ==> order[i].Some?
    ensures NamedTrips(Summary(order, groups), order, groups)
    decreases |order|
  {
    if |order| > 0 {
      var prefix, last := order[..|order| - 1], order[|order| - 1];
      assert Distinct(prefix) && forall i :: 0 <= i < |prefix| ==> prefix[i] == order[i];
      SummaryOfNamedTrips(prefix, groups);
      SummaryValid(prefix, groups);
      assert forall i :: 0 <= i < |prefix| ==> prefix[i] != last;
      AssignNewTrip(Summary(prefix, groups), prefix, last, groups);
      assert prefix + [last] == order;
    }
  }

  /** `o` holds, in creation order, one property per trip of `order`, with its stops. */
  predicate NamedTrips(o: JsObject<seq<Stop>>, order: seq<Option<string>>, groups: map<Option<string>, seq<Stop>>) {
    && (forall i :: 0 <= i < |order| ==> order[i].Some?)
    && |o.created| == |order|
    && (forall i :: 0 <= i < |order| ==> o.created[i] == order[i].value)
    && forall i :: 0 <= i < |order| ==> order[i].value in o.props && o.props[order[i].value] == GroupOf(groups, order[i])
  }

  /** The step of the induction above: a trip that is new is appended. */
  lemma AssignNewTrip(o: JsObject<seq<Stop>>, order: seq<Option<string>>, last: Option<string>, groups: map<Option<string>, seq<Stop>>)
    requires JsObjects.Valid(o) && NamedTrips(o, order, groups) && last.Some?
    requires forall i :: 0 <= i < |order| ==> order[i] != last
    ensures NamedTrips(Assign(o, last.value, GroupOf(groups, last)), order + [last], groups)
  {
    assert last.value !in o.props by {
      forall i | 0 <= i < |o.created| ensures o.created[i] != last.value {
        assert order[i] != last;
      }
    }
    var after := Assign(o, last.value, GroupOf(groups, last));
    var names := order + [last];
    forall i | 0 <= i < |names|
      ensures names[i].value in after.props && after.props[names[i].value] == GroupOf(groups, names[i])
    {
      if i < |order| {
        assert names[i] == order[i] && order[i] != last;
      }
    }
  }

  /**
   * When every trip id is present and none reads as an array index, the
   * summary lists the trips in the order their ids first occur in the file.
   */
  lemma SummaryEntriesInMapOrder(order: seq<Option<string>>, groups: map<Option<string>, seq<Stop>>)
    requires Distinct(order)
    requires forall i :: 0 <= i < |order| ==> order[i].Some? && !IsArrayIndex(order[i].value)
    ensures Entries(Summary(order, groups)) ==
      seq(|order|, i requires 0 <= i < |order| => (order[i].value, GroupOf(groups, order[i])))
  {
    SummaryOfNamedTrips(order, groups);
    OwnKeysWithoutIndices(Summary(order, groups).created);
  }

  /**
   * Last write wins: the property named `key` holds the stops of the last map
   * entry whose trip id reads as `key`.
   */
  lemma {:induction false} SummaryLastWriteWins(order: seq<Option<string>>, groups: map<Option<string>, seq<Stop>>, key: string, j: nat)
    requires j < |order| && PropertyKey(order[j]) == key
    requires forall i :: j < i < |order| ==> PropertyKey(order[i]) != key
    ensures Prop(Summary(order, groups), key) == GroupOf(groups, order[j])
    decreases |order|
  {
    if j < |order| - 1 {
      var prefix := order[..|order| - 1];
      assert forall i :: j < i < |prefix| ==> prefix[i] == order[i];
      SummaryLastWriteWins(prefix, groups, key, j);
    }
  }

  /**
   * Rows without a `trip_id` and rows whose `trip_id` is the text "undefined"
   * end up in one property: the stops of whichever of the two map entries
   * comes later replace the other's.
   */
  lemma UndefinedTripsCollide(order: seq<Option<string>>, groups: map<Option<string>, seq<Stop>>, missing: nat, named: nat)
    requires Distinct(order)
    requires missing < |order| && order[missing] == None
    requires named < |order| && order[named] == Some("undefined")
    ensures missing < named ==> Prop(Summary(order, groups), "undefined") == GroupOf(groups, Some("undefined"))
    ensures named < missing ==> Prop(Summary(order, groups), "undefined") == GroupOf(groups, None)
  {
    var j := if missing < named then named else missing;
    forall i | j < i < |order| ensures PropertyKey(order[i]) != "undefined" {
      assert order[i] != order[missing] && order[i] != order[named];
    }
    SummaryLastWriteWins(order, groups, "undefined", j);
  }

  /** A rearrangement of a sequence without repeats has no repeats either. */
  lemma {:induction false} DistinctByMultiset<T>(s: seq<T>, t: seq<T>)
    requires Distinct(s) && multiset(s) == multiset(t)
    ensures Distinct(t)
  {
    forall x ensures multiset(s)[x] <= 1 {
      DistinctCounts(s, x);
    }
    forall i, j | 0 <= i < j < |t| ensures t[i] != t[j] {
      TwiceCounted(t, i, j);
    }
  }

  lemma TwiceCounted<T>(t: seq<T>, i: nat, j: nat)
    requires i < j < |t|
    ensures t[i] == t[j] ==> multiset(t)[t[i]] >= 2
  {
    assert t == t[..i] + [t[i]] + t[i + 1..j] + [t[j]] + t[j + 1..];
  }

  lemma {:induction false} DistinctCounts<T>(s: seq<T>, x: T)
    requires Distinct(s)
    ensures multiset(s)[x] <= 1
    decreases |s|
  {
    if |s| > 0 {
      assert s == [s[0]] + s[1..];
      DistinctCounts(s[1..], x);
      if s[0] == x {
        assert x !in s[1..];
      }
    }
  }

  /** Filling a chunk from distinct ids creates them in that order, each with the source's stops. */
  lemma {:induction false} ChunkOfDistinct(result: JsObject<seq<Stop>>, ids: seq<string>)
    requires Distinct(ids)
    ensures ChunkOf(result, ids).created == ids
    ensures forall i :: 0 <= i < |ids| ==> Prop(ChunkOf(result, ids), ids[i]) == Prop(result, ids[i])
    decreases |ids|
  {
    if |ids| > 0 {
      var prefix, last := ids[..|ids| - 1], ids[|ids| - 1];
      assert Distinct(prefix) && last !in prefix;
      ChunkOfDistinct(result, prefix);
      ChunkOfValid(result, prefix);
      AssignNewId(result, ChunkOf(result, prefix), prefix, last);
      assert prefix + [last] == ids;
    }
  }

  /** The step of the induction above: an id that is new is appended with the source's stops. */
  lemma AssignNewId(result: JsObject<seq<Stop>>, chunk: JsObject<seq<Stop>>, ids: seq<string>, last: string)
    requires JsObjects.Valid(chunk) && chunk.created == ids && last !in ids
    requires forall i :: 0 <= i < |ids| ==> Prop(chunk, ids[i]) == Prop(result, ids[i])
    ensures Assign(chunk, last, Prop(result, last)).created == ids + [last]
    ensures forall i :: 0 <= i < |ids| + 1 ==>
      Prop(Assign(chunk, last, Prop(result, last)), (ids + [last])[i]) == Prop(result, (ids + [last])[i])
  {
    var after := Assign(chunk, last, Prop(result, last));
    forall i | 0 <= i < |ids| + 1
      ensures Prop(after, (ids + [last])[i]) == Prop(result, (ids + [last])[i])
    {
      if i < |ids| {
        assert (ids + [last])[i] == ids[i] != last;
      }
    }
  }

  lemma {:induction false} ChunkOfValid(result: JsObject<seq<Stop>>, ids: seq<string>)
    ensures JsObjects.Valid(ChunkOf(result, ids))
    decreases |ids|
  {
    if |ids| > 0 {
      ChunkOfValid(result, ids[..|ids| - 1]);
    }
  }

  /** The trips of an object, listed in the given key order. */
  function TripsAt(o: JsObject<seq<Stop>>, keys: seq<string>): seq<Trip> {
    seq(|keys|, i requires 0 <= i < |keys| => (keys[i], Prop(o, keys[i])))
  }

  /** A chunk filled from distinct ids already in `Object.keys` order serializes in that order. */
  lemma ChunkEntries(result: JsObject<seq<Stop>>, ids: seq<string>)
    requires Distinct(ids) && OwnKeys(ids) == ids
    ensures Entries(ChunkOf(result, ids)) == TripsAt(result, ids)
  {
    ChunkOfDistinct(result, ids);
  }

  /** A run of the whole summary's entries is the trips of that run of its keys. */
  lemma EntriesRun(result: JsObject<seq<Stop>>, b: nat, e: nat)
    requires b <= e <= |OwnKeys(result.created)|
    ensures Entries(result)[b..e] == TripsAt(result, OwnKeys(result.created)[b..e])
  {
  }

  /**
   * Each stop-times chunk serializes to exactly its slice of the whole
   * summary: the same trips, in the same order, with the same stops.
   */
  lemma ChunkSerializesSlice(result: JsObject<seq<Stop>>, k: nat)
    requires JsObjects.Valid(result)
    requires k < |Parts(OwnKeys(result.created))|
    ensures Entries(ChunkOf(result, Parts(OwnKeys(result.created))[k].items)) == Parts(Entries(result))[k].items
  {
    var keys := OwnKeys(result.created);
    var b, e := Min(k * ChunkSize, |keys|), Min(k * ChunkSize + ChunkSize, |keys|);
    var ids := keys[b..e];
    assert Parts(keys)[k].items == ids;
    assert Distinct(ids) by {
      OwnKeysDistinct(result);
      DistinctRun(keys, b, e);
    }
    ChunkKeysKeepOrder(result.created, b, e);
    ChunkEntries(result, ids);
    EntriesRun(result, b, e);
    assert Parts(Entries(result))[k].items == Entries(result)[b..e];
  }

  /** `Object.keys` of a well-formed object lists each property once. */
  lemma OwnKeysDistinct(result: JsObject<seq<Stop>>)
    requires JsObjects.Valid(result)
    ensures Distinct(OwnKeys(result.created))
  {
    OwnKeysPermutes(result.created);
    DistinctByMultiset(result.created, OwnKeys(result.created));
  }

  lemma DistinctRun<T>(s: seq<T>, b: nat, e: nat)
    requires Distinct(s) && b <= e <= |s|
    ensures Distinct(s[b..e])
  {
    assert forall i :: 0 <= i < e - b ==> s[b..e][i] == s[b + i];
  }

  /** The serializations of the chunks filled from `parts`, concatenated in part order. */
  function ChunksConcat(result: JsObject<seq<Stop>>, parts: seq<Part<string>>): seq<Trip>
    decreases |parts|
  {
    if |parts| == 0 then []
    else ChunksConcat(result, parts[..|parts| - 1]) + Entries(ChunkOf(result, parts[|parts| - 1].items))
  }

  /**
   * Read in part order, the chunks the loop fills from the runs of
   * `Object.keys` give back the whole summary: the same trips, in the same
   * order, with the same stops.
   */
  lemma ChunksCoverSummary(result: JsObject<seq<Stop>>)
    requires JsObjects.Valid(result)
    ensures ChunksConcat(result, Parts(OwnKeys(result.created))) == Entries(result)
  {
    var keys := Parts(OwnKeys(result.created));
    ChunksConcatPrefix(result, |keys|);
    assert keys[..|keys|] == keys;
    assert Parts(Entries(result))[..|keys|] == Parts(Entries(result));
    PartsConcatenate(Entries(result));
  }

  lemma {:induction false} ChunksConcatPrefix(result: JsObject<seq<Stop>>, n: nat)
    requires JsObjects.Valid(result)
    requires n <= |Parts(OwnKeys(result.created))|
    ensures ChunksConcat(result, Parts(OwnKeys(result.created))[..n]) == Concat(Parts(Entries(result))[..n])
    decreases n
  {
    if n > 0 {
      var keys, trips := Parts(OwnKeys(result.created)), Parts(Entries(result));
      ChunksConcatPrefix(result, n - 1);
      assert keys[..n][..n - 1] == keys[..n - 1];
      assert trips[..n][..n - 1] == trips[..n - 1];
      ChunkSerializesSlice(result, n - 1);
    }
  }
}
