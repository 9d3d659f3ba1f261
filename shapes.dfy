/**
 * The shapes stage of the transit script: rows of `shapes.txt` grouped by
 * `shape_id` in first-seen order, each group sorted by `shape_pt_sequence`
 * and emitted as one GeoJSON `LineString` feature.
 */
module Shapes {
  import opened Wrappers
  import opened Numbers
  import opened Transcode
  import opened Streaming
  import opened Grouping
  import opened Sorting

  /**
   * `{ lat, lon, seq }`: the coordinate fields as read (number parsing is not
   * modelled), and the sequence number `parseInt` gives, with no number read as 0.
   */
  datatype Point = Point(lat: Option<string>, lon: Option<string>, sequence: int)

  /** A GeoJSON position, longitude first. */
  datatype Position = Position(lon: Option<string>, lat: Option<string>)

  /** A `LineString` feature whose only property is `shape_id`. */
  datatype Feature = Feature(shapeId: Option<string>, coordinates: seq<Position>)

  function PointOf(entry: Entry): Point {
    Point(Field(entry, "shape_pt_lat"), Field(entry, "shape_pt_lon"),
          ParseInt(Field(entry, "shape_pt_sequence")).GetOr(0))
  }

  /**
   * A point keeps its coordinate cells and takes as its sequence number the
   * numeral of `shape_pt_sequence`, read past leading white space and an
   * optional sign, whatever follows it.
   */
  lemma PointOfReadsSequence(entry: Entry, space: string, sign: string, digits: string, rest: string)
    requires AllWhiteSpace(space)
    requires sign == "" || sign == "+" || sign == "-"
    requires |digits| > 0 && AllDigits(digits)
    requires |rest| == 0 || !IsDigit(rest[0])
    requires Field(entry, "shape_pt_sequence") == Some(space + sign + digits + rest)
    ensures PointOf(entry).lat == Field(entry, "shape_pt_lat")
    ensures PointOf(entry).lon == Field(entry, "shape_pt_lon")
    ensures PointOf(entry).sequence == Signed(sign == "-", DecimalValue(digits))
  {
    ParseIntReads(space, sign, digits, rest);
  }

  /** A missing `shape_pt_sequence`, or one without a digit, gives sequence number 0. */
  lemma PointOfUnreadableSequence(entry: Entry)
    requires match Field(entry, "shape_pt_sequence")
             case None => true
             case Some(cell) => forall i :: 0 <= i < |cell| ==> !IsDigit(cell[i])
    ensures PointOf(entry).sequence == 0
  {
    var cell := Field(entry, "shape_pt_sequence");
    if cell.Some? {
      ParseIntWithoutDigits(cell.value);
    }
  }

  /** The sort key of the comparator `(a, b) => a.seq - b.seq`. */
  function Sequence(p: Point): int {
    p.sequence
  }

  /** Every data row of the file as its `shape_id` and its point, in file order. */
  function PointsByShape(lines: seq<string>): seq<(Option<string>, Point)> {
    KeyedRows(lines, "shape_id", PointOf)
  }

  /**
   * The streaming loop building `routes`: the group-by of the file's points
   * by shape id (whose order and contents `GroupFacts` states), with one
   * point per data line altogether.
   */
  method CollectShapes(lines: seq<string>) returns (routes: Grouped<Option<string>, Point>)
    ensures routes == Group(PointsByShape(lines))
    ensures Total(routes.order, routes.groups) == if |lines| == 0 then 0 else |lines| - 1
  {
    routes := GroupRows(lines, "shape_id", PointOf);
    GroupTotal(PointsByShape(lines));
  }

  /** `sorted.map(p => [p.lon, p.lat])`. */
  function Coordinates(points: seq<Point>): seq<Position> {
    seq(|points|, i requires 0 <= i < |points| => Position(points[i].lon, points[i].lat))
  }

  /** One shape's feature: its points sorted by sequence number, as positions. */
  function FeatureOf(id: Option<string>, points: seq<Point>): Feature {
    Feature(id, Coordinates(SortBy(points, Sequence)))
  }

  /** `Array.from(routes.entries()).map(...)`: one feature per shape, in the map's order. */
  function Features(routes: Grouped<Option<string>, Point>): seq<Feature> {
    seq(|routes.order|, i requires 0 <= i < |routes.order| =>
      FeatureOf(routes.order[i], GroupOf(routes.groups, routes.order[i])))
  }

  /**
   * A feature's coordinates are its points rearranged ascending by sequence
   * number, points with the same number kept in file order, each written as
   * `[lon, lat]`: nothing is added, dropped or reordered beyond that.
   */
  lemma FeatureOrdersPoints(id: Option<string>, points: seq<Point>)
    ensures var sorted := SortBy(points, Sequence);
      && SortedBy(sorted, Sequence)
      && multiset(sorted) == multiset(points)
      && (forall v :: WithKey(sorted, Sequence, v) == WithKey(points, Sequence, v))
      && FeatureOf(id, points).shapeId == id
      && |FeatureOf(id, points).coordinates| == |points|
      && forall j :: 0 <= j < |points| ==>
           FeatureOf(id, points).coordinates[j] == Position(sorted[j].lon, sorted[j].lat)
  {
    SortByCorrect(points, Sequence);
  }

  /** One feature per shape id, in the order the ids first occur among the rows. */
  lemma FeaturesInFirstSeenOrder(items: seq<(Option<string>, Point)>)
    ensures |Features(Group(items))| == |Group(items).order|
    ensures forall i, j :: 0 <= i < j < |Features(Group(items))| ==>
      FirstIndex(items, Features(Group(items))[i].shapeId) < FirstIndex(items, Features(Group(items))[j].shapeId)
  {
    GroupFacts(items);
  }

  /** Every row's shape id has a feature. */
  lemma EveryShapeHasFeature(items: seq<(Option<string>, Point)>, r: nat)
    requires r < |items|
    ensures exists i :: 0 <= i < |Features(Group(items))| && Features(Group(items))[i].shapeId == items[r].0
  {
    var g := Group(items);
    GroupFacts(items);
    FirstIndexBound(items, items[r].0, r);
    assert items[r].0 in g.order;
    var i :| 0 <= i < |g.order| && g.order[i] == items[r].0;
    assert Features(g)[i].shapeId == items[r].0;
  }

  /**
   * Feature `i` holds exactly the points of the rows carrying its shape id,
   * sorted stably by sequence number and written as `[lon, lat]`.
   */
  lemma FeatureHoldsItsRows(items: seq<(Option<string>, Point)>, i: nat)
    requires i < |Features(Group(items))|
    ensures var id := Features(Group(items))[i].shapeId;
      var sorted := SortBy(ValuesFor(items, id), Sequence);
      && SortedBy(sorted, Sequence)
      && multiset(sorted) == multiset(ValuesFor(items, id))
      && (forall v :: WithKey(sorted, Sequence, v) == WithKey(ValuesFor(items, id), Sequence, v))
      && Features(Group(items))[i].coordinates == Coordinates(sorted)
  {
    var g := Group(items);
    var id := g.order[i];
    GroupFacts(items);
    assert GroupOf(g.groups, id) == ValuesFor(items, id);
    SortByCorrect(ValuesFor(items, id), Sequence);
  }
}
