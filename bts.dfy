/**
 * The flight-segment build script: passenger counts of the segment file
 * summed per (origin, destination) pair for the three Washington-area
 * origins, rounded once at emission, and written as `airline_flows.json`.
 */
module Bts {
  import opened Wrappers
  import opened Text
  import opened Grouping
  import opened Ledger

  /** The ledger key of the segment file. */
  const SegmentKey: string := "T_T100D_SEGMENT_ALL_CARRIER.csv"

  /** The origins whose segments are kept. */
  const RelevantAirports: set<string> := {"DCA", "IAD", "BWI"}

  /** A CSV row as the CSV parser delivers it: column name to cell text. */
  type CsvRow = map<string, string>

  /** A JavaScript number as the sums see it: a finite value or NaN. */
  datatype Number = NaN | Finite(value: real)

  /** `relevantAirports.has(origin) && dest`: a relevant origin and a non-empty destination. */
  predicate Contributes(row: CsvRow) {
    && Lookup(row, "ORIGIN").Some? && Lookup(row, "ORIGIN").value in RelevantAirports
    && Lookup(row, "DEST").Some? && Lookup(row, "DEST").value != ""
  }

  /**
   * `parseFloat(row['PASSENGERS'] || 0)`: a missing or empty cell reads 0;
   * any other cell is given to the number parser, which may yield NaN.
   */
  function ParsedPassengers(row: CsvRow, parseFloat: string -> Number): (n: Number)
    ensures Lookup(row, "PASSENGERS") in {None, Some("")} ==> n == Finite(0.0)
    ensures n.NaN? ==> Lookup(row, "PASSENGERS").Some? && parseFloat(row["PASSENGERS"]).NaN?
    ensures Lookup(row, "PASSENGERS").Some? && row["PASSENGERS"] != "" ==> n == parseFloat(row["PASSENGERS"])
  {
    var cell := Lookup(row, "PASSENGERS");
    if cell.None? || cell.value == "" then Finite(0.0) else parseFloat(cell.value)
  }

  /** The passengers a row adds to its route: a cell the parser rejects counts as 0. */
  function Passengers(row: CsvRow, parseFloat: string -> Number): real {
    match ParsedPassengers(row, parseFloat)
    case NaN => 0.0
    case Finite(x) => x
  }

  /** `origin + '-' + dest`. */
  function RouteKey(origin: string, dest: string): string {
    origin + "-" + dest
  }

  /** What the `'data'` handler adds for a contributing row: its route key and passengers. */
  function Item(row: CsvRow, parseFloat: string -> Number): (string, real)
    requires Contributes(row)
  {
    (RouteKey(row["ORIGIN"], row["DEST"]), Passengers(row, parseFloat))
  }

  /** `item` is the item of a contributing `row`. */
  predicate ItemOfRow(item: (string, real), row: CsvRow, parseFloat: string -> Number) {
    Contributes(row) && item == Item(row, parseFloat)
  }

  /** `item` is the item of some contributing row of `rows`. */
  predicate FromSomeRow(item: (string, real), rows: seq<CsvRow>, parseFloat: string -> Number) {
    exists r :: 0 <= r < |rows| && ItemOfRow(item, rows[r], parseFloat)
  }

  /** The contributing rows, in file order, as (route key, passengers). */
  function RouteItems(rows: seq<CsvRow>, parseFloat: string -> Number): seq<(string, real)>
    decreases |rows|
  {
    if |rows| == 0 then []
    else
      var row := rows[|rows| - 1];
      RouteItems(rows[..|rows| - 1], parseFloat)
        + if Contributes(row) then [Item(row, parseFloat)] else []
  }

  /**
   * Exactly the contributing rows are summed: every item is the item of a
   * contributing row, and every contributing row's item is there.
   */
  lemma RouteItemsOfContributingRows(rows: seq<CsvRow>, parseFloat: string -> Number)
    ensures forall j :: 0 <= j < |RouteItems(rows, parseFloat)| ==> FromSomeRow(RouteItems(rows, parseFloat)[j], rows, parseFloat)
    ensures forall r :: 0 <= r < |rows| && Contributes(rows[r]) ==> Item(rows[r], parseFloat) in RouteItems(rows, parseFloat)
  {
    ItemsComeFromRows(rows, parseFloat);
    RowsYieldItems(rows, parseFloat);
  }

  lemma {:induction false} ItemsComeFromRows(rows: seq<CsvRow>, parseFloat: string -> Number)
    ensures forall j :: 0 <= j < |RouteItems(rows, parseFloat)| ==> FromSomeRow(RouteItems(rows, parseFloat)[j], rows, parseFloat)
    decreases |rows|
  {
    if |rows| > 0 {
      var prefix, row := rows[..|rows| - 1], rows[|rows| - 1];
      ItemsComeFromRows(prefix, parseFloat);
      var before := RouteItems(prefix, parseFloat);
      var items := RouteItems(rows, parseFloat);
      assert items == before + if Contributes(row) then [Item(row, parseFloat)] else [];
      forall j | 0 <= j < |items|
        ensures FromSomeRow(items[j], rows, parseFloat)
      {
        if j < |before| {
          var r :| 0 <= r < |prefix| && ItemOfRow(before[j], prefix[r], parseFloat);
          assert rows[r] == prefix[r];
          assert ItemOfRow(items[j], rows[r], parseFloat);
        } else {
          assert ItemOfRow(items[j], rows[|rows| - 1], parseFloat);
        }
      }
    }
  }

  lemma {:induction false} RowsYieldItems(rows: seq<CsvRow>, parseFloat: string -> Number)
    ensures forall r :: 0 <= r < |rows| && Contributes(rows[r]) ==> Item(rows[r], parseFloat) in RouteItems(rows, parseFloat)
    decreases |rows|
  {
    if |rows| > 0 {
      var prefix, row := rows[..|rows| - 1], rows[|rows| - 1];
      RowsYieldItems(prefix, parseFloat);
      var before := RouteItems(prefix, parseFloat);
      assert RouteItems(rows, parseFloat) == before + if Contributes(row) then [Item(row, parseFloat)] else [];
      assert forall r :: 0 <= r < |prefix| ==> rows[r] == prefix[r];
    }
  }

  function Sum(xs: seq<real>): real
    decreases |xs|
  {
    if |xs| == 0 then 0.0 else Sum(xs[..|xs| - 1]) + xs[|xs| - 1]
  }

  /** `routeMap`: route keys in insertion order and the running sum under each. */
  datatype RouteMap = RouteMap(order: seq<string>, sums: map<string, real>)

  /** The route map as a reference: the items grouped by key, each group summed. */
  function Totals(items: seq<(string, real)>): RouteMap {
    var g := Group(items);
    RouteMap(g.order, map k | k in g.groups :: Sum(g.groups[k]))
  }

  /** `routeMap.set(key, (routeMap.get(key) || 0) + passengers)`. */
  function AddTo(m: RouteMap, key: string, passengers: real): RouteMap {
    if key in m.sums then RouteMap(m.order, m.sums[key := m.sums[key] + passengers])
    else RouteMap(m.order + [key], m.sums[key := 0.0 + passengers])
  }

  lemma TotalsSnoc(items: seq<(string, real)>, key: string, passengers: real)
    ensures Totals(items + [(key, passengers)]) == AddTo(Totals(items), key, passengers)
  {
    var items' := items + [(key, passengers)];
    assert items'[..|items|] == items;
    var g := Group(items);
    assert Group(items') == Push(g, key, passengers);
    if key in g.groups {
      assert Sum(g.groups[key] + [passengers]) == Sum(g.groups[key]) + passengers by {
        assert (g.groups[key] + [passengers])[..|g.groups[key]|] == g.groups[key];
      }
    } else {
      assert Sum([passengers]) == 0.0 + passengers by {
        assert [passengers][..0] == [];
      }
    }
  }

  /**
   * The `'data'` handler over the whole file: the route map holds, for each
   * route key in order of first appearance, the unrounded sum of its rows'
   * passengers.
   */
  method AccumulateRoutes(rows: seq<CsvRow>, parseFloat: string -> Number) returns (routeMap: RouteMap)
    ensures routeMap == Totals(RouteItems(rows, parseFloat))
  {
    routeMap := RouteMap([], map[]);
    for i := 0 to |rows|
      invariant routeMap == Totals(RouteItems(rows[..i], parseFloat))
    {
      assert rows[..i + 1][..i] == rows[..i];
      var row := rows[i];
      assert RouteItems(rows[..i + 1], parseFloat) == RouteItems(rows[..i], parseFloat)
        + if Contributes(row) then [(RouteKey(row["ORIGIN"], row["DEST"]), Passengers(row, parseFloat))] else [];
      if Lookup(row, "ORIGIN").Some? && Lookup(row, "ORIGIN").value in RelevantAirports
        && Lookup(row, "DEST").Some? && Lookup(row, "DEST").value != ""
      {
        var key := RouteKey(row["ORIGIN"], row["DEST"]);
        TotalsSnoc(RouteItems(rows[..i], parseFloat), key, Passengers(row, parseFloat));
        routeMap := AddTo(routeMap, key, Passengers(row, parseFloat));
      } else {
        assert !Contributes(row);
        assert RouteItems(rows[..i + 1], parseFloat) == RouteItems(rows[..i], parseFloat);
      }
    }
    assert rows[..|rows|] == rows;
  }

  /** Each route's sum is the sum of the passengers of exactly the rows with its key. */
  lemma TotalsAreSums(items: seq<(string, real)>)
    ensures Valid(Group(items))
    ensures forall k :: k in Totals(items).sums <==> k in Totals(items).order
    ensures forall k :: k in Totals(items).sums ==> Totals(items).sums[k] == Sum(ValuesFor(items, k))
    ensures forall i, j :: 0 <= i < j < |Totals(items).order| ==>
      FirstIndex(items, Totals(items).order[i]) < FirstIndex(items, Totals(items).order[j])
  {
    GroupFacts(items);
    forall k | k in Totals(items).sums ensures Totals(items).sums[k] == Sum(ValuesFor(items, k)) {
      assert GroupOf(Group(items).groups, k) == ValuesFor(items, k);
    }
  }

  /** `Math.round`: the nearest integer, halves rounding up. */
  function Round(x: real): (r: int)
    ensures x - 0.5 < r as real <= x + 0.5
  {
    (x + 0.5).Floor
  }

  /** `const [origin, destination] = key.split('-')`. */
  function DecodeKey(key: string): (decoded: (string, Option<string>))
    ensures '-' !in decoded.0
    ensures decoded.1.Some? <==> '-' in key
    ensures decoded.1.Some? ==> '-' !in decoded.1.value
    ensures decoded.1.None? ==> decoded.0 == key
    ensures decoded.1.Some? ==>
      var k := |decoded.0| + 1 + |decoded.1.value|;
      && k <= |key|
      && key[..k] == decoded.0 + "-" + decoded.1.value
      && (k == |key| || key[k] == '-')
  {
    SplitPiecesLackSeparator(key, '-');
    SplitCount(key, '-');
    JoinSplit(key, '-');
    SplitFirstTwo(key, '-');
    var pieces := Split(key, '-');
    (pieces[0], if |pieces| >= 2 then Some(pieces[1]) else None)
  }

  /** An output record; a destination the key does not yield is undefined. */
  datatype Route = Route(origin: string, destination: Option<string>, passengers: int)

  /** The `'end'` handler's mapping of the route map to records. */
  function Emit(m: RouteMap): (records: seq<Route>)
    ensures |records| == |m.order|
  {
    seq(|m.order|, i requires 0 <= i < |m.order| =>
      var decoded := DecodeKey(m.order[i]);
      Route(decoded.0, decoded.1, Round(if m.order[i] in m.sums then m.sums[m.order[i]] else 0.0)))
  }

  /** The content of `airline_flows.json` for a file's rows. */
  function Flows(rows: seq<CsvRow>, parseFloat: string -> Number): seq<Route> {
    Emit(Totals(RouteItems(rows, parseFloat)))
  }

  // The reference: the same rows grouped by the (origin, destination) pair itself.

  function PairItems(rows: seq<CsvRow>, parseFloat: string -> Number): seq<((string, string), real)>
    decreases |rows|
  {
    if |rows| == 0 then []
    else
      var row := rows[|rows| - 1];
      PairItems(rows[..|rows| - 1], parseFloat)
        + if Contributes(row) then [((row["ORIGIN"], row["DEST"]), Passengers(row, parseFloat))] else []
  }

  function PairKey(pair: (string, string)): string {
    RouteKey(pair.0, pair.1)
  }

  /** One record per contributing pair, in first-seen order, with its rounded total. */
  function ReferenceFlows(rows: seq<CsvRow>, parseFloat: string -> Number): seq<Route> {
    var g := Group(PairItems(rows, parseFloat));
    seq(|g.order|, i requires 0 <= i < |g.order| =>
      Route(g.order[i].0, Some(g.order[i].1), Round(Sum(GroupOf(g.groups, g.order[i])))))
  }

  /** No destination cell contains '-'. */
  predicate NoDashInDest(rows: seq<CsvRow>) {
    forall r :: 0 <= r < |rows| && "DEST" in rows[r] ==> '-' !in rows[r]["DEST"]
  }

  lemma {:induction false} RouteItemsArePairItems(rows: seq<CsvRow>, parseFloat: string -> Number)
    ensures RouteItems(rows, parseFloat) == MapKeys(PairItems(rows, parseFloat), PairKey)
    decreases |rows|
  {
    if |rows| > 0 {
      var prefix, row := rows[..|rows| - 1], rows[|rows| - 1];
      RouteItemsArePairItems(prefix, parseFloat);
      var last := if Contributes(row) then [((row["ORIGIN"], row["DEST"]), Passengers(row, parseFloat))] else [];
      MapKeysAppend(PairItems(prefix, parseFloat), last, PairKey);
      assert rows[..|rows| - 1] == prefix;
      assert PairItems(rows, parseFloat) == PairItems(prefix, parseFloat) + last;
      if Contributes(row) {
        assert MapKeys(last, PairKey) == [(RouteKey(row["ORIGIN"], row["DEST"]), Passengers(row, parseFloat))];
      }
      assert RouteItems(rows, parseFloat) == RouteItems(prefix, parseFloat) + MapKeys(last, PairKey);
    }
  }

  /** Every pair has a relevant origin, and a dash-free destination when the file has no dashed one. */
  lemma {:induction false} PairItemsShape(rows: seq<CsvRow>, parseFloat: string -> Number)
    ensures forall i :: 0 <= i < |PairItems(rows, parseFloat)| ==>
      && PairItems(rows, parseFloat)[i].0.0 in RelevantAirports
      && (NoDashInDest(rows) ==> '-' !in PairItems(rows, parseFloat)[i].0.1)
    decreases |rows|
  {
    if |rows| > 0 {
      var prefix := rows[..|rows| - 1];
      PairItemsShape(prefix, parseFloat);
      assert NoDashInDest(rows) ==> NoDashInDest(prefix) by {
        forall r | 0 <= r < |prefix| ensures prefix[r] == rows[r] { }
      }
    }
  }

  /** Relevant origins are three letters long, so the joined key determines both parts. */
  lemma RouteKeyInjective(o: string, d: string, o': string, d': string)
    requires o in RelevantAirports && o' in RelevantAirports
    requires RouteKey(o, d) == RouteKey(o', d')
    ensures o == o' && d == d'
  {
    assert |o| == 3 && |o'| == 3;
    assert o == RouteKey(o, d)[..3] && o' == RouteKey(o', d')[..3];
    assert d == RouteKey(o, d)[4..] && d' == RouteKey(o', d')[4..];
  }

  /**
   * Splitting a route key on '-' gives back the origin always, and the
   * destination exactly when the destination contains no '-' (otherwise
   * only its part before the first '-').
   */
  lemma DecodeRouteKey(o: string, d: string)
    requires o in RelevantAirports
    ensures DecodeKey(RouteKey(o, d)).0 == o
    ensures DecodeKey(RouteKey(o, d)).1 == Some(Split(d, '-')[0])
    ensures DecodeKey(RouteKey(o, d)).1 == Some(d) <==> '-' !in d
  {
    assert '-' !in o;
    assert RouteKey(o, d) == o + ['-'] + d;
    SplitAfterFirst(o, d, '-');
    SplitPiecesLackSeparator(d, '-');
    if '-' !in d {
      SplitJoin([d], '-');
    }
  }

  /**
   * When no destination contains '-', the records are exactly one per
   * contributing (origin, destination) pair, in first-seen order, each with
   * the rounded sum of that pair's passengers.
   */
  lemma FlowsMatchReference(rows: seq<CsvRow>, parseFloat: string -> Number)
    requires NoDashInDest(rows)
    ensures Flows(rows, parseFloat) == ReferenceFlows(rows, parseFloat)
  {
    var pairs := PairItems(rows, parseFloat);
    PairItemsShape(rows, parseFloat);
    assert InjectiveOn(pairs, PairKey) by {
      forall i, j | 0 <= i < |pairs| && 0 <= j < |pairs| && PairKey(pairs[i].0) == PairKey(pairs[j].0)
        ensures pairs[i].0 == pairs[j].0
      {
        RouteKeyInjective(pairs[i].0.0, pairs[i].0.1, pairs[j].0.0, pairs[j].0.1);
      }
    }
    RouteItemsArePairItems(rows, parseFloat);
    GroupMapKeys(pairs, PairKey);
    GroupHoldsValuesFor(pairs);
    var g := Group(pairs);
    var m := Totals(RouteItems(rows, parseFloat));
    var flows, reference := Flows(rows, parseFloat), ReferenceFlows(rows, parseFloat);
    assert |flows| == |reference|;
    forall i | 0 <= i < |flows| ensures flows[i] == reference[i] {
      var pair := g.order[i];
      assert pair in g.groups;
      var r := KeyOccurs(pairs, pair);
      assert m.order[i] == RouteKey(pair.0, pair.1);
      DecodeRouteKey(pair.0, pair.1);
    }
  }

  /** Rounding once at emission: 150.4 + 0.4 emits 151, where rounding each row would give 150. */
  lemma RoundingAtEmission()
    ensures Round(150.4 + 0.4) == 151
    ensures Round(150.4) + Round(0.4) == 150
  {
  }

  /**
   * Three contributing rows and one from an irrelevant origin give two
   * records: the first pair's two rows summed, in first-seen order, and the
   * irrelevant origin left out.
   */
  lemma AggregationExample(parseFloat: string -> Number)
    requires parseFloat("100") == Finite(100.0) && parseFloat("50") == Finite(50.0)
    requires parseFloat("10") == Finite(10.0) && parseFloat("999") == Finite(999.0)
    ensures Flows([map["ORIGIN" := "DCA", "DEST" := "ATL", "PASSENGERS" := "100"],
                   map["ORIGIN" := "DCA", "DEST" := "ATL", "PASSENGERS" := "50"],
                   map["ORIGIN" := "IAD", "DEST" := "LAX", "PASSENGERS" := "10"],
                   map["ORIGIN" := "ORD", "DEST" := "ATL", "PASSENGERS" := "999"]], parseFloat)
      == [Route("DCA", Some("ATL"), 150), Route("IAD", Some("LAX"), 10)]
  {
    ItemsExample(parseFloat);
    TotalsExample();
    EmitExample(RouteMap(["DCA-ATL", "IAD-LAX"], map["DCA-ATL" := 150.0, "IAD-LAX" := 10.0]));
  }

  lemma ItemsExample(parseFloat: string -> Number)
    requires parseFloat("100") == Finite(100.0) && parseFloat("50") == Finite(50.0)
    requires parseFloat("10") == Finite(10.0) && parseFloat("999") == Finite(999.0)
    ensures RouteItems([map["ORIGIN" := "DCA", "DEST" := "ATL", "PASSENGERS" := "100"],
                        map["ORIGIN" := "DCA", "DEST" := "ATL", "PASSENGERS" := "50"],
                        map["ORIGIN" := "IAD", "DEST" := "LAX", "PASSENGERS" := "10"],
                        map["ORIGIN" := "ORD", "DEST" := "ATL", "PASSENGERS" := "999"]], parseFloat)
      == [("DCA-ATL", 100.0), ("DCA-ATL", 50.0), ("IAD-LAX", 10.0)]
  {
    var a: CsvRow := map["ORIGIN" := "DCA", "DEST" := "ATL", "PASSENGERS" := "100"];
    var b: CsvRow := map["ORIGIN" := "DCA", "DEST" := "ATL", "PASSENGERS" := "50"];
    var c: CsvRow := map["ORIGIN" := "IAD", "DEST" := "LAX", "PASSENGERS" := "10"];
    var d: CsvRow := map["ORIGIN" := "ORD", "DEST" := "ATL", "PASSENGERS" := "999"];
    var rows := [a, b, c, d];
    assert rows[..3] == [a, b, c] && rows[..3][..2] == [a, b] && rows[..3][..2][..1] == [a];
    assert !Contributes(d);
    assert Contributes(a) && Passengers(a, parseFloat) == 100.0 && RouteKey("DCA", "ATL") == "DCA-ATL";
    assert Contributes(b) && Passengers(b, parseFloat) == 50.0;
    assert Contributes(c) && Passengers(c, parseFloat) == 10.0 && RouteKey("IAD", "LAX") == "IAD-LAX";
    var x, y, z := ("DCA-ATL", 100.0), ("DCA-ATL", 50.0), ("IAD-LAX", 10.0);
    assert RouteItems([a], parseFloat) == [x] by {
      assert [a][..0] == [];
    }
    assert RouteItems([a, b], parseFloat) == [x, y];
    assert RouteItems([a, b, c], parseFloat) == [x, y, z];
  }

  lemma TotalsExample()
    ensures Totals([("DCA-ATL", 100.0), ("DCA-ATL", 50.0), ("IAD-LAX", 10.0)])
      == RouteMap(["DCA-ATL", "IAD-LAX"], map["DCA-ATL" := 150.0, "IAD-LAX" := 10.0])
  {
    GroupExample();
    SumsOfTwoRoutes("DCA-ATL", "IAD-LAX", [100.0, 50.0], [10.0]);
    SumExample();
  }

  lemma SumExample()
    ensures Sum([100.0, 50.0]) == 150.0 && Sum([10.0]) == 10.0
  {
    assert [100.0, 50.0][..1] == [100.0];
    assert [100.0][..0] == [];
    assert [10.0][..0] == [];
  }

  /** Summing each group of a two-route map. */
  lemma SumsOfTwoRoutes(a: string, b: string, xs: seq<real>, ys: seq<real>)
    requires a != b
    ensures (map k | k in map[a := xs, b := ys] :: Sum(map[a := xs, b := ys][k])) == map[a := Sum(xs), b := Sum(ys)]
  {
  }

  lemma GroupExample()
    ensures Group([("DCA-ATL", 100.0), ("DCA-ATL", 50.0), ("IAD-LAX", 10.0)])
      == Grouped(["DCA-ATL", "IAD-LAX"], map["DCA-ATL" := [100.0, 50.0], "IAD-LAX" := [10.0]])
  {
    var x, y, z := ("DCA-ATL", 100.0), ("DCA-ATL", 50.0), ("IAD-LAX", 10.0);
    var items := [x, y, z];
    assert items[..2] == [x, y] && items[..2][..1] == [x] && [x][..0] == items[..0];
    var g0: Grouped<string, real> := Group([]);
    var g1 := Group([x]);
    assert g1 == Push(g0, "DCA-ATL", 100.0);
    assert g1 == Grouped(["DCA-ATL"], map["DCA-ATL" := [100.0]]);
    var g2 := Group([x, y]);
    assert g2 == Push(g1, "DCA-ATL", 50.0);
    assert [100.0] + [50.0] == [100.0, 50.0];
    assert g2 == Grouped(["DCA-ATL"], map["DCA-ATL" := [100.0, 50.0]]);
    assert Group(items) == Push(g2, "IAD-LAX", 10.0);
  }

  lemma EmitExample(m: RouteMap)
    requires m.order == ["DCA-ATL", "IAD-LAX"]
    requires m.sums == map["DCA-ATL" := 150.0, "IAD-LAX" := 10.0]
    ensures Emit(m) == [Route("DCA", Some("ATL"), 150), Route("IAD", Some("LAX"), 10)]
  {
    EmitFirstExample(m);
    EmitSecondExample(m);
    var flows := Emit(m);
    assert flows == [flows[0], flows[1]];
  }

  lemma EmitFirstExample(m: RouteMap)
    requires m.order == ["DCA-ATL", "IAD-LAX"]
    requires m.sums == map["DCA-ATL" := 150.0, "IAD-LAX" := 10.0]
    ensures |Emit(m)| == 2 && Emit(m)[0] == Route("DCA", Some("ATL"), 150)
  {
    EmitAt(m, 0, "DCA", "ATL", 150.0);
    assert Round(150.0) == 150;
  }

  lemma EmitSecondExample(m: RouteMap)
    requires m.order == ["DCA-ATL", "IAD-LAX"]
    requires m.sums == map["DCA-ATL" := 150.0, "IAD-LAX" := 10.0]
    ensures |Emit(m)| == 2 && Emit(m)[1] == Route("IAD", Some("LAX"), 10)
  {
    EmitAt(m, 1, "IAD", "LAX", 10.0);
    assert Round(10.0) == 10;
  }

  /** The record emitted for the `i`-th route of the map. */
  lemma EmitAt(m: RouteMap, i: nat, o: string, d: string, total: real)
    requires i < |m.order| && m.order[i] == o + "-" + d
    requires o in RelevantAirports && '-' !in d
    requires m.order[i] in m.sums && m.sums[m.order[i]] == total
    ensures Emit(m)[i] == Route(o, Some(d), Round(total))
  {
    DecodePlainKey(o, d);
  }

  /** A key whose destination has no '-' decodes to its origin and destination. */
  lemma DecodePlainKey(o: string, d: string)
    requires o in RelevantAirports && '-' !in d
    ensures RouteKey(o, d) == o + "-" + d
    ensures DecodeKey(RouteKey(o, d)) == (o, Some(d))
  {
    DecodeRouteKey(o, d);
  }

  // The accumulation as written, where a row whose count does not parse adds NaN.

  /** `(routeMap.get(key) || 0) + passengers`: an absent, zero or NaN running sum is read as 0. */
  function AddAsWritten(previous: Option<Number>, passengers: Number): Number {
    var base := if previous.None? || previous.value.NaN? then 0.0 else previous.value.value;
    match passengers
    case NaN => NaN
    case Finite(x) => Finite(base + x)
  }

  /** A route's entry after its rows' parsed counts, as written; none before its first row. */
  function RunningTotalAsWritten(counts: seq<Number>): Option<Number>
    decreases |counts|
  {
    if |counts| == 0 then None
    else Some(AddAsWritten(RunningTotalAsWritten(counts[..|counts| - 1]), counts[|counts| - 1]))
  }

  /** The counts a row with a rejected cell would give if that cell counted as 0. */
  function CountedAsZero(counts: seq<Number>): seq<real> {
    seq(|counts|, i requires 0 <= i < |counts| => if counts[i].NaN? then 0.0 else counts[i].value)
  }

  /**
   * As written, a route with counts 5, then an unparsable cell, then 3
   * ends at 3: the NaN sum is read as 0 by the next row, so the rows before
   * it are lost, where counting the bad cell as 0 gives 8.
   */
  lemma NaNDropsEarlierRows()
    ensures RunningTotalAsWritten([Finite(5.0), NaN, Finite(3.0)]) == Some(Finite(3.0))
    ensures Sum(CountedAsZero([Finite(5.0), NaN, Finite(3.0)])) == 8.0
  {
    var counts := [Finite(5.0), NaN, Finite(3.0)];
    assert counts[..2] == [Finite(5.0), NaN] && counts[..2][..1] == [Finite(5.0)] && counts[..2][..1][..0] == [];
    var zeroed := CountedAsZero(counts);
    assert zeroed == [5.0, 0.0, 3.0];
    assert zeroed[..2] == [5.0, 0.0] && zeroed[..2][..1] == [5.0] && zeroed[..2][..1][..0] == [];
    assert Sum([5.0]) == 5.0;
    assert Sum([5.0, 0.0]) == 5.0;
    assert Sum(zeroed) == 8.0;
  }

  /** Without unparsable cells the written accumulation is the plain sum that `AccumulateRoutes` keeps. */
  lemma {:induction false} AsWrittenWithoutNaN(counts: seq<Number>)
    requires |counts| > 0
    requires forall i :: 0 <= i < |counts| ==> counts[i].Finite?
    ensures RunningTotalAsWritten(counts) == Some(Finite(Sum(CountedAsZero(counts))))
    decreases |counts|
  {
    var prefix := counts[..|counts| - 1];
    assert CountedAsZero(counts)[..|counts| - 1] == CountedAsZero(prefix);
    if |prefix| > 0 {
      AsWrittenWithoutNaN(prefix);
    } else {
      assert CountedAsZero(prefix) == [];
    }
  }

  // The driver.

  /** The segment file: its modification time (none when it does not exist) and its parsed rows. */
  datatype SegmentFile = SegmentFile(mtime: Option<int>, rows: seq<CsvRow>)

  /** What a run does to the file system, in order. */
  datatype FlowEffect =
    | WroteFlows(routes: seq<Route>)      // airline_flows.json
    | RecordedSegment(time: int)          // the ledger rewritten with the segment key := time

  /** `processCSV()` through its `'end'` handler: write the records, then record the file's time. */
  method ProcessCsv(status: StatusFile, rows: seq<CsvRow>, time: int, parseFloat: string -> Number)
    returns (effects: seq<FlowEffect>)
    modifies status
    ensures effects == [WroteFlows(Flows(rows, parseFloat)), RecordedSegment(time)]
    ensures status.Load() == old(status.Load())[SegmentKey := time]
  {
    var routeMap := AccumulateRoutes(rows, parseFloat);
    var result := Emit(routeMap);
    effects := [WroteFlows(result)];
    status.Save(SegmentKey, time);
    effects := effects + [RecordedSegment(time)];
  }

  /**
   * `main()`: a missing file is reported and nothing else happens; otherwise
   * the file is processed when its ledger entry is absent or older. Either
   * way a run that found the file leaves it up to date.
   */
  method Run(status: StatusFile, file: SegmentFile, parseFloat: string -> Number)
    returns (effects: seq<FlowEffect>, found: bool)
    modifies status
    ensures found == file.mtime.Some?
    ensures !found ==> effects == [] && unchanged(status)
    ensures found ==>
      var run := ShouldProcess(file.mtime.value, old(status.LastProcessed(SegmentKey)));
      && effects == (if run then [WroteFlows(Flows(file.rows, parseFloat)), RecordedSegment(file.mtime.value)] else [])
      && status.Load() == (if run then old(status.Load())[SegmentKey := file.mtime.value] else old(status.Load()))
      && !ShouldProcess(file.mtime.value, status.LastProcessed(SegmentKey))
  {
    var lastProcessed := status.LastProcessed(SegmentKey);
    if file.mtime.None? {
      return [], false;
    }
    found := true;
    if ShouldProcess(file.mtime.value, lastProcessed) {
      effects := ProcessCsv(status, file.rows, file.mtime.value, parseFloat);
    } else {
      effects := [];
    }
  }
}
