/**
 * The streaming group-by of the GTFS stages: the `for await` loop over the
 * lines of a file whose first line is the header, pushing one value per data
 * line into the group of that line's key field.
 */
module Streaming {
  import opened Wrappers
  import opened Text
  import opened Transcode
  import opened Grouping

  /** The data lines, each split on ',' and transcoded against the first line's names. */
  function Rows(lines: seq<string>): (rows: seq<Entry>)
    ensures |rows| == if |lines| == 0 then 0 else |lines| - 1
  {
    if |lines| == 0 then []
    else
      var header := Split(lines[0], ',');
      seq(|lines| - 1, j requires 0 <= j < |lines| - 1 => EntryOf(header, Split(lines[j + 1], ',')))
  }

  /** Each data row as the pair (its key field, the value built from it). */
  function KeyedRows<V>(lines: seq<string>, keyField: string, toValue: Entry -> V): (items: seq<(Option<string>, V)>)
    ensures |items| == |Rows(lines)|
  {
    var rows := Rows(lines);
    seq(|rows|, j requires 0 <= j < |rows| => (Field(rows[j], keyField), toValue(rows[j])))
  }

  lemma RowsSnoc(lines: seq<string>, i: nat)
    requires 1 <= i < |lines|
    ensures Rows(lines[..i + 1]) == Rows(lines[..i]) + [EntryOf(Split(lines[0], ','), Split(lines[i], ','))]
  {
    var a, b := Rows(lines[..i + 1]), Rows(lines[..i]);
    assert lines[..i + 1][0] == lines[0] && lines[..i][0] == lines[0];
    assert |a| == |b| + 1;
    forall j | 0 <= j < |b| ensures a[j] == b[j] {
      assert lines[..i + 1][j + 1] == lines[..i][j + 1];
    }
  }

  lemma KeyedRowsSnoc<V>(lines: seq<string>, i: nat, keyField: string, toValue: Entry -> V)
    requires 1 <= i < |lines|
    ensures var entry := EntryOf(Split(lines[0], ','), Split(lines[i], ','));
      KeyedRows(lines[..i + 1], keyField, toValue) ==
      KeyedRows(lines[..i], keyField, toValue) + [(Field(entry, keyField), toValue(entry))]
  {
    RowsSnoc(lines, i);
    var a, b := KeyedRows(lines[..i + 1], keyField, toValue), KeyedRows(lines[..i], keyField, toValue);
    forall j | 0 <= j < |b| ensures a[j] == b[j] {
    }
  }

  /**
   * The streaming loop: the first line becomes the header (its split is never
   * empty, so only the first line does); every later line is split, transcoded
   * and pushed into the group named by its key field.
   */
  method GroupRows<V>(lines: seq<string>, keyField: string, toValue: Entry -> V)
    returns (g: Grouped<Option<string>, V>)
    ensures g == Group(KeyedRows(lines, keyField, toValue))
  {
    var headers: seq<string> := [];
    g := Grouped([], map[]);
    var i := 0;
    while i < |lines|
      invariant 0 <= i <= |lines|
      invariant headers == if i == 0 then [] else Split(lines[0], ',')
      invariant g == Group(KeyedRows(lines[..i], keyField, toValue))
    {
      if |headers| == 0 {
        headers := Split(lines[i], ',');
        i := i + 1;
        continue;
      }
      var values := Split(lines[i], ',');
      var entry := TranscodeRow(headers, values);
      KeyedRowsSnoc(lines, i, keyField, toValue);
      ghost var items := KeyedRows(lines[..i + 1], keyField, toValue);
      assert items[..|items| - 1] == KeyedRows(lines[..i], keyField, toValue);
      g := Push(g, Field(entry, keyField), toValue(entry));
      i := i + 1;
    }
    assert lines[..|lines|] == lines;
  }
}
