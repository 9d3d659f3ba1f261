/**
 * The row transcoder of the GTFS stages: `headers.forEach((h, i) => entry[h] = values[i])`.
 */
module Transcode {
  import opened Wrappers

  /**
   * A transcoded row. A header whose value lies past the end of the line is
   * still a key, holding `undefined`; a header repeated in the line takes
   * the value of its last position.
   */
  type Entry = map<string, Option<string>>

  /** `values[i]`, or `undefined` past the end. */
  function ValueAt(values: seq<string>, i: nat): Option<string> {
    if i < |values| then Some(values[i]) else None
  }

  /** The entry after the `forEach` has visited every header, left to right. */
  function EntryOf(header: seq<string>, values: seq<string>): Entry
    decreases |header|
  {
    if |header| == 0 then map[]
    else EntryOf(header[..|header| - 1], values)[header[|header| - 1] := ValueAt(values, |header| - 1)]
  }

  /** `entry[name]`: `undefined` when the name is not a header. */
  function Field(entry: Entry, name: string): Option<string> {
    if name in entry then entry[name] else None
  }

  /** The `forEach` loop over the header, assigning one property per header. */
  method TranscodeRow(header: seq<string>, values: seq<string>) returns (entry: Entry)
    ensures entry == EntryOf(header, values)
  {
    entry := map[];
    var i := 0;
    while i < |header|
      invariant 0 <= i <= |header|
      invariant entry == EntryOf(header[..i], values)
    {
      assert header[..i + 1][..i] == header[..i];
      entry := entry[header[i] := ValueAt(values, i)];
      i := i + 1;
    }
    assert header[..|header|] == header;
  }

  /** The entry's keys are exactly the header names. */
  lemma {:induction false} EntryKeys(header: seq<string>, values: seq<string>, name: string)
    ensures name in EntryOf(header, values) <==> name in header
    decreases |header|
  {
    if |header| > 0 {
      var init := header[..|header| - 1];
      EntryKeys(init, values, name);
      assert header == init + [header[|header| - 1]];
    }
  }

  /**
   * Positional correspondence: the field named by `header[i]` holds
   * `values[i]` (undefined past the end of the line), provided no later
   * header repeats the name; a name that is not a header reads as undefined.
   */
  lemma {:induction false} FieldAt(header: seq<string>, values: seq<string>, i: nat)
    requires i < |header|
    requires forall j :: i < j < |header| ==> header[j] != header[i]
    ensures Field(EntryOf(header, values), header[i]) == ValueAt(values, i)
    decreases |header|
  {
    if i < |header| - 1 {
      FieldAt(header[..|header| - 1], values, i);
    }
  }

  lemma FieldOfNonHeader(header: seq<string>, values: seq<string>, name: string)
    requires name !in header
    ensures Field(EntryOf(header, values), name) == None
  {
    EntryKeys(header, values, name);
  }

  /** Values past the header's length are dropped. */
  lemma {:induction false} EntryIgnoresExtraValues(header: seq<string>, values: seq<string>)
    requires |values| >= |header|
    ensures EntryOf(header, values) == EntryOf(header, values[..|header|])
    decreases |header|
  {
    if |header| > 0 {
      var init := header[..|header| - 1];
      EntryIgnoresExtraValues(init, values[..|header|]);
      EntryIgnoresExtraValues(init, values);
      assert values[..|header|][..|init|] == values[..|init|];
    }
  }
}
