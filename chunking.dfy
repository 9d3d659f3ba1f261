/**
 * Fixed-size chunking of an emitted collection into 1-based numbered parts,
 * the loop `for (let i = 0; i < n; i += chunkSize)` of both GTFS stages.
 */
module Chunking {

  /** The chunk size both stages hard-code. */
  const ChunkSize: nat := 1000

  /** One chunk artifact: its part number (in its file name) and its elements. */
  datatype Part<T> = Part(number: nat, items: seq<T>)

  function Min(a: int, b: int): int {
    if a <= b then a else b
  }

  /** The number of parts for `n` elements: n / 1000 rounded up. */
  function PartCount(n: nat): nat {
    (n + ChunkSize - 1) / ChunkSize
  }

  /** `s.slice(begin, end)` for `begin <= end`: both bounds are clamped to the length. */
  function Slice<T>(s: seq<T>, begin: nat, end: nat): seq<T>
    requires begin <= end
  {
    s[Min(begin, |s|)..Min(end, |s|)]
  }

  /** Part `k + 1` holds the elements from `k * 1000` up to the next multiple of 1000 or the end. */
  function PartAt<T>(s: seq<T>, k: nat): Part<T> {
    Part(k + 1, Slice(s, k * ChunkSize, k * ChunkSize + ChunkSize))
  }

  /** All the parts the loop writes, in order. */
  function Parts<T>(s: seq<T>): seq<Part<T>> {
    seq(PartCount(|s|), k requires 0 <= k < PartCount(|s|) => PartAt(s, k))
  }

  /** The elements of the parts, concatenated in part order. */
  function Concat<T>(parts: seq<Part<T>>): seq<T>
    decreases |parts|
  {
    if |parts| == 0 then [] else Concat(parts[..|parts| - 1]) + parts[|parts| - 1].items
  }

  lemma PartCountBetween(n: nat, p: nat)
    requires (p == 0 && n == 0) || (p > 0 && (p - 1) * ChunkSize < n <= p * ChunkSize)
    ensures PartCount(n) == p
  {
  }

  /**
   * The chunk loop: it steps `i` by 1000 from 0 while `i` is below the length
   * and emits part `i / 1000 + 1` with `slice(i, i + 1000)`.
   */
  method SplitIntoParts<T>(s: seq<T>) returns (parts: seq<Part<T>>)
    ensures parts == Parts(s)
  {
    parts := [];
    var i := 0;
    while i < |s|
      invariant i == |parts| * ChunkSize
      invariant |parts| == 0 || (|parts| - 1) * ChunkSize < |s|
      invariant forall k :: 0 <= k < |parts| ==> parts[k] == PartAt(s, k)
    {
      parts := parts + [Part(i / ChunkSize + 1, Slice(s, i, i + ChunkSize))];
      i := i + ChunkSize;
    }
    PartCountBetween(|s|, |parts|);
  }

  /**
   * Every part but the last holds exactly 1000 elements, and the last holds
   * between 1 and 1000: no part is empty, and no elements means no parts.
   */
  lemma PartSizes<T>(s: seq<T>)
    ensures |s| == 0 <==> Parts(s) == []
    ensures forall k :: 0 <= k < |Parts(s)| - 1 ==> |Parts(s)[k].items| == ChunkSize
    ensures |Parts(s)| > 0 ==> 0 < |Parts(s)[|Parts(s)| - 1].items| <= ChunkSize
  {
    var p := PartCount(|s|);
    if p > 0 {
      assert (p - 1) * ChunkSize < |s|;
    }
  }

  /** The first `p` parts together hold the first `p * 1000` elements. */
  lemma {:induction false} ConcatPrefix<T>(s: seq<T>, p: nat)
    requires p <= PartCount(|s|)
    ensures Concat(Parts(s)[..p]) == s[..Min(p * ChunkSize, |s|)]
    decreases p
  {
    if p > 0 {
      var parts := Parts(s);
      ConcatPrefix(s, p - 1);
      assert parts[..p][..p - 1] == parts[..p - 1];
      assert (p - 1) * ChunkSize < |s|;
      assert s[..Min(p * ChunkSize, |s|)] == s[..(p - 1) * ChunkSize] + parts[p - 1].items;
    }
  }

  /** Concatenating all parts in part order gives back the whole collection. */
  lemma PartsConcatenate<T>(s: seq<T>)
    ensures Concat(Parts(s)) == s
  {
    var parts := Parts(s);
    ConcatPrefix(s, |parts|);
    assert parts[..|parts|] == parts;
    if |parts| > 0 {
      PartCountBetween(|s|, |parts|);
    }
  }

  /** Each element lands in part `i / 1000 + 1`, at position `i % 1000`. */
  lemma PartOfElement<T>(s: seq<T>, i: nat)
    requires i < |s|
    ensures i / ChunkSize < |Parts(s)|
    ensures Parts(s)[i / ChunkSize].number == i / ChunkSize + 1
    ensures Parts(s)[i / ChunkSize].items[i % ChunkSize] == s[i]
  {
  }
}
