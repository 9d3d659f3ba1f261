/**
 * Plain JavaScript objects used as dictionaries, as the stop-times stage
 * uses `result` and each `chunk`: assignment creates a property on first use
 * and overwrites it afterwards, and `Object.keys` (like `JSON.stringify`)
 * lists array-index keys first, ascending by value, then every other key in
 * creation order.
 */
module JsObjects {
  import opened Numbers
  import opened Sorting
  import Grouping

  /** 2^32 - 1: array indices lie below it. */
  const ArrayIndexLimit: nat := 4294967295

  /** A canonical decimal numeral below 2^32 - 1 names an array index. */
  predicate IsArrayIndex(key: string) {
    |key| > 0 && AllDigits(key) && (key[0] != '0' || |key| == 1) && DecimalValue(key) < ArrayIndexLimit
  }

  /** The numeric value `Object.keys` orders array indices by. */
  function IndexValue(key: string): int {
    DecimalValue(key)
  }

  /** The elements `x` of `s` with `p(x) == keep`, in order. */
  function Filter<T>(s: seq<T>, p: T -> bool, keep: bool): seq<T>
    decreases |s|
  {
    if |s| == 0 then [] else (if p(s[0]) == keep then [s[0]] else []) + Filter(s[1..], p, keep)
  }

  /** The elements satisfying `p`, sorted by `key`, then the others in their original order. */
  function PartitionSort<T>(s: seq<T>, p: T -> bool, key: T -> int): seq<T> {
    SortBy(Filter(s, p, true), key) + Filter(s, p, false)
  }

  /** Every element satisfying `p` comes before every other, and those are ascending by `key`. */
  predicate PartitionSorted<T>(s: seq<T>, p: T -> bool, key: T -> int) {
    forall i, j :: 0 <= i < j < |s| && p(s[j]) ==> p(s[i]) && key(s[i]) <= key(s[j])
  }

  /** `Object.keys` of an ordinary object whose properties were created in the order `created`. */
  function OwnKeys(created: seq<string>): seq<string> {
    PartitionSort(created, IsArrayIndex, IndexValue)
  }

  /** The order `Object.keys` produces: array indices first and ascending, then the other keys. */
  predicate KeyOrder(keys: seq<string>) {
    PartitionSorted(keys, IsArrayIndex, IndexValue)
  }

  /** An object: its keys in creation order, and the value under each. */
  datatype JsObject<V> = JsObject(created: seq<string>, props: map<string, V>)

  predicate Valid<V>(o: JsObject<V>) {
    && Grouping.Distinct(o.created)
    && (forall i :: 0 <= i < |o.created| ==> o.created[i] in o.props)
    && (forall k :: k in o.props ==> k in o.created)
  }

  /** `o[key] = v`. */
  function Assign<V>(o: JsObject<V>, key: string, v: V): JsObject<V> {
    if key in o.props then JsObject(o.created, o.props[key := v])
    else JsObject(o.created + [key], o.props[key := v])
  }

  lemma {:induction false} FilterPermutes<T>(s: seq<T>, p: T -> bool)
    ensures multiset(Filter(s, p, true)) + multiset(Filter(s, p, false)) == multiset(s)
    decreases |s|
  {
    if |s| > 0 {
      var kept, dropped := Filter(s[1..], p, true), Filter(s[1..], p, false);
      calc {
        multiset(Filter(s, p, true)) + multiset(Filter(s, p, false));
        { FilterStep(s, p); }
        multiset{s[0]} + (multiset(kept) + multiset(dropped));
        { FilterPermutes(s[1..], p); }
        multiset{s[0]} + multiset(s[1..]);
        { assert s == [s[0]] + s[1..]; }
        multiset(s);
      }
    }
  }

  /** One step of `Filter`: the head goes to the side `p` sends it to. */
  lemma FilterStep<T>(s: seq<T>, p: T -> bool)
    requires |s| > 0
    ensures p(s[0]) ==> Filter(s, p, true) == [s[0]] + Filter(s[1..], p, true) && Filter(s, p, false) == Filter(s[1..], p, false)
    ensures !p(s[0]) ==> Filter(s, p, true) == Filter(s[1..], p, true) && Filter(s, p, false) == [s[0]] + Filter(s[1..], p, false)
  {
  }

  /** Every element `Filter` keeps is on the requested side of `p`. */
  lemma {:induction false} FilterSide<T>(s: seq<T>, p: T -> bool, keep: bool)
    ensures forall i :: 0 <= i < |Filter(s, p, keep)| ==> p(Filter(s, p, keep)[i]) == keep
    decreases |s|
  {
    if |s| > 0 {
      FilterSide(s[1..], p, keep);
      var rest := Filter(s[1..], p, keep);
      if p(s[0]) == keep {
        assert Filter(s, p, keep) == [s[0]] + rest;
      } else {
        assert Filter(s, p, keep) == rest;
      }
    }
  }

  lemma {:induction false} FilterAll<T>(s: seq<T>, p: T -> bool, keep: bool)
    requires forall i :: 0 <= i < |s| ==> p(s[i]) == keep
    ensures Filter(s, p, keep) == s && Filter(s, p, !keep) == []
    decreases |s|
  {
    if |s| > 0 {
      FilterAll(s[1..], p, keep);
      assert [s[0]] + s[1..] == s;
    }
  }

  lemma PartitionSortedOfParts<T>(front: seq<T>, back: seq<T>, p: T -> bool, key: T -> int)
    requires forall i :: 0 <= i < |front| ==> p(front[i])
    requires SortedBy(front, key)
    requires forall i :: 0 <= i < |back| ==> !p(back[i])
    ensures PartitionSorted(front + back, p, key)
  {
    var s := front + back;
    forall i, j | 0 <= i < j < |s| && p(s[j]) ensures p(s[i]) && key(s[i]) <= key(s[j]) {
      assert s[i] == front[i] && s[j] == front[j];
    }
  }

  lemma SortedFilter<T>(s: seq<T>, p: T -> bool, key: T -> int)
    ensures var sorted := SortBy(Filter(s, p, true), key);
      && SortedBy(sorted, key)
      && multiset(sorted) == multiset(Filter(s, p, true))
      && forall i :: 0 <= i < |sorted| ==> p(sorted[i])
  {
    var chosen := Filter(s, p, true);
    FilterSide(s, p, true);
    SortByCorrect(chosen, key);
    var sorted := SortBy(chosen, key);
    forall i | 0 <= i < |sorted| ensures p(sorted[i]) {
      assert sorted[i] in multiset(chosen);
    }
  }

  /** The partition-sort is a permutation into partition-sorted order. */
  lemma PartitionSortCorrect<T>(s: seq<T>, p: T -> bool, key: T -> int)
    ensures multiset(PartitionSort(s, p, key)) == multiset(s)
    ensures PartitionSorted(PartitionSort(s, p, key), p, key)
  {
    FilterPermutes(s, p);
    SortedFilter(s, p, key);
    FilterSide(s, p, false);
    PartitionSortedOfParts(SortBy(Filter(s, p, true), key), Filter(s, p, false), p, key);
  }

  lemma PartitionSortedSplit<T>(s: seq<T>, p: T -> bool, key: T -> int)
    requires PartitionSorted(s, p, key) && |s| > 0
    ensures PartitionSorted(s[1..], p, key)
    ensures !p(s[0]) ==> forall i :: 0 <= i < |s| ==> !p(s[i])
    ensures |s| > 1 && p(s[1]) ==> p(s[0]) && key(s[0]) <= key(s[1])
  {
    var rest := s[1..];
    forall i, j | 0 <= i < j < |rest| && p(rest[j]) ensures p(rest[i]) && key(rest[i]) <= key(rest[j]) {
      assert rest[i] == s[i + 1] && rest[j] == s[j + 1];
    }
  }

  /** A sequence already in partition-sorted order is left as it is. */
  lemma {:induction false} PartitionSortOfSorted<T>(s: seq<T>, p: T -> bool, key: T -> int)
    requires PartitionSorted(s, p, key)
    ensures PartitionSort(s, p, key) == s
    decreases |s|
  {
    if |s| > 0 {
      PartitionSortedSplit(s, p, key);
      if p(s[0]) {
        PartitionSortOfSorted(s[1..], p, key);
        PartitionSortCons(s, p, key);
      } else {
        FilterAll(s, p, false);
      }
    }
  }

  /** The step of the induction above: a head satisfying `p` stays in front. */
  lemma PartitionSortCons<T>(s: seq<T>, p: T -> bool, key: T -> int)
    requires |s| > 0 && p(s[0])
    requires |s| > 1 && p(s[1]) ==> key(s[0]) <= key(s[1])
    requires PartitionSort(s[1..], p, key) == s[1..]
    ensures PartitionSort(s, p, key) == s
  {
    var rest := s[1..];
    var chosen, others := Filter(rest, p, true), Filter(rest, p, false);
    var sorted := SortBy(chosen, key);
    assert SortBy([s[0]] + chosen, key) == [s[0]] + sorted by {
      assert rest == sorted + others;
      if |sorted| > 0 {
        FirstSortedSatisfies(rest, p, key);
      }
      SortHeadStays(s[0], chosen, others, rest, key);
    }
    assert PartitionSort(s, p, key) == SortBy([s[0]] + chosen, key) + others by {
      FilterStep(s, p);
    }
    assert [s[0]] + (sorted + others) == s by {
      assert sorted + others == rest;
    }
    assert ([s[0]] + sorted) + others == [s[0]] + (sorted + others);
  }

  lemma FirstSortedSatisfies<T>(rest: seq<T>, p: T -> bool, key: T -> int)
    requires rest == SortBy(Filter(rest, p, true), key) + Filter(rest, p, false)
    requires |SortBy(Filter(rest, p, true), key)| > 0
    ensures p(rest[0])
  {
    SortedFilter(rest, p, key);
  }

  lemma SortHeadStays<T>(x: T, chosen: seq<T>, others: seq<T>, rest: seq<T>, key: T -> int)
    requires rest == SortBy(chosen, key) + others
    requires |SortBy(chosen, key)| > 0 ==> key(x) <= key(rest[0])
    ensures SortBy([x] + chosen, key) == [x] + SortBy(chosen, key)
  {
    assert ([x] + chosen)[1..] == chosen;
  }

  /** `Object.keys` lists every created key once, in the key order above. */
  lemma OwnKeysPermutes(created: seq<string>)
    ensures multiset(OwnKeys(created)) == multiset(created)
    ensures KeyOrder(OwnKeys(created))
  {
    PartitionSortCorrect(created, IsArrayIndex, IndexValue);
  }

  /** Keys already in that order are listed as they were created. */
  lemma OwnKeysOfOrdered(keys: seq<string>)
    requires KeyOrder(keys)
    ensures OwnKeys(keys) == keys
  {
    PartitionSortOfSorted(keys, IsArrayIndex, IndexValue);
  }

  /** When no key names an array index, `Object.keys` is creation order. */
  lemma OwnKeysWithoutIndices(created: seq<string>)
    requires forall i :: 0 <= i < |created| ==> !IsArrayIndex(created[i])
    ensures OwnKeys(created) == created
  {
    OwnKeysOfOrdered(created);
  }

  /**
   * A contiguous run of `Object.keys`, assigned in order into a fresh object
   * (a stop-times chunk), is listed by that object in the same order.
   */
  lemma ChunkKeysKeepOrder(created: seq<string>, begin: nat, end: nat)
    requires begin <= end <= |OwnKeys(created)|
    ensures OwnKeys(OwnKeys(created)[begin..end]) == OwnKeys(created)[begin..end]
  {
    OwnKeysPermutes(created);
    var run := OwnKeys(created)[begin..end];
    assert forall i, j :: 0 <= i < j < |run| ==> run[i] == OwnKeys(created)[begin + i] && run[j] == OwnKeys(created)[begin + j];
    OwnKeysOfOrdered(run);
  }
}
