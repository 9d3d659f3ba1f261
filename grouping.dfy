/**
 * Group-by-key in first-seen order: the JavaScript `Map` of arrays that both
 * GTFS stages build, one `push` per data row.
 */
module Grouping {

  /** A `Map` from keys to arrays: its keys in insertion order, and the array under each. */
  datatype Grouped<K, V> = Grouped(order: seq<K>, groups: map<K, seq<V>>)

  predicate Distinct<K(==)>(s: seq<K>) {
    forall i, j :: 0 <= i < j < |s| ==> s[i] != s[j]
  }

  /** Each key is listed once, exactly the listed keys have an array, and no array is empty. */
  predicate Valid<K, V>(g: Grouped<K, V>) {
    && Distinct(g.order)
    && (forall i :: 0 <= i < |g.order| ==> g.order[i] in g.groups)
    && (forall k :: k in g.groups ==> k in g.order && g.groups[k] != [])
  }

  /** The array under `k`, or the empty one when `k` was never seen. */
  function GroupOf<K, V>(groups: map<K, seq<V>>, k: K): seq<V> {
    if k in groups then groups[k] else []
  }

  /** `if (!m.has(k)) m.set(k, []); m.get(k).push(v);` */
  function Push<K, V>(g: Grouped<K, V>, k: K, v: V): Grouped<K, V> {
    if k in g.groups then Grouped(g.order, g.groups[k := g.groups[k] + [v]])
    else Grouped(g.order + [k], g.groups[k := [v]])
  }

  /** The map after pushing every `(key, value)` item in turn into an empty one. */
  function Group<K, V>(items: seq<(K, V)>): Grouped<K, V>
    decreases |items|
  {
    if |items| == 0 then Grouped([], map[])
    else
      var last := items[|items| - 1];
      Push(Group(items[..|items| - 1]), last.0, last.1)
  }

  // Reference definitions, read from the front of the items.

  /** The values of the items whose key is `k`, in item order. */
  function ValuesFor<K(==), V>(items: seq<(K, V)>, k: K): seq<V>
    decreases |items|
  {
    if |items| == 0 then []
    else (if items[0].0 == k then [items[0].1] else []) + ValuesFor(items[1..], k)
  }

  /** The position of the first item with key `k`; `|items|` when there is none. */
  function FirstIndex<K(==), V>(items: seq<(K, V)>, k: K): nat
    decreases |items|
  {
    if |items| == 0 then 0
    else if items[0].0 == k then 0
    else 1 + FirstIndex(items[1..], k)
  }

  /** A key first occurs no later than any item carrying it. */
  lemma {:induction false} FirstIndexBound<K, V>(items: seq<(K, V)>, k: K, r: nat)
    requires r < |items| && items[r].0 == k
    ensures FirstIndex(items, k) <= r
    decreases r
  {
    if items[0].0 != k {
      FirstIndexBound(items[1..], k, r - 1);
    }
  }

  /** The total length of the arrays under `keys`. */
  function Total<K, V>(keys: seq<K>, groups: map<K, seq<V>>): nat
    decreases |keys|
  {
    if |keys| == 0 then 0 else |GroupOf(groups, keys[0])| + Total(keys[1..], groups)
  }

  lemma {:induction false} ValuesForSnoc<K, V>(items: seq<(K, V)>, x: (K, V), k: K)
    ensures ValuesFor(items + [x], k) == ValuesFor(items, k) + (if x.0 == k then [x.1] else [])
    decreases |items|
  {
    if |items| == 0 {
      assert items + [x] == [x];
    } else {
      var tail := if x.0 == k then [x.1] else [];
      var head := if items[0].0 == k then [items[0].1] else [];
      assert (items + [x])[1..] == items[1..] + [x];
      ValuesForSnoc(items[1..], x, k);
      calc {
        ValuesFor(items + [x], k);
        head + ValuesFor(items[1..] + [x], k);
        head + (ValuesFor(items[1..], k) + tail);
        (head + ValuesFor(items[1..], k)) + tail;
        ValuesFor(items, k) + tail;
      }
    }
  }

  lemma {:induction false} FirstIndexSnoc<K, V>(items: seq<(K, V)>, x: (K, V), k: K)
    ensures FirstIndex(items, k) <= |items|
    ensures FirstIndex(items + [x], k) ==
      if FirstIndex(items, k) < |items| then FirstIndex(items, k)
      else if x.0 == k then |items| else |items| + 1
    ensures FirstIndex(items, k) < |items| <==> ValuesFor(items, k) != []
    decreases |items|
  {
    if |items| == 0 {
      assert items + [x] == [x];
    } else {
      assert (items + [x])[1..] == items[1..] + [x];
      FirstIndexSnoc(items[1..], x, k);
    }
  }

  /**
   * Grouping is well formed, and the array under each key holds exactly the
   * values of the items with that key, in item order: every item lands in its
   * own key's array, once.
   */
  lemma {:induction false} GroupHoldsValuesFor<K, V>(items: seq<(K, V)>)
    ensures Valid(Group(items))
    ensures forall k :: GroupOf(Group(items).groups, k) == ValuesFor(items, k)
    decreases |items|
  {
    if |items| > 0 {
      var prefix, last := items[..|items| - 1], items[|items| - 1];
      assert items == prefix + [last];
      GroupHoldsValuesFor(prefix);
      forall k ensures GroupOf(Group(items).groups, k) == ValuesFor(items, k) {
        ValuesForSnoc(prefix, last, k);
      }
    }
  }

  /** Everything the JavaScript `Map` of arrays guarantees after the pushes of `items`. */
  lemma GroupFacts<K, V>(items: seq<(K, V)>)
    ensures Valid(Group(items))
    ensures forall k :: GroupOf(Group(items).groups, k) == ValuesFor(items, k)
    ensures forall k :: k in Group(items).order <==> FirstIndex(items, k) < |items|
    ensures forall i, j :: 0 <= i < j < |Group(items).order| ==>
      FirstIndex(items, Group(items).order[i]) < FirstIndex(items, Group(items).order[j])
    ensures Total(Group(items).order, Group(items).groups) == |items|
  {
    GroupHoldsValuesFor(items);
    GroupKeysInFirstSeenOrder(items);
    GroupTotal(items);
  }

  /** The keys appear once each, exactly those of the items, ordered by where each first occurs. */
  lemma {:induction false} GroupKeysInFirstSeenOrder<K, V>(items: seq<(K, V)>)
    ensures Distinct(Group(items).order)
    ensures forall k :: k in Group(items).order <==> FirstIndex(items, k) < |items|
    ensures forall i, j :: 0 <= i < j < |Group(items).order| ==>
      FirstIndex(items, Group(items).order[i]) < FirstIndex(items, Group(items).order[j])
    decreases |items|
  {
    GroupHoldsValuesFor(items);
    if |items| > 0 {
      var prefix, last := items[..|items| - 1], items[|items| - 1];
      assert items == prefix + [last];
      GroupKeysInFirstSeenOrder(prefix);
      GroupHoldsValuesFor(prefix);
      var g, g' := Group(prefix), Group(items);
      forall k ensures k in g'.order <==> FirstIndex(items, k) < |items| {
        FirstIndexSnoc(prefix, last, k);
      }
      forall i, j | 0 <= i < j < |g'.order|
        ensures FirstIndex(items, g'.order[i]) < FirstIndex(items, g'.order[j])
      {
        FirstIndexSnoc(prefix, last, g'.order[i]);
        FirstIndexSnoc(prefix, last, g'.order[j]);
        assert g' == Push(g, last.0, last.1);
        if j < |g.order| {
          assert g'.order[i] == g.order[i] && g'.order[j] == g.order[j];
          assert g.order[i] in g.order && g.order[j] in g.order;
          assert FirstIndex(prefix, g.order[i]) < FirstIndex(prefix, g.order[j]);
          assert FirstIndex(prefix, g.order[j]) < |prefix|;
        } else {
          assert last.0 !in g.groups && g'.order[j] == last.0 && g'.order[i] == g.order[i];
          assert g.order[i] in g.order;
        }
      }
    }
  }

  lemma {:induction false} TotalAppend<K, V>(keys: seq<K>, k: K, groups: map<K, seq<V>>)
    ensures Total(keys + [k], groups) == Total(keys, groups) + |GroupOf(groups, k)|
    decreases |keys|
  {
    if |keys| == 0 {
      assert keys + [k] == [k];
    } else {
      assert (keys + [k])[1..] == keys[1..] + [k];
      TotalAppend(keys[1..], k, groups);
    }
  }

  /** Replacing the array of a key listed at most once changes the total by the change in its length. */
  lemma {:induction false} TotalUpdate<K, V>(keys: seq<K>, groups: map<K, seq<V>>, k: K, vs: seq<V>)
    requires Distinct(keys)
    ensures Total(keys, groups[k := vs]) ==
      if k in keys then Total(keys, groups) - |GroupOf(groups, k)| + |vs| else Total(keys, groups)
    decreases |keys|
  {
    if |keys| > 0 {
      TotalUpdate(keys[1..], groups, k, vs);
      if keys[0] == k {
        assert k !in keys[1..];
      }
    }
  }

  /** The arrays together hold one value per item. */
  lemma {:induction false} GroupTotal<K, V>(items: seq<(K, V)>)
    ensures Total(Group(items).order, Group(items).groups) == |items|
    decreases |items|
  {
    if |items| > 0 {
      var prefix, last := items[..|items| - 1], items[|items| - 1];
      GroupTotal(prefix);
      GroupHoldsValuesFor(prefix);
      var g := Group(prefix);
      if last.0 in g.groups {
        TotalUpdate(g.order, g.groups, last.0, g.groups[last.0] + [last.1]);
      } else {
        TotalAppend(g.order, last.0, g.groups[last.0 := [last.1]]);
        TotalUpdate(g.order, g.groups, last.0, [last.1]);
      }
    }
  }

  // Re-keying: grouping by `f(key)` instead of `key`.

  /** The items with each key replaced by its image under `f`. */
  function MapKeys<K, K2, V>(items: seq<(K, V)>, f: K -> K2): seq<(K2, V)> {
    seq(|items|, i requires 0 <= i < |items| => (f(items[i].0), items[i].1))
  }

  lemma MapKeysAppend<K, K2, V>(a: seq<(K, V)>, b: seq<(K, V)>, f: K -> K2)
    ensures MapKeys(a + b, f) == MapKeys(a, f) + MapKeys(b, f)
  {
  }

  /** `f` never sends two different keys of the items to the same image. */
  predicate InjectiveOn<K(==), K2(==), V>(items: seq<(K, V)>, f: K -> K2) {
    forall i, j :: 0 <= i < |items| && 0 <= j < |items| && f(items[i].0) == f(items[j].0) ==> items[i].0 == items[j].0
  }

  /** The first occurrence of a key present in the items carries that key. */
  lemma {:induction false} FirstIndexIsKey<K, V>(items: seq<(K, V)>, k: K)
    requires FirstIndex(items, k) < |items|
    ensures items[FirstIndex(items, k)].0 == k
    decreases |items|
  {
    if items[0].0 != k {
      FirstIndexIsKey(items[1..], k);
    }
  }

  /** A grouped key is the key of some item. */
  lemma KeyOccurs<K, V>(items: seq<(K, V)>, k: K) returns (r: nat)
    requires k in Group(items).groups
    ensures r < |items| && items[r].0 == k
  {
    GroupHoldsValuesFor(items);
    GroupKeysInFirstSeenOrder(items);
    r := FirstIndex(items, k);
    FirstIndexIsKey(items, k);
  }

  /**
   * Grouping by an injective image of the key groups the same values, in the
   * same order: the i-th key is the image of the i-th key, and the image of
   * each key holds that key's values.
   */
  lemma {:induction false} GroupMapKeys<K, K2, V>(items: seq<(K, V)>, f: K -> K2)
    requires InjectiveOn(items, f)
    ensures |Group(MapKeys(items, f)).order| == |Group(items).order|
    ensures forall i :: 0 <= i < |Group(items).order| ==> Group(MapKeys(items, f)).order[i] == f(Group(items).order[i])
    ensures forall k :: k in Group(items).groups ==>
      f(k) in Group(MapKeys(items, f)).groups && Group(MapKeys(items, f)).groups[f(k)] == Group(items).groups[k]
    decreases |items|
  {
    if |items| > 0 {
      var n := |items| - 1;
      var prefix, last := items[..n], items[n];
      assert InjectiveOn(prefix, f) by {
        forall i, j | 0 <= i < |prefix| && 0 <= j < |prefix| && f(prefix[i].0) == f(prefix[j].0)
          ensures prefix[i].0 == prefix[j].0
        {
          assert prefix[i] == items[i] && prefix[j] == items[j];
        }
      }
      GroupMapKeys(prefix, f);
      var mapped := MapKeys(items, f);
      assert mapped[..n] == MapKeys(prefix, f);
      assert mapped[n] == (f(last.0), last.1);
      var g, h := Group(prefix), Group(MapKeys(prefix, f));
      assert Group(items) == Push(g, last.0, last.1);
      assert Group(mapped) == Push(h, f(last.0), last.1);
      GroupHoldsValuesFor(MapKeys(prefix, f));
      GroupHoldsValuesFor(prefix);
      // Keys other than the last one's have images other than its image.
      forall k | k in g.groups && k != last.0 ensures f(k) != f(last.0) {
        var r := KeyOccurs(prefix, k);
        assert items[r].0 == k;
      }
      // So the last image is new exactly when the last key is.
      forall k2 | k2 in h.groups ensures k2 == f(last.0) ==> last.0 in g.groups {
        var i :| 0 <= i < |h.order| && h.order[i] == k2;
        assert g.order[i] in g.groups;
      }
    }
  }
}
