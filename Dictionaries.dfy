/**
 * The two ways the lookup builders fill a dictionary in a loop over a list:
 * appending each item to the list under its key (group-by), and setting the
 * key of each item to a value, a later item overwriting an earlier one.
 */
module Dictionaries {
  import opened Dedup

  // ---------------------------------------------------------------------------
  // Group-by: `rows = lookup[key] || []; rows.push(item); lookup[key] = rows`
  // ---------------------------------------------------------------------------

  /** The items whose key is k, in input order. */
  function Select<T, K(==)>(items: seq<T>, key: T -> K, k: K): (r: seq<T>)
    ensures |r| <= |items|
    ensures forall x :: x in r ==> x in items && key(x) == k
  {
    if items == [] then []
    else
      var last := items[|items| - 1];
      Select(items[..|items| - 1], key, k) + (if key(last) == k then [last] else [])
  }

  function GroupBy<T, K(==)>(items: seq<T>, key: T -> K): map<K, seq<T>>
  {
    if items == [] then map[]
    else
      var last := items[|items| - 1];
      var lookup := GroupBy(items[..|items| - 1], key);
      lookup[key(last) := (if key(last) in lookup then lookup[key(last)] else []) + [last]]
  }

  /**
   * The dictionary has a key exactly for the keys of the items, and under
   * each key the items with that key, in input order.
   */
  lemma {:induction false} GroupByBuckets<T, K>(items: seq<T>, key: T -> K)
    ensures forall k :: k in GroupBy(items, key) <==> k in Keys(items, key)
    ensures forall k :: k in GroupBy(items, key) ==> GroupBy(items, key)[k] == Select(items, key, k)
  {
    if items != [] {
      var init, last := items[..|items| - 1], items[|items| - 1];
      GroupByBuckets(init, key);
      assert Keys(items, key) == Keys(init, key) + [key(last)];
      forall k | k in GroupBy(init, key) && k != key(last)
        ensures Select(items, key, k) == Select(init, key, k)
      {
      }
      if key(last) !in GroupBy(init, key) {
        SelectAbsent(init, key, key(last));
      }
    }
  }

  lemma {:induction false} SelectAbsent<T, K>(items: seq<T>, key: T -> K, k: K)
    requires k !in GroupBy(items, key)
    ensures Select(items, key, k) == []
  {
    if items != [] {
      SelectAbsent(items[..|items| - 1], key, k);
    }
  }

  /** The group-by loop. */
  method GroupInto<T, K(==)>(items: seq<T>, key: T -> K) returns (lookup: map<K, seq<T>>)
    ensures lookup == GroupBy(items, key)
  {
    lookup := map[];
    var i := 0;
    while i < |items|
      invariant 0 <= i <= |items|
      invariant lookup == GroupBy(items[..i], key)
    {
      var k := key(items[i]);
      var rows := if k in lookup then lookup[k] else [];
      rows := rows + [items[i]];
      lookup := lookup[k := rows];
      assert items[..i + 1][..i] == items[..i];
      i := i + 1;
    }
    assert items[..i] == items;
  }

  /** The total size of the groups of the keys `ks`. */
  function GroupSizes<T, K(==)>(items: seq<T>, key: T -> K, ks: seq<K>): nat
  {
    if ks == [] then 0 else |Select(items, key, ks[0])| + GroupSizes(items, key, ks[1..])
  }

  function Occurrences<K(==)>(ks: seq<K>, k: K): nat
  {
    if ks == [] then 0 else (if ks[0] == k then 1 else 0) + Occurrences(ks[1..], k)
  }

  lemma {:induction false} GroupSizesAppend<T, K>(items: seq<T>, key: T -> K, x: T, ks: seq<K>)
    ensures GroupSizes(items + [x], key, ks) == GroupSizes(items, key, ks) + Occurrences(ks, key(x))
  {
    if ks != [] {
      GroupSizesAppend(items, key, x, ks[1..]);
      assert (items + [x])[..|items|] == items;
    }
  }

  lemma {:induction false} OccursOnce<K>(ks: seq<K>, k: K)
    requires forall i, j :: 0 <= i < j < |ks| ==> ks[i] != ks[j]
    requires k in ks
    ensures Occurrences(ks, k) == 1
  {
    if ks[0] == k {
      assert Occurrences(ks[1..], k) == 0 by { NotOccurring(ks[1..], k); }
    } else {
      OccursOnce(ks[1..], k);
    }
  }

  lemma {:induction false} NotOccurring<K>(ks: seq<K>, k: K)
    requires k !in ks
    ensures Occurrences(ks, k) == 0
  {
    if ks != [] {
      NotOccurring(ks[1..], k);
    }
  }

  /**
   * Grouping loses and duplicates nothing: over any list of distinct keys
   * that covers every item's key, the group sizes add up to the item count.
   */
  lemma {:induction false} GroupSizesCover<T, K>(items: seq<T>, key: T -> K, ks: seq<K>)
    requires forall i, j :: 0 <= i < j < |ks| ==> ks[i] != ks[j]
    requires forall i :: 0 <= i < |items| ==> key(items[i]) in ks
    ensures GroupSizes(items, key, ks) == |items|
  {
    if items == [] {
      EmptyGroupSizes(key, ks);
    } else {
      var init, last := items[..|items| - 1], items[|items| - 1];
      GroupSizesCover(init, key, ks);
      assert init + [last] == items;
      GroupSizesAppend(init, key, last, ks);
      OccursOnce(ks, key(last));
    }
  }

  lemma {:induction false} EmptyGroupSizes<T, K>(key: T -> K, ks: seq<K>)
    ensures GroupSizes([], key, ks) == 0
  {
    if ks != [] {
      EmptyGroupSizes(key, ks[1..]);
    }
  }

  // ---------------------------------------------------------------------------
  // Keyed assignment: `lookup[key(item)] = value(index, item)`
  // ---------------------------------------------------------------------------

  function Assign<T, K(==), V>(items: seq<T>, key: T -> K, value: (nat, T) -> V): map<K, V>
  {
    if items == [] then map[]
    else
      var n := |items| - 1;
      Assign(items[..n], key, value)[key(items[n]) := value(n, items[n])]
  }

  /** The dictionary has a key exactly for the keys of the items. */
  lemma {:induction false} AssignKeys<T, K, V>(items: seq<T>, key: T -> K, value: (nat, T) -> V)
    ensures forall k :: k in Assign(items, key, value) <==> k in Keys(items, key)
  {
    if items != [] {
      AssignKeys(items[..|items| - 1], key, value);
      assert Keys(items, key) == Keys(items[..|items| - 1], key) + [key(items[|items| - 1])];
    }
  }

  /** The value under the key of an item that no later item shares is that item's value: later items overwrite. */
  lemma {:induction false} AssignLastWins<T, K, V>(items: seq<T>, key: T -> K, value: (nat, T) -> V, i: nat)
    requires i < |items|
    requires forall j :: i < j < |items| ==> key(items[j]) != key(items[i])
    ensures key(items[i]) in Assign(items, key, value)
    ensures Assign(items, key, value)[key(items[i])] == value(i, items[i])
  {
    if i < |items| - 1 {
      AssignLastWins(items[..|items| - 1], key, value, i);
    }
  }

  /** Every value in the dictionary is the value of some item with that key. */
  lemma {:induction false} AssignFrom<T, K, V>(items: seq<T>, key: T -> K, value: (nat, T) -> V, k: K)
    requires k in Assign(items, key, value)
    ensures exists i :: 0 <= i < |items| && key(items[i]) == k && Assign(items, key, value)[k] == value(i, items[i])
  {
    var n := |items| - 1;
    if key(items[n]) != k {
      AssignFrom(items[..n], key, value, k);
      var i :| 0 <= i < n && key(items[..n][i]) == k && Assign(items[..n], key, value)[k] == value(i, items[..n][i]);
      assert items[..n][i] == items[i];
    }
  }
}
