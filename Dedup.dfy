/**
 * The "keep the first element for each key" filter that the layout code writes
 * twice: `if (seen.includes(key(d))) return false; seen.push(key(d)); return true`.
 * UniqueBy is its specification; the two filters are loops proved against it.
 */
module Dedup {

  /** The keys of `s`, in order. */
  function Keys<T, K>(s: seq<T>, key: T -> K): (r: seq<K>)
    ensures |r| == |s|
    ensures forall i :: 0 <= i < |s| ==> r[i] == key(s[i])
  {
    if s == [] then [] else Keys(s[..|s| - 1], key) + [key(s[|s| - 1])]
  }

  /** The identity key, for lists whose elements are their own keys. */
  function Id(x: string): string
  {
    x
  }

  lemma {:induction false} KeysOfId(s: seq<string>)
    ensures Keys(s, Id) == s
  {
    if s != [] {
      KeysOfId(s[..|s| - 1]);
    }
  }

  /** The elements of `s` whose key did not occur earlier in `s`, in input order. */
  function UniqueBy<T, K(==)>(s: seq<T>, key: T -> K): seq<T>
  {
    if s == [] then []
    else
      var init := s[..|s| - 1];
      if key(s[|s| - 1]) in Keys(init, key) then UniqueBy(init, key)
      else UniqueBy(init, key) + [s[|s| - 1]]
  }

  /** The index of the first element of `s` with key `k`. */
  function FirstIndex<T, K(==)>(s: seq<T>, key: T -> K, k: K): (i: nat)
    requires k in Keys(s, key)
    ensures i < |s| && key(s[i]) == k
    ensures forall j :: 0 <= j < i ==> key(s[j]) != k
  {
    if key(s[0]) == k then 0
    else
      assert k in Keys(s[1..], key) by {
        var j :| 0 <= j < |s| && Keys(s, key)[j] == k;
        assert Keys(s[1..], key)[j - 1] == k;
      }
      1 + FirstIndex(s[1..], key, k)
  }

  lemma {:induction false} UniqueByKeys<T, K>(s: seq<T>, key: T -> K)
    ensures forall k :: k in Keys(UniqueBy(s, key), key) ==> k in Keys(s, key)
    ensures forall k :: k in Keys(s, key) ==> k in Keys(UniqueBy(s, key), key)
  {
    if s != [] {
      var init, last := s[..|s| - 1], s[|s| - 1];
      UniqueByKeys(init, key);
      assert Keys(s, key) == Keys(init, key) + [key(last)];
      if key(last) !in Keys(init, key) {
        assert Keys(UniqueBy(init, key) + [last], key) == Keys(UniqueBy(init, key), key) + [key(last)];
      }
    }
  }

  /** With the identity as key, UniqueBy keeps exactly the values of `s`. */
  lemma UniqueByIdMembers(s: seq<string>)
    ensures forall x :: x in UniqueBy(s, Id) <==> x in s
  {
    UniqueByKeys(s, Id);
    KeysOfId(s);
    KeysOfId(UniqueBy(s, Id));
  }

  /** No two elements that UniqueBy keeps share a key. */
  lemma {:induction false} UniqueByDistinct<T, K>(s: seq<T>, key: T -> K)
    ensures forall i, j :: 0 <= i < j < |UniqueBy(s, key)| ==>
      key(UniqueBy(s, key)[i]) != key(UniqueBy(s, key)[j])
  {
    if s != [] {
      var init, last := s[..|s| - 1], s[|s| - 1];
      UniqueByDistinct(init, key);
      UniqueByKeys(init, key);
      var u0 := UniqueBy(init, key);
      if key(last) !in Keys(init, key) {
        assert UniqueBy(s, key) == u0 + [last];
        forall i | 0 <= i < |u0| ensures key(u0[i]) != key(last) {
          assert Keys(u0, key)[i] == key(u0[i]);
        }
      } else {
        assert UniqueBy(s, key) == u0;
      }
    }
  }

  /** When no two elements share a key, UniqueBy keeps every element, in order. */
  lemma {:induction false} UniqueByOfDistinct<T, K>(s: seq<T>, key: T -> K)
    requires forall i, j :: 0 <= i < j < |s| ==> key(s[i]) != key(s[j])
    ensures UniqueBy(s, key) == s
  {
    if s != [] {
      var init, last := s[..|s| - 1], s[|s| - 1];
      UniqueByOfDistinct(init, key);
      forall i | 0 <= i < |init| ensures Keys(init, key)[i] != key(last) {
        assert key(s[i]) != key(s[|s| - 1]);
      }
      assert s == init + [last];
    }
  }

  lemma FirstIndexOfPrefix<T, K>(p: seq<T>, s: seq<T>, key: T -> K, k: K)
    requires p <= s && k in Keys(p, key)
    ensures k in Keys(s, key) && FirstIndex(s, key, k) == FirstIndex(p, key, k)
  {
    var i := FirstIndex(p, key, k);
    assert Keys(s, key)[i] == k;
  }

  /** Each element UniqueBy keeps is the first element of `s` with its key. */
  lemma {:induction false} UniqueByKeepsFirst<T, K>(s: seq<T>, key: T -> K)
    ensures forall j :: 0 <= j < |UniqueBy(s, key)| ==>
      key(UniqueBy(s, key)[j]) in Keys(s, key) &&
      UniqueBy(s, key)[j] == s[FirstIndex(s, key, key(UniqueBy(s, key)[j]))]
  {
    if s != [] {
      var init, last := s[..|s| - 1], s[|s| - 1];
      UniqueByKeepsFirst(init, key);
      UniqueByKeys(init, key);
      var u0 := UniqueBy(init, key);
      forall j | 0 <= j < |u0|
        ensures key(u0[j]) in Keys(s, key) && u0[j] == s[FirstIndex(s, key, key(u0[j]))]
      {
        assert Keys(u0, key)[j] == key(u0[j]);
        FirstIndexOfPrefix(init, s, key, key(u0[j]));
        assert init[FirstIndex(init, key, key(u0[j]))] == s[FirstIndex(init, key, key(u0[j]))];
      }
      if key(last) !in Keys(init, key) {
        assert UniqueBy(s, key) == u0 + [last];
        assert Keys(s, key)[|s| - 1] == key(last);
        assert FirstIndex(s, key, key(last)) == |s| - 1;
      } else {
        assert UniqueBy(s, key) == u0;
      }
    }
  }

  /** The elements kept from a list have the same first index once an element is appended. */
  lemma UniqueByInitFirstIndices<T, K>(init: seq<T>, last: T, key: T -> K)
    ensures forall j :: 0 <= j < |UniqueBy(init, key)| ==>
      key(UniqueBy(init, key)[j]) in Keys(init, key) &&
      key(UniqueBy(init, key)[j]) in Keys(init + [last], key) &&
      FirstIndex(init + [last], key, key(UniqueBy(init, key)[j])) ==
        FirstIndex(init, key, key(UniqueBy(init, key)[j])) < |init|
  {
    var u0 := UniqueBy(init, key);
    UniqueByKeys(init, key);
    forall j | 0 <= j < |u0|
      ensures key(u0[j]) in Keys(init, key) && key(u0[j]) in Keys(init + [last], key)
      ensures FirstIndex(init + [last], key, key(u0[j])) == FirstIndex(init, key, key(u0[j])) < |init|
    {
      assert Keys(u0, key)[j] == key(u0[j]);
      FirstIndexOfPrefix(init, init + [last], key, key(u0[j]));
    }
  }

  /** UniqueBy keeps input order: its elements' first indices increase. */
  lemma {:induction false} UniqueByOrdered<T, K>(s: seq<T>, key: T -> K)
    ensures forall i, j :: 0 <= i < j < |UniqueBy(s, key)| ==>
      key(UniqueBy(s, key)[i]) in Keys(s, key) && key(UniqueBy(s, key)[j]) in Keys(s, key) &&
      FirstIndex(s, key, key(UniqueBy(s, key)[i])) < FirstIndex(s, key, key(UniqueBy(s, key)[j]))
  {
    if s == [] {
      assert UniqueBy(s, key) == [];
    } else {
      var init, last := s[..|s| - 1], s[|s| - 1];
      UniqueByOrdered(init, key);
      UniqueByInitFirstIndices(init, last, key);
      assert s == init + [last];
      var u0 := UniqueBy(init, key);
      var u := UniqueBy(s, key);
      if key(last) !in Keys(init, key) {
        assert u == u0 + [last];
        assert Keys(s, key)[|s| - 1] == key(last);
        assert FirstIndex(s, key, key(last)) == |s| - 1;
      } else {
        assert u == u0;
      }
      forall i, j | 0 <= i < j < |u|
        ensures key(u[i]) in Keys(s, key) && key(u[j]) in Keys(s, key)
        ensures FirstIndex(s, key, key(u[i])) < FirstIndex(s, key, key(u[j]))
      {
        assert u[i] == u0[i];
        if j < |u0| {
          assert u[j] == u0[j];
          assert FirstIndex(init, key, key(u0[i])) < FirstIndex(init, key, key(u0[j]));
        }
      }
    }
  }

  /**
   * The filter loop: `seen` holds the keys kept so far, and an element is kept
   * when its key is not yet in `seen`.
   */
  method KeepFirst<T, K(==)>(s: seq<T>, key: T -> K) returns (kept: seq<T>)
    ensures kept == UniqueBy(s, key)
  {
    var seen: seq<K> := [];
    kept := [];
    var i := 0;
    while i < |s|
      invariant 0 <= i <= |s|
      invariant kept == UniqueBy(s[..i], key)
      invariant seen == Keys(kept, key)
    {
      UniqueByKeys(s[..i], key);
      assert s[..i + 1][..i] == s[..i];
      if key(s[i]) !in seen {
        seen := seen + [key(s[i])];
        kept := kept + [s[i]];
      }
      i := i + 1;
    }
    assert s[..i] == s;
  }
}
