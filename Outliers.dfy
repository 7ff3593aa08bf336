/**
 * Removing outliers from a list of numbers (GC content): sort a copy,
 * estimate the first and third quartiles, and keep the values within one
 * and a half interquartile ranges of them.
 *
 * Values are finite numbers. A quartile read past the end of the list is
 * `undefined`, which arithmetic turns into NaN; only Fin and NaN reach the
 * arithmetic here.
 */
module Outliers {
  import opened JsNumber

  predicate Sorted(s: seq<real>)
  {
    forall i, j :: 0 <= i < j < |s| ==> s[i] <= s[j]
  }

  lemma SortedCons(x: real, s: seq<real>)
    requires Sorted(s)
    requires forall y :: y in s ==> x <= y
    ensures Sorted([x] + s)
  {
    forall i, j | 0 <= i < j < |[x] + s| ensures ([x] + s)[i] <= ([x] + s)[j] {
      assert ([x] + s)[j] == s[j - 1];
      if i > 0 {
        assert ([x] + s)[i] == s[i - 1];
      } else {
        assert s[j - 1] in s;
      }
    }
  }

  lemma SortedSnoc(s: seq<real>, x: real)
    requires Sorted(s)
    requires forall y :: y in s ==> y <= x
    ensures Sorted(s + [x])
  {
    forall i, j | 0 <= i < j < |s + [x]| ensures (s + [x])[i] <= (s + [x])[j] {
      assert (s + [x])[i] == s[i];
      assert s[i] in s;
    }
  }

  function Insert(x: real, s: seq<real>): (r: seq<real>)
    requires Sorted(s)
    ensures Sorted(r)
    ensures |r| == |s| + 1
    ensures forall y :: y in r <==> y == x || y in s
    ensures multiset(r) == multiset(s) + multiset{x}
  {
    if s == [] then [x]
    else if x <= s[0] then
      InsertFront(x, s);
      [x] + s
    else
      var rest := Insert(x, s[1..]);
      assert s == [s[0]] + s[1..];
      InsertBehind(x, s, rest);
      [s[0]] + rest
  }

  lemma InsertFront(x: real, s: seq<real>)
    requires Sorted(s) && s != [] && x <= s[0]
    ensures Sorted([x] + s)
  {
    forall y | y in s ensures x <= y {
      var i :| 0 <= i < |s| && s[i] == y;
    }
    SortedCons(x, s);
  }

  lemma InsertBehind(x: real, s: seq<real>, rest: seq<real>)
    requires Sorted(s) && s != [] && s[0] < x
    requires Sorted(rest) && forall y :: y in rest <==> y == x || y in s[1..]
    ensures Sorted([s[0]] + rest)
  {
    forall y | y in rest ensures s[0] <= y {
      if y != x {
        var i :| 0 <= i < |s[1..]| && s[1..][i] == y;
        assert s[i + 1] == y;
      }
    }
    SortedCons(s[0], rest);
  }

  /** `values.slice().sort((a, b) => a - b)`: an ascending permutation of the input. */
  function SortNumbers(s: seq<real>): (r: seq<real>)
    ensures Sorted(r)
    ensures |r| == |s|
    ensures multiset(r) == multiset(s)
  {
    if s == [] then []
    else
      assert s == [s[0]] + s[1..];
      Insert(s[0], SortNumbers(s[1..]))
  }

  /** `values[i]`: undefined (NaN in arithmetic) outside the list. */
  function At(values: seq<real>, i: int): (r: Num)
    ensures r.Fin? <==> 0 <= i < |values|
  {
    if 0 <= i < |values| then Fin(values[i]) else NaN
  }

  /** `(1 / 2) * (a + b)` */
  function Mean(a: Num, b: Num): (r: Num)
    ensures r.Fin? <==> a.Fin? && b.Fin?
    ensures r.Fin? ==> Min(a.v, b.v) <= r.v <= Max(a.v, b.v)
  {
    if a.Fin? && b.Fin? then Fin((a.v + b.v) / 2.0) else NaN
  }

  /** The two positions whose mean estimates each quartile; both the same when it is one element. */
  datatype QuartileIndices = QuartileIndices(q1a: int, q1b: int, q3a: int, q3b: int)

  /**
   * The positions as written for n values: n/4 and n/4 + 1 and 3n/4 and
   * 3n/4 + 1 when 4 divides n; otherwise floor(n/4 + 1) and ceil(3n/4 + 1).
   */
  function IndicesAsWritten(n: nat): QuartileIndices
  {
    if n % 4 == 0 then QuartileIndices(n / 4, n / 4 + 1, 3 * n / 4, 3 * n / 4 + 1)
    else QuartileIndices(n / 4 + 1, n / 4 + 1, (3 * n + 3) / 4 + 1, (3 * n + 3) / 4 + 1)
  }

  function Clamp(i: int, n: nat): int
  {
    if i < n then i else n - 1
  }

  /** The positions with each one past the end moved back to the last element. */
  function IndicesClamped(n: nat): (ix: QuartileIndices)
    requires n >= 4
    ensures 0 <= ix.q1a <= ix.q1b <= ix.q3a <= ix.q3b < n
  {
    var ix := IndicesAsWritten(n);
    QuartileIndices(Clamp(ix.q1a, n), Clamp(ix.q1b, n), Clamp(ix.q3a, n), Clamp(ix.q3b, n))
  }

  /** The floor and ceiling of `(n/4) % 1 === 0`, `Math.floor(n/4 + 1)` and `Math.ceil(n*(3/4) + 1)`. */
  lemma IndicesAsWrittenMatchFormulas(n: nat)
    ensures n % 4 == 0 ==> IndicesAsWritten(n).q3a * 4 == 3 * n
    ensures n % 4 != 0 ==> (IndicesAsWritten(n).q1a - 1) as real <= n as real / 4.0 < IndicesAsWritten(n).q1a as real
    ensures n % 4 != 0 ==> (IndicesAsWritten(n).q3a - 2) as real < 3.0 * n as real / 4.0 <= (IndicesAsWritten(n).q3a - 1) as real
  {
  }

  /**
   * Every position as written is in range except the third quartile's last:
   * that one is in range exactly when there are at least eight values.
   */
  lemma IndicesAsWrittenInRange(n: nat)
    requires n >= 4
    ensures var ix := IndicesAsWritten(n); 0 <= ix.q1a <= ix.q1b <= ix.q3a <= ix.q3b && ix.q1b < n
    ensures IndicesAsWritten(n).q3b < n <==> n >= 8
  {
  }

  /**
   * The values within 1.5 interquartile ranges of the quartiles, in order.
   * With a NaN quartile both fences are NaN and no comparison holds.
   */
  function Fences(q1: Num, q3: Num): (fence: (Num, Num))
    ensures q1.Fin? && q3.Fin? ==>
      fence == (Fin(q1.v - 1.5 * (q3.v - q1.v)), Fin(q3.v + 1.5 * (q3.v - q1.v)))
    ensures !q1.Fin? || !q3.Fin? ==> fence.0.NaN? && fence.1.NaN?
  {
    var iqr := Sub(q3, q1);
    if q1.Fin? && q3.Fin? then (Fin(q1.v - iqr.v * 1.5), Fin(q3.v + iqr.v * 1.5))
    else (NaN, NaN)
  }

  /** `values.filter((x) => x >= minValue && x <= maxValue)` */
  function Between(values: seq<real>, lo: Num, hi: Num): (r: seq<real>)
    ensures forall x :: x in r <==> x in values && LessEq(lo, Fin(x)) && LessEq(Fin(x), hi)
    ensures multiset(r) <= multiset(values)
    ensures lo.NaN? || hi.NaN? ==> r == []
  {
    if values == [] then []
    else
      var last := values[|values| - 1];
      var init := values[..|values| - 1];
      assert values == init + [last];
      Between(init, lo, hi) + (if LessEq(lo, Fin(last)) && LessEq(Fin(last), hi) then [last] else [])
  }

  /** Filtering keeps the order: a sorted list filters to a sorted list. */
  lemma {:induction false} BetweenSorted(values: seq<real>, lo: Num, hi: Num)
    requires Sorted(values)
    ensures Sorted(Between(values, lo, hi))
  {
    if values != [] {
      var n := |values| - 1;
      var last, init := values[n], values[..n];
      assert values == init + [last];
      SortedInit(init, last);
      BetweenSorted(init, lo, hi);
      var rest := Between(init, lo, hi);
      if LessEq(lo, Fin(last)) && LessEq(Fin(last), hi) {
        assert Between(values, lo, hi) == rest + [last];
        assert forall y :: y in rest ==> y <= last;
        SortedSnoc(rest, last);
      } else {
        assert Between(values, lo, hi) == rest + [];
        assert rest + [] == rest;
      }
    }
  }

  /** Dropping the last element of a sorted list leaves a sorted list whose elements are at most that last one. */
  lemma SortedInit(init: seq<real>, last: real)
    requires Sorted(init + [last])
    ensures Sorted(init)
    ensures forall y :: y in init ==> y <= last
  {
    var s := init + [last];
    assert forall i :: 0 <= i < |init| ==> init[i] == s[i];
    forall y | y in init ensures y <= last {
      var i :| 0 <= i < |init| && init[i] == y;
      assert s[i] <= s[|init|];
    }
  }

  function Quartile(values: seq<real>, a: int, b: int): Num
  {
    Mean(At(values, a), At(values, b))
  }

  /** Sorting, then keeping the values between the fences the quartile positions give. */
  function FilterWith(values: seq<real>, ix: QuartileIndices): seq<real>
  {
    var fence := Fences(Quartile(values, ix.q1a, ix.q1b), Quartile(values, ix.q3a, ix.q3b));
    Between(values, fence.0, fence.1)
  }

  /** filterOutliers as written: fewer than four values are returned as they are. */
  function FilterOutliersAsWritten(someArray: seq<real>): seq<real>
  {
    if |someArray| < 4 then someArray
    else FilterWith(SortNumbers(someArray), IndicesAsWritten(|someArray|))
  }

  /** For four to seven values the third quartile reads past the end, so nothing is kept: [1, 2, 3, 4] gives []. */
  lemma AsWrittenDropsEverything(someArray: seq<real>)
    requires 4 <= |someArray| < 8
    ensures FilterOutliersAsWritten(someArray) == []
  {
    var values := SortNumbers(someArray);
    IndicesAsWrittenInRange(|someArray|);
    var ix := IndicesAsWritten(|someArray|);
    var q3 := Quartile(values, ix.q3a, ix.q3b);
    assert At(values, ix.q3b).NaN?;
    assert q3.NaN?;
    var fence := Fences(Quartile(values, ix.q1a, ix.q1b), q3);
    assert fence.0.NaN?;
    assert FilterOutliersAsWritten(someArray) == Between(values, fence.0, fence.1);
  }

  /** The quartiles with every position kept inside the list: values of the sorted list, first not above third. */
  function Quartiles(someArray: seq<real>): (q: (real, real))
    requires |someArray| >= 4
    ensures q.0 <= q.1
    ensures var values := SortNumbers(someArray); var ix := IndicesClamped(|someArray|);
      Quartile(values, ix.q1a, ix.q1b) == Fin(q.0) && Quartile(values, ix.q3a, ix.q3b) == Fin(q.1)
  {
    var values := SortNumbers(someArray);
    var ix := IndicesClamped(|someArray|);
    assert values[ix.q1a] <= values[ix.q1b] <= values[ix.q3a] <= values[ix.q3b];
    (Quartile(values, ix.q1a, ix.q1b).v, Quartile(values, ix.q3a, ix.q3b).v)
  }

  /** Within one and a half interquartile ranges below the first quartile and above the third. */
  predicate InFences(q: (real, real), x: real)
  {
    q.0 - 1.5 * (q.1 - q.0) <= x <= q.1 + 1.5 * (q.1 - q.0)
  }

  /**
   * filterOutliers with every quartile position kept inside the list: fewer
   * than four values come back as they are; otherwise the values within the
   * fences, in ascending order.
   */
  function FilterOutliers(someArray: seq<real>): (r: seq<real>)
    ensures |someArray| < 4 ==> r == someArray
    ensures |someArray| >= 4 ==> Sorted(r) && multiset(r) <= multiset(someArray)
  {
    if |someArray| < 4 then someArray
    else
      var values := SortNumbers(someArray);
      var ix := IndicesClamped(|someArray|);
      var fence := Fences(Quartile(values, ix.q1a, ix.q1b), Quartile(values, ix.q3a, ix.q3b));
      BetweenSorted(values, fence.0, fence.1);
      Between(values, fence.0, fence.1)
  }

  /** From four values on, a value is kept exactly when it is one of the input values and lies within the fences. */
  lemma FilterOutliersKeeps(someArray: seq<real>)
    requires |someArray| >= 4
    ensures forall x :: x in FilterOutliers(someArray) <==> x in someArray && InFences(Quartiles(someArray), x)
  {
    var values := SortNumbers(someArray);
    var q := Quartiles(someArray);
    var ix := IndicesClamped(|someArray|);
    var fence := Fences(Quartile(values, ix.q1a, ix.q1b), Quartile(values, ix.q3a, ix.q3b));
    assert fence == (Fin(q.0 - 1.5 * (q.1 - q.0)), Fin(q.1 + 1.5 * (q.1 - q.0)));
    var r := Between(values, fence.0, fence.1);
    assert FilterOutliers(someArray) == r;
    forall x ensures x in r <==> x in someArray && InFences(q, x) {
      assert x in values <==> x in multiset(values);
      LessEqFinite(fence.0.v, x);
      LessEqFinite(x, fence.1.v);
    }
  }

  lemma LessEqFinite(a: real, b: real)
    ensures LessEq(Fin(a), Fin(b)) <==> a <= b
  {
  }

  /** From eight values on every position as written is in range, and the correction changes nothing. */
  lemma CorrectedAgreesFromEight(someArray: seq<real>)
    requires |someArray| >= 8
    ensures FilterOutliers(someArray) == FilterOutliersAsWritten(someArray)
  {
    IndicesAsWrittenInRange(|someArray|);
    assert IndicesClamped(|someArray|) == IndicesAsWritten(|someArray|);
  }

  /** Every value from the first quartile to the third is kept. */
  lemma CorrectedKeepsInterquartileValues(someArray: seq<real>, x: real)
    requires |someArray| >= 4
    requires x in someArray
    requires Quartiles(someArray).0 <= x <= Quartiles(someArray).1
    ensures x in FilterOutliers(someArray)
  {
    FilterOutliersKeeps(someArray);
    var q := Quartiles(someArray);
    assert InFences(q, x);
  }

  /** From four values on the result is never empty: the sorted value at the first quartile's upper position survives. */
  lemma CorrectedIsNonEmpty(someArray: seq<real>)
    requires |someArray| >= 4
    ensures FilterOutliers(someArray) != []
  {
    var values := SortNumbers(someArray);
    var ix := IndicesClamped(|someArray|);
    var x := values[ix.q1b];
    assert x in multiset(values);
    assert x in someArray;
    assert values[ix.q1a] <= x <= values[ix.q3a];
    CorrectedKeepsInterquartileValues(someArray, x);
  }
}
