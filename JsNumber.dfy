/**
 * JavaScript numbers where the layout code depends on their non-finite values,
 * and the scalar helpers (Math.sign, Math.abs, Math.max, Math.min) over reals.
 *
 * Math.log2, Math.sqrt and Math.pow(x, 1/10) are represented by concrete
 * stand-ins: piecewise-linear interpolations that are exact at the powers of
 * two (log2) or at the powers of the base (roots). The model relies only on
 * their zero and sign facts, which the stand-ins share with the real functions.
 */
module JsNumber {

  /** A JavaScript number: finite, NaN (also what `x + undefined` gives), or an infinity. */
  datatype Num = Fin(v: real) | NaN | Inf(positive: bool)

  /** Math.sign on a finite number. */
  function Sign(x: real): (r: real)
    ensures r == 1.0 || r == 0.0 || r == -1.0
    ensures r > 0.0 <==> x > 0.0
    ensures r < 0.0 <==> x < 0.0
  {
    if x > 0.0 then 1.0 else if x < 0.0 then -1.0 else 0.0
  }

  /** Math.abs on a finite number. */
  function Abs(x: real): (r: real)
    ensures r >= 0.0
    ensures r == x || r == -x
  {
    if x < 0.0 then -x else x
  }

  function Max(a: real, b: real): (r: real)
    ensures r >= a && r >= b && (r == a || r == b)
  {
    if a >= b then a else b
  }

  function Min(a: real, b: real): (r: real)
    ensures r <= a && r <= b && (r == a || r == b)
  {
    if a <= b then a else b
  }

  /** JavaScript `a < b`: false whenever either side is NaN. */
  predicate Less(a: Num, b: Num)
  {
    match (a, b)
    case (Fin(x), Fin(y)) => x < y
    case (Fin(_), Inf(p)) => p
    case (Inf(p), Fin(_)) => !p
    case (Inf(p), Inf(q)) => !p && q
    case _ => false
  }

  /** JavaScript `a <= b`: false whenever either side is NaN. */
  predicate LessEq(a: Num, b: Num)
  {
    Less(a, b) || (a == b && !a.NaN?)
  }

  /** JavaScript `a - b`. */
  function Sub(a: Num, b: Num): Num
  {
    match (a, b)
    case (Fin(x), Fin(y)) => Fin(x - y)
    case (Inf(p), Fin(_)) => Inf(p)
    case (Fin(_), Inf(q)) => Inf(!q)
    case (Inf(p), Inf(q)) => if p != q then Inf(p) else NaN
    case _ => NaN
  }

  /** JavaScript `a / b` for finite operands: division by zero gives an infinity or NaN. */
  function Div(a: real, b: real): (r: Num)
    ensures b != 0.0 ==> r == Fin(a / b)
    ensures b == 0.0 ==> (r.NaN? <==> a == 0.0)
  {
    if b != 0.0 then Fin(a / b)
    else if a == 0.0 then NaN
    else Inf(a > 0.0)
  }

  /** JavaScript `a / b`. */
  function DivNum(a: Num, b: Num): (r: Num)
    ensures a.Fin? && b.Fin? ==> r == Div(a.v, b.v)
    ensures a.NaN? || b.NaN? ==> r.NaN?
  {
    match (a, b)
    case (Fin(x), Fin(y)) => Div(x, y)
    case (Inf(p), Fin(y)) => if y < 0.0 then Inf(!p) else Inf(p)
    case (Fin(_), Inf(_)) => Fin(0.0)
    case _ => NaN
  }

  /** Math.max(a, 0) on a JavaScript number: NaN stays NaN. */
  function MaxZero(a: Num): (r: Num)
    ensures r.NaN? <==> a.NaN?
    ensures r.Fin? ==> r.v >= 0.0
    ensures a.Fin? && a.v >= 0.0 ==> r == a
  {
    match a
    case Fin(x) => Fin(Max(x, 0.0))
    case Inf(p) => if p then a else Fin(0.0)
    case NaN => NaN
  }

  // ---------------------------------------------------------------------------
  // Stand-ins for Math.log2, Math.sqrt and Math.pow(x, 1/10)
  // ---------------------------------------------------------------------------

  function Pow2(n: nat): (r: real)
    ensures r >= 1.0
  {
    if n == 0 then 1.0 else 2.0 * Pow2(n - 1)
  }

  /**
   * log2 interpolated linearly between consecutive powers of two at and above 1,
   * and mirrored below 1 (log2(x) = -log2(1/x)).
   */
  function Log2(x: real): real
    requires x > 0.0
  {
    if x >= 1.0 then Log2AtLeastOne(x)
    else
      assert 1.0 / x > 1.0 by { Reciprocal(x); }
      -Log2AtLeastOne(1.0 / x)
  }

  function Log2AtLeastOne(x: real): real
    requires x >= 1.0
    decreases x.Floor
  {
    if x < 2.0 then x - 1.0
    else
      assert (x / 2.0).Floor < x.Floor by { DivFloorDecreases(x, 2.0); }
      1.0 + Log2AtLeastOne(x / 2.0)
  }

  lemma Reciprocal(x: real)
    requires 0.0 < x < 1.0
    ensures 1.0 / x > 1.0
  {
    assert (1.0 / x) * x == 1.0;
  }

  lemma DivFloorDecreases(y: real, b: real)
    requires b >= 2.0 && y >= b
    ensures (y / b).Floor < y.Floor
  {
    assert y / b <= y / 2.0 by {
      assert y / b * b == y;
      assert y / 2.0 * 2.0 == y;
    }
    assert (y / b).Floor as real <= y / b <= y - 1.0;
  }

  /** The stand-in for log2 is exact at every power of two. */
  lemma {:induction false} Log2OfPowerOfTwo(n: nat)
    ensures Log2(Pow2(n)) == n as real
  {
    if n > 0 {
      Log2OfPowerOfTwo(n - 1);
      assert Pow2(n) / 2.0 == Pow2(n - 1);
    }
  }

  lemma {:induction false} Log2AtLeastOneSign(x: real)
    requires x >= 1.0
    ensures Log2AtLeastOne(x) >= 0.0
    ensures Log2AtLeastOne(x) > 0.0 <==> x > 1.0
    decreases x.Floor
  {
    if x >= 2.0 {
      DivFloorDecreases(x, 2.0);
      Log2AtLeastOneSign(x / 2.0);
    }
  }

  /** Like the real log2, the stand-in is negative below 1, zero at 1 and positive above 1. */
  lemma Log2Sign(x: real)
    requires x > 0.0
    ensures Log2(x) < 0.0 <==> x < 1.0
    ensures Log2(x) > 0.0 <==> x > 1.0
  {
    if x >= 1.0 {
      Log2AtLeastOneSign(x);
    } else {
      Reciprocal(x);
      Log2AtLeastOneSign(1.0 / x);
    }
  }

  /**
   * The root stand-in for b in {4, 1024} (square root and tenth root):
   * at and above 1 interpolated linearly between b^n and b^(n+1), mapping
   * b^n to 2^n; below 1 mirrored (root(x) = 1 / root(1/x)).
   */
  function Root(x: real, b: real): real
    requires x >= 0.0 && b >= 4.0
  {
    if x == 0.0 then 0.0
    else if x >= 1.0 then RootAtLeastOne(x, b)
    else
      assert 1.0 / x > 1.0 by { Reciprocal(x); }
      assert RootAtLeastOne(1.0 / x, b) >= 1.0 by { RootAtLeastOneBound(1.0 / x, b); }
      1.0 / RootAtLeastOne(1.0 / x, b)
  }

  function RootAtLeastOne(x: real, b: real): real
    requires x >= 1.0 && b >= 4.0
    decreases x.Floor
  {
    if x < b then 1.0 + (x - 1.0) / (b - 1.0)
    else
      assert (x / b).Floor < x.Floor by { DivFloorDecreases(x, b); }
      2.0 * RootAtLeastOne(x / b, b)
  }

  lemma {:induction false} RootAtLeastOneBound(x: real, b: real)
    requires x >= 1.0 && b >= 4.0
    ensures RootAtLeastOne(x, b) >= 1.0
    decreases x.Floor
  {
    if x >= b {
      DivFloorDecreases(x, b);
      RootAtLeastOneBound(x / b, b);
    }
  }

  /** Like the real roots, the stand-in is zero exactly at zero and positive elsewhere. */
  lemma RootSign(x: real, b: real)
    requires x >= 0.0 && b >= 4.0
    ensures Root(x, b) >= 0.0
    ensures Root(x, b) > 0.0 <==> x > 0.0
  {
    if x >= 1.0 {
      RootAtLeastOneBound(x, b);
    } else if x > 0.0 {
      Reciprocal(x);
      RootAtLeastOneBound(1.0 / x, b);
    }
  }

  /** Math.sqrt */
  function Sqrt(x: real): real
    requires x >= 0.0
  {
    Root(x, 4.0)
  }

  /** Math.pow(x, 1/10) */
  function TenthRoot(x: real): real
    requires x >= 0.0
  {
    Root(x, 1024.0)
  }
}
