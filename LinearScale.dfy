/**
 * d3.scaleLinear as the layout code uses it: a piecewise-linear map given by
 * a list of domain breakpoints and a list of range breakpoints, with clamping
 * off and the default number interpolator. `invert` is the same map with the
 * two lists swapped.
 *
 * Breakpoints are JavaScript numbers, because the layout code builds scales
 * from values (an `invert` of a degenerate scale, an index past the end of a
 * list) that can be NaN.
 */
module LinearScale {
  import opened JsNumber

  datatype Scale = Scale(domain: seq<Num>, range: seq<Num>)

  predicate AllFinite(s: seq<Num>)
  {
    forall i :: 0 <= i < |s| ==> s[i].Fin?
  }

  function Reals(s: seq<Num>): (r: seq<real>)
    requires AllFinite(s)
    ensures |r| == |s|
    ensures forall i :: 0 <= i < |s| ==> s[i] == Fin(r[i])
  {
    if s == [] then [] else [s[0].v] + Reals(s[1..])
  }

  function Reverse(s: seq<real>): (r: seq<real>)
    ensures |r| == |s|
    ensures forall i :: 0 <= i < |s| ==> r[i] == s[|s| - 1 - i]
  {
    if s == [] then [] else Reverse(s[1..]) + [s[0]]
  }

  /**
   * One segment of the scale: d3's normalize(a, b) followed by
   * interpolateNumber(ra, rb). A collapsed segment (a == b) normalizes every
   * input to 0.5, so it maps to the midpoint of its two range values.
   */
  function Interpolate(a: real, b: real, ra: real, rb: real, x: real): (r: real)
    ensures a != b && x == a ==> r == ra
    ensures a != b && x == b ==> r == rb
    ensures a == b ==> r == (ra + rb) / 2.0
  {
    if a == b then ra * 0.5 + rb * 0.5
    else
      var t := (x - a) / (b - a);
      ra * (1.0 - t) + rb * t
  }

  /** d3.bisectRight(xs, x, lo, hi) on ascending breakpoints: the first index in [lo, hi) whose element exceeds x, or hi. */
  function BisectRight(xs: seq<real>, x: real, lo: nat, hi: nat): (k: nat)
    requires lo <= hi <= |xs|
    ensures lo <= k <= hi
    ensures forall i :: lo <= i < k ==> xs[i] <= x
    ensures k < hi ==> xs[k] > x
    decreases hi - lo
  {
    if lo == hi then hi
    else if xs[lo] > x then lo
    else BisectRight(xs, x, lo + 1, hi)
  }

  /**
   * Applying the scale to x. d3 uses the first n = min(|domain|, |range|)
   * breakpoints of each list. With n == 2 it is the single segment
   * (d3's bimap; its swapped form for a descending domain is the same map).
   * With n > 2 the breakpoints are reversed when the domain descends, and the
   * segment is the one before the first breakpoint (from the second to the
   * last but one) that exceeds x (d3's polymap). Fewer than two breakpoints
   * read `undefined` and give NaN.
   */
  function Apply(s: Scale, x: Num): (r: Num)
    ensures r.NaN? || r.Fin?
  {
    var n := if |s.domain| <= |s.range| then |s.domain| else |s.range|;
    if n < 2 || !x.Fin? || !AllFinite(s.domain[..n]) || !AllFinite(s.range[..n]) then NaN
    else
      var ds0 := Reals(s.domain[..n]);
      var rs0 := Reals(s.range[..n]);
      if n == 2 then Fin(Interpolate(ds0[0], ds0[1], rs0[0], rs0[1], x.v))
      else
        var ds := if ds0[n - 1] < ds0[0] then Reverse(ds0) else ds0;
        var rs := if ds0[n - 1] < ds0[0] then Reverse(rs0) else rs0;
        var i := BisectRight(ds, x.v, 1, n - 1) - 1;
        Fin(Interpolate(ds[i], ds[i + 1], rs[i], rs[i + 1], x.v))
  }

  /** scale.invert(y): the scale read backwards, range to domain. */
  function Invert(s: Scale, y: Num): (r: Num)
    ensures r.NaN? || r.Fin?
  {
    Apply(Scale(s.range, s.domain), y)
  }

  /** Finite breakpoints in strictly ascending order. */
  predicate Ascending(s: seq<Num>)
  {
    AllFinite(s) && forall i, j :: 0 <= i < j < |s| ==> s[i].v < s[j].v
  }

  /**
   * A scale whose domain ascends strictly maps each domain breakpoint to the
   * range breakpoint at the same position.
   */
  lemma ApplyAtBreakpoint(s: Scale, k: nat)
    requires |s.domain| == |s.range| >= 2 && Ascending(s.domain) && AllFinite(s.range)
    requires k < |s.domain|
    ensures Apply(s, s.domain[k]) == s.range[k]
  {
    var n := |s.domain|;
    assert s.domain[..n] == s.domain && s.range[..n] == s.range;
    var ds := Reals(s.domain);
    var rs := Reals(s.range);
    var x := ds[k];
    if n > 2 {
      assert !(ds[n - 1] < ds[0]);
      var b := BisectRight(ds, x, 1, n - 1);
      if k < n - 1 {
        assert forall i :: 0 <= i <= k ==> ds[i] <= x;
        assert k + 1 < n - 1 ==> ds[k + 1] > x;
        assert b == k + 1;
      } else {
        assert b == n - 1;
      }
    }
  }

  /**
   * Round trip at a breakpoint: when both lists ascend strictly, inverting
   * the image of a domain breakpoint gives that breakpoint back.
   */
  lemma InvertAtBreakpoint(s: Scale, k: nat)
    requires |s.domain| == |s.range| >= 2 && Ascending(s.domain) && Ascending(s.range)
    requires k < |s.domain|
    ensures Invert(s, Apply(s, s.domain[k])) == s.domain[k]
  {
    ApplyAtBreakpoint(s, k);
    ApplyAtBreakpoint(Scale(s.range, s.domain), k);
  }
}
