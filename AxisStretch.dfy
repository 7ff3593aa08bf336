/**
 * Axis stretching: the scales that map gene coordinates to compressed
 * coordinates and to the window, rebuilding a scale for a new view range,
 * and the compression factor and on-screen width of a gene read off them.
 */
module AxisStretch {
  import opened JsNumber
  import opened LinearScale
  import opened Dedup
  import opened JsArray

  datatype Option<T> = None | Some(value: T)

  /** Reading list element i in JavaScript: `undefined`, which arithmetic turns into NaN, outside the list. */
  function Get(s: seq<Num>, i: int): (r: Num)
    ensures 0 <= i < |s| ==> r == s[i]
    ensures !(0 <= i < |s|) ==> r.NaN?
  {
    if 0 <= i < |s| then s[i] else NaN
  }

  /** JavaScript `a === b` on numbers: NaN equals nothing. */
  predicate StrictEquals(a: Num, b: Num)
  {
    !a.NaN? && a == b
  }

  // ---------------------------------------------------------------------------
  // updateViewportRangeBounds
  // ---------------------------------------------------------------------------

  /** The window: the assignedWindow one, or the first and last points of the reference range. */
  function WindowOf(reference: Scale, assignedWindow: Option<(real, real)>): (w: (Num, Num))
    ensures assignedWindow.Some? ==> w == (Fin(assignedWindow.value.0), Fin(assignedWindow.value.1))
    ensures assignedWindow.None? && reference.range != [] ==>
      w == (reference.range[0], reference.range[|reference.range| - 1])
    ensures assignedWindow.None? && reference.range == [] ==> w.0.NaN? && w.1.NaN?
  {
    match assignedWindow
    case Some((a, b)) => (Fin(a), Fin(b))
    case None => (Get(reference.range, 0), Get(reference.range, |reference.range| - 1))
  }

  /**
   * The scale for a new view range `bounds` of the compressed axis: the
   * reference breakpoints whose compressed point lies in the view, framed by
   * the view bounds. The range is the window edges around the in-view points
   * mapped into the window; the domain is the inverse images of the bounds
   * around the in-view domain points.
   */
  function UpdateViewportRangeBounds(input: Scale, bounds: (real, real), reference: Scale,
                                     assignedWindow: Option<(real, real)>): (r: Scale)
    ensures bounds.0 == bounds.1 ==> r == input
    ensures bounds.0 != bounds.1 ==>
      |r.range| >= 2 &&
      r.range[0] == WindowOf(reference, assignedWindow).0 &&
      r.range[|r.range| - 1] == WindowOf(reference, assignedWindow).1
    ensures bounds.0 != bounds.1 ==>
      |r.domain| >= 2 &&
      r.domain[0] == Invert(reference, Fin(bounds.0)) &&
      r.domain[|r.domain| - 1] == Invert(reference, Fin(bounds.1))
    ensures bounds.0 != bounds.1 && |reference.domain| == |reference.range| ==> |r.domain| == |r.range|
  {
    if bounds.0 == bounds.1 then input
    else
      var compressedRange := reference.range;
      var window := WindowOf(reference, assignedWindow);
      var first := IndexAtOrAfter(compressedRange, bounds.0);
      var last := IndexBeyond(compressedRange, bounds.1);
      var inViewCompressed := JsSlice(compressedRange, first, last);
      var inViewDomain := JsSlice(reference.domain, first, last);
      var toWindow := WindowScale(bounds, window);
      Scale(Framed(Invert(reference, Fin(bounds.0)), inViewDomain, Invert(reference, Fin(bounds.1))),
            Framed(window.0, MapApply(toWindow, inViewCompressed), window.1))
  }

  /**
   * Between its two framing points, the rebuilt scale pairs each reference
   * domain point with the window image of the reference range point at the
   * same index.
   */
  lemma ViewportPointsFromReference(input: Scale, bounds: (real, real), reference: Scale,
                                    assignedWindow: Option<(real, real)>, i: nat)
    requires bounds.0 != bounds.1 && |reference.domain| == |reference.range|
    requires 0 < i < |UpdateViewportRangeBounds(input, bounds, reference, assignedWindow).domain| - 1
    ensures exists j :: (0 <= j < |reference.domain| &&
      UpdateViewportRangeBounds(input, bounds, reference, assignedWindow).domain[i] == reference.domain[j] &&
      UpdateViewportRangeBounds(input, bounds, reference, assignedWindow).range[i] ==
        Apply(WindowScale(bounds, WindowOf(reference, assignedWindow)), reference.range[j]))
  {
    var window := WindowOf(reference, assignedWindow);
    var first := IndexAtOrAfter(reference.range, bounds.0);
    var last := IndexBeyond(reference.range, bounds.1);
    var inViewCompressed := JsSlice(reference.range, first, last);
    var inViewDomain := JsSlice(reference.domain, first, last);
    var toWindow := WindowScale(bounds, window);
    var domain := Framed(Invert(reference, Fin(bounds.0)), inViewDomain, Invert(reference, Fin(bounds.1)));
    var range := Framed(window.0, MapApply(toWindow, inViewCompressed), window.1);
    ViewportShape(input, bounds, reference, assignedWindow);
    SlicesAlign(reference.domain, reference.range, first, last, i - 1);
    var j := SliceBound(first, |reference.domain|) + i - 1;
    assert domain[i] == reference.domain[j];
    FramedMapAt(window.0, toWindow, inViewCompressed, window.1, i);
  }

  lemma FramedMapAt(first: Num, s: Scale, xs: seq<Num>, last: Num, k: nat)
    requires 0 < k <= |xs|
    ensures Framed(first, MapApply(s, xs), last)[k] == Apply(s, xs[k - 1])
  {
  }

  /**
   * The rebuilt scale, for distinct bounds, written out. A proof step for
   * ViewportPointsFromReference: it exposes the two slices so that
   * SlicesAlign can be applied to them.
   */
  lemma ViewportShape(input: Scale, bounds: (real, real), reference: Scale, assignedWindow: Option<(real, real)>)
    requires bounds.0 != bounds.1
    ensures var window := WindowOf(reference, assignedWindow);
      var first := IndexAtOrAfter(reference.range, bounds.0);
      var last := IndexBeyond(reference.range, bounds.1);
      UpdateViewportRangeBounds(input, bounds, reference, assignedWindow) ==
        Scale(Framed(Invert(reference, Fin(bounds.0)), JsSlice(reference.domain, first, last), Invert(reference, Fin(bounds.1))),
              Framed(window.0, MapApply(WindowScale(bounds, window), JsSlice(reference.range, first, last)), window.1))
  {
  }

  /** Slicing two lists of one length at the same bounds picks elements at the same indices. */
  lemma SlicesAlign<T>(xs: seq<T>, ys: seq<T>, first: int, last: int, k: nat)
    requires |xs| == |ys| && k < |JsSlice(xs, first, last)|
    ensures k < |JsSlice(ys, first, last)| && SliceBound(first, |xs|) + k < |xs|
    ensures JsSlice(xs, first, last)[k] == xs[SliceBound(first, |xs|) + k]
    ensures JsSlice(ys, first, last)[k] == ys[SliceBound(first, |xs|) + k]
  {
  }

  /** `[first, ...inner, last]` */
  function Framed(first: Num, inner: seq<Num>, last: Num): (r: seq<Num>)
    ensures |r| == |inner| + 2
    ensures r[0] == first && r[|r| - 1] == last
    ensures forall i :: 0 < i < |r| - 1 ==> r[i] == inner[i - 1]
  {
    [first] + inner + [last]
  }

  /** `xs.map(d => s(d))` */
  function MapApply(s: Scale, xs: seq<Num>): (r: seq<Num>)
    ensures |r| == |xs|
    ensures forall i :: 0 <= i < |xs| ==> r[i] == Apply(s, xs[i])
  {
    seq(|xs|, i requires 0 <= i < |xs| => Apply(s, xs[i]))
  }

  /** The two-point scale from the view bounds to the window. */
  function WindowScale(bounds: (real, real), window: (Num, Num)): (s: Scale)
    ensures |s.domain| == |s.range| == 2
  {
    Scale([Fin(bounds.0), Fin(bounds.1)], [window.0, window.1])
  }

  // ---------------------------------------------------------------------------
  // filterUniquePosition and calculateIndividualScales
  // ---------------------------------------------------------------------------

  /** What the scale code reads of a gene or gene group. */
  datatype GeneSpan = GeneSpan(position: real, endPosition: real, originalPosition: real, width: real)

  function OriginalPositionOf(g: GeneSpan): real
  {
    g.originalPosition
  }

  /**
   * The first gene for each original position, in input order: no two kept
   * genes share an original position, and every original position of the
   * input is kept.
   */
  method FilterUniquePosition(genes: seq<GeneSpan>) returns (unique: seq<GeneSpan>)
    ensures unique == UniqueBy(genes, OriginalPositionOf)
    ensures forall i, j :: 0 <= i < j < |unique| ==> unique[i].originalPosition != unique[j].originalPosition
    ensures forall p :: p in Keys(genes, OriginalPositionOf) <==> p in Keys(unique, OriginalPositionOf)
    ensures forall j :: 0 <= j < |unique| ==>
      unique[j].originalPosition in Keys(genes, OriginalPositionOf) &&
      unique[j] == genes[FirstIndex(genes, OriginalPositionOf, unique[j].originalPosition)]
  {
    unique := KeepFirst(genes, OriginalPositionOf);
    UniqueByDistinct(genes, OriginalPositionOf);
    UniqueByKeys(genes, OriginalPositionOf);
    UniqueByKeepsFirst(genes, OriginalPositionOf);
  }

  /** flatMap(d => [lo(d), hi(d)]): two points per gene, in gene order. */
  function Pairs(genes: seq<GeneSpan>, lo: GeneSpan -> real, hi: GeneSpan -> real): (r: seq<Num>)
    ensures |r| == 2 * |genes|
    ensures forall k :: 0 <= k < |r| ==>
      r[k] == Fin(if k % 2 == 0 then lo(genes[k / 2]) else hi(genes[k / 2]))
  {
    if genes == [] then []
    else
      var rest := Pairs(genes[1..], lo, hi);
      assert forall k :: 2 <= k < 2 * |genes| ==> (k - 2) / 2 == k / 2 - 1 && (k - 2) % 2 == k % 2;
      [Fin(lo(genes[0])), Fin(hi(genes[0]))] + rest
  }

  /**
   * `[first, ...inner, last]`, except that `last` is left off when the last
   * inner point already equals it (`===`). Either way the result ends with
   * `last`.
   */
  function FrameUnlessLast(first: Num, inner: seq<Num>, last: Num): (r: seq<Num>)
    ensures |r| == |inner| + 1 || |r| == |inner| + 2
    ensures |r| == |inner| + 1 <==> inner != [] && StrictEquals(inner[|inner| - 1], last)
    ensures r[0] == first && r[|r| - 1] == last
    ensures r[1..|inner| + 1] == inner
  {
    if inner != [] && StrictEquals(inner[|inner| - 1], last) then [first] + inner
    else [first] + inner + [last]
  }

  /**
   * The scale from gene coordinates to compressed coordinates: one segment
   * [originalPosition, originalPosition + width] -> [position, endPosition]
   * per gene, in gene order.
   */
  function CompressionScale(unique: seq<GeneSpan>): (s: Scale)
    ensures |s.domain| == |s.range| == 2 * |unique|
    ensures forall k :: 0 <= k < |s.domain| ==>
      s.domain[k] == Fin(if k % 2 == 0 then unique[k / 2].originalPosition
                         else unique[k / 2].originalPosition + unique[k / 2].width)
    ensures forall k :: 0 <= k < |s.range| ==>
      s.range[k] == Fin(if k % 2 == 0 then unique[k / 2].position else unique[k / 2].endPosition)
  {
    Scale(Pairs(unique, (d: GeneSpan) => d.originalPosition, (d: GeneSpan) => d.originalPosition + d.width),
          Pairs(unique, (d: GeneSpan) => d.position, (d: GeneSpan) => d.endPosition))
  }

  /**
   * The scale from gene coordinates to the window: the gene breakpoints
   * framed by the inverse images of the compression edges, onto the window
   * images of the compressed breakpoints framed by the window edges. Each
   * upper frame point is left off when the last inner point already equals it.
   */
  function WindowScaleOf(geneToCompression: Scale, compressionEdges: (real, real), windowEdges: (real, real)): (s: Scale)
    ensures |s.domain| >= |geneToCompression.domain| + 1 && |s.range| >= |geneToCompression.range| + 1
    ensures |s.domain| <= |geneToCompression.domain| + 2 && |s.range| <= |geneToCompression.range| + 2
    ensures s.domain[0] == Invert(geneToCompression, Fin(compressionEdges.0))
    ensures s.domain[|s.domain| - 1] == Invert(geneToCompression, Fin(compressionEdges.1))
    ensures s.domain[1..|geneToCompression.domain| + 1] == geneToCompression.domain
    ensures s.range[0] == Fin(windowEdges.0) && s.range[|s.range| - 1] == Fin(windowEdges.1)
    ensures s.range[1..|geneToCompression.range| + 1] == MapApply(EdgeScale(compressionEdges, windowEdges), geneToCompression.range)
  {
    var compressionRange := geneToCompression.range;
    var geneRange := FrameUnlessLast(Invert(geneToCompression, Fin(compressionEdges.0)), geneToCompression.domain,
                                     Invert(geneToCompression, Fin(compressionEdges.1)));
    var windowRange := FrameUnlessLast(Fin(windowEdges.0), MapApply(EdgeScale(compressionEdges, windowEdges), compressionRange),
                                       Fin(windowEdges.1));
    Scale(geneRange, windowRange)
  }

  /** The two-point scale from the compression edges to the window edges. */
  function EdgeScale(compressionEdges: (real, real), windowEdges: (real, real)): (s: Scale)
    ensures |s.domain| == |s.range| == 2
  {
    Scale([Fin(compressionEdges.0), Fin(compressionEdges.1)], [Fin(windowEdges.0), Fin(windowEdges.1)])
  }

  /**
   * The two scales of a sequence's genes, built over the first gene for each
   * original position: gene to compressed coordinates, and gene to window.
   */
  method CalculateIndividualScales(genes: seq<GeneSpan>, compressionEdges: (real, real), windowEdges: (real, real))
    returns (geneToCompression: Scale, geneToWindow: Scale)
    ensures geneToCompression == CompressionScale(UniqueBy(genes, OriginalPositionOf))
    ensures |geneToCompression.domain| == 2 * |UniqueBy(genes, OriginalPositionOf)|
    ensures geneToWindow == WindowScaleOf(geneToCompression, compressionEdges, windowEdges)
  {
    var unique := FilterUniquePosition(genes);
    geneToCompression := CompressionScale(unique);
    geneToWindow := WindowScaleOf(geneToCompression, compressionEdges, windowEdges);
  }

  // ---------------------------------------------------------------------------
  // calculateCompressionFactor and calculateWidth
  // ---------------------------------------------------------------------------

  /** k is the first index of `points` at or after `position` (`position <= points[k]`). */
  predicate FirstAtOrAfter(points: seq<Num>, position: real, k: int)
  {
    0 <= k < |points| && LessEq(Fin(position), points[k]) &&
    forall i :: 0 <= i < k ==> !LessEq(Fin(position), points[i])
  }

  function IndexAtOrAfter(points: seq<Num>, position: real): (k: int)
    ensures k == -1 <==> forall i :: 0 <= i < |points| ==> !LessEq(Fin(position), points[i])
    ensures k != -1 ==> FirstAtOrAfter(points, position, k)
  {
    FindIndex(points, d => LessEq(Fin(position), d))
  }

  /** The first index at or after a position is unique. */
  lemma IndexAtOrAfterIsFirst(points: seq<Num>, position: real, k: int)
    requires FirstAtOrAfter(points, position, k)
    ensures IndexAtOrAfter(points, position) == k
  {
    var j := IndexAtOrAfter(points, position);
    assert j != -1;
    assert !(j < k) && !(k < j);
  }

  /** The first index whose point lies beyond `position` (`points[k] > position`), or -1. */
  function IndexBeyond(points: seq<Num>, position: real): (k: int)
    ensures k == -1 <==> forall i :: 0 <= i < |points| ==> !Less(Fin(position), points[i])
    ensures k != -1 ==> 0 <= k < |points| && Less(Fin(position), points[k])
    ensures forall i :: 0 <= i < k ==> !Less(Fin(position), points[i])
  {
    FindIndex(points, d => Less(Fin(position), d))
  }

  /**
   * Gene-coordinate distance over compressed distance between the first
   * domain point at or after the position and the next one: below 1 where
   * the axis is stretched, above 1 where it is compressed. 0 when there is
   * no such point or it is the last one.
   */
  function CalculateCompressionFactor(geneToCompression: Scale, genePosition: real): (r: Num)
    ensures (forall i :: 0 <= i < |geneToCompression.domain| ==> !LessEq(Fin(genePosition), geneToCompression.domain[i]))
      ==> r == Fin(0.0)
    ensures FirstAtOrAfter(geneToCompression.domain, genePosition, |geneToCompression.domain| - 1) ==> r == Fin(0.0)
    ensures forall k :: FirstAtOrAfter(geneToCompression.domain, genePosition, k) && k + 1 < |geneToCompression.domain| ==>
      r == DivNum(Sub(geneToCompression.domain[k + 1], geneToCompression.domain[k]),
                  Sub(Get(geneToCompression.range, k + 1), Get(geneToCompression.range, k)))
  {
    var domain := geneToCompression.domain;
    var compression := geneToCompression.range;
    var k := IndexAtOrAfter(domain, genePosition);
    if k + 1 >= |domain| || k == -1 then Fin(0.0)
    else DivNum(Sub(domain[k + 1], domain[k]), Sub(Get(compression, k + 1), Get(compression, k)))
  }

  /** On a scale whose domain and range both ascend, every compression factor is a finite positive number or 0. */
  lemma CompressionFactorOfAscendingScale(geneToCompression: Scale, genePosition: real)
    requires Ascending(geneToCompression.domain) && Ascending(geneToCompression.range)
    requires |geneToCompression.domain| == |geneToCompression.range|
    ensures CalculateCompressionFactor(geneToCompression, genePosition).Fin?
    ensures CalculateCompressionFactor(geneToCompression, genePosition).v >= 0.0
    ensures CalculateCompressionFactor(geneToCompression, genePosition).v > 0.0 <==>
      exists k :: FirstAtOrAfter(geneToCompression.domain, genePosition, k) && k + 1 < |geneToCompression.domain|
  {
    var d, c := geneToCompression.domain, geneToCompression.range;
    var k := IndexAtOrAfter(d, genePosition);
    if k != -1 && k + 1 < |d| {
      var num, den := d[k + 1].v - d[k].v, c[k + 1].v - c[k].v;
      assert num > 0.0 && den > 0.0;
      assert num / den > 0.0;
    } else {
      forall j | FirstAtOrAfter(d, genePosition, j) ensures j + 1 >= |d| {
        assert j == k;
      }
    }
  }

  /**
   * The on-screen width of the gene segment starting at the first domain
   * point at or after the position: the window distance to the next domain
   * point, never negative. 0 when there is no such point, it is the last
   * one, or the next point lies left of the window.
   */
  function CalculateWidth(geneToCompression: Scale, geneToWindow: Scale, windowRange: (real, real),
                          genePosition: real): (r: Num)
    ensures r.NaN? || (r.Fin? && r.v >= 0.0)
  {
    var genePositions := geneToCompression.domain;
    var k := IndexAtOrAfter(genePositions, genePosition);
    if k >= |genePositions| - 1 || k == -1 then Fin(0.0)
    else
      var windowNext := Apply(geneToWindow, genePositions[k + 1]);
      if Less(windowNext, Fin(windowRange.0)) then Fin(0.0)
      else MaxZero(Sub(windowNext, Apply(geneToWindow, genePositions[k])))
  }

  /**
   * The width is zero when no breakpoint is at or after the gene, or the
   * first one is the last; otherwise it is zero when the next breakpoint's
   * window point lies before the window, NaN when a window point is NaN, and
   * else the distance between the two window points, never negative.
   */
  lemma CalculateWidthCases(geneToCompression: Scale, geneToWindow: Scale, windowRange: (real, real), genePosition: real)
    ensures (forall i :: 0 <= i < |geneToCompression.domain| ==> !LessEq(Fin(genePosition), geneToCompression.domain[i]))
      ==> CalculateWidth(geneToCompression, geneToWindow, windowRange, genePosition) == Fin(0.0)
    ensures FirstAtOrAfter(geneToCompression.domain, genePosition, |geneToCompression.domain| - 1)
      ==> CalculateWidth(geneToCompression, geneToWindow, windowRange, genePosition) == Fin(0.0)
    ensures var k := IndexAtOrAfter(geneToCompression.domain, genePosition);
      0 <= k && k + 1 < |geneToCompression.domain| ==>
      var r := CalculateWidth(geneToCompression, geneToWindow, windowRange, genePosition);
      var next := Apply(geneToWindow, geneToCompression.domain[k + 1]);
      var current := Apply(geneToWindow, geneToCompression.domain[k]);
      (Less(next, Fin(windowRange.0)) ==> r == Fin(0.0)) &&
      (next.Fin? && current.Fin? && next.v >= windowRange.0 ==> r == Fin(Max(next.v - current.v, 0.0))) &&
      (!Less(next, Fin(windowRange.0)) && (next.NaN? || current.NaN?) ==> r.NaN?)
  {
  }

  /**
   * When the window scale has the gene positions themselves as its domain
   * and both ascend, a gene segment that ends inside the window is exactly as
   * wide as the window distance between its two breakpoints, and that width
   * is positive.
   */
  lemma WidthBetweenBreakpoints(geneToCompression: Scale, geneToWindow: Scale, windowRange: (real, real),
                                genePosition: real, k: nat)
    requires geneToWindow.domain == geneToCompression.domain
    requires |geneToWindow.domain| == |geneToWindow.range|
    requires Ascending(geneToWindow.domain) && Ascending(geneToWindow.range)
    requires FirstAtOrAfter(geneToCompression.domain, genePosition, k) && k + 1 < |geneToCompression.domain|
    requires geneToWindow.range[k + 1].v >= windowRange.0
    ensures CalculateWidth(geneToCompression, geneToWindow, windowRange, genePosition)
      == Fin(geneToWindow.range[k + 1].v - geneToWindow.range[k].v)
    ensures CalculateWidth(geneToCompression, geneToWindow, windowRange, genePosition).v > 0.0
  {
    IndexAtOrAfterIsFirst(geneToCompression.domain, genePosition, k);
    AscendingAt(geneToWindow.range, k);
    WidthFromBreakpoints(geneToCompression, geneToWindow, windowRange, genePosition, k);
  }

  lemma WidthFromBreakpoints(geneToCompression: Scale, geneToWindow: Scale, windowRange: (real, real),
                             genePosition: real, k: nat)
    requires k == IndexAtOrAfter(geneToCompression.domain, genePosition) && k + 1 < |geneToCompression.domain|
    requires geneToWindow.domain == geneToCompression.domain && |geneToWindow.domain| == |geneToWindow.range|
    requires Ascending(geneToWindow.domain) && AllFinite(geneToWindow.range)
    requires geneToWindow.range[k].Fin? && geneToWindow.range[k + 1].Fin?
    requires geneToWindow.range[k].v < geneToWindow.range[k + 1].v && geneToWindow.range[k + 1].v >= windowRange.0
    ensures CalculateWidth(geneToCompression, geneToWindow, windowRange, genePosition)
      == Fin(geneToWindow.range[k + 1].v - geneToWindow.range[k].v)
  {
    WindowPointAt(geneToWindow, k);
    WindowPointAt(geneToWindow, k + 1);
    WidthFromWindowPoints(geneToCompression, geneToWindow, windowRange, genePosition, k);
  }

  lemma WidthFromWindowPoints(geneToCompression: Scale, geneToWindow: Scale, windowRange: (real, real),
                              genePosition: real, k: nat)
    requires k == IndexAtOrAfter(geneToCompression.domain, genePosition) && k + 1 < |geneToCompression.domain|
    requires k + 1 < |geneToWindow.range| && geneToWindow.domain == geneToCompression.domain
    requires Apply(geneToWindow, geneToCompression.domain[k]) == geneToWindow.range[k]
    requires Apply(geneToWindow, geneToCompression.domain[k + 1]) == geneToWindow.range[k + 1]
    requires geneToWindow.range[k].Fin? && geneToWindow.range[k + 1].Fin?
    requires geneToWindow.range[k].v < geneToWindow.range[k + 1].v && geneToWindow.range[k + 1].v >= windowRange.0
    ensures CalculateWidth(geneToCompression, geneToWindow, windowRange, genePosition)
      == Fin(geneToWindow.range[k + 1].v - geneToWindow.range[k].v)
  {
    CalculateWidthCases(geneToCompression, geneToWindow, windowRange, genePosition);
  }

  /** A breakpoint of a scale with an ascending domain maps to its range point. */
  lemma WindowPointAt(w: Scale, k: nat)
    requires |w.domain| == |w.range| && 1 < |w.domain| && k < |w.domain|
    requires Ascending(w.domain) && AllFinite(w.range)
    ensures Apply(w, w.domain[k]) == w.range[k]
  {
    ApplyAtBreakpoint(w, k);
  }

  lemma AscendingAt(s: seq<Num>, k: nat)
    requires Ascending(s) && k + 1 < |s|
    ensures s[k].Fin? && s[k + 1].Fin? && s[k].v < s[k + 1].v
  {
  }
}
