/**
 * The forces on one node of the layout: attraction towards the other members
 * of its homology group on other sequences (Y), and the spring, gravity and
 * natural repulsion between the node and its left and right neighbours on its
 * own sequence (X), with the contact clamp that zeroes a force pushing into a
 * touching neighbour.
 */
module Forces {
  import opened JsNumber

  datatype Option<T> = None | Some(value: T)

  /** A connection to a neighbour: its id and the expected distance to it. */
  type Connection = (string, real)

  /**
   * What the force evaluation reads of a node (or node group): where it starts
   * and ends, its homology group, and its connections to the left and right
   * neighbour, if any.
   */
  datatype ForceNode = ForceNode(position: real, endPosition: real, homologyGroup: int,
                                 leftConnection: Option<Connection>, rightConnection: Option<Connection>)

  const ScalePartialForceYOnly: real := 1000.0
  const ScalePartialForceY: real := 10000.0
  const ScalePartialForceX: real := 10.0
  const ScalePartialForceGravity: real := 1000000.0
  const ScaleRepelling: real := 10.0
  const TouchingDistance: real := 100.0

  // ---------------------------------------------------------------------------
  // Partial forces
  // ---------------------------------------------------------------------------

  /**
   * calculateAttractingForce: the spring between a node and a neighbour at
   * distance `d` that should be at distance `e`.
   */
  function AttractingForce(d: real, e: real): real
  {
    var differenceToExpectedDistance := d - e;
    if Abs(differenceToExpectedDistance) < 10.0 then differenceToExpectedDistance
    else if e == 0.0 then 0.0
    else
      var force := Abs(differenceToExpectedDistance) / Abs(e);
      var direction := Sign(e);
      if force <= 1.0 then force * direction
      else Log2(force) * direction / 100000.0
  }

  /**
   * Within 10 of the expected distance the spring is the difference itself;
   * beyond it, nothing when no distance is expected, and the relative
   * difference, signed as the expected distance, while that is at most 1.
   */
  lemma AttractingForceBands(d: real, e: real)
    ensures Abs(d - e) < 10.0 ==> AttractingForce(d, e) == d - e
    ensures Abs(d - e) >= 10.0 && e == 0.0 ==> AttractingForce(d, e) == 0.0
    ensures Abs(d - e) >= 10.0 && e != 0.0 && Abs(d - e) / Abs(e) <= 1.0 ==>
      AttractingForce(d, e) == Abs(d - e) / Abs(e) * Sign(e)
  {
  }

  /**
   * The direction of the spring: within 10 of the expected distance it is the
   * sign of the difference; beyond that it is the direction of the expected
   * distance, never against it, and zero only when no distance is expected.
   */
  lemma AttractingForceDirection(d: real, e: real)
    ensures Sign(AttractingForce(d, e)) == if Abs(d - e) < 10.0 then Sign(d - e) else Sign(e)
  {
    if Abs(d - e) >= 10.0 && e != 0.0 {
      var force := Abs(d - e) / Abs(e);
      DivBounds(Abs(d - e), Abs(e));
      if force > 1.0 {
        Log2Sign(force);
      }
    }
  }

  lemma DivBounds(a: real, b: real)
    requires a >= 0.0 && b > 0.0
    ensures a / b >= 0.0
    ensures a > 0.0 ==> a / b > 0.0
    ensures a < b ==> a / b < 1.0
  {
    var q := a / b;
    assert q * b == a;
    ScaleIff(q, 0.0, b);
    ScaleIff(0.0, q, b);
    ScaleIff(q, 1.0, b);
  }

  lemma ScaleIff(x: real, y: real, b: real)
    requires b > 0.0
    ensures x < y <==> x * b < y * b
  {
    assert y * b - x * b == (y - x) * b;
  }

  /** calculateAttractingForceY: attraction towards a homology-group member `d` away. */
  function AttractingForceY(d: real): (r: real)
    ensures Abs(d) < 1.0 ==> r == d
  {
    if Abs(d) < 1.0 then d
    else
      var force := Log2(Abs(d)) * 100.0;
      var direction := Sign(d);
      force * direction
  }

  /** The Y attraction never points away from the other member, and vanishes only when it is at distance 0 or 1. */
  lemma AttractingForceYDirection(d: real)
    ensures AttractingForceY(d) * d >= 0.0
    ensures AttractingForceY(d) == 0.0 <==> d == 0.0 || Abs(d) == 1.0
  {
    if Abs(d) >= 1.0 {
      Log2Sign(Abs(d));
    }
  }

  /** calculateRepellingForce: the push from a neighbour closer than expected. */
  function RepellingForce(d: real, e: real): (r: real)
    ensures e == 0.0 ==> r == 0.0
  {
    if e == 0.0 then 0.0
    else
      var percentageCompressed := 1.0 - Abs(d - e) / Abs(e);
      var force := percentageCompressed * 100000.0;
      var direction := -1.0 * Sign(d);
      force * direction
  }

  /**
   * The direction of the repelling force: while the neighbour is closer to the
   * expected distance than that distance is long, it points away from the
   * neighbour (in particular when the neighbour is on the expected side but
   * closer than expected); beyond that it points towards it; on the boundary,
   * at a zero distance or with no expected distance it is zero.
   */
  lemma RepellingForceSign(d: real, e: real)
    ensures e != 0.0 && Abs(d - e) < Abs(e) ==> Sign(RepellingForce(d, e)) == -Sign(d)
    ensures e != 0.0 && Abs(d - e) > Abs(e) ==> Sign(RepellingForce(d, e)) == Sign(d)
    ensures e == 0.0 || d == 0.0 || Abs(d - e) == Abs(e) ==> RepellingForce(d, e) == 0.0
  {
    if e != 0.0 {
      DivCompare(Abs(d - e), Abs(e));
    }
  }

  /** A non-negative quotient against 1, by its numerator against its positive denominator. */
  lemma DivCompare(a: real, b: real)
    requires a >= 0.0 && b > 0.0
    ensures a < b ==> a / b < 1.0
    ensures a == b ==> a / b == 1.0
    ensures a > b ==> a / b > 1.0
  {
    var q := a / b;
    assert q * b == a;
    ScaleIff(q, 1.0, b);
    ScaleIff(1.0, q, b);
  }

  /** calculateGravityForce */
  function GravityForce(d: real): (r: real)
    ensures d == 0.0 ==> r == 0.0
  {
    if Abs(d) == 0.0 then 0.0
    else
      var force := Sqrt(Abs(d));
      var direction := Sign(d);
      force * direction
  }

  /** Gravity is zero exactly at distance zero, and otherwise points towards the neighbour. */
  lemma GravityDirection(d: real)
    ensures Sign(GravityForce(d)) == Sign(d)
  {
    if d != 0.0 {
      RootSign(Abs(d), 4.0);
    }
  }

  /** calculateNaturalRepellingForce */
  function NaturalRepellingForce(d: real): (r: real)
    ensures d == 0.0 ==> r == 0.0
  {
    if d == 0.0 then 0.0
    else
      RootSign(Abs(d), 1024.0);
      -1.0 / TenthRoot(Abs(d)) * Sign(d)
  }

  /** Natural repulsion is zero exactly at distance zero, and otherwise points away from the neighbour. */
  lemma NaturalRepellingDirection(d: real)
    ensures Sign(NaturalRepellingForce(d)) == -Sign(d)
  {
    if d != 0.0 {
      RootSign(Abs(d), 1024.0);
      assert 1.0 / TenthRoot(Abs(d)) > 0.0;
    }
  }

  // ---------------------------------------------------------------------------
  // Y forces
  // ---------------------------------------------------------------------------

  /** The sum of the Y attractions towards every connected node. */
  function YTotal(current: ForceNode, connectedYNodes: seq<ForceNode>): real
  {
    if connectedYNodes == [] then 0.0
    else
      YTotal(current, connectedYNodes[..|connectedYNodes| - 1])
      + AttractingForceY(connectedYNodes[|connectedYNodes| - 1].position - current.position)
  }

  /**
   * When every homology-group member lies at or to the right of the node, the
   * total Y force does not pull it left; and symmetrically.
   */
  lemma {:induction false} YTotalDirection(current: ForceNode, connectedYNodes: seq<ForceNode>)
    ensures (forall i :: 0 <= i < |connectedYNodes| ==> connectedYNodes[i].position >= current.position) ==>
      YTotal(current, connectedYNodes) >= 0.0
    ensures (forall i :: 0 <= i < |connectedYNodes| ==> connectedYNodes[i].position <= current.position) ==>
      YTotal(current, connectedYNodes) <= 0.0
  {
    if connectedYNodes != [] {
      var init := connectedYNodes[..|connectedYNodes| - 1];
      YTotalDirection(current, init);
      AttractingForceYDirection(connectedYNodes[|connectedYNodes| - 1].position - current.position);
    }
  }

  /**
   * evaluateForcesY: 1000 times the summed Y attraction, or nothing when the
   * node belongs to the excluded homology group.
   */
  method EvaluateForcesY(currentNode: ForceNode, connectedYNodes: seq<ForceNode>, heat: real, excludedHomologyGroup: Option<int>)
    returns (force: real)
    ensures excludedHomologyGroup == Some(currentNode.homologyGroup) ==> force == 0.0
    ensures excludedHomologyGroup != Some(currentNode.homologyGroup) ==>
      force == ScalePartialForceYOnly * YTotal(currentNode, connectedYNodes)
  {
    force := 0.0;
    var i := 0;
    while i < |connectedYNodes|
      invariant 0 <= i <= |connectedYNodes|
      invariant force == if excludedHomologyGroup == Some(currentNode.homologyGroup) then 0.0
                         else ScalePartialForceYOnly * YTotal(currentNode, connectedYNodes[..i])
    {
      assert connectedYNodes[..i + 1][..i] == connectedYNodes[..i];
      var partialForce := AttractingForceY(connectedYNodes[i].position - currentNode.position);
      if excludedHomologyGroup != Some(currentNode.homologyGroup) {
        force := force + partialForce * ScalePartialForceYOnly;
      }
      i := i + 1;
    }
    assert connectedYNodes[..i] == connectedYNodes;
  }

  // ---------------------------------------------------------------------------
  // X forces
  // ---------------------------------------------------------------------------

  /** The running totals of the neighbour loop. */
  datatype XTotals = XTotals(dnaString: real, gravity: real, repelling: real)

  /**
   * The gap to neighbour number `i`: index 0 is the left neighbour, measured
   * from its end to the node's start; any other index is on the right,
   * measured from the node's end to the neighbour's start.
   */
  function NeighbourDistance(current: ForceNode, neighbour: ForceNode, i: nat): real
  {
    if i == 0 then neighbour.endPosition - current.position else neighbour.position - current.endPosition
  }

  /** The expected gap: the connection's distance, or `-i` without a connection on that side. */
  function ExpectedDistance(current: ForceNode, i: nat): real
  {
    var connection := if i == 0 then current.leftConnection else current.rightConnection;
    if connection.Some? then connection.value.1 else -(i as real)
  }

  /**
   * The spring force from one neighbour: attraction when the neighbour is on
   * the wrong side, repulsion when it is closer than expected, attraction
   * otherwise.
   */
  function SpringForce(d: real, e: real): real
  {
    if Sign(e) != Sign(d) then AttractingForce(d, e)
    else if Abs(d) < Abs(e) then RepellingForce(d, e)
    else AttractingForce(d, e)
  }

  /** What neighbour number `i` adds to the totals; an absent neighbour adds nothing. */
  function Contribution(current: ForceNode, neighbour: Option<ForceNode>, i: nat): (c: XTotals)
    ensures neighbour.None? ==> c == XTotals(0.0, 0.0, 0.0)
  {
    match neighbour
    case None => XTotals(0.0, 0.0, 0.0)
    case Some(n) =>
      var d := NeighbourDistance(current, n, i);
      XTotals(SpringForce(d, ExpectedDistance(current, i)), GravityForce(d), NaturalRepellingForce(d))
  }

  function Add(a: XTotals, b: XTotals): XTotals
  {
    XTotals(a.dnaString + b.dnaString, a.gravity + b.gravity, a.repelling + b.repelling)
  }

  /** The totals over the neighbours, each at its own index. */
  function NeighbourTotals(current: ForceNode, connectedXNodes: seq<Option<ForceNode>>): XTotals
  {
    if connectedXNodes == [] then XTotals(0.0, 0.0, 0.0)
    else
      var k := |connectedXNodes| - 1;
      Add(NeighbourTotals(current, connectedXNodes[..k]), Contribution(current, connectedXNodes[k], k))
  }

  /** Whether neighbour number `i` is present and within the touching distance. */
  predicate IsTouching(current: ForceNode, connectedXNodes: seq<Option<ForceNode>>, i: nat)
  {
    i < |connectedXNodes| && connectedXNodes[i].Some? &&
    Abs(NeighbourDistance(current, connectedXNodes[i].value, i)) <= TouchingDistance
  }

  /**
   * The contact clamp over the touching flags: the force is zeroed when the
   * left flag (index 0) is set and the force points left, or when any other
   * flag is set and the force points right.
   */
  function NormalClamp(force: real, touching: seq<bool>): (r: real)
    ensures r == 0.0 || r == force
  {
    if (|touching| > 0 && touching[0] && force < 0.0) ||
       (force > 0.0 && exists i :: 1 <= i < |touching| && touching[i])
    then 0.0 else force
  }

  /** The raw force: the weighted sum of spring, gravity, natural repulsion and homology attraction. */
  function RawForce(current: ForceNode, connectedXNodes: seq<Option<ForceNode>>, connectedYNodes: seq<ForceNode>): real
  {
    var t := NeighbourTotals(current, connectedXNodes);
    ScalePartialForceX * t.dnaString + ScalePartialForceGravity * t.gravity
    + ScaleRepelling * t.repelling + ScalePartialForceY * YTotal(current, connectedYNodes)
  }

  /** The touching flags the neighbour loop leaves, for at least the two sides. */
  function TouchingFlags(current: ForceNode, connectedXNodes: seq<Option<ForceNode>>): (t: seq<bool>)
    ensures |t| == if |connectedXNodes| < 2 then 2 else |connectedXNodes|
    ensures forall i :: 0 <= i < |t| ==> (t[i] <==> IsTouching(current, connectedXNodes, i))
  {
    var n := if |connectedXNodes| < 2 then 2 else |connectedXNodes|;
    seq(n, i requires 0 <= i < n => IsTouching(current, connectedXNodes, i))
  }

  /** Marks flag `i`, growing the list with unset flags when `i` is past its end. */
  function SetFlag(flags: seq<bool>, i: nat): (r: seq<bool>)
    ensures |r| == if i < |flags| then |flags| else i + 1
    ensures forall j :: 0 <= j < |r| ==> (r[j] <==> j == i || (j < |flags| && flags[j]))
  {
    if i < |flags| then flags[i := true]
    else flags + seq(i - |flags|, _ => false) + [true]
  }

  /** evaluateForces: returns the clamped force and the raw force. */
  method EvaluateForces(currentNode: ForceNode, connectedXNodes: seq<Option<ForceNode>>,
                        connectedYNodes: seq<ForceNode>, heat: real, excludedHomologyGroup: Option<int>)
    returns (forceWithNormal: real, forceOnNode: real)
    ensures forceOnNode == RawForce(currentNode, connectedXNodes, connectedYNodes)
    ensures forceWithNormal == NormalClamp(forceOnNode, TouchingFlags(currentNode, connectedXNodes))
  {
    var homologyGroupTotal := HomologyGroupTotal(currentNode, connectedYNodes);
    var totals, nodesAreTouching := NeighbourForces(currentNode, connectedXNodes);
    forceOnNode := ScalePartialForceX * totals.dnaString + ScalePartialForceGravity * totals.gravity
                   + ScaleRepelling * totals.repelling + ScalePartialForceY * homologyGroupTotal;
    forceWithNormal := ApplyNormalClamp(forceOnNode, nodesAreTouching);
  }

  /** The first loop of evaluateForces: the summed Y attraction, without exclusion. */
  method HomologyGroupTotal(currentNode: ForceNode, connectedYNodes: seq<ForceNode>) returns (homologyGroupTotal: real)
    ensures homologyGroupTotal == YTotal(currentNode, connectedYNodes)
  {
    homologyGroupTotal := 0.0;
    var i := 0;
    while i < |connectedYNodes|
      invariant 0 <= i <= |connectedYNodes|
      invariant homologyGroupTotal == YTotal(currentNode, connectedYNodes[..i])
    {
      assert connectedYNodes[..i + 1][..i] == connectedYNodes[..i];
      var partialForce := AttractingForceY(connectedYNodes[i].position - currentNode.position);
      homologyGroupTotal := homologyGroupTotal + partialForce;
      i := i + 1;
    }
    assert connectedYNodes[..i] == connectedYNodes;
  }

  /**
   * The neighbour loop of evaluateForces: the spring, gravity and natural
   * repulsion totals, and the touching flags. A flag for a neighbour beyond
   * index 1 extends the flag list; its unset entries never clamp, as the holes
   * of a sparse array are skipped.
   */
  method NeighbourForces(currentNode: ForceNode, connectedXNodes: seq<Option<ForceNode>>)
    returns (totals: XTotals, nodesAreTouching: seq<bool>)
    ensures totals == NeighbourTotals(currentNode, connectedXNodes)
    ensures nodesAreTouching == TouchingFlags(currentNode, connectedXNodes)
  {
    var gravityTotal, repellingTotal, dnaStringTotal := 0.0, 0.0, 0.0;
    nodesAreTouching := [false, false];
    var i := 0;
    while i < |connectedXNodes|
      invariant 0 <= i <= |connectedXNodes|
      invariant XTotals(dnaStringTotal, gravityTotal, repellingTotal) == NeighbourTotals(currentNode, connectedXNodes[..i])
      invariant FlagsUpTo(currentNode, connectedXNodes, nodesAreTouching, i)
    {
      TotalsStep(currentNode, connectedXNodes, i);
      FlagsStep(currentNode, connectedXNodes, nodesAreTouching, i);
      dnaStringTotal, gravityTotal, repellingTotal, nodesAreTouching :=
        VisitNeighbour(currentNode, connectedXNodes[i], i, dnaStringTotal, gravityTotal, repellingTotal, nodesAreTouching);
      i := i + 1;
    }
    assert connectedXNodes[..i] == connectedXNodes;
    totals := XTotals(dnaStringTotal, gravityTotal, repellingTotal);
  }

  /** One turn of the neighbour loop: the neighbour's partial forces are added and its touching flag is set. */
  method VisitNeighbour(currentNode: ForceNode, connectedNode: Option<ForceNode>, i: nat,
                        dnaStringTotal: real, gravityTotal: real, repellingTotal: real, nodesAreTouching: seq<bool>)
    returns (dnaString: real, gravity: real, repelling: real, flags: seq<bool>)
    ensures XTotals(dnaString, gravity, repelling)
      == Add(XTotals(dnaStringTotal, gravityTotal, repellingTotal), Contribution(currentNode, connectedNode, i))
    ensures flags == NextFlags(nodesAreTouching, i,
      connectedNode.Some? && Abs(NeighbourDistance(currentNode, connectedNode.value, i)) <= TouchingDistance)
  {
    dnaString, gravity, repelling := dnaStringTotal, gravityTotal, repellingTotal;
    var touching := false;
    if connectedNode.Some? {
      var neighbourDistance := NeighbourDistance(currentNode, connectedNode.value, i);
      var expectedNeighbourDistance := ExpectedDistance(currentNode, i);
      touching := Abs(neighbourDistance) <= TouchingDistance;
      var partialForce := SpringForce(neighbourDistance, expectedNeighbourDistance);
      dnaString := dnaString + partialForce;
      gravity := gravity + GravityForce(neighbourDistance);
      repelling := repelling + NaturalRepellingForce(neighbourDistance);
    }
    flags := NextFlags(nodesAreTouching, i, touching);
  }

  lemma TotalsStep(current: ForceNode, connectedXNodes: seq<Option<ForceNode>>, i: nat)
    requires i < |connectedXNodes|
    ensures NeighbourTotals(current, connectedXNodes[..i + 1])
      == Add(NeighbourTotals(current, connectedXNodes[..i]), Contribution(current, connectedXNodes[i], i))
  {
    assert connectedXNodes[..i + 1][..i] == connectedXNodes[..i];
  }

  /**
   * The flag list after neighbour `i`: flag `i` is marked when it touches;
   * otherwise a position past the end reads as an unset flag.
   */
  function NextFlags(flags: seq<bool>, i: nat, touching: bool): seq<bool>
  {
    if touching then SetFlag(flags, i)
    else if |flags| <= i then flags + [false]
    else flags
  }

  /** The flags after the first `i` neighbours: the touching ones among them, for at least two sides. */
  predicate FlagsUpTo(current: ForceNode, connectedXNodes: seq<Option<ForceNode>>, flags: seq<bool>, i: nat)
  {
    |flags| == (if i < 2 then 2 else i) &&
    forall j :: 0 <= j < |flags| ==> (flags[j] <==> j < i && IsTouching(current, connectedXNodes, j))
  }

  lemma FlagsStep(current: ForceNode, connectedXNodes: seq<Option<ForceNode>>, flags: seq<bool>, i: nat)
    requires i < |connectedXNodes| && FlagsUpTo(current, connectedXNodes, flags, i)
    ensures FlagsUpTo(current, connectedXNodes, NextFlags(flags, i, IsTouching(current, connectedXNodes, i)), i + 1)
  {
  }

  /** The clamp loop of evaluateForces. */
  method ApplyNormalClamp(forceOnNode: real, nodesAreTouching: seq<bool>) returns (forceWithNormal: real)
    ensures forceWithNormal == NormalClamp(forceOnNode, nodesAreTouching)
  {
    forceWithNormal := forceOnNode;
    var i := 0;
    while i < |nodesAreTouching|
      invariant 0 <= i <= |nodesAreTouching|
      invariant forceWithNormal == NormalClamp(forceOnNode, nodesAreTouching[..i])
    {
      var neighbourDirection := if i == 0 then -1.0 else 1.0;
      var forceDirection := Sign(forceWithNormal);
      ClampStep(forceOnNode, nodesAreTouching, i);
      if nodesAreTouching[i] && neighbourDirection == forceDirection {
        forceWithNormal := 0.0;
      }
      i := i + 1;
    }
    assert nodesAreTouching[..i] == nodesAreTouching;
  }

  /** One step of the clamp loop extends the clamp from a prefix of the flags to one more flag. */
  lemma ClampStep(force: real, flags: seq<bool>, i: nat)
    requires i < |flags|
    ensures var before := NormalClamp(force, flags[..i]);
      var direction := if i == 0 then -1.0 else 1.0;
      NormalClamp(force, flags[..i + 1]) == if flags[i] && direction == Sign(before) then 0.0 else before
  {
    var p, q := flags[..i], flags[..i + 1];
    assert forall j :: 0 <= j < i ==> q[j] == p[j];
    if i > 0 && flags[i] && force > 0.0 {
      assert q[i];
    }
    if force > 0.0 && (exists j :: 1 <= j < |q| && q[j]) && !flags[i] {
      var j :| 1 <= j < |q| && q[j];
      assert j < i && p[j];
    }
  }

  /**
   * A left neighbour within the touching distance stops a force to the left,
   * and a right neighbour within it stops a force to the right.
   */
  lemma TouchingStopsForce(current: ForceNode, connectedXNodes: seq<Option<ForceNode>>, connectedYNodes: seq<ForceNode>)
    ensures var raw := RawForce(current, connectedXNodes, connectedYNodes);
      IsTouching(current, connectedXNodes, 0) && raw < 0.0 ==>
        NormalClamp(raw, TouchingFlags(current, connectedXNodes)) == 0.0
    ensures var raw := RawForce(current, connectedXNodes, connectedYNodes);
      IsTouching(current, connectedXNodes, 1) && raw > 0.0 ==>
        NormalClamp(raw, TouchingFlags(current, connectedXNodes)) == 0.0
  {
    var flags := TouchingFlags(current, connectedXNodes);
    assert IsTouching(current, connectedXNodes, 1) ==> flags[1];
  }

  /** Without any touching neighbour the force is not clamped. */
  lemma NoContactNoClamp(current: ForceNode, connectedXNodes: seq<Option<ForceNode>>, connectedYNodes: seq<ForceNode>)
    requires forall i :: 0 <= i < |connectedXNodes| ==> !IsTouching(current, connectedXNodes, i)
    ensures NormalClamp(RawForce(current, connectedXNodes, connectedYNodes), TouchingFlags(current, connectedXNodes))
      == RawForce(current, connectedXNodes, connectedYNodes)
  {
  }
}
