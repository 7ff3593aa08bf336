/**
 * The graph node of the one-dimensional layout and the two constraints that
 * keep a sequence ordered and spaced: the order clamp applied to a proposed
 * move, and the left-to-right minimum-distance pass.
 */
module SpringNode {
  import opened JsNumber
  import opened Dedup

  datatype Option<T> = None | Some(value: T)

  /** One X-connection of a node: the neighbour's id and the expected distance to it. */
  type Connection = (string, real)

  /**
   * A gene placed on one sequence track. The identity, homology group, sequence
   * and original position never change after construction; the position and
   * the connection lists do.
   */
  class GraphNode {
    const id: string
    var position: real
    const homologyGroup: int
    const sequence: int
    const sequenceId: string
    const originalPosition: real
    var connectionsX: seq<Connection>
    var connectionsY: seq<string>

    /** `originalPosition` defaults to the starting position when it is not given. */
    constructor (id: string, position: real, homologyGroup: int, sequence: int, sequenceId: string,
                 originalPosition: Option<real>)
      ensures this.id == id && this.position == position && this.homologyGroup == homologyGroup
      ensures this.sequence == sequence && this.sequenceId == sequenceId
      ensures this.originalPosition == (if originalPosition.Some? then originalPosition.value else position)
      ensures connectionsX == [] && connectionsY == []
    {
      this.id := id;
      this.position := position;
      this.homologyGroup := homologyGroup;
      this.sequence := sequence;
      this.sequenceId := sequenceId;
      this.originalPosition := if originalPosition.Some? then originalPosition.value else position;
      connectionsX := [];
      connectionsY := [];
    }

    /**
     * The position setter: a negative value, -Infinity or NaN is silently
     * ignored. (The model's positions are finite, so +Infinity is never assigned.)
     */
    method SetPosition(newPos: Num)
      requires newPos != Inf(true)
      modifies this`position
      ensures position == if newPos.Fin? && newPos.v >= 0.0 then newPos.v else old(position)
    {
      if newPos.Fin? && newPos.v >= 0.0 {
        position := newPos.v;
      }
    }

    method SetConnectionsX(connections: seq<Connection>)
      modifies this`connectionsX
      ensures connectionsX == connections
    {
      connectionsX := connections;
    }

    method SetConnectionsY(connections: seq<string>)
      modifies this`connectionsY
      ensures connectionsY == connections
    {
      connectionsY := connections;
    }
  }

  /** What the setter leaves in a position `p` when it is assigned `newPos`. */
  function SetterResult(p: real, newPos: Num): real
  {
    if newPos.Fin? && newPos.v >= 0.0 then newPos.v else p
  }

  /** The identity fields of a node: its sequence and homology group, which never change. */
  datatype Member = Member(sequenceId: string, homologyGroup: int)

  function MembersOf(nodes: seq<GraphNode>): (ms: seq<Member>)
    ensures |ms| == |nodes|
    ensures forall i :: 0 <= i < |nodes| ==> ms[i] == Member(nodes[i].sequenceId, nodes[i].homologyGroup)
  {
    if nodes == [] then []
    else MembersOf(nodes[..|nodes| - 1]) + [Member(nodes[|nodes| - 1].sequenceId, nodes[|nodes| - 1].homologyGroup)]
  }

  // ---------------------------------------------------------------------------
  // Order constraint
  // ---------------------------------------------------------------------------

  const MaxMove: real := 100000000.0

  function Positions(nodes: seq<GraphNode>): (ps: seq<real>)
    reads set n | n in nodes
    ensures |ps| == |nodes| && forall i :: 0 <= i < |nodes| ==> ps[i] == nodes[i].position
  {
    if nodes == [] then [] else Positions(nodes[..|nodes| - 1]) + [nodes[|nodes| - 1].position]
  }

  /**
   * The bounds the clamp loop computes: a neighbour at a negative gap sets the
   * lower bound, any other neighbour the upper bound, each to 3/7 of its gap;
   * the last neighbour on a side wins, and a side without one keeps the
   * +-100000000 default.
   */
  function OrderBounds(position: real, neighbours: seq<real>): (b: (real, real))
    ensures b.0 < 0.0 <= b.1
  {
    if neighbours == [] then (-MaxMove, MaxMove)
    else
      var prev := OrderBounds(position, neighbours[..|neighbours| - 1]);
      var gap := neighbours[|neighbours| - 1] - position;
      if gap < 0.0 then (gap * 3.0 / 7.0, prev.1) else (prev.0, gap * 3.0 / 7.0)
  }

  /** A negative move is limited by the lower bound, any other by the upper one. */
  function Clamp(delta: real, bounds: (real, real)): real
  {
    if delta < 0.0 then Max(delta, bounds.0) else Min(delta, bounds.1)
  }

  /**
   * applyOrderConstraint: the proposed move, clamped so that the node covers
   * at most 3/7 of the gap to a neighbour. The clamp never reverses the move
   * and never lengthens it; a zero move stays zero.
   */
  method ApplyOrderConstraint(current: GraphNode, connectedXNodes: seq<GraphNode>, deltaPosIn: real)
    returns (deltaPos: real)
    ensures deltaPos == Clamp(deltaPosIn, OrderBounds(current.position, Positions(connectedXNodes)))
    ensures deltaPosIn < 0.0 ==> deltaPosIn <= deltaPos < 0.0
    ensures deltaPosIn >= 0.0 ==> 0.0 <= deltaPos <= deltaPosIn
    ensures connectedXNodes == [] ==>
      deltaPos == if deltaPosIn < 0.0 then Max(deltaPosIn, -MaxMove) else Min(deltaPosIn, MaxMove)
  {
    var lowerBound, upperBound := -MaxMove, MaxMove;
    ghost var ps := Positions(connectedXNodes);
    var i := 0;
    while i < |connectedXNodes|
      invariant 0 <= i <= |connectedXNodes|
      invariant (lowerBound, upperBound) == OrderBounds(current.position, ps[..i])
    {
      assert ps[..i + 1][..i] == ps[..i];
      var previousDistance := connectedXNodes[i].position - current.position;
      if previousDistance < 0.0 {
        lowerBound := previousDistance * 3.0 / 7.0;
      } else {
        upperBound := previousDistance * 3.0 / 7.0;
      }
      i := i + 1;
    }
    assert ps[..i] == ps;
    if deltaPosIn < 0.0 {
      deltaPos := Max(deltaPosIn, lowerBound);
    } else {
      deltaPos := Min(deltaPosIn, upperBound);
    }
  }

  /** With a single neighbour at a negative gap, that gap sets the lower bound. */
  lemma {:induction false} LowerBoundFromLeftNeighbour(position: real, neighbours: seq<real>, k: nat)
    requires k < |neighbours| && neighbours[k] < position
    requires forall j :: 0 <= j < |neighbours| && j != k ==> neighbours[j] >= position
    ensures OrderBounds(position, neighbours).0 == (neighbours[k] - position) * 3.0 / 7.0
  {
    var init := neighbours[..|neighbours| - 1];
    if k < |neighbours| - 1 {
      LowerBoundFromLeftNeighbour(position, init, k);
    }
  }

  /** With a single neighbour at a non-negative gap, that gap sets the upper bound. */
  lemma {:induction false} UpperBoundFromRightNeighbour(position: real, neighbours: seq<real>, k: nat)
    requires k < |neighbours| && neighbours[k] >= position
    requires forall j :: 0 <= j < |neighbours| && j != k ==> neighbours[j] < position
    ensures OrderBounds(position, neighbours).1 == (neighbours[k] - position) * 3.0 / 7.0
  {
    var init := neighbours[..|neighbours| - 1];
    if k < |neighbours| - 1 {
      UpperBoundFromRightNeighbour(position, init, k);
    }
  }

  /**
   * Order preservation: when a node has at most one neighbour on each side,
   * moving it by the clamped amount keeps every gap's sign, and each gap keeps
   * at least 4/7 of its magnitude. So the node never reaches or crosses a
   * neighbour that was strictly on one side.
   */
  lemma ClampPreservesOrder(position: real, neighbours: seq<real>, delta: real)
    requires forall i, j :: 0 <= i < j < |neighbours| ==>
      (neighbours[i] < position) != (neighbours[j] < position)
    ensures var moved := position + Clamp(delta, OrderBounds(position, neighbours));
      forall i :: 0 <= i < |neighbours| ==>
        (neighbours[i] < position ==> neighbours[i] - moved <= (neighbours[i] - position) * 4.0 / 7.0 < 0.0) &&
        (neighbours[i] >= position ==> neighbours[i] - moved >= (neighbours[i] - position) * 4.0 / 7.0 >= 0.0)
  {
    var b := OrderBounds(position, neighbours);
    var moved := position + Clamp(delta, b);
    forall i | 0 <= i < |neighbours|
      ensures neighbours[i] < position ==> neighbours[i] - moved <= (neighbours[i] - position) * 4.0 / 7.0 < 0.0
      ensures neighbours[i] >= position ==> neighbours[i] - moved >= (neighbours[i] - position) * 4.0 / 7.0 >= 0.0
    {
      if neighbours[i] < position {
        LowerBoundFromLeftNeighbour(position, neighbours, i);
      } else {
        UpperBoundFromRightNeighbour(position, neighbours, i);
      }
    }
  }

  // ---------------------------------------------------------------------------
  // Minimum-distance pass
  // ---------------------------------------------------------------------------

  /** The fields of a GraphNode that the minimum-distance pass reads. */
  datatype NodeState = NodeState(id: string, position: real, originalPosition: real, connectionIds: seq<string>)

  function PositionOf(n: NodeState): real { n.position }

  function IdsOf(connections: seq<Connection>): (ids: seq<string>)
    ensures |ids| == |connections| && forall i :: 0 <= i < |ids| ==> ids[i] == connections[i].0
  {
    if connections == [] then [] else IdsOf(connections[..|connections| - 1]) + [connections[|connections| - 1].0]
  }

  function Snapshot(nodes: seq<GraphNode>): (states: seq<NodeState>)
    reads set n | n in nodes
    ensures |states| == |nodes|
    ensures forall i :: 0 <= i < |nodes| ==>
      states[i] == NodeState(nodes[i].id, nodes[i].position, nodes[i].originalPosition, IdsOf(nodes[i].connectionsX))
  {
    if nodes == [] then []
    else
      var n := nodes[|nodes| - 1];
      Snapshot(nodes[..|nodes| - 1]) + [NodeState(n.id, n.position, n.originalPosition, IdsOf(n.connectionsX))]
  }

  /** The nodes of `candidates`, in list order, whose id is among `ids`. */
  function Connected(candidates: seq<NodeState>, ids: seq<string>): seq<NodeState>
  {
    if candidates == [] then []
    else
      var init := Connected(candidates[..|candidates| - 1], ids);
      var last := candidates[|candidates| - 1];
      if last.id in ids then init + [last] else init
  }

  /** Exactly the candidates whose id is listed are kept. */
  lemma {:induction false} ConnectedMembers(candidates: seq<NodeState>, ids: seq<string>)
    ensures forall n :: n in Connected(candidates, ids) <==> n in candidates && n.id in ids
  {
    if candidates != [] {
      var init := candidates[..|candidates| - 1];
      ConnectedMembers(init, ids);
      assert candidates == init + [candidates[|candidates| - 1]];
    }
  }

  /**
   * The shift the pass adds at node `n`, or None when `n` gets no entry: when
   * no node of the list is connected to it, when its first connected node lies
   * to its right, or when that node has the same original position.
   */
  function AddedShift(unique: seq<NodeState>, n: NodeState, minimumAbsDistance: real): Option<real>
  {
    var connected := Connected(unique, n.connectionIds);
    if connected == [] then None
    else
      var previous := connected[0];
      var distanceToPrevious := previous.position - n.position;
      if distanceToPrevious > 0.0 then None
      else if previous.originalPosition == n.originalPosition then None
      else Some(Max(0.0, distanceToPrevious - (-minimumAbsDistance)))
  }

  /** The entries written so far (position key, accumulated shift) and the running shift. */
  datatype ShiftState = ShiftState(entries: seq<(real, real)>, previousShift: real)

  /** The pass over the first `k` nodes of the de-duplicated list. */
  function ShiftPass(unique: seq<NodeState>, k: nat, minimumAbsDistance: real): ShiftState
    requires k <= |unique|
  {
    if k == 0 then ShiftState([], 0.0)
    else
      var st := ShiftPass(unique, k - 1, minimumAbsDistance);
      match AddedShift(unique, unique[k - 1], minimumAbsDistance)
      case None => st
      case Some(shift) =>
        var newShift := st.previousShift + shift;
        ShiftState(st.entries + [(unique[k - 1].position, newShift)], newShift)
  }

  /** The entries the pass writes over the first `k` nodes. */
  function Written(unique: seq<NodeState>, k: nat, minimumAbsDistance: real): seq<(real, real)>
    requires k <= |unique|
  {
    ShiftPass(unique, k, minimumAbsDistance).entries
  }

  /** The dictionary after the pass over the first `k` nodes. */
  function Table(unique: seq<NodeState>, k: nat, minimumAbsDistance: real): map<real, real>
    requires k <= |unique|
  {
    ToMap(Written(unique, k, minimumAbsDistance))
  }

  /** A dictionary filled entry by entry; a later entry for a key overwrites an earlier one. */
  function ToMap(entries: seq<(real, real)>): map<real, real>
  {
    if entries == [] then map[]
    else ToMap(entries[..|entries| - 1])[entries[|entries| - 1].0 := entries[|entries| - 1].1]
  }

  /** minDistanceConstraintShift as a function of the nodes' fields. */
  function ShiftTable(states: seq<NodeState>, minimumAbsDistance: real): map<real, real>
  {
    var unique := UniqueBy(states, PositionOf);
    ToMap(ShiftPass(unique, |unique|, minimumAbsDistance).entries)
  }

  /** The nodes of the list, in order, whose id is among `ids`. */
  method ConnectedNodes(candidates: seq<NodeState>, ids: seq<string>) returns (connected: seq<NodeState>)
    ensures connected == Connected(candidates, ids)
  {
    connected := [];
    var i := 0;
    while i < |candidates|
      invariant 0 <= i <= |candidates|
      invariant connected == Connected(candidates[..i], ids)
    {
      assert candidates[..i + 1][..i] == candidates[..i];
      if candidates[i].id in ids {
        connected := connected + [candidates[i]];
      }
      i := i + 1;
    }
    assert candidates[..i] == candidates;
  }

  /** The shift one node of the pass adds, from its first connected node. */
  method NodeShift(unique: seq<NodeState>, currentNode: NodeState, minimumAbsDistance: real)
    returns (shift: Option<real>)
    ensures shift == AddedShift(unique, currentNode, minimumAbsDistance)
  {
    var connectedXNodes := ConnectedNodes(unique, currentNode.connectionIds);
    if connectedXNodes == [] {
      return None;
    }
    var previousNode := connectedXNodes[0];
    var distanceToPrevious := previousNode.position - currentNode.position;
    var minimumDistance := -minimumAbsDistance;
    if distanceToPrevious > 0.0 || previousNode.originalPosition == currentNode.originalPosition {
      return None;
    }
    var differenceToMinDistance := distanceToPrevious - minimumDistance;
    shift := Some(Max(0.0, differenceToMinDistance));
  }

  /**
   * minDistanceConstraintShift: drops nodes at an already seen position, then
   * walks the rest left to right, accumulating the shift each needs to sit at
   * least `minimumAbsDistance` after its first connected node, and records the
   * running shift under the node's position.
   */
  method MinDistanceConstraintShift(currentSequenceNodes: seq<GraphNode>, minimumAbsDistance: real)
    returns (newShifting: map<real, real>)
    ensures newShifting == ShiftTable(Snapshot(currentSequenceNodes), minimumAbsDistance)
    ensures forall p :: p in newShifting ==> newShifting[p] >= 0.0
  {
    var states := Snapshot(currentSequenceNodes);
    newShifting := ShiftTableOf(states, minimumAbsDistance);
    ShiftTableNonNegative(states, minimumAbsDistance);
  }

  /** The pass of minDistanceConstraintShift over the nodes' field values. */
  method ShiftTableOf(states: seq<NodeState>, minimumAbsDistance: real) returns (newShifting: map<real, real>)
    ensures newShifting == ShiftTable(states, minimumAbsDistance)
  {
    var uniquePositionNodes := KeepFirst(states, PositionOf);
    var previousShift := 0.0;
    newShifting := map[];
    ghost var entries: seq<(real, real)> := [];
    var k := 0;
    while k < |uniquePositionNodes|
      invariant 0 <= k <= |uniquePositionNodes|
      invariant ShiftPass(uniquePositionNodes, k, minimumAbsDistance) == ShiftState(entries, previousShift)
      invariant newShifting == ToMap(entries)
    {
      var currentNode := uniquePositionNodes[k];
      var shift := NodeShift(uniquePositionNodes, currentNode, minimumAbsDistance);
      ShiftPassStep(uniquePositionNodes, k, minimumAbsDistance);
      if shift.Some? {
        var newShift := previousShift + shift.value;
        previousShift := newShift;
        ToMapSnoc(entries, (currentNode.position, newShift));
        entries := entries + [(currentNode.position, newShift)];
        newShifting := newShifting[currentNode.position := newShift];
      }
      k := k + 1;
    }
  }

  /** Appending an entry sets its key to its value. */
  lemma ToMapSnoc(entries: seq<(real, real)>, e: (real, real))
    ensures ToMap(entries + [e]) == ToMap(entries)[e.0 := e.1]
  {
    assert (entries + [e])[..|entries|] == entries;
  }

  /** A shift a node adds is never negative. */
  lemma AddedShiftNonNegative(unique: seq<NodeState>, n: NodeState, minimumAbsDistance: real)
    ensures AddedShift(unique, n, minimumAbsDistance).Some? ==> AddedShift(unique, n, minimumAbsDistance).value >= 0.0
  {
  }

  lemma ShiftPassStep(unique: seq<NodeState>, k: nat, minimumAbsDistance: real)
    requires k < |unique|
    ensures var st := ShiftPass(unique, k, minimumAbsDistance);
      ShiftPass(unique, k + 1, minimumAbsDistance) ==
        match AddedShift(unique, unique[k], minimumAbsDistance)
        case None => st
        case Some(shift) =>
          ShiftState(st.entries + [(unique[k].position, st.previousShift + shift)], st.previousShift + shift)
  {
  }

  /** A pass state whose running shift is non-negative, bounds every entry, and whose entries never decrease. */
  predicate Monotone(st: ShiftState)
  {
    st.previousShift >= 0.0 &&
    (forall i :: 0 <= i < |st.entries| ==> 0.0 <= st.entries[i].1 <= st.previousShift) &&
    (forall i, j :: 0 <= i < j < |st.entries| ==> st.entries[i].1 <= st.entries[j].1)
  }

  /** Adding a non-negative shift and recording it keeps the state monotone. */
  lemma MonotoneAppend(st: ShiftState, p: real, shift: real)
    requires Monotone(st) && shift >= 0.0
    ensures Monotone(ShiftState(st.entries + [(p, st.previousShift + shift)], st.previousShift + shift))
  {
    var e := st.entries + [(p, st.previousShift + shift)];
    assert forall i :: 0 <= i < |st.entries| ==> e[i] == st.entries[i];
  }

  /**
   * The running shift never decreases and is never negative: every entry is
   * at least the one before it, and at most the running shift.
   */
  lemma {:induction false} ShiftPassMonotone(unique: seq<NodeState>, k: nat, minimumAbsDistance: real)
    requires k <= |unique|
    ensures Monotone(ShiftPass(unique, k, minimumAbsDistance))
  {
    if k > 0 {
      ShiftPassMonotone(unique, k - 1, minimumAbsDistance);
      ShiftPassStep(unique, k - 1, minimumAbsDistance);
      AddedShiftNonNegative(unique, unique[k - 1], minimumAbsDistance);
      var added := AddedShift(unique, unique[k - 1], minimumAbsDistance);
      if added.Some? {
        MonotoneAppend(ShiftPass(unique, k - 1, minimumAbsDistance), unique[k - 1].position, added.value);
      }
    }
  }

  lemma {:induction false} ToMapValues(entries: seq<(real, real)>, p: real)
    requires p in ToMap(entries)
    ensures exists i :: 0 <= i < |entries| && entries[i] == (p, ToMap(entries)[p])
  {
    var last := entries[|entries| - 1];
    if p != last.0 {
      ToMapValues(entries[..|entries| - 1], p);
      var i :| 0 <= i < |entries| - 1 && entries[..|entries| - 1][i] == (p, ToMap(entries[..|entries| - 1])[p]);
      assert entries[i] == (p, ToMap(entries)[p]);
    } else {
      assert entries[|entries| - 1] == (p, ToMap(entries)[p]);
    }
  }

  lemma ShiftTableNonNegative(states: seq<NodeState>, minimumAbsDistance: real)
    ensures forall p :: p in ShiftTable(states, minimumAbsDistance) ==> ShiftTable(states, minimumAbsDistance)[p] >= 0.0
  {
    var unique := UniqueBy(states, PositionOf);
    var entries := ShiftPass(unique, |unique|, minimumAbsDistance).entries;
    ShiftPassMonotone(unique, |unique|, minimumAbsDistance);
    forall p | p in ToMap(entries) ensures ToMap(entries)[p] >= 0.0 {
      ToMapValues(entries, p);
    }
  }

  /** The pass over node `k` appends at most one entry, keyed by that node's position. */
  lemma WrittenStep(unique: seq<NodeState>, k: nat, minimumAbsDistance: real)
    requires k < |unique|
    ensures Written(unique, k + 1, minimumAbsDistance) ==
      if AddedShift(unique, unique[k], minimumAbsDistance).Some? then
        Written(unique, k, minimumAbsDistance) + [(unique[k].position, ShiftPass(unique, k + 1, minimumAbsDistance).previousShift)]
      else Written(unique, k, minimumAbsDistance)
  {
    ShiftPassStep(unique, k, minimumAbsDistance);
  }

  /** Every key the pass writes is the position of one of the first `k` nodes. */
  lemma {:induction false} ShiftPassKeys(unique: seq<NodeState>, k: nat, minimumAbsDistance: real)
    requires k <= |unique|
    ensures forall i :: 0 <= i < |Written(unique, k, minimumAbsDistance)| ==>
      Written(unique, k, minimumAbsDistance)[i].0 in Keys(unique[..k], PositionOf)
  {
    if k > 0 {
      ShiftPassKeys(unique, k - 1, minimumAbsDistance);
      WrittenStep(unique, k - 1, minimumAbsDistance);
      var before, after := Written(unique, k - 1, minimumAbsDistance), Written(unique, k, minimumAbsDistance);
      var keys := Keys(unique[..k], PositionOf);
      assert keys == Keys(unique[..k - 1], PositionOf) + [unique[k - 1].position] by {
        assert unique[..k][..k - 1] == unique[..k - 1];
      }
      forall i | 0 <= i < |after| ensures after[i].0 in keys {
        if i < |before| {
          assert after[i] == before[i];
        }
      }
    }
  }

  /** With distinct positions, no key is written twice. */
  lemma {:induction false} ShiftPassKeysDistinct(unique: seq<NodeState>, k: nat, minimumAbsDistance: real)
    requires k <= |unique|
    requires forall i, j :: 0 <= i < j < |unique| ==> unique[i].position != unique[j].position
    ensures forall i, j :: 0 <= i < j < |Written(unique, k, minimumAbsDistance)| ==>
      Written(unique, k, minimumAbsDistance)[i].0 != Written(unique, k, minimumAbsDistance)[j].0
  {
    if k > 0 {
      ShiftPassKeysDistinct(unique, k - 1, minimumAbsDistance);
      ShiftPassKeys(unique, k - 1, minimumAbsDistance);
      WrittenStep(unique, k - 1, minimumAbsDistance);
      var before, after := Written(unique, k - 1, minimumAbsDistance), Written(unique, k, minimumAbsDistance);
      var keys := Keys(unique[..k - 1], PositionOf);
      assert unique[k - 1].position !in keys by {
        forall j | 0 <= j < |keys| ensures keys[j] != unique[k - 1].position {
          assert keys[j] == unique[j].position;
        }
      }
      forall i, j | 0 <= i < j < |after| ensures after[i].0 != after[j].0 {
        assert after[i] == before[i];
        if j < |before| {
          assert after[j] == before[j];
        }
      }
    }
  }

  /**
   * For one of the first `k` nodes: its position is a key exactly when the node
   * gets a shift, and the value is the running shift as it stood after it.
   */
  lemma {:induction false} ShiftPassEntryAt(unique: seq<NodeState>, k: nat, j: nat, minimumAbsDistance: real)
    requires j < k <= |unique|
    requires forall i, i' :: 0 <= i < i' < |unique| ==> unique[i].position != unique[i'].position
    ensures unique[j].position in Table(unique, k, minimumAbsDistance) <==>
      AddedShift(unique, unique[j], minimumAbsDistance).Some?
    ensures unique[j].position in Table(unique, k, minimumAbsDistance) ==>
      Table(unique, k, minimumAbsDistance)[unique[j].position] == ShiftPass(unique, j + 1, minimumAbsDistance).previousShift
  {
    if j == k - 1 {
      EntryAtLast(unique, j, minimumAbsDistance);
    } else {
      assert unique[j].position != unique[k - 1].position;
      TableKeepsOtherKeys(unique, k - 1, unique[j].position, minimumAbsDistance);
      ShiftPassEntryAt(unique, k - 1, j, minimumAbsDistance);
    }
  }

  /** Node `k` leaves every other position's entry as it was. */
  lemma TableKeepsOtherKeys(unique: seq<NodeState>, k: nat, p: real, minimumAbsDistance: real)
    requires k < |unique| && p != unique[k].position
    ensures p in Table(unique, k + 1, minimumAbsDistance) <==> p in Table(unique, k, minimumAbsDistance)
    ensures p in Table(unique, k, minimumAbsDistance) ==>
      Table(unique, k + 1, minimumAbsDistance)[p] == Table(unique, k, minimumAbsDistance)[p]
  {
    TableStep(unique, k, minimumAbsDistance);
  }

  /** The entry node `k` writes, if any, is the running shift after it. */
  lemma EntryAtLast(unique: seq<NodeState>, k: nat, minimumAbsDistance: real)
    requires k < |unique|
    requires forall i, i' :: 0 <= i < i' < |unique| ==> unique[i].position != unique[i'].position
    ensures unique[k].position in Table(unique, k + 1, minimumAbsDistance) <==>
      AddedShift(unique, unique[k], minimumAbsDistance).Some?
    ensures unique[k].position in Table(unique, k + 1, minimumAbsDistance) ==>
      Table(unique, k + 1, minimumAbsDistance)[unique[k].position] == ShiftPass(unique, k + 1, minimumAbsDistance).previousShift
  {
    TableStep(unique, k, minimumAbsDistance);
    NewKeyAbsent(unique, k, minimumAbsDistance);
  }

  /** Node `k` adds the entry for its position, holding the new running shift, exactly when it gets a shift. */
  lemma TableStep(unique: seq<NodeState>, k: nat, minimumAbsDistance: real)
    requires k < |unique|
    ensures AddedShift(unique, unique[k], minimumAbsDistance).None? ==>
      Table(unique, k + 1, minimumAbsDistance) == Table(unique, k, minimumAbsDistance)
    ensures AddedShift(unique, unique[k], minimumAbsDistance).Some? ==>
      Table(unique, k + 1, minimumAbsDistance) ==
        Table(unique, k, minimumAbsDistance)[unique[k].position := ShiftPass(unique, k + 1, minimumAbsDistance).previousShift]
  {
    var st := ShiftPass(unique, k, minimumAbsDistance);
    ShiftPassStep(unique, k, minimumAbsDistance);
    var added := AddedShift(unique, unique[k], minimumAbsDistance);
    if added.Some? {
      ToMapSnoc(st.entries, (unique[k].position, st.previousShift + added.value));
    }
  }

  /** Before node `k` is processed, its position is not yet a key (positions being distinct). */
  lemma NewKeyAbsent(unique: seq<NodeState>, k: nat, minimumAbsDistance: real)
    requires k < |unique|
    requires forall i, i' :: 0 <= i < i' < |unique| ==> unique[i].position != unique[i'].position
    ensures unique[k].position !in Table(unique, k, minimumAbsDistance)
  {
    var keys := Keys(unique[..k], PositionOf);
    forall j | 0 <= j < |keys| ensures keys[j] != unique[k].position {
      assert keys[j] == unique[j].position;
    }
    ShiftPassKeys(unique, k, minimumAbsDistance);
    ToMapDomainWithin(Written(unique, k, minimumAbsDistance), keys);
  }

  lemma {:induction false} ToMapDomainWithin(entries: seq<(real, real)>, keys: seq<real>)
    requires forall i :: 0 <= i < |entries| ==> entries[i].0 in keys
    ensures forall p :: p in ToMap(entries) ==> p in keys
  {
    if entries != [] {
      ToMapDomainWithin(entries[..|entries| - 1], keys);
    }
  }

  lemma {:induction false} ToMapHasKeys(entries: seq<(real, real)>, i: nat)
    requires i < |entries|
    ensures entries[i].0 in ToMap(entries)
  {
    if i < |entries| - 1 {
      ToMapHasKeys(entries[..|entries| - 1], i);
    }
  }

  /**
   * The table minDistanceConstraintShift returns: a position is a key exactly
   * when the first node at that position gets a shift, and its value is the
   * running shift after that node.
   */
  lemma ShiftTableKeys(states: seq<NodeState>, minimumAbsDistance: real, p: real)
    ensures var unique := UniqueBy(states, PositionOf);
      p in ShiftTable(states, minimumAbsDistance) <==>
        exists j :: 0 <= j < |unique| && unique[j].position == p && AddedShift(unique, unique[j], minimumAbsDistance).Some?
  {
    var unique := UniqueBy(states, PositionOf);
    if p in ShiftTable(states, minimumAbsDistance) {
      var j := ShiftTableKeyOwner(states, minimumAbsDistance, p);
    }
    forall j | 0 <= j < |unique| && unique[j].position == p && AddedShift(unique, unique[j], minimumAbsDistance).Some?
      ensures p in ShiftTable(states, minimumAbsDistance)
    {
      UniqueByDistinct(states, PositionOf);
      ShiftPassEntryAt(unique, |unique|, j, minimumAbsDistance);
    }
  }

  /** The node of the de-duplicated list whose position a key of the table is. */
  lemma ShiftTableKeyOwner(states: seq<NodeState>, minimumAbsDistance: real, p: real) returns (j: nat)
    requires p in ShiftTable(states, minimumAbsDistance)
    ensures var unique := UniqueBy(states, PositionOf);
      j < |unique| && unique[j].position == p && AddedShift(unique, unique[j], minimumAbsDistance).Some?
  {
    var unique := UniqueBy(states, PositionOf);
    var entries := ShiftPass(unique, |unique|, minimumAbsDistance).entries;
    ShiftPassKeys(unique, |unique|, minimumAbsDistance);
    assert unique[..|unique|] == unique;
    ToMapDomainWithin(Written(unique, |unique|, minimumAbsDistance), Keys(unique, PositionOf));
    j :| 0 <= j < |unique| && Keys(unique, PositionOf)[j] == p;
    UniqueByDistinct(states, PositionOf);
    ShiftPassEntryAt(unique, |unique|, j, minimumAbsDistance);
  }

  /** A node at a position that has no entry keeps its position; any other never moves left. */
  function CorrectedPosition(p: real, table: map<real, real>): real
  {
    SetterResult(p, if p in table then Fin(p + table[p]) else NaN)
  }

  /** The positions applyMinimumdistance leaves, from the nodes' field values before it runs. */
  function MinimumDistancePositions(states: seq<NodeState>, minimumAbsDistance: real): (ps: seq<real>)
    ensures |ps| == |states|
  {
    var table := ShiftTable(states, minimumAbsDistance);
    seq(|states|, i requires 0 <= i < |states| => CorrectedPosition(states[i].position, table))
  }

  /**
   * applyMinimumdistance never moves a node left, and a node whose position has
   * no entry in the shift table keeps its position.
   */
  lemma MinimumDistanceNeverMovesLeft(states: seq<NodeState>, minimumAbsDistance: real, i: nat)
    requires i < |states|
    ensures MinimumDistancePositions(states, minimumAbsDistance)[i] >= states[i].position
    ensures states[i].position !in ShiftTable(states, minimumAbsDistance) ==>
      MinimumDistancePositions(states, minimumAbsDistance)[i] == states[i].position
  {
    ShiftTableNonNegative(states, minimumAbsDistance);
  }

  /**
   * applyMinimumdistance: every node is moved by the shift recorded for its
   * position, through the position setter. Nodes at a position that was
   * dropped as a duplicate get the shift of the first node there.
   */
  method ApplyMinimumDistance(nodesOnSequence: seq<GraphNode>, minimumAbsDistance: real)
    requires forall i, j :: 0 <= i < j < |nodesOnSequence| ==> nodesOnSequence[i] != nodesOnSequence[j]
    modifies set n | n in nodesOnSequence
    ensures Positions(nodesOnSequence) == MinimumDistancePositions(old(Snapshot(nodesOnSequence)), minimumAbsDistance)
    ensures forall n :: n in nodesOnSequence ==> n.connectionsX == old(n.connectionsX) && n.connectionsY == old(n.connectionsY)
  {
    var deltaPosCorrection := MinDistanceConstraintShift(nodesOnSequence, minimumAbsDistance);
    ApplyShifts(nodesOnSequence, deltaPosCorrection);
  }

  /** Moves every node by the entry for its position, through the setter. */
  method ApplyShifts(nodesOnSequence: seq<GraphNode>, deltaPosCorrection: map<real, real>)
    requires forall i, j :: 0 <= i < j < |nodesOnSequence| ==> nodesOnSequence[i] != nodesOnSequence[j]
    modifies set n | n in nodesOnSequence
    ensures forall i :: 0 <= i < |nodesOnSequence| ==>
      nodesOnSequence[i].position == CorrectedPosition(old(nodesOnSequence[i].position), deltaPosCorrection)
    ensures forall n :: n in nodesOnSequence ==> n.connectionsX == old(n.connectionsX) && n.connectionsY == old(n.connectionsY)
  {
    var i := 0;
    while i < |nodesOnSequence|
      invariant 0 <= i <= |nodesOnSequence|
      invariant forall j :: 0 <= j < i ==>
        nodesOnSequence[j].position == CorrectedPosition(old(nodesOnSequence[j].position), deltaPosCorrection)
      invariant forall j :: i <= j < |nodesOnSequence| ==> nodesOnSequence[j].position == old(nodesOnSequence[j].position)
      invariant forall n :: n in nodesOnSequence ==> n.connectionsX == old(n.connectionsX) && n.connectionsY == old(n.connectionsY)
    {
      var node := nodesOnSequence[i];
      var newPosition := if node.position in deltaPosCorrection then Fin(node.position + deltaPosCorrection[node.position]) else NaN;
      node.SetPosition(newPosition);
      i := i + 1;
    }
  }

  /** Each position is written to the table at most once. */
  lemma ShiftTableWrittenOnce(states: seq<NodeState>, minimumAbsDistance: real)
    ensures var unique := UniqueBy(states, PositionOf);
      forall i, j :: 0 <= i < j < |Written(unique, |unique|, minimumAbsDistance)| ==>
        Written(unique, |unique|, minimumAbsDistance)[i].0 != Written(unique, |unique|, minimumAbsDistance)[j].0
  {
    var unique := UniqueBy(states, PositionOf);
    UniqueByDistinct(states, PositionOf);
    ShiftPassKeysDistinct(unique, |unique|, minimumAbsDistance);
  }

  /**
   * A node kept by the de-duplication gets no entry, and so keeps its position,
   * when no node of the list is connected to it, when its first connected node
   * lies to its right, or when that node has the same original position.
   */
  lemma NoEntryCases(states: seq<NodeState>, minimumAbsDistance: real, j: nat)
    requires j < |UniqueBy(states, PositionOf)|
    requires var unique := UniqueBy(states, PositionOf);
      var connected := Connected(unique, unique[j].connectionIds);
      connected == [] || connected[0].position > unique[j].position ||
      connected[0].originalPosition == unique[j].originalPosition
    ensures UniqueBy(states, PositionOf)[j].position !in ShiftTable(states, minimumAbsDistance)
  {
    var unique := UniqueBy(states, PositionOf);
    UniqueByDistinct(states, PositionOf);
    ShiftPassEntryAt(unique, |unique|, j, minimumAbsDistance);
  }

  /**
   * Two genes 10 apart with a minimum distance of 1000, each connected to the
   * other: the right one is shifted by 990, so that the gap becomes exactly
   * 1000, and the left one does not move.
   */
  lemma TwoGenesTenApart()
    ensures var left := NodeState("a", 0.0, 0.0, ["b"]);
      var right := NodeState("b", 10.0, 10.0, ["a"]);
      MinimumDistancePositions([left, right], 1000.0) == [0.0, 1000.0]
  {
    var left := NodeState("a", 0.0, 0.0, ["b"]);
    var right := NodeState("b", 10.0, 10.0, ["a"]);
    var states := [left, right];
    assert states[..1] == [left];
    assert UniqueBy([left], PositionOf) == [left] by {
      assert [left][..0] == [];
    }
    assert Keys([left], PositionOf) == [0.0];
    assert UniqueBy(states, PositionOf) == states;
    assert Connected(states, left.connectionIds) == [right] by {
      assert states[..1] == [left];
      assert [left][..0] == [];
      assert "a" != "b" by { assert "a"[0] != "b"[0]; }
      assert Connected([left], ["b"]) == [];
    }
    assert Connected(states, right.connectionIds) == [left] by {
      assert states[..1] == [left];
      assert [left][..0] == [];
      assert "b" != "a" by { assert "b"[0] != "a"[0]; }
      assert Connected([left], ["a"]) == [left];
    }
    assert AddedShift(states, left, 1000.0) == None;
    assert AddedShift(states, right, 1000.0) == Some(990.0);
    assert ShiftPass(states, 1, 1000.0) == ShiftState([], 0.0);
    assert ShiftPass(states, 2, 1000.0) == ShiftState([(10.0, 990.0)], 990.0);
    assert ToMap([(10.0, 990.0)]) == map[10.0 := 990.0] by {
      assert [(10.0, 990.0)][..0] == [];
    }
    assert ShiftTable(states, 1000.0) == map[10.0 := 990.0];
  }

  // ---------------------------------------------------------------------------
  // What the minimum-distance pass achieves
  // ---------------------------------------------------------------------------

  /** The running shift of the pass never decreases from one node to a later one. */
  lemma {:induction false} RunningShiftGrows(unique: seq<NodeState>, a: nat, b: nat, minimumAbsDistance: real)
    requires a <= b <= |unique|
    ensures ShiftPass(unique, a, minimumAbsDistance).previousShift <= ShiftPass(unique, b, minimumAbsDistance).previousShift
  {
    if a < b {
      RunningShiftGrows(unique, a, b - 1, minimumAbsDistance);
      ShiftPassStep(unique, b - 1, minimumAbsDistance);
      AddedShiftNonNegative(unique, unique[b - 1], minimumAbsDistance);
    }
  }

  /** A node at a non-negative position that gets a shift moves to its position plus the running shift after it. */
  lemma CorrectedWithEntry(unique: seq<NodeState>, minimumAbsDistance: real, j: nat)
    requires j < |unique|
    requires forall a, b :: 0 <= a < b < |unique| ==> unique[a].position != unique[b].position
    requires AddedShift(unique, unique[j], minimumAbsDistance).Some? && unique[j].position >= 0.0
    ensures CorrectedPosition(unique[j].position, Table(unique, |unique|, minimumAbsDistance)) ==
      unique[j].position + ShiftPass(unique, j + 1, minimumAbsDistance).previousShift
  {
    ShiftPassEntryAt(unique, |unique|, j, minimumAbsDistance);
    ShiftPassMonotone(unique, j + 1, minimumAbsDistance);
  }

  /** A node at a non-negative position moves by at most the running shift before any later node. */
  lemma CorrectedAtMostRunning(unique: seq<NodeState>, minimumAbsDistance: real, i: nat, j: nat)
    requires i < j <= |unique|
    requires forall a, b :: 0 <= a < b < |unique| ==> unique[a].position != unique[b].position
    requires unique[i].position >= 0.0
    ensures CorrectedPosition(unique[i].position, Table(unique, |unique|, minimumAbsDistance)) <=
      unique[i].position + ShiftPass(unique, j, minimumAbsDistance).previousShift
  {
    ShiftPassEntryAt(unique, |unique|, i, minimumAbsDistance);
    ShiftPassMonotone(unique, i + 1, minimumAbsDistance);
    RunningShiftGrows(unique, i + 1, j, minimumAbsDistance);
  }

  /**
   * The spacing the pass is for: when the first node connected to node `j` is
   * an earlier node `i` lying at or to the left of it, with another original
   * position, node `j` ends at least minimumAbsDistance to the right of node `i`.
   */
  lemma GapAfterPass(unique: seq<NodeState>, minimumAbsDistance: real, i: nat, j: nat)
    requires i < j < |unique|
    requires forall a, b :: 0 <= a < b < |unique| ==> unique[a].position != unique[b].position
    requires Connected(unique, unique[j].connectionIds) != []
    requires Connected(unique, unique[j].connectionIds)[0] == unique[i]
    requires 0.0 <= unique[i].position <= unique[j].position
    requires unique[i].originalPosition != unique[j].originalPosition
    ensures var table := Table(unique, |unique|, minimumAbsDistance);
      CorrectedPosition(unique[j].position, table) - CorrectedPosition(unique[i].position, table) >= minimumAbsDistance
  {
    var pi, pj := unique[i].position, unique[j].position;
    // node j adds at least the shortfall to the running shift before it
    var shift := Max(0.0, (pi - pj) - (-minimumAbsDistance));
    assert AddedShift(unique, unique[j], minimumAbsDistance) == Some(shift);
    ShiftPassStep(unique, j, minimumAbsDistance);
    CorrectedWithEntry(unique, minimumAbsDistance, j);
    // node i moves by at most that running shift
    CorrectedAtMostRunning(unique, minimumAbsDistance, i, j);
  }

  /**
   * The spacing on the nodes of a sequence whose positions are distinct: there
   * the de-duplication keeps every node and the table is the whole pass.
   */
  lemma MinimumDistanceGap(states: seq<NodeState>, minimumAbsDistance: real, i: nat, j: nat)
    requires i < j < |states|
    requires forall a, b :: 0 <= a < b < |states| ==> states[a].position != states[b].position
    requires Connected(states, states[j].connectionIds) != []
    requires Connected(states, states[j].connectionIds)[0] == states[i]
    requires 0.0 <= states[i].position <= states[j].position
    requires states[i].originalPosition != states[j].originalPosition
    ensures MinimumDistancePositions(states, minimumAbsDistance)[j] -
      MinimumDistancePositions(states, minimumAbsDistance)[i] >= minimumAbsDistance
  {
    forall a, b | 0 <= a < b < |states| ensures PositionOf(states[a]) != PositionOf(states[b]) {
    }
    UniqueByOfDistinct(states, PositionOf);
    GapAfterPass(states, minimumAbsDistance, i, j);
  }

  /** The first connected node is the first candidate, in list order, whose id is listed. */
  lemma {:induction false} ConnectedHeadIndex(candidates: seq<NodeState>, ids: seq<string>) returns (i: nat)
    requires Connected(candidates, ids) != []
    ensures i < |candidates| && candidates[i].id in ids && Connected(candidates, ids)[0] == candidates[i]
    ensures forall x :: 0 <= x < i ==> candidates[x].id !in ids
  {
    var init, last := candidates[..|candidates| - 1], candidates[|candidates| - 1];
    if Connected(init, ids) != [] {
      i := ConnectedHeadIndex(init, ids);
    } else {
      i := |candidates| - 1;
      ConnectedMembers(init, ids);
      forall x | 0 <= x < i ensures candidates[x].id !in ids {
        assert candidates[x] == init[x];
      }
    }
  }

  /** Conversely, the first candidate whose id is listed is the first connected node. */
  lemma ConnectedHead(candidates: seq<NodeState>, ids: seq<string>, i: nat)
    requires i < |candidates| && candidates[i].id in ids
    requires forall x :: 0 <= x < i ==> candidates[x].id !in ids
    ensures Connected(candidates, ids) != [] && Connected(candidates, ids)[0] == candidates[i]
  {
    ConnectedMembers(candidates, ids);
    assert candidates[i] in Connected(candidates, ids);
    var h := ConnectedHeadIndex(candidates, ids);
  }

  /** Positions that are non-negative and strictly increase along the list. */
  predicate SortedPositions(states: seq<NodeState>)
  {
    (forall a :: 0 <= a < |states| ==> states[a].position >= 0.0) &&
    (forall a, b :: 0 <= a < b < |states| ==> states[a].position < states[b].position)
  }

  /** The nodes with their positions replaced, everything else kept. */
  function WithPositions(states: seq<NodeState>, ps: seq<real>): (r: seq<NodeState>)
    requires |ps| == |states|
    ensures |r| == |states|
    ensures forall i :: 0 <= i < |states| ==> r[i] == states[i].(position := ps[i])
  {
    seq(|states|, i requires 0 <= i < |states| => states[i].(position := ps[i]))
  }

  /** A pass in which no node adds a positive shift writes only zero shifts. */
  lemma {:induction false} QuietPass(unique: seq<NodeState>, k: nat, minimumAbsDistance: real)
    requires k <= |unique|
    requires forall j :: 0 <= j < |unique| ==>
      AddedShift(unique, unique[j], minimumAbsDistance).None? || AddedShift(unique, unique[j], minimumAbsDistance) == Some(0.0)
    ensures ShiftPass(unique, k, minimumAbsDistance).previousShift == 0.0
    ensures forall e :: e in Written(unique, k, minimumAbsDistance) ==> e.1 == 0.0
  {
    if k > 0 {
      QuietPass(unique, k - 1, minimumAbsDistance);
      ShiftPassStep(unique, k - 1, minimumAbsDistance);
    }
  }

  /** Lists with the same ids in the same order have the same connected nodes, or none alike. */
  lemma ConnectedSameIds(a: seq<NodeState>, b: seq<NodeState>, ids: seq<string>)
    requires |a| == |b| && forall x :: 0 <= x < |a| ==> a[x].id == b[x].id
    ensures Connected(a, ids) == [] <==> Connected(b, ids) == []
  {
    ConnectedMembers(a, ids);
    ConnectedMembers(b, ids);
    if Connected(a, ids) != [] {
      var h := ConnectedHeadIndex(a, ids);
      assert b[h] in Connected(b, ids);
    }
    if Connected(b, ids) != [] {
      var h := ConnectedHeadIndex(b, ids);
      assert a[h] in Connected(a, ids);
    }
  }

  /**
   * On a sorted list, after the pass a node whose first connected node has
   * another original position either still lies to its left or lies at least
   * minimumAbsDistance before it.
   */
  lemma SortedGap(states: seq<NodeState>, minimumAbsDistance: real, i: nat, k: nat)
    requires i < |states| && k < |states| && SortedPositions(states)
    requires Connected(states, states[k].connectionIds) != []
    requires Connected(states, states[k].connectionIds)[0] == states[i]
    requires states[i].originalPosition != states[k].originalPosition
    ensures var ps := MinimumDistancePositions(states, minimumAbsDistance);
      ps[i] - ps[k] > 0.0 || ps[i] - ps[k] + minimumAbsDistance <= 0.0
  {
    var ps := MinimumDistancePositions(states, minimumAbsDistance);
    MinimumDistanceNeverMovesLeft(states, minimumAbsDistance, i);
    if states[i].position > states[k].position {
      forall a, b | 0 <= a < b < |states| ensures PositionOf(states[a]) != PositionOf(states[b]) {
      }
      UniqueByOfDistinct(states, PositionOf);
      ShiftPassEntryAt(states, |states|, k, minimumAbsDistance);
      MinimumDistanceNeverMovesLeft(states, minimumAbsDistance, k);
      assert ps[k] == states[k].position;
    } else {
      assert i < k;
      MinimumDistanceGap(states, minimumAbsDistance, i, k);
    }
  }

  /**
   * On a sorted list, a second pass over the corrected positions adds no shift
   * at any node: the gaps the first pass opened are already wide enough, and
   * the nodes it left alone stay out of the table.
   */
  lemma SecondPassAddsNothing(states: seq<NodeState>, minimumAbsDistance: real, k: nat)
    requires k < |states| && SortedPositions(states)
    ensures var moved := WithPositions(states, MinimumDistancePositions(states, minimumAbsDistance));
      AddedShift(moved, moved[k], minimumAbsDistance).None? ||
      AddedShift(moved, moved[k], minimumAbsDistance) == Some(0.0)
  {
    var ps := MinimumDistancePositions(states, minimumAbsDistance);
    var moved := WithPositions(states, ps);
    var ids := states[k].connectionIds;
    assert moved[k].connectionIds == ids;
    ConnectedSameIds(states, moved, ids);
    if Connected(states, ids) != [] {
      var i := ConnectedHeadIndex(states, ids);
      ConnectedHead(moved, ids, i);
      if states[i].originalPosition != states[k].originalPosition {
        SortedGap(states, minimumAbsDistance, i, k);
      }
    }
  }

  /**
   * applyMinimumdistance is idempotent on a sequence sorted by position, as
   * long as no two nodes land on the same position: running it again on the
   * corrected positions moves nothing.
   */
  lemma MinimumDistanceIdempotent(states: seq<NodeState>, minimumAbsDistance: real)
    requires SortedPositions(states)
    requires var ps := MinimumDistancePositions(states, minimumAbsDistance);
      forall a, b :: 0 <= a < b < |ps| ==> ps[a] != ps[b]
    ensures var ps := MinimumDistancePositions(states, minimumAbsDistance);
      MinimumDistancePositions(WithPositions(states, ps), minimumAbsDistance) == ps
  {
    var ps := MinimumDistancePositions(states, minimumAbsDistance);
    var moved := WithPositions(states, ps);
    forall a, b | 0 <= a < b < |moved| ensures PositionOf(moved[a]) != PositionOf(moved[b]) {
      assert ps[a] != ps[b];
    }
    UniqueByOfDistinct(moved, PositionOf);
    forall k | 0 <= k < |moved|
      ensures AddedShift(moved, moved[k], minimumAbsDistance).None? ||
        AddedShift(moved, moved[k], minimumAbsDistance) == Some(0.0)
    {
      SecondPassAddsNothing(states, minimumAbsDistance, k);
    }
    QuietPass(moved, |moved|, minimumAbsDistance);
    var table := ShiftTable(moved, minimumAbsDistance);
    forall k | 0 <= k < |moved| ensures MinimumDistancePositions(moved, minimumAbsDistance)[k] == ps[k] {
      if ps[k] in table {
        ToMapValues(Written(moved, |moved|, minimumAbsDistance), ps[k]);
      }
      MinimumDistanceNeverMovesLeft(states, minimumAbsDistance, k);
    }
  }

  /** Three genes listed right to left, each connected to the next one in the list. */
  function ChainOfThree(pc: real, pa: real, pe: real, oc: real, oa: real): (states: seq<NodeState>)
    ensures |states| == 3
  {
    [NodeState("c", pc, oc, ["a"]), NodeState("a", pa, oa, ["e"]), NodeState("e", pe, 0.0, [])]
  }

  /** On such a list each of the first two genes adds its own shortfall, and the third adds nothing. */
  lemma ChainOfThreeShifts(pc: real, pa: real, pe: real, oc: real, oa: real, minimumAbsDistance: real)
    requires pe < pa < pc && oc != oa && oa != 0.0
    ensures var states := ChainOfThree(pc, pa, pe, oc, oa);
      AddedShift(states, states[0], minimumAbsDistance) == Some(Max(0.0, pa - pc + minimumAbsDistance)) &&
      AddedShift(states, states[1], minimumAbsDistance) == Some(Max(0.0, pe - pa + minimumAbsDistance)) &&
      AddedShift(states, states[2], minimumAbsDistance) == None
  {
    var states := ChainOfThree(pc, pa, pe, oc, oa);
    var c, a := states[0], states[1];
    assert "c" != "a" by { assert "c"[0] != "a"[0]; }
    assert "c" != "e" by { assert "c"[0] != "e"[0]; }
    assert "a" != "e" by { assert "a"[0] != "e"[0]; }
    ConnectedHead(states, ["a"], 1);
    ConnectedHead(states, ["e"], 2);
    assert Connected(states, []) == [] by {
      assert states[..2] == [c, a] && [c, a][..1] == [c] && [c][..0] == [];
      assert Connected([c], []) == [];
      assert Connected([c, a], []) == [];
    }
  }

  /** The shift table of such a list: the first two genes' positions, with the running shifts. */
  lemma ChainOfThreeTable(pc: real, pa: real, pe: real, oc: real, oa: real, minimumAbsDistance: real)
    requires pe < pa < pc && oc != oa && oa != 0.0
    ensures var s1 := Max(0.0, pa - pc + minimumAbsDistance);
      var s2 := Max(0.0, pe - pa + minimumAbsDistance);
      ShiftTable(ChainOfThree(pc, pa, pe, oc, oa), minimumAbsDistance) == map[pc := s1, pa := s1 + s2]
  {
    var states := ChainOfThree(pc, pa, pe, oc, oa);
    var s1 := Max(0.0, pa - pc + minimumAbsDistance);
    var s2 := Max(0.0, pe - pa + minimumAbsDistance);
    forall x, y | 0 <= x < y < 3 ensures PositionOf(states[x]) != PositionOf(states[y]) {
    }
    UniqueByOfDistinct(states, PositionOf);
    ChainOfThreeShifts(pc, pa, pe, oc, oa, minimumAbsDistance);
    ShiftPassStep(states, 0, minimumAbsDistance);
    assert ShiftPass(states, 1, minimumAbsDistance) == ShiftState([(pc, s1)], s1);
    ShiftPassStep(states, 1, minimumAbsDistance);
    assert ShiftPass(states, 2, minimumAbsDistance) == ShiftState([(pc, s1), (pa, s1 + s2)], s1 + s2);
    ShiftPassStep(states, 2, minimumAbsDistance);
    var entries := [(pc, s1), (pa, s1 + s2)];
    assert Written(states, 3, minimumAbsDistance) == entries;
    assert ToMap(entries) == map[pc := s1, pa := s1 + s2] by {
      assert entries[..1] == [(pc, s1)];
      assert [(pc, s1)][..0] == [];
      assert ToMap([(pc, s1)]) == map[pc := s1];
    }
  }

  /**
   * On such a list the first gene is shifted by its own shortfall, and the
   * second by that shift plus its own.
   */
  lemma ChainOfThreePass(pc: real, pa: real, pe: real, oc: real, oa: real, minimumAbsDistance: real)
    requires pe < pa < pc && oc != oa && oa != 0.0 && pe >= 0.0
    ensures var s1 := Max(0.0, pa - pc + minimumAbsDistance);
      var s2 := Max(0.0, pe - pa + minimumAbsDistance);
      MinimumDistancePositions(ChainOfThree(pc, pa, pe, oc, oa), minimumAbsDistance) == [pc + s1, pa + s1 + s2, pe]
  {
    ChainOfThreeTable(pc, pa, pe, oc, oa, minimumAbsDistance);
  }

  /**
   * Without sorting neither promise holds: genes at 150, 100 and 0, listed in
   * that order and each connected to the next, with a minimum distance of
   * 100, end at 200, 150 and 0, only 50 apart, and a second pass moves the
   * first two again, to 250 and 200.
   */
  lemma UnsortedChainNotIdempotent()
    ensures var states := ChainOfThree(150.0, 100.0, 0.0, 150.0, 100.0);
      var ps := MinimumDistancePositions(states, 100.0);
      ps == [200.0, 150.0, 0.0] &&
      MinimumDistancePositions(WithPositions(states, ps), 100.0) == [250.0, 200.0, 0.0]
  {
    var states := ChainOfThree(150.0, 100.0, 0.0, 150.0, 100.0);
    ChainOfThreePass(150.0, 100.0, 0.0, 150.0, 100.0, 100.0);
    var ps := MinimumDistancePositions(states, 100.0);
    assert WithPositions(states, ps) == ChainOfThree(200.0, 150.0, 0.0, 150.0, 100.0);
    ChainOfThreePass(200.0, 150.0, 0.0, 150.0, 100.0, 100.0);
  }
}
