/**
 * The driver of the layout: optional re-centring of every sequence on a
 * homology group, grouping, and the annealing loop that calls the group
 * update step with a global heat that cools by 1% every 21 iterations until
 * the step reports termination.
 *
 * The grouping (createNodeGroups) and the update step
 * (updateHighStressNodeGroup) are not part of this model; they are parameters.
 * The loop has no bound of its own, so the model runs it for at most
 * `maxIterations` steps and reports `None` when that bound is reached.
 */
module Annealing {
  import opened JsNumber
  import opened SpringNode

  const TouchingDistance: real := 100.0
  const CoolingFactor: real := 0.99
  /** The counter runs 1..21 and the heat cools when it exceeds 20. */
  const IterationsPerHeat: nat := 21

  // ---------------------------------------------------------------------------
  // Re-centring on a homology group
  // ---------------------------------------------------------------------------

  /**
   * The offset of one sequence: the position of its first member in the
   * anchor homology group, or 0 when it has none.
   */
  function AnchorOffset(members: seq<Member>, ps: seq<real>, uid: string, group: int): (offset: real)
    requires |ps| == |members|
    ensures (forall i :: 0 <= i < |members| ==> members[i] != Member(uid, group)) ==> offset == 0.0
    ensures (exists i :: 0 <= i < |members| && members[i] == Member(uid, group)) ==>
      exists i :: 0 <= i < |members| && members[i] == Member(uid, group) && offset == ps[i] &&
        forall j :: 0 <= j < i ==> members[j] != Member(uid, group)
  {
    if members == [] then 0.0
    else if members[0] == Member(uid, group) then ps[0]
    else
      var rest := AnchorOffset(members[1..], ps[1..], uid, group);
      assert (exists i :: 0 <= i < |members[1..]| && members[1..][i] == Member(uid, group)) ==>
        exists i :: 0 <= i < |members| && members[i] == Member(uid, group) && rest == ps[i] &&
          forall j :: 0 <= j < i ==> members[j] != Member(uid, group) by {
        if exists i :: 0 <= i < |members[1..]| && members[1..][i] == Member(uid, group) {
          var i :| 0 <= i < |members[1..]| && members[1..][i] == Member(uid, group) && rest == ps[1..][i] &&
            forall j :: 0 <= j < i ==> members[1..][j] != Member(uid, group);
          assert members[i + 1] == Member(uid, group) && rest == ps[i + 1];
        }
      }
      rest
  }

  /** The positions after the members of `uid` are assigned `position - offset` through the setter. */
  function ShiftThroughSetter(members: seq<Member>, ps: seq<real>, uid: string, offset: real): (qs: seq<real>)
    requires |ps| == |members|
    ensures |qs| == |ps|
    ensures forall i :: 0 <= i < |ps| ==>
      qs[i] == if members[i].sequenceId == uid then SetterResult(ps[i], Fin(ps[i] - offset)) else ps[i]
  {
    seq(|ps|, i requires 0 <= i < |ps| =>
      if members[i].sequenceId == uid then SetterResult(ps[i], Fin(ps[i] - offset)) else ps[i])
  }

  /** The positions after the re-centring pass over the sequences `uids`, in order, as written. */
  function RecentredAsWritten(members: seq<Member>, ps: seq<real>, uids: seq<string>, group: int): (qs: seq<real>)
    requires |ps| == |members|
    ensures |qs| == |ps|
  {
    if uids == [] then ps
    else
      var prev := RecentredAsWritten(members, ps, uids[..|uids| - 1], group);
      var uid := uids[|uids| - 1];
      ShiftThroughSetter(members, prev, uid, AnchorOffset(members, prev, uid, group))
  }

  /** The anchor lookup of one sequence. */
  method FindAnchor(nodes: seq<GraphNode>, uid: string, group: int) returns (anchor: real)
    ensures anchor == AnchorOffset(MembersOf(nodes), Positions(nodes), uid, group)
  {
    var members, ps := MembersOf(nodes), Positions(nodes);
    var i := 0;
    while i < |nodes|
      invariant 0 <= i <= |nodes|
      invariant AnchorOffset(members, ps, uid, group) == AnchorOffset(members[i..], ps[i..], uid, group)
    {
      if nodes[i].sequenceId == uid && nodes[i].homologyGroup == group {
        return nodes[i].position;
      }
      assert members[i..][1..] == members[i + 1..] && ps[i..][1..] == ps[i + 1..];
      i := i + 1;
    }
    anchor := 0.0;
  }

  /** Assigns `position - anchor` to every member of one sequence. */
  method ShiftMembers(nodes: seq<GraphNode>, uid: string, anchor: real)
    requires forall i, j :: 0 <= i < j < |nodes| ==> nodes[i] != nodes[j]
    modifies set n | n in nodes
    ensures forall j :: 0 <= j < |nodes| ==>
      nodes[j].position == (if nodes[j].sequenceId == uid
                            then SetterResult(old(nodes[j].position), Fin(old(nodes[j].position) - anchor))
                            else old(nodes[j].position))
    ensures forall n :: n in nodes ==> n.connectionsX == old(n.connectionsX) && n.connectionsY == old(n.connectionsY)
  {
    ghost var ps := Positions(nodes);
    var i := 0;
    while i < |nodes|
      invariant 0 <= i <= |nodes|
      invariant forall j :: 0 <= j < i ==>
        nodes[j].position == if nodes[j].sequenceId == uid then SetterResult(ps[j], Fin(ps[j] - anchor)) else ps[j]
      invariant forall j :: i <= j < |nodes| ==> nodes[j].position == ps[j]
      invariant forall n :: n in nodes ==> n.connectionsX == old(n.connectionsX) && n.connectionsY == old(n.connectionsY)
    {
      var gene := nodes[i];
      if gene.sequenceId == uid {
        gene.SetPosition(Fin(gene.position - anchor));
      }
      i := i + 1;
    }
  }

  /** Re-centres one sequence: its members move left by its anchor offset, through the setter. */
  method RecentreSequence(nodes: seq<GraphNode>, uid: string, group: int)
    requires forall i, j :: 0 <= i < j < |nodes| ==> nodes[i] != nodes[j]
    modifies set n | n in nodes
    ensures Positions(nodes) == ShiftThroughSetter(MembersOf(nodes), old(Positions(nodes)), uid,
      AnchorOffset(MembersOf(nodes), old(Positions(nodes)), uid, group))
  {
    var anchor := FindAnchor(nodes, uid, group);
    ghost var before := Positions(nodes);
    ghost var members := MembersOf(nodes);
    ShiftMembers(nodes, uid, anchor);
    ghost var after := Positions(nodes);
    ghost var expected := ShiftThroughSetter(members, before, uid, anchor);
    forall j | 0 <= j < |nodes| ensures after[j] == expected[j] {
      assert members[j].sequenceId == nodes[j].sequenceId;
    }
    assert after == expected;
  }

  /**
   * The re-centring of runSpringSimulation: for each sequence in order, every
   * member is assigned its position minus the sequence's anchor offset.
   */
  method RecentreOnHomologyGroup(nodes: seq<GraphNode>, sequenceUids: seq<string>, group: int)
    requires forall i, j :: 0 <= i < j < |nodes| ==> nodes[i] != nodes[j]
    modifies set n | n in nodes
    ensures Positions(nodes) == RecentredAsWritten(MembersOf(nodes), old(Positions(nodes)), sequenceUids, group)
  {
    ghost var ps := Positions(nodes);
    ghost var members := MembersOf(nodes);
    var k := 0;
    while k < |sequenceUids|
      invariant 0 <= k <= |sequenceUids|
      invariant Positions(nodes) == RecentredAsWritten(members, ps, sequenceUids[..k], group)
    {
      assert sequenceUids[..k + 1][..k] == sequenceUids[..k];
      RecentreSequence(nodes, sequenceUids[k], group);
      k := k + 1;
    }
    assert sequenceUids[..k] == sequenceUids;
  }

  /**
   * The re-centring as evidently intended: every member moves by the offset,
   * whatever the sign of the result.
   */
  function Recentred(members: seq<Member>, ps: seq<real>, uids: seq<string>, group: int): (qs: seq<real>)
    requires |ps| == |members|
    ensures |qs| == |ps|
  {
    if uids == [] then ps
    else
      var prev := Recentred(members, ps, uids[..|uids| - 1], group);
      var uid := uids[|uids| - 1];
      var offset := AnchorOffset(members, prev, uid, group);
      seq(|prev|, i requires 0 <= i < |prev| => if members[i].sequenceId == uid then prev[i] - offset else prev[i])
  }

  /** The intended re-centring keeps the order of the members of every sequence. */
  lemma {:induction false} RecentredKeepsOrder(members: seq<Member>, ps: seq<real>, uids: seq<string>, group: int)
    requires |ps| == |members|
    ensures forall i, j :: 0 <= i < |ps| && 0 <= j < |ps| && members[i].sequenceId == members[j].sequenceId ==>
      (ps[i] < ps[j] <==> Recentred(members, ps, uids, group)[i] < Recentred(members, ps, uids, group)[j])
  {
    if uids != [] {
      RecentredKeepsOrder(members, ps, uids[..|uids| - 1], group);
    }
  }

  /** The intended re-centring puts a sequence's first anchor-group member at 0. */
  lemma RecentredPutsAnchorAtZero(members: seq<Member>, ps: seq<real>, uid: string, group: int, i: nat)
    requires |ps| == |members| && i < |members| && members[i] == Member(uid, group)
    requires forall j :: 0 <= j < i ==> members[j] != Member(uid, group)
    ensures Recentred(members, ps, [uid], group)[i] == 0.0
  {
    assert [uid][..0] == [];
  }

  /**
   * As written, the setter refuses the negative positions of the members left
   * of the anchor, so they stay where they were while the others move left:
   * on a sequence with genes at 10 and 20, anchored on the second, the genes
   * end at 10 and 0 and have swapped order.
   */
  lemma RecentringAsWrittenSwapsOrder()
    ensures var members := [Member("s", 1), Member("s", 2)];
      RecentredAsWritten(members, [10.0, 20.0], ["s"], 2) == [10.0, 0.0] &&
      Recentred(members, [10.0, 20.0], ["s"], 2) == [-10.0, 0.0]
  {
    var members := [Member("s", 1), Member("s", 2)];
    assert ["s"][..0] == [];
    assert members[0] != Member("s", 2);
    assert AnchorOffset(members, [10.0, 20.0], "s", 2) == 20.0 by {
      assert members[1..] == [Member("s", 2)];
      assert [10.0, 20.0][1..] == [20.0];
    }
  }

  // ---------------------------------------------------------------------------
  // The annealing loop
  // ---------------------------------------------------------------------------

  function Pow(x: real, n: nat): real
  {
    if n == 0 then 1.0 else x * Pow(x, n - 1)
  }

  /** The heat after `k` iterations: cooled by 1% for every completed block of 21. */
  function HeatAfter(fromHeat: real, k: nat): real
  {
    fromHeat * Pow(CoolingFactor, k / IterationsPerHeat)
  }

  lemma {:induction false} PowBounds(n: nat)
    ensures 0.0 < Pow(CoolingFactor, n) <= 1.0
  {
    if n > 0 {
      PowBounds(n - 1);
    }
  }

  lemma {:induction false} PowDecreasing(m: nat, n: nat)
    requires m <= n
    ensures Pow(CoolingFactor, n) <= Pow(CoolingFactor, m)
    decreases n
  {
    if m < n {
      PowDecreasing(m, n - 1);
      PowBounds(n - 1);
    }
  }

  /**
   * The heat never rises: it is at most the starting heat, and it does not
   * increase from one iteration to the next (for a non-negative start).
   */
  lemma HeatNeverRises(fromHeat: real, k: nat, l: nat)
    requires fromHeat >= 0.0 && k <= l
    ensures 0.0 <= HeatAfter(fromHeat, l) <= HeatAfter(fromHeat, k) <= fromHeat
  {
    var pk, pl := Pow(CoolingFactor, k / IterationsPerHeat), Pow(CoolingFactor, l / IterationsPerHeat);
    PowBounds(k / IterationsPerHeat);
    PowBounds(l / IterationsPerHeat);
    PowDecreasing(k / IterationsPerHeat, l / IterationsPerHeat);
    MulNonNegative(fromHeat, pk - pl);
    MulNonNegative(fromHeat, 1.0 - pk);
    MulNonNegative(fromHeat, pl);
  }

  lemma MulNonNegative(a: real, b: real)
    requires a >= 0.0 && b >= 0.0
    ensures a * b >= 0.0
  {
  }

  /** Exactly every 21 iterations the heat is multiplied by 0.99. */
  lemma HeatCoolsEvery21(fromHeat: real, k: nat)
    ensures HeatAfter(fromHeat, k + IterationsPerHeat) == CoolingFactor * HeatAfter(fromHeat, k)
    ensures k % IterationsPerHeat != IterationsPerHeat - 1 ==> HeatAfter(fromHeat, k + 1) == HeatAfter(fromHeat, k)
  {
    assert (k + IterationsPerHeat) / IterationsPerHeat == k / IterationsPerHeat + 1;
  }

  /** How the loop ends: the final groups and the number of steps, or the bound reached. */
  datatype Outcome<G> = Terminated(groups: seq<G>, iterations: nat) | BoundReached

  /**
   * The loop from iteration `k` on, with `fuel` steps left: each step is
   * called with the heat after `k` iterations, and the loop stops at the first
   * step that reports termination.
   */
  function Simulate<G>(step: (seq<G>, real, real) -> (seq<G>, bool), groups: seq<G>, fromHeat: real, k: nat, fuel: nat): Outcome<G>
    decreases fuel
  {
    if fuel == 0 then BoundReached
    else
      var next := step(groups, HeatAfter(fromHeat, k), TouchingDistance);
      if next.1 then Terminated(next.0, k + 1)
      else Simulate(step, next.0, fromHeat, k + 1, fuel - 1)
  }

  /** The groups after `n` steps that did not report termination. */
  function StepsFrom<G>(step: (seq<G>, real, real) -> (seq<G>, bool), groups: seq<G>, fromHeat: real, n: nat): seq<G>
  {
    if n == 0 then groups
    else step(StepsFrom(step, groups, fromHeat, n - 1), HeatAfter(fromHeat, n - 1), TouchingDistance).0
  }

  /** Whether the `n`-th step (counting from 1) reports termination. */
  predicate StopsAt<G>(step: (seq<G>, real, real) -> (seq<G>, bool), groups: seq<G>, fromHeat: real, n: nat)
    requires n >= 1
  {
    step(StepsFrom(step, groups, fromHeat, n - 1), HeatAfter(fromHeat, n - 1), TouchingDistance).1
  }

  /**
   * The loop terminates at the first step that reports termination: the
   * iteration count is that step's number, no earlier step reported it, and
   * the result is that step's groups.
   */
  lemma {:induction false} SimulateStopsAtFirst<G>(step: (seq<G>, real, real) -> (seq<G>, bool), groups: seq<G>,
                                                   fromHeat: real, k: nat, fuel: nat)
    requires Simulate(step, StepsFrom(step, groups, fromHeat, k), fromHeat, k, fuel).Terminated?
    ensures var n := Simulate(step, StepsFrom(step, groups, fromHeat, k), fromHeat, k, fuel).iterations;
      k < n <= k + fuel && StopsAt(step, groups, fromHeat, n) &&
      (forall m :: k < m < n ==> !StopsAt(step, groups, fromHeat, m)) &&
      Simulate(step, StepsFrom(step, groups, fromHeat, k), fromHeat, k, fuel).groups == StepsFrom(step, groups, fromHeat, n)
    decreases fuel
  {
    var next := step(StepsFrom(step, groups, fromHeat, k), HeatAfter(fromHeat, k), TouchingDistance);
    assert StepsFrom(step, groups, fromHeat, k + 1) == next.0;
    if !next.1 {
      SimulateStopsAtFirst(step, groups, fromHeat, k + 1, fuel - 1);
    }
  }

  /** The nodes of the groups, concatenated in group order. */
  function FlatNodes<G>(groups: seq<G>, nodesOf: G -> seq<GraphNode>): seq<GraphNode>
  {
    if groups == [] then [] else FlatNodes(groups[..|groups| - 1], nodesOf) + nodesOf(groups[|groups| - 1])
  }

  /** Flattening distributes over concatenation of group lists. */
  lemma {:induction false} FlatNodesAppend<G>(a: seq<G>, b: seq<G>, nodesOf: G -> seq<GraphNode>)
    ensures FlatNodes(a + b, nodesOf) == FlatNodes(a, nodesOf) + FlatNodes(b, nodesOf)
    decreases |b|
  {
    if b == [] {
      assert a + b == a;
    } else {
      var init, last := b[..|b| - 1], b[|b| - 1];
      assert (a + b)[..|a + b| - 1] == a + init;
      assert FlatNodes(a + b, nodesOf) == FlatNodes(a + init, nodesOf) + nodesOf(last);
      FlatNodesAppend(a, init, nodesOf);
    }
  }

  /**
   * The annealing loop of runSpringSimulation, from the initial groups: the
   * result is the outcome of Simulate, paired with the flattened nodes.
   */
  method Anneal<G>(nodeGroups0: seq<G>, fromHeat: real,
                   updateHighStressNodeGroup: (seq<G>, real, real) -> (seq<G>, bool),
                   nodesOf: G -> seq<GraphNode>, maxIterations: nat)
    returns (result: Option<(seq<GraphNode>, seq<G>)>, nIterations: nat)
    ensures var outcome := Simulate(updateHighStressNodeGroup, nodeGroups0, fromHeat, 0, maxIterations);
      match outcome
      case Terminated(groups, n) => result == Some((FlatNodes(groups, nodesOf), groups)) && nIterations == n
      case BoundReached => result.None? && nIterations == maxIterations
  {
    var heat := fromHeat;
    var nodeGroups := nodeGroups0;
    var terminate := false;
    nIterations := 0;
    var currentHeatNIterations := 0;
    while nIterations < maxIterations
      invariant nIterations <= maxIterations
      invariant heat == HeatAfter(fromHeat, nIterations)
      invariant currentHeatNIterations == nIterations % IterationsPerHeat
      invariant 0 <= currentHeatNIterations <= 20
      invariant Simulate(updateHighStressNodeGroup, nodeGroups0, fromHeat, 0, maxIterations) ==
        Simulate(updateHighStressNodeGroup, nodeGroups, fromHeat, nIterations, maxIterations - nIterations)
    {
      var next := updateHighStressNodeGroup(nodeGroups, heat, TouchingDistance);
      nodeGroups, terminate := next.0, next.1;
      HeatStep(fromHeat, nIterations);
      nIterations := nIterations + 1;
      currentHeatNIterations := currentHeatNIterations + 1;
      if currentHeatNIterations > 20 {
        heat := heat * CoolingFactor;
        currentHeatNIterations := 0;
      }
      if terminate {
        var flat := FlattenGroups(nodeGroups, nodesOf);
        return Some((flat, nodeGroups)), nIterations;
      }
    }
    result := None;
  }

  /** One iteration of the heat schedule, as the loop counts it. */
  lemma HeatStep(fromHeat: real, k: nat)
    ensures k % IterationsPerHeat + 1 > 20 ==>
      HeatAfter(fromHeat, k + 1) == HeatAfter(fromHeat, k) * CoolingFactor && (k + 1) % IterationsPerHeat == 0
    ensures k % IterationsPerHeat + 1 <= 20 ==>
      HeatAfter(fromHeat, k + 1) == HeatAfter(fromHeat, k) && (k + 1) % IterationsPerHeat == k % IterationsPerHeat + 1
  {
    var q := k / IterationsPerHeat;
    if k % IterationsPerHeat + 1 > 20 {
      assert k + 1 == (q + 1) * IterationsPerHeat;
      assert (k + 1) / IterationsPerHeat == q + 1;
    } else {
      assert k + 1 == q * IterationsPerHeat + (k % IterationsPerHeat + 1);
      assert (k + 1) / IterationsPerHeat == q;
    }
  }

  /** nodeGroups.flatMap(nodeGroup => nodeGroup.nodes) */
  method FlattenGroups<G>(nodeGroups: seq<G>, nodesOf: G -> seq<GraphNode>) returns (flat: seq<GraphNode>)
    ensures flat == FlatNodes(nodeGroups, nodesOf)
  {
    flat := [];
    var i := 0;
    while i < |nodeGroups|
      invariant 0 <= i <= |nodeGroups|
      invariant flat == FlatNodes(nodeGroups[..i], nodesOf)
    {
      assert nodeGroups[..i + 1][..i] == nodeGroups[..i];
      flat := flat + nodesOf(nodeGroups[i]);
      i := i + 1;
    }
    assert nodeGroups[..i] == nodeGroups;
  }

  /**
   * runSpringSimulation on nodes already built from the genes: re-centres
   * them when an anchor homology group is given, groups them, and anneals.
   * `toHeat` is accepted and never read, as in the source. The grouping sees
   * the nodes together with their positions after re-centring (`recentred`);
   * what the update step then does to the nodes is its own affair.
   */
  method RunSpringSimulation<G>(nodes: seq<GraphNode>, sequenceUids: seq<string>, fromHeat: real, toHeat: real,
                                initializeOnHomologygroup: Option<int>,
                                createNodeGroups: (seq<GraphNode>, seq<real>) -> seq<G>,
                                updateHighStressNodeGroup: (seq<G>, real, real) -> (seq<G>, bool),
                                nodesOf: G -> seq<GraphNode>, maxIterations: nat)
    returns (result: Option<(seq<GraphNode>, seq<G>)>, ghost recentred: seq<real>)
    requires forall i, j :: 0 <= i < j < |nodes| ==> nodes[i] != nodes[j]
    modifies set n | n in nodes
    ensures initializeOnHomologygroup.None? ==> recentred == old(Positions(nodes))
    ensures initializeOnHomologygroup.Some? ==>
      recentred == RecentredAsWritten(MembersOf(nodes), old(Positions(nodes)), sequenceUids, initializeOnHomologygroup.value)
    ensures match Simulate(updateHighStressNodeGroup, createNodeGroups(nodes, recentred), fromHeat, 0, maxIterations)
      case Terminated(groups, _) => result == Some((FlatNodes(groups, nodesOf), groups))
      case BoundReached => result.None?
  {
    if initializeOnHomologygroup.Some? {
      RecentreOnHomologyGroup(nodes, sequenceUids, initializeOnHomologygroup.value);
    }
    recentred := Positions(nodes);
    var nodeGroups := createNodeGroups(nodes, Positions(nodes));
    var nIterations;
    result, nIterations := Anneal(nodeGroups, fromHeat, updateHighStressNodeGroup, nodesOf, maxIterations);
  }
}
