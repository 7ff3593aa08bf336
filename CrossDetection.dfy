/**
 * Order-crossing detection: each sequence's homology groups, in node order
 * and with runs of the same group collapsed, are compared with those of a
 * reference sequence; a group is reported, with its successor, when no
 * occurrence of it in the reference has the same successor.
 *
 * A successor past the end of a list is `undefined` in the source; here it
 * is `None`, and two missing successors are equal, as `undefined ===
 * undefined` is.
 */
module CrossDetection {
  import opened SpringNode
  import opened Dedup

  function SequenceIdOf(m: Member): string
  {
    m.sequenceId
  }

  /** The distinct sequence ids, in order of first appearance. */
  function SequenceIds(members: seq<Member>): seq<string>
  {
    UniqueBy(Keys(members, SequenceIdOf), Id)
  }

  /** The homology groups of the members of one sequence, in node order; `None` selects nothing. */
  function SequenceOrder(members: seq<Member>, id: Option<string>): (order: seq<int>)
    ensures |order| <= |members|
    ensures forall g :: g in order ==> exists m :: m in members && Some(m.sequenceId) == id && m.homologyGroup == g
  {
    if members == [] then []
    else
      var last := members[|members| - 1];
      SequenceOrder(members[..|members| - 1], id) + (if Some(last.sequenceId) == id then [last.homologyGroup] else [])
  }

  // ---------------------------------------------------------------------------
  // Collapsing runs
  // ---------------------------------------------------------------------------

  /**
   * The filter with a running `previousHomologyGroup`: an element equal to the
   * previous element is dropped. Nothing precedes the first element, so it is
   * always kept.
   */
  function CollapseAfter(previous: Option<int>, s: seq<int>): seq<int>
    decreases |s|
  {
    if s == [] then []
    else if Some(s[0]) == previous then CollapseAfter(previous, s[1..])
    else [s[0]] + CollapseAfter(Some(s[0]), s[1..])
  }

  function Collapse(s: seq<int>): seq<int>
  {
    CollapseAfter(None, s)
  }

  predicate RunFree(s: seq<int>)
  {
    forall i :: 0 <= i < |s| - 1 ==> s[i] != s[i + 1]
  }

  /**
   * Collapsing keeps exactly the groups of its input, at most as many
   * elements, never starts with the previous element, and leaves no two
   * adjacent elements equal.
   */
  lemma {:induction false} CollapseAfterShape(previous: Option<int>, s: seq<int>)
    ensures |CollapseAfter(previous, s)| <= |s|
    ensures forall g :: g in CollapseAfter(previous, s) ==> g in s
    ensures forall g :: g in s ==> g in CollapseAfter(previous, s) || Some(g) == previous
    ensures CollapseAfter(previous, s) != [] ==> Some(CollapseAfter(previous, s)[0]) != previous
    ensures RunFree(CollapseAfter(previous, s))
    decreases |s|
  {
    if s != [] {
      if Some(s[0]) == previous {
        CollapseAfterShape(previous, s[1..]);
        assert forall g :: g in s ==> g == s[0] || g in s[1..];
      } else {
        CollapseAfterShape(Some(s[0]), s[1..]);
        var rest := CollapseAfter(Some(s[0]), s[1..]);
        assert CollapseAfter(previous, s) == [s[0]] + rest;
        assert forall g :: g in s ==> g == s[0] || g in s[1..];
      }
    }
  }

  /** A list with no adjacent repeats that does not start with the previous element is its own collapse. */
  lemma {:induction false} CollapseAfterRunFree(previous: Option<int>, s: seq<int>)
    requires RunFree(s)
    requires s != [] ==> Some(s[0]) != previous
    ensures CollapseAfter(previous, s) == s
    decreases |s|
  {
    if s != [] {
      CollapseAfterRunFree(Some(s[0]), s[1..]);
      assert [s[0]] + s[1..] == s;
    }
  }

  /** Collapsing twice is collapsing once. */
  lemma CollapseIdempotent(s: seq<int>)
    ensures Collapse(Collapse(s)) == Collapse(s)
  {
    CollapseAfterShape(None, s);
    CollapseAfterRunFree(None, Collapse(s));
  }

  lemma {:induction false} CollapseAfterAppend(previous: Option<int>, s: seq<int>, x: int)
    ensures CollapseAfter(previous, s + [x]) ==
      CollapseAfter(previous, s) + (if Some(x) == (if s == [] then previous else Some(s[|s| - 1])) then [] else [x])
    decreases |s|
  {
    if s == [] {
      assert [x][1..] == [];
    } else {
      assert (s + [x])[1..] == s[1..] + [x];
      CollapseAfterAppend(if Some(s[0]) == previous then previous else Some(s[0]), s[1..], x);
      if s[1..] == [] {
        assert s == [s[0]];
      } else {
        assert s[1..][|s[1..]| - 1] == s[|s| - 1];
      }
    }
  }

  /** The run-collapsing filter, with its running previous element. */
  method CollapseRuns(order: seq<int>) returns (collapsed: seq<int>)
    ensures collapsed == Collapse(order)
    ensures RunFree(collapsed)
    ensures forall g :: g in collapsed <==> g in order
  {
    collapsed := [];
    var previous: Option<int> := None;
    var i := 0;
    while i < |order|
      invariant 0 <= i <= |order|
      invariant previous == (if i == 0 then None else Some(order[i - 1]))
      invariant collapsed == Collapse(order[..i])
    {
      CollapseAfterAppend(None, order[..i], order[i]);
      assert order[..i + 1] == order[..i] + [order[i]];
      if Some(order[i]) != previous {
        collapsed := collapsed + [order[i]];
      }
      previous := Some(order[i]);
      i := i + 1;
    }
    assert order[..i] == order;
    CollapseAfterShape(None, order);
  }

  // ---------------------------------------------------------------------------
  // Comparing one sequence with the reference
  // ---------------------------------------------------------------------------

  /** `s[i]`, or `None` where JavaScript reads `undefined`. */
  function At(s: seq<int>, i: int): (r: Option<int>)
    ensures r.Some? <==> 0 <= i < |s|
    ensures r.Some? ==> r.value == s[i]
  {
    if 0 <= i < |s| then Some(s[i]) else None
  }

  /** The successors of the two positions are equal (both may be missing). */
  predicate OrderIsTheSame(current: seq<int>, reference: seq<int>, currentIndex: int, referenceIndex: int)
  {
    At(current, currentIndex + 1) == At(reference, referenceIndex + 1)
  }

  /** Some occurrence of the element in the reference has the same successor. */
  predicate SameOrderExists(current: seq<int>, reference: seq<int>, currentIndex: int)
  {
    0 <= currentIndex < |current| &&
    exists referenceIndex :: 0 <= referenceIndex < |reference| && reference[referenceIndex] == current[currentIndex] &&
      OrderIsTheSame(current, reference, currentIndex, referenceIndex)
  }

  /** The flagged pairs among the first n elements of `current`, in order. */
  function Changes(current: seq<int>, reference: seq<int>, n: nat): (r: seq<Option<int>>)
    requires n <= |current|
    ensures |r| % 2 == 0 && |r| <= 2 * n
  {
    if n == 0 then []
    else
      Changes(current, reference, n - 1) +
      (if SameOrderExists(current, reference, n - 1) then [] else [Some(current[n - 1]), At(current, n)])
  }

  /**
   * Every element with no same-ordered occurrence in the reference is
   * reported as a pair: the element and its successor.
   */
  lemma {:induction false} FlaggedIsReported(current: seq<int>, reference: seq<int>, n: nat, i: nat)
    requires i < n <= |current|
    requires !SameOrderExists(current, reference, i)
    ensures exists p :: (0 <= p && 2 * p + 1 < |Changes(current, reference, n)| &&
      Changes(current, reference, n)[2 * p] == Some(current[i]) &&
      Changes(current, reference, n)[2 * p + 1] == At(current, i + 1))
  {
    var before := Changes(current, reference, n - 1);
    if i == n - 1 {
      var p := |before| / 2;
      assert Changes(current, reference, n)[2 * p] == Some(current[i]);
    } else {
      FlaggedIsReported(current, reference, n - 1, i);
      var p :| 0 <= p && 2 * p + 1 < |before| && before[2 * p] == Some(current[i]) && before[2 * p + 1] == At(current, i + 1);
      assert Changes(current, reference, n)[2 * p] == before[2 * p];
      assert Changes(current, reference, n)[2 * p + 1] == before[2 * p + 1];
    }
  }

  /** Conversely, every reported pair is an element with no same-ordered occurrence in the reference, and its successor. */
  lemma {:induction false} ReportedIsFlagged(current: seq<int>, reference: seq<int>, n: nat, p: nat)
    requires n <= |current| && 2 * p + 1 < |Changes(current, reference, n)|
    ensures exists i :: (0 <= i < n && !SameOrderExists(current, reference, i) &&
      Changes(current, reference, n)[2 * p] == Some(current[i]) &&
      Changes(current, reference, n)[2 * p + 1] == At(current, i + 1))
  {
    var before := Changes(current, reference, n - 1);
    if 2 * p + 1 < |before| {
      ReportedIsFlagged(current, reference, n - 1, p);
      var i :| 0 <= i < n - 1 && !SameOrderExists(current, reference, i) &&
        before[2 * p] == Some(current[i]) && before[2 * p + 1] == At(current, i + 1);
      assert Changes(current, reference, n)[2 * p] == before[2 * p];
      assert Changes(current, reference, n)[2 * p + 1] == before[2 * p + 1];
    } else {
      assert !SameOrderExists(current, reference, n - 1);
      assert Changes(current, reference, n)[2 * p] == Some(current[n - 1]);
    }
  }

  /** An element that does not occur in the reference at all is always reported. */
  lemma AbsentIsReported(current: seq<int>, reference: seq<int>, i: nat)
    requires i < |current| && current[i] !in reference
    ensures exists p :: (0 <= p && 2 * p + 1 < |Changes(current, reference, |current|)| &&
      Changes(current, reference, |current|)[2 * p] == Some(current[i]) &&
      Changes(current, reference, |current|)[2 * p + 1] == At(current, i + 1))
  {
    FlaggedIsReported(current, reference, |current|, i);
  }

  /** A sequence compared with itself reports nothing: each element's own position is a same-ordered occurrence. */
  lemma {:induction false} NoChangesAgainstItself(s: seq<int>, n: nat)
    requires n <= |s|
    ensures Changes(s, s, n) == []
  {
    if n > 0 {
      NoChangesAgainstItself(s, n - 1);
      assert OrderIsTheSame(s, s, n - 1, n - 1);
    }
  }

  /** Whether some occurrence of `current[currentIndex]` in the reference has the same successor. */
  method FindSameOrder(current: seq<int>, reference: seq<int>, currentIndex: nat) returns (sameOrderExistsInReference: bool)
    requires currentIndex < |current|
    ensures sameOrderExistsInReference == SameOrderExists(current, reference, currentIndex)
  {
    sameOrderExistsInReference := false;
    var i := 0;
    while i < |reference|
      invariant 0 <= i <= |reference|
      invariant sameOrderExistsInReference <==>
        exists ri :: 0 <= ri < i && reference[ri] == current[currentIndex] &&
          OrderIsTheSame(current, reference, currentIndex, ri)
    {
      if reference[i] == current[currentIndex] && OrderIsTheSame(current, reference, currentIndex, i) {
        sameOrderExistsInReference := true;
      }
      i := i + 1;
    }
  }

  /** The pairs of `current` whose order differs from the reference. */
  method CompareOrder(current: seq<int>, reference: seq<int>) returns (changes: seq<Option<int>>)
    ensures changes == Changes(current, reference, |current|)
    ensures |changes| % 2 == 0
  {
    changes := [];
    var currentIndex := 0;
    while currentIndex < |current|
      invariant 0 <= currentIndex <= |current|
      invariant changes == Changes(current, reference, currentIndex)
    {
      var same := FindSameOrder(current, reference, currentIndex);
      if !same {
        changes := changes + [Some(current[currentIndex]), At(current, currentIndex + 1)];
      }
      currentIndex := currentIndex + 1;
    }
  }

  // ---------------------------------------------------------------------------
  // crossDetection
  // ---------------------------------------------------------------------------

  /** The reference: the given id, or else the first sequence id (none when there are no nodes). */
  function ReferenceId(members: seq<Member>, referenceSequenceId: Option<string>): Option<string>
  {
    if referenceSequenceId.Some? then referenceSequenceId
    else if SequenceIds(members) == [] then None
    else Some(SequenceIds(members)[0])
  }

  /** The collapsed order of one sequence compared with the collapsed reference order. */
  function SequenceChanges(members: seq<Member>, id: string, reference: seq<int>): seq<Option<int>>
  {
    var current := Collapse(SequenceOrder(members, Some(id)));
    Changes(current, reference, |current|)
  }

  /** The changes of the first n sequences, concatenated in sequence order. */
  function ChangesOfSequences(members: seq<Member>, ids: seq<string>, n: nat, reference: seq<int>): (r: seq<Option<int>>)
    requires n <= |ids|
    ensures |r| % 2 == 0
  {
    if n == 0 then []
    else ChangesOfSequences(members, ids, n - 1, reference) + SequenceChanges(members, ids[n - 1], reference)
  }

  function Crossings(members: seq<Member>, referenceSequenceId: Option<string>): seq<Option<int>>
  {
    var ids := SequenceIds(members);
    var reference := Collapse(SequenceOrder(members, ReferenceId(members, referenceSequenceId)));
    ChangesOfSequences(members, ids, |ids|, reference)
  }

  /** The reference sequence, compared with itself, contributes no crossings. */
  lemma ReferenceHasNoCrossings(members: seq<Member>, referenceSequenceId: Option<string>, id: string)
    requires Some(id) == ReferenceId(members, referenceSequenceId)
    ensures SequenceChanges(members, id, Collapse(SequenceOrder(members, ReferenceId(members, referenceSequenceId)))) == []
  {
    var s := Collapse(SequenceOrder(members, Some(id)));
    NoChangesAgainstItself(s, |s|);
  }

  /**
   * The unique sequence ids (first appearance order), then per sequence its
   * collapsed order compared with the collapsed reference order, the reported
   * pairs concatenated.
   */
  method DetectCrossings(nodes: seq<GraphNode>, referenceSequenceId: Option<string>) returns (crossing: seq<Option<int>>)
    ensures crossing == Crossings(MembersOf(nodes), referenceSequenceId)
    ensures |crossing| % 2 == 0
  {
    var members := MembersOf(nodes);
    var ids := KeepFirst(Keys(members, SequenceIdOf), Id);
    var referenceId := if referenceSequenceId.Some? then referenceSequenceId
                       else if ids == [] then None else Some(ids[0]);
    var reference := CollapseRuns(SequenceOrder(members, referenceId));
    crossing := [];
    var k := 0;
    while k < |ids|
      invariant 0 <= k <= |ids|
      invariant crossing == ChangesOfSequences(members, ids, k, reference)
    {
      var current := CollapseRuns(SequenceOrder(members, Some(ids[k])));
      var changes := CompareOrder(current, reference);
      crossing := crossing + changes;
      k := k + 1;
    }
  }

  /** The sequence ids are distinct and are exactly the ids of the nodes. */
  lemma SequenceIdsDistinct(members: seq<Member>)
    ensures forall i, j :: 0 <= i < j < |SequenceIds(members)| ==> SequenceIds(members)[i] != SequenceIds(members)[j]
    ensures forall id :: id in SequenceIds(members) <==> id in Keys(members, SequenceIdOf)
  {
    var ids := Keys(members, SequenceIdOf);
    UniqueByDistinct(ids, Id);
    UniqueByKeys(ids, Id);
    KeysOfId(ids);
    KeysOfId(UniqueBy(ids, Id));
  }
}
