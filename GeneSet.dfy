/**
 * The synchronous actions of the genome store and the gene set store: the
 * empty-sequence filter, the initial lasso selection, the mRNA score matrix,
 * the uid index lookups, the gene homology groups, the genes of a lasso
 * selection, and deleting a chromosome.
 *
 * Records hold only the fields these actions read or write.
 */
module GeneSet {
  import opened JsNumber
  import opened JsText
  import opened Dedup
  import opened Dictionaries
  import JsArray
  import C = Chromosome

  datatype Genome = Genome(uid: string)
  datatype Group = Group(uid: string, groupLabel: int, mrnas: seq<string>)
  datatype HomologyGroupRef = HomologyGroupRef(id: int, uid: string)
  datatype Gene = Gene(uid: string, mrnas: seq<string>, homologyGroups: seq<HomologyGroupRef>, sequenceUid: Option<string>)

  function GenomeUidOf(g: Genome): string
  {
    g.uid
  }

  function GeneUidOf(g: Gene): string
  {
    g.uid
  }

  /** An element's position in its list, as the index-lookup reducers store it. */
  function Position<T>(i: nat, x: T): int
  {
    i
  }

  /** With distinct keys, each key's value in the index lookup is its position, and there are no other keys. */
  lemma IndexLookupOfDistinct<T>(items: seq<T>, key: T -> string)
    requires forall i, j :: 0 <= i < j < |items| ==> key(items[i]) != key(items[j])
    ensures forall k :: k in Assign(items, key, Position) <==> k in Keys(items, key)
    ensures forall i :: 0 <= i < |items| ==> Assign(items, key, Position)[key(items[i])] == i
  {
    AssignKeys(items, key, Position);
    forall i | 0 <= i < |items| ensures Assign(items, key, Position)[key(items[i])] == i {
      PositionOfDistinct(items, key, i);
    }
  }

  lemma PositionOfDistinct<T>(items: seq<T>, key: T -> string, i: nat)
    requires forall i, j :: 0 <= i < j < |items| ==> key(items[i]) != key(items[j])
    requires i < |items|
    ensures key(items[i]) in Assign(items, key, Position) && Assign(items, key, Position)[key(items[i])] == i
  {
    assert forall j :: i < j < |items| ==> key(items[j]) != key(items[i]);
    AssignLastWins(items, key, Position, i);
  }

  // ---------------------------------------------------------------------------
  // Sequences with loci
  // ---------------------------------------------------------------------------

  predicate HasLoci(s: C.SequenceInfo)
  {
    |s.loci| > 0
  }

  /** The sequences that have loci, in order. */
  function WithLoci(sequences: seq<C.SequenceInfo>): (r: seq<C.SequenceInfo>)
    ensures forall x :: x in r <==> x in sequences && HasLoci(x)
    ensures |r| <= |sequences|
  {
    if sequences == [] then []
    else
      var last := sequences[|sequences| - 1];
      assert sequences == sequences[..|sequences| - 1] + [last];
      WithLoci(sequences[..|sequences| - 1]) + (if HasLoci(last) then [last] else [])
  }

  /** Filtering keeps the order: the filter of a concatenation is the concatenation of the filters. */
  lemma {:induction false} WithLociAppend(a: seq<C.SequenceInfo>, b: seq<C.SequenceInfo>)
    ensures WithLoci(a + b) == WithLoci(a) + WithLoci(b)
  {
    if b == [] {
      assert a + b == a;
    } else {
      var init, last := b[..|b| - 1], b[|b| - 1];
      var tail := if HasLoci(last) then [last] else [];
      WithLociAppend(a, init);
      assert (a + b)[..|a + b| - 1] == a + init;
      assert (a + b)[|a + b| - 1] == last;
      assert WithLoci(a + b) == WithLoci(a + init) + tail;
      assert WithLoci(b) == WithLoci(init) + tail;
    }
  }

  /** The getter sequenceUidsWithLoci. */
  function UidsWithLoci(sequences: seq<C.SequenceInfo>): seq<string>
  {
    Keys(WithLoci(sequences), C.SequenceUidOf)
  }

  // ---------------------------------------------------------------------------
  // mRNA score matrix
  // ---------------------------------------------------------------------------

  /** The mRNAs of the groups with more than one mRNA, group by group. */
  function SharedMrnas(groups: seq<Group>): (r: seq<string>)
    ensures forall m :: m in r <==> exists g :: g in groups && |g.mrnas| > 1 && m in g.mrnas
  {
    if groups == [] then []
    else
      var last := groups[|groups| - 1];
      var init := groups[..|groups| - 1];
      assert groups == init + [last];
      SharedMrnas(init) + (if |last.mrnas| > 1 then last.mrnas else [])
  }

  /** `Array.from(uniqueMrnaUids)`: the shared mRNAs in order of first insertion into the Set. */
  function MrnaUids(groups: seq<Group>): seq<string>
  {
    UniqueBy(SharedMrnas(groups), Id)
  }

  /** An n by n matrix of one value. */
  function Filled(n: nat, value: Num): (m: seq<seq<Num>>)
    ensures |m| == n && forall i :: 0 <= i < n ==> |m[i]| == n && forall j :: 0 <= j < n ==> m[i][j] == value
  {
    seq(n, i => seq(n, j => value))
  }

  /** `row.map((value) => (isNaN(value) ? 0 : value))` for every row. */
  function ZeroNaN(m: seq<seq<Num>>): (r: seq<seq<Num>>)
    ensures |r| == |m| && forall i :: 0 <= i < |m| ==> |r[i]| == |m[i]|
    ensures forall i, j :: 0 <= i < |m| && 0 <= j < |m[i]| ==> !r[i][j].NaN?
    ensures forall i, j :: 0 <= i < |m| && 0 <= j < |m[i]| && !m[i][j].NaN? ==> r[i][j] == m[i][j]
  {
    seq(|m|, i requires 0 <= i < |m| => seq(|m[i]|, j requires 0 <= j < |m[i]| => if m[i][j].NaN? then Fin(0.0) else m[i][j]))
  }

  /** In the index lookup of distinct uids, each entry is the position of its own uid. */
  lemma IndexLookupPositions(uids: seq<string>)
    requires forall i, j :: 0 <= i < j < |uids| ==> uids[i] != uids[j]
    ensures forall m :: m in Assign(uids, Id, Position) <==> m in uids
    ensures forall m :: m in Assign(uids, Id, Position) ==>
      0 <= Assign(uids, Id, Position)[m] < |uids| && uids[Assign(uids, Id, Position)[m]] == m
  {
    KeysOfId(uids);
    IndexLookupOfDistinct(uids, Id);
    var lookup := Assign(uids, Id, Position);
    forall m | m in lookup ensures 0 <= lookup[m] < |uids| && uids[lookup[m]] == m {
      var i :| 0 <= i < |uids| && uids[i] == m;
      assert Id(uids[i]) == m;
    }
  }

  /**
   * Every shared mRNA has an index lookup entry, and the entries are the
   * positions 0..n-1, one per mRNA, with n the number of distinct shared
   * mRNAs.
   */
  lemma MrnaIndexLookupIsBijection(groups: seq<Group>)
    ensures var lookup := Assign(MrnaUids(groups), Id, Position);
      forall m :: m in lookup <==> m in SharedMrnas(groups)
    ensures var lookup := Assign(MrnaUids(groups), Id, Position);
      forall m :: m in lookup ==> 0 <= lookup[m] < |MrnaUids(groups)|
    ensures var lookup := Assign(MrnaUids(groups), Id, Position);
      forall m, m' :: m in lookup && m' in lookup && m != m' ==> lookup[m] != lookup[m']
  {
    var shared := SharedMrnas(groups);
    var uids := UniqueBy(shared, Id);
    UniqueByIdMembers(shared);
    UniqueByDistinct(shared, Id);
    assert forall i, j :: 0 <= i < j < |uids| ==> uids[i] != uids[j] by {
      forall i, j | 0 <= i < j < |uids| ensures uids[i] != uids[j] {
        assert Id(uids[i]) != Id(uids[j]);
      }
    }
    IndexLookupPositions(uids);
  }

  // ---------------------------------------------------------------------------
  // Homology groups of genes
  // ---------------------------------------------------------------------------

  function RefOf(g: Group): HomologyGroupRef
  {
    HomologyGroupRef(g.groupLabel, g.uid)
  }

  /** Every mRNA of the list set to the group's reference. */
  function SetMrnas(lookup: map<string, HomologyGroupRef>, mrnas: seq<string>, ref: HomologyGroupRef): (r: map<string, HomologyGroupRef>)
    ensures forall m :: m in r <==> m in lookup || m in mrnas
    ensures forall m :: m in r ==> r[m] == (if m in mrnas then ref else lookup[m])
  {
    if mrnas == [] then lookup
    else SetMrnas(lookup, mrnas[..|mrnas| - 1], ref)[mrnas[|mrnas| - 1] := ref]
  }

  /** mRNAToHomologyGroup: each mRNA to the group that lists it, a later group overwriting. */
  function MrnaToGroup(groups: seq<Group>): map<string, HomologyGroupRef>
  {
    if groups == [] then map[]
    else
      var n := |groups| - 1;
      SetMrnas(MrnaToGroup(groups[..n]), groups[n].mrnas, RefOf(groups[n]))
  }

  /** An mRNA has an entry exactly when some group lists it. */
  lemma {:induction false} MrnaToGroupKeys(groups: seq<Group>)
    ensures forall m :: m in MrnaToGroup(groups) <==> exists g :: g in groups && m in g.mrnas
  {
    if groups != [] {
      var n := |groups| - 1;
      MrnaToGroupKeys(groups[..n]);
      assert groups == groups[..n] + [groups[n]];
    }
  }

  /** An mRNA that no later group lists maps to the group of its last listing. */
  lemma {:induction false} MrnaToGroupLastWins(groups: seq<Group>, i: nat, m: string)
    requires i < |groups| && m in groups[i].mrnas
    requires forall j :: i < j < |groups| ==> m !in groups[j].mrnas
    ensures m in MrnaToGroup(groups) && MrnaToGroup(groups)[m] == RefOf(groups[i])
  {
    var n := |groups| - 1;
    var init := groups[..n];
    var ref := RefOf(groups[n]);
    if i < n {
      assert init[i] == groups[i];
      assert forall j :: i < j < |init| ==> init[j] == groups[j];
      MrnaToGroupLastWins(init, i, m);
      assert m !in groups[n].mrnas;
    }
  }

  predicate DistinctIds(entries: seq<HomologyGroupRef>)
  {
    forall i, j :: 0 <= i < j < |entries| ==> entries[i].id != entries[j].id
  }

  /** `Map.set(info.id, info)`: a present id keeps its place and takes the new value; a new id is appended. */
  function SetById(entries: seq<HomologyGroupRef>, info: HomologyGroupRef): (r: seq<HomologyGroupRef>)
    requires DistinctIds(entries)
    ensures DistinctIds(r)
    ensures info in r
    ensures forall e :: e in r ==> e == info || (e in entries && e.id != info.id)
    ensures forall e :: e in entries && e.id != info.id ==> e in r
    ensures (forall k :: 0 <= k < |entries| ==> entries[k].id != info.id) ==> r == entries + [info]
    ensures (exists k :: 0 <= k < |entries| && entries[k].id == info.id) ==>
      |r| == |entries| && forall k :: 0 <= k < |entries| ==> r[k] == (if entries[k].id == info.id then info else entries[k])
  {
    var i := FindId(entries, info.id);
    if i < 0 then entries + [info]
    else
      var r := entries[i := info];
      assert r[i] == info;
      assert forall k :: 0 <= k < |entries| && entries[k].id != info.id ==> r[k] == entries[k];
      r
  }

  function FindId(entries: seq<HomologyGroupRef>, id: int): (i: int)
    ensures -1 <= i < |entries|
    ensures i < 0 <==> forall k :: 0 <= k < |entries| ==> entries[k].id != id
    ensures i >= 0 ==> entries[i].id == id
  {
    JsArray.FindIndex(entries, (e: HomologyGroupRef) => e.id == id)
  }

  /**
   * A gene's homology groups: each of its mRNAs that has a group sets that
   * group under its id, so no two entries share an id.
   */
  function HomologyGroupsOf(mrnas: seq<string>, mrnaToGroup: map<string, HomologyGroupRef>): (r: seq<HomologyGroupRef>)
    ensures DistinctIds(r)
  {
    if mrnas == [] then []
    else
      var n := |mrnas| - 1;
      var before := HomologyGroupsOf(mrnas[..n], mrnaToGroup);
      if mrnas[n] in mrnaToGroup then SetById(before, mrnaToGroup[mrnas[n]]) else before
  }

  /** Every entry is the group of one of the gene's mRNAs. */
  lemma {:induction false} HomologyGroupsSound(mrnas: seq<string>, mrnaToGroup: map<string, HomologyGroupRef>)
    ensures forall e :: e in HomologyGroupsOf(mrnas, mrnaToGroup) ==> exists m :: m in mrnas && m in mrnaToGroup && mrnaToGroup[m] == e
  {
    if mrnas != [] {
      var n := |mrnas| - 1;
      HomologyGroupsSound(mrnas[..n], mrnaToGroup);
      assert forall m :: m in mrnas[..n] ==> m in mrnas;
    }
  }

  /**
   * Every group an mRNA of the gene has is present by id, and the group of
   * the gene's last mRNA is present as it is.
   */
  lemma {:induction false} HomologyGroupsComplete(mrnas: seq<string>, mrnaToGroup: map<string, HomologyGroupRef>)
    ensures forall m :: m in mrnas && m in mrnaToGroup ==>
      exists e :: e in HomologyGroupsOf(mrnas, mrnaToGroup) && e.id == mrnaToGroup[m].id
    ensures |mrnas| > 0 && mrnas[|mrnas| - 1] in mrnaToGroup ==> mrnaToGroup[mrnas[|mrnas| - 1]] in HomologyGroupsOf(mrnas, mrnaToGroup)
  {
    if mrnas != [] {
      var n := |mrnas| - 1;
      var before := HomologyGroupsOf(mrnas[..n], mrnaToGroup);
      var r := HomologyGroupsOf(mrnas, mrnaToGroup);
      HomologyGroupsComplete(mrnas[..n], mrnaToGroup);
      forall m | m in mrnas && m in mrnaToGroup ensures exists e :: e in r && e.id == mrnaToGroup[m].id {
        if m == mrnas[n] {
          assert mrnaToGroup[m] in r;
        } else {
          assert m in mrnas[..n];
          var e :| e in before && e.id == mrnaToGroup[m].id;
          if mrnas[n] in mrnaToGroup && e.id == mrnaToGroup[mrnas[n]].id {
            assert mrnaToGroup[mrnas[n]] in r;
          } else {
            assert e in r;
          }
        }
      }
    }
  }

  /** geneToHomologyGroupLookup: each gene uid to its gene's homology groups, a later gene with the same uid overwriting. */
  function GeneHomologyLookup(genes: seq<Gene>, mrnaToGroup: map<string, HomologyGroupRef>): map<string, seq<HomologyGroupRef>>
  {
    Assign(genes, GeneUidOf, (i: nat, g: Gene) => HomologyGroupsOf(g.mrnas, mrnaToGroup))
  }

  /** Every gene has an entry, and no entry lists two groups with the same id. */
  lemma GeneHomologyLookupDistinct(genes: seq<Gene>, mrnaToGroup: map<string, HomologyGroupRef>)
    ensures forall u :: u in GeneHomologyLookup(genes, mrnaToGroup) <==> u in Keys(genes, GeneUidOf)
    ensures forall u :: u in GeneHomologyLookup(genes, mrnaToGroup) ==> DistinctIds(GeneHomologyLookup(genes, mrnaToGroup)[u])
  {
    var value := (i: nat, g: Gene) => HomologyGroupsOf(g.mrnas, mrnaToGroup);
    AssignKeys(genes, GeneUidOf, value);
    forall u | u in GeneHomologyLookup(genes, mrnaToGroup) ensures DistinctIds(GeneHomologyLookup(genes, mrnaToGroup)[u]) {
      AssignFrom(genes, GeneUidOf, value, u);
    }
  }

  // ---------------------------------------------------------------------------
  // Sequence to mRNA lookup
  // ---------------------------------------------------------------------------

  /** `geneToLocusSequenceLookup.get(uid)?.sequence`, when it is a non-empty string. */
  function SequenceOfGene(uid: string, geneToLocusSequence: map<string, C.LocusAndSequence>): Option<string>
  {
    if uid in geneToLocusSequence && geneToLocusSequence[uid].sequence != "" then Some(geneToLocusSequence[uid].sequence)
    else None
  }

  /** Each sequence's mRNAs: the mRNAs of its genes, gene by gene, stored as Map entries. */
  function SequenceMrnas(genes: seq<Gene>, geneToLocusSequence: map<string, C.LocusAndSequence>): (r: map<string, seq<string>>)
    ensures forall s :: s in r <==> exists g :: g in genes && SequenceOfGene(g.uid, geneToLocusSequence) == Some(s)
    ensures forall s, m :: s in r && m in r[s] <==>
      exists g :: g in genes && SequenceOfGene(g.uid, geneToLocusSequence) == Some(s) && m in g.mrnas
  {
    if genes == [] then map[]
    else
      var n := |genes| - 1;
      var g := genes[n];
      assert genes == genes[..n] + [g];
      var before := SequenceMrnas(genes[..n], geneToLocusSequence);
      match SequenceOfGene(g.uid, geneToLocusSequence)
      case None => before
      case Some(s) => before[s := (if s in before then before[s] else []) + g.mrnas]
  }

  /** A JavaScript Map object: its entries, and the plain properties that bracket assignment writes. */
  datatype JsMapObject = JsMapObject(entries: map<string, seq<string>>, props: map<string, seq<string>>)

  /**
   * The sequence to mRNA reducer as written: its accumulator is a Map, but
   * `lookup[s] = []` and `lookup[s].push(...)` write plain properties.
   */
  function SequenceMrnasAsWritten(genes: seq<Gene>, geneToLocusSequence: map<string, C.LocusAndSequence>): JsMapObject
  {
    if genes == [] then JsMapObject(map[], map[])
    else
      var n := |genes| - 1;
      var g := genes[n];
      var before := SequenceMrnasAsWritten(genes[..n], geneToLocusSequence);
      match SequenceOfGene(g.uid, geneToLocusSequence)
      case None => before
      case Some(s) => before.(props := before.props[s := (if s in before.props then before.props[s] else []) + g.mrnas])
  }

  /**
   * The lists land in properties, and the Map itself stays empty: `get`
   * finds no sequence, even for a sequence whose genes have mRNAs.
   */
  lemma {:induction false} AsWrittenMapStaysEmpty(genes: seq<Gene>, geneToLocusSequence: map<string, C.LocusAndSequence>)
    ensures SequenceMrnasAsWritten(genes, geneToLocusSequence).entries == map[]
    ensures SequenceMrnasAsWritten(genes, geneToLocusSequence).props == SequenceMrnas(genes, geneToLocusSequence)
  {
    if genes != [] {
      AsWrittenMapStaysEmpty(genes[..|genes| - 1], geneToLocusSequence);
    }
  }

  /** Extending each gene with its homology groups (none when absent) and its sequence uid. */
  function Extended(genes: seq<Gene>, homology: map<string, seq<HomologyGroupRef>>, geneToLocusSequence: map<string, C.LocusAndSequence>)
    : (r: seq<Gene>)
    ensures |r| == |genes|
    ensures forall i :: 0 <= i < |genes| ==> r[i].uid == genes[i].uid && r[i].mrnas == genes[i].mrnas
    ensures forall i :: 0 <= i < |genes| && genes[i].uid in homology ==> r[i].homologyGroups == homology[genes[i].uid]
    ensures forall i :: 0 <= i < |genes| && genes[i].uid !in homology ==> r[i].homologyGroups == []
    ensures forall i :: 0 <= i < |genes| ==> (r[i].sequenceUid.Some? <==> genes[i].uid in geneToLocusSequence)
    ensures forall i :: 0 <= i < |genes| && genes[i].uid in geneToLocusSequence ==>
      r[i].sequenceUid == Some(geneToLocusSequence[genes[i].uid].sequence)
  {
    seq(|genes|, i requires 0 <= i < |genes| =>
      var uid := genes[i].uid;
      genes[i].(homologyGroups := if uid in homology then homology[uid] else [],
                sequenceUid := if uid in geneToLocusSequence then Some(geneToLocusSequence[uid].sequence) else None))
  }

  // ---------------------------------------------------------------------------
  // Genes of the lasso selection
  // ---------------------------------------------------------------------------

  /** The genes of each selected sequence that has a lookup entry, in selection order. */
  function LassoGenes(selected: seq<string>, lookup: map<string, C.LociGenes>): (r: seq<string>)
    ensures forall g :: g in r <==> exists s :: s in selected && s in lookup && g in lookup[s].genes
  {
    if selected == [] then []
    else
      var n := |selected| - 1;
      assert selected == selected[..n] + [selected[n]];
      LassoGenes(selected[..n], lookup) + (if selected[n] in lookup then lookup[selected[n]].genes else [])
  }

  // ---------------------------------------------------------------------------
  // The genome store
  // ---------------------------------------------------------------------------

  class GenomeStore {
    var genomes: seq<Genome>
    var sequences: seq<C.SequenceInfo>
    var genes: seq<Gene>
    var groups: seq<Group>
    var filterEmpty: bool
    var filteredSequences: seq<C.SequenceInfo>
    var selectedSequencesLasso: seq<string>
    var selectedSequencesTracker: set<string>
    var mrnaUidIndexLookup: map<string, int>
    var mrnaScoreMatrix: seq<seq<Num>>
    var genomeUids: seq<string>
    var genomeUidLookup: map<string, int>
    var sequenceUids: seq<string>
    var sequenceUidLookup: map<string, int>
    var geneToHomologyGroupLookup: map<string, seq<HomologyGroupRef>>
    var sequenceToMrnaLookup: map<string, seq<string>>
    var sequenceToLociGenesLookup: map<string, C.LociGenes>
    var geneToLocusSequenceLookup: map<string, C.LocusAndSequence>

    /** The initial state, with the genome data already loaded. */
    constructor(genomes: seq<Genome>, sequences: seq<C.SequenceInfo>, genes: seq<Gene>, groups: seq<Group>)
      ensures this.genomes == genomes && this.sequences == sequences && this.genes == genes && this.groups == groups
      ensures !filterEmpty && filteredSequences == [] && selectedSequencesLasso == [] && selectedSequencesTracker == {}
      ensures mrnaUidIndexLookup == map[] && mrnaScoreMatrix == []
      ensures genomeUids == [] && genomeUidLookup == map[] && sequenceUids == [] && sequenceUidLookup == map[]
      ensures geneToHomologyGroupLookup == map[] && sequenceToMrnaLookup == map[]
      ensures sequenceToLociGenesLookup == map[] && geneToLocusSequenceLookup == map[]
    {
      this.genomes := genomes;
      this.sequences := sequences;
      this.genes := genes;
      this.groups := groups;
      filterEmpty := false;
      filteredSequences := [];
      selectedSequencesLasso := [];
      selectedSequencesTracker := {};
      mrnaUidIndexLookup := map[];
      mrnaScoreMatrix := [];
      genomeUids := [];
      genomeUidLookup := map[];
      sequenceUids := [];
      sequenceUidLookup := map[];
      geneToHomologyGroupLookup := map[];
      sequenceToMrnaLookup := map[];
      sequenceToLociGenesLookup := map[];
      geneToLocusSequenceLookup := map[];
    }

    method ToggleFilterEmpty()
      modifies this`filterEmpty
      ensures filterEmpty == !old(filterEmpty)
    {
      filterEmpty := !filterEmpty;
    }

    method UpdateFilteredSequences()
      modifies this`filteredSequences
      ensures filteredSequences == WithLoci(sequences)
      ensures forall s :: s in filteredSequences <==> s in sequences && HasLoci(s)
    {
      filteredSequences := WithLoci(sequences);
    }

    /** At most the first three uids of sequences with loci are selected; every such uid joins the tracker. */
    method InitializeSelectedSequencesLasso()
      modifies this`selectedSequencesLasso, this`selectedSequencesTracker
      ensures selectedSequencesLasso == JsArray.JsSlice(UidsWithLoci(sequences), 0, 3)
      ensures |selectedSequencesLasso| <= 3 && selectedSequencesLasso <= UidsWithLoci(sequences)
      ensures |UidsWithLoci(sequences)| >= 3 ==> |selectedSequencesLasso| == 3
      ensures selectedSequencesTracker == old(selectedSequencesTracker) + set u | u in UidsWithLoci(sequences)
    {
      var uids := UidsWithLoci(sequences);
      selectedSequencesLasso := JsArray.JsSlice(uids, 0, 3);
      var i := 0;
      while i < |uids|
        invariant 0 <= i <= |uids|
        invariant selectedSequencesLasso == JsArray.JsSlice(uids, 0, 3)
        invariant selectedSequencesTracker == old(selectedSequencesTracker) + set u | u in uids[..i]
      {
        assert uids[..i + 1] == uids[..i] + [uids[i]];
        selectedSequencesTracker := selectedSequencesTracker + {uids[i]};
        i := i + 1;
      }
      assert uids[..i] == uids;
    }

    /**
     * Indexes the distinct mRNAs of groups with more than one mRNA, in order
     * of first appearance, and sets the score matrix to n by n zeros.
     */
    method GenerateMrnaScoreMatrix()
      modifies this`mrnaUidIndexLookup, this`mrnaScoreMatrix
      ensures mrnaUidIndexLookup == Assign(MrnaUids(groups), Id, Position)
      ensures |mrnaScoreMatrix| == |MrnaUids(groups)|
      ensures forall i :: 0 <= i < |mrnaScoreMatrix| ==> |mrnaScoreMatrix[i]| == |MrnaUids(groups)|
      ensures forall i, j :: 0 <= i < |mrnaScoreMatrix| && 0 <= j < |mrnaScoreMatrix[i]| ==> mrnaScoreMatrix[i][j] == Fin(0.0)
    {
      var uniqueMrnaUids := CollectSharedMrnas(groups);
      var lookup: map<string, int> := map[];
      var k := 0;
      while k < |uniqueMrnaUids|
        invariant 0 <= k <= |uniqueMrnaUids|
        invariant lookup == Assign(uniqueMrnaUids[..k], Id, Position)
      {
        assert uniqueMrnaUids[..k + 1][..k] == uniqueMrnaUids[..k];
        lookup := lookup[uniqueMrnaUids[k] := k];
        k := k + 1;
      }
      assert uniqueMrnaUids[..k] == uniqueMrnaUids;
      mrnaUidIndexLookup := lookup;
      var size := |uniqueMrnaUids|;
      var filled := Filled(size, NaN);
      mrnaScoreMatrix := ZeroNaN(filled);
    }

    /** The uid lists of the genomes and sequences, and their uid-to-index lookups. */
    method GenerateUidLookups()
      modifies this`genomeUids, this`sequenceUids, this`genomeUidLookup, this`sequenceUidLookup
      ensures genomeUids == Keys(genomes, GenomeUidOf) && sequenceUids == Keys(sequences, C.SequenceUidOf)
      ensures genomeUidLookup == Assign(genomes, GenomeUidOf, Position)
      ensures sequenceUidLookup == Assign(sequences, C.SequenceUidOf, Position)
    {
      genomeUids, sequenceUids := Keys(genomes, GenomeUidOf), Keys(sequences, C.SequenceUidOf);
      genomeUidLookup := Assign(genomes, GenomeUidOf, Position);
      sequenceUidLookup := Assign(sequences, C.SequenceUidOf, Position);
    }

    /** Each gene's homology groups, through the mRNA-to-group lookup. */
    method GenerateHomologyLookup()
      modifies this`geneToHomologyGroupLookup
      ensures geneToHomologyGroupLookup == GeneHomologyLookup(genes, MrnaToGroup(groups))
    {
      var mrnaToGroup := BuildMrnaToGroup(groups);
      geneToHomologyGroupLookup := GeneHomologyLookup(genes, mrnaToGroup);
    }

    /** Each sequence's mRNAs, gene by gene. */
    method GenerateSequenceMrnaLookup()
      modifies this`sequenceToMrnaLookup
      ensures sequenceToMrnaLookup == SequenceMrnas(genes, geneToLocusSequenceLookup)
    {
      sequenceToMrnaLookup := SequenceMrnas(genes, geneToLocusSequenceLookup);
    }

    /** Every gene gains its homology groups and its sequence uid. */
    method ExtendGenes()
      modifies this`genes
      ensures genes == Extended(old(genes), geneToHomologyGroupLookup, geneToLocusSequenceLookup)
    {
      genes := Extended(genes, geneToHomologyGroupLookup, geneToLocusSequenceLookup);
    }

    /** The uid lists and index lookups, the gene homology groups, the sequence mRNAs, and the extended genes. */
    method GenerateIndicesAndLookup()
      modifies this`genomeUids, this`sequenceUids, this`genomeUidLookup, this`sequenceUidLookup
      modifies this`geneToHomologyGroupLookup, this`sequenceToMrnaLookup, this`genes
      ensures genomeUids == Keys(genomes, GenomeUidOf) && sequenceUids == Keys(sequences, C.SequenceUidOf)
      ensures genomeUidLookup == Assign(genomes, GenomeUidOf, Position)
      ensures sequenceUidLookup == Assign(sequences, C.SequenceUidOf, Position)
      ensures geneToHomologyGroupLookup == GeneHomologyLookup(old(genes), MrnaToGroup(groups))
      ensures sequenceToMrnaLookup == SequenceMrnas(old(genes), geneToLocusSequenceLookup)
      ensures genes == Extended(old(genes), geneToHomologyGroupLookup, geneToLocusSequenceLookup)
    {
      GenerateUidLookups();
      GenerateHomologyLookup();
      GenerateSequenceMrnaLookup();
      ExtendGenes();
    }

    /** The genes of the selected sequences, in selection order; sequences without an entry are skipped. */
    method GetGenesForSelectedLasso() returns (result: seq<string>)
      ensures result == LassoGenes(selectedSequencesLasso, sequenceToLociGenesLookup)
      ensures forall g :: g in result <==>
        exists s :: s in selectedSequencesLasso && s in sequenceToLociGenesLookup && g in sequenceToLociGenesLookup[s].genes
    {
      result := [];
      var selected := selectedSequencesLasso;
      var i := 0;
      while i < |selected|
        invariant 0 <= i <= |selected|
        invariant result == LassoGenes(selected[..i], sequenceToLociGenesLookup)
      {
        assert selected[..i + 1][..i] == selected[..i];
        if selected[i] in sequenceToLociGenesLookup {
          result := result + sequenceToLociGenesLookup[selected[i]].genes;
        }
        i := i + 1;
      }
      assert selected[..i] == selected;
    }
  }

  /** Adding one element to the insertion-ordered Set: appended when new, otherwise nothing changes. */
  lemma UniqueBySnoc(s: seq<string>, x: string)
    ensures UniqueBy(s + [x], Id) == if x in s then UniqueBy(s, Id) else UniqueBy(s, Id) + [x]
  {
    assert (s + [x])[..|s|] == s;
    KeysOfId(s);
  }

  lemma SharedMrnasSnoc(groups: seq<Group>, i: nat)
    requires i < |groups|
    ensures SharedMrnas(groups[..i + 1]) == SharedMrnas(groups[..i]) + (if |groups[i].mrnas| > 1 then groups[i].mrnas else [])
  {
    assert groups[..i + 1][..i] == groups[..i];
  }

  lemma AppendNext(seen: seq<string>, values: seq<string>, j: nat)
    requires j < |values|
    ensures seen + values[..j + 1] == (seen + values[..j]) + [values[j]]
  {
    assert values[..j + 1] == values[..j] + [values[j]];
  }

  /** Adding values one by one to an insertion-ordered Set that holds `seen`. */
  method AddAll(order: seq<string>, ghost seen: seq<string>, values: seq<string>) returns (r: seq<string>)
    requires order == UniqueBy(seen, Id)
    ensures r == UniqueBy(seen + values, Id)
  {
    r := order;
    ghost var added := seen;
    var j := 0;
    while j < |values|
      invariant 0 <= j <= |values|
      invariant added == seen + values[..j]
      invariant r == UniqueBy(added, Id)
    {
      AppendNext(seen, values, j);
      UniqueBySnoc(added, values[j]);
      UniqueByIdMembers(added);
      if values[j] !in r {
        r := r + [values[j]];
      }
      added := added + [values[j]];
      j := j + 1;
    }
    assert values[..j] == values;
  }

  /** The Set of shared mRNAs, filled group by group, as a list in insertion order. */
  method CollectSharedMrnas(groups: seq<Group>) returns (order: seq<string>)
    ensures order == MrnaUids(groups)
  {
    order := [];
    var i := 0;
    while i < |groups|
      invariant 0 <= i <= |groups|
      invariant order == UniqueBy(SharedMrnas(groups[..i]), Id)
    {
      var mrnas := groups[i].mrnas;
      SharedMrnasSnoc(groups, i);
      if |mrnas| > 1 {
        order := AddAll(order, SharedMrnas(groups[..i]), mrnas);
      } else {
        assert SharedMrnas(groups[..i]) + [] == SharedMrnas(groups[..i]);
      }
      i := i + 1;
    }
    assert groups[..i] == groups;
  }

  method BuildMrnaToGroup(groups: seq<Group>) returns (lookup: map<string, HomologyGroupRef>)
    ensures lookup == MrnaToGroup(groups)
  {
    lookup := map[];
    var i := 0;
    while i < |groups|
      invariant 0 <= i <= |groups|
      invariant lookup == MrnaToGroup(groups[..i])
    {
      assert groups[..i + 1][..i] == groups[..i];
      var before := lookup;
      var mrnas := groups[i].mrnas;
      var j := 0;
      while j < |mrnas|
        invariant 0 <= j <= |mrnas|
        invariant lookup == SetMrnas(before, mrnas[..j], RefOf(groups[i]))
      {
        assert mrnas[..j + 1][..j] == mrnas[..j];
        lookup := lookup[mrnas[j] := RefOf(groups[i])];
        j := j + 1;
      }
      assert mrnas[..j] == mrnas;
      i := i + 1;
    }
    assert groups[..i] == groups;
  }

  // ---------------------------------------------------------------------------
  // The gene set store: deleting a chromosome
  // ---------------------------------------------------------------------------

  /** `parseInt(chr.split('chr')[1])`; None for NaN. */
  function ChromosomeNumber(chr: string): Option<int>
  {
    match SplitSecond(chr, "chr")
    case None => None
    case Some(piece) => ParseInt(piece)
  }

  /** The name `chr` followed by a number in decimal reads back as that number. */
  lemma ChromosomeNumberOfName(n: nat)
    ensures ChromosomeNumber("chr" + NatToString(n)) == Some(n)
  {
    var digits := NatToString(n);
    NoPrefixInDigits(digits);
    SplitSecondAfterPrefix("chr", digits);
    ParseIntOfNatToString(n);
  }

  lemma NoPrefixInDigits(digits: string)
    requires forall i :: 0 <= i < |digits| ==> IsDigit(digits[i])
    ensures forall i :: 3 <= i <= 3 + |digits| ==> !OccursAt("chr" + digits, "chr", i)
  {
    var s := "chr" + digits;
    forall i | 3 <= i <= 3 + |digits| ensures !OccursAt(s, "chr", i) {
      if i + 3 <= |s| {
        assert s[i] == digits[i - 3];
      }
    }
  }

  /** An element of the store's chromosome list: a chromosome number, or a label such as `unphased`. */
  datatype ChromosomeEntry = Numbered(number: int) | Named(name: string)

  /**
   * `indexOf(value)` on the chromosome list: the first position holding that
   * number; -1 when it is absent or NaN. A label never equals a number.
   */
  function IndexOf(s: seq<ChromosomeEntry>, value: Option<int>): (r: int)
    ensures -1 <= r < |s|
    ensures r == -1 <==> value.None? || Numbered(value.value) !in s
    ensures r >= 0 ==> (value.Some? && s[r] == Numbered(value.value) &&
                        forall j :: 0 <= j < r ==> s[j] != Numbered(value.value))
  {
    if value.None? then -1 else JsArray.FindIndex(s, (x: ChromosomeEntry) => x == Numbered(value.value))
  }

  /**
   * Removing the first occurrence of the number, if any: one copy fewer, every
   * other element in its order. A label is never removed.
   */
  function RemoveFirst(s: seq<ChromosomeEntry>, value: Option<int>): (r: seq<ChromosomeEntry>)
    ensures forall name :: multiset(r)[Named(name)] == multiset(s)[Named(name)]
    ensures value.None? || Numbered(value.value) !in s ==> r == s
    ensures value.Some? && Numbered(value.value) in s ==>
      |r| == |s| - 1 && multiset(r) == multiset(s) - multiset{Numbered(value.value)}
    ensures value.Some? && Numbered(value.value) in s ==> exists i :: (0 <= i < |s| && s[i] == Numbered(value.value) &&
      (forall j :: 0 <= j < i ==> s[j] != Numbered(value.value)) && r == s[..i] + s[i + 1..])
  {
    var index := IndexOf(s, value);
    if index > -1 then
      assert s == s[..index] + [s[index]] + s[index + 1..];
      s[..index] + s[index + 1..]
    else s
  }

  class GeneSetStore {
    var chromosomes: seq<ChromosomeEntry>
    var numberOfChromosomes: int

    constructor(chromosomes: seq<ChromosomeEntry>)
      ensures this.chromosomes == chromosomes && numberOfChromosomes == |chromosomes|
    {
      this.chromosomes := chromosomes;
      numberOfChromosomes := |chromosomes|;
    }

    /** Removes the first occurrence of the chromosome's number; the count is the new length. */
    method DeleteChromosome(chr: string)
      modifies this`chromosomes, this`numberOfChromosomes
      ensures chromosomes == RemoveFirst(old(chromosomes), ChromosomeNumber(chr))
      ensures numberOfChromosomes == |chromosomes|
    {
      var chromosomesUpdated := chromosomes;
      var value := ChromosomeNumber(chr);
      var index := IndexOf(chromosomesUpdated, value);
      if index > -1 {
        chromosomesUpdated := chromosomesUpdated[..index] + chromosomesUpdated[index + 1..];
      }
      numberOfChromosomes := |chromosomesUpdated|;
      chromosomes := chromosomesUpdated;
    }
  }
}
