/**
 * The lookup builders over genome data: sequence id by uid, sequence to
 * loci and genes, gene to locus and sequence, sequences and group infos per
 * chromosome, group infos per genome and sequence number, and the initial
 * sort orders per chromosome.
 *
 * Records hold only the fields these builders read.
 */
module Chromosome {
  import opened Dedup
  import opened Dictionaries
  import JsText

  datatype Option<T> = None | Some(value: T)

  datatype SequenceInfo = SequenceInfo(uid: string, id: string, loci: seq<string>)
  datatype Locus = Locus(uid: string, genes: seq<string>)
  datatype GenomeData = GenomeData(sequences: seq<SequenceInfo>, loci: seq<Locus>)

  datatype SequenceMetrics = SequenceMetrics(phasingChromosome: string, sequenceId: string)
  datatype GroupInfo = GroupInfo(phasingChromosome: string, genomeNumber: nat, sequenceNumber: nat)

  // ---------------------------------------------------------------------------
  // getSequenceIdByUid
  // ---------------------------------------------------------------------------

  /** The id of the first sequence with the uid, or None (`undefined`) when there is none. */
  function GetSequenceIdByUid(sequences: seq<SequenceInfo>, uid: string): (r: Option<string>)
    ensures r.None? <==> forall i :: 0 <= i < |sequences| ==> sequences[i].uid != uid
    ensures r.Some? ==> exists i :: (0 <= i < |sequences| && sequences[i].uid == uid && r.value == sequences[i].id &&
      forall j :: 0 <= j < i ==> sequences[j].uid != uid)
  {
    if sequences == [] then None
    else if sequences[0].uid == uid then Some(sequences[0].id)
    else
      var r := GetSequenceIdByUid(sequences[1..], uid);
      if r.Some? then
        var i :| 0 <= i < |sequences[1..]| && sequences[1..][i].uid == uid && r.value == sequences[1..][i].id &&
          forall j :: 0 <= j < i ==> sequences[1..][j].uid != uid;
        assert sequences[i + 1] == sequences[1..][i];
        r
      else r
  }

  // ---------------------------------------------------------------------------
  // createSequenceToLociGenesLookup
  // ---------------------------------------------------------------------------

  datatype LociGenes = LociGenes(loci: seq<string>, genes: seq<string>)

  /** The loci whose uid is one of `uids`, in loci order. */
  function LociAmong(loci: seq<Locus>, uids: seq<string>): (r: seq<Locus>)
    ensures forall l :: l in r ==> l in loci && l.uid in uids
    ensures forall l :: l in loci && l.uid in uids ==> l in r
  {
    if loci == [] then []
    else
      var last := loci[|loci| - 1];
      LociAmong(loci[..|loci| - 1], uids) + (if last.uid in uids then [last] else [])
  }

  function Uids(loci: seq<Locus>): (r: seq<string>)
    ensures |r| == |loci|
    ensures forall i :: 0 <= i < |loci| ==> r[i] == loci[i].uid
  {
    if loci == [] then [] else Uids(loci[..|loci| - 1]) + [loci[|loci| - 1].uid]
  }

  /** flatMap(locus => locus.genes) */
  function GenesOf(loci: seq<Locus>): seq<string>
  {
    if loci == [] then [] else GenesOf(loci[..|loci| - 1]) + loci[|loci| - 1].genes
  }

  /** The sequence's loci uids (in loci order) and the genes of those loci. */
  function LociGenesOf(data: GenomeData, sequence: SequenceInfo): LociGenes
  {
    var lociUids := Uids(LociAmong(data.loci, sequence.loci));
    LociGenes(lociUids, GenesOf(LociAmong(data.loci, lociUids)))
  }

  /** Two uid lists that agree on the loci of a list select the same loci. */
  lemma {:induction false} LociAmongAgree(loci: seq<Locus>, uids: seq<string>, others: seq<string>)
    requires forall l :: l in loci ==> (l.uid in uids <==> l.uid in others)
    ensures LociAmong(loci, uids) == LociAmong(loci, others)
  {
    if loci != [] {
      LociAmongAgree(loci[..|loci| - 1], uids, others);
    }
  }

  /** Filtering by the uids a filter kept selects the same loci again. */
  lemma LociAmongOwnUids(loci: seq<Locus>, uids: seq<string>)
    ensures LociAmong(loci, Uids(LociAmong(loci, uids))) == LociAmong(loci, uids)
  {
    var kept := LociAmong(loci, uids);
    forall l | l in loci ensures l.uid in uids <==> l.uid in Uids(kept) {
      if l.uid in uids {
        assert l in kept;
        var i :| 0 <= i < |kept| && kept[i] == l;
        assert Uids(kept)[i] == l.uid;
      }
      if l.uid in Uids(kept) {
        var i :| 0 <= i < |kept| && Uids(kept)[i] == l.uid;
        assert kept[i] in kept;
      }
    }
    LociAmongAgree(loci, uids, Uids(kept));
  }

  /** The genes are exactly the genes of the loci the sequence lists, in loci order. */
  lemma GenesOfListedLoci(data: GenomeData, sequence: SequenceInfo)
    ensures LociGenesOf(data, sequence).genes == GenesOf(LociAmong(data.loci, sequence.loci))
    ensures forall u :: u in LociGenesOf(data, sequence).loci <==> u in sequence.loci && exists l :: l in data.loci && l.uid == u
  {
    LociAmongOwnUids(data.loci, sequence.loci);
    var kept := LociAmong(data.loci, sequence.loci);
    forall u | u in Uids(kept) ensures u in sequence.loci && exists l :: l in data.loci && l.uid == u {
      var i :| 0 <= i < |kept| && Uids(kept)[i] == u;
      assert kept[i] in kept;
    }
    forall u | u in sequence.loci && (exists l :: l in data.loci && l.uid == u) ensures u in Uids(kept) {
      var l :| l in data.loci && l.uid == u;
      assert l in kept;
      var i :| 0 <= i < |kept| && kept[i] == l;
      assert Uids(kept)[i] == u;
    }
  }

  function SequenceUidOf(s: SequenceInfo): string
  {
    s.uid
  }

  /** The lookup, one entry per sequence uid; a later sequence with the same uid overwrites. */
  method CreateSequenceToLociGenesLookup(data: GenomeData) returns (lookup: map<string, LociGenes>)
    ensures forall u :: u in lookup <==> u in Keys(data.sequences, SequenceUidOf)
    ensures forall i :: (0 <= i < |data.sequences| &&
      (forall j :: i < j < |data.sequences| ==> data.sequences[j].uid != data.sequences[i].uid)) ==>
      (data.sequences[i].uid in lookup && lookup[data.sequences[i].uid] == LociGenesOf(data, data.sequences[i]))
  {
    lookup := map[];
    var i := 0;
    while i < |data.sequences|
      invariant 0 <= i <= |data.sequences|
      invariant lookup == Assign(data.sequences[..i], SequenceUidOf, (n: nat, s: SequenceInfo) => LociGenesOf(data, s))
    {
      var sequence := data.sequences[i];
      lookup := lookup[sequence.uid := LociGenesOf(data, sequence)];
      assert data.sequences[..i + 1][..i] == data.sequences[..i];
      i := i + 1;
    }
    assert data.sequences[..i] == data.sequences;
    AssignKeys(data.sequences, SequenceUidOf, (n: nat, s: SequenceInfo) => LociGenesOf(data, s));
    forall i | 0 <= i < |data.sequences| &&
      (forall j :: i < j < |data.sequences| ==> data.sequences[j].uid != data.sequences[i].uid)
      ensures data.sequences[i].uid in lookup && lookup[data.sequences[i].uid] == LociGenesOf(data, data.sequences[i])
    {
      AssignLastWins(data.sequences, SequenceUidOf, (n: nat, s: SequenceInfo) => LociGenesOf(data, s), i);
    }
  }

  // ---------------------------------------------------------------------------
  // createGeneToLociAndSequenceLookup
  // ---------------------------------------------------------------------------

  datatype LocusAndSequence = LocusAndSequence(locus: string, sequence: string)

  /** `loci.find(l => l.uid === uid)` */
  function FindLocus(loci: seq<Locus>, uid: string): (r: Option<Locus>)
    ensures r.Some? ==> r.value in loci && r.value.uid == uid
    ensures r.None? ==> forall l :: l in loci ==> l.uid != uid
  {
    if loci == [] then None
    else if loci[0].uid == uid then Some(loci[0])
    else FindLocus(loci[1..], uid)
  }

  /** Every gene of the list set to the locus and sequence. */
  function SetGenes(lookup: map<string, LocusAndSequence>, genes: seq<string>, entry: LocusAndSequence): (r: map<string, LocusAndSequence>)
    ensures r.Keys == lookup.Keys + set g | g in genes
    ensures forall g :: g in r ==> r[g] == (if g in genes then entry else lookup[g])
  {
    if genes == [] then lookup
    else SetGenes(lookup, genes[..|genes| - 1], entry)[genes[|genes| - 1] := entry]
  }

  /** The genes of each listed locus that is found, set to that locus and the sequence; missing loci are skipped. */
  function SetLoci(lookup: map<string, LocusAndSequence>, loci: seq<Locus>, locusUids: seq<string>, sequenceUid: string)
    : map<string, LocusAndSequence>
  {
    if locusUids == [] then lookup
    else
      var before := SetLoci(lookup, loci, locusUids[..|locusUids| - 1], sequenceUid);
      match FindLocus(loci, locusUids[|locusUids| - 1])
      case Some(locus) => SetGenes(before, locus.genes, LocusAndSequence(locus.uid, sequenceUid))
      case None => before
  }

  function SetSequences(lookup: map<string, LocusAndSequence>, loci: seq<Locus>, sequences: seq<SequenceInfo>)
    : map<string, LocusAndSequence>
  {
    if sequences == [] then lookup
    else
      var s := sequences[|sequences| - 1];
      SetLoci(SetSequences(lookup, loci, sequences[..|sequences| - 1]), loci, s.loci, s.uid)
  }

  /** Every entry names a found locus that holds the gene, and a sequence that lists that locus. */
  predicate Sound(lookup: map<string, LocusAndSequence>, data: GenomeData)
  {
    forall g :: g in lookup ==>
      FindLocus(data.loci, lookup[g].locus).Some? && g in FindLocus(data.loci, lookup[g].locus).value.genes &&
      exists s :: s in data.sequences && s.uid == lookup[g].sequence && lookup[g].locus in s.loci
  }

  /** The genes of the found loci among `locusUids`. */
  predicate Covers(lookup: map<string, LocusAndSequence>, loci: seq<Locus>, locusUids: seq<string>)
  {
    forall u, g :: u in locusUids && FindLocus(loci, u).Some? && g in FindLocus(loci, u).value.genes ==> g in lookup
  }

  lemma {:induction false} SetLociFacts(lookup: map<string, LocusAndSequence>, data: GenomeData, s: SequenceInfo, n: nat)
    requires s in data.sequences && n <= |s.loci|
    requires Sound(lookup, data)
    ensures Sound(SetLoci(lookup, data.loci, s.loci[..n], s.uid), data)
    ensures lookup.Keys <= SetLoci(lookup, data.loci, s.loci[..n], s.uid).Keys
    ensures Covers(SetLoci(lookup, data.loci, s.loci[..n], s.uid), data.loci, s.loci[..n])
    ensures forall u, g :: u in s.loci[..n] && FindLocus(data.loci, u).Some? && g in FindLocus(data.loci, u).value.genes ==>
      SetLoci(lookup, data.loci, s.loci[..n], s.uid)[g].sequence == s.uid
  {
    if n > 0 {
      SetLociFacts(lookup, data, s, n - 1);
      assert s.loci[..n][..n - 1] == s.loci[..n - 1];
      assert s.loci[..n] == s.loci[..n - 1] + [s.loci[n - 1]];
      var before := SetLoci(lookup, data.loci, s.loci[..n - 1], s.uid);
      var u := s.loci[n - 1];
      match FindLocus(data.loci, u)
      case Some(locus) =>
        assert FindLocus(data.loci, locus.uid) == Some(locus);
      case None =>
    }
  }

  lemma {:induction false} SetSequencesFacts(data: GenomeData, n: nat)
    requires n <= |data.sequences|
    ensures Sound(SetSequences(map[], data.loci, data.sequences[..n]), data)
    ensures forall i :: 0 <= i < n ==> Covers(SetSequences(map[], data.loci, data.sequences[..n]), data.loci, data.sequences[i].loci)
  {
    if n > 0 {
      SetSequencesFacts(data, n - 1);
      var s := data.sequences[n - 1];
      assert data.sequences[..n][..n - 1] == data.sequences[..n - 1];
      var before := SetSequences(map[], data.loci, data.sequences[..n - 1]);
      SetLociFacts(before, data, s, |s.loci|);
      assert s.loci[..|s.loci|] == s.loci;
    }
  }

  /** Setting genes one locus at a time, for one sequence. */
  method SetLocusGenes(lookup0: map<string, LocusAndSequence>, loci: seq<Locus>, sequence: SequenceInfo)
    returns (lookup: map<string, LocusAndSequence>)
    ensures lookup == SetLoci(lookup0, loci, sequence.loci, sequence.uid)
  {
    lookup := lookup0;
    var k := 0;
    while k < |sequence.loci|
      invariant 0 <= k <= |sequence.loci|
      invariant lookup == SetLoci(lookup0, loci, sequence.loci[..k], sequence.uid)
    {
      assert sequence.loci[..k + 1][..k] == sequence.loci[..k];
      var found := FindLocus(loci, sequence.loci[k]);
      if found.Some? {
        var locus := found.value;
        var g := 0;
        while g < |locus.genes|
          invariant 0 <= g <= |locus.genes|
          invariant lookup == SetGenes(SetLoci(lookup0, loci, sequence.loci[..k], sequence.uid), locus.genes[..g],
                                       LocusAndSequence(locus.uid, sequence.uid))
        {
          assert locus.genes[..g + 1][..g] == locus.genes[..g];
          lookup := lookup[locus.genes[g] := LocusAndSequence(locus.uid, sequence.uid)];
          g := g + 1;
        }
        assert locus.genes[..g] == locus.genes;
      }
      k := k + 1;
    }
    assert sequence.loci[..k] == sequence.loci;
  }

  /**
   * Each gene of each found locus of each sequence, mapped to that locus and
   * sequence. Every entry is sound, every gene of a found listed locus is a
   * key, and the last sequence's genes map to the last sequence.
   */
  method CreateGeneToLociAndSequenceLookup(data: GenomeData) returns (lookup: map<string, LocusAndSequence>)
    ensures lookup == SetSequences(map[], data.loci, data.sequences)
    ensures Sound(lookup, data)
    ensures forall i :: 0 <= i < |data.sequences| ==> Covers(lookup, data.loci, data.sequences[i].loci)
    ensures |data.sequences| > 0 ==>
      var s := data.sequences[|data.sequences| - 1];
      forall u, g :: u in s.loci && FindLocus(data.loci, u).Some? && g in FindLocus(data.loci, u).value.genes ==>
        g in lookup && lookup[g].sequence == s.uid
  {
    lookup := map[];
    var i := 0;
    while i < |data.sequences|
      invariant 0 <= i <= |data.sequences|
      invariant lookup == SetSequences(map[], data.loci, data.sequences[..i])
    {
      assert data.sequences[..i + 1][..i] == data.sequences[..i];
      lookup := SetLocusGenes(lookup, data.loci, data.sequences[i]);
      i := i + 1;
    }
    assert data.sequences[..i] == data.sequences;
    SetSequencesFacts(data, |data.sequences|);
    if |data.sequences| > 0 {
      var s := data.sequences[|data.sequences| - 1];
      var before := SetSequences(map[], data.loci, data.sequences[..|data.sequences| - 1]);
      SetSequencesFacts(data, |data.sequences| - 1);
      SetLociFacts(before, data, s, |s.loci|);
      assert s.loci[..|s.loci|] == s.loci;
    }
  }

  // ---------------------------------------------------------------------------
  // chromosomesLookup, groupInfosLookup, groupInfoDensity
  // ---------------------------------------------------------------------------

  function ChromosomeOf(s: SequenceMetrics): string
  {
    s.phasingChromosome
  }

  function GroupChromosomeOf(g: GroupInfo): string
  {
    g.phasingChromosome
  }

  /** The sequences of each chromosome, in input order. */
  method ChromosomesLookup(sequences: seq<SequenceMetrics>) returns (lookup: map<string, seq<SequenceMetrics>>)
    ensures forall k :: k in lookup <==> k in Keys(sequences, ChromosomeOf)
    ensures forall k :: k in lookup ==> lookup[k] == Select(sequences, ChromosomeOf, k)
  {
    lookup := GroupInto(sequences, ChromosomeOf);
    GroupByBuckets(sequences, ChromosomeOf);
  }

  /** The group infos of each chromosome, in input order. */
  method GroupInfosLookup(groupInfo: seq<GroupInfo>) returns (lookup: map<string, seq<GroupInfo>>)
    ensures forall k :: k in lookup <==> k in Keys(groupInfo, GroupChromosomeOf)
    ensures forall k :: k in lookup ==> lookup[k] == Select(groupInfo, GroupChromosomeOf, k)
  {
    lookup := GroupInto(groupInfo, GroupChromosomeOf);
    GroupByBuckets(groupInfo, GroupChromosomeOf);
  }

  /** The key `${genome_number}_${sequence_number}` */
  function DensityKey(g: GroupInfo): string
  {
    JsText.NatToString(g.genomeNumber) + "_" + JsText.NatToString(g.sequenceNumber)
  }

  /** Different genome or sequence numbers give different keys: the digits hold no `_`. */
  lemma DensityKeyInjective(g: GroupInfo, h: GroupInfo)
    requires DensityKey(g) == DensityKey(h)
    ensures g.genomeNumber == h.genomeNumber && g.sequenceNumber == h.sequenceNumber
  {
    var a, b := JsText.NatToString(g.genomeNumber), JsText.NatToString(g.sequenceNumber);
    var c, d := JsText.NatToString(h.genomeNumber), JsText.NatToString(h.sequenceNumber);
    var k := DensityKey(g);
    assert k[|a|] == '_' && DensityKey(h)[|c|] == '_';
    assert forall i :: 0 <= i < |c| ==> DensityKey(h)[i] == c[i];
    assert forall i :: 0 <= i < |a| ==> k[i] == a[i];
    assert |a| == |c|;
    assert a == k[..|a|] == c;
    assert b == k[|a| + 1..] == d;
    JsText.NatToStringInjective(g.genomeNumber, h.genomeNumber);
    JsText.NatToStringInjective(g.sequenceNumber, h.sequenceNumber);
  }

  /** The group infos of each genome and sequence number pair, in input order. */
  method GroupInfoDensity(groupInfo: seq<GroupInfo>) returns (lookup: map<string, seq<GroupInfo>>)
    ensures forall k :: k in lookup <==> k in Keys(groupInfo, DensityKey)
    ensures forall k :: k in lookup ==> lookup[k] == Select(groupInfo, DensityKey, k)
  {
    lookup := GroupInto(groupInfo, DensityKey);
    GroupByBuckets(groupInfo, DensityKey);
  }

  /** Grouping preserves the item count: the distinct keys' groups add up to all items. */
  lemma GroupCountPreserved<T>(items: seq<T>, key: T -> string)
    ensures GroupSizes(items, key, UniqueBy(Keys(items, key), Id)) == |items|
  {
    var ks := UniqueBy(Keys(items, key), Id);
    UniqueByDistinct(Keys(items, key), Id);
    UniqueByKeys(Keys(items, key), Id);
    KeysOfId(ks);
    KeysOfId(Keys(items, key));
    forall i | 0 <= i < |items| ensures key(items[i]) in ks {
      assert Keys(items, key)[i] == key(items[i]);
    }
    GroupSizesCover(items, key, ks);
  }

  // ---------------------------------------------------------------------------
  // sequencesIdLookup, sortedSequenceIdsLookup, sortedGroupInfosLookup
  // ---------------------------------------------------------------------------

  function SequenceIdOf(s: SequenceMetrics): string
  {
    s.sequenceId
  }

  function IndexOf(i: nat, s: SequenceMetrics): int
  {
    i
  }

  /** Per chromosome, each sequence id to its index in the chromosome's list (the reduce). */
  function SequencesIdLookup(chrLookup: map<string, seq<SequenceMetrics>>): (r: map<string, map<string, int>>)
    ensures r.Keys == chrLookup.Keys
  {
    map key | key in chrLookup :: Assign(chrLookup[key], SequenceIdOf, IndexOf)
  }

  /**
   * The index stored for a sequence id is a position of that id in the
   * chromosome's list, and for an id no later entry repeats it is that
   * entry's own position.
   */
  lemma SequencesIdLookupIndices(chrLookup: map<string, seq<SequenceMetrics>>, key: string, id: string)
    requires key in chrLookup
    ensures id in SequencesIdLookup(chrLookup)[key] <==> id in Keys(chrLookup[key], SequenceIdOf)
    ensures id in SequencesIdLookup(chrLookup)[key] ==>
      var i := SequencesIdLookup(chrLookup)[key][id];
      0 <= i < |chrLookup[key]| && chrLookup[key][i].sequenceId == id &&
      forall j :: i < j < |chrLookup[key]| ==> chrLookup[key][j].sequenceId != id
  {
    var items := chrLookup[key];
    AssignKeys(items, SequenceIdOf, IndexOf);
    if id in Keys(items, SequenceIdOf) {
      var last := LastIndex(items, id);
      AssignLastWins(items, SequenceIdOf, IndexOf, last);
    }
  }

  /** The index of the last item with the sequence id. */
  lemma LastIndex(items: seq<SequenceMetrics>, id: string) returns (i: nat)
    requires id in Keys(items, SequenceIdOf)
    ensures i < |items| && items[i].sequenceId == id
    ensures forall j :: i < j < |items| ==> items[j].sequenceId != id
  {
    var k :| 0 <= k < |items| && Keys(items, SequenceIdOf)[k] == id;
    i := k;
    while i + 1 < |items| && exists j :: i < j < |items| && items[j].sequenceId == id
      invariant k <= i < |items| && items[i].sequenceId == id
      decreases |items| - i
    {
      var j :| i < j < |items| && items[j].sequenceId == id;
      i := j;
    }
  }

  function Range(n: nat): (r: seq<int>)
    ensures |r| == n
    ensures forall i :: 0 <= i < n ==> r[i] == i
  {
    seq(n, i => i)
  }

  /** Per chromosome, the identity order 0..n-1 over its n sequences. */
  method SortedSequenceIdsLookup(chrLookup: map<string, seq<SequenceMetrics>>) returns (lookup: map<string, seq<int>>)
    ensures lookup.Keys == chrLookup.Keys
    ensures forall key :: key in lookup ==>
      |lookup[key]| == |chrLookup[key]| && forall i :: 0 <= i < |lookup[key]| ==> lookup[key][i] == i
  {
    lookup := map[];
    var remaining := chrLookup.Keys;
    while remaining != {}
      invariant remaining <= chrLookup.Keys
      invariant lookup.Keys == chrLookup.Keys - remaining
      invariant forall key :: key in lookup ==> lookup[key] == Range(|chrLookup[key]|)
      decreases |remaining|
    {
      var key :| key in remaining;
      lookup := lookup[key := Range(|chrLookup[key]|)];
      remaining := remaining - {key};
    }
  }

  const Unphased: string := "unphased"
  const UnphasedIndex: int := -99

  /**
   * The initial sort indices of one chromosome's group infos: -99 for every
   * item of 'unphased'; otherwise the index of the item's
   * `${genome_number}_${sequence_number}` in the chromosome's sequence lookup
   * (`undefined`, here None, when that key is absent). None overall when the
   * chromosome has no sequence lookup and an item must read it (a TypeError).
   */
  function GroupOrder(key: string, groups: seq<GroupInfo>, seqIdLookup: map<string, map<string, int>>)
    : (r: Option<seq<Option<int>>>)
    ensures r.Some? ==> |r.value| == |groups|
    ensures r.None? <==> key != Unphased && key !in seqIdLookup && groups != []
    ensures r.Some? && key == Unphased ==> forall i :: 0 <= i < |groups| ==> r.value[i] == Some(UnphasedIndex)
    ensures r.Some? && key != Unphased ==> forall i :: 0 <= i < |groups| ==>
      r.value[i] == (if DensityKey(groups[i]) in seqIdLookup[key] then Some(seqIdLookup[key][DensityKey(groups[i])]) else None)
  {
    if key == Unphased then Some(seq(|groups|, i => Some(UnphasedIndex)))
    else if groups == [] then Some([])
    else if key !in seqIdLookup then None
    else
      var sequenceLookup := seqIdLookup[key];
      Some(seq(|groups|, i requires 0 <= i < |groups| =>
        if DensityKey(groups[i]) in sequenceLookup then Some(sequenceLookup[DensityKey(groups[i])]) else None))
  }

  /** Per chromosome, the group infos' initial sort indices; None when some chromosome raises the TypeError. */
  method SortedGroupInfosLookup(grInfoLookup: map<string, seq<GroupInfo>>, seqIdLookup: map<string, map<string, int>>)
    returns (result: Option<map<string, seq<Option<int>>>>)
    ensures result.None? <==> exists key :: key in grInfoLookup && GroupOrder(key, grInfoLookup[key], seqIdLookup).None?
    ensures result.Some? ==> result.value.Keys == grInfoLookup.Keys
    ensures result.Some? ==> forall key :: key in grInfoLookup ==>
      Some(result.value[key]) == GroupOrder(key, grInfoLookup[key], seqIdLookup)
  {
    var lookup: map<string, seq<Option<int>>> := map[];
    var remaining := grInfoLookup.Keys;
    while remaining != {}
      invariant remaining <= grInfoLookup.Keys
      invariant lookup.Keys == grInfoLookup.Keys - remaining
      invariant forall key :: key in lookup ==> Some(lookup[key]) == GroupOrder(key, grInfoLookup[key], seqIdLookup)
      decreases |remaining|
    {
      var key :| key in remaining;
      var ids := GroupOrder(key, grInfoLookup[key], seqIdLookup);
      if ids.None? {
        return None;
      }
      lookup := lookup[key := ids.value];
      remaining := remaining - {key};
    }
    result := Some(lookup);
  }
}
