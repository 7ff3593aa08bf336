# PanVA gene-layout core in Dafny

This project models the one-dimensional gene-layout engine of the PanVA pan-genome browser and proves properties of that model. It also covers the data-reshaping helpers and the synchronous store actions around the engine.

PanVA draws the genes of many sequences (chromosomes of different genomes) side by side. A spring simulation moves each gene along its sequence until genes of the same homology group line up. The update step of the simulation is not part of this model, so nothing is proved about a whole run. What is proved about its building blocks:

- one move clamped by the order constraint keeps every neighbour on its side and keeps at least 4/7 of each gap (`SpringNode.ClampPreservesOrder`);
- the minimum-distance pass spaces a node at least the minimum distance after its first connected node, under the conditions listed under "## Left out" (`SpringNode.MinimumDistanceGap`, `SpringNode.SortedGap`);
- a touching neighbour stops a force pointing into it (`Forces.TouchingStopsForce`).

The recentring on an anchor homology group is the exception to order preservation: as written, it can swap genes (see "## Findings").

Around the simulation sit several supporting pieces:

- compression scales: piecewise-linear maps from genome coordinates to screen coordinates;
- a detector of order crossings between sequences;
- group-by and index lookups over the genome data;
- an interquartile outlier filter;
- the store actions that build the lookups and the mRNA score matrix, collect lasso genes and delete chromosomes.

Modules, one per source file plus shared helpers:

| module | models |
|---|---|
| `SpringNode` | `frontend/src/helpers/springSimulationUtils.ts`: the mutable `GraphNode` class, the order constraint and the minimum-distance pass |
| `Forces` | `frontend/src/helpers/springSimulationForceCalculations.ts`: the force formulas, the touching test and the normal-contact clamp |
| `Annealing` | `frontend/src/helpers/springSimulation.ts`: recentring on an anchor homology group, the heat schedule and the iteration loop |
| `AxisStretch` | `frontend/src/helpers/axisStretch.ts`: viewport bounds, compression and window scales, compression factor and width |
| `CrossDetection` | `frontend/src/helpers/crossDetection.ts`: run collapsing, `compareOrder` and crossing detection |
| `Chromosome`, `Outliers` | `frontend/src/helpers/chromosome.ts`: the lookups and `filterOutliers` |
| `GeneSet` | `frontend/src/stores/geneSet.ts`: the synchronous actions of the genome store and `deleteChromosome` |
| `JsNumber`, `JsText`, `JsArray` | the JavaScript semantics the sources rely on: NaN and `undefined` arithmetic, `parseInt`, `String.split`, `Array.slice` and `findIndex` |
| `Dedup`, `Dictionaries` | "keep the first per key" deduplication, group-by into a dictionary, and reduce-into-object assignment where the last write wins |
| `LinearScale` | a d3 linear scale as paired domain and range breakpoints, with evaluation and inversion |

Modelling conventions:

- Numbers are mathematical reals. The datatype `Num` adds `NaN` where the source can produce `NaN` or `undefined`.
- Strings are `seq<char>`.
- JavaScript objects used as dictionaries and `Map`s are Dafny `map`s.
- Code that mutates state is written as methods, with loops proved against specification functions:
  - `GraphNode` positions;
  - the two stores' fields;
  - the loops of `minDistanceConstraintShift`, `evaluateForces`, `compareOrder` and the lookup builders.
- Pure helpers are functions with lemmas.
- Functions the source imports but does not define are parameters of the model: `createNodeGroups` and `updateHighStressNodeGroup`.

## Model

| member | source | states |
|---|---|---|
| SpringNode.GraphNode.constructor | frontend/src/helpers/springSimulationUtils.ts:14-21 | all fields take the given values; `originalPosition` defaults to the position; connections start empty |
| SpringNode.GraphNode.SetPosition | frontend/src/helpers/springSimulationUtils.ts:34 | the position changes only to a finite non-negative value; a negative, −Infinity or NaN assignment leaves it unchanged |
| SpringNode.GraphNode.SetConnectionsX | frontend/src/helpers/springSimulationUtils.ts:32 | replaces the horizontal connections and nothing else |
| SpringNode.GraphNode.SetConnectionsY | frontend/src/helpers/springSimulationUtils.ts:33 | replaces the vertical connections and nothing else |
| SpringNode.MembersOf | frontend/src/helpers/springSimulationUtils.ts:4-13 | one (sequence id, homology group) pair per node, in order |
| SpringNode.Positions | frontend/src/helpers/springSimulationUtils.ts:4-13 | one position per node, in order |
| SpringNode.OrderBounds | frontend/src/helpers/springSimulationUtils.ts:111-119 | the lower bound is always negative and the upper bound never negative, whatever the neighbours |
| SpringNode.LowerBoundFromLeftNeighbour | frontend/src/helpers/springSimulationUtils.ts:111-119 | with a single neighbour on the left, the lower bound is 3/7 of the gap to it |
| SpringNode.UpperBoundFromRightNeighbour | frontend/src/helpers/springSimulationUtils.ts:111-119 | with a single neighbour on the right, the upper bound is 3/7 of the gap to it |
| SpringNode.ApplyOrderConstraint | frontend/src/helpers/springSimulationUtils.ts:105-130 | the move is the proposed move clamped to the bounds; it keeps its sign, never grows, is zero for zero; with no neighbours the ±100000000 bounds apply |
| SpringNode.ClampPreservesOrder | frontend/src/helpers/springSimulationUtils.ts:111-128 | after the clamped move every neighbour stays on its side, and each gap keeps at least 4/7 of its size |
| SpringNode.IdsOf | frontend/src/helpers/springSimulationUtils.ts:145 | the ids of the connections, in order |
| SpringNode.Snapshot | frontend/src/helpers/springSimulationUtils.ts:132-163 | the values the pass reads from each node, in order |
| SpringNode.ConnectedMembers | frontend/src/helpers/springSimulationUtils.ts:145 | the connected nodes are exactly the candidates whose id is among the connection ids |
| SpringNode.ConnectedNodes | frontend/src/helpers/springSimulationUtils.ts:145 | the filtering loop computes the connected-node list |
| SpringNode.NodeShift | frontend/src/helpers/springSimulationUtils.ts:145-158 | one loop step yields the shift of the specification, or no entry |
| SpringNode.MinDistanceConstraintShift | frontend/src/helpers/springSimulationUtils.ts:132-163 | the table built is the specified shift table over the nodes with positions deduplicated, and every shift in it is non-negative |
| SpringNode.ShiftTableOf | frontend/src/helpers/springSimulationUtils.ts:143-160 | the loop over the unique nodes builds the specified shift table |
| SpringNode.ToMapSnoc | frontend/src/helpers/springSimulationUtils.ts:159 | writing one more entry updates exactly that key |
| SpringNode.AddedShiftNonNegative | frontend/src/helpers/springSimulationUtils.ts:154-157 | the shift added for one node is never negative |
| SpringNode.ShiftPassStep | frontend/src/helpers/springSimulationUtils.ts:143-160 | one step of the pass either leaves the state alone or appends one entry with the accumulated shift |
| SpringNode.ShiftPassMonotone | frontend/src/helpers/springSimulationUtils.ts:133-158 | the accumulated shift is never negative and never decreases from one written entry to the next |
| SpringNode.ShiftTableNonNegative | frontend/src/helpers/springSimulationUtils.ts:133-159 | every value in the shift table is non-negative |
| SpringNode.ShiftPassKeys | frontend/src/helpers/springSimulationUtils.ts:159 | every written key is the position of a processed unique node |
| SpringNode.ShiftPassKeysDistinct | frontend/src/helpers/springSimulationUtils.ts:135-159 | no key is written twice, because the positions were deduplicated first |
| SpringNode.ShiftPassEntryAt | frontend/src/helpers/springSimulationUtils.ts:146-159 | a node has an entry exactly when its step wrote one, and the entry holds the shift accumulated at that step |
| SpringNode.TableStep | frontend/src/helpers/springSimulationUtils.ts:155-159 | a node writes the entry for its position, holding the new accumulated shift, exactly when it gets a shift |
| SpringNode.TableKeepsOtherKeys | frontend/src/helpers/springSimulationUtils.ts:155-159 | a node leaves every other position's entry as it was |
| SpringNode.EntryAtLast | frontend/src/helpers/springSimulationUtils.ts:155-159 | the entry a node writes, if any, is the accumulated shift after it |
| SpringNode.NewKeyAbsent | frontend/src/helpers/springSimulationUtils.ts:135-159 | a node's position is not yet in the table when the pass reaches it |
| SpringNode.ToMapDomainWithin | frontend/src/helpers/springSimulationUtils.ts:159 | the table has no keys other than written positions |
| SpringNode.ToMapHasKeys | frontend/src/helpers/springSimulationUtils.ts:159 | every written position is a key of the table |
| SpringNode.ShiftTableKeys | frontend/src/helpers/springSimulationUtils.ts:135-159 | a key of the shift table is the position of a unique node |
| SpringNode.ShiftTableKeyOwner | frontend/src/helpers/springSimulationUtils.ts:135-159 | returns the unique node owning a key, and that key's entry is its accumulated shift |
| SpringNode.ShiftTableWrittenOnce | frontend/src/helpers/springSimulationUtils.ts:135-159 | each key of the shift table is written at most once |
| SpringNode.NoEntryCases | frontend/src/helpers/springSimulationUtils.ts:146-152 | a node gets no entry when it has no connected node, when its connected node lies to its right, or when both have the same original position |
| SpringNode.TwoGenesTenApart | frontend/src/helpers/springSimulationUtils.ts:148-157 | two genes ten apart with minimum distance 1000 give a shift of 990 |
| SpringNode.MinimumDistancePositions | frontend/src/helpers/springSimulationUtils.ts:165-172 | one new position per node |
| SpringNode.MinimumDistanceNeverMovesLeft | frontend/src/helpers/springSimulationUtils.ts:165-172 | no node moves left, and a node without an entry keeps its position (adding `undefined` gives NaN, which the setter rejects) |
| SpringNode.ApplyMinimumDistance | frontend/src/helpers/springSimulationUtils.ts:165-172 | the new positions are the specified positions of the old snapshot; connections are unchanged |
| SpringNode.RunningShiftGrows | frontend/src/helpers/springSimulationUtils.ts:135-159 | the accumulated shift never decreases along the list |
| SpringNode.CorrectedWithEntry | frontend/src/helpers/springSimulationUtils.ts:155-171 | a node at a non-negative position that gets a shift moves to its position plus the accumulated shift after it |
| SpringNode.CorrectedAtMostRunning | frontend/src/helpers/springSimulationUtils.ts:155-171 | a node at a non-negative position moves by at most the accumulated shift before any later node |
| SpringNode.GapAfterPass | frontend/src/helpers/springSimulationUtils.ts:135-172 | a node whose first connected node is earlier in the list, at or left of it, with another original position, ends at least the minimum distance after it |
| SpringNode.MinimumDistanceGap | frontend/src/helpers/springSimulationUtils.ts:135-172 | the same spacing on the nodes of a sequence with distinct positions |
| SpringNode.ConnectedHeadIndex | frontend/src/helpers/springSimulationUtils.ts:145-147 | the first connected node is the first candidate whose id is listed |
| SpringNode.ConnectedHead | frontend/src/helpers/springSimulationUtils.ts:145-147 | conversely, the first candidate whose id is listed is the first connected node |
| SpringNode.ConnectedSameIds | frontend/src/helpers/springSimulationUtils.ts:145-147 | moving nodes does not change whether a node has connected nodes |
| SpringNode.QuietPass | frontend/src/helpers/springSimulationUtils.ts:135-159 | a pass in which no node adds a positive shift records only zero shifts |
| SpringNode.SortedGap | frontend/src/helpers/springSimulationUtils.ts:135-172 | on a sorted list, after the pass each node either lies right of its first connected node or at least the minimum distance after it |
| SpringNode.SecondPassAddsNothing | frontend/src/helpers/springSimulationUtils.ts:135-172 | on a sorted list, a second pass adds no shift at any node |
| SpringNode.MinimumDistanceIdempotent | frontend/src/helpers/springSimulationUtils.ts:135-172 | on a list sorted by non-negative position whose corrected positions stay distinct, applying the pass again moves nothing |
| SpringNode.ChainOfThreeShifts | frontend/src/helpers/springSimulationUtils.ts:143-159 | on three genes listed right to left, each connected to the next, the first two add their shortfalls and the third nothing |
| SpringNode.ChainOfThreeTable | frontend/src/helpers/springSimulationUtils.ts:132-162 | the shift table of such a list holds the first two genes' positions with the running shifts |
| SpringNode.ChainOfThreePass | frontend/src/helpers/springSimulationUtils.ts:135-172 | three genes listed right to left, each connected to the next: the first moves by its shortfall, the second by that plus its own |
| SpringNode.UnsortedChainNotIdempotent | frontend/src/helpers/springSimulationUtils.ts:135-172 | on such an unsorted list (150, 100, 0 with minimum distance 100) the genes end only 50 apart, and a second pass moves them again |
| SpringNode.ApplyShifts | frontend/src/helpers/springSimulationUtils.ts:168-171 | each node's position is shifted by its table entry when it has one, and is unchanged otherwise |
| Forces.AttractingForceBands | frontend/src/helpers/springSimulationForceCalculations.ts:87-95 | the force is the difference itself below 10; it is 0 for expected distance 0; it is ratio × sign(expected) when the ratio is at most 1 |
| Forces.AttractingForceDirection | frontend/src/helpers/springSimulationForceCalculations.ts:87-95 | for every input: within 10 of the expected distance the force has the sign of the difference; beyond it, the sign of the expected distance |
| Forces.AttractingForceY | frontend/src/helpers/springSimulationForceCalculations.ts:97-102 | below 1 in magnitude the force is its input |
| Forces.AttractingForceYDirection | frontend/src/helpers/springSimulationForceCalculations.ts:97-102 | the force never opposes its input, and is zero exactly at 0 and at ±1 |
| Forces.RepellingForce | frontend/src/helpers/springSimulationForceCalculations.ts:104-110 | zero expected distance gives no force |
| Forces.RepellingForceSign | frontend/src/helpers/springSimulationForceCalculations.ts:104-110 | for a non-zero expected distance, the force points away from the neighbour while the difference to the expected distance is smaller than that distance, towards it when larger, and is zero on the boundary, at distance 0 or with no expected distance |
| Forces.GravityForce | frontend/src/helpers/springSimulationForceCalculations.ts:112-117 | zero distance gives no gravity |
| Forces.GravityDirection | frontend/src/helpers/springSimulationForceCalculations.ts:112-117 | gravity has the sign of the distance |
| Forces.NaturalRepellingForce | frontend/src/helpers/springSimulationForceCalculations.ts:119-122 | zero distance gives no force |
| Forces.NaturalRepellingDirection | frontend/src/helpers/springSimulationForceCalculations.ts:119-122 | the natural repelling force has the sign opposite to the distance |
| Forces.YTotalDirection | frontend/src/helpers/springSimulationForceCalculations.ts:4-16 | when all vertical neighbours lie on one side, the summed force does not point away from them |
| Forces.EvaluateForcesY | frontend/src/helpers/springSimulationForceCalculations.ts:4-16 | an excluded homology group gets force 0; otherwise the force is 1000 × the per-neighbour sum |
| Forces.Contribution | frontend/src/helpers/springSimulationForceCalculations.ts:41-67 | an `undefined` neighbour contributes nothing |
| Forces.NormalClamp | frontend/src/helpers/springSimulationForceCalculations.ts:75-84 | the clamped force is either 0 or the raw force |
| Forces.TouchingFlags | frontend/src/helpers/springSimulationForceCalculations.ts:38-49 | one flag per side, set exactly when that neighbour exists and is within touching distance |
| Forces.SetFlag | frontend/src/helpers/springSimulationForceCalculations.ts:48 | sets exactly one flag and keeps the others; an index past the end pads with `false` where JavaScript leaves holes, which is equivalent because `forEach` skips holes and a `false` flag never clamps |
| Forces.EvaluateForces | frontend/src/helpers/springSimulationForceCalculations.ts:19-85 | returns the raw force and the normal-clamped force of the specification |
| Forces.HomologyGroupTotal | frontend/src/helpers/springSimulationForceCalculations.ts:29-33 | the loop computes the homology-group total |
| Forces.NeighbourForces | frontend/src/helpers/springSimulationForceCalculations.ts:41-67 | the loop computes the neighbour totals and the touching flags |
| Forces.VisitNeighbour | frontend/src/helpers/springSimulationForceCalculations.ts:42-66 | one neighbour adds its contribution and its touching flag |
| Forces.ApplyNormalClamp | frontend/src/helpers/springSimulationForceCalculations.ts:75-84 | the clamping loop computes the specified clamp |
| Forces.TouchingStopsForce | frontend/src/helpers/springSimulationForceCalculations.ts:47-83 | a touching left neighbour stops a negative force; a touching right neighbour stops a positive one |
| Forces.NoContactNoClamp | frontend/src/helpers/springSimulationForceCalculations.ts:75-84 | without any touching neighbour the raw force passes unchanged |
| Annealing.AnchorOffset | frontend/src/helpers/springSimulation.ts:34-42 | the offset is the position of the sequence's first member in the anchor group, or 0 if there is none |
| Annealing.FindAnchor | frontend/src/helpers/springSimulation.ts:34-42 | the search loop finds the specified anchor offset |
| Annealing.ShiftThroughSetter | frontend/src/helpers/springSimulation.ts:43-45 | each member of the sequence is set to `position − offset` through the setter, so a negative result leaves it unchanged; other nodes are untouched |
| Annealing.ShiftMembers | frontend/src/helpers/springSimulation.ts:43-45 | the assignment loop moves the positions as specified and changes no connections |
| Annealing.RecentreSequence | frontend/src/helpers/springSimulation.ts:30-46 | recentring one sequence applies the setter shift by its anchor offset |
| Annealing.RecentredAsWritten | frontend/src/helpers/springSimulation.ts:29-47 | one position per node after recentring every sequence as written |
| Annealing.RecentreOnHomologyGroup | frontend/src/helpers/springSimulation.ts:29-47 | recentring all sequences yields the as-written positions |
| Annealing.Recentred | frontend/src/helpers/springSimulation.ts:29-47 | one position per node after the intended recentring, without the setter's rejection |
| Annealing.RecentredKeepsOrder | frontend/src/helpers/springSimulation.ts:29-47 | the intended recentring keeps the order of the genes within a sequence |
| Annealing.RecentredPutsAnchorAtZero | frontend/src/helpers/springSimulation.ts:34-45 | the intended recentring puts the anchor gene at 0 |
| Annealing.RecentringAsWrittenSwapsOrder | frontend/src/helpers/springSimulation.ts:43-45 | genes at 10 and 20, anchored on the second, end at 10 and 0, so the as-written recentring swaps them |
| Annealing.PowBounds | frontend/src/helpers/springSimulation.ts:68 | every power of the 0.99 cooling factor lies in (0, 1] |
| Annealing.PowDecreasing | frontend/src/helpers/springSimulation.ts:68 | higher powers of the cooling factor are smaller |
| Annealing.HeatNeverRises | frontend/src/helpers/springSimulation.ts:64-70 | the heat stays between 0 and the initial heat and never increases |
| Annealing.HeatCoolsEvery21 | frontend/src/helpers/springSimulation.ts:64-70 | 21 iterations multiply the heat by 0.99; other iterations leave it unchanged |
| Annealing.HeatStep | frontend/src/helpers/springSimulation.ts:64-70 | one iteration either resets the counter and cools, or increments the counter and keeps the heat |
| Annealing.SimulateStopsAtFirst | frontend/src/helpers/springSimulation.ts:57-71 | the loop stops at the first step that reports termination, and the iteration count equals the number of step calls |
| Annealing.FlatNodesAppend | frontend/src/helpers/springSimulation.ts:87-90 | flattening distributes over concatenation of groups |
| Annealing.Anneal | frontend/src/helpers/springSimulation.ts:57-92 | the loop's groups, heat, iteration count and termination agree with the specified simulation; the per-heat counter is kept in 0..20 as a loop invariant |
| Annealing.FlattenGroups | frontend/src/helpers/springSimulation.ts:87-90 | the node list is the concatenation of the groups' node lists in group order |
| Annealing.RunSpringSimulation | frontend/src/helpers/springSimulation.ts:12-93 | the positions handed to the grouping are the old ones without an anchor and the recentred-as-written ones with one; the result is the simulation's final groups and their flattened nodes |
| AxisStretch.Get | frontend/src/helpers/axisStretch.ts:22-25 | out-of-range indexing gives `undefined` (NaN) |
| AxisStretch.WindowOf | frontend/src/helpers/axisStretch.ts:12 | the window is the given one, or else the first and last range points of the reference |
| AxisStretch.UpdateViewportRangeBounds | frontend/src/helpers/axisStretch.ts:4-28 | equal bounds return the input scale; otherwise the range is framed by the window edges, the domain by the inverse images of the bounds, and domain and range have equal length |
| AxisStretch.ViewportPointsFromReference | frontend/src/helpers/axisStretch.ts:16-25 | every inner point of the new domain and range comes from the same index of the reference scale |
| AxisStretch.SlicesAlign | frontend/src/helpers/axisStretch.ts:18-19 | the domain and range slices select the same indices |
| AxisStretch.Framed | frontend/src/helpers/axisStretch.ts:24-25 | a first point, the inner points in order, and a last point |
| AxisStretch.FilterUniquePosition | frontend/src/helpers/axisStretch.ts:31-41 | keeps the first node per original position, in input order; no position repeats and every position is still present |
| AxisStretch.Pairs | frontend/src/helpers/axisStretch.ts:53-54 | two points per gene, its low end then its high end |
| AxisStretch.CompressionScale | frontend/src/helpers/axisStretch.ts:50-55 | the domain is [originalPosition, originalPosition+width] and the range is [position, endPosition] per unique gene; both have length 2 × unique count |
| AxisStretch.FrameUnlessLast | frontend/src/helpers/axisStretch.ts:61-62 | starts with the first edge and ends with the last; the last edge is appended exactly when the last inner point differs from it |
| AxisStretch.WindowScaleOf | frontend/src/helpers/axisStretch.ts:56-64 | the window range starts and ends with the window edges, and its inner points are the compression range mapped to the window; the domain is framed by the inverse images of the compression edges |
| AxisStretch.CalculateIndividualScales | frontend/src/helpers/axisStretch.ts:44-67 | returns the compression scale of the deduplicated genes and its window scale |
| AxisStretch.IndexAtOrAfter | frontend/src/helpers/axisStretch.ts:74 | -1 exactly when no domain point is at or after the position; otherwise the first such index |
| AxisStretch.CalculateCompressionFactor | frontend/src/helpers/axisStretch.ts:69-81 | 0 when no point is found or the found point is the last; otherwise gene span ÷ compressed span between that point and the next |
| AxisStretch.CompressionFactorOfAscendingScale | frontend/src/helpers/axisStretch.ts:69-81 | on an ascending scale the factor is finite and non-negative, and positive exactly when a non-last point is found |
| AxisStretch.CalculateWidth | frontend/src/helpers/axisStretch.ts:83-97 | the width is never negative (or NaN from non-finite breakpoints) |
| AxisStretch.CalculateWidthCases | frontend/src/helpers/axisStretch.ts:85-96 | 0 when no point is found or the found point is the last |
| AxisStretch.WidthBetweenBreakpoints | frontend/src/helpers/axisStretch.ts:88-94 | between two ascending breakpoints inside the window, the width is the positive distance of their window images |
| LinearScale.Interpolate | frontend/src/helpers/axisStretch.ts:22-27 | linear interpolation hits both end values exactly |
| LinearScale.BisectRight | frontend/src/helpers/axisStretch.ts:22-27 | the first breakpoint index greater than the value |
| LinearScale.ApplyAtBreakpoint | frontend/src/helpers/axisStretch.ts:22-27 | evaluating the scale at a domain breakpoint gives the matching range breakpoint |
| LinearScale.InvertAtBreakpoint | frontend/src/helpers/axisStretch.ts:22-27 | inverting the image of a breakpoint gives the breakpoint back |
| CrossDetection.SequenceIdsDistinct | frontend/src/helpers/crossDetection.ts:4-8 | the sequence list holds each sequence id exactly once |
| CrossDetection.SequenceOrder | frontend/src/helpers/crossDetection.ts:12-17 | a sequence's homology groups are drawn from its own members |
| CrossDetection.CollapseAfterShape | frontend/src/helpers/crossDetection.ts:12-17 | collapsing is no longer than its input, keeps exactly the input's groups (bar a leading repeat of the previous group), never starts with the previous group and has no two adjacent equal groups; the order is stated by `CrossDetection.CollapseAfterAppend` |
| CrossDetection.CollapseAfterRunFree | frontend/src/helpers/crossDetection.ts:12-17 | a sequence without runs is left unchanged |
| CrossDetection.CollapseIdempotent | frontend/src/helpers/crossDetection.ts:12-17 | collapsing twice is collapsing once |
| CrossDetection.CollapseAfterAppend | frontend/src/helpers/crossDetection.ts:12-17 | appending one group adds it exactly when it differs from the last kept group |
| CrossDetection.CollapseRuns | frontend/src/helpers/crossDetection.ts:12-17 | the loop computes the collapse; the result has no runs and the same elements |
| CrossDetection.At | frontend/src/helpers/crossDetection.ts:54-57 | indexing gives `undefined` exactly outside the sequence |
| CrossDetection.FindSameOrder | frontend/src/helpers/crossDetection.ts:39-57 | the search finds a reference index with the same successor exactly when one exists |
| CrossDetection.Changes | frontend/src/helpers/crossDetection.ts:36-52 | the change list has even length |
| CrossDetection.FlaggedIsReported | frontend/src/helpers/crossDetection.ts:46-49 | each flagged index is reported as the pair of the element and its successor |
| CrossDetection.ReportedIsFlagged | frontend/src/helpers/crossDetection.ts:46-49 | every reported pair comes from a flagged index |
| CrossDetection.AbsentIsReported | frontend/src/helpers/crossDetection.ts:40-48 | an element that does not occur in the reference is always reported |
| CrossDetection.NoChangesAgainstItself | frontend/src/helpers/crossDetection.ts:39-45 | a sequence compared with itself reports nothing |
| CrossDetection.CompareOrder | frontend/src/helpers/crossDetection.ts:36-52 | the loop computes the specified change list, of even length |
| CrossDetection.ChangesOfSequences | frontend/src/helpers/crossDetection.ts:20-32 | the crossings collected over sequences have even length |
| CrossDetection.ReferenceHasNoCrossings | frontend/src/helpers/crossDetection.ts:9-31 | the reference sequence contributes no crossings |
| CrossDetection.DetectCrossings | frontend/src/helpers/crossDetection.ts:3-34 | computes the specified crossings over all sequences, of even length |
| Chromosome.GetSequenceIdByUid | frontend/src/helpers/chromosome.ts:7-13 | the id of the first sequence with that uid, or `undefined` exactly when there is none |
| Chromosome.LociAmong | frontend/src/helpers/chromosome.ts:24-27 | exactly the loci whose uid is listed |
| Chromosome.LociAmongOwnUids | frontend/src/helpers/chromosome.ts:24-33 | filtering again by the found loci's uids finds the same loci |
| Chromosome.GenesOfListedLoci | frontend/src/helpers/chromosome.ts:15-38 | a sequence's entry lists the uids of its found loci and their genes |
| Chromosome.CreateSequenceToLociGenesLookup | frontend/src/helpers/chromosome.ts:15-38 | one entry per sequence uid, the last sequence with that uid winning, holding its loci and their genes |
| Chromosome.FindLocus | frontend/src/helpers/chromosome.ts:53 | the first locus with the uid, or none exactly when no locus has it |
| Chromosome.SetGenes | frontend/src/helpers/chromosome.ts:56-63 | every gene of the locus is mapped to the entry; other keys are unchanged |
| Chromosome.SetLociFacts | frontend/src/helpers/chromosome.ts:49-66 | the lookup stays sound, keeps its keys and covers every gene of every found locus |
| Chromosome.SetSequencesFacts | frontend/src/helpers/chromosome.ts:44-68 | after each sequence the lookup is sound and covers all loci seen so far |
| Chromosome.SetLocusGenes | frontend/src/helpers/chromosome.ts:49-66 | the inner loop computes the specified lookup for one sequence |
| Chromosome.CreateGeneToLociAndSequenceLookup | frontend/src/helpers/chromosome.ts:40-70 | every gene of every found locus maps to that locus and its sequence; missing loci are skipped; later sequences overwrite earlier ones |
| Chromosome.ChromosomesLookup | frontend/src/helpers/chromosome.ts:72-84 | one bucket per chromosome present, holding that chromosome's sequences in input order |
| Chromosome.GroupInfosLookup | frontend/src/helpers/chromosome.ts:86-98 | one bucket per chromosome present, holding that chromosome's group infos in input order |
| Chromosome.DensityKeyInjective | frontend/src/helpers/chromosome.ts:106 | the `genome_number_sequence_number` key determines both numbers |
| Chromosome.GroupInfoDensity | frontend/src/helpers/chromosome.ts:100-112 | one bucket per density key, holding its group infos in input order |
| Chromosome.GroupCountPreserved | frontend/src/helpers/chromosome.ts:76-97 | the buckets together hold every item exactly once |
| Chromosome.SequencesIdLookup | frontend/src/helpers/chromosome.ts:114-135 | one index map per chromosome key |
| Chromosome.SequencesIdLookupIndices | frontend/src/helpers/chromosome.ts:121-131 | each sequence id maps to its index in its chromosome's list, a later duplicate overwriting an earlier one |
| Chromosome.Range | frontend/src/helpers/chromosome.ts:145-149 | the list 0, 1, …, n−1 |
| Chromosome.SortedSequenceIdsLookup | frontend/src/helpers/chromosome.ts:137-152 | each key maps to 0 … n−1, with n the length of its list |
| Chromosome.GroupOrder | frontend/src/helpers/chromosome.ts:163-177 | one index per group info, all −99 for `unphased`; fails exactly when the chromosome key is missing and there are groups |
| Chromosome.SortedGroupInfosLookup | frontend/src/helpers/chromosome.ts:154-181 | each key maps to a list as long as its group list, each entry being the sequence index; the whole call fails exactly when some key fails |
| Outliers.Insert | frontend/src/helpers/chromosome.ts:189 | insertion into a sorted list gives a sorted permutation with one more element |
| Outliers.SortNumbers | frontend/src/helpers/chromosome.ts:189 | the ascending sort is sorted and a permutation of its input |
| Outliers.At | frontend/src/helpers/chromosome.ts:191-200 | indexing is `undefined` exactly outside the list |
| Outliers.Mean | frontend/src/helpers/chromosome.ts:191-200 | the mean of two numbers lies between them, and is NaN exactly when either is |
| Outliers.IndicesAsWrittenMatchFormulas | frontend/src/helpers/chromosome.ts:191-200 | the quartile indices as written are the floor and ceiling formulas of n/4 and 3n/4 |
| Outliers.IndicesAsWrittenInRange | frontend/src/helpers/chromosome.ts:191-200 | as written, the upper quartile index is in range exactly when there are at least 8 values |
| Outliers.IndicesClamped | frontend/src/helpers/chromosome.ts:191-200 | the corrected quartile indices are ordered and all in range |
| Outliers.Quartiles | frontend/src/helpers/chromosome.ts:191-200 | q1 ≤ q3, both taken from the sorted values |
| Outliers.Fences | frontend/src/helpers/chromosome.ts:202-204 | the fences are q1 − 1.5·iqr and q3 + 1.5·iqr, or NaN when a quartile is NaN |
| Outliers.Between | frontend/src/helpers/chromosome.ts:206 | exactly the values within the fences, a sub-multiset of the input, empty for NaN fences |
| Outliers.BetweenSorted | frontend/src/helpers/chromosome.ts:206 | filtering a sorted list keeps it sorted |
| Outliers.AsWrittenDropsEverything | frontend/src/helpers/chromosome.ts:191-206 | as written, 4 to 7 values give an empty result |
| Outliers.FilterOutliers | frontend/src/helpers/chromosome.ts:184-207 | fewer than 4 values come back unchanged; otherwise the result is sorted and a sub-multiset of the input |
| Outliers.FilterOutliersKeeps | frontend/src/helpers/chromosome.ts:202-206 | a value is kept exactly when it lies within the fences |
| Outliers.CorrectedAgreesFromEight | frontend/src/helpers/chromosome.ts:191-206 | from 8 values on, the corrected filter agrees with the code as written |
| Outliers.CorrectedKeepsInterquartileValues | frontend/src/helpers/chromosome.ts:202-206 | every value between the quartiles is kept |
| Outliers.CorrectedIsNonEmpty | frontend/src/helpers/chromosome.ts:184-207 | a non-empty input never yields an empty result |
| GeneSet.GenomeStore.constructor | frontend/src/stores/geneSet.ts:38-76 | the store starts with the given genome data, empty lookups and no selection |
| GeneSet.GenomeStore.ToggleFilterEmpty | frontend/src/stores/geneSet.ts:99-101 | the flag is negated |
| GeneSet.WithLoci | frontend/src/stores/geneSet.ts:102-106 | exactly the sequences with non-empty loci, in order |
| GeneSet.WithLociAppend | frontend/src/stores/geneSet.ts:102-106 | filtering distributes over concatenation, so the input order is kept |
| GeneSet.GenomeStore.UpdateFilteredSequences | frontend/src/stores/geneSet.ts:102-106 | the filtered list is exactly the sequences with non-empty loci, in order |
| GeneSet.GenomeStore.InitializeSelectedSequencesLasso | frontend/src/stores/geneSet.ts:172-182 | selects the first (at most) 3 uids of sequences with loci, and adds all of them to the tracker |
| GeneSet.SharedMrnas | frontend/src/stores/geneSet.ts:185-190 | exactly the mRNAs of groups with more than one mRNA |
| GeneSet.UniqueBySnoc | frontend/src/stores/geneSet.ts:185-190 | adding to the set appends a new mRNA and ignores a repeated one |
| GeneSet.AddAll | frontend/src/stores/geneSet.ts:188 | the insertion loop keeps set order: first appearances in order |
| GeneSet.CollectSharedMrnas | frontend/src/stores/geneSet.ts:185-190 | the loops collect the distinct shared mRNAs in insertion order |
| GeneSet.IndexLookupPositions | frontend/src/stores/geneSet.ts:192-196 | each distinct uid maps to its position |
| GeneSet.MrnaIndexLookupIsBijection | frontend/src/stores/geneSet.ts:192-196 | each shared mRNA gets a distinct index in 0..n−1, and every index belongs to one mRNA |
| GeneSet.Filled | frontend/src/stores/geneSet.ts:198-203 | an n×n matrix with every entry the given value |
| GeneSet.ZeroNaN | frontend/src/stores/geneSet.ts:225-227 | the same shape, NaN entries become 0, others are unchanged |
| GeneSet.GenomeStore.GenerateMrnaScoreMatrix | frontend/src/stores/geneSet.ts:183-227 | the index lookup maps the shared mRNAs to their positions, and the matrix is n×n with all entries 0 |
| GeneSet.IndexLookupOfDistinct | frontend/src/stores/geneSet.ts:268-282 | with distinct uids, the lookup maps `uid[i]` to `i` and has no other keys |
| GeneSet.PositionOfDistinct | frontend/src/stores/geneSet.ts:268-282 | with distinct keys, each item's key maps to its own index |
| GeneSet.GenomeStore.GenerateUidLookups | frontend/src/stores/geneSet.ts:264-282 | the uid lists are the genome and sequence uids in order; each lookup maps a uid to the index of its last occurrence |
| GeneSet.SetMrnas | frontend/src/stores/geneSet.ts:286-293 | each of the group's mRNAs maps to it; other keys are unchanged |
| GeneSet.MrnaToGroupKeys | frontend/src/stores/geneSet.ts:284-294 | an mRNA is a key exactly when some group contains it |
| GeneSet.MrnaToGroupLastWins | frontend/src/stores/geneSet.ts:284-294 | an mRNA maps to the last group containing it |
| GeneSet.BuildMrnaToGroup | frontend/src/stores/geneSet.ts:284-294 | the loops compute the specified mRNA-to-group map |
| GeneSet.SetById | frontend/src/stores/geneSet.ts:303 | after the keyed write the ids are distinct and the entries with other ids are kept; a present id keeps its place and takes the new entry, and a new id is appended at the end |
| GeneSet.FindId | frontend/src/stores/geneSet.ts:303 | the position of the entry with that id, or −1 exactly when there is none |
| GeneSet.HomologyGroupsOf | frontend/src/stores/geneSet.ts:298-307 | a gene's homology groups have distinct ids |
| Dedup.UniqueByOfDistinct | frontend/src/helpers/springSimulationUtils.ts:136-140 | with distinct keys the de-duplication keeps every element in order |
| GeneSet.HomologyGroupsSound | frontend/src/stores/geneSet.ts:298-307 | every listed group is the group of one of the gene's mRNAs |
| GeneSet.HomologyGroupsComplete | frontend/src/stores/geneSet.ts:298-307 | every mRNA's group id is represented, and the last mRNA's group is listed as is |
| GeneSet.GeneHomologyLookupDistinct | frontend/src/stores/geneSet.ts:296-311 | one entry per gene uid, each without repeated ids |
| GeneSet.GenomeStore.GenerateHomologyLookup | frontend/src/stores/geneSet.ts:284-311 | the store's gene lookup is the specified one |
| GeneSet.SequenceMrnas | frontend/src/stores/geneSet.ts:314-328 | a sequence is a key exactly when one of its genes maps to it, and it lists exactly those genes' mRNAs |
| GeneSet.AsWrittenMapStaysEmpty | frontend/src/stores/geneSet.ts:314-328 | as written, the `Map`'s entries stay empty and the mRNAs land in plain properties |
| GeneSet.GenomeStore.GenerateSequenceMrnaLookup | frontend/src/stores/geneSet.ts:314-328 | the store's sequence-to-mRNA lookup is the corrected one of the findings, not the as-written empty `Map` |
| GeneSet.Extended | frontend/src/stores/geneSet.ts:331-340 | each gene keeps its uid and mRNAs, gains its homology groups or `[]` when the lookup has none, and gets a sequence uid exactly when it has a locus, that uid being the locus's sequence |
| GeneSet.GenomeStore.ExtendGenes | frontend/src/stores/geneSet.ts:331-340 | the genes are replaced by their extended versions |
| GeneSet.GenomeStore.GenerateIndicesAndLookup | frontend/src/stores/geneSet.ts:263-341 | all the uid lists, lookups and extended genes are set together; the sequence-to-mRNA lookup among them is the corrected one of the findings |
| GeneSet.LassoGenes | frontend/src/stores/geneSet.ts:342-359 | exactly the genes of the selected sequences that are in the lookup, in selection order |
| GeneSet.GenomeStore.GetGenesForSelectedLasso | frontend/src/stores/geneSet.ts:342-359 | the loop concatenates the genes of the selected sequences present in the lookup and skips absent ones |
| GeneSet.ChromosomeNumberOfName | frontend/src/stores/geneSet.ts:668 | the chromosome number parsed from `chr<n>` is n |
| GeneSet.IndexOf | frontend/src/stores/geneSet.ts:669 | the first index holding the number, or −1 when it is absent or NaN; a label such as `unphased` never matches |
| GeneSet.RemoveFirst | frontend/src/stores/geneSet.ts:671-674 | removes exactly the first occurrence, changes nothing when the value is absent or NaN, and never removes a label |
| GeneSet.GeneSetStore.constructor | frontend/src/stores/geneSet.ts:665-678 | the chromosome count equals the list length |
| GeneSet.GeneSetStore.DeleteChromosome | frontend/src/stores/geneSet.ts:665-678 | the parsed chromosome's first occurrence is removed, and the count equals the new length |
| JsText.NatToStringInjective | frontend/src/stores/geneSet.ts:668 | different numbers print differently |
| JsText.SplitSecond | frontend/src/stores/geneSet.ts:668 | `split(sep)[1]` is undefined exactly when the separator does not occur |
| JsText.SplitSecondAfterPrefix | frontend/src/stores/geneSet.ts:668 | after a leading separator, the second part is the rest (when it holds no further separator) |
| JsText.TrimStart | frontend/src/stores/geneSet.ts:668 | removes a prefix, and leaves no leading whitespace |
| JsText.DigitsFrom | frontend/src/stores/geneSet.ts:668 | consumes the longest run of digits of the base, and consumes nothing exactly when the next character is not a digit |
| JsText.ParseInt | frontend/src/stores/geneSet.ts:668 | a number is parsed only from text that holds a digit; text without digits gives NaN |
| JsText.ParseIntOfNatToString | frontend/src/stores/geneSet.ts:668 | parsing a printed number gives it back |
| JsText.DecimalValueOfNatToString | frontend/src/stores/geneSet.ts:668 | the decimal value of a printed number is the number |
| JsArray.FindIndex | frontend/src/helpers/axisStretch.ts:16-17 | the first index satisfying the predicate, or −1 exactly when none does |
| JsArray.SliceBound | frontend/src/helpers/axisStretch.ts:18-19 | a slice bound resolves in range, counting negative bounds from the end |
| JsArray.JsSlice | frontend/src/helpers/axisStretch.ts:18-19 | the slice is the contiguous run from the resolved start to the resolved end, empty when the end is not after the start |
| JsNumber.Div | frontend/src/helpers/axisStretch.ts:80 | division by zero gives NaN exactly for 0/0, and the quotient otherwise |
| JsNumber.MaxZero | frontend/src/helpers/axisStretch.ts:95 | `max(0, x)` is non-negative, keeps non-negative values and propagates NaN |
| JsNumber.Log2Sign | frontend/src/helpers/springSimulationForceCalculations.ts:87-95 | the logarithm is negative below 1 and positive above 1 |
| JsNumber.RootSign | frontend/src/helpers/springSimulationForceCalculations.ts:112-122 | the root is non-negative, and positive exactly for positive input |
| Dedup.UniqueByKeys | frontend/src/helpers/axisStretch.ts:31-41 | deduplication keeps exactly the set of keys |
| Dedup.UniqueByDistinct | frontend/src/helpers/axisStretch.ts:31-41 | no two kept items share a key |
| Dedup.UniqueByKeepsFirst | frontend/src/helpers/axisStretch.ts:31-41 | each kept item is the first item with its key |
| Dedup.UniqueByOrdered | frontend/src/helpers/axisStretch.ts:31-41 | kept items are in input order |
| Dedup.KeepFirst | frontend/src/helpers/springSimulationUtils.ts:135-140 | the filtering loop computes the deduplication |
| Dictionaries.GroupByBuckets | frontend/src/helpers/chromosome.ts:76-83 | the keys are exactly the item keys, and each bucket holds that key's items in input order |
| Dictionaries.GroupInto | frontend/src/helpers/chromosome.ts:76-83 | the reducing loop builds the specified buckets |
| Dictionaries.GroupSizesCover | frontend/src/helpers/chromosome.ts:76-83 | over distinct keys covering all items, bucket sizes add up to the item count |
| Dictionaries.AssignKeys | frontend/src/stores/geneSet.ts:268-282 | the keys assigned are exactly the item keys |
| Dictionaries.AssignLastWins | frontend/src/stores/geneSet.ts:268-282 | a key holds the value of its last occurrence |
| Dictionaries.AssignFrom | frontend/src/stores/geneSet.ts:268-282 | every value in the object comes from an item with that key |

Specification functions that only define a computation carry no contract of their own and have no row. Each appears in the rows of the members that state its properties:

- `Forces.AttractingForce` (`frontend/src/helpers/springSimulationForceCalculations.ts:87-95`): `Forces.AttractingForceBands`, `Forces.AttractingForceDirection`.
- `CrossDetection.OrderIsTheSame` (`frontend/src/helpers/crossDetection.ts:54-57`), through `CrossDetection.SameOrderExists`: `CrossDetection.FindSameOrder`, `CrossDetection.FlaggedIsReported`, `CrossDetection.ReportedIsFlagged`, `CrossDetection.NoChangesAgainstItself`.
- `CrossDetection.CollapseAfter` and `CrossDetection.Collapse` (`frontend/src/helpers/crossDetection.ts:12-17`): `CrossDetection.CollapseAfterShape`, `CrossDetection.CollapseAfterRunFree`, `CrossDetection.CollapseIdempotent`, `CrossDetection.CollapseAfterAppend`, `CrossDetection.CollapseRuns`.
- `CrossDetection.SequenceChanges` and `CrossDetection.Crossings` (`frontend/src/helpers/crossDetection.ts:3-34`): `CrossDetection.ChangesOfSequences`, `CrossDetection.ReferenceHasNoCrossings`, `CrossDetection.DetectCrossings`.
- `Outliers.FilterOutliersAsWritten` (`frontend/src/helpers/chromosome.ts:184-207`): `Outliers.AsWrittenDropsEverything`, `Outliers.CorrectedAgreesFromEight`.
- `GeneSet.SequenceMrnasAsWritten` (`frontend/src/stores/geneSet.ts:314-328`): `GeneSet.AsWrittenMapStaysEmpty`.
- `GeneSet.ChromosomeNumber` (`frontend/src/stores/geneSet.ts:668`): `GeneSet.ChromosomeNumberOfName`, `GeneSet.GeneSetStore.DeleteChromosome`.
- `SpringNode.Clamp` (`frontend/src/helpers/springSimulationUtils.ts:122-127`): `SpringNode.ApplyOrderConstraint`, `SpringNode.ClampPreservesOrder`.
- `SpringNode.ShiftTable` (`frontend/src/helpers/springSimulationUtils.ts:132-163`): `SpringNode.MinDistanceConstraintShift`, `SpringNode.ShiftTableOf`, `SpringNode.ShiftTableNonNegative`, `SpringNode.ShiftTableKeys`, `SpringNode.NoEntryCases`, `SpringNode.MinimumDistancePositions` and the spacing and idempotence lemmas.
- `Annealing.HeatAfter` (`frontend/src/helpers/springSimulation.ts:64-70`): `Annealing.HeatNeverRises`, `Annealing.HeatCoolsEvery21`, `Annealing.HeatStep`, `Annealing.Anneal`.
- `Annealing.Simulate` (`frontend/src/helpers/springSimulation.ts:57-92`): `Annealing.SimulateStopsAtFirst`, `Annealing.Anneal`, `Annealing.RunSpringSimulation`.

## Left out

- The older force revision in `frontend/src/helpers/springSimulationUtils.ts:38-103` is not modelled. It duplicates the newer force file.
- `createNodeGroups`, `updateHighStressNodeGroup`, `genesToNodes` and `GraphNodeGroup` are not part of this model. Their source is not shown, so the grouping and step functions are parameters of `Annealing.RunSpringSimulation`.
- The `@/types` records are not part of this model. Each module declares the fields its file reads.
- The per-node data of the force file (`endPosition`, left and right connections) is a value type, `Forces.ForceNode`. It is separate from `SpringNode.GraphNode`, because the two files use different node shapes.
- All `console.log` and `console.warn` output is omitted.
- The `while (true)` loop of `runSpringSimulation` has no iteration cap in the code; it ends only when the step reports termination.
  - The model bounds it with a fuel parameter, `maxIterations`.
  - A run that would need more iterations is reported as unfinished.
- `Math.log2`, `Math.sqrt` and `Math.pow(x, 1/10)` are stand-ins that are exact only at simple points. Only their sign and zero facts are used, so the force magnitudes built from them are not exact.
- Floating-point arithmetic is modelled as real arithmetic. Rounding, overflow to `Infinity` and signed zeros are not modelled.
- d3 scales are reduced to breakpoint interpolation and inversion:
  - clamping, ticks and polylinear corner cases are not modelled;
  - d3's binary search `bisectRight` is a linear scan; the two agree when the breakpoints ascend (after the reversal of a descending domain), but may differ when they are not monotone;
  - non-finite breakpoints give NaN.
- The `lookup[key] ||` fallbacks in `sortedSequenceIdsLookup` and `sortedGroupInfosLookup` are dead code, because the keys come from the map being iterated. They are omitted.
- The density key of `groupInfoDensity` is built from natural numbers. Negative genome or sequence numbers are not modelled.
- `parseInt` is modelled with leading white space, one sign, an optional `0x` prefix and the longest digit run. The white-space set covers the common characters but not every Unicode space separator. Precision loss for very long numbers is not modelled.
- The gene-set store's chromosome list holds numbers and labels (`frontend/src/stores/geneSet.ts:393`; `initialize` adds `'unphased'` at line 445). Labels are modelled as `GeneSet.Named`; `deleteChromosome` never removes one, so it always counts towards `numberOfChromosomes`. `Number` wrapper objects and NaN elements are not modelled.
- `filterOutliers` takes finite numbers. NaN elements of the input are not modelled.
- Dictionaries are Dafny maps. Keys that collide with `Object.prototype` properties are not modelled.
- Genome-store actions that are asynchronous or network-bound are not modelled: `loadGenomeData`, `initialize`, and the protein branch of `changeSorting`. Pinia reactivity is not modelled either.
- A sequence whose `loci` is `undefined` is treated like one with empty loci.
- `frontend/src/api/geneSet.ts`, `api/app.py`, `frontend/src/components/Lasso.js`, `compressibleScale.tsx`, `customSymbols.ts`, `symbols.ts` and `interfaces.tsx` are not part of this model. They are network and I/O plumbing, UI and rendering code, or plain data holders.
- `AxisStretch.CalculateWidth` states only non-negativity and the zero cases in its own contract. The in-window value is stated separately by `AxisStretch.WidthBetweenBreakpoints`.
- `SpringNode.ApplyMinimumDistance` promises the spacing and idempotence only under stated conditions. The spacing (`SpringNode.MinimumDistanceGap`) needs distinct positions and a first connected node earlier in the list at a non-negative position. Idempotence (`SpringNode.MinimumDistanceIdempotent`) needs a list sorted by non-negative position whose corrected positions stay distinct. Unsorted, both fail (`SpringNode.UnsortedChainNotIdempotent`). A position collision changes which node the de-duplication keeps; that case is not covered.
- `SpringNode.ApplyMinimumDistance`, `SpringNode.ApplyShifts`, `Annealing.ShiftMembers`, `Annealing.RecentreSequence`, `Annealing.RecentreOnHomologyGroup` and `Annealing.RunSpringSimulation` require pairwise distinct node objects in the list. The source builds one node object per gene; aliased node objects are not modelled.
- `Annealing.RunSpringSimulation` does not capture what the update step does to node positions. The grouping and the step are parameters working on values, so the contract speaks of the positions handed to the grouping, not of where the nodes end.
- `SpringNode.GraphNode.SetPosition` requires an argument other than +Infinity, which the setter would store and a real-valued position cannot hold. −Infinity is modelled, and ignored like any negative value.
- `GeneSet.GenomeStore.GenerateSequenceMrnaLookup` and `GeneSet.GenomeStore.GenerateIndicesAndLookup` store the intended sequence-to-mRNA lookup (`GeneSet.SequenceMrnas`), not the as-written `Map` whose entries stay empty; the as-written behaviour is stated by `GeneSet.AsWrittenMapStaysEmpty` (see Findings).
- `loadGenomeData` is not modelled, and neither is its call order. It calls `generateIndicesAndLookup` (`frontend/src/stores/geneSet.ts:112`) before it builds `geneToLocusSequenceLookup` (line 116). On a first load the action therefore reads the empty lookup from line 53. The sequence-to-mRNA lookup would then be empty even if written with `set`, and so would every gene's `sequence_uid`. `GeneSet.GenomeStore.GenerateIndicesAndLookup` is stated for whatever lookup the store holds when it runs.
- `Outliers.FilterOutliers` states sortedness and sub-multiset in its own contract. Which values are kept is stated by `Outliers.FilterOutliersKeeps`.

## Findings

| source | as written | input that shows it | evidently intended | confidence | as-written member | corrected member |
|---|---|---|---|---|---|---|
| frontend/src/helpers/springSimulation.ts:43-45 | Recentring assigns `position − offset` through the `GraphNode` setter, which ignores negative values, so genes left of the anchor keep their position | one sequence with genes at 10 and 20, anchored on the second: positions become 10 and 0, so the order flips | every member moves by the offset, which keeps the order and puts the anchor at 0 | not executed | Annealing.RecentringAsWrittenSwapsOrder (on Annealing.RecentredAsWritten) | Annealing.Recentred with Annealing.RecentredKeepsOrder and Annealing.RecentredPutsAnchorAtZero |
| frontend/src/helpers/chromosome.ts:191-200 | for 4 to 7 values the upper quartile reads index n, one past the end: `3n/4 + 1` (the second term of the average) when 4 divides n, and `ceil(3n/4 + 1)` otherwise. So q3 is NaN (n = 4) or `undefined` (n = 5 to 7), the iqr and both fences are NaN, and every value is filtered out | `[1, 2, 3, 4]` gives `[]` | quartile indices clamped to the list, so the interquartile values are kept | not executed | Outliers.AsWrittenDropsEverything | Outliers.FilterOutliers with Outliers.CorrectedIsNonEmpty, Outliers.CorrectedKeepsInterquartileValues and Outliers.CorrectedAgreesFromEight |
| frontend/src/stores/geneSet.ts:320-323 | `sequenceToMrnaLookup` is a `Map` written with bracket assignment, which creates plain properties, so `get` never finds an entry | gene `g1` with mRNAs `["m1"]` whose locus is on sequence `s1`: `sequenceToMrnaLookup.get("s1")` is `undefined` | entries stored with `set`, so each sequence maps to its genes' mRNAs | not executed | GeneSet.AsWrittenMapStaysEmpty | GeneSet.SequenceMrnas, used by GeneSet.GenomeStore.GenerateSequenceMrnaLookup |
