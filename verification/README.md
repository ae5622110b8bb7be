# A model of wspy's data-handling core

wspy measures the performance of programs. Most of its files talk to the kernel; the ones modelled here are the
self-contained algorithms that turn what was measured into results. Every module follows one source file, or one part of
it. Code that changes state step by step is modelled by classes, arrays and loops, each method proved against a
specification function; the laws are then proved about those functions, for all inputs and all runs.

| Modules | Source | Subject |
|---|---|---|
| `FeatureSpace`, `Rescaling` | `archetype.c` | feature statistics, distances with missing data, independence of units |
| `Seeding`, `LloydDescent`, `KMeans` | `archetype.c` | k-means++ seeds, descent of the cost, empty-cluster repair, the clustering loop |
| `PerfRing`, `SymbolSample`, `IbsSample` | `perf_ring.c`, `symbol_sample.c`, `ibs_sample.c` | ring buffer, its drain loop and the two sample sinks |
| `Preflight`, `Multipass` | `preflight.c`, `multipass.c` | counter budget, drop suggestions, packing counter groups into passes |
| `Phase` | `phase.c` | warmup, steady and degraded phases with hysteresis |
| `Decimals`, `Affinity` | `affinity.c` | CPU lists, printed and parsed |
| `JsonStrings`, `JsonReader`, `JsonGrammar`, `JsonErrors`, `JsonPrint` | `json_util.c`, `json_reader.c` | JSON literals, the parser, the language it accepts, its errors, printed documents |
| `ProcTable`, `Forest`, `ProcReplay` | `proctree.c` | process table, event-log replay, the tree walk |
| `ProcJson` | `proctree.c` | the JSON export of a process tree and reading it back |
| `CommGroups`, `ProcDiff`, `DiffLaws`, `DiffSymmetry`, `PrintedDiff` | `proctree.c` | merging two trees, what a diff says and conserves, diffing exported trees |
| `LineSplit`, `RunStore`, `RunSchema`, `IngestLaws` | `store.c` | resumable ingestion of run records, and what their columns hold |
| `Sums`, `Options` | | finite sums, optional values |

`dafny verify dfyconfig.toml` checks the whole project.

## How the model reads

* C `double` is `real`. Distances are kept squared: the distance of the source is the root of `Distance.squared`, and
  comparing one compares the other. The square root that the statistics take is a parameter, a function that gives the
  non-negative root of every number that has one. The coefficient of variation in `Phase` is compared squared.
* Random draws, the NMI watchdog, file contents and what the kernel writes are parameters. The cost of a mask of counter
  groups is a parameter too: `setup_counter_groups` is not part of this model.
* A callback that is handed payloads one by one is a sequence of payloads.
* The lists, tables and arrays of the source that only grow are sequences and maps; linked structures whose links
  matter (the hash table, the process tree) are objects with links that change in place.

Some properties hold only under a condition. Where it is exact it is proved as an equivalence:

* `Forest.RunAcyclicIff`: replay keeps the process tree acyclic exactly when no fork hangs a parentless process below
  itself. A pid that forks its own ancestor, or itself, makes a cycle; the code does not look for one.
* `Forest.WalkEndsIff`: printing the tree from a process ends exactly when that process is not on a cycle, whatever the
  rest of the forest looks like. `Forest.RootForksItself` is a log of two events whose tree cannot be printed;
  `Forest.CycleElsewhere` is one with a cycle that the root does not see.
* `Seeding.SeedsDistinctIff`: k-means++ seeds are distinct exactly when there are enough runs and no weighted draw is
  zero while run 0 is a seed already. A caller can rule that out beforehand by `Seeding.DistinctWithoutZeroDraws`;
  `Seeding.RepeatedSeed` is an input of three runs on which a seed is repeated.
* `DiffSymmetry.MergeSwapsIff`: diffing two trees the other way round exchanges the sides, added with removed, and the
  sign of every delta, for every two trees. `DiffSymmetry.MergeSwapsNamedIff`: the nodes keep their paths as well exactly
  when both roots go by the same comm, because the root's comm, with which every path starts, is taken from side A.
* `DiffSymmetry.SelfDiff`: in the diff of a tree with itself, a node is marked as changed exactly when the threshold is
  negative.
* `Multipass.SoftwareAloneIff`: a plan starts with a pass of software counters alone exactly when they are requested and
  no group before them is. `Multipass.PlanIsShort` is a bound: the plan is shorter than twice any plan of passes that
  fit, not counting such a leading pass. Where everything fits in one pass `Multipass.OnePassIff` says exactly how many
  there are: one, or two with a leading pass and another group.
* `IngestLaws.ResumeIff`: an ingest reads a file that is shorter than it was from the start. Any other it reads from
  behind the lines it read last time, and no line is missed, split or repeated exactly when the bytes before that point
  are unchanged. The code compares sizes only: a replaced file of the old size or more whose beginning differs is read
  from the middle, as in `IngestLaws.ReplacedFileIsSkipped`.
* `KMeans.StrictUntilStill`: the cost never rises from one iteration to the next; an iteration that repairs nothing
  lowers it strictly, unless the next one moves nothing and ends the loop.

Where the code and its comments disagree the model follows the code:

* `symbol_sample.h:74` calls `samples_seen` the sum of the address counts, while the code also counts samples too short
  to hold an address, so that `samples_seen` is the sum of the counts plus `decode_skipped`.
* `archetype.c:1524-1529` has runs that share nothing with any seed so far capped before every draw. In the code the cap
  of the first draw stays as the distance known from then on, so that only the first seed matters for it
  (`Seeding.WeightIsNearest`).
* The JSON reader takes more than JSON: `JsonGrammar` says what. Halves of surrogate pairs are encoded one by one, as
  its comment says.

## Model

| member | source | states |
|---|---|---|
| FeatureSpace.ComputeVariances | archetype.c:1195-1217 | exactly the features some run measured have statistics: the mean, sample variance (zero for one run) and number of the values over the runs that measured them |
| FeatureSpace.ComputeFeatureStats | archetype.c:1195-1224 | exactly the features some run measured have statistics: the mean of their values and the root of the sample variance, zero for a feature of one run |
| FeatureSpace.NearestNeighborDistance | archetype.c:1245-1272 | the mean squared z-score difference over the varying features both runs measured, with their number; undefined exactly when they share none |
| FeatureSpace.CentroidDistance | archetype.c:1435-1459 | the same distance function, applied to a run and a centroid's defined dimensions |
| FeatureSpace.TermIs | archetype.c:1257-1266 | the term of a feature is there exactly when both runs measured it and it varies, and is the square of their raw difference counted in standard deviations |
| FeatureSpace.DistanceIsMean | archetype.c:1268-1271 | a distance times the number of shared features is the sum of their terms |
| FeatureSpace.DistanceSymmetric | archetype.c:1245-1272 | distance and shared count do not depend on which run comes first |
| FeatureSpace.DistanceZeroIffAgree | archetype.c:1257-1271 | a distance is never negative, and zero exactly when the runs agree on every shared feature |
| FeatureSpace.DistanceToSelf | archetype.c:1257-1271 | a run has a distance to itself exactly when some feature of it varies, and then it is zero |
| Rescaling.StatsRescaled | archetype.c:1195-1224 | expressing one feature in other units moves its mean along, scales its deviation by the size of the factor, and leaves all other statistics alone |
| Rescaling.PointRescaled | archetype.c:1257-1263 | the z-scores of a run survive a change of units, but for the sign of the one feature when the factor is negative |
| Rescaling.DistanceInvariant | archetype.c:1195-1272 | every pairwise distance and shared count is unchanged when a feature x becomes a*x+b, a not zero, in every run and the statistics are recomputed |
| Seeding.KMeansPlusPlusInit | archetype.c:1530-1585 | k indices in range, each drawn by its weight given the seeds before it, or the first free one when all weights are zero |
| Seeding.WeightIsNearest | archetype.c:1547-1557 | a run not chosen weighs its squared distance to the nearest seed it shares features with; one that shares none with the first seed starts from the largest distance between that seed and any other run |
| Seeding.DrawnIff | archetype.c:1575-1581 | with weight left, a run is drawn exactly when the draw's fraction of the total falls on its stretch of the accumulated weights |
| Seeding.SeedingIsDetermined | archetype.c:1514-1517 | the first index and the draws determine every seed |
| Seeding.ChosenWeighNothing | archetype.c:1547-1557 | in every round no weight is negative and every run already chosen weighs nothing |
| Seeding.FreshDraw | archetype.c:1559-1581 | a round repeats a seed exactly when it draws zero by weight while run 0 is a seed |
| Seeding.SeedsDistinctIff | archetype.c:1530-1585 | all seeds are different exactly when there are at least as many runs as seeds and no weighted draw is zero while run 0 is a seed |
| Seeding.DistinctWithoutZeroDraws | archetype.c:1575 | with at least as many runs as seeds and no zero among the draws all seeds are different |
| Seeding.RepeatedSeed | archetype.c:1575-1581 | on three runs that measured 0, 1 and 2, with their own statistics, a second draw of zero chooses run 0 twice |
| LloydDescent.MeanIsBest | archetype.c:1502-1505 | squared deviations are least around the mean |
| LloydDescent.CentroidsBest | archetype.c:1467-1508 | no other centre for each cluster has a smaller sum of squared differences than the updated centroids, on any dimensions all runs measured |
| LloydDescent.RepairNoWorse | archetype.c:1677-1691 | moving runs to clusters of their own, as repair does, never raises the cost |
| LloydDescent.UpdateNoWorse | archetype.c:1694 | recomputing the centroids never raises the cost |
| LloydDescent.IterationDescends | archetype.c:1647-1697 | assignment, repair and update together never raise the cost when all runs measured the same features and one varies |
| LloydDescent.OnlyCentroidsBest | archetype.c:1467-1508 | centres with as small a sum of squared differences as the updated centroids agree with them, for every cluster with a member |
| LloydDescent.IterationStrict | archetype.c:1647-1697 | an iteration that repairs nothing lowers the cost strictly or leaves the centroids as they were |
| KMeans.NearestCentroid | archetype.c:1654-1660 | the running minimum over the centroids a run can be compared with |
| KMeans.BestIsFirstNearest | archetype.c:1654-1660 | that minimum is the first of the nearest centroids, and none is found exactly when the run shares no feature with any |
| KMeans.Place | archetype.c:1653-1673 | a run goes to the first nearest centroid, and failing any to the first smallest cluster so far at distance zero |
| KMeans.AssignAll | archetype.c:1653-1675 | every run is placed so, `sizes` are the true member counts, and `changed` says whether any assignment moved |
| KMeans.Pigeonhole | archetype.c:1677-1684 | with at least as many runs as clusters, an empty cluster means some run shares its cluster |
| KMeans.WorstIsFarthest | archetype.c:1679-1683 | repair finds no donor exactly when no cluster can spare a run, otherwise the first run farthest from its centroid among those that can be spared |
| KMeans.StealWorst | archetype.c:1685-1689 | one repair step moves that run to the empty cluster at distance zero, and `sizes` stay the true member counts |
| KMeans.DonorExists | archetype.c:1684 | with n >= k the branch for a missing donor is never taken |
| KMeans.RepairFillsAll | archetype.c:1677-1691 | repair leaves every cluster with a member and every run in one of the clusters, and only moves runs to clusters that were empty, one each |
| KMeans.RepairEmpty | archetype.c:1677-1692 | the in-place repair loop does exactly that repair, keeping `sizes` true; it reports `changed` whenever a run moved, and never when no cluster is empty |
| KMeans.CentroidUpdate | archetype.c:1467-1508 | the centroid is defined exactly where a member is, as the mean over the members that are, and its size is the number of members |
| KMeans.Iterate | archetype.c:1647-1696 | one turn of the loop is assignment, repair and update; nothing changed means exactly that the assignment is the one before and repair moved nothing |
| KMeans.RunKeepsClusters | archetype.c:1647-1697 | after every iteration each run is in exactly one cluster 0..k-1, no cluster is empty and centroids are the means of their members |
| KMeans.RunDescends | archetype.c:1647-1697 | over a whole run the sum of squared distances to the own centroid never rises from one iteration to the next, repairs included |
| KMeans.StrictUntilStill | archetype.c:1647-1697 | after an iteration that repairs nothing the cost is strictly lower, or the next iteration moves nothing |
| KMeans.SameAssignment | archetype.c:1653-1675 | the assignment step has one outcome for given centroids, runs parked on a smallest cluster included |
| KMeans.AlikeMeansSameDimensions | archetype.c:1482-1483 | runs that measured the same features, one of which varies, have points of the same dimensions |
| KMeans.ClusteringDescends | archetype.c:1647-1697 | on such runs, over the iterations of a clustering the cost never rises, and every iteration that repairs nothing lowers it strictly but for the last ones before the loop ends |
| KMeans.StillMeansNearest | archetype.c:1674-1696 | an iteration that moves nothing leaves the centroids, and every run is nearest to its own |
| KMeans.FinalDistances | archetype.c:1699-1705 | reported distances are those to the final centroids, for runs that share a feature with them, and zero for the others |
| KMeans.SeedCentroid | archetype.c:1632-1642 | a seed's centroid is its own standardised values |
| KMeans.KMeansCluster | archetype.c:1614-1712 | the result is that of a run from k-means++ seeds that goes on until an iteration moves nothing or max_iterations are done, and no further: no cluster empty, centroids the means, distances final, and a fixed point when it stopped by itself |
| PerfRing.SlotIsRemainder | perf_ring.c:43 | a stream position lives at the position modulo the data size |
| PerfRing.Ring.RingRead | perf_ring.c:42-52 | the bytes copied are those of an unbounded stream, wherever the buffer wraps |
| PerfRing.Ring.Decode | perf_ring.c:81-102 | one turn of the loop decodes the header and, by its type, the payload of a sample or the count of a LOST record from the bytes of the stream |
| PerfRing.Ring.ReadAll | perf_ring.c:81-105 | the loop ends, and hands on what scanning the stream from tail to head gives |
| PerfRing.Ring.Drain | perf_ring.c:77-110 | a drain scans the stream from tail to head, publishes the cursor as the new tail, sums up lost counts and counts the samples handed on |
| PerfRing.ReadEncoded | perf_ring.c:81-105 | a well-formed record read from the ring is decoded to what was written, a sample cut to 160 bytes |
| PerfRing.LostCountRead | perf_ring.c:96-101 | a LOST record adds the count that the kernel wrote behind the id, whatever both are |
| PerfRing.LittleEndianAt | perf_ring.c:88-101 | byte i of a field is its value over 256 to the i-th, modulo 256 |
| PerfRing.PutAt | perf_ring.c:42-52 | writing into free space stores the new bytes and touches no unread one |
| PerfRing.NextRecordReadable | perf_ring.c:81-105 | while records are due, the one at the consumer's cursor decodes to itself |
| PerfRing.StepKeepsInv | perf_ring.c:54-111 | publishing, starting a drain, one turn of its loop and ending it each keep the protocol's invariant |
| PerfRing.RunKeepsInv | perf_ring.c:54-111 | in every interleaving of writes and turns of the loop, payloads handed on are those of the published samples taken so far, in order and each once, and lost counts add up |
| PerfRing.DrainDeliversAll | perf_ring.c:77-107 | when a drain ends it has handed on exactly what was published when it began, and tail is head unless more was published meanwhile |
| PerfRing.ScanDeliversAll | perf_ring.c:81-105 | the drain loop run on its own hands on all that is unread and ends at head |
| PerfRing.FirstDrainDeliversAll | perf_ring.c:54-111 | the first drain of a ring hands on every record published before it, as long as no unread byte was overwritten |
| SymbolSample.State.RecordAddr | symbol_sample.c:46-69 | a sample bumps the row of its address or appends one, doubling the table in place when it is full |
| SymbolSample.State.RecordCb | symbol_sample.c:75-85 | a payload shorter than an address counts as skipped, any other as a sample at the address it holds |
| SymbolSample.State.Drain | symbol_sample.c:87-92 | the first drain tallies every payload of the ring, a second one changes nothing |
| SymbolSample.TallyCounts | symbol_sample.c:46-69 | addresses stay distinct, the sum of the counts grows by one and only the sample's own count changes |
| SymbolSample.CountsAreOccurrences | symbol_sample.c:46-85 | each count is the number of samples at its address, and counts and skips together are all samples |
| SymbolSample.HistogramOfRun | symbol_sample.c:87-92 | whatever was published, the drained histogram counts the published samples by address, and samples_seen is the sum of counts plus decode_skipped |
| IbsSample.Extract | ibs_sample.c:58-82 | the register words taken from a payload: as many as it declares, holds, and fit in sixteen |
| IbsSample.WordsOfRaw | ibs_sample.c:58-82 | of a raw record with any registers, cut anywhere, the registers that are there in full are read back, up to sixteen |
| IbsSample.BranchBits | ibs_sample.c:95-108 | bit 37 of IbsOpData says whether a branch retired, and if so bit 36 whether it was mispredicted, whatever the other bits are |
| IbsSample.DataCacheBits | ibs_sample.c:110-115 | bits 7, 2 and 3 of IbsOpData3 say which data-cache and TLB misses are counted |
| IbsSample.SourceBits | ibs_sample.c:117-131 | bits 6 and 7 of IbsOpData2 above bits 0 to 2 are the data source, in the histogram up to 12, and bit 4 the remote node |
| IbsSample.FetchBits | ibs_sample.c:140-143 | bits 51, 55 and 56 of IbsFetchCtl say which instruction-fetch misses are counted |
| IbsSample.ShortRecords | ibs_sample.c:95-117 | a record too short for a register counts for nothing that the register would say |
| IbsSample.State.DecodeOp | ibs_sample.c:91-132 | each op counter and histogram slot is the number of op records with the property it is named for |
| IbsSample.State.DecodeFetch | ibs_sample.c:134-144 | each fetch counter is the number of fetch records with its bit set |
| IbsSample.State.RecordCb | ibs_sample.c:58-82 | one payload adds one record to all the counters, or to decode_skipped |
| IbsSample.State.Drain | ibs_sample.c:84-89 | the first drain counts every payload of the ring and leaves the fields of an op state conserved, a second one changes nothing |
| IbsSample.DecodedOrNot | ibs_sample.c:58-82 | samples_seen is the decoded records plus decode_skipped |
| IbsSample.BranchOrder | ibs_sample.c:95-108 | mispredicts are at most branch retires, which are at most decoded ops |
| IbsSample.HistogramComplete | ibs_sample.c:117-131 | data-source slots and their overflow together count the records with at least four words |
| IbsSample.OpConservation | ibs_sample.c:58-132 | of any records all are decoded or skipped, mispredicts are within retires within decoded ones, and those with four words are in a slot or the overflow |
| IbsSample.State.CountsAreConserved | ibs_sample.c:91-132 | on the fields of an op state: samples_seen is op_count plus decode_skipped, mispredicts are at most retires and those at most ops, op_dram_count is slot 3, and the slots with their overflow count the records with four words |
| IbsSample.OpCountsOfRun | ibs_sample.c:84-89 | whatever was published, draining it counts the published samples, each decoded or skipped, with every source in the histogram or beyond it |
| Preflight.InsertedIsStable | preflight.c:117-128 | a record put behind all that use at least as much keeps the list a stable descending sort of what arrived |
| Preflight.Result.Insert | preflight.c:117-128 | the list walk finds that place |
| Preflight.EvaluateGroups | preflight.c:81-134 | the list is the stable descending sort of the groups that use slots, requested is their sum, and fits says whether that is within the budget |
| Preflight.SlotsAreTakers | preflight.c:92-106 | a group needs as many slots as it has counters that take one: all of a cache group, the raw devices of a raw group, none of others |
| Preflight.RequestedIsTotal | preflight.c:92-131 | slots requested are the slots of the groups listed |
| Preflight.SortKeepsTotal | preflight.c:117-130 | sorting keeps the sum |
| Preflight.LargestFirstIsBest | preflight.c:117-128 | in a descending list no k groups free more slots than the first k |
| Preflight.Result.SuggestDrops | preflight.c:191-198 | the suggested groups are a prefix of the list that frees enough, and no choice of fewer groups does |
| Multipass.PlanBuild | multipass.c:59-113 | the loop makes the next-fit packing of the requested groups, and one slot per requested bit is room enough |
| Multipass.SoftwareIsFree | multipass.c:74-86 | a mask costs what preflight counts for it, and the software bit adds nothing |
| Multipass.KnownMeans | multipass.c:14-36 | the bits packed are exactly the requested ones that some entry of the group table has |
| Multipass.KnownBits | multipass.c:14-36 | those are the requested ones among bits 0 to 16 and 18 to 20 |
| Multipass.PlanPartitions | multipass.c:59-113 | passes are non-empty, disjoint and in table order, their union is the known requested bits, and each fits the budget or has at most one hardware group |
| Multipass.PackTight | multipass.c:86-99 | when costs add up, two neighbouring passes always weigh more than the budget, but for a leading software-only pass |
| Multipass.NeighboursDoNotFit | multipass.c:86-99 | when costs add up, no two neighbouring passes of a plan fit in one, but for a leading software-only pass |
| Multipass.PlanIsShort | multipass.c:59-113 | when costs add up, the plan has fewer than twice as many passes as any plan of fitting passes, plus one if it starts with software counters alone |
| Multipass.OnePassIff | multipass.c:59-113 | when costs add up and all known requested groups fit together, the plan is one pass, or two when software counters lead and another group follows |
| Multipass.SoftwareAloneIff | multipass.c:74-86 | software counters get a leading pass of their own exactly when they are requested and no group before them is |
| Multipass.SoftwareFirstCostsAPass | multipass.c:74-86 | software and float counters take two passes even when one would fit |
| Phase.PhaseDetector.CommitTransition | phase.c:62-67 | a transition appends its boundary, enters the phase and clears the candidate |
| Phase.PhaseDetector.Push | phase.c:95-100 | the window keeps the latest samples in order |
| Phase.PhaseDetector.CheckWindow | phase.c:101-114 | warmup may end when the mean is positive and the coefficient of variation at most 0.15 |
| Phase.PhaseDetector.Update | phase.c:89-158 | one sample takes the detector's fields, boundaries included, from state to state as the step function says |
| Phase.RunKeepsInv | phase.c:89-158 | over any samples: boundaries chain, warmup is left once, the baseline is positive after it, and a candidate is never pending in its own phase |
| Phase.WarmupEndsOnce | phase.c:94-121 | warmup is never re-entered, and boundaries are only ever appended |
| Phase.WindowIsLastThree | phase.c:92-100 | nsamples counts the valid samples, and the warmup window is the last three of them |
| Phase.WarmupEndsWhenSettled | phase.c:101-118 | warmup ends exactly with the first valid sample whose last three settle, with their mean as baseline |
| Phase.SettledIff | phase.c:101-116 | three samples settle exactly when their sum is positive and the squares of their differences add up to at most 0.0225 times its square, a coefficient of variation of 0.15 |
| Phase.BaselineMoves | phase.c:123-155 | after warmup a valid steady sample above four fifths of the baseline moves it a tenth of the way to itself; otherwise it only moves when a recovery is committed, to the sample that commits it |
| Phase.BaselineBetween | phase.c:123-155 | over any samples after warmup the baseline stays between the least and the greatest of its old value and the valid samples |
| Phase.BaselineConverges | phase.c:150-155 | while valid samples keep reading the same, the distance of a steady baseline to them shrinks to nine tenths with each |
| Phase.BoundariesAreRare | phase.c:134-148 | n valid samples make no boundary for n < 3 and at most 1+(n-3)/2 otherwise |
| Phase.TransitionNeedsTwo | phase.c:123-148 | a transition after warmup rests on two successive valid samples, both at most four fifths of the baseline to degrade, or both at least nine tenths to recover, against one unchanged baseline, and a recovery takes the second as its new baseline |
| Phase.TransitionIff | phase.c:123-148 | after warmup a sample commits a transition exactly when it and the valid sample before it are both past that threshold |
| Affinity.StrtolOfDecimal | affinity.c:64 | reading a printed number gives it back and stops behind it |
| Affinity.ParseCpuListInto | affinity.c:58-84 | the loop adds exactly the ranges the list text denotes |
| Affinity.ParseStaysInRange | affinity.c:75-80 | whatever the text, parsing only adds CPUs, all below ncpus and CPU_SETSIZE |
| Affinity.ParseMeans | affinity.c:58-84 | a text of entries, each one or two numerals with a comma and blanks behind, adds the CPUs of all of them, clamped to those there are, up to the first thing that is no entry |
| Affinity.EveryTextLists | affinity.c:58-84 | every text is such a list, perhaps of no entry, with something that is none behind it |
| Affinity.IdMeans | affinity.c:324-341 | an id is accepted exactly when all the text is one numeral that is not negative, and is its value cut to an int |
| Affinity.FormatCpuSet | affinity.c:423-450 | the full list is written exactly when the buffer has room for it; otherwise a proper prefix of it, perhaps with dots |
| Affinity.RunsAreMaximal | affinity.c:429-448 | printed runs are ascending, disjoint and never adjacent |
| Affinity.RunsCoverMembers | affinity.c:429-448 | printed runs cover exactly the members below ncpus |
| Affinity.CpuListRoundTrip | affinity.c:58-84 | parsing what was printed for a CPU set adds exactly its members below ncpus |
| Affinity.ParseSpec | affinity.c:312-352 | what each form of specification is accepted as, and that every other text is rejected |
| Affinity.SpecOfPrinted | affinity.c:342-345 | a printed CPU set is accepted after cpuset= exactly when it is not empty, and means itself |
| JsonStrings.WriteString | json_util.c:7-24 | the loop writes the quoted literal with its escapes |
| JsonStrings.StringRoundTrip | json_util.c:7-24 | parsing what was written for a NUL-free string gives it back, ends behind the closing quote and leaves the line alone |
| JsonStrings.HexDigitIs | json_reader.c:47-52 | a hexadecimal digit is one of 0 to 9, a to f and A to F, and counts by its place there |
| JsonStrings.Utf8Encodes | json_reader.c:101-110 | a Unicode escape is decoded to the UTF-8 encoding of its code point |
| JsonStrings.UnitWithinScan | json_reader.c:66-125 | decoding a character or escape keeps to the steps of the length scan and writes no more bytes than it counted |
| JsonStrings.ScanAgrees | json_reader.c:58-131 | for every accepted literal the scan and the decoder stop at the same quote, and the text fits the scan's count |
| JsonStrings.ReachOfAccepted | json_reader.c:76-123 | of an accepted literal the decoder looks at nothing behind the closing quote |
| JsonStrings.ReachBehindEnd | json_reader.c:91-94 | decoding looks behind the end of the text, by at most three places, only for a Unicode escape that starts less than four places before it |
| JsonStrings.BodyLines | json_reader.c:58-131 | the line count moves by exactly the newlines inside the literal |
| JsonReader.Parser.DecodeUnit | json_reader.c:77-125 | one unit is decoded into the sized buffer without leaving it |
| JsonReader.Parser.ParseStringRaw | json_reader.c:58-131 | cursor, line, result and error of a literal, with a buffer sized by the scan |
| JsonReader.Parser.ParseArray | json_reader.c:186-214 | the loop accepts exactly comma-separated values between brackets, and otherwise reports the first error |
| JsonReader.Parser.ParseObject | json_reader.c:216-264 | the same for members between braces |
| JsonReader.Parser.ParseNumber | json_reader.c:142-162 | a number is a minus sign or none, a digit, and what strtod reads from there, decimal or hexadecimal |
| JsonReader.Parser.ParseValue | json_reader.c:266-281 | a value of any kind, with white space before it, or the first error |
| JsonReader.JsonParse | json_reader.c:283-306 | a document is one value with nothing but white space behind it; otherwise the first error and its line |
| JsonReader.ValueLines | json_reader.c:31-37 | after a value of any kind the line has moved by the newlines it took in |
| JsonReader.DocumentLines | json_reader.c:283-306 | after a document the parser is on line one plus the newlines of all it read, at the end of the text |
| JsonReader.FindMember | json_reader.c:368-375 | what is found under a key is the value of a member that has it, and nothing exactly when none has |
| JsonReader.FindsFirst | json_reader.c:368-375 | of several members with one key the first is found |
| JsonGrammar.AcceptsExactly | json_reader.c:283-306 | a text is accepted with a value exactly when it spells a document that means it: JSON with any white space, escapes and numbers, and the extensions the code lets through |
| JsonGrammar.ValueReads | json_reader.c:266-281 | every value of that language is read for what it means, wherever it stands |
| JsonGrammar.ValueDerives | json_reader.c:266-281 | whatever is read as a value is one of that language, behind white space, with that meaning |
| JsonErrors.DocumentError | json_reader.c:20-29 | the first error of a text that is not accepted is on the line of some place where what stands is what the error is about |
| JsonPrint.TextParses | json_reader.c:266-281 | a printed value is parsed to its meaning wherever it stands, up to its last character |
| JsonPrint.DocumentRoundTrip | json_reader.c:283-306 | parsing any printed document gives back what it means |
| ProcTable.Table.Find | proctree.c:251-257 | walking the bucket of a pid finds its entry exactly when the process is running |
| ProcTable.Table.LookupPid | proctree.c:251-275 | a running process is found and nothing changes; otherwise insert adds one new process and the three counters follow |
| ProcTable.UnlinkAt | proctree.c:291-298 | unlinking an entry leaves the rest of its bucket linked both ways in order |
| ProcTable.Table.RemovePid | proctree.c:278-302 | exactly the process asked for is taken out, and the table's size with it |
| Forest.TableIsRunning | proctree.c:251-342 | the table holds exactly the pids named by a root or fork since they last exited |
| Forest.OnlyGrows | proctree.c:313-342 | over a log a process never changes pid or parent, and later children come in front of earlier ones |
| Forest.ForkMeans | proctree.c:313-342 | a fork makes the child a child of the forking process, in front of its other children, unless it has a parent; pids that run keep their processes, new ones get new processes, and no other process gets a parent |
| Forest.RootAndExitMean | proctree.c:278-310 | a root event makes the process of its pid the root, an exit takes the pid out of the table, and parents stay |
| Forest.AttachAcyclicIff | proctree.c:324-341 | attaching a parentless process makes a cycle exactly when it is the new parent or an ancestor of it |
| Forest.StepAcyclicIff | proctree.c:305-342 | an event keeps an acyclic forest acyclic exactly when it is no such fork |
| Forest.RunAcyclicIff | proctree.c:305-342 | a log leaves the forest acyclic exactly when it holds no such fork |
| Forest.WalkVisitsOnce | proctree.c:1059-1069 | the walk from a process that is not on a cycle visits it and each of its descendants exactly once, and nothing else |
| Forest.WalkIsPreorder | proctree.c:1059-1069 | what is under a process is visited together and starts with the process, and what is under an elder child comes before what is under a younger one |
| Forest.WalkEndsIff | proctree.c:1059-1069 | the walk from a process ends exactly when the process is not its own ancestor |
| Forest.LoopFreeWalksEnd | proctree.c:305-342 | after a log without a fork that makes a loop the walk from every process ends |
| Forest.RootForksItself | proctree.c:313-342 | after a root event and a fork of the root by itself the walk from the root goes deeper than any depth |
| Forest.CycleElsewhere | proctree.c:313-342 | a process that forks itself next to the root does not keep the walk from the root from ending |
| ProcReplay.LinkChild | proctree.c:334-340 | a child becomes the youngest of its parent, linked both ways with the youngest before it |
| ProcReplay.AttachNode | proctree.c:334-340 | after attaching, all link fields of all nodes are again exactly what the forest says: children in reverse order of attachment, younger links the inverse of older ones |
| ProcReplay.Replay.HandleRoot | proctree.c:305-310 | the root is the process of that pid, added if it was not running |
| ProcReplay.Replay.HandleFork | proctree.c:313-342 | a fork gives its child a parent unless it has one, and adds what is not running |
| ProcReplay.Replay.HandleExit | proctree.c:592-603 | an exit takes the process out of the table and leaves the tree alone |
| ProcReplay.Replay.ReplayLog | proctree.c:251-342 | after any log nodes, links, table and root are those of the forest of that log |
| ProcReplay.Replay.FindEldest | proctree.c:1063-1064 | following older siblings from the youngest child ends at the eldest |
| ProcReplay.Replay.PrintTree | proctree.c:1059-1069 | following the links from a process that is not on a cycle visits the nodes in the order of the walk, and ends |
| ProcJson.WriteProcess | proctree.c:1144-1208 | the printer writes the document of the process: every field in order, children from the eldest on |
| ProcJson.ProcessReadsBack | proctree.c:1144-1208 | what a printed process means holds the same pid, names, numbers, lists and children in the same order |
| ProcJson.PrintedTreeRoundTrip | proctree.c:1144-1208 | parsing the printed text of any process tree gives back the same tree, and nothing is left over |
| ProcJson.PrintAndParse | json_reader.c:283-306 | the printer followed by the parser returns the tree |
| ProcJson.PidAndCommFound | proctree.c:1144-1148 | looking up pid and comm in a printed process finds them |
| ProcJson.ChildrenFound | proctree.c:1193-1205 | looking up children in a printed process finds them, eldest first |
| CommGroups.GroupsAreTable | proctree.c:1346-1377 | groups have different comms, none is empty, and each holds the children of its comm in order |
| CommGroups.BuildGroups | proctree.c:1369-1377 | the loop builds that table |
| CommGroups.PairsMatchByOccurrence | proctree.c:1415-1446 | the pairs of a comm are the i-th children of that comm on both sides, for every i that either side has |
| CommGroups.PairSides | proctree.c:1415-1446 | a pair has at least one side, and its sides are children of their side with the pair's comm |
| ProcDiff.MergeNodes | proctree.c:1388-1459 | the recursion builds the merged tree of every pair of nodes, and the flat list grows by its matched nodes, parents first |
| DiffLaws.DiffTells | proctree.c:1403-1416 | in every node of a diff what run A read for a metric plus the delta is what run B read, a node is changed exactly when both cpu times together moved by more than the threshold, and its status says which sides it has |
| DiffLaws.SideSum | proctree.c:1415-1446 | on either side the pairs hold each child exactly as often as it occurs |
| DiffLaws.SidesConserved | proctree.c:1388-1459 | every node of run A is on exactly as many a-sides of the diff as it occurs in run A, and likewise for run B |
| DiffLaws.ParentageKept | proctree.c:1388-1459 | on either side the children of a merged node have exactly the children of its own side |
| DiffLaws.ChildrenAreMerges | proctree.c:1415-1446 | each child of a merged node is the merge of one pair of children |
| DiffSymmetry.ChildrenPairedByOccurrence | proctree.c:1415-1446 | the merged children of a comm are the merges of its i-th children on both sides |
| DiffSymmetry.PathOfChild | proctree.c:1395-1398 | the k-th child of a comm has the comm behind its parent's path, and #k behind that unless k is zero |
| DiffSymmetry.PathsTellApart | proctree.c:1395-1398 | children of one comm have different paths |
| PrintedDiff.KidsOfExport | proctree.c:1346-1377 | the children that a diff finds in an exported process are its children, eldest first |
| PrintedDiff.DeltaOfExports | proctree.c:1403-1411 | merging the exports of two processes gives a matched node whose delta for each metric is what was printed under its key for one less what was printed for the other |
| DiffSymmetry.MergeSwapsIff | proctree.c:1388-1459 | exchanging the runs exchanges sides, added with removed, and the sign of every delta, and keeps what is changed, up to the order of children of different comms: for any two trees, under any paths, unless both are missing |
| DiffSymmetry.MergeSwapsNamedIff | proctree.c:1391-1401 | it keeps every path too exactly when both roots go by one comm |
| DiffSymmetry.SelfDiff | proctree.c:1388-1459 | a tree diffed with itself is all matched with zero deltas, and nothing is changed exactly when the threshold is not negative |
| DiffSymmetry.OneSidedIsUniform | proctree.c:1412-1416 | under an added node everything is added, under a removed one everything removed |
| DiffSymmetry.CollectTopmost | proctree.c:1461-1466 | added and removed nodes are collected in order and not looked below |
| DiffSymmetry.TopmostSplit | proctree.c:1461-1466 | every node of a diff is matched, or under exactly one topmost added or removed node |
| DiffSymmetry.NoDifferenceIff | proctree.c:1646-1652 | no difference reported means every node is matched and unchanged, and conversely |
| DiffSymmetry.RunDiff | proctree.c:1644-1652 | the exit status of a diff is that |
| LineSplit.SplitCompleteLines | store.c:289-310 | the complete non-blank lines from a position on, and the bytes up to the end of the last complete one |
| LineSplit.LinesAreText | store.c:289-310 | put back together the lines are the text read: none is split, lost or repeated |
| LineSplit.LinesAreNonBlank | store.c:289-310 | only blank lines are left out |
| LineSplit.EndIsBoundary | store.c:289-310 | reading stops right behind a newline, or where it started |
| LineSplit.ResumeAtEnd | store.c:289-310 | when text is appended, reading on from the saved end gives just the lines that reading it all would add |
| LineSplit.OnlyUnfinishedLeft | store.c:289-310 | without NUL bytes no complete line is left behind the saved end |
| LineSplit.FrontLines | store.c:289-310 | the lines of a text are the first lines of every text that agrees with it up to their end |
| LineSplit.ResumesIff | store.c:289-310 | reading a text on from where the lines of another one ended misses, splits and repeats no line exactly when the two agree up to there |
| RunStore.Store.ReplaceArgs | store.c:517-541 | a position of the command has a stored argument exactly when it holds a string, and then that string |
| RunStore.Store.ReplaceOptions | store.c:551-588 | an option is stored exactly when some entry gives it a value, and with the value given last |
| RunStore.MaskRoundTrip | store.c:1347-1348 | the mask that a run index prints in hexadecimal is stored as the number it was if it has at most 63 bits, and less 2 to the 64th otherwise |
| RunStore.Store.UpsertRun | store.c:1297-1452 | a record under the key of a stored run that starts at another time, or whose command starts with another word, is counted as a collision and changes nothing; any other one overwrites all but start time and command; a new one adds the only new row; exactly one counter moves |
| RunStore.StoredRunUpserted | store.c:1322-1345 | of a stored run: on another start time or first command word the tables stay as they are, otherwise its row takes over what the record says and keeps start time and command |
| RunStore.NewRunStored | store.c:1314-1316 | a run that is not stored gets a row with its start time and the first word of its command |
| RunStore.Unidentified | store.c:1310-1313 | a record without a string for host, run id or start time is malformed and changes nothing |
| RunSchema.ColumnsStore | store.c:1358-1430 | every column of a row holds what stands at its place in the record: a string, the integer part of a number, a flag, the mask as a signed 64-bit number, or the default when there is none of the type |
| RunSchema.EnvironmentStores | store.c:481-515 | the same for the environment row, which is there exactly when the record has an environment |
| RunSchema.ArgumentsStore | store.c:517-541 | argument rows are the strings of the command under their positions |
| RunSchema.OptionsStore | store.c:551-588 | option rows are the options given a value in the configuration provenance, each with the value of its last entry |
| RunSchema.StrtoulReads | store.c:1348 | text that starts with a hexadecimal numeral is read as its value, saturated at 64 bits, and modulo 2 to the 64th when negative |
| RunStore.Store.IngestLine | store.c:1554-1567 | a line that is no document is counted as malformed and changes no table |
| RunStore.Store.IngestLines | store.c:1547-1568 | what is committed at any point of the loop are whole batches of 5000 lines, and records_new counts the rows added |
| RunStore.Store.IngestFile | store.c:1532-1576 | an ingest applies the lines from the resume point on, each counted once, and saves the end of the last one with the file's size |
| RunStore.Store.IngestAndDie | store.c:1547-1571 | an ingest that dies leaves the tables after its last whole batch, or after all lines if it died behind its last commit, and the saved offset as it was |
| IngestLaws.ResumeIff | store.c:1488-1508 | a file that shrank is read from the start; any other from the saved offset, and then no line is missed, split or repeated exactly when the bytes before the offset are unchanged |
| IngestLaws.ResumePoint | store.c:1488-1508 | of a file whose bytes before the saved offset are unchanged, above all one that only grew, the next ingest deals with exactly the non-blank lines the last one left |
| IngestLaws.ReplacedFileIsSkipped | store.c:1503-1507 | two files of this kind: the second, longer one begins otherwise, and its first line is never ingested |
| IngestLaws.StoredRunsKeepIdentity | store.c:1324-1345 | start time and command of a stored run never change, whatever is ingested |
| IngestLaws.Replay | store.c:1297-1452 | applying lines again to a row of the same run ends in the same columns, arguments, options and environment as applying them where they belong |
| IngestLaws.PartlyReplayed | store.c:1547-1571 | applying any part of the lines once more to a partly ingested row leaves a row from which all the lines still lead to the right end |
| IngestLaws.BetweenCatchesUp | store.c:1547-1571 | ingesting all the lines again over an interrupted ingest ends where one uninterrupted ingest does |
| IngestLaws.RunKeepsInv | store.c:1488-1576 | any appends, ingests and deaths keep every row between the old and the new ingest |
| IngestLaws.OffsetIsBoundary | store.c:1488-1576 | the saved offset is always a line boundary, and the lines before it and behind it are all the lines of the file |
| IngestLaws.AnySchedule | store.c:1488-1576 | any appends, ingests and deaths at any point before the offset is saved, then one completed ingest, leave the tables of one ingest of the whole file; the lines completed ingests dealt with are its complete non-blank lines in order, each once |

## Left out

- KMeans.KMeansCluster: random numbers are parameters, draws in [0, 1); rounding that could let the weighted draw run
  off the end of the runs is not modelled, because arithmetic is over reals.
- FeatureSpace.ComputeFeatureStats: the root is exact; rounding is not modelled.
- FeatureSpace.NearestNeighborDistance: the distance is squared, and a run's feature values are a map with the order of
  its names, since names are unique within a run (store.c:167).
- PerfRing.Ring.Drain: unbounded counters instead of 64-bit ones; lost counts are always wanted, as both callers pass
  them; the page size fallback and a missing ring are not modelled.
- PerfRing.RunKeepsInv: assumes records as the kernel writes them, at most as much unread as the buffer holds; the drain
  loop on malformed bytes is covered by PerfRing.Ring.ReadAll alone.
- IbsSample.State.RecordCb: rates and reports made from the counters are not modelled.
- SymbolSample.State.RecordAddr: running out of memory is not modelled.
- Preflight.Result.SuggestDrops: the texts of reports and warnings are not modelled.
- Multipass.PlanBuild: warnings about a group that does not fit, and the variant that puts everything in one pass.
- Phase.PhaseDetector.Update: the computation of IPC from counters is not modelled; a sample is its IPC and time.
- Affinity.ParseCpuListInto: the CPU set is a set of numbers below CPU_SETSIZE; topology discovery and the resolution of
  the other specifications are not modelled.
- JsonReader.JsonParse: numbers are exact reals; rounding, overflow to infinity and the texts of error messages are not
  modelled, only the kind and line of an error.
- JsonReader.Parser.ParseStringRaw: every position behind the end of the text reads as NUL, as the one right behind it
  does in the source; JsonStrings.ReachBehindEnd says when the source looks further than that.
- JsonStrings.StringRoundTrip: strings without NUL, as C strings are; an escape for code point 0 decodes to an embedded
  NUL, which a C reader would take for the end of the string.
- ProcReplay.Replay.HandleExit: of a process only its pid and links are kept; times, the parsed stat line and the other
  events of a log are not modelled.
- ProcReplay.Replay.PrintTree: what is visited, in order; the printed columns are not modelled.
- ProcJson.WriteProcess: the numbers as printed, seconds as whole millionths; how ticks become seconds, and the finding
  of the eldest child by links (see ProcReplay.Replay.FindEldest), are not modelled here.
- ProcDiff.MergeNodes: paths are unbounded; the source cuts them at 1023 bytes. The summary diff and the text report are
  not modelled.
- RunStore.Store.UpsertRun: the time of ingestion is left out of a row, and numbers that an int cannot hold are not cut
  to its width; SQL errors, manifest enrichment, CSV metrics,
  extracted features and the schema-version warning are not modelled.
- IngestLaws.AnySchedule: one source file that is only appended to; several files feeding one database are covered by
  RunStore.Store.IngestFile alone, and replaced files by IngestLaws.ResumeIff. SQLite's own journal is taken to keep
  committed batches and nothing else.
- Opening events, mapping rings, tracing, reading sysfs and procfs, command lines, the classifiers of archetype.c, the
  plotting and manifest code and the scripts have no model.
