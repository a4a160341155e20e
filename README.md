# mitoSim network engine in Dafny

This project models the graph engine of mitoSim, a simulator of mitochondrial
networks. The engine lives in the C++ headers under `include/`. A network is
a graph whose nodes have degree 1 (free ends), 2 (bulk nodes) or 3
(junctions). It is stored as segments: linear chains of edges whose two ends
keep tables of the segment ends attached to them. Segments are grouped into
clusters, the connected components of the graph. Fission cuts the network at
a node; fusion joins two free ends (1+1), a free end to a bulk node (1+2),
or a free end to a disconnected cycle (1+L). The reactions list the node
pairs that may fuse and weigh the nodes that may split; a Gillespie loop
outside the engine picks among them.

One Dafny module per header:

- `Edges` (`edge.h`) and `Segments` (`segment.h`). Edges and segments are
  values in the source, stored by value in vectors, so here they are
  datatypes. Each setter is a function that returns the updated value. The
  loops of `segment.h` (the constructor, `reflect_g`, `set_gCl`, `setCl`,
  `single_neig_index`, `double_neig_indexes`) are methods proved equal to
  specification functions.
- `Structure` (`structure.h`). The network is the class `Network`, with
  the segment vector, the counts and the bookkeeping vectors as fields.
  `make_indma`, `populate_cluster_vectors`, `make_adjacency_list_edges`,
  `update_adjacency` and `update_nn` are its methods. Each states its new
  fields as functions of the segments, and lemmas give those functions
  their meaning: exact class lists, cluster sizes, edge maps, adjacency
  lists and node counts.
- `CoreTransformer` (`core_transformer.h`), `Fission` and `FissionAtNode`
  (`ability_for_fission.h`), and `Fusion` (`ability_for_fusion.h`). The
  graph surgery works on a network state `State(mt, mtnum, clnum)`: the
  segment vector, the number of live segments and the number of clusters.
  Each operation is a method that returns the new state. Its ensures says
  the result equals a specification function. Lemmas then state what that
  function does:
  - the edges each segment holds, by network index and in order;
  - the neighbour tables;
  - the cluster ids and their dense numbering;
  - conservation of the edge total.
- `FusionCandidates` (`fusion_candidates.h`): the candidate container, a
  class with the two columns as fields.
- `NtwFusion11`, `NtwFusion12` and `NtwFusion1U`
  (`reactions/ntw_fusion11.h`, `ntw_fusion12.h`, `ntw_fusion1u.h`). Each is
  a class whose `Populate` fills the container with the loops of the
  source. It is proved to produce a reference list of pairs. Lemmas count
  how often each pair occurs and how many pairs there are.
- `NtwFission` (`reactions/ntw_fission.h`): the fission propensities and
  the weighted pick of a node. The random number is a parameter. The end
  to end lemma `PropensityIsWalkWeight` states that the total propensity
  `set_prop()` computes is the total weight the node walk of
  `find_random_node` runs over.

Floating-point weights are Dafny `real`s (`FinT`). Sizes are unbounded
integers, except where the source relies on the wrap-around of its unsigned
size type. There `Segments.Dec` and the value `Huge` write it out.

## Model

| member | source | states |
|---|---|---|
| Edges.Edge.SetInd | include/edge.h:95 | set_ind writes the network index and leaves the cluster index, cluster id and both weights as they were |
| Edges.Edge.SetIndcl | include/edge.h:98 | set_indcl writes the cluster-local index and nothing else |
| Edges.Edge.SetCl | include/edge.h:101 | set_cl writes the cluster id and nothing else |
| Edges.Edge.SetFin | include/edge.h:104-107 | set_fin(i, f) writes the weight at side i; the weight at the other side and the three indices are kept |
| Edges.Edge.Reflect | include/edge.h:150-155 | turning an edge around swaps its two side weights and keeps its indices |
| Edges.NewEdge | include/edge.h:137-147 | a new edge carries the indices it is given and weight 0 at both sides |
| Edges.ReflectInvolutive | include/edge.h:150-155 | turning an edge around twice gives the same edge |
| Edges.SetFinThenReflect | include/edge.h:104-107 | a weight written at side i is found at side 1-i after the edge is turned around, and the old weight of side 1-i moves to side i |
| Segments.Dec | include/segment.h:346-352 | the size-type decrement: one less for a positive value, the largest size value for 0 |
| Segments.Segment.End2A | include/segment.h:346-352 | end 1 is at position 0; for a non-empty segment end 2 is at the last position, and every end position lies inside the segment |
| Segments.Segment.SingleNeigIndex | include/segment.h:366-374 | the result is either the not-found value or an occupied live slot, and every live slot before it is empty |
| Segments.Segment.SetEndFin | include/segment.h:431-441 | the weight of end e becomes 1 if that end has neighbours and 0 if it is free, and that weight is returned; only the edge at end e changes, and only at that side |
| Segments.Segment.SetBulkFin | include/segment.h:445-454 | corrected form: for a node inside the segment, the weight at side 1 of edge a and at side 0 of edge a+1 becomes 1, 1 is returned, and nothing else changes |
| Segments.MockSegment | include/segment.h:247-264 | the mock segment has no edges, no neighbours at either end and the given cluster id |
| Segments.FreshSegment | include/segment.h:267-279 | the built segment has segmass edges; edge a has network index ei+a, cluster index a and the cluster id; both ends are free |
| Segments.HasOneFreeEndMeaning | include/segment.h:356-362 | has_one_free_end returns e exactly when end e is free and the other end is not, and 0 exactly when both ends are free or both are attached |
| Segments.IsCycleBySingleNeig | include/segment.h:395-401 | is_cycle holds exactly when each end has one neighbour slot, both hold a real neighbour, and the two neighbours are the same segment |
| Segments.NumNodesMeaning | include/segment.h:405-427 | num_nodes counts free ends as degree-1 nodes, the joints between edges as degree-2 nodes (one more on a cycle), and ends with two neighbours as degree-3 nodes |
| Segments.FreshSegmentNodes | include/segment.h:267-279 | a fresh segment of positive length has two free ends, one interior node fewer than edges, no branch point, and is not a cycle |
| Segments.NewSegment | include/segment.h:267-279 | the constructor, appending edges one at a time, builds exactly FreshSegment |
| Segments.ReflectedEdges | include/segment.h:308-314 | position k of the reflected edges holds edge \|g\|-1-k turned around |
| Segments.ReflectedEdgesInvolutive | include/segment.h:308-314 | reflecting the edges twice gives the original edges |
| Segments.ReflectedEdgesKeepInds | include/segment.h:308-314 | edge k reappears at position \|g\|-1-k with its network index and cluster id, so no edge is lost |
| Segments.ReflectG | include/segment.h:308-314 | reflect_g replaces the edges by ReflectedEdges and changes nothing else |
| Segments.Reversed | include/segment.h:308-314 | std::reverse puts edge \|g\|-1-k at position k |
| Segments.Relabelled | include/segment.h:318-330 | every edge gets the new cluster id and cluster index initind+i, and keeps its network index and weights |
| Segments.SetGCl | include/segment.h:318-330 | set_gCl relabels the edges as Relabelled says, leaves the segment otherwise unchanged, and returns the index after its last edge |
| Segments.SetCl | include/segment.h:334-342 | setCl also moves the segment itself to the new cluster |
| Segments.FindSingleNeigIndex | include/segment.h:366-374 | the loop of single_neig_index returns the first occupied live slot, or the not-found value |
| Segments.NonzeroSlots | include/segment.h:378-391 | every listed slot lies in 1..n and is occupied |
| Segments.NonzeroSlotsComplete | include/segment.h:378-391 | the occupied slots are listed in increasing order and none is missing |
| Segments.DoubleNeigIndexes | include/segment.h:378-391 | the vector has nn[e] entries: the occupied slots of end e in increasing order, then zeros |
| Segments.BulkFinGuardAdmitsLastEdge | include/segment.h:445-454 | as written, the check admits a = size-1, for which the write to g[a+1] falls past the last edge |
| Structure.NodeNumbers | include/structure.h:361-383 | the degree-1 and degree-2 counts are sums over the live segments; the degree-3 count is the number of branched ends divided by 3 |
| Structure.ClusterSizes | include/structure.h:224-231 | cls has clnum entries, and entry c is the number of edges of the live segments of cluster c |
| Structure.ClusterMassesSum | include/structure.h:224-231 | when every cluster id is below clnum, the cluster sizes add up to the total number of edges |
| Structure.EdgeMap | include/structure.h:233-240 | the map keeps its size, and only the entries of processed edges are written |
| Structure.EdgeMapFinds | include/structure.h:233-240 | with distinct edge indices, glm maps each edge index to its segment and gla to its position in that segment |
| Structure.KindOfMeaning | include/structure.h:327-356 | each class of a segment in terms of its neighbour counts: both ends free, one end free, a cycle, both ends attached |
| Structure.LastIn | include/structure.h:327-356 | the result is the not-found value or a live segment of that kind in cluster c |
| Structure.ClusterSegmentsLists | include/structure.h:322-357 | entry c of clmt lists exactly the live segments of cluster c, in increasing order |
| Structure.ClusterLastsFind | include/structure.h:327-356 | entry c of mtc11 or mtc22 is the last segment of that kind in cluster c, or the not-found value |
| Structure.ClusterKindListsFind | include/structure.h:327-356 | entry c of mtc33 lists the segments of that kind in cluster c |
| Structure.ClusterTipListsFind | include/structure.h:327-356 | entry c of mtc13 lists the (segment, free end) pairs of the one-free-end segments of cluster c |
| Structure.PopulatedNodeNumbersAgree | include/structure.h:298-383 | when every segment is classified, the node counts populate_cluster_vectors leaves agree with those update_node_numbers computes |
| Structure.BranchSumCountsBranchedEnds | include/structure.h:322-358 | the degree-3 count populate_cluster_vectors accumulates is the number of branched ends |
| Structure.KindListExact | include/structure.h:322-357 | the class vector of a kind lists exactly the live segments of that kind, in increasing order |
| Structure.TipListExact | include/structure.h:322-357 | mt13 lists exactly the (segment, free end) pairs of the live one-free-end segments, in increasing order |
| Structure.ExactlyOneClass | include/structure.h:322-357 | every live, classifiable segment appears in exactly one of mt11, mt13, mt22 and mt33 |
| Structure.LoneSegmentsNodes | include/structure.h:182-193 | n disconnected linear segments of total length M have node counts [2n, M-n, 0] |
| Structure.AdjacencyFinds | include/structure.h:243-296 | with distinct cluster-local indices, the list of every handled edge holds exactly the edges linked to it |
| Structure.AdjacencyLists | include/structure.h:243-296 | built from empty lists, the list of every edge of the cluster holds exactly its neighbouring edges: inside the segment and across its end nodes |
| Structure.LoneSegmentPath | include/structure.h:258-287 | a free segment of two or more edges is a path: the first edge is linked to the second only, the last to the one before it only |
| Structure.ClusterSegmentsInRange | include/structure.h:322-357 | clmt names live segments only |
| Structure.CollectEndLinks | include/structure.h:258-287 | the loop over the slots of one end pushes the end edge of each neighbour recorded there, in slot order |
| Structure.CollectEdgeLinks | include/structure.h:258-294 | the links pushed for one edge are EndLinks at its free-side ends, plus its neighbours inside the segment |
| Structure.SizeClusters | include/structure.h:228-231 | the first loop of make_indma computes ClusterSizes |
| Structure.MapEdges | include/structure.h:233-240 | the second loop of make_indma writes exactly the entries EdgeMap describes |
| Structure.ClassifySegment | include/structure.h:327-356 | one pass of the loop records segment j in the vectors of its class, as the next step of the Cluster* functions |
| Structure.ClassifyAll | include/structure.h:322-357 | the loop leaves every per-cluster vector equal to its Cluster* function over segments 1..n, and reports whether every segment was classified |
| Structure.Network.constructor | include/structure.h:173-179 | an empty network: no segments, clusters or edges, and every vector empty |
| Structure.Network.AddDisconnectedSegment | include/structure.h:182-193 | appends a fresh lone segment in a new cluster, numbering its edges on from the edge total (the mock segment first when the vector is empty); no other segment changes |
| Structure.Network.MakeIndma | include/structure.h:224-241 | cls becomes ClusterSizes, and glm and gla are resized to the edge total and hold EdgeMap |
| Structure.Network.PopulateClusterVectors | include/structure.h:298-359 | every per-cluster vector and the class vectors equal their Cluster* functions, the node counts are stored, and the result says whether every segment was classified |
| Structure.Network.Store | include/structure.h:322-358 | stores the classification; the degree-3 count is the branched-end sum divided by 3 |
| Structure.Network.MakeAdjacencyListEdges | include/structure.h:243-296 | the adjacency lists of cluster c become Adjacency over all its segments |
| Structure.Network.UpdateAdjacency | include/structure.h:204-214 | the per-cluster lists grow to clnum when they are fewer, and each cluster's lists are rebuilt |
| Structure.Network.BasicUpdate | include/structure.h:196-202 | make_indma, then populate_cluster_vectors, with both contracts |
| Structure.Network.UpdateStructure | include/structure.h:216-222 | basic_update, then update_adjacency |
| Structure.Network.CountNodes | include/structure.h:366-371 | the counting loop returns entry deg of NodeNumbers: the sum of num_nodes(deg) over the live segments, divided by 3 for degree 3 |
| Structure.Network.UpdateNn | include/structure.h:361-374 | nn[deg] becomes entry deg of NodeNumbers, with the degree-3 division by 3 |
| Structure.Network.UpdateNodeNumbers | include/structure.h:376-383 | all three node counts become NodeNumbers |
| CoreTransformer.RemoveSlot | include/core_transformer.h:226-233 | the removal keeps the edges and cluster id, and the count of the end drops by one |
| CoreTransformer.RemoveSlotEntries | include/core_transformer.h:226-233 | the last live entry of the end moves into slot i |
| CoreTransformer.RemoveSlotMeaning | include/core_transformer.h:226-233 | removing live slot i removes exactly that neighbour: the other live neighbours stay, as a multiset, and the other end is untouched |
| CoreTransformer.BackRefMeaning | include/core_transformer.h:215-225 | the result is 0 exactly when no live slot records (w, we); otherwise it is the first live slot that does |
| CoreTransformer.FindBackRef | include/core_transformer.h:215-225 | the search loop of update_neigs returns the first live slot recording the reference, or 0 |
| CoreTransformer.UpdateNeigsSlot | include/core_transformer.h:213-238 | one pass of the loop of update_neigs gives the next step of NeigsUpdated |
| CoreTransformer.UpdateNeigs | include/core_transformer.h:205-239 | update_neigs gives NeigsUpdated over slots n1..n2, and only neighbour tables change |
| CoreTransformer.UpdateNeigsStepRedirects | include/core_transformer.h:234-237 | without removal, one step redirects the back reference to (oldn, oend) onto (newn, nend), and changes nothing else |
| CoreTransformer.NeigsUpdatedRedirects | include/core_transformer.h:205-239 | without removal, update_neigs changes no edge, cluster or count, and a slot can only change from (oldn, oend) to (newn, nend): an upper bound on what changes |
| CoreTransformer.UpdateNeigsStepClears | include/core_transformer.h:234-237 | without removal, a step leaves the neighbour it handles with no live back reference to (oldn, oend), when that neighbour recorded it at most once |
| CoreTransformer.NeigsUpdatedClears | include/core_transformer.h:205-239 | without removal, every neighbour update_neigs handles ends with no live back reference to (oldn, oend), when none of them records it twice and no handled slot names (oldn, oend) itself |
| CoreTransformer.UpdateNeigsStepRemoves | include/core_transformer.h:226-233 | with removal, when the neighbour records the back reference, the link goes on both sides: each end loses exactly the other, and no other segment changes |
| CoreTransformer.CopiedEndMeaning | include/core_transformer.h:193-197 | the target end takes the source end's count and live neighbours; the target's other end and every other segment are untouched |
| CoreTransformer.NeigsCopied | include/core_transformer.h:187-201 | copy_neigs changes neighbour tables only |
| CoreTransformer.CopyNeigs | include/core_transformer.h:187-201 | copy_neigs computes NeigsCopied: the copy, then the redirection of the copied neighbours' back references |
| CoreTransformer.NeigsCopiedRedirects | include/core_transformer.h:187-201 | after the copy, each slot of each segment is the copied one or a reference to (f, ef) turned into (t, et): an upper bound on what changes |
| CoreTransformer.NeigsCopiedRewires | include/core_transformer.h:199-200 | with the tables symmetric around (f, ef), each live neighbour's slot that recorded (f, ef) now records (t, et), and none of its live slots still records (f, ef) |
| CoreTransformer.NeigsCopiedCounts | include/core_transformer.h:187-201 | end et of t takes the count of end ef of f, and every other count is kept |
| CoreTransformer.RenamedMito | include/core_transformer.h:176-183 | rename_mito keeps the number of segments |
| CoreTransformer.RenameMito | include/core_transformer.h:176-183 | rename_mito computes RenamedMito: t takes f's edges, cluster id and both ends' neighbours, and f is emptied |
| CoreTransformer.RenamedMitoSlot | include/core_transformer.h:187-201 | live slot i of end e of f reaches slot i of end e of t: exactly when it names another segment, unchanged or renamed to t when it names f itself |
| CoreTransformer.RenamedMitoTarget | include/core_transformer.h:176-183 | t becomes f under the name t: f's edges, cluster id and counts, and its live entries (exact for other segments, unchanged or renamed for f itself); f is left empty |
| CoreTransformer.RenamedMitoOthers | include/core_transformer.h:176-183 | every segment other than f and t keeps its edges, cluster id and counts, and each slot is unchanged or has f renamed to t: an upper bound on what changes |
| CoreTransformer.RenamedMitoRewires | include/core_transformer.h:176-183 | with the tables symmetric around f and no link from f to itself, every neighbour of each end of f now records that end of t where it recorded f, and no live slot of it still records that end of f |
| CoreTransformer.Relabel | include/core_transformer.h:384-392 | only cluster ids of segments change |
| CoreTransformer.RelabelSegments | include/core_transformer.h:384-392 | the relabelling loop computes Relabel |
| CoreTransformer.MergeMapDense | include/core_transformer.h:376-394 | merging two different clusters maps the clnum ids onto 0..clnum-2, reaches every one of them, and identifies exactly the two merged ids |
| CoreTransformer.MtclFused | include/core_transformer.h:376-394 | update_mtcl_fuse keeps the number of segments |
| CoreTransformer.UpdateMtclFuse | include/core_transformer.h:376-394 | update_mtcl_fuse computes MtclFused |
| CoreTransformer.MtclFusedMeaning | include/core_transformer.h:376-394 | every live segment's cluster id follows the merge map of the two clusters, nothing else of any segment changes, and the cluster count drops by one |
| CoreTransformer.Renumbered | include/core_transformer.h:427-434 | a renumbered segment keeps its number of edges |
| CoreTransformer.GIndcl | include/core_transformer.h:427-434 | update_gIndcl keeps the number of segments |
| CoreTransformer.UpdateGIndcl | include/core_transformer.h:427-434 | the loop of update_gIndcl computes GIndcl |
| CoreTransformer.RenumberedIndex | include/core_transformer.h:427-434 | edge i of segment k gets cluster index (edges of cluster c in earlier segments) + i, which lies below the cluster size |
| CoreTransformer.GIndclFrame | include/core_transformer.h:427-434 | only the edges of the live segments of cluster c change, and of those only cluster ids and cluster indices |
| CoreTransformer.RenumberedDistinct | include/core_transformer.h:427-434 | different edges of cluster c get different cluster indices |
| CoreTransformer.GIndclDistinct | include/core_transformer.h:427-434 | after update_gIndcl(c) the edges of cluster c carry distinct cluster indices below the cluster size |
| CoreTransformer.GIndclKeepsOther | include/core_transformer.h:427-434 | renumbering one cluster leaves the numbering of another cluster dense |
| CoreTransformer.ClMoved | include/core_transformer.h:412-423 | update_cl keeps the number of segments |
| CoreTransformer.UpdateCl | include/core_transformer.h:412-423 | update_cl computes ClMoved |
| CoreTransformer.ClMovedMeaning | include/core_transformer.h:412-423 | the live segments of cf move to ct, every segment keeps its edges by network index and its counts, the edge total is kept, and ct is densely numbered |
| CoreTransformer.ClMovedKeepsOther | include/core_transformer.h:412-423 | a third cluster stays densely numbered |
| CoreTransformer.ClFused | include/core_transformer.h:398-408 | update_cl_fuse keeps the number of segments |
| CoreTransformer.UpdateClFuse | include/core_transformer.h:398-408 | update_cl_fuse computes ClFused |
| CoreTransformer.ClFusedMeaning | include/core_transformer.h:398-408 | every live segment's cluster id follows the merge map, edges by network index, counts and the edge total are kept, and the cluster count drops by one |
| CoreTransformer.ClFusedTables | include/core_transformer.h:398-408 | only edges and cluster ids change; neighbour counts and tables are kept |
| CoreTransformer.ClFusedNumbering | include/core_transformer.h:398-408 | the merged cluster and the one renamed into the freed id are densely numbered, and so is every untouched dense cluster |
| CoreTransformer.IndsReflected | include/core_transformer.h:278-285 | reflecting a segment reverses the order of its network indices |
| CoreTransformer.FuseTail | include/core_transformer.h:349-356 | the common ending of both fusions computes FusionTail |
| CoreTransformer.GIndclKeeps | include/core_transformer.h:295-297 | renumbering keeps every segment's edges by network index, cluster id and counts |
| CoreTransformer.SettledSegments | include/core_transformer.h:295-297 | renumbering both clusters keeps every segment's edges by network index, cluster id and counts |
| CoreTransformer.RenamedMitoMass | include/core_transformer.h:290-293 | moving the last segment into the emptied w2 keeps the edge total and leaves the last slot empty |
| CoreTransformer.SettledMass | include/core_transformer.h:295-297 | renumbering keeps the edge total |
| CoreTransformer.GIndclMass | include/core_transformer.h:427-434 | update_gIndcl keeps the edge total |
| CoreTransformer.SettledNumbering | include/core_transformer.h:295-297 | after the tail, clusters cl1 and cl2 are densely numbered, without repeated indices |
| CoreTransformer.CopiedMerging | include/core_transformer.h:342-344 | the neighbour copy into w1 followed by the cluster merge gives the configuration the glue step starts from |
| CoreTransformer.GlueJoins | include/core_transformer.h:346-347 | putting the joined edges into w1 and emptying w2 gives a joined configuration when no edge is lost |
| CoreTransformer.FusionTailFuses | include/core_transformer.h:349-356 | the tail turns a joined configuration into a fused state whose fused segment holds what w1 held |
| CoreTransformer.ParallelJoinedMeaning | include/core_transformer.h:342-347 | before the tail, w1 holds w2's edges followed by its own, with the neighbour counts of end 1 of w2 and end 2 of w1 at its ends |
| CoreTransformer.FuseParallel | include/core_transformer.h:316-372 | fuse_parallel computes FusedParallel |
| CoreTransformer.FusedParallelMeaning | include/core_transformer.h:316-372 | the fused segment holds w2's edges then w1's, with the neighbour counts of end 1 of w2 and end 2 of w1; one segment fewer, the edge total kept, the two clusters merged |
| CoreTransformer.AntiparallelCopiedCounts | include/core_transformer.h:270-273 | after the copies, the ends of w1 carry the counts of the two ends that are not joined, and only neighbour tables changed |
| CoreTransformer.CopyAntiparallel | include/core_transformer.h:270-273 | the two copy_neigs calls compute AntiparallelCopied |
| CoreTransformer.AntiparallelJoinedMeaning | include/core_transformer.h:270-288 | before the tail, w1 holds all the edges and w2 is empty, with the neighbour counts of the two unjoined ends at its ends |
| CoreTransformer.AntiparallelJoinedInds | include/core_transformer.h:278-288 | before the tail, the edges of w1 run with the joined ends meeting in the middle, one of the two segments reversed |
| CoreTransformer.FuseAntiparallel | include/core_transformer.h:243-312 | fuse_antiparallel computes FusedAntiparallel |
| CoreTransformer.FusedAntiparallelMeaning | include/core_transformer.h:243-312 | the fused segment holds both segments' edges, one reversed so the joined ends meet in the middle, with the unjoined ends' neighbour counts; one segment fewer, the edge total kept, the clusters merged |
| Fission.Dfs | include/ability_for_fission.h:162-184 | dfs computes Search |
| Fission.SearchLeads | include/ability_for_fission.h:162-184 | soundness: dfs reports (w2, e2) only when a walk from (w1, e1) that avoids w2 reaches an end recording it |
| Fission.SearchReaches | include/ability_for_fission.h:162-184 | every segment dfs marks is reachable from (w1, e1) by a walk that avoids w2 |
| Fission.SearchFindsRecorded | include/ability_for_fission.h:162-184 | a neighbour recorded at the starting end itself is always found |
| Fission.SearchMarksNeighbours | include/ability_for_fission.h:162-184 | when the search fails, every neighbour other than w2 recorded at the starting end is marked |
| Fission.ClearMarks | include/ability_for_fission.h:142-146 | the clearing loop gives Cleared: marks resized to n+2, the marks of segments 1..n cleared |
| Fission.RegroupOne | include/ability_for_fission.h:151-157 | one pass of the relabelling loop moves segment i exactly when it is marked |
| Fission.Regroup | include/ability_for_fission.h:151-157 | the relabelling loop computes Regrouped |
| Fission.UpdateClFiss | include/ability_for_fission.h:137-159 | update_cl_fiss computes ClusterCut |
| Fission.RegroupedKeeps | include/ability_for_fission.h:151-157 | the relabelling loop moves exactly the marked segments to cluster c and keeps every segment's edges by network index and its counts |
| Fission.RegroupedRenumbers | include/ability_for_fission.h:151-157 | when cluster c is empty, the relabelling loop equals update_gIndcl(c) after moving the marked segments |
| Fission.ClusterCutCycle | include/ability_for_fission.h:137-159 | when the search finds w's other end, update_cl_fiss changes nothing, and a walk from end e of w leads back to w |
| Fission.ClusterCutRegroups | include/ability_for_fission.h:137-159 | otherwise the segments moved to the new cluster clnum are exactly the marked ones, each reached from end e of w without passing through w |
| Fission.ClusterCutNumbering | include/ability_for_fission.h:137-159 | otherwise the edge total is kept, the new cluster is densely numbered, and every cluster id stays below clnum+1 |
| Fission.ClusterCutTakesNeighbours | include/ability_for_fission.h:137-159 | otherwise every neighbour recorded at end e, other than w, is in the new cluster |
| Fission.DetachedMeaning | include/ability_for_fission.h:232-239 | the new segment holds the edges of w from position a on, w keeps the first a, and the edge total is kept |
| Fission.HandedMeaning | include/ability_for_fission.h:243 | the new segment takes w's end-2 count and entries (each unchanged or (w, 2) turned into (t, 2)), other segments keep edges, counts and clusters, and the edge total is kept |
| Fission.HandedRewires | include/ability_for_fission.h:243 | with the tables symmetric around end 2 of w, each of its neighbours now records end 2 of the new segment where it recorded end 2 of w, and no longer records end 2 of w |
| Fission.LabelledMeaning | include/ability_for_fission.h:245-254 | the new segment joins w's cluster when w lay on a cycle, and the newest cluster otherwise; only its cluster id and the edges' labels change, edges by network index are kept |
| Fission.LabelledNumbering | include/ability_for_fission.h:249-254 | when w lay on no cycle, both clusters are densely renumbered |
| Fission.FreedNumbering | include/ability_for_fission.h:256 | freeing end 2 of w keeps that numbering |
| Fission.Fiss2 | include/ability_for_fission.h:213-291 | fiss2 computes Fissioned2 |
| Fission.Open | include/ability_for_fission.h:225-230 | the first step of fiss2 computes Opened |
| Fission.Detach | include/ability_for_fission.h:232-239 | the new segment and the move of the edges compute Detached |
| Fission.Divide | include/ability_for_fission.h:232-256 | the division up to the self-loop check computes Divided |
| Fission.Hand | include/ability_for_fission.h:243 | the neighbour copy to the new segment computes Handed |
| Fission.Label | include/ability_for_fission.h:245-254 | the cluster of the new segment and the renumbering compute Labelled |
| Fission.Rejoin | include/ability_for_fission.h:258-272 | the self-loop check and the fusion compute Rejoined |
| Fission.LinkRemovalKeepsFarEnds | include/ability_for_fission.h:258-272 | removing the self-link of a looped segment leaves the two far ends free |
| Fission.OpenedMeaning | include/ability_for_fission.h:225-230 | the first step is update_cl_fiss(w, 2) when end 2 of w has neighbours, with its facts |
| Fission.Fissioned2KeepsMass | include/ability_for_fission.h:213-291 | fiss2 keeps the edge total, whatever the outcome |
| Fission.Fissioned2Divides | include/ability_for_fission.h:213-291 | without a self-loop, w keeps its first a edges and its end-1 neighbours, and the new segment takes the rest and w's end-2 neighbours |
| Fission.Fissioned2Clusters | include/ability_for_fission.h:213-291 | on a cycle both pieces stay in w's cluster; otherwise the new segment and everything beyond end 2 form the new cluster, densely numbered |
| Fission.Fissioned2Rejoins | include/ability_for_fission.h:258-272 | on a self-loop fused back, w is one linear segment holding its edges from position a on, followed by those before a |
| Fission.Fissioned2LoneSegment | include/ability_for_fission.h:213-291 | fiss2 on the single lone segment of length L gives two lone segments in clusters 0 and 1 with node counts [4, L-2, 0] |
| FissionAtNode.NeigSlots | include/segment.h:378-391 | the occupied slots of end e, padded with zeros to nn[e] entries |
| FissionAtNode.PairLinked | include/ability_for_fission.h:318-327 | in a linked network the two neighbours of a junction end are the ones in slots 1 and 2, each an end of a live segment |
| FissionAtNode.CutMeaning | include/ability_for_fission.h:329-334 | the cut is update_cl_fiss(w, e), then, when w lay on no cycle, the renumbering of w's cluster |
| FissionAtNode.Unlinked | include/ability_for_fission.h:336 | the unlinking changes neighbour tables only |
| FissionAtNode.RecordedFound | include/core_transformer.h:215-225 | an entry held among the live slots is found by the back-reference search |
| FissionAtNode.UnlinkedJunction | include/ability_for_fission.h:336 | at a junction, unlinking w frees its end e and leaves the other two ends recording each other only |
| FissionAtNode.Spliced | include/ability_for_fission.h:350-356 | the fusion of the mending keeps the number of segments minus one |
| FissionAtNode.FusedSplices | include/ability_for_fission.h:350-356 | a fusion that leaves the fused segment holding the expected edges and counts is a splice of the two ends |
| FissionAtNode.CutAt | include/ability_for_fission.h:329-334 | the cut computes Cut |
| FissionAtNode.Mended | include/ability_for_fission.h:338-380 | the mending exits, with one of the three messages, exactly when one of the two ends left at the junction has no neighbour; otherwise it leaves the network as it was, or fuses the pair into one segment fewer with the edge total kept, and then only when both ends had one neighbour and recorded each other |
| FissionAtNode.Fusion | include/ability_for_fission.h:350-356 | fusing two ends with one neighbour each that record each other never fails: one segment fewer, the edge total kept |
| FissionAtNode.SoleLinkFreed | include/ability_for_fission.h:338-350 | two ends with one neighbour each that record each other are both freed by update_neigs(n0, e0, 1, 1), so the fusion always finds them free |
| FissionAtNode.MendPair | include/ability_for_fission.h:338-380 | the mending computes Mended |
| FissionAtNode.FuseEnds | include/ability_for_fission.h:350-356 | the fusion branch computes Fusion, with no check that the ends are free, as in the source |
| FissionAtNode.Splice | include/ability_for_fission.h:352-356 | the fusion by kind computes Spliced |
| FissionAtNode.Heal | include/ability_for_fission.h:338-380 | the guard and the mending compute Healed |
| FissionAtNode.ReadClusters | include/ability_for_fission.h:448-464 | reads the clusters of the segments holding edges ind1 and ind2 through the rebuilt edge map |
| FissionAtNode.Fiss3 | include/ability_for_fission.h:297-465 | fiss3 computes Fissioned3 |
| FissionAtNode.Fissioned3KeepsMass | include/ability_for_fission.h:297-465 | fiss3 keeps the edge total and leaves as many segments as before, or one fewer when it fused the other two |
| FissionAtNode.Fissioned3Exits | include/ability_for_fission.h:359-379 | fiss3 exits only when end e of w had two neighbours on different segments |
| FissionAtNode.Fissioned3Clusters | include/ability_for_fission.h:297-465 | when no fusion happened: either no cluster id changed and w lay on a cycle, or one new cluster was added, both clusters are densely numbered, and the piece beyond end e is reported in the new cluster |
| FissionAtNode.EndEdgeCluster | include/ability_for_fission.h:448-464 | with distinct edge indices, the rebuilt map sends the end edge of every live segment to that segment |
| FissionAtNode.MutualRemoval | include/ability_for_fission.h:350 | two ends that record each other only are freed by update_neigs(n0, e0, 1, 1) |
| FissionAtNode.Fissioned3Junction | include/ability_for_fission.h:297-465 | at a junction whose three ends record each other, fiss3 frees end e of w and splices the other two ends into one segment |
| FissionAtNode.JunctionDone | include/ability_for_fission.h:338-380 | fiss3 ends with the mending's network when the mending does not halt |
| FissionAtNode.JunctionHealed | include/ability_for_fission.h:338-380 | after the unlinking, the mending takes the fusion branch |
| FissionAtNode.Fiss | include/ability_for_fission.h:188-206 | fiss computes Fissioned |
| FissionAtNode.FissionedRefuses | include/ability_for_fission.h:188-206 | fiss refuses with the unpropriate message exactly when the position lies past the end of w |
| FissionAtNode.Fissioned2Messages | include/ability_for_fission.h:213-291 | fiss2 never reports the unpropriate message |
| FissionAtNode.FissionedKeepsMass | include/ability_for_fission.h:188-206 | fiss keeps the edge total whenever it completes, and completes only at a position within w |
| Fusion.Wired | include/ability_for_fusion.h:252-265 | end e gets exactly the two given neighbours; edges, cluster and the other end are kept |
| Fusion.ClustersFused | include/core_transformer.h:398-408 | update_cl_fuse on the network keeps the number of segments |
| Fusion.ClustersFusedMeaning | include/core_transformer.h:398-408 | update_cl_fuse keeps edges by network index, tables and the edge total, and moves cluster ids by the merge map |
| Fusion.MergeMapJoins | include/core_transformer.h:398-408 | the merge map sends both merged clusters to the same id |
| Fusion.LoopedMeaning | include/ability_for_fusion.h:280-305 | fuse_to_loop closes the segment onto itself, reports its cluster twice, and keeps the edge total |
| Fusion.LoopedNodes | include/ability_for_fusion.h:280-305 | closing a lone segment of length L turns its two degree-1 nodes into one more degree-2 node: L instead of L-1 |
| Fusion.FuseToLoop | include/ability_for_fusion.h:280-305 | fuse_to_loop computes Looped |
| Fusion.Fused11Meaning | include/ability_for_fusion.h:129-142 | fuse11 of one segment closes it into a loop; of two segments it splices their ends; the edge total is kept and the two cluster ids are reported |
| Fusion.Fused11Splices | include/ability_for_fusion.h:129-142 | fuse11 of two segments is the same splice the mending of fiss3 performs |
| Fusion.Fuse11 | include/ability_for_fusion.h:129-142 | fuse11 computes Fused11 |
| Fusion.CycleWired | include/ability_for_fusion.h:252-265 | end e1 of w1 records both ends of w2, each end of w2 records its other end and end e1 of w1, and nothing else changes |
| Fusion.FusedToCycle | include/ability_for_fusion.h:233-277 | fuse1L keeps the number of segments |
| Fusion.FusedToCycleMeaning | include/ability_for_fusion.h:233-277 | the cycle node becomes a degree-3 node with end e1 of w1, the two clusters merge, and edges and the edge total are kept |
| Fusion.FusedToCycleWires | include/ability_for_fusion.h:252-265 | the neighbour lists fuse1L writes, with the other end of w1 untouched |
| Fusion.FusedToCycleClusters | include/ability_for_fusion.h:267-268 | the two clusters merge and every other segment follows the merge map; edges and the edge total are kept |
| Fusion.Fuse1L | include/ability_for_fusion.h:233-277 | fuse1L computes FusedToCycle |
| Fusion.Wired12 | include/ability_for_fusion.h:201-213 | the writes of fuse12 change neighbour tables only |
| Fusion.WiredApart | include/ability_for_fusion.h:201-213 | for two different segments, the three ends at the new node each record the other two |
| Fusion.Merged12 | include/ability_for_fusion.h:215-218 | the merges keep the number of segments |
| Fusion.Merged12Joins | include/ability_for_fusion.h:215-218 | after the merges w1, w2 and mi are in one cluster; no edge, table or edge total changes |
| Fusion.AttachedMeaning | include/ability_for_fusion.h:201-229 | for two different segments the three ends meet at one node in one cluster, with the segment count, edges and edge total kept |
| Fusion.Fused12Junction | include/ability_for_fusion.h:145-230 | fuse12 of a free end and an inner node of another segment gives a degree-3 node joining the three ends, and keeps the edge total |
| Fusion.AttachedJoins | include/ability_for_fusion.h:201-229 | the joining, from any division of w2 that keeps the edge total |
| Fusion.Wire12 | include/ability_for_fusion.h:201-213 | the writes of fuse12 in the source's order compute Wired12 |
| Fusion.Merge12 | include/ability_for_fusion.h:215-218 | the merges compute Merged12 |
| Fusion.Attach | include/ability_for_fusion.h:201-229 | the part of fuse12 after fiss2 computes Attached |
| Fusion.Fuse12 | include/ability_for_fusion.h:145-230 | fuse12 computes Fused12 |
| Fusion.AttachAfter | include/ability_for_fusion.h:169-229 | the continuation after fiss2 computes AttachedAfter |
| FusionCandidates.Candidates.constructor | include/fusion_candidates.h:42-77 | a new container is empty |
| FusionCandidates.Candidates.Clear | include/fusion_candidates.h:52-56 | clear empties both columns |
| FusionCandidates.Candidates.Add | include/fusion_candidates.h:63-68 | add appends the pair to both columns together, so the candidate list grows by that pair |
| FusionCandidates.Candidates.Size | include/fusion_candidates.h:74 | size is the length of either column |
| FusionCandidates.Fan | include/reactions/ntw_fusion11.h:100-130 | row k is x with ys[k] |
| FusionCandidates.Toward | include/reactions/ntw_fusion1u.h:102-115 | row k is xs[k] with y |
| FusionCandidates.BothEnds | include/reactions/ntw_fusion1u.h:102-115 | two ends per segment |
| FusionCandidates.BothEndsAt | include/reactions/ntw_fusion1u.h:102-115 | position k is end k%2+1 of segment ws[k/2] |
| FusionCandidates.FreeEnds | include/reactions/ntw_fusion1u.h:102-115 | both ends of each lone segment, then the free ends of mt13 |
| FusionCandidates.LoneEndsAt | include/reactions/ntw_fusion1u.h:102-115 | the ends of the i-th lone segment sit at positions 2i and 2i+1 |
| FusionCandidates.FanCount | include/reactions/ntw_fusion11.h:100-130 | a pair occurs in a fan as often as its second part occurs in ys, and only with x in front |
| FusionCandidates.TowardCount | include/reactions/ntw_fusion1u.h:102-115 | a pair occurs in Toward(xs, y) as often as its first part occurs in xs, and only with y behind |
| FusionCandidates.FreeEndsDistinct | include/structure.h:322-357 | with separate class lists, every free end is listed once |
| FusionCandidates.ClassListsSeparate | include/structure.h:322-357 | the class vectors populate_cluster_vectors builds are separate and name real segments |
| NtwFission.EndWeight | include/segment.h:431-441 | the end weight is 0 exactly when the end is free |
| NtwFission.EndWeightReturned | include/segment.h:431-441 | EndWeight is the value set_end_fin returns |
| NtwFission.SegmentProp | include/reactions/ntw_fission.h:123-134 | a segment of L edges contributes between 2(L-1) and 2L: its two end weights plus 2 per inner node |
| NtwFission.BulkFins | include/reactions/ntw_fission.h:123-134 | the bulk-weight calls keep the segment's shape |
| NtwFission.FinsSet | include/reactions/ntw_fission.h:123-134 | setting the weights keeps the segment's shape |
| NtwFission.BulkFinsMeaning | include/reactions/ntw_fission.h:123-134 | after set_bulk_fin(0..n-1), both sides of each of the first n inner nodes weigh 1 and every other weight is kept |
| NtwFission.FinsSetCalls | include/reactions/ntw_fission.h:123-134 | the calls set_prop(ic) makes on a segment leave exactly the weights FinsSet gives |
| NtwFission.FinsSetMeaning | include/reactions/ntw_fission.h:123-134 | edge k weighs the end weight at a free-side end and 1 at an inner node |
| NtwFission.FinsSetIdempotent | include/reactions/ntw_fission.h:123-134 | setting the weights twice sets them once |
| NtwFission.NodeWeights | include/reactions/ntw_fission.h:165-191 | node a weighs NodeWeight(m, a), for the \|g\|+1 nodes of the segment |
| NtwFission.ReachesOnce | include/reactions/ntw_fission.h:165-191 | at most one position stops the walk |
| NtwFission.WithinTotal | include/reactions/ntw_fission.h:165-191 | a positive k at most the total weight stops the walk somewhere |
| NtwFission.StopHasWeight | include/reactions/ntw_fission.h:165-191 | for k > 0 the walk stops only at a node of positive weight, so a free end is never picked |
| NtwFission.WalkAt | include/reactions/ntw_fission.h:165-191 | position Offset(w) + a of the walk is node a of segment w |
| NtwFission.SegmentWeight | include/reactions/ntw_fission.h:123-134 | the nodes of a segment whose weights are set weigh exactly its propensity term |
| NtwFission.WalkWeight | include/reactions/ntw_fission.h:165-191 | once every segment has its weights set, the walk weighs the sum of the propensity terms |
| NtwFission.ClusterProps | include/reactions/ntw_fission.h:112-121 | entry c is the propensity of cluster c |
| NtwFission.ClusterPropShape | include/reactions/ntw_fission.h:123-134 | propensities depend on the shape of the segments only |
| NtwFission.FinsAllMeaning | include/reactions/ntw_fission.h:123-134 | after set_prop(ic), the listed segments have their weights set and all others are kept |
| NtwFission.FinsClustersMeaning | include/reactions/ntw_fission.h:112-121 | after set_prop(), every segment of a cluster has its weights set and no other segment changes |
| NtwFission.ClusterSegmentsMembers | include/structure.h:322-357 | clmt lists segments 1..n only, each under its own cluster |
| NtwFission.ClusterPartition | include/reactions/ntw_fission.h:112-121 | the cluster propensities add up to the propensity of all live segments |
| NtwFission.PropensityIsWalkWeight | include/reactions/ntw_fission.h:112-191 | the total propensity set_prop() computes equals the total weight find_random_node walks over |
| NtwFission.ScanNodes | include/reactions/ntw_fission.h:165-191 | the scan of one segment stops at the first node whose running sum reaches k, or reports the segment's total |
| NtwFission.FissionSlot.constructor | include/reactions/ntw_fission.h:104-110 | the reaction starts with no propensities and a zero total |
| NtwFission.FissionSlot.SetSegmentFins | include/reactions/ntw_fission.h:123-134 | one segment gets its weights set, and its propensity term is returned |
| NtwFission.FissionSlot.SetPropCluster | include/reactions/ntw_fission.h:123-134 | set_prop(ic): pr[ic] becomes the propensity of cluster ic, and each segment of the cluster has its weights set |
| NtwFission.FissionSlot.AddClusterSegment | include/reactions/ntw_fission.h:123-134 | one pass of the loop adds one segment's term to pr[ic] and sets its weights; other entries are kept |
| NtwFission.FissionSlot.SetProp | include/reactions/ntw_fission.h:112-121 | set_prop(): pr has clnum entries, each the propensity of its cluster; every cluster's segments have their weights set; the total is returned |
| NtwFission.FissionSlot.SetPropNext | include/reactions/ntw_fission.h:112-121 | one pass of set_prop()'s loop extends the propensities to cluster ic |
| NtwFission.FissionSlot.UpdateProp | include/reactions/ntw_fission.h:136-151 | pr is resized to clnum with new entries 0; cluster c, if below clnum, gets its propensity; prTotal is the sum of pr |
| NtwFission.FissionSlot.FindRandomNode | include/reactions/ntw_fission.h:165-191 | the node found is the one where the running weight sum over the nodes of segments 1..mtnum first reaches k; otherwise not found |
| NtwFission.WalkNodes | include/reactions/ntw_fission.h:165-191 | the walk over segments 1..n reports the outcome WalkOutcome describes |
| NtwFission.HitOutcome | include/reactions/ntw_fission.h:165-191 | the walk stopping at node a of segment w is reported as found |
| NtwFission.MissOutcome | include/reactions/ntw_fission.h:165-191 | no running sum reaching k is reported as not found |
| NtwFission.SegmentInWalk | include/reactions/ntw_fission.h:165-191 | segment w's nodes form the stretch of the walk from Offset(w) to Offset(w+1) |
| NtwFission.VisitSegment | include/reactions/ntw_fission.h:165-191 | one pass of the outer loop stops at the first reaching node of segment m, or carries the running sum on |
| NtwFission.PicksWeighted | include/reactions/ntw_fission.h:165-191 | a walk stopped by k > 0 stops at a node of positive weight |
| NtwFission.SegmentPropShape | include/reactions/ntw_fission.h:123-134 | segments with the same edge count and neighbour counts have the same propensity term |
| NtwFission.UpdateMovesTotal | include/reactions/ntw_fission.h:136-151 | update_prop(c) moves the total by the change of cluster c's propensity alone |
| NtwFusion11.Candidates11IsAllPairs | include/reactions/ntw_fusion11.h:100-130 | the loop nest enumerates exactly the admitted pairs of free ends, in order |
| NtwFusion11.AdmittedPairOnce | include/reactions/ntw_fusion11.h:100-130 | pairs of list positions i < j occur once if admissible and never reversed |
| NtwFusion11.PairOnce | include/reactions/ntw_fusion11.h:100-130 | each pair of free ends on different segments is a candidate exactly once |
| NtwFusion11.LoopPair | include/reactions/ntw_fusion11.h:112-113 | a lone segment is paired with itself once if it is at least the minimal loop length, and never otherwise |
| NtwFusion11.OnlyFreeEnds | include/reactions/ntw_fusion11.h:100-130 | nothing but admissible pairs of free ends is ever a candidate |
| NtwFusion11.CandidateCount | include/reactions/ntw_fusion11.h:92-98 | with n lone segments, of which `long` can close, and t free ends of one-free-end segments, there are long + 2n(n-1) + 2nt + t(t-1)/2 candidates |
| NtwFusion11.CountTwoLoneThreeTips | include/reactions/ntw_fusion11.h:92-98 | two closable lone segments and three free tip ends give 21 candidates |
| NtwFusion11.Ntw11.constructor | include/reactions/ntw_fusion11.h:83-90 | the container starts empty |
| NtwFusion11.Ntw11.Populate | include/reactions/ntw_fusion11.h:100-130 | populate clears the container and refills it with exactly Candidates11 of the class vectors |
| NtwFusion11.Ntw11.AddRows | include/reactions/ntw_fusion11.h:109-124 | the outer loop over mt11 appends every row in turn |
| NtwFusion11.Ntw11.AddTipPairs | include/reactions/ntw_fusion11.h:126-129 | the loop over mt13 appends each free end paired with the later ones |
| NtwFusion11.Ntw11.AddRow | include/reactions/ntw_fusion11.h:109-124 | one pass of the outer loop appends its row |
| NtwFusion11.Ntw11.AddToLaterLone | include/reactions/ntw_fusion11.h:117-119 | an end is paired with both ends of each later lone segment |
| NtwFusion11.Ntw11.AddToTips | include/reactions/ntw_fusion11.h:121-122 | an end is paired with each free end of mt13 |
| NtwFusion11.Ntw11.SetProp | include/reactions/ntw_fusion11.h:92-98 | set_prop fills the container and returns the number of candidates |
| NtwFusion12.PairCount | include/reactions/ntw_fusion12.h:109-163 | the list populate builds holds each pair exactly Multiplicity times: a free end with an inner node not too near it, twice for lone with lone, once otherwise |
| NtwFusion12.OnlyInterior | include/reactions/ntw_fusion12.h:109-163 | every candidate is a valid argument of fuse12: a free end and a node strictly inside a target segment, not too near |
| NtwFusion12.ClassListsDistinct | include/structure.h:322-357 | the class vectors populate_cluster_vectors builds name real segments and repeat none |
| NtwFusion12.RowCount | include/reactions/ntw_fusion12.h:115-162 | a row pairs its free end with each target position as often as RowMult says, including the source's skip rule |
| NtwFusion12.CountTwoLone | include/reactions/ntw_fusion12.h:109-163 | as written, two lone segments of 4 and 3 edges give 32 candidates: each of the four free ends meets 4 inner nodes, each pair listed twice |
| NtwFusion12.PairCountOnce | include/reactions/ntw_fusion12.h:109-163 | with the second add of the lone-to-lone loop dropped, the list holds every admissible pair exactly once and nothing else |
| NtwFusion12.CandidatesCount | include/reactions/ntw_fusion12.h:109-163 | counted row by row, both lists hold exactly the admissible pairs, a lone end with a lone segment twice as written and once when corrected |
| NtwFusion12.CountTwoLoneOnce | include/reactions/ntw_fusion12.h:109-163 | with every pair once, two lone segments of 4 and 3 edges give 16 candidates |
| NtwFusion12.TwoLoneRows | include/reactions/ntw_fusion12.h:115-139 | the four rows of two lone segments of 4 and 3 edges hold 4 pairs each, listed twice or once |
| NtwFusion12.CountAfterFuse12 | include/reactions/ntw_fusion12.h:109-163 | as written, three lone segments of 4 edges after fuse12(1, 1, 2, 2) give 39 candidates |
| NtwFusion12.CountAfterFuse12Once | include/reactions/ntw_fusion12.h:109-163 | with every pair once, the same network gives 35 candidates |
| NtwFusion12.AfterFuse12Rows | include/reactions/ntw_fusion12.h:109-163 | in that network each lone end has a row of 9 pairs (7 once) and each tip end a row of 7 |
| NtwFusion12.TipTargets | include/reactions/ntw_fusion12.h:128-153 | the three tip segments of that network hold 5 inner nodes, and the skip rule drops one of them for a tip end |
| NtwFusion12.Ntw12.constructor | include/reactions/ntw_fusion12.h:89-99 | the container starts empty |
| NtwFusion12.Ntw12.Populate | include/reactions/ntw_fusion12.h:109-163 | populate clears the container and refills it with exactly Candidates12 of the class vectors |
| NtwFusion12.Ntw12.AddLoneEndRows | include/reactions/ntw_fusion12.h:115-139 | the first outer loop appends the rows of both ends of each lone segment |
| NtwFusion12.Ntw12.AddTipEndRows | include/reactions/ntw_fusion12.h:141-162 | the second outer loop appends the row of the free end of each tip segment |
| NtwFusion12.Ntw12.AddReach | include/reactions/ntw_fusion12.h:120-126 | the innermost loop appends the inner positions of one target segment, as Reach says |
| NtwFusion12.Ntw12.SetProp | include/reactions/ntw_fusion12.h:101-107 | set_prop fills the container and returns the number of candidates |
| NtwFusion1U.CycleRowsCount | include/reactions/ntw_fusion1u.h:102-115 | a pair occurs as often as its end occurs if its cycle is listed, and never otherwise |
| NtwFusion1U.CandidateCount | include/reactions/ntw_fusion1u.h:94-100 | there are \|mt22\| (2\|mt11\| + \|mt13\|) candidates |
| NtwFusion1U.CountTwoCyclesTwoLone | include/reactions/ntw_fusion1u.h:94-100 | two cycles and two lone segments give 8 candidates |
| NtwFusion1U.PairOnce | include/reactions/ntw_fusion1u.h:102-115 | each free end is paired with each cycle exactly once, and nothing else is a candidate |
| NtwFusion1U.Ntw1L.constructor | include/reactions/ntw_fusion1u.h:84-92 | the container starts empty |
| NtwFusion1U.Ntw1L.Populate | include/reactions/ntw_fusion1u.h:102-115 | populate clears the container and refills it with exactly Candidates1L of the class vectors |
| NtwFusion1U.Ntw1L.AddCycleRow | include/reactions/ntw_fusion1u.h:102-115 | one pass of the outer loop appends every free end paired with cycle w2 |
| NtwFusion1U.Ntw1L.SetProp | include/reactions/ntw_fusion1u.h:94-100 | set_prop fills the container and returns \|mt22\| (2\|mt11\| + \|mt13\|) |

## Left out

- Input and output are not modelled: the messenger (`msgr`), the printing and writing of edges and segments, and `network.h`. Where an operation of the transformations prints an error and exits, the model returns an `Exit` (or `Halted`) outcome carrying the message.
- Randomness and the simulation loop are not modelled. `reactions/reaction.h`, the `fire` methods and the Gillespie driver are not part of this model. The random number `find_random_node` receives is a parameter, and the edge map `glm` that `fiss3` reads is passed in.
- Floating-point rounding is not modelled: fission weights are exact reals.
- `XASSERT` checks are not modelled as checks: they are compiled out in the source, so the model follows the unchecked code.
- Neighbour-table symmetry (if end a records end b, then b records a) is not proved to be an invariant of the operations. Lemmas that need it take it as a precondition: `FissionAtNode.Fissioned3Junction` requires the three ends at the junction to record each other, and `NeigsCopiedRewires`, `RenamedMitoRewires` and `Fission.HandedRewires` require each neighbour of the moved end to record it in exactly one live slot.
- CoreTransformer.NeigsUpdatedRedirects holds for any tables and states only an upper bound: a slot is unchanged or turned from the old end into the new one. That the back references are in fact rewritten is `NeigsUpdatedClears`, for neighbours recording the old end at most once. A neighbour that records the old end in two live slots gets only the first rewritten per visit, as in the source.
- CoreTransformer.NeigsCopiedRedirects likewise states only the upper bound. The rewrite of the neighbours' back references is `NeigsCopiedRewires`, under the symmetry above.
- CoreTransformer.RenamedMitoSlot copies every entry exactly except one naming f itself (a link between f's own two ends), which is stated only to be unchanged or renamed to t.
- CoreTransformer.RenamedMitoTarget has the same gap as RenamedMitoSlot for a link between f's own two ends.
- CoreTransformer.RenamedMitoOthers states only the upper bound (each slot unchanged or with f renamed to t). The rewrite itself is `RenamedMitoRewires`, which needs symmetric tables around f and no link from f to itself.
- CoreTransformer.FusedParallelMeaning states the fused segment's edges and neighbour counts, not its neighbour entries or the neighbours' back references. Those pass through `copy_neigs` and then the move of the last segment into the emptied place, and the two are not composed into one statement.
- CoreTransformer.FusedAntiparallelMeaning states the fused segment's edges and neighbour counts, not its neighbour entries or the neighbours' back references, for the same reason.
- Fission.HandedMeaning states only the upper bound for the new segment's entries (each copied, or a reference to end 2 of w turned into end 2 of t). The rewrite of the neighbours' back references is `Fission.HandedRewires`, under the symmetry above.
- Some source behaviours have no defined result, such as a missing back-reference or an out-of-range slot. The model then reads "not found" or skips the entry:
  - The search of `update_neigs` stops at `nn` instead of reading past the live slots.
  - `MutuallyLinked` treats an out-of-range `single_neig_index` as not linked.
  - `SlotOneInd` (and `EndInd`) give `Huge` when the recorded slot holds no end or names a segment without edges.
- `ability_for_fission.h` calls `update_neigs` with four arguments, which match no declaration in `core_transformer.h` (the declared function takes seven). These calls are modelled as the removal form (`removefromneigs` true) with no replacement end.
- Fission.Rejoin: `fiss2` on a segment looped into itself calls `fuse_parallel` without checking that the two ends to fuse are free (the check is an `XASSERT`). The model returns an `Exit` outcome when an end is not free.
- Fission.SearchLeads: `dfs` is proved sound, and complete only for the neighbours recorded at the starting end (`SearchFindsRecorded`, `SearchMarksNeighbours`). Full completeness (found whenever the end is reachable) is not proved.
- FissionAtNode.Fissioned3Clusters: the two reported cluster ids are stated only when `fiss3` did not fuse the remaining two segments.
- FissionAtNode.ReadClusters: `update_structure` inside `fiss3` is modelled only as the rebuild of the edge-to-segment map. The other rebuilt vectors are not returned.
- Fission.Fiss2: the `update_structure()` call of `fiss2` (`ability_for_fission.h:274`) and its reads of `glm[ind1]` and `glm[ind2]` are left out. Their results feed only an `XASSERT` and verbose printing, so the network `fiss2` leaves is the same.
- Segments.Segment.NumNodes requires a degree of 1, 2 or 3 instead of modelling the exit `num_nodes` takes for any other degree (`segment.h:425`). Every caller passes 1, 2 or 3.
- Fusion.Fused12Junction: stated for a free end and a node of a different segment. Fusing an end to a node of its own segment (`w1 == w2` in `fuse12`) is modelled but not characterised.
- Fusion.FusedToCycleMeaning: stated for two different segments. `fuse1L` of a segment with itself is modelled but not characterised.
- Fusion.Fused12Junction does not state the concrete node counts `nn = (3, mass-3, 1)` for two lone segments. It states the junction and the kept edge total.
- FissionAtNode.Fissioned3Junction does not state the node counts after cutting a junction. It states which ends are freed and which segments are spliced.
- NtwFusion12.Ntw12.Populate follows the code as written, with the lone-to-lone pairs added twice (see Findings). The single-count list `Candidates12Once` is stated and counted beside it, but no method builds it.
- NtwFusion12.CountAfterFuse12: the network after `fuse12(1, 1, 2, 2)` is given by its segment lengths and class vectors. It is not derived from `Fusion.Fused12` and the classification.
- Structure.Network.PopulateClusterVectors: for a segment that fits no class (only possible with inconsistent tables, where the source asserts), `populate_cluster_vectors` and `update_nn` can disagree on the node counts. `PopulatedNodeNumbersAgree` requires every segment to be classified.
- Segments.Segment.SetBulkFin requires `a + 1 < |g|`. The source's guard is vacuous (see Findings); the model uses the evidently intended bound.
- Segments require at least one edge where the source reads an end edge. An empty segment only occurs as the mock segment or as a place just emptied by a fusion.

## Findings

| source | as written | input that shows it | evidently intended | confidence | as-written member | corrected member |
|---|---|---|---|---|---|---|
| include/reactions/ntw_fusion12.h:124-125 | `populate` calls `cnd.add(we1, {w2,i})` twice for every pair of a lone segment's end and an interior node of a lone segment | two lone segments of 4 and 3 edges give 32 candidates where the repository's tests expect 16; three lone segments of 4 edges after `fuse12(1, 1, 2, 2)` give 39 where the tests expect 35 | each admissible pair listed once | not executed | NtwFusion12.CountTwoLone | NtwFusion12.PairCountOnce |
| include/segment.h:445-454 | `set_bulk_fin(a)` guards with `a >= 0 \|\| a <= g.size()-1`, which holds for every unsigned `a` | `a = g.size()-1` passes the guard and writes `g[a+1].fin[0]`, one past the last edge | `a + 1 < g.size()`: only a node between two edges of the segment | not executed | Segments.BulkFinGuardAdmitsLastEdge | Segments.Segment.SetBulkFin |
