# Verified models of zi_lib's algorithms

A Dafny model of the stateful algorithms at the centre of zi_lib, with proofs of what they are for: graph algorithms,
triangle meshes and their simplification, triangle strips, watershed segmentation over union-find, an indexed heap, and
the two protocols built on a lock and condition variables. `dafny verify dfyconfig.toml` checks everything.

Objects that the library updates in place are classes here, with the same fields and the same loops; vectors and hash
tables are fields of type `seq` and `map`, and buffers are arrays. Each method is proved against a specification on
values, and the theorems are lemmas about that specification. The two protocols are state machines whose steps are the
sections that run under the lock.

| file | what it models |
|---|---|
| Paths, Counting, Options | reachability, finite sets and optional values, used everywhere |
| VertexNumbers | numbering by first appearance |
| SortedEdges | sorted edge lists and the searches in them |
| DisjointSets | union-find |
| BipartiteMatching | Hopcroft-Karp |
| StronglyConnected | Tarjan's strongly connected components |
| VoxelEdges, FloodFill, RegionAdjacency, RegionBorders, RegionMerge, Watershed | the watershed, from affinities to the dendrogram |
| TriMesh, MeshTopology, Simplifier | half-edge meshes, edge collapse, simplification |
| TriangleStrips, TriStripper | growing and printing triangle strips |
| SimpleHeap | the array heap with a position map |
| TaskManager, Barrier | the thread pool's task manager and the cyclic barrier |
| EdgeCodec, MetaCodec, VoxelCodec | the bit layouts behind edges, strip bytes and voxel words |

## What holds, and what does not

- Hopcroft-Karp returns the size of a largest matching of the input edges and marks one such matching; the marks follow the
  input by first appearance of its vertices (BipartiteMatching.HopcroftKarpMatching). Every phase gains at least one edge and makes
  the shortest augmenting paths longer, so the square of the number of phases is at most four times the number of left
  vertices, and one.
- Tarjan's components are the classes of mutual reachability, numbered so that no edge leads to a higher number.
- Collapsing an edge that passes the topology test takes a surface to a surface, with the collapsed set of triangles, on
  one vertex less, with the same border and the same Euler characteristic; a closed manifold stays one. The mesh may be
  open elsewhere: edges that touch the border are never queued (Simplifier.MeshSimplifier.AddToHeap), and one that is in
  the queue all the same is refused. Simplification as a whole terminates, keeps all this, and never queues an edge twice.
- The strips, read back, show every face of the mesh just once, all with the same reversed winding; and when growing
  ends no two strips can be joined.
- The watershed's labels are the connected components of its direction marks; the region graph has one entry for every
  two regions that meet, with the greatest affinity between them; one merging pass is enough, and joins just where that is
  due; voxel counts are conserved by compaction; and the dendrogram is a maximum spanning forest of the surviving regions,
  made of edges of the graph. Watershed.Basic and Watershed.Quickie put the steps together, from the affinities to the
  dendrogram.
- The two counters that `zi/watershed/quickie.hpp` asserts equal at line 633 are equal if and only if the volume is at
  least three voxels wide along each axis, or no affinity that the first loop of `add_edges` looks at reaches the high
  threshold (Watershed.Quickie). In a thinner volume no voxel is off all faces, so none is counted, and such an affinity
  makes a region all the same
  (Watershed.ThinRegions); Watershed.StrongButThin is such a volume. In the basic watershed every voxel counts, and the
  counters are always equal (Watershed.Basic).
- Erasing from the array heap keeps its order if and only if the element moved into the hole is not less than the
  parent there (SimpleHeap.Heap.Erase); SimpleHeap.OrderCanBeLost is an ordered heap that loses its order so.
- `find_set` relinks the element it was asked about and no other: its second loop assigns to the same place each time.
  The rank bound, and with it the logarithmic depth, does not need the compression.
- Whatever wakeups there are, `stop( true )` on a running pool drains the queue if and only if there is an active worker
  and one has entered when it begins (TaskManager.JoinDrains). The wait in `create_workers_nl` is not in a loop: a spurious
  wakeup lets `start` return before its workers have entered, and then the queue can stay (TaskManager.UnguardedWait). If
  the controller wakes only when notified, the queue is drained whenever the pool has workers
  (TaskManager.PromptJoinDrains).
- In `add_edges` the test of the best affinity against the one before it never fails (VoxelEdges.PickIsSteepest): ties
  go to the first direction.
- `edge_sink` gives back vertex ids below 2^31 and no others (EdgeCodec.SinkOfEdge).

## Model

| member | source | states |
|---|---|---|
| DisjointSets.UnionFind.constructor | zi/disjoint_sets/disjoint_sets.hpp:48-60 | every element is its own set, and there are as many sets as elements |
| DisjointSets.UnionFind.FindSet | zi/disjoint_sets/disjoint_sets.hpp:84-102 | terminates; returns the representative, leaves the partition alone, and changes the parent of the asked element only, to the representative |
| DisjointSets.UnionFind.Join | zi/disjoint_sets/disjoint_sets.hpp:109-133 | joins the two sets under the root of higher rank, which it returns; one set fewer, unless the roots are one |
| DisjointSets.UnionFind.Clear | zi/disjoint_sets/disjoint_sets.hpp:140-148 | every element on its own again |
| DisjointSets.JoinsFormComponents | zi/disjoint_sets/disjoint_sets.hpp:84-133 | after any run of unions two elements share a set iff the united pairs connect them |
| DisjointSets.JoinKeepsConsistent | zi/disjoint_sets/disjoint_sets.hpp:109-133 | a join keeps the set count equal to the number of roots, ranks rising along parents, and 2^rank members below a root |
| DisjointSets.JoinKeepsRanks | zi/disjoint_sets/disjoint_sets.hpp:121-132 | a root of rank k still has at least 2^k members after a join |
| DisjointSets.DepthLogarithmic | zi/disjoint_sets/disjoint_sets.hpp:89-92 | a chain of parents is at most the base-two logarithm of the size long |
| DisjointSets.RankFits | zi/disjoint_sets/disjoint_sets.hpp:44 | with fewer than 2^k elements every rank is below k, so a byte holds it |
| BipartiteMatching.HopcroftKarpMatching | zi/graph/bipartite_matching.hpp:201-210 | the count is the size of a largest matching among the input edges; the marked positions of the input, sorted by first appearance of left and then of right vertices, are just the edges of such a matching, and for distinct edges as many as the count |
| BipartiteMatching.HopcroftKarp.constructor | zi/graph/bipartite_matching.hpp:125-161 | numbers left then right vertices by first appearance, sorts the renamed edges, starts with nothing paired |
| BipartiteMatching.HopcroftKarp.Bfs | zi/graph/bipartite_matching.hpp:53-94 | lays out the alternating layers, all edges tight, and tells whether the free end is reached |
| BipartiteMatching.HopcroftKarp.Dfs | zi/graph/bipartite_matching.hpp:97-122 | true: one more left vertex matched, others stay matched, pairs symmetric; false: pairs unchanged, the vertex given up; ends by rising distance |
| BipartiteMatching.HopcroftKarp.Sweep | zi/graph/bipartite_matching.hpp:168-177 | after a successful layering at least one search of the phase succeeds; matched vertices stay matched, free ones are given up, right vertices only move to partners of earlier layers |
| BipartiteMatching.HopcroftKarp.Execute | zi/graph/bipartite_matching.hpp:163-188 | ends with a matching no other exceeds, and marks it; phases are at most the edges gained, and their square at most four times the left vertices and one |
| BipartiteMatching.NilRises | zi/graph/bipartite_matching.hpp:166-178 | the layer of the free end, which measures the shortest augmenting paths, rises from phase to phase |
| BipartiteMatching.CutBounds | zi/graph/bipartite_matching.hpp:71-93 | no matching exceeds the present one by more than the matched vertices of any one layer before the free end's |
| BipartiteMatching.FewPhases | zi/graph/bipartite_matching.hpp:166-178 | rising layers and rising sizes leave room for few phases: their square is at most four times the left vertices and one |
| BipartiteMatching.NoAugmentingPathMeansMaximum | zi/graph/bipartite_matching.hpp:93 | when the free end is not reached, reached and unreached vertices give a vertex cover as large as the matching |
| BipartiteMatching.CoverBoundsMatching | zi/graph/bipartite_matching.hpp:163-187 | no matching is larger than a vertex cover |
| BipartiteMatching.LayersUnique | zi/graph/bipartite_matching.hpp:71-91 | the layers are determined by the graph and the pairs |
| BipartiteMatching.AllGivenUp | zi/graph/bipartite_matching.hpp:118-119 | if all searches of a phase failed, every layered vertex would be given up, the free end too |
| BipartiteMatching.SweepGains | zi/graph/bipartite_matching.hpp:166-178 | a sweep after a successful layering cannot gain nothing |
| BipartiteMatching.AugmentThrough | zi/graph/bipartite_matching.hpp:109-114 | flipping an edge on the way back keeps the pairing, with stale pairs put right |
| BipartiteMatching.MarksCountMatching | zi/graph/bipartite_matching.hpp:180-187 | for distinct edges the true marks are as many as the matched left vertices |
| BipartiteMatching.InputMaximum | zi/graph/bipartite_matching.hpp:136-154 | a bound on matchings of the renamed edges bounds those of the input |
| BipartiteMatching.SortedInput | zi/graph/bipartite_matching.hpp:136-156 | the order of the sorted edges is that of the input by first appearance of its vertices |
| BipartiteMatching.MarksSelected | zi/graph/bipartite_matching.hpp:180-186 | a position is marked iff its input edge is in the matching |
| VertexNumbers.NumbersNext | zi/graph/bipartite_matching.hpp:136-154 | giving the next number to what is not numbered yet keeps the numbers in the order of first appearance |
| VertexNumbers.NumbersOrder | zi/graph/bipartite_matching.hpp:136-154 | lower numbers go to what is met earlier |
| SortedEdges.SortSorts | zi/graph/bipartite_matching.hpp:156 | sorting gives a sorted permutation |
| SortedEdges.SortedBelong | zi/graph/bipartite_matching.hpp:156 | what belongs to the edges stays with them as they are sorted |
| SortedEdges.ScanComplete | zi/graph/bipartite_matching.hpp:78-82 | the scan from the search result sees exactly the edges of the vertex |
| StronglyConnected.TarjanStronglyConnected | zi/graph/strongly_connected_components.hpp:160-169 | the vertices of the input, and no others, get a number; two get one number iff each reaches the other along the edges; the count is how many numbers there are; edges never lead to a higher number |
| StronglyConnected.TarjanComponents.constructor | zi/graph/strongly_connected_components.hpp:92-131 | numbers the vertices by first appearance, sorts the edges, has seen nothing |
| StronglyConnected.TarjanComponents.Tarjan | zi/graph/strongly_connected_components.hpp:53-89 | after a visit the vertex and all unseen behind it are seen, low link and stack are as the invariant says, finished components are exact |
| StronglyConnected.TarjanComponents.PopComponent | zi/graph/strongly_connected_components.hpp:78-88 | the stack down to the vertex gets the next component number |
| StronglyConnected.TarjanComponents.Execute | zi/graph/strongly_connected_components.hpp:133-151 | the component numbers of the numbered graph, and of the vertices by name |
| StronglyConnected.EnterKeepsInv | zi/graph/strongly_connected_components.hpp:55-57 | entering a vertex keeps the search invariant |
| StronglyConnected.LeaveComponent | zi/graph/strongly_connected_components.hpp:78-88 | when the low link is the own index, what is above on the stack is one component, closed and mutual |
| StronglyConnected.LeaveOpen | zi/graph/strongly_connected_components.hpp:62-78 | otherwise the vertex stays open and can reach an older one |
| StronglyConnected.SearchComplete | zi/graph/strongly_connected_components.hpp:135-150 | with all seen, the numbers are the components |
| StronglyConnected.ReachesRenamed | zi/graph/strongly_connected_components.hpp:106-122 | reachability survives the numbering, both ways |
| VoxelEdges.AddEdges | zi/watershed/basic_watershed.hpp:73-219 | exactly the strong and the steep edges are marked, at both ends, inside the volume, and the voxels to count are |
| VoxelEdges.StrongPass | zi/watershed/basic_watershed.hpp:85-115 | the first loop marks, for its direction, the affinities at or above the high threshold that lie off the faces |
| VoxelEdges.SteepPass | zi/watershed/basic_watershed.hpp:117-217 | the second loop marks, at inner voxels, the first direction of greatest affinity, if high enough, and what counts |
| VoxelEdges.PickIsSteepest | zi/watershed/basic_watershed.hpp:135-178 | the six checks find the first direction of greatest affinity above -1, and the value before it was less |
| VoxelEdges.MarkedWell | zi/watershed/basic_watershed.hpp:108-109 | marks drawn at both ends inside the volume are symmetric |
| VoxelEdges.AllInside | zi/watershed/basic_watershed.hpp:98-131 | the tests on the coordinates keep every marked neighbour inside the volume |
| VoxelEdges.Coordinates | zi/watershed/basic_watershed.hpp:87-91 | the running position determines the three coordinates |
| VoxelEdges.DrawnAtInner | zi/watershed/quickie.hpp:193-283 | where the volume is three voxels wide along each axis, every edge drawn has an end off the faces |
| VoxelEdges.FacesUnread | zi/watershed/quickie.hpp:201-207 | the affinities at the faces, which quickie overwrites, have no say in what is drawn and counted |
| FloodFill.InitialDomains | zi/watershed/basic_watershed.hpp:255-293 | label 0 iff the voxel had no bit set; otherwise labels agree iff marks connect; labels are 1 to next - 1, in order of the first voxels of their regions; sizes count the labels; the queue hands out as many voxels as are marked |
| FloodFill.FillRegion | zi/watershed/basic_watershed.hpp:257-284 | ends, with exactly the voxels reachable from the seed newly labelled, and as many taken off the queue as these are |
| FloodFill.Scan | zi/watershed/basic_watershed.hpp:267-279 | queues the neighbours not seen yet, once each, and marks them as visited |
| FloodFill.CountVoxels | zi/watershed/quickie.hpp:336-370 | clears the visited bits and counts the voxels that count, by label |
| FloodFill.FillIsRegion | zi/watershed/basic_watershed.hpp:262-282 | with the queue empty the fill is the set reachable from its seed |
| FloodFill.GraphSymmetric | zi/watershed/basic_watershed.hpp:108-109 | direction marks go both ways |
| FloodFill.DomainsFound | zi/watershed/basic_watershed.hpp:287-293 | clearing the visited bits leaves the labels of the components |
| Watershed.SizesHandedOver | zi/watershed/basic_watershed.hpp:287-293 | what the fill leaves is what the merging pass asks for |
| Watershed.EveryRegionCounted | zi/watershed/basic_watershed.hpp:289-293 | where all voxels count no region is empty |
| RegionAdjacency.CreateGraph | zi/watershed/basic_watershed.hpp:295-359 | for every two regions that meet one entry, the lower region first, with the greatest affinity between them, in rising order of weight and then of the regions, and no other entries |
| RegionAdjacency.RecordGreatest | zi/watershed/basic_watershed.hpp:319-332 | recording a meeting keeps, for each pair, the greatest affinity so far |
| RegionAdjacency.NeighboursLooked | zi/watershed/basic_watershed.hpp:299-311 | the basic watershed looks at every pair of voxels side by side, quickie at those back from inner voxels |
| RegionAdjacency.TouchingEntered | zi/watershed/basic_watershed.hpp:311-334 | where two regions touch at voxels looked at, at least as close as the threshold, they have an entry that weighs no less |
| RegionAdjacency.EntryTouches | zi/watershed/basic_watershed.hpp:311-334 | every entry has its weight from two voxels side by side at which its two regions touch |
| RegionAdjacency.InsertOrders | zi/watershed/basic_watershed.hpp:359 | entries are ordered by weight, and those of equal weight by their regions |
| RegionAdjacency.InsertOnce | zi/watershed/basic_watershed.hpp:319-332 | no two entries are for the same two regions, in either order |
| RegionAdjacency.GraphJoinsRegions | zi/watershed/basic_watershed.hpp:313-320 | entries join two different regions, never the background |
| RegionAdjacency.GraphUnread | zi/watershed/quickie.hpp:401-446 | searched from inner voxels alone, the graph does not depend on affinities at the faces |
| RegionBorders.FlagSlice | zi/watershed/chunk.hpp:183-220 | flags just the regions with a voxel in the slice, off the faces on the other axes |
| RegionBorders.FillSlice | zi/watershed/chunk.hpp:222-253 | clears the slice and nothing else |
| RegionBorders.ProcessBorders | zi/watershed/quickie.hpp:473-570 | regions are flagged iff they have a voxel next to a face at which the volume goes on; voxels at which it ends are cleared, and no others |
| Watershed.SizesAfterBorders | zi/watershed/quickie.hpp:490-565 | clearing faces leaves the sizes right, since no voxel there is counted |
| Watershed.Basic | zi/watershed/basic_watershed.hpp:239-503 | the steps together: regions, their graph and border flags, merging, compaction, relabelling and the dendrogram, each as stated; both counters printed are equal |
| Watershed.BasicInput | zi/watershed/basic_watershed.hpp:221-237 | voxels count from the lower of the low and the least threshold on |
| Watershed.BasicSettings | zi/watershed/basic_watershed.hpp:221-237 | region edges are looked for, and regions merge, down to the lower of the low and the least threshold; the dendrogram stops at the low one |
| Watershed.Quickie | zi/watershed/quickie.hpp:692-701 | the steps together; the assertion holds iff the volume is three voxels wide along each axis or has no strong edge |
| Watershed.QuickieSettings | zi/watershed/quickie.hpp:399 | region edges are looked for down to the lower of the low and the merging threshold, regions merge down to the latter, and the dendrogram does not stop |
| Watershed.RegionsHaveInner | zi/watershed/quickie.hpp:312-369 | in a volume three voxels wide along each axis every region has a counted voxel |
| Watershed.ThinRegions | zi/watershed/quickie.hpp:193-221 | in a thinner one there is a region iff there is a strong edge |
| Watershed.NothingCounted | zi/watershed/quickie.hpp:354-365 | and no region has a counted voxel |
| Watershed.StrongButThin | zi/watershed/quickie.hpp:633 | a volume two voxels wide with strong edges, on which the assertion fails |
| Watershed.SameSegment | zi/watershed/quickie.hpp:585-643 | in the end two labelled voxels have one label iff the joins of the merging pass connect their regions |
| Watershed.OverwrittenUnread | zi/watershed/quickie.hpp:206 | overwriting the affinities at the faces changes nothing that follows |
| RegionMerge.Segmentation.MergePass | zi/watershed/basic_watershed.hpp:413-436 | the joins are, in falling order of position, along just the edges heavy enough at which the classes after the joins before differ and one of them is small and has no region on the border; sizes and border flags of roots are sums and disjunctions over their classes, and every edge passed is settled |
| RegionMerge.OnePassSettles | zi/watershed/basic_watershed.hpp:413-436 | after one falling pass every edge at or above the threshold joins one class, or two that are each large enough or on the border; of all edges just those were joined along that are heavy enough and were due; classes are what these connect |
| RegionMerge.MergeStep | zi/watershed/basic_watershed.hpp:420-434 | joining two classes moves the size to the winner, joins the flags, and keeps settled edges settled |
| RegionMerge.DueByCounters | zi/watershed/basic_watershed.hpp:425-426 | the sizes and flags kept in place tell whether a join is due by the voxels and border regions of the two classes |
| RegionMerge.NothingDue | zi/watershed/basic_watershed.hpp:423-426 | where every region is large enough or on the border at the start nothing is joined |
| RegionMerge.Segmentation.Compact | zi/watershed/basic_watershed.hpp:438-462 | survivors are renumbered in place, keeping their order, the rest goes to the background; the two counters agree iff no class is empty |
| RegionMerge.Segmentation.RelabelAll | zi/watershed/basic_watershed.hpp:467-470 | every voxel gets the new number of its class |
| RegionMerge.VoxelsConserved | zi/watershed/basic_watershed.hpp:438-470 | after compaction and relabelling sizes[k] is the number of voxels with label k, 0 included, and labels 1 to count - 1 are all used |
| RegionMerge.Segmentation.ApplySizeThreshold | zi/watershed/quickie.hpp:576-646 | merging, compaction and relabelling together; the assertion in between holds if every region has counted voxels, and fails if there are regions and none has |
| RegionMerge.EmptyClass | zi/watershed/quickie.hpp:597-605 | after merging a class is empty iff all its regions were |
| RegionMerge.NoEmptyRoots | zi/watershed/quickie.hpp:633 | they agree when every region owns a counted voxel |
| RegionMerge.AllEmptyRoots | zi/watershed/quickie.hpp:633 | and differ when there are regions and none owns one |
| RegionMerge.Segmentation.GenerateDendr | zi/watershed/basic_watershed.hpp:472-501 | the dendrogram lists, the heaviest first, just the surviving graph edges whose ends no later positions connect; it is a forest of such edges that at every threshold, from the low one on where there is one, connects what the surviving edges connect |
| RegionMerge.SpanningStep | zi/watershed/quickie.hpp:660-674 | taking an edge between two trees keeps the forest and its threshold connectivity |
| RegionMerge.SpanningSame | zi/watershed/quickie.hpp:665-668 | leaving out an edge inside a tree loses no connection at any threshold |
| RegionMerge.SpanningDone | zi/watershed/basic_watershed.hpp:479-482 | stopping at the low threshold loses nothing at or above it |
| RegionMerge.JoiningByRoots | zi/watershed/basic_watershed.hpp:487-492 | the roots of its ends differ iff no later edges connect them |
| RegionMerge.PickNext | zi/watershed/basic_watershed.hpp:492-498 | the dendrogram goes on listing just these edges |
| RegionMerge.PickedEdges | zi/watershed/basic_watershed.hpp:496-497 | its entries are graph edges between survivors, under their new numbers, in falling order of weight |
| EdgeCodec.SourceOfEdge | zi/mesh/tri_mesh.hpp:44-52 | the source comes back from the code |
| EdgeCodec.SinkOfEdge | zi/mesh/tri_mesh.hpp:54-57 | the sink comes back iff it is below 2^31 |
| EdgeCodec.InverseOfEdge | zi/mesh/tri_mesh.hpp:59-62 | swapping the halves is the inverse edge |
| EdgeCodec.BothEndsBack | zi/mesh/tri_mesh.hpp:44-62 | codes identify edges: read forwards and backwards they give both ends, for all 32-bit ids |
| TriMesh.Mesh.AddEdge | zi/mesh/tri_mesh.hpp:141-167 | the counters count the unpaired half-edges with the new one, and the source names the face |
| TriMesh.Mesh.RemoveEdge | zi/mesh/tri_mesh.hpp:169-192 | the counters count them without it, and the name is dropped if it was this face |
| TriMesh.Mesh.AddFace | zi/mesh/tri_mesh.hpp:294-312 | a new id, its three half-edges, and the whole representation invariant kept |
| TriMesh.Mesh.RemoveFace | zi/mesh/tri_mesh.hpp:314-325 | the face and its half-edges gone, the invariant kept, names elsewhere untouched |
| TriMesh.Mesh.VertexEdge | zi/mesh/tri_mesh.hpp:348-363 | none for a vertex on the border, otherwise a half-edge that leaves it in the face it names |
| TriMesh.Mesh.IsClosedSurface | zi/mesh/tri_mesh.hpp:546-600 | true iff every side is shared and every vertex in use named |
| TriMesh.Mesh.CollapseEdge | zi/mesh/tri_mesh.hpp:444-484 | from an allowed edge, on a mesh open or closed, the walk ends, no half-edge is inserted twice, the triangles are the collapsed ones, two fewer, all used vertices named |
| TriMesh.AddCounts | zi/mesh/tri_mesh.hpp:153-162 | moving the counters at both ends by one keeps them counting unpaired half-edges |
| TriMesh.RemoveCounts | zi/mesh/tri_mesh.hpp:175-184 | and so on removal |
| TriMesh.UnpairedBound | zi/mesh/tri_mesh.hpp:66-67 | counters stay below the number of vertices, so never reach the top bit |
| TriMesh.ThreeSides | zi/mesh/tri_mesh.hpp:514 | there are three half-edges to every face |
| TriMesh.OffBorder | zi/mesh/tri_mesh.hpp:81-89 | a vertex is off the border by its word iff it is named and all its sides are shared |
| TriMesh.ClosedOffBorder | zi/mesh/tri_mesh.hpp:86-89 | on a closed mesh no vertex in use is on the border |
| MeshTopology.MovedIsCollapse | zi/mesh/tri_mesh.hpp:469-481 | the loop's removals and additions make up the collapse: the triangles without the vertex, and its others with the other end in its place |
| MeshTopology.MovedChar | zi/mesh/tri_mesh.hpp:472-481 | the triangles after every step of the loop |
| MeshTopology.Free | zi/mesh/tri_mesh.hpp:479 | the half-edges the loop adds are not there |
| MeshTopology.CollapseSurface | zi/mesh/tri_mesh.hpp:444-484 | a collapse of a surface, open or closed, is a surface: vertices off the border keep a single ring of neighbours, and exactly one vertex falls out of use |
| MeshTopology.CollapseKeepsBorder | zi/mesh/tri_mesh.hpp:444-484 | vertices are on the border after a collapse iff they were before, and the unshared sides are the same |
| MeshTopology.CollapseCloses | zi/mesh/tri_mesh.hpp:444-484 | a collapse of a closed surface is closed |
| MeshTopology.CollapseManifold | zi/mesh/tri_mesh.hpp:444-484 | a collapse of a closed manifold is one; exactly one vertex falls out of use |
| MeshTopology.RingSplices | zi/mesh/tri_mesh.hpp:472-481 | the ring of the vertex that stays is the two rings spliced |
| MeshTopology.CollapseKeepsEuler | zi/mesh/tri_mesh.hpp:444-484 | a collapse keeps the Euler characteristic, of open surfaces too |
| Simplifier.WalkIsLinkCondition | zi/mesh/quadratic_simplifier.hpp:245-264 | the walk decides whether the ends of the edge share only the two opposite vertices |
| Simplifier.MeshSimplifier.CheckTopology | zi/mesh/quadratic_simplifier.hpp:234-265 | true iff the edge was not refused before and meets the link condition; the walk's refusals are remembered |
| Simplifier.RefusedByWalk | zi/mesh/quadratic_simplifier.hpp:234-265 | an edge is remembered as refused iff it has two opposite vertices and fails the link condition |
| Simplifier.EdgeEnds | zi/mesh/tri_mesh.hpp:411-420 | the test for a valid edge asks whether both ends are off the border |
| Simplifier.MeshSimplifier.Iterate | zi/mesh/quadratic_simplifier.hpp:528-657 | collapses a cheapest edge iff it is off the border, not refused before, and allowed: then two faces fewer, same border, same Euler characteristic, queue renewed round the vertex, each new key with its error and the others with theirs of before; else mesh as it was and that key gone; the edge is refused from then on iff the walk refused it; the queue stays off the border |
| Simplifier.MeshSimplifier.CollapseTop | zi/mesh/quadratic_simplifier.hpp:558-655 | keys at both ends go, the edge is collapsed, all edges off the border at the vertex that stays are queued with their errors, and no other key or value changes |
| Simplifier.MeshSimplifier.EraseRound | zi/mesh/quadratic_simplifier.hpp:559-567 | the walk erases exactly the keys at the vertex |
| Simplifier.MeshSimplifier.QueueRound | zi/mesh/quadratic_simplifier.hpp:640-653 | the walk queues exactly the edges at the vertex that do not lead to the border, with their errors; the rest of the queue stays as it was |
| Simplifier.QueueNext | zi/mesh/quadratic_simplifier.hpp:737 | no key is queued twice: the assertion in add_to_heap holds |
| Simplifier.KeysSurvive | zi/mesh/quadratic_simplifier.hpp:558-577 | keys away from both ends are live edges of the collapsed mesh |
| Simplifier.MeshSimplifier.AddToHeap | zi/mesh/quadratic_simplifier.hpp:733-798 | a live edge that is not queued is queued with its error, unless an end is on the border |
| Simplifier.MeshSimplifier.InitHeap | zi/mesh/quadratic_simplifier.hpp:800-820 | every edge of the mesh off the border is queued once, with its error, and no other |
| Simplifier.MeshSimplifier.Optimize | zi/mesh/quadratic_simplifier.hpp:423-452 | ends; what it does is a run of rounds, each on an edge of least error that does not meet the goal, collapsed iff allowed and else dropped, until the queue is empty or meets the goal; the surface keeps its border and Euler characteristic, has evenly fewer faces, and is a manifold if it was one |
| Simplifier.RunOn | zi/mesh/quadratic_simplifier.hpp:430-442 | one more round prolongs the run |
| TriangleStrips.DecodePush | zi/mesh/tri_stripper.hpp:283-315 | what one more vertex adds to the triangles of a strip |
| TriangleStrips.PrintFirst | zi/mesh/tri_stripper.hpp:279-292 | the first three vertices show the first face backwards and lead to the side it is left by |
| TriangleStrips.PrintFace | zi/mesh/tri_stripper.hpp:307-308 | the vertex opposite the entered side shows the face backwards |
| TriangleStrips.GoOn | zi/mesh/tri_stripper.hpp:296-297 | the strip then enters the face across the expected side |
| TriangleStrips.Swap | zi/mesh/tri_stripper.hpp:298-305 | repeating the vertex before the last shows nothing and turns the strip |
| TriangleStrips.PrintSingle | zi/mesh/tri_stripper.hpp:260-270 | a face alone is shown once, backwards |
| TriStripper.PairUp | zi/mesh/tri_stripper.hpp:335-386 | inverse sides are each other's pairs, in whatever order the faces come, and no other side is free |
| TriStripper.Stripper.constructor | zi/mesh/tri_stripper.hpp:325-388 | every face a path of its own, every shared side free |
| TriStripper.Stripper.DetachFace | zi/mesh/tri_stripper.hpp:161-174 | the face, its sides and their mates are no longer free, nothing else changes, the queue neither |
| TriStripper.Stripper.ApplyEdge | zi/mesh/tri_stripper.hpp:176-204 | the two paths become one; the side, its mate and everything at a face that now has two used sides are no longer free, nothing else changes; the two faces are queued anew by their values |
| TriStripper.JoinForest | zi/mesh/tri_stripper.hpp:176-204 | used sides still join the faces to disjoint simple paths, ends naming each other, no cycle closed |
| TriStripper.AppliedDegrees | zi/mesh/tri_stripper.hpp:182-196 | degrees count used sides and stay at most two; a face of degree two has no free side |
| TriStripper.CutCycle | zi/mesh/tri_stripper.hpp:226-230 | a side between the two ends of one path is given up, and everything else kept |
| TriStripper.Stripper.Iteration | zi/mesh/tri_stripper.hpp:206-234 | takes a face of least value, gives up its free sides that lead to the other end of its path, and joins over the first that does not, if any; keeps the forest, and leaves fewer free sides, or no more of them and a shorter queue |
| TriStripper.Stripper.Grow | zi/mesh/tri_stripper.hpp:406-409 | ends; what it does is a run of such steps until the queue is empty, with a forest of paths no two of which can be joined |
| TriStripper.GrowthOn | zi/mesh/tri_stripper.hpp:406-409 | one more step prolongs the run |
| TriStripper.CutNext | zi/mesh/tri_stripper.hpp:219-231 | the sides of the face are tried in turn, and given up while they lead home |
| TriStripper.FirstQueueNext | zi/mesh/tri_stripper.hpp:401-404 | at first every free face with free sides is queued by its value, and no other |
| TriStripper.Stripper.PrintPath | zi/mesh/tri_stripper.hpp:277-320 | the strip of a path shows its faces in order, each once, backwards |
| TriStripper.Stripper.ExtractStrip | zi/mesh/tri_stripper.hpp:236-322 | an end not printed yet gives one strip showing its path; another face gives none |
| TriStripper.Stripper.Execute | zi/mesh/tri_stripper.hpp:390-421 | reading the strips back gives every face just once, backwards, and nothing else; the strips are, in order, the paths of the forest grown, each from the lower of its ends; no two of these can be joined; the forest is what a run of steps from the queue of all free faces ends in |
| TriStripper.MeshFacesProper | zi/mesh/tri_stripper.hpp:335-349 | the faces of a mesh, in any order, have three vertices each and sides of their own |
| MetaCodec.BytesRead | zi/mesh/tri_stripper.hpp:50-75 | reading the packed bytes gives the validity, the degree and the used sides of the model |
| MetaCodec.BytesUseEdge | zi/mesh/tri_stripper.hpp:65-69 | using a side in the bytes is using it in the model, and changes nothing else |
| MetaCodec.BytesSetDegree | zi/mesh/tri_stripper.hpp:76-80 | setting a degree in the bytes is setting it in the model |
| MetaCodec.BytesUnvalidate | zi/mesh/tri_stripper.hpp:60-63 | unvalidating a face or side in the bytes is doing so in the model |
| SimpleHeap.Heap.Insert | zi/heap/simple_binary_heap.hpp:113-119 | adds an element that is not there; index and order are kept |
| SimpleHeap.Heap.Erase | zi/heap/simple_binary_heap.hpp:121-129 | takes the element out; the index is kept; the order is kept iff the element moved is not less than the parent of its new place |
| SimpleHeap.Heap.Pop | zi/heap/simple_binary_heap.hpp:131-137 | takes the top out; index and order are kept |
| SimpleHeap.Heap.Top | zi/heap/simple_binary_heap.hpp:85-92 | in an ordered heap nothing is less than the top; none when empty |
| SimpleHeap.Heap.HeapUp | zi/heap/simple_binary_heap.hpp:148-157 | restores the order above a new last element |
| SimpleHeap.Heap.HeapDown | zi/heap/simple_binary_heap.hpp:159-179 | restores the order below; in all, iff the element is not less than its parent |
| SimpleHeap.Heap.SwapElements | zi/heap/simple_binary_heap.hpp:141-146 | swaps, and the index still gives every position |
| SimpleHeap.Heap.Drain | zi/heap/simple_binary_heap.hpp:131-137 | popping an ordered heap to empty yields its contents in order |
| SimpleHeap.EraseLoses | zi/heap/simple_binary_heap.hpp:170-173 | an element less than the parent of its place is less than its children, so the loop stops at once and the order is lost |
| SimpleHeap.OrderCanBeLost | zi/heap/simple_binary_heap.hpp:188-203 | an ordered heap and an erasure from it that meets that condition |
| TaskManager.StepSafe | zi/concurrency/thread_pool.hpp:133-365 | every step of every thread, any wakeup included, keeps counters and tasks right, and what a waiting stop remembers |
| TaskManager.StepInv | zi/concurrency/thread_pool.hpp:133-365 | and, when the controller wakes only when notified, the size of the pool |
| TaskManager.Safety | zi/concurrency/thread_pool.hpp:312-365 | in every interleaving each pushed task is queued, held by one worker, executed once, or cleared, and only one of these; the counters count entered and waiting workers |
| TaskManager.RestingPool | zi/concurrency/thread_pool.hpp:208-249 | when the controller wakes only when notified, the pool has between calls as many workers as it was told, or none; the assertions in start hold |
| TaskManager.JoinDrains | zi/concurrency/thread_pool.hpp:231-249 | whatever wakeups there are, when stop( true ) returns a task queued at its start is neither queued nor held iff there were active and entered workers; then it has been executed or cleared |
| TaskManager.PromptJoinDrains | zi/concurrency/thread_pool.hpp:231-249 | when the controller wakes only when notified, iff the pool has workers |
| TaskManager.StopStarts | zi/concurrency/thread_pool.hpp:150-165 | it waits iff there are active and entered workers, and else returns at once |
| TaskManager.UnguardedWait | zi/concurrency/thread_pool.hpp:147 | a run in which a spurious wakeup of the controller makes stop( true ) leave a task behind |
| TaskManager.WhenWorkersLeave | zi/concurrency/thread_pool.hpp:332-356 | a worker leaves iff there are too many and, in a stopping pool, the queue is empty; else it takes the first task, or waits if there is none |
| TaskManager.StepQueue | zi/concurrency/thread_pool.hpp:231-278 | a task joins the queue at the end it is pushed to; the first leaves it to the worker that looks, and all do when the queue is cleared or a running pool stopped without joining |
| TaskManager.StepLimit | zi/concurrency/thread_pool.hpp:167-206 | adding workers raises the limit, removing lowers it, down to zero, in whatever phase |
| TaskManager.FirstInFirstOut | zi/concurrency/thread_pool.hpp:268-278 | where all pushes are at the back tasks leave the queue in the order pushed, and wait in it in that order |
| TaskManager.StepConserved | zi/concurrency/thread_pool.hpp:231-365 | no step loses or doubles a task |
| TaskManager.StepCounted | zi/concurrency/thread_pool.hpp:317-355 | no step miscounts the workers |
| Barrier.NobodyLeavesEarly | zi/concurrency/barrier.hpp:52-73 | in every interleaving a thread that has left a round was preceded by all its arrivals, one of them told true and the others, once they leave, false |
| Barrier.StepInv | zi/concurrency/barrier.hpp:52-73 | every arrival and every wakeup keeps the round counts |
| VoxelCodec.MarkPacked | zi/watershed/basic_watershed.hpp:108-109 | setting a direction bit of a packed word is marking that direction, and changes nothing else |
| VoxelCodec.CountPacked | zi/watershed/basic_watershed.hpp:201 | setting the count-me bit is marking the voxel to be counted |
| VoxelCodec.VisitPacked | zi/watershed/basic_watershed.hpp:275 | setting the visited bit is marking the voxel as visited |
| VoxelCodec.TestsPacked | zi/watershed/basic_watershed.hpp:257 | the two tests that start a fill are those of the model: not visited, and something set |
| VoxelCodec.LabelBack | zi/watershed/basic_watershed.hpp:281-291 | a label below the visited bit comes back when that is cleared |
| VoxelCodec.ClearPacked | zi/watershed/basic_watershed.hpp:291 | clearing the visited bit in the end leaves the label, or zero |

## Left out

- DisjointSets.UnionFind.Join: asks for distinct roots or equal arguments, as its callers give; on other arguments the source makes no sense of its result.
- BipartiteMatching.HopcroftKarpMatching: asks for fewer left vertices than the marker for "unreached", 2^31 - 1, less one; the marks follow the sorted edges, not the input as given.
- StronglyConnected.TarjanStronglyConnected: asks for fewer vertices than that marker; the result is a map, since the order of the hash table is not modelled.
- TriMesh.Mesh.CollapseEdge: takes the ring of neighbours as a ghost argument; the branch that swaps the ends for a vertex on the border is never reached after the assertion that both are off it, and is not modelled.
- Simplifier.MeshSimplifier.Iterate: errors, positions and the two geometric tests are arbitrary; normals and quadrics are not part of this model.
- TriStripper.Stripper.Iteration: the branch for a queue value of zero is not modelled, since values in the queue are proved positive.
- FloodFill.InitialDomains: a voxel's word is a record of its bits; labels are assumed to stay below the visited bit.
- VoxelEdges.AddEdges: affinities are reals; that quickie overwrites those at the faces is not modelled, since nothing reads them afterwards (Watershed.OverwrittenUnread).
- TaskManager.Safety: one controller, atomic sections under the mutex; a pushed task is identified with its push.
- Barrier.NobodyLeavesEarly: the round number is unbounded.
- Liveness: nothing is said about a task or a thread being served in the end.
- Watershed.Basic: asks for at least two voxels along each axis, as does Watershed.Quickie; with fewer the slices read outside the volume.
- The queues of the stripper and the simplifier: priority queues with one entry to a key, since `binary_heap` itself is not part of this model.
- Priorities in the task queue, timers, logging, files, volumes on disk, drawing.
- `tri_mesh::resize` and `clear`; Hungarian matching, biconnected components, the cache, marching cubes, vectors.
- Absorbed regions in the dendrogram: their edges are dropped by the source, and by the model; quickie's final sort of the dendrogram is not modelled.
- Machine integers, other than the rank byte, the counter word of a vertex, and the codes above.
