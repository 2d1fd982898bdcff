# Warehouse picking routes, modelled in Dafny

The warehouse optimizer plans the walk of a picker through a rectangular
warehouse. Shelves sit at odd coordinates of a 39×23 grid and are reached
from the aisle nodes beside them. Between two aisle nodes the picker walks a
fixed rectilinear path of two to four turn points, and a nested distance
table holds the length of that path for every pair of aisle nodes. On top of
that table the optimizer does four things:

- it orders the items of one order:
  - by exhaustive search over all permutations;
  - by a greedy nearest-neighbour walk;
  - by a nearest-neighbour walk restarted from every item and every shelf side ("NNI");
- it prices every move between the start node, the end node and the items (the edge matrix);
- it merges small orders into batches by weight and item count, first fit, heaviest first;
- it splits an order that is too heavy into batches of items.

A separate single-product tool finds the aisle node from which a product is
picked and the walk there.

The modules follow the program:

| module | file | models |
|---|---|---|
| `Util` | util.dfy | sequence helpers: deletion at an index, first strict minimum, concatenation of groups |
| `Geometry` | geometry.dfy | points, Go's `%`, the grid, `FindPath`, `PathLength`, the distance they define |
| `PathTable` | path_table.dfy | `BuildPathInfo` and reads of the nested distance map |
| `Products` | products.dfy | product records (slot or pseudo node), the inventory reader's placement, `FindDest` |
| `Routes` | routes.dfy | `RouteLength` and the distance of a whole route |
| `BruteForce` | brute_force.dfy | `BruteForceOrderOptimizer` and the permutation enumeration it relies on |
| `Nearest` | nearest.dfy | `NearestNeighbourOrderOptimizer` and `nearestNeighborRing` |
| `Restarts` | nni.dfy | `NNIOrderOptimizer` |
| `Bounds` | bounds.dfy | `buildEdgeMatrix` |
| `Packing` | packing.dfy | the first-fit packing loop and the heaviest-first sort shared by merge and split |
| `MergeOrders` | merge_orders.dfy | `MergeOrders` |
| `SplitOrder` | split_order.dfy | `SplitOrder` |
| `FindProduct` | find_product.dfy | the single-product tool's `FindDest` and `FindPath` |

Each loop of the source is a Dafny method proved equal to a specification
function. The properties of that function are then proved as lemmas:
permutation, optimality, greediness, capacity, symmetry and the distance
formula. Lengths are distances on the grid. The source keeps them as
`float64`, but every step there moves a whole number of cells with factor
`(1.0 + 1.0) / 2`, so the model keeps them as natural numbers.

## Model

| member | source | states |
|---|---|---|
| Geometry.GoRem | warehouse/warehouse.go:405-408 | Go's remainder: in [0, b) for a non-negative dividend and in (-b, 0] for a negative one, unlike Dafny's `%` |
| Geometry.OddRowIff | warehouse/warehouse.go:405-408 | the test `src.Y%2 == 1` holds exactly on positive odd rows; negative odd rows fail it |
| Geometry.ProductEvenIff | warehouse/warehouse.go:111-113 | on non-negative coordinates the layout's test `i*j%2 == 0` holds exactly at aisle nodes |
| Geometry.CoordinateConverter | warehouse/warehouse.go:66-68 | shelf index (x, y) maps to odd coordinates, and the map is inverted by `(c-1)/2` |
| Geometry.FindPath | warehouse/warehouse.go:399-413 | the path is empty exactly when src = dest; otherwise it has 2 to 4 points from src to dest, every move runs along one axis, and on non-negative rows the column changes only on even rows |
| Geometry.PathLength | warehouse/warehouse.go:416-426 | the accumulated x and y displacements equal the sum of the straight moves of the path |
| Geometry.DistFormula | warehouse/warehouse.go:399-426 | the chosen walk is the Manhattan distance, plus 2 when leaving a positive odd row sideways to a point on that same row |
| Geometry.DistAtLeastManhattan | warehouse/warehouse.go:399-426 | every walk is at least the Manhattan distance; it is 0 at the same point and the vertical distance within a column |
| Geometry.DistSymmetric | warehouse/warehouse.go:399-426 | walking back costs the same as walking there |
| Geometry.DistTriangle | warehouse/warehouse.go:399-426 | no detour through a third point is shorter than the direct walk |
| Geometry.FindPathStaysOnGrid | warehouse/warehouse.go:399-413 | between two aisle nodes of the layout every turn point is again an aisle node of the layout |
| PathTable.BuildPathInfo | warehouse/warehouse.go:108-132 | the outer keys and the inner keys are exactly the aisle nodes of the 39×23 grid, and each entry is the length of FindPath between them |
| PathTable.BuildRow | warehouse/warehouse.go:117-127 | the inner map of one source node holds the path length to every aisle node and nothing else |
| PathTable.LookupIsDist | warehouse/warehouse.go:108-132 | a table read is the grid distance between aisle nodes, and Go's zero value off them |
| PathTable.LookupSymmetric | warehouse/warehouse.go:108-132 | the table reads the same in both directions |
| Products.ShelfProduct | warehouse/warehouse.go:70-73 | a parsed product is a slot with the given id, open on both sides, at odd coordinates |
| Products.ShelfApproachIsGridNode | warehouse/warehouse.go:98-102 | both approach points of a shelf inside the layout are aisle nodes of the distance table, in even columns |
| Products.FindDest | warehouse/warehouse.go:387-395 | a pseudo node is entered at its entry point; a slot is approached from the neighbouring cell of the same row, on the side the picker comes from |
| Products.FindDestWellPlaced | warehouse/warehouse.go:387-395 | a product whose sides are aisle nodes is always approached from an aisle node |
| Routes.RouteLength | warehouse/warehouse.go:371-384 | the loop's sum is the table distance start → first item → … → last item → end |
| Routes.RouteLenSingle | warehouse/warehouse.go:371-384 | a one-item route is the leg to its approach point plus the leg from there to the end |
| Routes.WalkAtLeastDirect | warehouse/warehouse.go:371-384 | no route between two aisle nodes is shorter than walking directly from start to end |
| Routes.OneShelfRoute | warehouse/warehouse.go:371-395 | an item on shelf index (2, 4), from and back to (0, 0), is picked at (4, 9), and the route is 26 long |
| Routes.OneShelfDistances | warehouse/warehouse.go:399-426 | the walks (0,0) → (4,9) and back are 13 long each |
| BruteForce.InsertAscending | warehouse/warehouse.go:224-225 | inserting into an ascending list keeps it ascending |
| BruteForce.SortInts | warehouse/warehouse.go:224-225 | sorting the ids keeps their length and their multiset |
| BruteForce.SortIntsAscending | warehouse/warehouse.go:224-225 | putting the order into its first permutation leaves it ascending |
| BruteForce.AscendingUnique | warehouse/warehouse.go:224-225 | two ascending lists with the same elements are equal, so any sort of the ids gives the same order |
| BruteForce.PermsFirst | warehouse/warehouse.go:225 | the enumeration starts with the sorted order itself |
| BruteForce.PermsSound | warehouse/warehouse.go:231-243 | every enumerated order is a permutation of the input |
| BruteForce.PermsComplete | warehouse/warehouse.go:231-243 | every permutation of the input is enumerated |
| BruteForce.PermsLength | warehouse/warehouse.go:231-243 | every enumerated order has the input's length |
| BruteForce.BruteForceOrderOptimizer | warehouse/warehouse.go:223-253 | the returned order and the caller's array both end up as the first shortest enumerated permutation |
| BruteForce.ScanPerms | warehouse/warehouse.go:231-243 | the scan finds the index of the first shortest permutation, and leaves the array at one of the enumerated orders |
| BruteForce.NextPerm | warehouse/warehouse.go:232-237 | one step moves the array to the next enumerated order and measures that order's route |
| BruteForce.Advance | warehouse/warehouse.go:245-252 | advancing from the first permutation minIndex times reaches the chosen one |
| BruteForce.SortBack | warehouse/warehouse.go:245-246 | re-sorting any enumerated order gives back the first permutation |
| BruteForce.Rearrange | warehouse/warehouse.go:224-252 | the array afterwards holds the requested permutation |
| BruteForce.BruteForcePermutation | warehouse/warehouse.go:223-253 | the result is a permutation of the order |
| BruteForce.BruteForceMinimal | warehouse/warehouse.go:223-253 | no permutation of the order gives a shorter route |
| Nearest.NearestNeighbourOrderOptimizer | warehouse/warehouse.go:256-279 | the returned order is the greedy nearest-neighbour order, and the caller's array is left holding the shifted residue of the in-place deletions |
| Nearest.NearestId | warehouse/warehouse.go:260-273 | the scan finds the first item strictly nearest to the current position, and its approach point |
| Nearest.DeleteAt | warehouse/warehouse.go:275 | deleting in place shifts the tail left in the shared array and leaves the last element duplicated |
| Nearest.NNStep | warehouse/warehouse.go:256-279 | one step of the loop picks the nearest item and continues from its approach point on the rest |
| Nearest.NNOrderPermutation | warehouse/warehouse.go:256-279 | the nearest-neighbour order is a permutation of the input |
| Nearest.NNOrderIsGreedy | warehouse/warehouse.go:260-276 | its first item is the first strictly nearest one, and the rest is the greedy order of what is left, from that item |
| Nearest.NNResidueFromInput | warehouse/warehouse.go:275 | the caller's array afterwards holds only ids of the input, and its last id is unchanged |
| Nearest.NNResidueClobbers | warehouse/warehouse.go:275 | for an order [a, b] with a nearer, the caller's array becomes [b, b], which is no longer a permutation of the order |
| Nearest.NearestNeighbourOrderCopy | warehouse/warehouse.go:256-279 | working on a copy gives the same greedy order, leaves the caller's array alone, and returns a permutation |
| Nearest.NearestNeighborRing | warehouse/warehouse.go:329-368 | the result is the ids of the greedy ring through the products, cut open at the pseudo node |
| Nearest.NearestProd | warehouse/warehouse.go:333-350 | the scan finds the first product strictly nearest to the current position, and the point the walk leaves it from |
| Nearest.CutAndLabel | warehouse/warehouse.go:355-366 | the ring is rotated to start after the pseudo node and drops it, and the products are replaced by their ids |
| Nearest.FirstPseudoSpec | warehouse/warehouse.go:355-360 | the cut point is the first pseudo node, or 0 when there is none |
| Nearest.CutRingDropsOne | warehouse/warehouse.go:355-362 | cutting the ring removes exactly the node at the cut point |
| Nearest.RingGreedyPermutation | warehouse/warehouse.go:333-354 | the greedy ring is a permutation of the products |
| Nearest.RingGreedyIsGreedy | warehouse/warehouse.go:333-354 | its first product is the first strictly nearest one, and the rest is the greedy ring of what is left |
| Nearest.RingProdsDropsPseudo | warehouse/warehouse.go:329-362 | with exactly one pseudo node among slots, the cut ring holds every product except the pseudo node |
| Nearest.IdsPermutation | warehouse/warehouse.go:363-366 | permuted products give permuted ids |
| Restarts.PseudoProd | warehouse/warehouse.go:284 | the pseudo node is entered at the end point and left from the start point |
| Restarts.NNIProds | warehouse/warehouse.go:284-294 | the product list is the pseudo node followed by one product per item |
| Restarts.Candidates | warehouse/warehouse.go:295-325 | the first iter rounds yield at least one restart each, all from those indexes |
| Restarts.KeepFirstShortest | warehouse/warehouse.go:311-323 | keeping strictly shorter proposals keeps the first shortest one |
| Restarts.NNIOrderOptimizer | warehouse/warehouse.go:283-327 | the loop returns the order its specification keeps: the first strictly shorter proposal over the restarts from the first iter products, from the pseudo node's exit point or from both sides of a slot |
| Restarts.BuildProds | warehouse/warehouse.go:291-294 | the appending loop builds the pseudo node followed by the product of every id |
| Restarts.RestartLoop | warehouse/warehouse.go:295-325 | after the rounds, every restart of the first iter products is recorded in order and the kept order is the first shortest of them |
| Restarts.NNIOrderKept | warehouse/warehouse.go:295-326 | the specification's order is the one kept from the proposals in the order they are tried |
| Restarts.Round | warehouse/warehouse.go:296-324 | one round records the restarts of one product and keeps the first shortest proposal so far |
| Restarts.TrySides | warehouse/warehouse.go:309-323 | the slot branch records the restart from the left side, then from the right side, keeping the first shortest |
| Restarts.TryRestart | warehouse/warehouse.go:301-323 | one restart records its proposal and keeps the first shortest so far |
| Restarts.NNIProdsShape | warehouse/warehouse.go:284-294 | the list holds the pseudo node exactly once, slots otherwise, and the order's ids after it |
| Restarts.RestartDropsPseudo | warehouse/warehouse.go:301-323 | each restart's ring holds every product except the pseudo node |
| Restarts.CandidatePermutation | warehouse/warehouse.go:301-323 | each restart proposes a permutation of the order |
| Restarts.NNIFirstShortest | warehouse/warehouse.go:283-327 | the result is the first strictly shortest among all restarts tried |
| Restarts.NNIPermutation | warehouse/warehouse.go:283-327 | the result is a permutation of the order |
| Bounds.EdgeNodes | warehouse/bounds.go:9-15 | the nodes are the start, the end when it differs, then the product of each id in order |
| Bounds.EdgeCost | warehouse/bounds.go:23-34 | an entry is infinite exactly on the diagonal |
| Bounds.BuildEdgeMatrix | warehouse/bounds.go:8-38 | the matrix is square over the nodes, and cell [j, i] holds the cost of the move from node i to node j |
| Bounds.FillRow | warehouse/bounds.go:22-34 | the inner loop sets the cost of reaching node j from every node and changes no other row |
| Bounds.EdgeCostIsDist | warehouse/bounds.go:23-31 | with the table BuildPathInfo builds, an off-diagonal entry is the grid distance between departure and target, hence at least their Manhattan distance |
| Bounds.EdgeEndpointsSwap | warehouse/bounds.go:24-29 | when no two slots stand in neighbouring columns, the move back uses the same two points swapped |
| Bounds.EdgeMatrixSymmetric | warehouse/bounds.go:21-35 | on such nodes the matrix reads the same in both directions |
| Bounds.InventoryNodesSpaced | warehouse/bounds.go:9-15 | orders of inventory slots, all at odd columns, give such nodes |
| Bounds.RouteFirstEdge | warehouse/bounds.go:23-31 | the edge from the start node to the first item is the first leg of the route |
| Bounds.OneItemTour | warehouse/bounds.go:21-35 | with start = end, a one-slot route is the edge out plus the edge back |
| Packing.FirstFitFrom | warehouse/mergeOrders.go:59-67 | the chosen batch is the first that fits, every earlier one does not fit, and no batch fitting means a new one |
| Packing.Pack | warehouse/mergeOrders.go:52-76 | every unit is assigned to exactly one batch and batch loads stay in step with the batches |
| Packing.PackTracks | warehouse/mergeOrders.go:56-74 | each batch is the concatenation of its units in input order, and its load is their total weight |
| Packing.PackPermutation | warehouse/mergeOrders.go:56-74 | the batches together hold exactly the items of the units |
| Packing.PackCapacity | warehouse/mergeOrders.go:61 | a batch holding two or more non-empty units is within the weight limit and the item cap; an empty batch holds only empty units |
| Packing.PackCount | warehouse/mergeOrders.go:53-73 | there are at most as many batches as units (one for no units), and every batch receives a unit |
| Packing.PackPrefix | warehouse/mergeOrders.go:57-74 | later units never move earlier ones |
| Packing.PackFirstFit | warehouse/mergeOrders.go:59-72 | each unit goes to the first batch that fits when it arrives, or to a new batch |
| Packing.SortByWeightReverse | warehouse/mergeOrders.go:15-22 | the array ends heaviest first and is a permutation of what it held |
| Packing.SinkLeft | warehouse/mergeOrders.go:15-22 | one insertion step extends the sorted prefix and permutes the array |
| Packing.FindFit | warehouse/mergeOrders.go:59-67 | the inner loop finds the first fitting batch |
| Packing.PackUnits | warehouse/mergeOrders.go:53-75 | the loop builds exactly the batches of the first-fit specification |
| MergeOrders.MergeOrders | warehouse/mergeOrders.go:52-76 | the caller's orders end sorted heaviest first and permuted, and the batches are first fit with cap 15 items |
| MergeOrders.MergePermutation | warehouse/mergeOrders.go:52-76 | the merged batches hold exactly the items of the orders |
| MergeOrders.MergeCapacity | warehouse/mergeOrders.go:8-61 | a batch's load is its orders' total weight; a batch of two or more non-empty orders weighs at most max and holds at most 15 items |
| SplitOrder.Singletons | warehouse/splitOrder.go:56 | each item becomes a unit of its own |
| SplitOrder.SplitOrder | warehouse/splitOrder.go:48-75 | a light order comes back whole and untouched; a heavy one is sorted heaviest item first in place and split first fit with no item cap |
| SplitOrder.ConcatSingletons | warehouse/splitOrder.go:56-73 | the singleton units together are the order |
| SplitOrder.SplitPermutation | warehouse/splitOrder.go:56-73 | the split batches hold exactly the items of the order |
| SplitOrder.SplitBins | warehouse/splitOrder.go:56-73 | each batch's load is its items' weight; a batch of two or more items weighs at most max; a non-empty order gives at most one batch per item and no empty batch |
| FindProduct.FindDest | find_product.go:157-162 | the approach point is the neighbouring cell of the same row, left of the slot exactly when the worker stands at a smaller x |
| FindProduct.FindDestAgrees | find_product.go:157-162 | the tool picks the same approach point as the route planner |
| FindProduct.FindDestIsAisle | find_product.go:157-162 | for a slot in an odd column the approach point is an aisle node |
| FindProduct.FindPath | find_product.go:166-181 | the path is empty exactly when the worker is there; it runs from the worker to the approach point with 2, 4 or 3 points by case, and its length is the Manhattan distance, plus 2 when leaving a positive odd row sideways on that row |
| Util.RemoveAtMultiset | warehouse/warehouse.go:275 | removing an index removes exactly that element |
| Util.ArgMinFirstIsFirstMin | warehouse/warehouse.go:239 | the chosen index holds the least value and no earlier index holds it, because the comparisons are strict |
| Util.ArgMinFirstSnoc | warehouse/warehouse.go:239-241 | a new value replaces the minimum only when strictly smaller |

## Left out

- Reading and writing: `ReadCSV`, the text parsing of `ParseProductInfo`, `ParesOrderInfo`, `ReadOrder`, `ReadInput`, `ReadString`, `main`, `Route2String`, the `String` methods and `Order2csv`. The model starts from parsed ids and shelf indexes, because files and the console cannot be modelled.
- `orderDeepCopy` (warehouse/warehouse.go:214-220): nothing in the core calls it.
- Floating point: distances are natural numbers, because every step of `PathLength` is a whole cell times 1.0. Weights are natural numbers, and the comparison against `max` is exact. Rounding and NaN are not modelled.
- `math.Inf(1)` is the `Inf` case of a `Cost` datatype rather than a float.
- `OrderWeight` and the product weight field are not among the modelled files. They are parameters: `orderWeight` for an order, `itemWeight` for one item.
- The permutation functions of the `mathutil` library are not part of this model. Their effect is modelled instead: `Perms` enumerates the distinct permutations of the sorted ids in lexicographic order, and `Rearrange` puts an array into a given permutation.
- BruteForce.BruteForceOrderOptimizer: requires a non-empty order, because the source computes a route length from `o[0]` and fails on an empty one.
- Routes.RouteLength: requires a non-empty order for the same reason.
- Restarts.NNIOrderOptimizer: requires an iteration count of at most one more than the order's length, because the source indexes past its product list otherwise. With an empty order the count must be at most 0, because the source then computes the length of an empty route.
- MergeOrders.MergeOrders: `sort.Sort` is not stable, while the model sorts with a stable insertion sort. Orders of equal weight may therefore reach the packing loop in a different order than in the source. The permutation and capacity lemmas hold for every arrangement of the orders.
- SplitOrder.SplitOrder: the same holds for items of equal weight.
- Packing.PackCapacity: states the limits only for batches holding two or more non-empty units. The source always accepts a unit into an empty batch, so a batch can hold one oversized order, or that order together with empty orders. The source's comment promises every batch within `max`; the code does not keep that promise, and the model follows the code.
- The side flags `u` and `d` of a product are never read by the core, so the planner's product record leaves them out.
- The unused `path` argument of `BuildPathInfo` is dropped.
- `buildEdgeMatrix` returns a Go slice of slices; the model returns a two-dimensional array.
- The branch-and-bound solver that consumes the edge matrix (warehouse/branch&bound.go) is not part of this model.

## Findings

| source | as written | input that shows it | evidently intended | confidence | as-written member | corrected member |
|---|---|---|---|---|---|---|
| warehouse/warehouse.go:275 | The chosen id is deleted by appending the tail of the slice onto its head, in place. This shifts the caller's backing array, so the caller's order is overwritten. | the order [a, b], with a nearer to the start than b: the result is [a, b], and the caller's order now reads [b, b] | the caller's order is left intact, or at least stays a permutation of itself | not executed | Nearest.NNResidueClobbers | Nearest.NearestNeighbourOrderCopy |
