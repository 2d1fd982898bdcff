// The edge matrix over the start node, the end node and the items of an
// order: the cost of moving between every ordered pair of them.
module Bounds {
  import opened Geometry
  import opened PathTable
  import opened Products
  import opened Routes

  /** The pseudo node the matrix builds for a location: placed and entered
      there; its exit point keeps Go's zero value. */
  function LocationNode(p: Point): (r: Product)
    ensures r.Pseudo? && r.pos == p && r.pseudoIn == p
  {
    Pseudo(0, p, p, Point(0, 0))
  }

  /** Where the items start in the node list: after the start node, and
      after the end node when it is a separate location. */
  function ItemOffset(start: Point, end: Point): nat
  {
    if start == end then 1 else 2
  }

  /** The matrix's nodes: start, then end when it differs from start, then
      the product of every id of the order. */
  function EdgeNodes(o: seq<int>, start: Point, end: Point, m: map<int, Product>): (r: seq<Product>)
    ensures |r| == |o| + ItemOffset(start, end)
    ensures r[0] == LocationNode(start)
    ensures start != end ==> r[1] == LocationNode(end)
    ensures forall k | 0 <= k < |o| :: r[ItemOffset(start, end) + k] == ProductOf(m, o[k])
  {
    [LocationNode(start)] + (if start != end then [LocationNode(end)] else []) + Prods(o, m)
  }

  /** The point a move from node i to node j arrives at: the approach point
      of j seen from i's position. */
  function Target(prods: seq<Product>, i: nat, j: nat): Point
    requires i < |prods| && j < |prods|
  {
    FindDest(prods[i].pos, prods[j])
  }

  /** The point a move from node i to node j leaves from: a pseudo node's
      own position, or the side of i's shelf that faces the target. */
  function Departure(prods: seq<Product>, i: nat, j: nat): Point
    requires i < |prods| && j < |prods|
  {
    if prods[i].Pseudo? then prods[i].pos else FindDest(Target(prods, i, j), prods[i])
  }

  /** The cost of moving from node i to node j: infinite on the diagonal,
      a table read everywhere else. */
  function EdgeCost(prods: seq<Product>, i: nat, j: nat, t: Table): (c: Cost)
    requires i < |prods| && j < |prods|
    ensures c.Inf? <==> i == j
  {
    if i == j then Inf else Fin(Lookup(t, Departure(prods, i, j), Target(prods, i, j)))
  }

  /** Builds the node list, then fills the square matrix column by column;
      the matrix is transposed, so cell [j, i] holds the move from i to j. */
  method BuildEdgeMatrix(o: seq<int>, start: Point, end: Point, m: map<int, Product>, t: Table)
    returns (matrix: array2<Cost>)
    ensures fresh(matrix)
    ensures matrix.Length0 == matrix.Length1 == |EdgeNodes(o, start, end, m)|
    ensures forall j, i | 0 <= j < matrix.Length0 && 0 <= i < matrix.Length1 ::
      matrix[j, i] == EdgeCost(EdgeNodes(o, start, end, m), i, j, t)
  {
    var prods := [LocationNode(start)];
    if start != end {
      prods := prods + [LocationNode(end)];
    }
    ghost var head := prods;
    for k := 0 to |o|
      invariant prods == head + Prods(o[..k], m)
    {
      assert Prods(o[..k + 1], m) == Prods(o[..k], m) + [ProductOf(m, o[k])];
      prods := prods + [ProductOf(m, o[k])];
    }
    assert o[..|o|] == o;
    var n := |prods|;
    matrix := new Cost[n, n];
    for j := 0 to n
      invariant forall j', i | 0 <= j' < j && 0 <= i < n :: matrix[j', i] == EdgeCost(prods, i, j', t)
    {
      FillRow(matrix, prods, j, t);
    }
  }

  /** The inner loop: the costs of reaching node j from every node. */
  method FillRow(matrix: array2<Cost>, prods: seq<Product>, j: nat, t: Table)
    requires matrix.Length0 == matrix.Length1 == |prods| && j < |prods|
    modifies matrix
    ensures forall i | 0 <= i < |prods| :: matrix[j, i] == EdgeCost(prods, i, j, t)
    ensures forall j', i | 0 <= j' < |prods| && j' != j && 0 <= i < |prods| :: matrix[j', i] == old(matrix[j', i])
  {
    var n := |prods|;
    for i := 0 to n
      invariant forall i' | 0 <= i' < i :: matrix[j, i'] == EdgeCost(prods, i', j, t)
      invariant forall j', i' | 0 <= j' < n && j' != j && 0 <= i' < n :: matrix[j', i'] == old(matrix[j', i'])
    {
      if i != j {
        var src := prods[i].pos;
        var dest := FindDest(src, prods[j]);
        if !prods[i].Pseudo? {
          src := FindDest(dest, prods[i]);
        }
        matrix[j, i] := Fin(Lookup(t, src, dest));
      } else {
        matrix[j, i] := Inf;
      }
    }
  }

  /** Nodes whose edges the distance table can price: locations on the
      grid, entered at their own position, and slots whose both sides are
      aisle nodes. */
  predicate OnGrid(prods: seq<Product>)
  {
    forall k | 0 <= k < |prods| ::
      if prods[k].Pseudo? then prods[k].pseudoIn == prods[k].pos && GridNode(prods[k].pos)
      else WellPlaced(prods[k])
  }

  /** With the table BuildPathInfo builds, every off-diagonal entry is the
      grid distance from the departure point to the target point, and so at
      least their Manhattan distance. */
  lemma EdgeCostIsDist(prods: seq<Product>, i: nat, j: nat, t: Table)
    requires ValidTable(t) && OnGrid(prods)
    requires i < |prods| && j < |prods| && i != j
    ensures EdgeCost(prods, i, j, t).value == Dist(Departure(prods, i, j), Target(prods, i, j))
    ensures EdgeCost(prods, i, j, t).value >= Manhattan(Departure(prods, i, j), Target(prods, i, j))
  {
    var src, dest := Departure(prods, i, j), Target(prods, i, j);
    assert GridNode(dest) by {
      if prods[j].Slot? {
        FindDestWellPlaced(prods[i].pos, prods[j]);
      }
    }
    assert GridNode(src) by {
      if prods[i].Slot? {
        FindDestWellPlaced(dest, prods[i]);
      }
    }
    LookupIsDist(t, src, dest);
    DistAtLeastManhattan(src, dest);
  }

  /** Node lists on which the matrix is symmetric: locations are entered at
      their own position, and no two slots stand in neighbouring columns
      (slots read from the inventory all have odd x). */
  predicate Spaced(prods: seq<Product>)
  {
    && (forall k | 0 <= k < |prods| && prods[k].Pseudo? :: prods[k].pseudoIn == prods[k].pos)
    && (forall k, l | 0 <= k < |prods| && 0 <= l < |prods| && prods[k].Slot? && prods[l].Slot? ::
          Abs(prods[k].pos.x - prods[l].pos.x) != 1)
  }

  /** A move from i to j and the move back use the same two points,
      swapped. */
  lemma EdgeEndpointsSwap(prods: seq<Product>, i: nat, j: nat)
    requires Spaced(prods) && i < |prods| && j < |prods|
    ensures Departure(prods, i, j) == Target(prods, j, i)
    ensures Target(prods, i, j) == Departure(prods, j, i)
  {
    if prods[i].Slot? && prods[j].Slot? {
      assert Abs(prods[i].pos.x - prods[j].pos.x) != 1;
    }
  }

  /** On such node lists the matrix reads the same in both directions. */
  lemma EdgeMatrixSymmetric(prods: seq<Product>, i: nat, j: nat, t: Table)
    requires ValidTable(t) && Spaced(prods) && i < |prods| && j < |prods|
    ensures EdgeCost(prods, i, j, t) == EdgeCost(prods, j, i, t)
  {
    EdgeEndpointsSwap(prods, i, j);
    LookupSymmetric(t, Departure(prods, i, j), Target(prods, i, j));
  }

  /** Orders whose ids are all in an inventory of odd-column slots, as the
      inventory reader places them, give node lists of that kind. */
  lemma InventoryNodesSpaced(o: seq<int>, start: Point, end: Point, m: map<int, Product>)
    requires forall id | id in m :: m[id].Slot? && m[id].pos.x % 2 == 1
    requires forall k | 0 <= k < |o| :: o[k] in m
    ensures Spaced(EdgeNodes(o, start, end, m))
  {
    var nodes := EdgeNodes(o, start, end, m);
    var off := ItemOffset(start, end);
    forall k | 0 <= k < |nodes| && nodes[k].Slot? ensures nodes[k].pos.x % 2 == 1 {
      assert k >= off;
      assert nodes[off + (k - off)] == ProductOf(m, o[k - off]);
    }
  }

  /** The edge from the start node to an item is the first leg of every
      route that picks that item first. */
  lemma RouteFirstEdge(o: seq<int>, start: Point, end: Point, m: map<int, Product>, t: Table)
    requires |o| > 0
    ensures var nodes := EdgeNodes(o, start, end, m);
      var a := FindDest(start, ProductOf(m, o[0]));
      Walk(o, start, end, m, t) == EdgeCost(nodes, 0, ItemOffset(start, end), t).value + Walk(o[1..], a, end, m, t)
  {
    var nodes := EdgeNodes(o, start, end, m);
    assert nodes[ItemOffset(start, end) + 0] == ProductOf(m, o[0]);
  }

  /** When start and end coincide, a one-slot route is exactly the edge out
      to the item plus the edge back. */
  lemma OneItemTour(id: int, start: Point, m: map<int, Product>, t: Table)
    requires ProductOf(m, id).Slot?
    ensures var nodes := EdgeNodes([id], start, start, m);
      RouteLen([id], start, start, m, t) == EdgeCost(nodes, 0, 1, t).value + EdgeCost(nodes, 1, 0, t).value
  {
    var nodes := EdgeNodes([id], start, start, m);
    assert nodes[1 + 0] == ProductOf(m, id);
    RouteLenSingle(id, start, start, m, t);
  }
}
