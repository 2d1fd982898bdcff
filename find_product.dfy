// The single-product lookup tool: where a worker standing at some point
// picks a product from, and the walk there.
module FindProduct {
  import opened Geometry
  import Products

  /** A product record of the lookup tool: a slot with four side flags and
      no pseudo variant. */
  datatype Product = Product(id: int, pos: Point, l: bool, r: bool, u: bool, d: bool)

  /** The aisle node beside the slot on the worker's side: left of it when
      the worker stands at a smaller x, right of it otherwise. */
  function FindDest(src: Point, prod: Product): (dest: Point)
    ensures dest.y == prod.pos.y && Abs(dest.x - prod.pos.x) == 1
    ensures dest.x == prod.pos.x - 1 <==> src.x < prod.pos.x
    ensures dest != prod.pos
  {
    if src.x < prod.pos.x then Point(prod.pos.x - 1, prod.pos.y) else Point(prod.pos.x + 1, prod.pos.y)
  }

  /** The lookup tool picks the same aisle node as the route planner does
      for the same slot. */
  lemma FindDestAgrees(src: Point, prod: Product)
    ensures FindDest(src, prod) == Products.FindDest(src, Products.Slot(prod.id, prod.pos, prod.l, prod.r))
  {
  }

  /** A slot at odd coordinates, as the inventory reader places every slot,
      is approached from an aisle node. */
  lemma FindDestIsAisle(src: Point, prod: Product)
    requires prod.pos.x % 2 == 1
    ensures IsAisleNode(FindDest(src, prod))
  {
    var d := FindDest(src, prod);
    assert d.x == prod.pos.x - 1 || d.x == prod.pos.x + 1;
  }

  /** The turn points from src to the product's approach point and their
      length. The path is empty, of length 0, exactly when the worker already
      stands there; otherwise it runs from src to the approach point with 2
      points when no column change is needed, 4 when leaving a positive odd
      row, and 3 otherwise, and its length is the Manhattan distance, plus
      the two-step detour when leaving a positive odd row sideways to a
      point on that row. */
  method FindPath(src: Point, prod: Product) returns (path: Path, length: nat)
    ensures var dest := FindDest(src, prod);
      && (path == [] <==> src == dest)
      && (path != [] ==> path[0] == src && path[|path| - 1] == dest)
      && (path != [] ==> |path| == if src.x == dest.x then 2 else if OddRow(src.y) then 4 else 3)
      && length == PathLen(path) == Dist(src, dest)
      && length == Manhattan(src, dest) + (if OddRow(src.y) && src.y == dest.y && src.x != dest.x then 2 else 0)
  {
    var dest := FindDest(src, prod);
    path := Geometry.FindPath(src, dest);
    length := PathLength(path);
    DistFormula(src, dest);
  }
}
