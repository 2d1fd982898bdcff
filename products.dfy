// Storage slots and the start/end pseudo nodes, and the choice of the aisle
// node from which a slot is picked.
module Products {
  import opened Geometry

  /** A product slot, or a pseudo node standing for the worker's start or end
      location. A pseudo node is entered at `pseudoIn` and left from
      `pseudoOut`; `pos` is only read by the edge matrix. The side flags `l`
      and `r` are set for every slot but never consulted. */
  datatype Product =
    | Slot(id: int, pos: Point, l: bool, r: bool)
    | Pseudo(id: int, pos: Point, pseudoIn: Point, pseudoOut: Point)

  /** Go's zero Product: what reading an unknown id from the product map gives. */
  const ZeroProduct: Product := Slot(0, Point(0, 0), false, false)

  function ProductOf(m: map<int, Product>, id: int): Product
  {
    if id in m then m[id] else ZeroProduct
  }

  /** The products of the listed ids, in order. */
  function Prods(o: seq<int>, m: map<int, Product>): seq<Product>
  {
    seq(|o|, k requires 0 <= k < |o| => ProductOf(m, o[k]))
  }

  /** The record the inventory reader builds for shelf index (x, y): the slot
      sits at the converted coordinate and is open on both sides. */
  function ShelfProduct(id: int, x: int, y: int): (p: Product)
    ensures p.Slot? && p.id == id && p.l && p.r
    ensures p.pos.x % 2 == 1 && p.pos.y % 2 == 1
  {
    var c := CoordinateConverter(x, y);
    Slot(id, Point(c.0, c.1), true, true)
  }

  /** The approach point: a pseudo node's entry point wherever the worker
      comes from; for a slot, the aisle node left of it when the worker comes
      from a smaller x, the one right of it otherwise. */
  function FindDest(src: Point, prod: Product): (d: Point)
    ensures prod.Pseudo? ==> d == prod.pseudoIn
    ensures prod.Slot? ==> d.y == prod.pos.y && Abs(d.x - prod.pos.x) == 1
    ensures prod.Slot? ==> (d.x < prod.pos.x <==> src.x < prod.pos.x)
  {
    match prod
    case Pseudo(_, _, pseudoIn, _) => pseudoIn
    case Slot(_, pos, _, _) =>
      if src.x < pos.x then Point(pos.x - 1, pos.y) else Point(pos.x + 1, pos.y)
  }

  /** Both sides of a slot read from the inventory are aisle nodes, and they
      lie in the layout when the shelf index does: FindDest never sends the
      worker into a shelf or outside the grid. */
  lemma {:induction false} ShelfApproachIsGridNode(src: Point, id: int, x: int, y: int)
    requires 0 <= x <= (MaxX - 2) / 2 && 0 <= y <= (MaxY - 1) / 2
    ensures GridNode(FindDest(src, ShelfProduct(id, x, y)))
    ensures FindDest(src, ShelfProduct(id, x, y)).x % 2 == 0
  {
    var p := ShelfProduct(id, x, y);
    assert p.pos == Point(2 * x + 1, 2 * y + 1);
  }

  /** A product every approach point of which is a node of the distance
      table, from whichever side it is approached. */
  predicate WellPlaced(prod: Product)
  {
    match prod
    case Pseudo(_, _, pseudoIn, pseudoOut) => GridNode(pseudoIn) && GridNode(pseudoOut)
    case Slot(_, pos, _, _) =>
      GridNode(Point(pos.x - 1, pos.y)) && GridNode(Point(pos.x + 1, pos.y))
  }

  lemma FindDestWellPlaced(src: Point, prod: Product)
    requires WellPlaced(prod)
    ensures GridNode(FindDest(src, prod))
  {
  }
}
