// The warehouse floor as an integer grid: turn-point paths between two
// points, their length, and the distance they define.
module Geometry {

  datatype Point = Point(x: int, y: int)

  /** The turn points of one walk, both ends included; empty when there is no walk. */
  type Path = seq<Point>

  // Physical sizes of a shelf and of the aisles beside it, all 1.0 in the layout.
  const ShelfLength: nat := 1
  const ShelfWidth: nat := 1
  const PathWidthX: nat := 1
  const PathWidthY: nat := 1

  // One grid step costs half of shelf plus aisle along its axis: (1 + 1) / 2 == 1,
  // so every length below is a whole number.
  const StepX: nat := (ShelfLength + PathWidthX) / 2
  const StepY: nat := (ShelfWidth + PathWidthY) / 2

  // Bounds of the reference layout.
  const MaxX: int := 38
  const MaxY: int := 22

  function Abs(a: int): nat
  {
    if a < 0 then -a else a
  }

  /** Go's `%`: division truncates toward zero, so the remainder takes the
      sign of the dividend (Dafny's own `%` never goes negative). */
  function GoRem(a: int, b: int): (r: int)
    requires b > 0
    ensures a >= 0 ==> 0 <= r < b
    ensures a < 0 ==> -b < r <= 0
  {
    if a >= 0 then a % b else -((-a) % b)
  }

  /** The test `y%2 == 1` of the source: true exactly on positive odd rows. */
  predicate OddRow(y: int)
  {
    GoRem(y, 2) == 1
  }

  lemma OddRowIff(y: int)
    ensures OddRow(y) <==> y > 0 && y % 2 == 1
  {
    if y < 0 {
      assert GoRem(y, 2) <= 0;
    }
  }

  /** A point a worker can stand on: x·y is even. */
  predicate IsAisleNode(p: Point)
  {
    p.x % 2 == 0 || p.y % 2 == 0
  }

  predicate InGrid(p: Point)
  {
    0 <= p.x <= MaxX && 0 <= p.y <= MaxY
  }

  /** A node of the distance table: an aisle node inside the layout. */
  predicate GridNode(p: Point)
  {
    InGrid(p) && IsAisleNode(p)
  }

  /** The layout's test `i*j%2 == 0` on non-negative coordinates picks the aisle nodes. */
  lemma {:induction false} ProductEvenIff(i: int, j: int)
    requires i >= 0 && j >= 0
    ensures (i * j) % 2 == 0 <==> IsAisleNode(Point(i, j))
  {
    var a, b := i / 2, j / 2;
    var ri, rj := i % 2, j % 2;
    assert i == 2 * a + ri && j == 2 * b + rj;
    assert i * j == 2 * (2 * a * b + a * rj + b * ri) + ri * rj;
    if ri == 1 && rj == 1 {
      assert (i * j) % 2 == 1;
    } else {
      assert ri * rj == 0;
    }
  }

  /** The shelf at index (x, y) of the inventory file sits at (2x+1, 2y+1). */
  function CoordinateConverter(x: int, y: int): (r: (int, int))
    ensures r.0 % 2 == 1 && r.1 % 2 == 1
    ensures (r.0 - 1) / 2 == x && (r.1 - 1) / 2 == y
  {
    (2 * x + 1, 2 * y + 1)
  }

  /** Every move of a path runs along one axis. */
  predicate Rectilinear(p: Path)
  {
    forall i | 0 <= i < |p| - 1 :: p[i].x == p[i + 1].x || p[i].y == p[i + 1].y
  }

  /** Turn points from src to dest. Moving along a column needs no turn; to
      change column the worker crosses on an even row: src's own row when it
      is even, otherwise the neighbouring row toward dest. */
  function FindPath(src: Point, dest: Point): (p: Path)
    ensures p == [] <==> src == dest
    ensures p != [] ==> 2 <= |p| <= 4 && p[0] == src && p[|p| - 1] == dest
    ensures Rectilinear(p)
    ensures src.y >= 0 ==>
      forall i | 0 <= i < |p| - 1 && p[i].x != p[i + 1].x :: p[i].y % 2 == 0
  {
    if src == dest then []
    else if src.x == dest.x then [src, dest]
    else if OddRow(src.y) && src.y < dest.y then
      [src, Point(src.x, src.y + 1), Point(dest.x, src.y + 1), dest]
    else if OddRow(src.y) then
      [src, Point(src.x, src.y - 1), Point(dest.x, src.y - 1), dest]
    else
      [src, Point(dest.x, src.y), dest]
  }

  /** Cost of one straight move. */
  function Leg(a: Point, b: Point): (d: nat)
    ensures d == Abs(b.x - a.x) + Abs(b.y - a.y)
  {
    assert StepX == 1 && StepY == 1;
    Abs(b.x - a.x) * StepX + Abs(b.y - a.y) * StepY
  }

  /** Sum of the moves of a path; 0 for an empty or one-point path. */
  function PathLen(path: Path): nat
  {
    if |path| <= 1 then 0
    else PathLen(path[..|path| - 1]) + Leg(path[|path| - 2], path[|path| - 1])
  }

  /** PathLength accumulates the x and the y displacement separately. */
  method PathLength(path: Path) returns (length: nat)
    ensures length == PathLen(path)
  {
    if |path| < 1 {
      return 0;
    }
    var dx: nat, dy: nat := 0, 0;
    for i := 0 to |path| - 1
      invariant dx + dy == PathLen(path[..i + 1])
    {
      dx := dx + Abs(path[i + 1].x - path[i].x) * StepX;
      dy := dy + Abs(path[i + 1].y - path[i].y) * StepY;
      assert path[..i + 2][..i + 1] == path[..i + 1];
    }
    assert path[..|path|] == path;
    length := dx + dy;
  }

  /** The distance oracle: length of the path FindPath chooses. */
  function Dist(p: Point, q: Point): nat
  {
    PathLen(FindPath(p, q))
  }

  function Manhattan(p: Point, q: Point): nat
  {
    Abs(q.x - p.x) + Abs(q.y - p.y)
  }

  /** The walk is a shortest rectilinear one, except that leaving a positive
      odd row sideways to a point on that same row detours two steps through
      the neighbouring cross aisle. */
  lemma DistFormula(p: Point, q: Point)
    ensures Dist(p, q) == Manhattan(p, q) + (if OddRow(p.y) && p.y == q.y && p.x != q.x then 2 else 0)
  {
    var path := FindPath(p, q);
    if |path| == 2 {
      assert PathLen(path) == PathLen(path[..1]) + Leg(p, q);
      assert path[..1] == [p];
    } else if |path| == 3 {
      assert path[..2][..1] == [p];
      assert PathLen(path[..2]) == Leg(p, path[1]);
    } else if |path| == 4 {
      assert path[..3][..2][..1] == [p];
      assert path[..3][..2] == path[..2];
      assert PathLen(path[..2]) == Leg(p, path[1]);
      assert PathLen(path[..3]) == Leg(p, path[1]) + Leg(path[1], path[2]);
    }
  }

  /** Every path is at least as long as the Manhattan distance. */
  lemma DistAtLeastManhattan(p: Point, q: Point)
    ensures Dist(p, q) >= Manhattan(p, q)
    ensures p == q ==> Dist(p, q) == 0
    ensures p.x == q.x ==> Dist(p, q) == Abs(q.y - p.y)
  {
    DistFormula(p, q);
  }

  /** Walking back costs the same as walking there. */
  lemma DistSymmetric(p: Point, q: Point)
    ensures Dist(p, q) == Dist(q, p)
  {
    DistFormula(p, q);
    DistFormula(q, p);
  }

  /** No detour through a third point is shorter than the direct walk. */
  lemma DistTriangle(p: Point, q: Point, r: Point)
    ensures Dist(p, r) <= Dist(p, q) + Dist(q, r)
  {
    DistFormula(p, r);
    DistFormula(p, q);
    DistFormula(q, r);
  }

  /** Between two nodes of the layout, every turn point is again a node:
      the walk never enters a shelf and never leaves the grid. */
  lemma FindPathStaysOnGrid(src: Point, dest: Point)
    requires GridNode(src) && GridNode(dest)
    ensures forall i | 0 <= i < |FindPath(src, dest)| :: GridNode(FindPath(src, dest)[i])
  {
    OddRowIff(src.y);
  }
}
