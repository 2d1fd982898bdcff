// Length of a whole picking route: start, the approach point of every item
// in order, end.
module Routes {
  import opened Geometry
  import opened PathTable
  import opened Products

  /** A route length, or the +Inf the source starts its minimum searches from
      and puts on the diagonal of the edge matrix. */
  datatype Cost = Inf | Fin(value: nat)

  predicate Less(a: Cost, b: Cost)
  {
    a.Fin? && (b.Inf? || a.value < b.value)
  }

  /** Table distance of walking from `from` to the approach point of each id
      in turn, each approach point resolved from the previous one, and then
      on to `end`. */
  function Walk(o: seq<int>, from: Point, end: Point, m: map<int, Product>, t: Table): nat
    decreases |o|
  {
    if o == [] then Lookup(t, from, end)
    else
      var a := FindDest(from, ProductOf(m, o[0]));
      Lookup(t, from, a) + Walk(o[1..], a, end, m, t)
  }

  /** The route length of a non-empty order (the source indexes o[0]). */
  function RouteLen(o: seq<int>, start: Point, end: Point, m: map<int, Product>, t: Table): nat
    requires |o| > 0
  {
    Walk(o, start, end, m, t)
  }

  /** Chains the legs start → first approach point → … → last approach point → end. */
  method RouteLength(o: seq<int>, start: Point, end: Point, m: map<int, Product>, t: Table)
    returns (length: nat)
    requires |o| > 0
    ensures length == RouteLen(o, start, end, m, t)
  {
    length := 0;
    var prevPos: Point;
    var pos := FindDest(start, ProductOf(m, o[0]));
    prevPos := pos;
    length := length + Lookup(t, start, pos);
    for i := 0 to |o| - 1
      invariant length + Walk(o[i + 1..], pos, end, m, t) == Walk(o, start, end, m, t)
    {
      prevPos := pos;
      pos := FindDest(prevPos, ProductOf(m, o[i + 1]));
      length := length + Lookup(t, prevPos, pos);
      assert o[i + 1..][1..] == o[i + 2..];
    }
    length := length + Lookup(t, pos, end);
  }

  /** A one-item route is the walk to its approach point and back out to end. */
  lemma RouteLenSingle(id: int, start: Point, end: Point, m: map<int, Product>, t: Table)
    ensures var a := FindDest(start, ProductOf(m, id));
      RouteLen([id], start, end, m, t) == Lookup(t, start, a) + Lookup(t, a, end)
  {
    var a := FindDest(start, ProductOf(m, id));
    assert [id][1..] == [];
    assert Walk([], a, end, m, t) == Lookup(t, a, end);
    assert Walk([id], start, end, m, t) == Lookup(t, start, a) + Walk([], a, end, m, t);
  }

  /** Every id of the order names a product whose approach points are table nodes. */
  predicate AllWellPlaced(o: seq<int>, m: map<int, Product>)
  {
    forall k | 0 <= k < |o| :: WellPlaced(ProductOf(m, o[k]))
  }

  /** With the table BuildPathInfo builds, no route is shorter than walking
      from start straight to end. */
  lemma {:induction false} WalkAtLeastDirect(o: seq<int>, from: Point, end: Point, m: map<int, Product>, t: Table)
    requires ValidTable(t) && GridNode(from) && GridNode(end) && AllWellPlaced(o, m)
    ensures Walk(o, from, end, m, t) >= Dist(from, end)
    decreases |o|
  {
    LookupIsDist(t, from, end);
    if o != [] {
      var a := FindDest(from, ProductOf(m, o[0]));
      FindDestWellPlaced(from, ProductOf(m, o[0]));
      LookupIsDist(t, from, a);
      assert AllWellPlaced(o[1..], m) by {
        forall k | 0 <= k < |o[1..]| ensures WellPlaced(ProductOf(m, o[1..][k])) {
          assert o[1..][k] == o[k + 1];
        }
      }
      WalkAtLeastDirect(o[1..], a, end, m, t);
      DistTriangle(from, a, end);
    }
  }

  /** The concrete layout check: one product on shelf (2, 4), start and end at
      the origin. The slot sits at (5, 9), is approached from (4, 9), and the
      route is 13 steps there and 13 back. */
  lemma {:induction false} OneShelfRoute(t: Table, m: map<int, Product>, id: int)
    requires ValidTable(t) && id in m && m[id] == ShelfProduct(id, 2, 4)
    ensures FindDest(Point(0, 0), m[id]) == Point(4, 9)
    ensures RouteLen([id], Point(0, 0), Point(0, 0), m, t) == 26
  {
    var o, a := Point(0, 0), Point(4, 9);
    assert m[id].pos == Point(5, 9);
    assert FindDest(o, m[id]) == a;
    RouteLenSingle(id, o, o, m, t);
    assert GridNode(o) && GridNode(a);
    LookupIsDist(t, o, a);
    LookupIsDist(t, a, o);
    OneShelfDistances();
  }

  lemma OneShelfDistances()
    ensures Dist(Point(0, 0), Point(4, 9)) == 13
    ensures Dist(Point(4, 9), Point(0, 0)) == 13
  {
    DistFormula(Point(0, 0), Point(4, 9));
    DistFormula(Point(4, 9), Point(0, 0));
  }
}
