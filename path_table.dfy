// The precomputed all-pairs distance table over the aisle nodes of the layout.
module PathTable {
  import opened Geometry

  /** pathInfo[src][dest]: nested maps, as the source keeps them. */
  type Table = map<Point, map<Point, nat>>

  /** A read of `pathInfo[src][dest]`: a missing key at either level reads as
      Go's zero value. */
  function Lookup(t: Table, src: Point, dest: Point): nat
  {
    if src in t && dest in t[src] then t[src][dest] else 0
  }

  /** The inner map built for one source node. */
  ghost predicate CompleteRow(src: Point, row: map<Point, nat>)
  {
    && (forall q :: q in row <==> GridNode(q))
    && (forall q | q in row :: row[q] == Dist(src, q))
  }

  /** Exactly the table BuildPathInfo produces. */
  ghost predicate ValidTable(t: Table)
  {
    && (forall p :: p in t <==> GridNode(p))
    && (forall p | p in t :: CompleteRow(p, t[p]))
  }

  /** Points of the grid already visited by a column-major scan that has
      reached column i, row j. */
  predicate Scanned(d: Point, i: int, j: int)
  {
    d.x < i || (d.x == i && d.y < j)
  }

  /** Fills the table row by row: for every aisle node (i, j) of the 39×23
      grid, a map from every aisle node (p, q) to the length of FindPath's
      path between them. */
  method BuildPathInfo() returns (m: Table)
    ensures forall p :: p in m <==> GridNode(p)
    ensures forall p, q | p in m :: q in m[p] <==> GridNode(q)
    ensures forall p, q | p in m && q in m[p] :: m[p][q] == PathLen(FindPath(p, q))
  {
    m := map[];
    for i := 0 to MaxX + 1
      invariant forall p :: p in m <==> GridNode(p) && Scanned(p, i, 0)
      invariant forall p | p in m :: CompleteRow(p, m[p])
    {
      for j := 0 to MaxY + 1
        invariant forall p :: p in m <==> GridNode(p) && Scanned(p, i, j)
        invariant forall p | p in m :: CompleteRow(p, m[p])
      {
        ProductEvenIff(i, j);
        if i * j % 2 == 0 {
          var src := Point(i, j);
          var m2 := BuildRow(src);
          m := m[src := m2];
        }
      }
    }
  }

  /** The two inner loops of BuildPathInfo: the distances from one source node. */
  method BuildRow(src: Point) returns (m2: map<Point, nat>)
    ensures CompleteRow(src, m2)
  {
    m2 := map[];
    for p := 0 to MaxX + 1
      invariant forall d :: d in m2 <==> GridNode(d) && Scanned(d, p, 0)
      invariant forall d | d in m2 :: m2[d] == Dist(src, d)
    {
      for q := 0 to MaxY + 1
        invariant forall d :: d in m2 <==> GridNode(d) && Scanned(d, p, q)
        invariant forall d | d in m2 :: m2[d] == Dist(src, d)
      {
        ProductEvenIff(p, q);
        if p * q % 2 == 0 {
          var dest := Point(p, q);
          var length := PathLength(FindPath(src, dest));
          m2 := m2[dest := length];
        }
      }
    }
  }

  /** On nodes of the layout a table read is the distance oracle; off them it
      is Go's zero value. */
  lemma LookupIsDist(t: Table, p: Point, q: Point)
    requires ValidTable(t)
    ensures Lookup(t, p, q) == if GridNode(p) && GridNode(q) then Dist(p, q) else 0
  {
  }

  /** The table reads the same in both directions, for every pair of points. */
  lemma LookupSymmetric(t: Table, p: Point, q: Point)
    requires ValidTable(t)
    ensures Lookup(t, p, q) == Lookup(t, q, p)
  {
    LookupIsDist(t, p, q);
    LookupIsDist(t, q, p);
    DistSymmetric(p, q);
  }
}
