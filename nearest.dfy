// Greedy nearest-neighbour orderings: repeatedly walk to the remaining item
// whose approach point is closest, first one on ties.
module Nearest {
  import opened Util
  import opened Geometry
  import opened PathTable
  import opened Products
  import opened Routes

  /** Table distances from src to the approach point of each listed id. */
  function IdDists(o: seq<int>, src: Point, m: map<int, Product>, t: Table): seq<int>
  {
    seq(|o|, k requires 0 <= k < |o| => Lookup(t, src, FindDest(src, ProductOf(m, o[k]))))
  }

  /** The order NearestNeighbourOrderOptimizer returns from src: the first
      remaining id at strictly smallest distance, then the rest from its
      approach point. */
  function NNOrder(o: seq<int>, src: Point, m: map<int, Product>, t: Table): (r: seq<int>)
    ensures |r| == |o|
    decreases |o|
  {
    if o == [] then []
    else
      var k := ArgMinFirst(IdDists(o, src, m, t));
      [o[k]] + NNOrder(RemoveAt(o, k), FindDest(src, ProductOf(m, o[k])), m, t)
  }

  /** What the caller's array holds afterwards. Each step deletes with
      `append(o[:k], o[k+1:]...)`, which shifts the tail left inside the
      caller's backing array and leaves the old last element in place past
      the shortened slice. */
  function NNResidue(o: seq<int>, src: Point, m: map<int, Product>, t: Table): (r: seq<int>)
    ensures |r| == |o|
    decreases |o|
  {
    if o == [] then []
    else
      var k := ArgMinFirst(IdDists(o, src, m, t));
      NNResidue(RemoveAt(o, k), FindDest(src, ProductOf(m, o[k])), m, t) + [o[|o| - 1]]
  }

  /** The array stands for the caller's slice, which this optimizer rewrites. */
  method NearestNeighbourOrderOptimizer(o: array<int>, start: Point, end: Point, m: map<int, Product>, t: Table)
    returns (newOrder: seq<int>)
    modifies o
    ensures newOrder == NNOrder(old(o[..]), start, m, t)
    ensures o[..] == NNResidue(old(o[..]), start, m, t)
  {
    ghost var input := o[..];
    // The live slice is o[..len] == rest; o[len..] == tail is what the
    // deletions have left behind it.
    ghost var rest, tail := input, [];
    newOrder := [];
    var src := start;
    var len := o.Length;
    while len > 0
      invariant len == |rest| && o[..] == rest + tail
      invariant newOrder + NNOrder(rest, src, m, t) == NNOrder(input, start, m, t)
      invariant NNResidue(rest, src, m, t) + tail == NNResidue(input, start, m, t)
      decreases len
    {
      assert o[..len] == rest;
      var minIndex, minDest := NearestId(o[..len], src, m, t);
      ghost var next := RemoveAt(rest, minIndex);
      NNAdvance(input, start, newOrder, rest, tail, src, m, t, minIndex, minDest);
      newOrder := newOrder + [o[minIndex]];
      DeleteAt(o, len, minIndex, rest, tail);
      rest, tail := next, [rest[len - 1]] + tail;
      len := len - 1;
      src := minDest;
    }
  }

  /** The loop's invariants carried over one step of the greedy. */
  lemma NNAdvance(input: seq<int>, start: Point, done: seq<int>, rest: seq<int>, tail: seq<int>,
                  src: Point, m: map<int, Product>, t: Table, k: nat, dest: Point)
    requires rest != [] && k == ArgMinFirst(IdDists(rest, src, m, t))
    requires dest == FindDest(src, ProductOf(m, rest[k]))
    requires done + NNOrder(rest, src, m, t) == NNOrder(input, start, m, t)
    requires NNResidue(rest, src, m, t) + tail == NNResidue(input, start, m, t)
    ensures (done + [rest[k]]) + NNOrder(RemoveAt(rest, k), dest, m, t) == NNOrder(input, start, m, t)
    ensures NNResidue(RemoveAt(rest, k), dest, m, t) + ([rest[|rest| - 1]] + tail) == NNResidue(input, start, m, t)
  {
    NNStep(rest, src, m, t, k, dest);
    var next := RemoveAt(rest, k);
    Regroup(done, rest[k], NNOrder(next, dest, m, t));
    Regroup(NNResidue(next, dest, m, t), rest[|rest| - 1], tail);
  }

  lemma Regroup(a: seq<int>, x: int, b: seq<int>)
    ensures a + ([x] + b) == (a + [x]) + b
  {
  }

  /** One step of the greedy: the nearest id goes first, and the deletion
      pushes the last element of the slice into the residue. */
  lemma NNStep(o: seq<int>, src: Point, m: map<int, Product>, t: Table, k: nat, dest: Point)
    requires o != [] && k == ArgMinFirst(IdDists(o, src, m, t))
    requires dest == FindDest(src, ProductOf(m, o[k]))
    ensures NNOrder(o, src, m, t) == [o[k]] + NNOrder(RemoveAt(o, k), dest, m, t)
    ensures NNResidue(o, src, m, t) == NNResidue(RemoveAt(o, k), dest, m, t) + [o[|o| - 1]]
  {
  }

  /** The inner scan over the live ids: the first one at strictly smallest
      distance from src, and its approach point. */
  method NearestId(rest: seq<int>, src: Point, m: map<int, Product>, t: Table)
    returns (minIndex: nat, minDest: Point)
    requires |rest| > 0
    ensures minIndex == ArgMinFirst(IdDists(rest, src, m, t))
    ensures minDest == FindDest(src, ProductOf(m, rest[minIndex]))
  {
    ghost var ds := IdDists(rest, src, m, t);
    minIndex := 0;
    var dest := FindDest(src, ProductOf(m, rest[0]));
    var length := Lookup(t, src, dest);
    var min := length;
    minDest := dest;
    assert ds[..1] == [length];
    for i := 1 to |rest|
      invariant minIndex == ArgMinFirst(ds[..i]) && min == ds[minIndex]
      invariant minDest == FindDest(src, ProductOf(m, rest[minIndex]))
    {
      dest := FindDest(src, ProductOf(m, rest[i]));
      length := Lookup(t, src, dest);
      ArgMinFirstPrefix(ds, i);
      if length < min {
        min := length;
        minIndex := i;
        minDest := dest;
      }
    }
    assert ds[..|rest|] == ds;
  }

  /** `append(o[:k], o[k+1:]...)` on the live slice o[..len]: the tail moves
      left by one inside the same array, and the slot after the shortened
      slice keeps the old last element. */
  method DeleteAt(o: array<int>, len: int, k: nat, ghost rest: seq<int>, ghost tail: seq<int>)
    requires k < len == |rest| && o[..] == rest + tail
    modifies o
    ensures o[..] == RemoveAt(rest, k) + ([rest[len - 1]] + tail)
  {
    ghost var whole := rest + tail;
    for i := k to len - 1
      invariant forall q | 0 <= q < k :: o[q] == rest[q]
      invariant forall q | k <= q < i :: o[q] == rest[q + 1]
      invariant forall q | i <= q < o.Length :: o[q] == whole[q]
    {
      assert whole[i + 1] == rest[i + 1];
      o[i] := o[i + 1];
    }
    ghost var want := RemoveAt(rest, k) + ([rest[len - 1]] + tail);
    forall q | 0 <= q < o.Length
      ensures o[q] == want[q]
    {
      if q < len - 1 {
        assert want[q] == RemoveAt(rest, k)[q];
      } else if q == len - 1 {
        assert want[q] == rest[len - 1] == whole[q];
      } else {
        assert want[q] == tail[q - len] == whole[q];
      }
    }
    assert o[..] == want;
  }

  /** Where the ring walk continues from after visiting prod: a pseudo node's
      exit point, otherwise the approach point just used. */
  function NextSrc(src: Point, prod: Product): Point
  {
    if prod.Pseudo? then prod.pseudoOut else FindDest(src, prod)
  }

  function ProdDists(ps: seq<Product>, src: Point, t: Table): seq<int>
  {
    seq(|ps|, k requires 0 <= k < |ps| => Lookup(t, src, FindDest(src, ps[k])))
  }

  /** The visiting order the ring loop builds from src over ps. */
  function RingGreedy(ps: seq<Product>, src: Point, t: Table): (r: seq<Product>)
    ensures |r| == |ps|
    decreases |ps|
  {
    if ps == [] then []
    else
      var k := ArgMinFirst(ProdDists(ps, src, t));
      [ps[k]] + RingGreedy(RemoveAt(ps, k), NextSrc(src, ps[k]), t)
  }

  /** Index of the first pseudo node, 0 when there is none. */
  function FirstPseudo(s: seq<Product>): (k: nat)
    ensures k == 0 || k < |s|
    decreases |s|
  {
    if s == [] || s[0].Pseudo? then 0
    else
      var k := FirstPseudo(s[1..]);
      if k < |s| - 1 && s[1..][k].Pseudo? then k + 1 else 0
  }

  /** FirstPseudo finds the first pseudo node, and answers 0 only when it
      is at the head or there is none. */
  lemma {:induction false} FirstPseudoSpec(s: seq<Product>)
    ensures var k := FirstPseudo(s);
      || (k < |s| && s[k].Pseudo? && forall i | 0 <= i < k :: s[i].Slot?)
      || (k == 0 && forall i | 0 <= i < |s| :: s[i].Slot?)
    decreases |s|
  {
    if s != [] && s[0].Slot? {
      FirstPseudoSpec(s[1..]);
    }
  }

  function Ids(ps: seq<Product>): seq<int>
  {
    seq(|ps|, k requires 0 <= k < |ps| => ps[k].id)
  }

  /** The visiting order rotated to start just after its first pseudo node,
      which is dropped. */
  function CutRing(order: seq<Product>): (r: seq<Product>)
    requires |order| > 0
    ensures |r| == |order| - 1
  {
    var s := FirstPseudo(order);
    order[s + 1..] + order[..s]
  }

  /** The ring closed at srcProd and cut open at its first pseudo node. */
  function RingProds(prods: seq<Product>, src: Point, srcProd: Product, t: Table): (r: seq<Product>)
    ensures |r| == |prods|
  {
    CutRing([srcProd] + RingGreedy(prods, src, t))
  }

  method NearestNeighborRing(prods: seq<Product>, src: Point, srcProd: Product, t: Table)
    returns (order: seq<int>)
    ensures order == Ids(RingProds(prods, src, srcProd, t))
  {
    var ps := prods;
    var prodsOrder := [srcProd];
    var from := src;
    while |ps| > 0
      invariant prodsOrder + RingGreedy(ps, from, t) == [srcProd] + RingGreedy(prods, src, t)
      decreases |ps|
    {
      var minIndex, newSrc := NearestProd(ps, from, t);
      assert RingGreedy(ps, from, t) == [ps[minIndex]] + RingGreedy(RemoveAt(ps, minIndex), newSrc, t);
      assert prodsOrder + ([ps[minIndex]] + RingGreedy(RemoveAt(ps, minIndex), newSrc, t))
          == (prodsOrder + [ps[minIndex]]) + RingGreedy(RemoveAt(ps, minIndex), newSrc, t);
      prodsOrder := prodsOrder + [ps[minIndex]];
      ps := RemoveAt(ps, minIndex);
      from := newSrc;
    }
    assert prodsOrder == [srcProd] + RingGreedy(prods, src, t);
    order := CutAndLabel(prodsOrder);
  }

  /** The tail of the ring function: find the first pseudo node, rotate, and
      read off the ids. */
  method CutAndLabel(prodsOrder: seq<Product>) returns (order: seq<int>)
    requires |prodsOrder| > 0
    ensures order == Ids(CutRing(prodsOrder))
  {
    var startIndex := 0;
    for i := 0 to |prodsOrder|
      invariant startIndex == 0
      invariant forall k | 0 <= k < i :: prodsOrder[k].Slot?
    {
      if prodsOrder[i].Pseudo? {
        startIndex := i;
        break;
      }
    }
    FirstPseudoSpec(prodsOrder);
    assert startIndex == FirstPseudo(prodsOrder);
    var cut := prodsOrder[startIndex + 1..] + prodsOrder[..startIndex];
    order := [];
    for i := 0 to |cut|
      invariant order == Ids(cut[..i])
    {
      order := order + [cut[i].id];
    }
    assert cut[..|cut|] == cut;
  }

  /** The inner scan of the ring loop, starting from a minimum of +Inf. */
  method NearestProd(ps: seq<Product>, from: Point, t: Table) returns (minIndex: nat, newSrc: Point)
    requires |ps| > 0
    ensures minIndex == ArgMinFirst(ProdDists(ps, from, t))
    ensures newSrc == NextSrc(from, ps[minIndex])
  {
    ghost var ds := ProdDists(ps, from, t);
    minIndex := 0;
    var min: Cost := Inf;
    newSrc := Point(0, 0);
    for i := 0 to |ps|
      invariant i == 0 ==> min == Inf
      invariant i > 0 ==> minIndex == ArgMinFirst(ds[..i]) && min == Fin(ds[minIndex])
      invariant i > 0 ==> newSrc == NextSrc(from, ps[minIndex])
    {
      var dest := FindDest(from, ps[i]);
      var length := Lookup(t, from, dest);
      if i > 0 {
        ArgMinFirstPrefix(ds, i);
      } else {
        assert ds[..1] == [length];
      }
      if Less(Fin(length), min) {
        min := Fin(length);
        minIndex := i;
        newSrc := if ps[i].Pseudo? then ps[i].pseudoOut else dest;
      }
    }
    assert ds[..|ps|] == ds;
  }

  /** The nearest-neighbour order visits every id of o exactly as often as
      o lists it. */
  lemma {:induction false} NNOrderPermutation(o: seq<int>, src: Point, m: map<int, Product>, t: Table)
    ensures multiset(NNOrder(o, src, m, t)) == multiset(o)
    decreases |o|
  {
    if o != [] {
      var k := ArgMinFirst(IdDists(o, src, m, t));
      var dest := FindDest(src, ProductOf(m, o[k]));
      NNOrderPermutation(RemoveAt(o, k), dest, m, t);
      RemoveAtMultiset(o, k);
    }
  }

  /** Each step goes to the first remaining id whose approach point is at
      strictly smallest table distance, and continues from that point. */
  lemma NNOrderIsGreedy(o: seq<int>, src: Point, m: map<int, Product>, t: Table)
    requires o != []
    ensures exists k :: (&& IsFirstMin(IdDists(o, src, m, t), k)
                         && NNOrder(o, src, m, t)[0] == o[k]
                         && NNOrder(o, src, m, t)[1..]
                            == NNOrder(RemoveAt(o, k), FindDest(src, ProductOf(m, o[k])), m, t))
  {
    var k := ArgMinFirst(IdDists(o, src, m, t));
    ArgMinFirstIsFirstMin(IdDists(o, src, m, t));
    assert NNOrder(o, src, m, t)[1..] == NNOrder(RemoveAt(o, k), FindDest(src, ProductOf(m, o[k])), m, t);
  }

  /** Whatever the optimizer leaves in the caller's slice came from it, and
      its last slot is never written. */
  lemma {:induction false} NNResidueFromInput(o: seq<int>, src: Point, m: map<int, Product>, t: Table)
    ensures forall x | x in NNResidue(o, src, m, t) :: x in o
    ensures o != [] ==> NNResidue(o, src, m, t)[|o| - 1] == o[|o| - 1]
    decreases |o|
  {
    if o != [] {
      var k := ArgMinFirst(IdDists(o, src, m, t));
      var next := RemoveAt(o, k);
      NNResidueFromInput(next, FindDest(src, ProductOf(m, o[k])), m, t);
      forall x | x in next ensures x in o {
        var i :| 0 <= i < |next| && next[i] == x;
        assert x == o[if i < k then i else i + 1];
      }
    }
  }

  /** Two distinct ids, the first one nearer: the caller's slice ends up
      holding the second id twice and the first one not at all. */
  lemma NNResidueClobbers(a: int, b: int, src: Point, m: map<int, Product>, t: Table)
    requires a != b
    requires Lookup(t, src, FindDest(src, ProductOf(m, a))) <= Lookup(t, src, FindDest(src, ProductOf(m, b)))
    ensures NNResidue([a, b], src, m, t) == [b, b]
    ensures multiset(NNResidue([a, b], src, m, t)) != multiset([a, b])
  {
    var ds := IdDists([a, b], src, m, t);
    assert ds[..1] == [ds[0]];
    ArgMinFirstIsFirstMin(ds);
    assert ArgMinFirst(ds) == 0;
    var dest := FindDest(src, ProductOf(m, a));
    assert RemoveAt([a, b], 0) == [b];
    assert NNResidue([b], dest, m, t) == [b];
    assert a !in multiset(NNResidue([a, b], src, m, t));
  }

  /** The same greedy over a private copy of the ids: the caller's array is
      only read. */
  method NearestNeighbourOrderCopy(o: array<int>, start: Point, end: Point, m: map<int, Product>, t: Table)
    returns (newOrder: seq<int>)
    ensures newOrder == NNOrder(o[..], start, m, t)
    ensures multiset(newOrder) == multiset(o[..])
  {
    var rest := o[..];
    newOrder := [];
    var src := start;
    while |rest| > 0
      invariant newOrder + NNOrder(rest, src, m, t) == NNOrder(o[..], start, m, t)
      decreases |rest|
    {
      var minIndex, minDest := NearestId(rest, src, m, t);
      var next := RemoveAt(rest, minIndex);
      NNStep(rest, src, m, t, minIndex, minDest);
      Regroup(newOrder, rest[minIndex], NNOrder(next, minDest, m, t));
      newOrder := newOrder + [rest[minIndex]];
      rest := next;
      src := minDest;
    }
    NNOrderPermutation(o[..], start, m, t);
  }

  /** The ring loop visits every product exactly as often as listed. */
  lemma {:induction false} RingGreedyPermutation(ps: seq<Product>, src: Point, t: Table)
    ensures multiset(RingGreedy(ps, src, t)) == multiset(ps)
    decreases |ps|
  {
    if ps != [] {
      var k := ArgMinFirst(ProdDists(ps, src, t));
      RingGreedyPermutation(RemoveAt(ps, k), NextSrc(src, ps[k]), t);
      RemoveAtMultiset(ps, k);
    }
  }

  /** Each ring step takes the first remaining product at strictly smallest
      distance, and goes on from a pseudo node's exit or the approach point. */
  lemma RingGreedyIsGreedy(ps: seq<Product>, src: Point, t: Table)
    requires ps != []
    ensures exists k :: (&& IsFirstMin(ProdDists(ps, src, t), k)
                         && RingGreedy(ps, src, t)[0] == ps[k]
                         && RingGreedy(ps, src, t)[1..] == RingGreedy(RemoveAt(ps, k), NextSrc(src, ps[k]), t))
  {
    var k := ArgMinFirst(ProdDists(ps, src, t));
    ArgMinFirstIsFirstMin(ProdDists(ps, src, t));
    assert RingGreedy(ps, src, t)[1..] == RingGreedy(RemoveAt(ps, k), NextSrc(src, ps[k]), t);
  }

  /** Cutting the ring drops exactly one node: the first pseudo node, or the
      head when there is none. */
  lemma CutRingDropsOne(order: seq<Product>, s: nat)
    requires |order| > 0 && s == FirstPseudo(order)
    ensures multiset(CutRing(order)) + multiset{order[s]} == multiset(order)
  {
    assert CutRing(order) == order[s + 1..] + order[..s];
    RotateDropMultiset(order, s);
  }

  /** With exactly one pseudo node p among srcProd and prods, the ring lists
      every other product once and leaves p out. */
  lemma RingProdsDropsPseudo(prods: seq<Product>, src: Point, srcProd: Product, t: Table, p: Product)
    requires p.Pseudo? && p in multiset([srcProd] + prods)
    requires forall q | q in [srcProd] + prods && q != p :: q.Slot?
    requires multiset([srcProd] + prods)[p] == 1
    ensures multiset(RingProds(prods, src, srcProd, t)) + multiset{p} == multiset([srcProd] + prods)
  {
    var order := [srcProd] + RingGreedy(prods, src, t);
    RingGreedyPermutation(prods, src, t);
    assert multiset(order) == multiset([srcProd] + prods);
    assert p in order;
    var i :| 0 <= i < |order| && order[i] == p;
    var s := FirstPseudo(order);
    FirstPseudoSpec(order);
    assert s < |order| && order[s].Pseudo?;
    assert order[s] in multiset([srcProd] + prods);
    assert order[s] in [srcProd] + prods;
    assert order[s] == p;
    CutRingDropsOne(order, s);
    assert RingProds(prods, src, srcProd, t) == CutRing(order);
  }

  /** Reading the ids off a permuted list permutes the ids. */
  lemma {:induction false} IdsPermutation(a: seq<Product>, b: seq<Product>)
    requires multiset(a) == multiset(b)
    ensures multiset(Ids(a)) == multiset(Ids(b))
    decreases |a|
  {
    if a == [] {
      assert |multiset(b)| == 0;
      assert b == [];
    } else {
      var n := |a| - 1;
      assert a == a[..n] + [a[n]];
      assert a[n] in multiset(b);
      var i :| 0 <= i < |b| && b[i] == a[n];
      RemoveAtMultiset(b, i);
      IdsPermutation(a[..n], RemoveAt(b, i));
      IdsRemoveAt(b, i);
      IdsSnoc(a[..n], a[n]);
    }
  }

  lemma IdsRemoveAt(b: seq<Product>, i: nat)
    requires i < |b|
    ensures multiset(Ids(RemoveAt(b, i))) + multiset{b[i].id} == multiset(Ids(b))
  {
    assert Ids(RemoveAt(b, i)) == RemoveAt(Ids(b), i);
    RemoveAtMultiset(Ids(b), i);
  }

  lemma IdsSnoc(a: seq<Product>, x: Product)
    ensures Ids(a + [x]) == Ids(a) + [x.id]
  {
  }
}
