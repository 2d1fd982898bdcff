// Nearest neighbour with restarts: close the order into a ring through a
// pseudo node for start/end, run the ring greedy from several origins and
// keep the shortest resulting route.
module Restarts {
  import opened Util
  import opened Geometry
  import opened PathTable
  import opened Products
  import opened Routes
  import opened Nearest

  /** The node that closes the ring: entered at end, left from start. Its id
      and position keep Go's zero values. */
  function PseudoProd(start: Point, end: Point): (p: Product)
    ensures p.Pseudo? && p.pseudoIn == end && p.pseudoOut == start
  {
    Pseudo(0, Point(0, 0), end, start)
  }

  /** The pseudo node followed by the products of the order. */
  function NNIProds(o: seq<int>, start: Point, end: Point, m: map<int, Product>): (r: seq<Product>)
    ensures |r| == |o| + 1
  {
    [PseudoProd(start, end)] + Prods(o, m)
  }

  /** The number of restart rounds: the first optional argument, or the
      length of the order when none is given. */
  function IterCount(o: seq<int>, iteration: seq<int>): int
  {
    if |iteration| > 0 then iteration[0] else |o|
  }

  /** One restart: the ring is closed at prods[index] and the walk starts
      at src. */
  datatype Candidate = Candidate(index: nat, src: Point)

  /** The restarts tried in round i, at product p: from a pseudo node's exit
      point; for a slot from the aisle node left of it, then right of it. */
  function RoundCandidates(i: nat, p: Product): (r: seq<Candidate>)
    ensures 1 <= |r| <= 2 && forall j | 0 <= j < |r| :: r[j].index == i
  {
    if p.Pseudo? then [Candidate(i, p.pseudoOut)]
    else [Candidate(i, Point(p.pos.x - 1, p.pos.y)), Candidate(i, Point(p.pos.x + 1, p.pos.y))]
  }

  /** The restarts of the first n rounds, in the order they are tried. */
  function Candidates(prods: seq<Product>, n: nat): (cs: seq<Candidate>)
    requires n <= |prods|
    ensures |cs| >= n
    ensures forall j | 0 <= j < |cs| :: cs[j].index < n
  {
    if n == 0 then [] else Candidates(prods, n - 1) + RoundCandidates(n - 1, prods[n - 1])
  }

  /** The order one restart proposes. */
  function CandidateOrder(prods: seq<Product>, c: Candidate, t: Table): (r: seq<int>)
    requires c.index < |prods|
    ensures |r| == |prods| - 1
  {
    Ids(RingProds(RemoveAt(prods, c.index), c.src, prods[c.index], t))
  }

  predicate Indexes(prods: seq<Product>, cs: seq<Candidate>)
  {
    forall j | 0 <= j < |cs| :: cs[j].index < |prods|
  }

  /** What one restart yields: its order and that order's route length. */
  datatype Proposal = Proposal(order: seq<int>, length: nat)

  function Propose(prods: seq<Product>, c: Candidate, start: Point, end: Point,
                   m: map<int, Product>, t: Table): (r: Proposal)
    requires c.index < |prods|
    ensures |r.order| == |prods| - 1
  {
    var order := CandidateOrder(prods, c, t);
    Proposal(order, Walk(order, start, end, m, t))
  }

  /** The proposals of the restarts cs, in the order they are tried. */
  function Proposals(prods: seq<Product>, cs: seq<Candidate>, start: Point, end: Point,
                     m: map<int, Product>, t: Table): (ps: seq<Proposal>)
    requires Indexes(prods, cs)
    ensures |ps| == |cs|
  {
    seq(|cs|, j requires 0 <= j < |cs| => Propose(prods, cs[j], start, end, m, t))
  }

  /** p is what restart c proposes. */
  ghost predicate Proposed(prods: seq<Product>, c: Candidate, p: Proposal, start: Point, end: Point,
                           m: map<int, Product>, t: Table)
  {
    c.index < |prods| && p == Propose(prods, c, start, end, m, t)
  }

  /** tried holds, position by position, the proposals of the restarts cs. */
  ghost predicate Recorded(prods: seq<Product>, cs: seq<Candidate>, tried: seq<Proposal>, start: Point, end: Point,
                           m: map<int, Product>, t: Table)
  {
    && |tried| == |cs|
    && forall j {:trigger Proposed(prods, cs[j], tried[j], start, end, m, t)} | 0 <= j < |cs| ::
         Proposed(prods, cs[j], tried[j], start, end, m, t)
  }

  lemma RecordedProposals(prods: seq<Product>, cs: seq<Candidate>, tried: seq<Proposal>, start: Point, end: Point,
                          m: map<int, Product>, t: Table)
    requires Recorded(prods, cs, tried, start, end, m, t)
    ensures Indexes(prods, cs) && tried == Proposals(prods, cs, start, end, m, t)
  {
    forall j | 0 <= j < |cs| ensures cs[j].index < |prods| && tried[j] == Propose(prods, cs[j], start, end, m, t) {
      assert Proposed(prods, cs[j], tried[j], start, end, m, t);
    }
  }

  function Lengths(ps: seq<Proposal>): (ls: seq<int>)
    ensures |ls| == |ps|
  {
    seq(|ps|, j requires 0 <= j < |ps| => ps[j].length)
  }

  /** The state the restart loop keeps after the proposals ps: the order of
      the first strictly shortest one and its length, or none and +Inf. */
  function Keep(ps: seq<Proposal>): (r: (seq<int>, Cost))
    ensures ps == [] <==> r.1 == Inf
    decreases |ps|
  {
    if ps == [] then ([], Inf)
    else
      var prev := Keep(ps[..|ps| - 1]);
      var p := ps[|ps| - 1];
      if Less(Fin(p.length), prev.1) then (p.order, Fin(p.length)) else prev
  }

  /** The kept state is the first shortest proposal. */
  lemma {:induction false} KeepFirstShortest(ps: seq<Proposal>)
    requires ps != []
    ensures var k := ArgMinFirst(Lengths(ps));
      Keep(ps) == (ps[k].order, Fin(ps[k].length))
    decreases |ps|
  {
    var n := |ps| - 1;
    if n > 0 {
      var pre := ps[..n];
      assert Lengths(ps) == Lengths(pre) + [ps[n].length];
      KeepFirstShortest(pre);
      ArgMinFirstSnoc(Lengths(pre), ps[n].length);
    }
  }

  /** The order NNIOrderOptimizer returns after iter rounds. */
  function NNIOrder(o: seq<int>, start: Point, end: Point, m: map<int, Product>, t: Table, iter: int): seq<int>
    requires iter <= |o| + 1
  {
    var prods := NNIProds(o, start, end, m);
    if iter <= 0 then [] else Keep(Proposals(prods, Candidates(prods, iter), start, end, m, t)).0
  }

  /** The order uses iteration rounds when given, otherwise one per id. The
      source indexes the products of round i and measures every proposed
      order from its first id, so the rounds may not outnumber the
      products, and an empty order admits no round. */
  method NNIOrderOptimizer(o: seq<int>, start: Point, end: Point, m: map<int, Product>, t: Table,
                           iteration: seq<int>)
    returns (newOrder: seq<int>)
    requires IterCount(o, iteration) <= |o| + 1
    requires |o| == 0 ==> IterCount(o, iteration) <= 0
    ensures newOrder == NNIOrder(o, start, end, m, t, IterCount(o, iteration))
  {
    var iter := |o|;
    if |iteration| > 0 {
      iter := iteration[0];
    }
    var prods := BuildProds(o, start, end, m);
    ghost var tried;
    newOrder, tried := RestartLoop(prods, iter, start, end, m, t);
    NNIOrderKept(o, start, end, m, t, iter, tried);
  }

  /** The pseudo node, then the product of every id, appended one by one. */
  method BuildProds(o: seq<int>, start: Point, end: Point, m: map<int, Product>) returns (prods: seq<Product>)
    ensures prods == NNIProds(o, start, end, m)
  {
    prods := [PseudoProd(start, end)];
    for k := 0 to |o|
      invariant prods == [PseudoProd(start, end)] + Prods(o[..k], m)
    {
      prods := prods + [ProductOf(m, o[k])];
    }
    assert o[..|o|] == o;
  }

  /** The restart loop: rounds 0 to iter-1, keeping the first strictly
      shortest proposal. */
  method RestartLoop(prods: seq<Product>, iter: int, start: Point, end: Point, m: map<int, Product>, t: Table)
    returns (newOrder: seq<int>, ghost tried: seq<Proposal>)
    requires iter <= |prods| && (|prods| < 2 ==> iter <= 0)
    ensures Recorded(prods, Candidates(prods, if iter <= 0 then 0 else iter), tried, start, end, m, t)
    ensures newOrder == Keep(tried).0
  {
    newOrder := [];
    var minTotal: Cost := Inf;
    var i := 0;
    tried := [];
    while i < iter
      invariant 0 <= i <= |prods| && i <= (if iter <= 0 then 0 else iter)
      invariant Recorded(prods, Candidates(prods, i), tried, start, end, m, t)
      invariant (newOrder, minTotal) == Keep(tried)
      decreases iter - i
    {
      CandidatesStep(prods, i);
      newOrder, minTotal, tried := Round(prods, i, Candidates(prods, i), start, end, m, t, newOrder, minTotal, tried);
      i := i + 1;
    }
  }

  /** After the loop, the kept order is the one NNIOrder describes. */
  lemma NNIOrderKept(o: seq<int>, start: Point, end: Point, m: map<int, Product>, t: Table, iter: int,
                     tried: seq<Proposal>)
    requires iter <= |o| + 1
    requires var prods := NNIProds(o, start, end, m);
      Recorded(prods, Candidates(prods, if iter <= 0 then 0 else iter), tried, start, end, m, t)
    ensures NNIOrder(o, start, end, m, t, iter) == Keep(tried).0
  {
    var prods := NNIProds(o, start, end, m);
    RecordedProposals(prods, Candidates(prods, if iter <= 0 then 0 else iter), tried, start, end, m, t);
  }

  /** Round i adds its restarts after those of the earlier rounds. */
  lemma CandidatesStep(prods: seq<Product>, i: nat)
    requires i < |prods|
    ensures Candidates(prods, i + 1) == Candidates(prods, i) + RoundCandidates(i, prods[i])
  {
  }

  /** Round i's restarts, one or two by the kind of product i. */
  lemma RoundSplit(prods: seq<Product>, i: nat, cs: seq<Candidate>)
    requires i < |prods|
    ensures prods[i].Pseudo? ==> cs + RoundCandidates(i, prods[i]) == cs + [Candidate(i, prods[i].pseudoOut)]
    ensures prods[i].Slot? ==>
      var p := prods[i].pos;
      cs + RoundCandidates(i, prods[i]) == cs + [Candidate(i, Point(p.x - 1, p.y))] + [Candidate(i, Point(p.x + 1, p.y))]
  {
  }

  /** One pass of the restart loop: the restarts of product i, tried after
      the restarts cs of the earlier rounds. */
  method Round(prods: seq<Product>, i: nat, ghost cs: seq<Candidate>, start: Point, end: Point,
               m: map<int, Product>, t: Table, newOrder: seq<int>, minTotal: Cost, ghost tried: seq<Proposal>)
    returns (newOrder': seq<int>, minTotal': Cost, ghost tried': seq<Proposal>)
    requires i < |prods| && |prods| >= 2
    requires Recorded(prods, cs, tried, start, end, m, t) && (newOrder, minTotal) == Keep(tried)
    ensures Recorded(prods, cs + RoundCandidates(i, prods[i]), tried', start, end, m, t)
    ensures (newOrder', minTotal') == Keep(tried')
  {
    var srcPoint := prods[i];
    var ps := RemoveAt(prods, i);
    RoundSplit(prods, i, cs);
    if srcPoint.Pseudo? {
      newOrder', minTotal', tried' := TryRestart(prods, i, ps, srcPoint.pseudoOut, cs, start, end, m, t, newOrder, minTotal, tried);
    } else {
      newOrder', minTotal', tried' := TrySides(prods, i, ps, cs, start, end, m, t, newOrder, minTotal, tried);
    }
  }

  /** The slot branch of a round: restart from the aisle node left of the
      slot, then from the one right of it. */
  method TrySides(prods: seq<Product>, i: nat, ps: seq<Product>, ghost cs: seq<Candidate>,
                  start: Point, end: Point, m: map<int, Product>, t: Table,
                  newOrder: seq<int>, minTotal: Cost, ghost tried: seq<Proposal>)
    returns (newOrder': seq<int>, minTotal': Cost, ghost tried': seq<Proposal>)
    requires i < |prods| && |prods| >= 2 && ps == RemoveAt(prods, i)
    requires Recorded(prods, cs, tried, start, end, m, t) && (newOrder, minTotal) == Keep(tried)
    ensures var p := prods[i].pos;
      Recorded(prods, cs + [Candidate(i, Point(p.x - 1, p.y))] + [Candidate(i, Point(p.x + 1, p.y))], tried', start, end, m, t)
    ensures (newOrder', minTotal') == Keep(tried')
  {
    var left := Point(prods[i].pos.x - 1, prods[i].pos.y);
    newOrder', minTotal', tried' := TryRestart(prods, i, ps, left, cs, start, end, m, t, newOrder, minTotal, tried);
    var right := Point(prods[i].pos.x + 1, prods[i].pos.y);
    newOrder', minTotal', tried' := TryRestart(prods, i, ps, right, cs + [Candidate(i, left)], start, end, m, t, newOrder', minTotal', tried');
  }

  /** One restart block of the loop: run the ring from src, measure the
      proposed order, and keep it when strictly shorter than the best so far. */
  method TryRestart(prods: seq<Product>, i: nat, ps: seq<Product>, src: Point, ghost cs: seq<Candidate>,
                    start: Point, end: Point, m: map<int, Product>, t: Table,
                    newOrder: seq<int>, minTotal: Cost, ghost tried: seq<Proposal>)
    returns (newOrder': seq<int>, minTotal': Cost, ghost tried': seq<Proposal>)
    requires i < |prods| && |prods| >= 2 && ps == RemoveAt(prods, i)
    requires Recorded(prods, cs, tried, start, end, m, t) && (newOrder, minTotal) == Keep(tried)
    ensures Recorded(prods, cs + [Candidate(i, src)], tried', start, end, m, t)
    ensures (newOrder', minTotal') == Keep(tried')
  {
    var c := Candidate(i, src);
    var nnOrder := NearestNeighborRing(ps, src, prods[i], t);
    var length := RouteLength(nnOrder, start, end, m, t);
    tried' := tried + [Proposal(nnOrder, length)];
    assert Proposed(prods, c, tried'[|tried|], start, end, m, t);
    assert tried'[..|tried|] == tried;
    newOrder', minTotal' := newOrder, minTotal;
    if Less(Fin(length), minTotal) {
      newOrder', minTotal' := nnOrder, Fin(length);
    }
  }

  /** Every id names a slot record carrying that id, as the inventory reader
      builds them. */
  predicate SlotsWithIds(o: seq<int>, m: map<int, Product>)
  {
    forall k | 0 <= k < |o| :: ProductOf(m, o[k]).Slot? && ProductOf(m, o[k]).id == o[k]
  }

  /** The ring's products: the pseudo node once, then slots labelled with the
      ids of o. */
  lemma NNIProdsShape(o: seq<int>, start: Point, end: Point, m: map<int, Product>)
    requires SlotsWithIds(o, m)
    ensures var prods := NNIProds(o, start, end, m);
      && multiset(prods)[PseudoProd(start, end)] == 1
      && (forall q | q in prods && q != PseudoProd(start, end) :: q.Slot?)
      && Ids(prods[1..]) == o
  {
    var prods := NNIProds(o, start, end, m);
    var p := PseudoProd(start, end);
    var slots := Prods(o, m);
    assert prods == [p] + slots && prods[1..] == slots;
    assert p !in slots;
  }

  /** A restart over products holding one pseudo node and slots otherwise
      visits every product but that pseudo node. */
  lemma RestartDropsPseudo(prods: seq<Product>, i: nat, src: Point, t: Table, p: Product)
    requires i < |prods| && p.Pseudo? && multiset(prods)[p] == 1
    requires forall q | q in prods && q != p :: q.Slot?
    ensures multiset(RingProds(RemoveAt(prods, i), src, prods[i], t)) + multiset{p} == multiset(prods)
  {
    var rest := RemoveAt(prods, i);
    RemoveAtMultiset(prods, i);
    assert multiset([prods[i]] + rest) == multiset(prods);
    forall q | q in [prods[i]] + rest && q != p
      ensures q.Slot?
    {
      assert q in multiset(prods);
    }
    RingProdsDropsPseudo(rest, src, prods[i], t, p);
  }

  /** Every restart's order lists exactly the ids of o. */
  lemma CandidatePermutation(o: seq<int>, start: Point, end: Point, m: map<int, Product>, t: Table, c: Candidate)
    requires SlotsWithIds(o, m)
    requires c.index < |o| + 1
    ensures multiset(CandidateOrder(NNIProds(o, start, end, m), c, t)) == multiset(o)
  {
    var prods := NNIProds(o, start, end, m);
    var p := PseudoProd(start, end);
    NNIProdsShape(o, start, end, m);
    RestartDropsPseudo(prods, c.index, c.src, t, p);
    var ring := RingProds(RemoveAt(prods, c.index), c.src, prods[c.index], t);
    assert prods == [p] + prods[1..];
    assert multiset(prods) == multiset(prods[1..]) + multiset{p};
    MultisetCancel(multiset(ring), multiset(prods[1..]), p);
    IdsPermutation(ring, prods[1..]);
  }

  /** The returned order is one restart's proposal whose route is no longer
      than any other restart's and strictly shorter than every restart tried
      before it. */
  lemma NNIFirstShortest(o: seq<int>, start: Point, end: Point, m: map<int, Product>, t: Table, iter: int)
    requires 1 <= iter <= |o| + 1
    ensures var prods := NNIProds(o, start, end, m);
      var ps := Proposals(prods, Candidates(prods, iter), start, end, m, t);
      var k := ArgMinFirst(Lengths(ps));
      IsFirstMin(Lengths(ps), k) && NNIOrder(o, start, end, m, t, iter) == ps[k].order
  {
    var prods := NNIProds(o, start, end, m);
    var ps := Proposals(prods, Candidates(prods, iter), start, end, m, t);
    KeepFirstShortest(ps);
    ArgMinFirstIsFirstMin(Lengths(ps));
  }

  /** Whichever restart wins, its order lists exactly the ids of o: the
      ring drops the one pseudo node and keeps every slot. */
  lemma NNIPermutation(o: seq<int>, start: Point, end: Point, m: map<int, Product>, t: Table, iter: int)
    requires 1 <= iter <= |o| + 1 && SlotsWithIds(o, m)
    ensures multiset(NNIOrder(o, start, end, m, t, iter)) == multiset(o)
  {
    var prods := NNIProds(o, start, end, m);
    var cs := Candidates(prods, iter);
    var ps := Proposals(prods, cs, start, end, m, t);
    var k := ArgMinFirst(Lengths(ps));
    KeepFirstShortest(ps);
    assert ps[k].order == CandidateOrder(prods, cs[k], t);
    CandidatePermutation(o, start, end, m, t, cs[k]);
  }
}
