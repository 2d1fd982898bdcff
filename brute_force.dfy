// Exhaustive search: walk through every distinct permutation of the order in
// lexicographic order and keep the first one of minimal route length.
module BruteForce {
  import opened Util
  import opened Geometry
  import opened PathTable
  import opened Products
  import opened Routes

  predicate Ascending(s: seq<int>)
  {
    forall i, j | 0 <= i < j < |s| :: s[i] <= s[j]
  }

  /** x placed before the first element not smaller than it. */
  function Insert(x: int, s: seq<int>): (r: seq<int>)
    ensures |r| == |s| + 1
    ensures multiset(r) == multiset(s) + multiset{x}
    decreases |s|
  {
    if s == [] || x <= s[0] then [x] + s
    else
      assert s == [s[0]] + s[1..];
      [s[0]] + Insert(x, s[1..])
  }

  lemma {:induction false} InsertAscending(x: int, s: seq<int>)
    requires Ascending(s)
    ensures Ascending(Insert(x, s))
    decreases |s|
  {
    if s != [] && x > s[0] {
      InsertAscending(x, s[1..]);
      var r := Insert(x, s[1..]);
      forall k | 0 <= k < |r| ensures s[0] <= r[k] {
        assert r[k] in multiset(r);
        assert r[k] == x || r[k] in multiset(s[1..]);
        if r[k] != x {
          var i :| 0 <= i < |s[1..]| && s[1..][i] == r[k];
          assert s[0] <= s[i + 1];
        }
      }
    }
  }

  /** The ascending rearrangement sort.Sort gives an Order (ids compare as
      integers). */
  function SortInts(s: seq<int>): (r: seq<int>)
    ensures |r| == |s|
    ensures multiset(r) == multiset(s)
    decreases |s|
  {
    if s == [] then []
    else
      assert s == [s[0]] + s[1..];
      Insert(s[0], SortInts(s[1..]))
  }

  lemma {:induction false} SortIntsAscending(s: seq<int>)
    ensures Ascending(SortInts(s))
    decreases |s|
  {
    if s != [] {
      SortIntsAscending(s[1..]);
      InsertAscending(s[0], SortInts(s[1..]));
    }
  }

  /** Two ascending sequences holding the same ids are equal, so any sort
      of an Order yields the same sequence. */
  lemma {:induction false} AscendingUnique(a: seq<int>, b: seq<int>)
    requires Ascending(a) && Ascending(b) && multiset(a) == multiset(b)
    ensures a == b
    decreases |a|
  {
    assert |a| == |multiset(a)| == |multiset(b)| == |b|;
    if a != [] {
      AscendingHeads(a, b);
      HeadMultiset(a);
      HeadMultiset(b);
      MultisetCancel(multiset(a[1..]), multiset(b[1..]), a[0]);
      AscendingUnique(a[1..], b[1..]);
      assert a == [a[0]] + a[1..] && b == [b[0]] + b[1..];
    }
  }

  /** Two non-empty ascending sequences with the same elements start alike. */
  lemma AscendingHeads(a: seq<int>, b: seq<int>)
    requires Ascending(a) && Ascending(b) && multiset(a) == multiset(b) && |a| > 0 && |b| > 0
    ensures a[0] == b[0]
  {
    assert a[0] in multiset(b) && b[0] in multiset(a);
    var i :| 0 <= i < |b| && b[i] == a[0];
    var j :| 0 <= j < |a| && a[j] == b[0];
    assert b[0] <= b[i] && a[0] <= a[j];
  }

  lemma HeadMultiset(s: seq<int>)
    requires |s| > 0
    ensures multiset(s) == multiset(s[1..]) + multiset{s[0]}
  {
    assert s == [s[0]] + s[1..];
  }

  function Prepend(x: int, ps: seq<seq<int>>): seq<seq<int>>
  {
    seq(|ps|, j requires 0 <= j < |ps| => [x] + ps[j])
  }

  /** The distinct permutations of s, in the order PermutationFirst and
      PermutationNext visit them when s is ascending: by first element,
      each distinct value once, then the permutations of the rest. */
  function Perms(s: seq<int>): (r: seq<seq<int>>)
    ensures |r| > 0
    decreases |s|, |s| + 1
  {
    if s == [] then [[]] else PermsFrom(s, 0)
  }

  /** The permutations of s whose first element is one of s[i..], each
      distinct value taken at its first position. */
  function PermsFrom(s: seq<int>, i: nat): (r: seq<seq<int>>)
    requires i <= |s|
    ensures i < |s| && (i == 0 || s[i - 1] != s[i]) ==> |r| > 0
    decreases |s|, |s| - i
  {
    if i == |s| then []
    else
      var head := if i > 0 && s[i - 1] == s[i] then [] else Prepend(s[i], Perms(RemoveAt(s, i)));
      head + PermsFrom(s, i + 1)
  }

  /** The first permutation is s itself. */
  lemma {:induction false} PermsFirst(s: seq<int>)
    ensures Perms(s)[0] == s
    decreases |s|
  {
    if s != [] {
      PermsFirst(RemoveAt(s, 0));
      assert RemoveAt(s, 0) == s[1..];
      assert Perms(s)[0] == [s[0]] + Perms(s[1..])[0];
    }
  }

  /** Every listed sequence is a permutation of s. */
  lemma {:induction false} PermsSound(s: seq<int>)
    ensures forall p | p in Perms(s) :: multiset(p) == multiset(s)
    decreases |s|, |s| + 1
  {
    if s != [] {
      PermsFromSound(s, 0);
    }
  }

  lemma {:induction false} PermsFromSound(s: seq<int>, i: nat)
    requires i <= |s|
    ensures forall p | p in PermsFrom(s, i) :: multiset(p) == multiset(s)
    decreases |s|, |s| - i
  {
    if i < |s| {
      PermsFromSound(s, i + 1);
      var rest := RemoveAt(s, i);
      PermsSound(rest);
      RemoveAtMultiset(s, i);
      PrependSound(s[i], Perms(rest), rest, s);
    }
  }

  /** Putting the removed element back in front of a permutation of the
      rest gives a permutation of the whole. */
  lemma PrependSound(x: int, ps: seq<seq<int>>, rest: seq<int>, s: seq<int>)
    requires forall p | p in ps :: multiset(p) == multiset(rest)
    requires multiset(rest) + multiset{x} == multiset(s)
    ensures forall q | q in Prepend(x, ps) :: multiset(q) == multiset(s)
  {
    forall q | q in Prepend(x, ps)
      ensures multiset(q) == multiset(s)
    {
      var j :| 0 <= j < |ps| && q == [x] + ps[j];
      assert ps[j] in ps;
    }
  }

  /** The first position of x in s. */
  function FirstIndex(s: seq<int>, x: int): (k: nat)
    requires x in s
    ensures k < |s| && s[k] == x && forall i | 0 <= i < k :: s[i] != x
  {
    if s[0] == x then 0 else FirstIndex(s[1..], x) + 1
  }

  /** Later starting positions list a subset. */
  lemma {:induction false} PermsFromGrows(s: seq<int>, i: nat, k: nat, q: seq<int>)
    requires i <= k <= |s| && q in PermsFrom(s, k)
    ensures q in PermsFrom(s, i)
    decreases k - i
  {
    if i < k {
      PermsFromGrows(s, i + 1, k, q);
    }
  }

  /** A permutation of the rest, behind the first occurrence of its head
      value, is listed from that position on. */
  lemma PrependListed(s: seq<int>, k: nat, q: seq<int>)
    requires k < |s| && (k == 0 || s[k - 1] != s[k]) && q in Perms(RemoveAt(s, k))
    ensures [s[k]] + q in PermsFrom(s, k)
  {
    var ps := Perms(RemoveAt(s, k));
    var j :| 0 <= j < |ps| && ps[j] == q;
    assert Prepend(s[k], ps)[j] == [s[k]] + q;
  }

  /** Every permutation of s is listed. */
  lemma {:induction false} PermsComplete(s: seq<int>, p: seq<int>)
    requires multiset(p) == multiset(s)
    ensures p in Perms(s)
    decreases |s|
  {
    assert |p| == |multiset(p)| == |s|;
    if s != [] {
      var x := p[0];
      assert x in multiset(s);
      var k := FirstIndex(s, x);
      var rest := RemoveAt(s, k);
      RemoveAtMultiset(s, k);
      HeadMultiset(p);
      MultisetCancel(multiset(p[1..]), multiset(rest), x);
      PermsComplete(rest, p[1..]);
      assert p == [x] + p[1..];
      PrependListed(s, k, p[1..]);
      PermsFromGrows(s, 0, k, p);
    }
  }

  /** Route lengths of the listed orders. */
  function PermLengths(ps: seq<seq<int>>, start: Point, end: Point, m: map<int, Product>, t: Table): (ls: seq<int>)
    ensures |ls| == |ps|
  {
    seq(|ps|, k requires 0 <= k < |ps| => Walk(ps[k], start, end, m, t))
  }

  lemma PermLengthsAt(ps: seq<seq<int>>, k: nat, start: Point, end: Point, m: map<int, Product>, t: Table)
    requires k < |ps|
    ensures PermLengths(ps, start, end, m, t)[k] == Walk(ps[k], start, end, m, t)
  {
  }

  /** The first permutation, in visiting order, of minimal route length. */
  function BruteForceOrder(o: seq<int>, start: Point, end: Point, m: map<int, Product>, t: Table): seq<int>
  {
    var ps := Perms(SortInts(o));
    ps[ArgMinFirst(PermLengths(ps, start, end, m, t))]
  }

  /** The result lists exactly the ids of o. */
  lemma BruteForcePermutation(o: seq<int>, start: Point, end: Point, m: map<int, Product>, t: Table)
    ensures multiset(BruteForceOrder(o, start, end, m, t)) == multiset(o)
  {
    var ps := Perms(SortInts(o));
    PermsSound(SortInts(o));
    assert ps[ArgMinFirst(PermLengths(ps, start, end, m, t))] in ps;
  }

  /** No rearrangement of o has a shorter route than the result. */
  lemma BruteForceMinimal(o: seq<int>, p: seq<int>, start: Point, end: Point, m: map<int, Product>, t: Table)
    requires multiset(p) == multiset(o)
    ensures Walk(BruteForceOrder(o, start, end, m, t), start, end, m, t) <= Walk(p, start, end, m, t)
  {
    var ps := Perms(SortInts(o));
    var ls := PermLengths(ps, start, end, m, t);
    PermsComplete(SortInts(o), p);
    var j :| 0 <= j < |ps| && ps[j] == p;
    ArgMinFirstIsFirstMin(ls);
    assert ls[j] == Walk(p, start, end, m, t);
  }

  /** The foreign permutation calls rearrange the Order in place; their
      effect is writing the permutation p over the array. */
  method Rearrange(o: array<int>, p: seq<int>)
    requires |p| == o.Length
    modifies o
    ensures o[..] == p
  {
    for k := 0 to o.Length
      invariant o[..k] == p[..k]
    {
      o[k] := p[k];
    }
  }

  /** Every listed sequence is as long as s. */
  lemma PermsLength(s: seq<int>)
    ensures forall p | p in Perms(s) :: |p| == |s|
  {
    PermsSound(s);
    forall p | p in Perms(s) ensures |p| == |s| {
      assert |multiset(p)| == |multiset(s)|;
    }
  }

  /** Leaves the Order in the first permutation, in visiting order, of
      minimal route length, and returns it. RouteLength indexes the first
      id, so the order may not be empty. */
  method BruteForceOrderOptimizer(o: array<int>, start: Point, end: Point, m: map<int, Product>, t: Table)
    returns (newOrder: seq<int>)
    requires o.Length > 0
    modifies o
    ensures newOrder == o[..] == BruteForceOrder(old(o[..]), start, end, m, t)
  {
    ghost var input := o[..];
    Rearrange(o, SortInts(o[..]));
    var perms := Perms(o[..]);
    PermsFirst(o[..]);
    PermsLength(o[..]);
    var minIndex := ScanPerms(o, perms, start, end, m, t);
    SortBack(o, perms, input);
    Advance(o, perms, minIndex);
    newOrder := o[..];
  }

  /** The PermutationNext loop: visits every listed permutation in turn and
      returns the index of the first one of minimal route length. */
  method ScanPerms(o: array<int>, perms: seq<seq<int>>, start: Point, end: Point, m: map<int, Product>, t: Table)
    returns (minIndex: nat)
    requires o.Length > 0 && |perms| > 0 && o[..] == perms[0]
    requires forall p | p in perms :: |p| == o.Length
    modifies o
    ensures minIndex == ArgMinFirst(PermLengths(perms, start, end, m, t))
    ensures o[..] in perms
  {
    ghost var ls := PermLengths(perms, start, end, m, t);
    var j := 0;
    minIndex := 0;
    var length := RouteLength(o[..], start, end, m, t);
    var min := length;
    PermLengthsAt(perms, 0, start, end, m, t);
    assert ls[..1] == [min];
    while j + 1 < |perms|
      invariant 0 <= j < |perms| && o[..] == perms[j]
      invariant minIndex == ArgMinFirst(ls[..j + 1]) && min == ls[minIndex]
      decreases |perms| - j
    {
      length := NextPerm(o, perms, j + 1, start, end, m, t);
      ArgMinFirstPrefix(ls, j + 1);
      j := j + 1;
      if length < min {
        min := length;
        minIndex := j;
      }
    }
    assert ls[..j + 1] == ls;
  }

  /** One PermutationNext step and the route length of the new order. */
  method NextPerm(o: array<int>, perms: seq<seq<int>>, k: nat, start: Point, end: Point, m: map<int, Product>, t: Table)
    returns (length: nat)
    requires 0 < k < |perms| && |perms[k]| == o.Length > 0
    modifies o
    ensures o[..] == perms[k]
    ensures length == PermLengths(perms, start, end, m, t)[k]
  {
    Rearrange(o, perms[k]);
    length := RouteLength(o[..], start, end, m, t);
    PermLengthsAt(perms, k, start, end, m, t);
  }

  /** PermutationNext applied minIndex times from the first permutation. */
  method Advance(o: array<int>, perms: seq<seq<int>>, minIndex: nat)
    requires minIndex < |perms| && o[..] == perms[0]
    requires forall p | p in perms :: |p| == o.Length
    modifies o
    ensures o[..] == perms[minIndex]
  {
    for c := 0 to minIndex
      invariant o[..] == perms[c]
    {
      assert perms[c + 1] in perms;
      Rearrange(o, perms[c + 1]);
    }
  }

  /** PermutationFirst on the last permutation: sorting it again gives
      back the first one. */
  method SortBack(o: array<int>, perms: seq<seq<int>>, ghost input: seq<int>)
    requires perms == Perms(SortInts(input)) && o[..] in perms
    modifies o
    ensures o[..] == perms[0]
  {
    PermsSound(SortInts(input));
    SortIntsAscending(o[..]);
    SortIntsAscending(input);
    AscendingUnique(SortInts(o[..]), SortInts(input));
    PermsFirst(SortInts(input));
    Rearrange(o, SortInts(o[..]));
  }
}
