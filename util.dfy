// Sequence helpers shared by the route optimizers and the batching passes:
// slice deletion, the first-minimum scan, flattening, and their multiset facts.
module Util {

  datatype Option<T> = None | Some(value: T)

  /** Go's `append(s[:k], s[k+1:]...)`: the slice without its k-th element. */
  function RemoveAt<T>(s: seq<T>, k: nat): (r: seq<T>)
    requires k < |s|
    ensures |r| == |s| - 1
    ensures forall i {:trigger r[i]} | 0 <= i < k :: r[i] == s[i]
    ensures forall i | k <= i < |r| :: r[i] == s[i + 1]
  {
    s[..k] + s[k + 1..]
  }

  lemma SnocSnoc<T>(s: seq<T>, a: T, b: T)
    ensures s + [a] + [b] == s + [a, b]
  {
  }

  lemma MultisetCancel<T>(a: multiset<T>, b: multiset<T>, x: T)
    requires a + multiset{x} == b + multiset{x}
    ensures a == b
  {
    assert forall y :: a[y] == (a + multiset{x})[y] - multiset{x}[y];
  }

  /** Deleting one position loses exactly that element. */
  lemma RemoveAtMultiset<T>(s: seq<T>, k: nat)
    requires k < |s|
    ensures multiset(RemoveAt(s, k)) + multiset{s[k]} == multiset(s)
    ensures multiset(RemoveAt(s, k)) == multiset(s) - multiset{s[k]}
  {
    assert s == s[..k] + [s[k]] + s[k + 1..];
  }

  /** Rotating a sequence to start after position k and dropping s[k]
      loses exactly that element. */
  lemma RotateDropMultiset<T>(s: seq<T>, k: nat)
    requires k < |s|
    ensures multiset(s[k + 1..] + s[..k]) + multiset{s[k]} == multiset(s)
  {
    assert s == s[..k] + [s[k]] + s[k + 1..];
  }

  /** k holds the smallest value of ds, and no earlier position holds it. */
  predicate IsFirstMin(ds: seq<int>, k: int)
  {
    && 0 <= k < |ds|
    && (forall j | 0 <= j < |ds| :: ds[k] <= ds[j])
    && (forall j | 0 <= j < k :: ds[k] < ds[j])
  }

  /** The index a scan `if v < min { min, minIndex = v, i }` settles on. */
  function ArgMinFirst(ds: seq<int>): (k: nat)
    requires |ds| > 0
    ensures k < |ds|
    decreases |ds|
  {
    if |ds| == 1 then 0
    else
      var k := ArgMinFirst(ds[..|ds| - 1]);
      if ds[|ds| - 1] < ds[k] then |ds| - 1 else k
  }

  /** The scan settles on the first position holding the smallest value. */
  lemma {:induction false} ArgMinFirstIsFirstMin(ds: seq<int>)
    requires |ds| > 0
    ensures IsFirstMin(ds, ArgMinFirst(ds))
    decreases |ds|
  {
    if |ds| > 1 {
      var n := |ds| - 1;
      ArgMinFirstIsFirstMin(ds[..n]);
      assert forall j | 0 <= j < n :: ds[..n][j] == ds[j];
    }
  }

  /** Appending one more value to a scanned prefix moves the first minimum
      only when the new value is strictly smaller. */
  lemma ArgMinFirstSnoc(ds: seq<int>, d: int)
    requires |ds| > 0
    ensures ArgMinFirst(ds + [d]) == if d < ds[ArgMinFirst(ds)] then |ds| else ArgMinFirst(ds)
  {
    assert (ds + [d])[..|ds|] == ds;
  }

  /** One more step of a left-to-right scan for the first minimum. */
  lemma ArgMinFirstPrefix(ds: seq<int>, i: nat)
    requires 0 < i < |ds|
    ensures ArgMinFirst(ds[..i + 1]) == if ds[i] < ds[ArgMinFirst(ds[..i])] then i else ArgMinFirst(ds[..i])
  {
    assert ds[..i + 1] == ds[..i] + [ds[i]];
    ArgMinFirstSnoc(ds[..i], ds[i]);
  }

  /** All the inner sequences one after another. */
  function Concat<X>(gs: seq<seq<X>>): seq<X>
  {
    if gs == [] then [] else Concat(gs[..|gs| - 1]) + gs[|gs| - 1]
  }

  lemma ConcatSnoc<X>(gs: seq<seq<X>>, x: seq<X>)
    ensures Concat(gs + [x]) == Concat(gs) + x
  {
    assert (gs + [x])[..|gs|] == gs;
  }

  lemma {:induction false} ConcatAppend<X>(a: seq<seq<X>>, b: seq<seq<X>>)
    ensures Concat(a + b) == Concat(a) + Concat(b)
    decreases |b|
  {
    if b == [] {
      assert a + b == a;
    } else {
      var n := |b| - 1;
      assert a + b == (a + b[..n]) + [b[n]];
      assert b == b[..n] + [b[n]];
      ConcatSnoc(a + b[..n], b[n]);
      ConcatSnoc(b[..n], b[n]);
      ConcatAppend(a, b[..n]);
    }
  }

  /** Extending the j-th inner sequence adds exactly the new elements. */
  lemma {:induction false} ConcatUpdate<X>(gs: seq<seq<X>>, j: nat, x: seq<X>)
    requires j < |gs|
    ensures multiset(Concat(gs[j := gs[j] + x])) == multiset(Concat(gs)) + multiset(x)
    decreases |gs|
  {
    var n := |gs| - 1;
    var gs' := gs[j := gs[j] + x];
    assert Concat(gs') == Concat(gs'[..n]) + gs'[n];
    assert Concat(gs) == Concat(gs[..n]) + gs[n];
    if j == n {
      assert gs'[..n] == gs[..n];
      assert Concat(gs') == Concat(gs) + x;
    } else {
      assert gs'[..n] == gs[..n][j := gs[j] + x];
      assert gs'[n] == gs[n];
      ConcatUpdate(gs[..n], j, x);
    }
  }

  /** Flattening after deleting the i-th inner sequence loses exactly its elements. */
  lemma {:induction false} ConcatRemoveAt<X>(b: seq<seq<X>>, i: nat)
    requires i < |b|
    ensures multiset(Concat(b)) == multiset(Concat(RemoveAt(b, i))) + multiset(b[i])
  {
    var pre, post := b[..i], b[i + 1..];
    assert b == (pre + [b[i]]) + post;
    assert RemoveAt(b, i) == pre + post;
    ConcatAppend(pre + [b[i]], post);
    ConcatSnoc(pre, b[i]);
    ConcatAppend(pre, post);
    assert Concat(b) == Concat(pre) + b[i] + Concat(post);
    assert Concat(RemoveAt(b, i)) == Concat(pre) + Concat(post);
  }

  /** Flattening a permutation of the inner sequences permutes the elements. */
  lemma {:induction false} ConcatPermutation<X>(a: seq<seq<X>>, b: seq<seq<X>>)
    requires multiset(a) == multiset(b)
    ensures multiset(Concat(a)) == multiset(Concat(b))
    decreases |a|
  {
    if a == [] {
      assert |multiset(b)| == 0;
      assert b == [];
    } else {
      var n := |a| - 1;
      var x := a[n];
      assert a == a[..n] + [x];
      assert x in multiset(b);
      var i :| 0 <= i < |b| && b[i] == x;
      var rest := RemoveAt(b, i);
      RemoveAtMultiset(b, i);
      assert multiset(a[..n]) == multiset(rest);
      ConcatPermutation(a[..n], rest);
      ConcatSnoc(a[..n], x);
      ConcatRemoveAt(b, i);
    }
  }
}
