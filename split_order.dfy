// Splitting an order too heavy for one trip into several.
module SplitOrder {
  import opened Util
  import opened Packing

  /** Every item as a unit of its own. */
  function Singletons(s: seq<int>): (r: seq<seq<int>>)
    ensures |r| == |s| && forall k | 0 <= k < |s| :: r[k] == [s[k]]
  {
    seq(|s|, k requires 0 <= k < |s| => [s[k]])
  }

  /** An order within the cap comes back as it is. A heavier one has its
      items sorted in place, heaviest first, and packed first-fit into bins
      of at most `max` weight. The order's weight and each item's weight
      are supplied by the caller. */
  method SplitOrder(order: array<int>, orderWeight: seq<int> -> nat, itemWeight: int -> nat, max: nat)
    returns (reOrders: seq<seq<int>>)
    modifies order
    ensures orderWeight(old(order[..])) <= max ==> order[..] == old(order[..]) && reOrders == [order[..]]
    ensures orderWeight(old(order[..])) > max ==>
      && Descending(order[..], itemWeight)
      && multiset(order[..]) == old(multiset(order[..]))
      && reOrders == Pack(Singletons(order[..]), Weights(order[..], itemWeight), max, None).bins
  {
    if orderWeight(order[..]) <= max {
      return [order[..]];
    }
    SortByWeightReverse(order, itemWeight);
    reOrders := PackUnits(Singletons(order[..]), Weights(order[..], itemWeight), max, None);
  }

  lemma {:induction false} ConcatSingletons(s: seq<int>)
    ensures Concat(Singletons(s)) == s
    decreases |s|
  {
    if s != [] {
      var n := |s| - 1;
      assert Singletons(s) == Singletons(s[..n]) + [[s[n]]];
      ConcatSnoc(Singletons(s[..n]), [s[n]]);
      ConcatSingletons(s[..n]);
      assert s == s[..n] + [s[n]];
    }
  }

  /** The bins hold exactly the items of the order. */
  lemma SplitPermutation(s: seq<int>, itemWeight: int -> nat, max: nat)
    ensures multiset(Concat(Pack(Singletons(s), Weights(s, itemWeight), max, None).bins)) == multiset(s)
  {
    PackPermutation(Singletons(s), Weights(s, itemWeight), max, None);
    ConcatSingletons(s);
  }

  /** With one item per unit, the units in a bin count its items. */
  lemma {:induction false} FilledSingletons(s: seq<int>, assign: seq<nat>, j: nat)
    requires |assign| == |s|
    ensures Filled(Singletons(s), assign, j) == |Gather(Singletons(s), assign, j)|
    decreases |s|
  {
    if s != [] {
      var n := |s| - 1;
      assert Singletons(s)[..n] == Singletons(s[..n]);
      FilledSingletons(s[..n], assign[..n], j);
    }
  }

  /** Every bin with two or more items is within the weight cap, every bin
      weight is the summed weight of its items, and when the order has
      items no bin is empty and there are no more bins than items. */
  lemma SplitBins(s: seq<int>, itemWeight: int -> nat, max: nat)
    ensures var ws := Weights(s, itemWeight);
      var b := Pack(Singletons(s), ws, max, None);
      && (forall j | 0 <= j < |b.bins| :: b.loads[j] == Load(ws, b.assign, j))
      && (forall j | 0 <= j < |b.bins| :: |b.bins[j]| >= 2 ==> b.loads[j] <= max)
      && (s != [] ==> |b.bins| <= |s| && forall j | 0 <= j < |b.bins| :: |b.bins[j]| > 0)
  {
    var units, ws := Singletons(s), Weights(s, itemWeight);
    var b := Pack(units, ws, max, None);
    PackTracks(units, ws, max, None);
    PackCapacity(units, ws, max, None);
    PackCount(units, ws, max, None);
    forall j | 0 <= j < |b.bins| ensures Filled(units, b.assign, j) == |b.bins[j]| {
      FilledSingletons(s, b.assign, j);
    }
    if s != [] {
      forall j | 0 <= j < |b.bins| ensures |b.bins[j]| > 0 {
        assert j in b.assign;
        var k :| 0 <= k < |b.assign| && b.assign[k] == j;
        FilledMember(units, b.assign, j, k);
      }
    }
  }

  /** A bin that received a non-empty unit holds items of at least one. */
  lemma {:induction false} FilledMember(units: seq<seq<int>>, assign: seq<nat>, j: nat, k: nat)
    requires |assign| == |units| && k < |units| && assign[k] == j && units[k] != []
    ensures Filled(units, assign, j) >= 1
    decreases |units|
  {
    var n := |units| - 1;
    if k < n {
      FilledMember(units[..n], assign[..n], j, k);
    }
  }
}
