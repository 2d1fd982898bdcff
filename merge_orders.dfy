// Merging small orders into batches a worker can carry in one trip.
module MergeOrders {
  import opened Util
  import opened Packing

  /** Sorts the orders in place, heaviest first, then packs whole orders
      first-fit into batches of at most `max` weight and MaxItem items; the
      weight of an order is supplied by the caller. */
  method MergeOrders(orders: array<seq<int>>, orderWeight: seq<int> -> nat, max: nat)
    returns (reOrders: seq<seq<int>>)
    modifies orders
    ensures Descending(orders[..], orderWeight)
    ensures multiset(orders[..]) == old(multiset(orders[..]))
    ensures reOrders == Pack(orders[..], Weights(orders[..], orderWeight), max, Some(MaxItem)).bins
  {
    SortByWeightReverse(orders, orderWeight);
    reOrders := PackUnits(orders[..], Weights(orders[..], orderWeight), max, Some(MaxItem));
  }

  /** Whatever order the sort leaves equal-weight orders in, the batches
      hold exactly the items of the input orders. */
  lemma MergePermutation(orders: seq<seq<int>>, sorted: seq<seq<int>>, orderWeight: seq<int> -> nat, max: nat)
    requires multiset(sorted) == multiset(orders)
    ensures multiset(Concat(Pack(sorted, Weights(sorted, orderWeight), max, Some(MaxItem)).bins)) == multiset(Concat(orders))
  {
    PackPermutation(sorted, Weights(sorted, orderWeight), max, Some(MaxItem));
    ConcatPermutation(sorted, orders);
  }

  /** A batch that received two or more non-empty orders is within the
      weight cap and holds at most MaxItem items, and the batch weights are
      the summed order weights. */
  lemma MergeCapacity(sorted: seq<seq<int>>, orderWeight: seq<int> -> nat, max: nat, j: nat)
    requires j < |Pack(sorted, Weights(sorted, orderWeight), max, Some(MaxItem)).bins|
    ensures var ws := Weights(sorted, orderWeight);
      var b := Pack(sorted, ws, max, Some(MaxItem));
      && b.loads[j] == Load(ws, b.assign, j)
      && (Filled(sorted, b.assign, j) >= 2 ==> b.loads[j] <= max && |b.bins[j]| <= MaxItem)
  {
    var ws := Weights(sorted, orderWeight);
    PackTracks(sorted, ws, max, Some(MaxItem));
    PackCapacity(sorted, ws, max, Some(MaxItem));
  }
}
