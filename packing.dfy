// First-fit packing of units (whole orders, or single items) into batches
// under a weight cap and, for merged orders, an item-count cap.
module Packing {
  import opened Util

  /** The item cap of a merged batch. */
  const MaxItem: nat := 15

  /** Whether a batch holding `count` items of tracked weight `load` takes a
      unit of `size` items and weight `w`: the weight stays within `max` and
      the items within the cap, if there is one; an empty batch takes
      anything. */
  predicate Fits(load: nat, count: nat, w: nat, size: nat, max: nat, cap: Option<nat>)
  {
    (load + w <= max && (cap.None? || count + size <= cap.value)) || count == 0
  }

  /** The batches built so far (`reOrders`), their tracked weights
      (`ordersWeight`), and the batch every unit went to. */
  datatype Batches = Batches(bins: seq<seq<int>>, loads: seq<nat>, assign: seq<nat>)

  predicate WellFormed(b: Batches)
  {
    |b.bins| == |b.loads| >= 1 && forall k | 0 <= k < |b.assign| :: b.assign[k] < |b.bins|
  }

  /** The first batch at or after i that takes the unit, or |bins| when none
      does. */
  function FirstFitFrom(b: Batches, u: seq<int>, w: nat, max: nat, cap: Option<nat>, i: nat): (j: nat)
    requires WellFormed(b) && i <= |b.bins|
    ensures i <= j <= |b.bins|
    ensures forall q | i <= q < j :: !Fits(b.loads[q], |b.bins[q]|, w, |u|, max, cap)
    ensures j < |b.bins| ==> Fits(b.loads[j], |b.bins[j]|, w, |u|, max, cap)
    decreases |b.bins| - i
  {
    if i == |b.bins| || Fits(b.loads[i], |b.bins[i]|, w, |u|, max, cap) then i
    else FirstFitFrom(b, u, w, max, cap, i + 1)
  }

  function FirstFit(b: Batches, u: seq<int>, w: nat, max: nat, cap: Option<nat>): (j: nat)
    requires WellFormed(b)
  {
    FirstFitFrom(b, u, w, max, cap, 0)
  }

  /** One unit placed: appended to the first batch that takes it, or to a
      new batch of its own. */
  function Place(b: Batches, u: seq<int>, w: nat, max: nat, cap: Option<nat>): (r: Batches)
    requires WellFormed(b)
  {
    var j := FirstFit(b, u, w, max, cap);
    if j < |b.bins| then Batches(b.bins[j := b.bins[j] + u], b.loads[j := b.loads[j] + w], b.assign + [j])
    else Batches(b.bins + [u], b.loads + [w], b.assign + [j])
  }

  /** The units placed one after another, from a single empty batch. */
  function Pack(units: seq<seq<int>>, ws: seq<nat>, max: nat, cap: Option<nat>): (b: Batches)
    requires |units| == |ws|
    ensures WellFormed(b) && |b.assign| == |units|
    decreases |units|
  {
    if units == [] then Batches([[]], [0], [])
    else
      var n := |units| - 1;
      Place(Pack(units[..n], ws[..n], max, cap), units[n], ws[n], max, cap)
  }

  /** The units sent to batch j, one after another. */
  function Gather(units: seq<seq<int>>, assign: seq<nat>, j: nat): seq<int>
    requires |assign| == |units|
    decreases |units|
  {
    if units == [] then []
    else
      var n := |units| - 1;
      Gather(units[..n], assign[..n], j) + (if assign[n] == j then units[n] else [])
  }

  /** The summed weight of the units sent to batch j. */
  function Load(ws: seq<nat>, assign: seq<nat>, j: nat): nat
    requires |assign| == |ws|
    decreases |ws|
  {
    if ws == [] then 0
    else
      var n := |ws| - 1;
      Load(ws[..n], assign[..n], j) + (if assign[n] == j then ws[n] else 0)
  }

  /** How many units holding at least one item were sent to batch j. */
  function Filled(units: seq<seq<int>>, assign: seq<nat>, j: nat): nat
    requires |assign| == |units|
    decreases |units|
  {
    if units == [] then 0
    else
      var n := |units| - 1;
      Filled(units[..n], assign[..n], j) + (if assign[n] == j && units[n] != [] then 1 else 0)
  }

  /** Every batch is exactly its units, intact and in placement order, and
      its tracked weight is their summed weight. */
  predicate Tracked(units: seq<seq<int>>, ws: seq<nat>, b: Batches)
    requires |b.assign| == |units| == |ws|
  {
    |b.bins| == |b.loads| &&
    forall j | 0 <= j < |b.bins| :: b.bins[j] == Gather(units, b.assign, j) && b.loads[j] == Load(ws, b.assign, j)
  }

  lemma PlaceTracked(pre: seq<seq<int>>, pws: seq<nat>, p: Batches, u: seq<int>, w: nat, max: nat, cap: Option<nat>)
    requires WellFormed(p) && |p.assign| == |pre| == |pws| && Tracked(pre, pws, p)
    ensures Tracked(pre + [u], pws + [w], Place(p, u, w, max, cap))
  {
    var units, ws, n := pre + [u], pws + [w], |pre|;
    var b := Place(p, u, w, max, cap);
    var f := FirstFit(p, u, w, max, cap);
    assert units[..n] == pre && ws[..n] == pws && b.assign[..n] == p.assign && b.assign[n] == f;
    forall j | 0 <= j < |b.bins|
      ensures b.bins[j] == Gather(units, b.assign, j) && b.loads[j] == Load(ws, b.assign, j)
    {
      assert Gather(units, b.assign, j) == Gather(pre, p.assign, j) + (if f == j then u else []);
      assert Load(ws, b.assign, j) == Load(pws, p.assign, j) + (if f == j then w else 0);
      if j == |p.bins| {
        GatherUnused(pre, p.assign, j);
        LoadUnused(pws, p.assign, j);
      }
    }
  }

  lemma {:induction false} PackTracks(units: seq<seq<int>>, ws: seq<nat>, max: nat, cap: Option<nat>)
    requires |units| == |ws|
    ensures Tracked(units, ws, Pack(units, ws, max, cap))
    decreases |units|
  {
    if units != [] {
      var n := |units| - 1;
      PackTracks(units[..n], ws[..n], max, cap);
      assert units == units[..n] + [units[n]] && ws == ws[..n] + [ws[n]];
      PlaceTracked(units[..n], ws[..n], Pack(units[..n], ws[..n], max, cap), units[n], ws[n], max, cap);
    }
  }

  lemma {:induction false} GatherUnused(units: seq<seq<int>>, assign: seq<nat>, j: nat)
    requires |assign| == |units| && forall k | 0 <= k < |assign| :: assign[k] < j
    ensures Gather(units, assign, j) == []
    decreases |units|
  {
    if units != [] {
      GatherUnused(units[..|units| - 1], assign[..|units| - 1], j);
    }
  }

  lemma {:induction false} LoadUnused(ws: seq<nat>, assign: seq<nat>, j: nat)
    requires |assign| == |ws| && forall k | 0 <= k < |assign| :: assign[k] < j
    ensures Load(ws, assign, j) == 0
    decreases |ws|
  {
    if ws != [] {
      LoadUnused(ws[..|ws| - 1], assign[..|ws| - 1], j);
    }
  }

  /** Packing neither loses nor invents an item. */
  lemma {:induction false} PackPermutation(units: seq<seq<int>>, ws: seq<nat>, max: nat, cap: Option<nat>)
    requires |units| == |ws|
    ensures multiset(Concat(Pack(units, ws, max, cap).bins)) == multiset(Concat(units))
    decreases |units|
  {
    if units != [] {
      var n := |units| - 1;
      var p := Pack(units[..n], ws[..n], max, cap);
      PackPermutation(units[..n], ws[..n], max, cap);
      assert units == units[..n] + [units[n]];
      ConcatSnoc(units[..n], units[n]);
      var j := FirstFit(p, units[n], ws[n], max, cap);
      if j < |p.bins| {
        ConcatUpdate(p.bins, j, units[n]);
      } else {
        ConcatSnoc(p.bins, units[n]);
      }
    }
  }

  /** A batch holding items of two or more units keeps within the weight
      cap and the item cap; a batch without items received none. */
  predicate Capped(units: seq<seq<int>>, b: Batches, max: nat, cap: Option<nat>)
    requires |b.assign| == |units| && |b.bins| == |b.loads|
  {
    forall j | 0 <= j < |b.bins| ::
      && (|b.bins[j]| == 0 ==> Filled(units, b.assign, j) == 0)
      && (Filled(units, b.assign, j) >= 2 ==> b.loads[j] <= max && (cap.Some? ==> |b.bins[j]| <= cap.value))
  }

  lemma PlaceCapped(pre: seq<seq<int>>, p: Batches, u: seq<int>, w: nat, max: nat, cap: Option<nat>)
    requires WellFormed(p) && |p.assign| == |pre| && Capped(pre, p, max, cap)
    ensures Capped(pre + [u], Place(p, u, w, max, cap), max, cap)
  {
    var units, n := pre + [u], |pre|;
    var b := Place(p, u, w, max, cap);
    var f := FirstFit(p, u, w, max, cap);
    assert units[..n] == pre && b.assign[..n] == p.assign && b.assign[n] == f;
    forall j | 0 <= j < |b.bins|
      ensures |b.bins[j]| == 0 ==> Filled(units, b.assign, j) == 0
      ensures Filled(units, b.assign, j) >= 2 ==> b.loads[j] <= max && (cap.Some? ==> |b.bins[j]| <= cap.value)
    {
      assert Filled(units, b.assign, j) == Filled(pre, p.assign, j) + (if f == j && u != [] then 1 else 0);
      if j == |p.bins| {
        FilledUnused(pre, p.assign, j);
      }
    }
  }

  lemma {:induction false} PackCapacity(units: seq<seq<int>>, ws: seq<nat>, max: nat, cap: Option<nat>)
    requires |units| == |ws|
    ensures Capped(units, Pack(units, ws, max, cap), max, cap)
    decreases |units|
  {
    if units != [] {
      var n := |units| - 1;
      PackCapacity(units[..n], ws[..n], max, cap);
      assert units == units[..n] + [units[n]];
      PlaceCapped(units[..n], Pack(units[..n], ws[..n], max, cap), units[n], ws[n], max, cap);
    }
  }

  lemma {:induction false} FilledUnused(units: seq<seq<int>>, assign: seq<nat>, j: nat)
    requires |assign| == |units| && forall k | 0 <= k < |assign| :: assign[k] < j
    ensures Filled(units, assign, j) == 0
    decreases |units|
  {
    if units != [] {
      FilledUnused(units[..|units| - 1], assign[..|units| - 1], j);
    }
  }

  /** There is always a batch, a new one opens only for a unit, so there
      are no more batches than units, and every batch received a unit. */
  lemma {:induction false} PackCount(units: seq<seq<int>>, ws: seq<nat>, max: nat, cap: Option<nat>)
    requires |units| == |ws|
    ensures var b := Pack(units, ws, max, cap);
      && |b.bins| <= (if units == [] then 1 else |units|)
      && (units != [] ==> forall j | 0 <= j < |b.bins| :: j in b.assign)
    decreases |units|
  {
    if units != [] {
      var n := |units| - 1;
      var p := Pack(units[..n], ws[..n], max, cap);
      PackCount(units[..n], ws[..n], max, cap);
      var b := Pack(units, ws, max, cap);
      assert b.assign == p.assign + [b.assign[n]];
      if n == 0 {
        assert Fits(p.loads[0], |p.bins[0]|, ws[n], |units[n]|, max, cap);
      }
    }
  }

  /** Packing more units only extends the earlier placements. */
  lemma {:induction false} PackPrefix(units: seq<seq<int>>, ws: seq<nat>, max: nat, cap: Option<nat>, k: nat)
    requires |units| == |ws| && k <= |units|
    ensures Pack(units[..k], ws[..k], max, cap).assign == Pack(units, ws, max, cap).assign[..k]
    decreases |units|
  {
    if k < |units| {
      var n := |units| - 1;
      assert units[..n][..k] == units[..k] && ws[..n][..k] == ws[..k];
      PackPrefix(units[..n], ws[..n], max, cap, k);
    } else {
      assert units[..k] == units && ws[..k] == ws;
    }
  }

  /** Every unit went to the first batch that took it when its turn came,
      and to a new batch only when no batch took it. */
  lemma PackFirstFit(units: seq<seq<int>>, ws: seq<nat>, max: nat, cap: Option<nat>, k: nat)
    requires |units| == |ws| && k < |units|
    ensures var before := Pack(units[..k], ws[..k], max, cap);
      var j := Pack(units, ws, max, cap).assign[k];
      && j <= |before.bins|
      && (forall q | 0 <= q < j :: !Fits(before.loads[q], |before.bins[q]|, ws[k], |units[k]|, max, cap))
      && (j < |before.bins| ==> Fits(before.loads[j], |before.bins[j]|, ws[k], |units[k]|, max, cap))
  {
    PackPrefix(units, ws, max, cap, k + 1);
    assert units[..k + 1][..k] == units[..k] && ws[..k + 1][..k] == ws[..k];
  }

  /** The weight of every unit. */
  function Weights<T>(s: seq<T>, weight: T -> nat): (r: seq<nat>)
    ensures |r| == |s| && forall k | 0 <= k < |s| :: r[k] == weight(s[k])
  {
    seq(|s|, k requires 0 <= k < |s| => weight(s[k]))
  }

  predicate Descending<T>(s: seq<T>, weight: T -> nat)
  {
    forall p, q | 0 <= p < q < |s| :: weight(s[p]) >= weight(s[q])
  }

  /** sort.Sort with a reverse-weight Less: rearranges the slice in place
      so that weights never increase. */
  method SortByWeightReverse<T>(a: array<T>, weight: T -> nat)
    modifies a
    ensures Descending(a[..], weight)
    ensures multiset(a[..]) == old(multiset(a[..]))
  {
    for i := 0 to a.Length
      invariant Descending(a[..i], weight)
      invariant multiset(a[..]) == old(multiset(a[..]))
    {
      SinkLeft(a, i, weight);
    }
  }

  /** a[..i + 1] is in order, except that the unit at j may still be
      heavier than those before it. */
  predicate SortedBut<T>(s: seq<T>, i: nat, j: nat, weight: T -> nat)
    requires i < |s|
  {
    forall p, q | 0 <= p < q <= i && q != j :: weight(s[p]) >= weight(s[q])
  }

  /** Swapping the unit at j with a lighter left neighbour moves the
      exception one place left. */
  lemma SinkStep<T>(s: seq<T>, i: nat, j: nat, weight: T -> nat)
    requires 0 < j <= i < |s| && SortedBut(s, i, j, weight) && weight(s[j - 1]) < weight(s[j])
    ensures SortedBut(s[j - 1 := s[j]][j := s[j - 1]], i, j - 1, weight)
    ensures multiset(s[j - 1 := s[j]][j := s[j - 1]]) == multiset(s)
  {
    var r := s[j - 1 := s[j]][j := s[j - 1]];
    forall p, q | 0 <= p < q <= i && q != j - 1 ensures weight(r[p]) >= weight(r[q]) {
      if q == j {
        if p < j - 1 {
          assert weight(s[p]) >= weight(s[j - 1]);
        }
      } else if p == j - 1 {
        assert weight(s[j - 1]) >= weight(s[q]);
        assert weight(s[j]) >= weight(s[j - 1]);
      } else if p == j {
        assert weight(s[j - 1]) >= weight(s[q]);
      }
    }
    assert s == s[..j - 1] + [s[j - 1], s[j]] + s[j + 1..];
    assert r == s[..j - 1] + [s[j], s[j - 1]] + s[j + 1..];
  }

  /** Once the exception stops moving, the whole prefix is in order. */
  lemma SinkDone<T>(s: seq<T>, i: nat, j: nat, weight: T -> nat)
    requires j <= i < |s| && SortedBut(s, i, j, weight)
    requires j == 0 || weight(s[j - 1]) >= weight(s[j])
    ensures Descending(s[..i + 1], weight)
  {
    forall p, q | 0 <= p < q <= i ensures weight(s[p]) >= weight(s[q]) {
      if q == j && p < j - 1 {
        assert weight(s[p]) >= weight(s[j - 1]);
      }
    }
  }

  /** Moves a[i] left past every lighter unit of the sorted prefix a[..i]. */
  method SinkLeft<T>(a: array<T>, i: nat, weight: T -> nat)
    requires i < a.Length && Descending(a[..i], weight)
    modifies a
    ensures Descending(a[..i + 1], weight)
    ensures multiset(a[..]) == old(multiset(a[..]))
  {
    var j := i;
    assert SortedBut(a[..], i, j, weight) by {
      forall p, q | 0 <= p < q <= i && q != j ensures weight(a[p]) >= weight(a[q]) {
        assert a[..i][p] == a[p] && a[..i][q] == a[q];
      }
    }
    while j > 0 && weight(a[j - 1]) < weight(a[j])
      invariant 0 <= j <= i && SortedBut(a[..], i, j, weight)
      invariant multiset(a[..]) == old(multiset(a[..]))
    {
      ghost var s := a[..];
      SinkStep(s, i, j, weight);
      a[j - 1], a[j] := a[j], a[j - 1];
      assert a[..] == s[j - 1 := s[j]][j := s[j - 1]];
      j := j - 1;
    }
    SinkDone(a[..], i, j, weight);
  }

  /** The index FirstFit picks, found by scanning the batches in order. */
  method FindFit(reOrders: seq<seq<int>>, ordersWeight: seq<nat>, ghost assign: seq<nat>, u: seq<int>, w: nat, max: nat, cap: Option<nat>)
    returns (j: nat)
    requires WellFormed(Batches(reOrders, ordersWeight, assign))
    ensures j == FirstFit(Batches(reOrders, ordersWeight, assign), u, w, max, cap)
  {
    ghost var b := Batches(reOrders, ordersWeight, assign);
    j := 0;
    while j < |reOrders| && !Fits(ordersWeight[j], |reOrders[j]|, w, |u|, max, cap)
      invariant j <= |reOrders|
      invariant FirstFitFrom(b, u, w, max, cap, j) == FirstFit(b, u, w, max, cap)
      decreases |reOrders| - j
    {
      j := j + 1;
    }
  }

  /** Packing one more unit is placing it into the batches of the prefix. */
  lemma PackStep(units: seq<seq<int>>, ws: seq<nat>, max: nat, cap: Option<nat>, k: nat)
    requires |units| == |ws| && k < |units|
    ensures Pack(units[..k + 1], ws[..k + 1], max, cap) == Place(Pack(units[..k], ws[..k], max, cap), units[k], ws[k], max, cap)
  {
    assert units[..k + 1][..k] == units[..k] && ws[..k + 1][..k] == ws[..k];
  }

  /** The placement loop shared by MergeOrders and SplitOrder: every unit
      goes to the first batch that takes it, or opens a batch of its own. */
  method PackUnits(units: seq<seq<int>>, ws: seq<nat>, max: nat, cap: Option<nat>)
    returns (reOrders: seq<seq<int>>)
    requires |units| == |ws|
    ensures reOrders == Pack(units, ws, max, cap).bins
  {
    reOrders := [[]];
    var ordersWeight: seq<nat> := [0];
    ghost var assign: seq<nat> := [];
    for k := 0 to |units|
      invariant Batches(reOrders, ordersWeight, assign) == Pack(units[..k], ws[..k], max, cap)
    {
      PackStep(units, ws, max, cap, k);
      var j := FindFit(reOrders, ordersWeight, assign, units[k], ws[k], max, cap);
      if j < |reOrders| {
        reOrders := reOrders[j := reOrders[j] + units[k]];
        ordersWeight := ordersWeight[j := ordersWeight[j] + ws[k]];
      } else {
        reOrders := reOrders + [units[k]];
        ordersWeight := ordersWeight + [ws[k]];
      }
      assign := assign + [j];
    }
    assert units[..|units|] == units && ws[..|ws|] == ws;
  }
}
