/**
  The smooth weighted round-robin balancer (orion-lib/src/clusters/balancers/wrr.rs).

  Each call adds every item's weight to its current weight, picks the first item with the largest
  current weight, and takes the total weight off it.  All of it in saturating 32-bit arithmetic.
 */
module WeightedRoundRobin {
  import opened Arithmetic
  import opened Iteration
  import opened Wrappers

  const I32_MAX: int := 0x7FFF_FFFF
  const I32_MIN: int := -0x8000_0000

  /** The endpoint itself is its position in the list. */
  datatype LbItem = LbItem(weight: nat, current: int)

  function SaturatingAdd(a: int, b: int): int {
    if a + b > I32_MAX then I32_MAX else if a + b < I32_MIN then I32_MIN else a + b
  }

  /** A 32-bit unsigned weight converted to a signed one. */
  function Clamp(weight: nat): nat {
    if weight > I32_MAX then I32_MAX else weight
  }

  // ---------------------------------------------------------------- one call, on values

  function Increase(item: LbItem): LbItem {
    item.(current := SaturatingAdd(item.current, Clamp(item.weight)))
  }

  function IncreaseAll(items: seq<LbItem>): seq<LbItem> {
    seq(|items|, i requires 0 <= i < |items| => Increase(items[i]))
  }

  function Total(items: seq<LbItem>): int {
    if items == [] then 0 else SaturatingAdd(Total(items[..|items| - 1]), Clamp(items[|items| - 1].weight))
  }

  /** The first position of a largest current weight. */
  predicate IsBest(items: seq<LbItem>, best: nat) {
    && best < |items|
    && (forall i | 0 <= i < |items| :: items[i].current <= items[best].current)
    && (forall i | 0 <= i < best :: items[i].current < items[best].current)
  }

  function Best(items: seq<LbItem>): (best: nat)
    requires items != []
    ensures IsBest(items, best)
  {
    if |items| == 1 then 0
    else
      var n := |items| - 1;
      var best := Best(items[..n]);
      if items[n].current > items[best].current then n else best
  }

  /** The item that a call picks; meaningless for an empty list, where nothing is picked. */
  function Pick(items: seq<LbItem>): (best: nat)
    ensures items != [] ==> best < |items|
  {
    if |items| <= 1 then 0 else Best(IncreaseAll(items))
  }

  function Next(items: seq<LbItem>): (r: seq<LbItem>)
    ensures |r| == |items|
  {
    if |items| <= 1 then items
    else
      var raised := IncreaseAll(items);
      var best := Best(raised);
      raised[best := raised[best].(current := SaturatingAdd(raised[best].current, -Total(items)))]
  }

  /** One item after a call. */
  lemma NextAt(items: seq<LbItem>, i: nat)
    requires |items| >= 2 && i < |items|
    ensures Next(items)[i].weight == items[i].weight
    ensures i != Pick(items) ==> Next(items)[i].current == SaturatingAdd(items[i].current, Clamp(items[i].weight))
    ensures i == Pick(items) ==>
              Next(items)[i].current ==
                SaturatingAdd(SaturatingAdd(items[i].current, Clamp(items[i].weight)), -Total(items))
    ensures I32_MIN <= Next(items)[i].current <= I32_MAX
  {
  }

  // ---------------------------------------------------------------- the balancer

  function WeightSum(items: seq<LbItem>): (sum: nat) {
    if items == [] then 0 else WeightSum(items[..|items| - 1]) + items[|items| - 1].weight
  }

  /** Keeps the longest prefix of the items whose total weight fits in 32 bits. */
  method CollectChecked(items: seq<LbItem>) returns (kept: seq<LbItem>)
    ensures kept <= items && WeightSum(kept) <= U32_MAX
    ensures |kept| < |items| ==> WeightSum(items[..|kept| + 1]) > U32_MAX
  {
    var total := 0;
    var i := 0;
    while i < |items| && total + items[i].weight <= U32_MAX
      invariant i <= |items| && total == WeightSum(items[..i]) <= U32_MAX
    {
      assert items[..i + 1][..i] == items[..i];
      total := total + items[i].weight;
      i := i + 1;
    }
    kept := items[..i];
    assert i < |items| ==> items[..i + 1][..i] == items[..i];
  }

  /** The total of the weights, folded with saturating addition. */
  method TotalWeight(items: seq<LbItem>) returns (total: int)
    ensures total == Total(items)
  {
    total := 0;
    var i := 0;
    while i < |items|
      invariant i <= |items| && total == Total(items[..i])
    {
      assert items[..i + 1][..i] == items[..i];
      total := SaturatingAdd(total, Clamp(items[i].weight));
      i := i + 1;
    }
    assert items[..i] == items;
  }

  /** The reduction that keeps the earlier of two equal items. */
  method BestItem(items: seq<LbItem>) returns (best: nat)
    requires items != []
    ensures best == Best(items)
  {
    best := 0;
    var i := 1;
    while i < |items|
      invariant 1 <= i <= |items| && best == Best(items[..i])
    {
      assert items[..i + 1][..i] == items[..i];
      if items[i].current > items[best].current {
        best := i;
      }
      i := i + 1;
    }
    assert items[..i] == items;
  }

  class WeightedRoundRobinBalancer {
    var items: seq<LbItem>

    constructor (given: seq<LbItem>)
      ensures items <= given && WeightSum(items) <= U32_MAX
      ensures |items| < |given| ==> WeightSum(given[..|items| + 1]) > U32_MAX
    {
      items := [];
      new;
      items := CollectChecked(given);
    }

    /** Selects the next item; nothing is selected from an empty list. */
    method NextItem() returns (r: Option<nat>)
      modifies this
      ensures old(items) == [] ==> r == None && items == []
      ensures old(items) != [] ==> r == Some(Pick(old(items))) && items == Next(old(items))
    {
      if |items| <= 1 {
        r := if items == [] then None else Some(0);
        return;
      }
      IncreaseCurrentWeights();
      var total := TotalWeight(items);
      SameWeights(items, old(items));
      var best := BestItem(items);
      items := items[best := items[best].(current := SaturatingAdd(items[best].current, -total))];
      r := Some(best);
    }

    method IncreaseCurrentWeights()
      modifies this
      ensures items == IncreaseAll(old(items))
    {
      var i := 0;
      while i < |items|
        invariant i <= |items| == |old(items)|
        invariant forall k | 0 <= k < i :: items[k] == Increase(old(items)[k])
        invariant forall k | i <= k < |items| :: items[k] == old(items)[k]
      {
        items := items[i := Increase(items[i])];
        i := i + 1;
      }
    }
  }

  // ---------------------------------------------------------------- runs

  /** The state after `k` calls, and the items they picked. */
  function After(items: seq<LbItem>, k: nat): (r: seq<LbItem>)
    ensures |r| == |items|
  {
    AfterLength(items, k);
    Iterate(Next, items, k)
  }

  function Picks(items: seq<LbItem>, k: nat): (r: seq<nat>)
    ensures |r| == k
  {
    TraceLength(Next, Pick, items, k);
    Trace(Next, Pick, items, k)
  }

  lemma AfterLength(items: seq<LbItem>, k: nat)
    ensures |Iterate(Next, items, k)| == |items|
  {
    Invariant(Next, (x: seq<LbItem>) => |x| == |items|, _ => true, items, k);
  }

  lemma PickAt(items: seq<LbItem>, k: nat, j: nat)
    requires j < k
    ensures Picks(items, k)[j] == Pick(After(items, j))
  {
    TraceAt(Next, Pick, items, k, j);
  }

  predicate Fresh(items: seq<LbItem>) {
    forall i | 0 <= i < |items| :: items[i].current == 0
  }

  function CurrentSum(items: seq<LbItem>): int {
    if items == [] then 0 else CurrentSum(items[..|items| - 1]) + items[|items| - 1].current
  }

  // ---------------------------------------------------------------- sums

  lemma {:induction false} WeightBelowSum(items: seq<LbItem>, i: nat)
    requires i < |items|
    ensures items[i].weight <= WeightSum(items)
  {
    var n := |items| - 1;
    if i < n {
      WeightBelowSum(items[..n], i);
    }
  }

  lemma {:induction false} TotalIsExact(items: seq<LbItem>)
    requires WeightSum(items) <= I32_MAX
    ensures Total(items) == WeightSum(items)
  {
    if items != [] {
      TotalIsExact(items[..|items| - 1]);
    }
  }

  lemma {:induction false} SameWeights(a: seq<LbItem>, b: seq<LbItem>)
    requires |a| == |b| && forall i | 0 <= i < |a| :: a[i].weight == b[i].weight
    ensures WeightSum(a) == WeightSum(b) && Total(a) == Total(b)
  {
    if a != [] {
      SameWeights(a[..|a| - 1], b[..|b| - 1]);
    }
  }
}
