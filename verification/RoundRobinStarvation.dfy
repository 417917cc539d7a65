/**
  Which items the smooth weighted round robin never picks once its arithmetic saturates
  (orion-lib/src/clusters/balancers/wrr.rs).
 */
module RoundRobinStarvation {
  import opened Arithmetic
  import opened Iteration
  import opened WeightedRoundRobin

  // ---------------------------------------------------------------- one call

  lemma {:induction false} TotalBetween(items: seq<LbItem>, i: nat)
    requires i < |items|
    ensures Clamp(items[i].weight) <= Total(items) <= I32_MAX
  {
    var n := |items| - 1;
    if n > 0 {
      TotalBetween(items[..n], if i < n then i else 0);
    }
  }

  /** The total of two weights and more. */
  lemma {:induction false} TotalOfTwo(items: seq<LbItem>, i: nat, j: nat)
    requires i < j < |items|
    ensures Total(items) >= SaturatingAdd(Clamp(items[i].weight), Clamp(items[j].weight))
  {
    var n := |items| - 1;
    if j < n {
      TotalOfTwo(items[..n], i, j);
    } else {
      TotalBetween(items[..n], i);
    }
  }

  /** What an item is raised to before the pick. */
  function Raised(item: LbItem): int {
    SaturatingAdd(item.current, Clamp(item.weight))
  }

  lemma PickIsFirstBest(items: seq<LbItem>, i: nat)
    requires |items| >= 2 && i < |items|
    ensures Raised(items[i]) <= Raised(items[Pick(items)])
    ensures i < Pick(items) ==> Raised(items[i]) < Raised(items[Pick(items)])
  {
    assert IncreaseAll(items)[i] == Increase(items[i]);
    assert IncreaseAll(items)[Pick(items)] == Increase(items[Pick(items)]);
  }

  /** Nothing behind an item that is raised to the largest 32-bit number is picked. */
  lemma NotBehindFull(items: seq<LbItem>, g: nat)
    requires |items| >= 2 && g < |items| && Raised(items[g]) == I32_MAX
    ensures Pick(items) <= g
    ensures Raised(items[Pick(items)]) == I32_MAX
  {
    PickIsFirstBest(items, g);
  }

  // ---------------------------------------------------------------- behind one item

  ghost predicate Giant(items: seq<LbItem>, g: nat) {
    |items| >= 2 && g < |items| && items[g].weight >= I32_MAX && items[g].current >= 0
  }

  lemma GiantStep(items: seq<LbItem>, g: nat)
    requires Giant(items, g)
    ensures Giant(Next(items), g) && Pick(items) <= g
  {
    NotBehindFull(items, g);
    TotalBetween(items, g);
    NextAt(items, g);
  }

  /** No item behind one of weight 2^31 - 1 or more is ever picked. */
  lemma BehindGiant(items: seq<LbItem>, g: nat, k: nat)
    requires |items| >= 2 && Fresh(items) && g < |items| && items[g].weight >= I32_MAX
    ensures Pick(After(items, k)) <= g
  {
    forall x: seq<LbItem> | Giant(x, g) ensures Giant(Next(x), g) {
      GiantStep(x, g);
    }
    Invariant(Next, (x: seq<LbItem>) => Giant(x, g), _ => true, items, k);
    GiantStep(After(items, k), g);
  }

  // ---------------------------------------------------------------- behind the first item

  ghost predicate OnlyFirst(items: seq<LbItem>) {
    forall i | 0 < i < |items| :: items[i].weight == 0
  }

  lemma {:induction false} TotalOnlyFirst(items: seq<LbItem>)
    requires items != [] && OnlyFirst(items)
    ensures Total(items) == Clamp(items[0].weight)
  {
    var n := |items| - 1;
    if n > 0 {
      TotalOnlyFirst(items[..n]);
    } else {
      assert Total(items[..0]) == 0;
    }
  }

  lemma OnlyFirstStep(items: seq<LbItem>)
    requires |items| >= 2 && Fresh(items) && OnlyFirst(items)
    ensures Pick(items) == 0 && Next(items) == items
  {
    PickIsFirstBest(items, 0);
    TotalOnlyFirst(items);
    forall i | 0 <= i < |items| ensures Next(items)[i] == items[i] {
      NextAt(items, i);
    }
  }

  /** As long as only the first item was picked, `k` calls took at least `k` off it and nothing off the others. */
  ghost predicate Sunk(items: seq<LbItem>, weight: nat, total: int, j: nat, k: nat) {
    && 0 < j < |items| && items[0].weight == weight < I32_MAX && items[j].weight > 0 && Total(items) == total > weight
    && items[0].current + k <= 0 && items[j].current >= 0
  }

  lemma SinkStep(items: seq<LbItem>, weight: nat, total: int, j: nat, k: nat)
    requires Sunk(items, weight, total, j, k) && k <= weight
    ensures Pick(items) == 0 ==> k < weight && Sunk(Next(items), weight, total, j, k + 1)
  {
    if Pick(items) == 0 {
      PickIsFirstBest(items, j);
      NextAt(items, 0);
      NextAt(items, j);
      forall i | 0 <= i < |items| ensures Next(items)[i].weight == items[i].weight {
        NextAt(items, i);
      }
      SameWeights(Next(items), items);
    }
  }

  lemma Sinks(items: seq<LbItem>, weight: nat, total: int, j: nat, k: nat)
    requires Sunk(items, weight, total, j, 0) && k <= weight
    requires forall l | 0 <= l < k :: Pick(After(items, l)) == 0
    ensures Sunk(After(items, k), weight, total, j, k)
  {
    forall x: seq<LbItem>, l: nat | Sunk(x, weight, total, j, l) && l < k && Pick(x) == 0
      ensures Sunk(Next(x), weight, total, j, l + 1)
    {
      SinkStep(x, weight, total, j, l);
    }
    forall l | 0 <= l < k ensures Pick(Iterate(Next, items, l)) == 0 {
      assert After(items, l) == Iterate(Next, items, l);
    }
    Progress(Next, (x: seq<LbItem>, l: nat) => Sunk(x, weight, total, j, l), (x: seq<LbItem>) => Pick(x) == 0,
             items, k);
  }

  /** If the first item's weight fits and another item has weight, one of the first `weight + 1` calls picks another. */
  lemma FirstIsLeft(items: seq<LbItem>, j: nat) returns (k: nat)
    requires Fresh(items) && 0 < j < |items| && items[0].weight < I32_MAX && items[j].weight > 0
    ensures k <= items[0].weight && Pick(After(items, k)) != 0
  {
    var weight := items[0].weight;
    TotalOfTwo(items, 0, j);
    if l :| 0 <= l < weight && Pick(After(items, l)) != 0 {
      k := l;
    } else {
      k := weight;
      Sinks(items, weight, Total(items), j, weight);
      SinkStep(After(items, weight), weight, Total(items), j, weight);
    }
  }

  /** Every call picks the first item exactly when its weight is 2^31 - 1 or more, or no other item has weight. */
  lemma StarvationIff(items: seq<LbItem>)
    requires |items| >= 2 && Fresh(items)
    ensures (forall k: nat :: Pick(After(items, k)) == 0) <==> items[0].weight >= I32_MAX || OnlyFirst(items)
  {
    if items[0].weight >= I32_MAX {
      forall k: nat ensures Pick(After(items, k)) == 0 {
        BehindGiant(items, 0, k);
      }
    } else if OnlyFirst(items) {
      OnlyFirstStep(items);
      forall k: nat ensures Pick(After(items, k)) == 0 {
        StandsStill(Next, Pick, items, k);
      }
    } else {
      var j :| 0 < j < |items| && items[j].weight > 0;
      var k := FirstIsLeft(items, j);
    }
  }

  // ---------------------------------------------------------------- behind two items

  /** Two equal weights at the front, each of them at least two thirds of 2^31 - 1. */
  ghost predicate Twins(items: seq<LbItem>, a: nat) {
    |items| >= 2 && items[0].weight == items[1].weight == a < I32_MAX && 3 * a >= 2 * I32_MAX
  }

  ghost predicate NoneHeavier(items: seq<LbItem>, a: nat) {
    forall i | 0 <= i < |items| :: items[i].weight <= a
  }

  /** The twins at the start, after the first call, and from then on: one of them is at least as far as it takes to be
      raised to the top, the other one was just picked. */
  ghost predicate Turns(items: seq<LbItem>, a: nat) {
    && Twins(items, a)
    && (|| (Fresh(items) && NoneHeavier(items, a))
        || (items[0].current == a - I32_MAX && items[1].current == a)
        || (items[0].current >= I32_MAX - a && items[1].current == 0)
        || (items[0].current == 0 && items[1].current >= I32_MAX - a))
  }

  lemma TwinsTotal(items: seq<LbItem>, a: nat)
    requires Twins(items, a)
    ensures Total(items) == I32_MAX
  {
    TotalOfTwo(items, 0, 1);
    TotalBetween(items, 0);
  }

  lemma TurnStep(items: seq<LbItem>, a: nat)
    requires Turns(items, a)
    ensures Turns(Next(items), a) && Pick(items) <= 1
  {
    TwinsTotal(items, a);
    PickIsFirstBest(items, 0);
    PickIsFirstBest(items, 1);
    NextAt(items, 0);
    NextAt(items, 1);
  }

  /** No item behind two equal weights of at least two thirds of 2^31 - 1, none of them heavier, is ever picked. */
  lemma BehindTwins(items: seq<LbItem>, a: nat, k: nat)
    requires Twins(items, a) && Fresh(items) && NoneHeavier(items, a)
    ensures Pick(After(items, k)) <= 1
  {
    forall x: seq<LbItem> | Turns(x, a) ensures Turns(Next(x), a) {
      TurnStep(x, a);
    }
    Invariant(Next, (x: seq<LbItem>) => Turns(x, a), _ => true, items, k);
    TurnStep(After(items, k), a);
  }

  lemma SumOfThree(a: LbItem, b: LbItem, c: LbItem)
    ensures WeightSum([a, b, c]) == a.weight + b.weight + c.weight
  {
    assert [a, b, c][..2] == [a, b] && [a, b][..1] == [a] && [a][..0] == [];
    assert WeightSum([a]) == a.weight;
    assert WeightSum([a, b]) == a.weight + b.weight;
  }

  /** A list that the balancer accepts, no weight of which reaches 2^31 - 1, and whose last item is never picked. */
  lemma StarvedList(k: nat)
    ensures var items := [LbItem(I32_MAX - 1, 0), LbItem(I32_MAX - 1, 0), LbItem(3, 0)];
            WeightSum(items) <= U32_MAX && Pick(After(items, k)) <= 1
  {
    var items := [LbItem(I32_MAX - 1, 0), LbItem(I32_MAX - 1, 0), LbItem(3, 0)];
    SumOfThree(items[0], items[1], items[2]);
    BehindTwins(items, I32_MAX - 1, k);
  }
}
