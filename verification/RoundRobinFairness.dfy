/**
  Fairness of the smooth weighted round robin (orion-lib/src/clusters/balancers/wrr.rs).

  As long as no addition saturates, every run shares the calls in proportion to the weights.  When the total fits in
  31 bits, not saturating during one period is also necessary.  A bound with a harmonic number lets a caller check
  beforehand that no run ever saturates.
 */
module RoundRobinFairness {
  import opened Arithmetic
  import opened Iteration
  import opened WeightedRoundRobin

  // ---------------------------------------------------------------- sums

  lemma {:induction false} SumNonPositive(items: seq<LbItem>)
    requires forall i | 0 <= i < |items| :: items[i].current <= 0
    ensures CurrentSum(items) <= 0
    ensures (forall i | 0 <= i < |items| :: items[i].current == 0) ==> CurrentSum(items) == 0
  {
    if items != [] {
      SumNonPositive(items[..|items| - 1]);
    }
  }

  lemma {:induction false} SumUpdate(items: seq<LbItem>, i: nat, item: LbItem)
    requires i < |items|
    ensures CurrentSum(items[i := item]) == CurrentSum(items) - items[i].current + item.current
  {
    var n := |items| - 1;
    if i < n {
      SumUpdate(items[..n], i, item);
      assert items[i := item][..n] == items[..n][i := item];
    } else {
      assert items[i := item][..n] == items[..n];
    }
  }

  lemma {:induction false} SumAdded(a: seq<LbItem>, b: seq<LbItem>)
    requires |a| == |b| && forall i | 0 <= i < |a| :: b[i].current == a[i].current + a[i].weight
    ensures CurrentSum(b) == CurrentSum(a) + WeightSum(a)
  {
    if a != [] {
      SumAdded(a[..|a| - 1], b[..|b| - 1]);
    }
  }

  // ---------------------------------------------------------------- exact calls

  /** No addition of the next call saturates. */
  ghost predicate Room(items: seq<LbItem>) {
    forall i | 0 <= i < |items| :: items[i].current + items[i].weight <= I32_MAX
  }

  /** None of the first `k` calls saturates an addition. */
  ghost predicate Unsaturated(items: seq<LbItem>, k: nat) {
    forall j | 0 <= j < k :: Room(After(items, j))
  }

  lemma UnsaturatedLast(items: seq<LbItem>, k: nat)
    requires k > 0
    ensures Unsaturated(items, k) <==> Unsaturated(items, k - 1) && Room(After(items, k - 1))
  {
  }

  /** The weights are `total` together, the current weights cancel out, and none is as low as `-total`. */
  ghost predicate Balanced(items: seq<LbItem>, total: int) {
    && |items| >= 2
    && WeightSum(items) == total && 0 < total <= I32_MAX
    && CurrentSum(items) == 0
    && forall i | 0 <= i < |items| :: -total < items[i].current
  }

  /** In a balanced state with room one call is exact arithmetic. */
  lemma RaisedExactly(items: seq<LbItem>, total: int)
    requires Balanced(items, total) && Room(items)
    ensures Total(items) == total
    ensures forall i | 0 <= i < |items| ::
              IncreaseAll(items)[i] == items[i].(current := items[i].current + items[i].weight)
    ensures CurrentSum(IncreaseAll(items)) == total
  {
    forall i | 0 <= i < |items|
      ensures Increase(items[i]) == items[i].(current := items[i].current + items[i].weight)
    {
      WeightBelowSum(items, i);
    }
    TotalIsExact(items);
    SumAdded(items, IncreaseAll(items));
  }

  /** A call keeps the balance, and moves one total from the picked item to the weights of all. */
  lemma BalancedStep(items: seq<LbItem>, total: int)
    requires Balanced(items, total) && Room(items)
    ensures Balanced(Next(items), total)
    ensures forall i | 0 <= i < |items| ::
              && Next(items)[i].weight == items[i].weight
              && Next(items)[i].current ==
                 items[i].current + items[i].weight - (if i == Pick(items) then total else 0)
  {
    RaisedExactly(items, total);
    var raised := IncreaseAll(items);
    var best := Best(raised);
    assert raised[best].current > 0 by {
      if raised[best].current <= 0 {
        SumNonPositive(raised);
      }
    }
    SumUpdate(raised, best, Next(items)[best]);
    SameWeights(Next(items), items);
  }

  /** The books of an item: its current weight is what `|picks|` calls earned it less what they gave it. */
  ghost predicate Ledger(item: LbItem, now: LbItem, total: nat, picks: seq<nat>, i: nat) {
    && now.weight == item.weight
    && now.current == Times(|picks|, item.weight) - Times(Count(picks, i), total)
  }

  lemma LedgerStep(item: LbItem, now: LbItem, next: LbItem, total: nat, picks: seq<nat>, p: nat, i: nat)
    requires Ledger(item, now, total, picks, i)
    requires next.weight == now.weight && next.current == now.current + now.weight - (if i == p then total else 0)
    ensures Ledger(item, next, total, picks + [p], i)
  {
    assert (picks + [p])[..|picks|] == picks;
  }

  lemma FreshBalanced(items: seq<LbItem>)
    requires |items| >= 2 && Fresh(items) && 0 < WeightSum(items) <= I32_MAX
    ensures Balanced(items, WeightSum(items))
  {
    SumNonPositive(items);
  }

  lemma RunBalanced(items: seq<LbItem>, k: nat)
    requires Balanced(items, WeightSum(items)) && Unsaturated(items, k)
    ensures Balanced(After(items, k), WeightSum(items))
  {
    var total := WeightSum(items);
    var inv := (x: seq<LbItem>) => Balanced(x, total);
    forall x: seq<LbItem> | inv(x) && Room(x) ensures inv(Next(x)) {
      BalancedStep(x, total);
    }
    forall j | 0 <= j < k ensures Room(Iterate(Next, items, j)) {
      assert Room(After(items, j));
    }
    Invariant(Next, inv, Room, items, k);
  }

  lemma LastCall(items: seq<LbItem>, k: nat)
    requires Balanced(items, WeightSum(items)) && Unsaturated(items, k) && k > 0
    ensures Unsaturated(items, k - 1)
    ensures Balanced(After(items, k - 1), WeightSum(items)) && Room(After(items, k - 1))
  {
    UnsaturatedLast(items, k);
    RunBalanced(items, k - 1);
  }

  lemma CallKeepsLedger(item: LbItem, now: seq<LbItem>, total: nat, picks: seq<nat>, i: nat)
    requires Balanced(now, total) && Room(now) && i < |now| && Ledger(item, now[i], total, picks, i)
    ensures |Next(now)| == |now| && Ledger(item, Next(now)[i], total, picks + [Pick(now)], i)
  {
    BalancedStep(now, total);
    LedgerStep(item, now[i], Next(now)[i], total, picks, Pick(now), i);
  }

  lemma NextLedger(items: seq<LbItem>, k: nat, i: nat, total: nat)
    requires i < |items| && k > 0 && Balanced(After(items, k - 1), total) && Room(After(items, k - 1))
    requires Ledger(items[i], After(items, k - 1)[i], total, Picks(items, k - 1), i)
    ensures Ledger(items[i], After(items, k)[i], total, Picks(items, k), i)
  {
    CallKeepsLedger(items[i], After(items, k - 1), total, Picks(items, k - 1), i);
  }

  lemma {:induction false} RunLedger(items: seq<LbItem>, k: nat, i: nat)
    requires Fresh(items) && i < |items| && Balanced(items, WeightSum(items)) && Unsaturated(items, k)
    ensures Ledger(items[i], After(items, k)[i], WeightSum(items), Picks(items, k), i)
  {
    if k > 0 {
      LastCall(items, k);
      RunLedger(items, k - 1, i);
      NextLedger(items, k, i, WeightSum(items));
    }
  }

  // ---------------------------------------------------------------- exact shares

  /** `shares` divides `k` calls exactly in proportion to the weights. */
  ghost predicate ExactShares(items: seq<LbItem>, k: nat, shares: seq<nat>) {
    && |shares| == |items| && Sum(shares) == k
    && forall i | 0 <= i < |items| :: InProportion(k, items[i].weight, WeightSum(items), shares[i])
  }

  ghost predicate InProportion(k: nat, weight: nat, total: nat, share: nat) {
    Times(k, weight) == Times(share, total)
  }

  lemma AtMostShare(items: seq<LbItem>, k: nat, share: nat, i: nat)
    requires |items| >= 2 && Fresh(items) && 0 < WeightSum(items) <= I32_MAX && Unsaturated(items, k) && i < |items|
    requires InProportion(k, items[i].weight, WeightSum(items), share)
    ensures Count(Picks(items, k), i) <= share
    ensures Count(Picks(items, k), i) == share ==> After(items, k)[i] == items[i]
  {
    FreshBalanced(items);
    RunBalanced(items, k);
    RunLedger(items, k, i);
    NotAhead(items[i], After(items, k)[i], WeightSum(items), Picks(items, k), i, share);
  }

  /** The debt of an item is a multiple of the total and more than minus one total, so it is not negative. */
  lemma NotAhead(item: LbItem, now: LbItem, total: nat, picks: seq<nat>, i: nat, share: nat)
    requires item.current == 0 && Ledger(item, now, total, picks, i) && -(total as int) < now.current
    requires InProportion(|picks|, item.weight, total, share)
    ensures Count(picks, i) <= share
    ensures Count(picks, i) == share ==> now == item
  {
    var count := Count(picks, i);
    if count > share {
      TimesMonotone(share + 1, count, total);
    }
  }

  lemma PicksInRange(items: seq<LbItem>, k: nat)
    requires items != []
    ensures CountSum(Picks(items, k), |items|) == k
  {
    var picks := Picks(items, k);
    forall j | 0 <= j < k ensures picks[j] < |items| {
      PickAt(items, k, j);
    }
    CountsAddUp(picks, |items|);
  }

  /** Whenever `k` calls can be divided exactly in proportion to the weights, every run of `k` calls from a fresh list
      that does not saturate divides them so, and brings the balancer back to where it started. */
  lemma FairWheneverPossible(items: seq<LbItem>, k: nat, shares: seq<nat>)
    requires |items| >= 2 && Fresh(items) && 0 < WeightSum(items) <= I32_MAX && Unsaturated(items, k)
    requires ExactShares(items, k, shares)
    ensures After(items, k) == items
    ensures forall i | 0 <= i < |items| :: Count(Picks(items, k), i) == shares[i]
  {
    var picks := Picks(items, k);
    assert forall i | 0 <= i < |shares| :: Count(picks, i) == shares[i] by {
      forall i | 0 <= i < |shares| ensures Count(picks, i) <= shares[i] {
        AtMostShare(items, k, shares[i], i);
      }
      PicksInRange(items, k);
      SqueezeCounts(picks, shares);
    }
    forall i | 0 <= i < |items| ensures After(items, k)[i] == items[i] {
      AtMostShare(items, k, shares[i], i);
    }
  }

  lemma PeriodShares(items: seq<LbItem>) returns (shares: seq<nat>)
    ensures ExactShares(items, WeightSum(items), shares)
    ensures forall i | 0 <= i < |items| :: shares[i] == items[i].weight
  {
    shares := seq(|items|, i requires 0 <= i < |items| => items[i].weight);
    SumShares(items, shares);
    forall i | 0 <= i < |items| ensures InProportion(WeightSum(items), items[i].weight, WeightSum(items), shares[i]) {
      TimesIsMul(WeightSum(items), items[i].weight);
      TimesIsMul(items[i].weight, WeightSum(items));
    }
  }

  lemma {:induction false} SumShares(items: seq<LbItem>, shares: seq<nat>)
    requires |shares| == |items| && forall i | 0 <= i < |items| :: shares[i] == items[i].weight
    ensures Sum(shares) == WeightSum(items)
  {
    if items != [] {
      SumShares(items[..|items| - 1], shares[..|items| - 1]);
    }
  }

  lemma Lonely(items: seq<LbItem>, k: nat)
    requires |items| == 1
    ensures After(items, k) == items && Count(Picks(items, k), 0) == k
  {
    StandsStill(Next, Pick, items, k);
  }

  // ---------------------------------------------------------------- for ever

  /** One period is `WeightSum` calls.  It is exact for a list of one item, for a list without weight, and for every
      list whose total fits in 31 bits and whose first period saturates no addition. */
  ghost predicate ExactPeriod(items: seq<LbItem>) {
    |items| <= 1 || WeightSum(items) == 0 || (WeightSum(items) <= I32_MAX && Unsaturated(items, WeightSum(items)))
  }

  /** After one period every item was picked as often as its weight says, and the balancer is back at its start. */
  ghost predicate FairPeriod(items: seq<LbItem>) {
    && After(items, WeightSum(items)) == items
    && forall i | 0 <= i < |items| :: Count(Picks(items, WeightSum(items)), i) == items[i].weight
  }

  lemma ExactPeriodIsFair(items: seq<LbItem>)
    requires Fresh(items) && ExactPeriod(items)
    ensures FairPeriod(items)
  {
    var total := WeightSum(items);
    if |items| == 1 {
      assert WeightSum(items[..0]) == 0;
      Lonely(items, total);
    } else if total == 0 {
      assert Picks(items, 0) == [];
      forall i | 0 <= i < |items| ensures items[i].weight == 0 {
        WeightBelowSum(items, i);
      }
    } else {
      var shares := PeriodShares(items);
      FairWheneverPossible(items, total, shares);
    }
  }

  /** If one period is fair, any number of periods is. */
  lemma FairPeriodsRepeat(items: seq<LbItem>, m: nat, i: nat)
    requires i < |items| && FairPeriod(items)
    ensures After(items, Times(m, WeightSum(items))) == items
    ensures Count(Picks(items, Times(m, WeightSum(items))), i) == Times(m, items[i].weight)
  {
    ReturnsForever(Next, Pick, items, i, WeightSum(items), items[i].weight, m);
  }

  // ---------------------------------------------------------------- what a lost addition does

  ghost predicate InRange(items: seq<LbItem>) {
    forall i | 0 <= i < |items| :: I32_MIN <= items[i].current <= I32_MAX
  }

  lemma {:induction false} SumRaised(a: seq<LbItem>, b: seq<LbItem>)
    requires |a| == |b| && forall i | 0 <= i < |a| :: b[i].current <= a[i].current + a[i].weight
    ensures CurrentSum(b) <= CurrentSum(a) + WeightSum(a)
    ensures (exists i | 0 <= i < |a| :: b[i].current < a[i].current + a[i].weight) ==>
              CurrentSum(b) < CurrentSum(a) + WeightSum(a)
  {
    if a != [] {
      SumRaised(a[..|a| - 1], b[..|b| - 1]);
    }
  }

  lemma RaisedAtMost(items: seq<LbItem>)
    requires InRange(items) && WeightSum(items) <= I32_MAX
    ensures InRange(IncreaseAll(items))
    ensures CurrentSum(IncreaseAll(items)) <= CurrentSum(items) + WeightSum(items)
    ensures !Room(items) ==> CurrentSum(IncreaseAll(items)) < CurrentSum(items) + WeightSum(items)
  {
    var raised := IncreaseAll(items);
    forall i | 0 <= i < |items|
      ensures I32_MIN <= raised[i].current <= items[i].current + items[i].weight
      ensures raised[i].current <= I32_MAX
    {
      WeightBelowSum(items, i);
    }
    if !Room(items) {
      var i :| 0 <= i < |items| && items[i].current + items[i].weight > I32_MAX;
      assert raised[i].current < items[i].current + items[i].weight;
    }
    SumRaised(items, raised);
  }

  function Reduced(item: LbItem, total: int): LbItem {
    item.(current := SaturatingAdd(item.current, -total))
  }

  /** Taking the total off the best item: even a subtraction that saturates leaves the sum negative. */
  lemma TakenOff(raised: seq<LbItem>, best: nat, total: int)
    requires IsBest(raised, best) && InRange(raised) && CurrentSum(raised) < total <= I32_MAX
    ensures CurrentSum(raised[best := Reduced(raised[best], total)]) < 0
  {
    SumUpdate(raised, best, Reduced(raised[best], total));
    if raised[best].current - total < I32_MIN {
      var zero := raised[best].(current := 0);
      SumUpdate(raised, best, zero);
      SumNonPositive(raised[best := zero]);
    }
  }

  lemma NextIs(items: seq<LbItem>, total: int)
    requires |items| >= 2 && WeightSum(items) == total <= I32_MAX
    ensures var raised := IncreaseAll(items);
            Next(items) == raised[Best(raised) := Reduced(raised[Best(raised)], total)]
  {
    TotalIsExact(items);
  }

  /** Credit that saturation took away never comes back. */
  lemma LossStays(items: seq<LbItem>, total: int)
    requires |items| >= 2 && InRange(items) && WeightSum(items) == total <= I32_MAX && CurrentSum(items) <= 0
    requires CurrentSum(items) < 0 || !Room(items)
    ensures CurrentSum(Next(items)) < 0
  {
    RaisedAtMost(items);
    NextIs(items, total);
    TakenOff(IncreaseAll(items), Best(IncreaseAll(items)), total);
  }

  lemma NextInRange(items: seq<LbItem>)
    requires |items| >= 2
    ensures InRange(Next(items))
  {
    forall i | 0 <= i < |items| ensures I32_MIN <= Next(items)[i].current <= I32_MAX {
      NextAt(items, i);
    }
  }

  lemma NextWeights(items: seq<LbItem>)
    requires |items| >= 2
    ensures WeightSum(Next(items)) == WeightSum(items)
  {
    forall i | 0 <= i < |items| ensures Next(items)[i].weight == items[i].weight {
      NextAt(items, i);
    }
    SameWeights(Next(items), items);
  }

  lemma AfterWeights(items: seq<LbItem>, k: nat)
    requires |items| >= 2
    ensures WeightSum(After(items, k)) == WeightSum(items)
  {
    var inv := (x: seq<LbItem>) => |x| >= 2 && WeightSum(x) == WeightSum(items);
    forall x: seq<LbItem> | inv(x) ensures inv(Next(x)) {
      NextWeights(x);
    }
    Invariant(Next, inv, _ => true, items, k);
  }

  lemma AfterInRange(items: seq<LbItem>, k: nat)
    requires |items| >= 2 && Fresh(items)
    ensures InRange(After(items, k)) && WeightSum(After(items, k)) == WeightSum(items)
  {
    AfterWeights(items, k);
    if k > 0 {
      NextInRange(After(items, k - 1));
    }
  }

  lemma LossStaysInRun(items: seq<LbItem>, k: nat)
    requires |items| >= 2 && Fresh(items) && WeightSum(items) <= I32_MAX && CurrentSum(After(items, k)) <= 0
    requires CurrentSum(After(items, k)) < 0 || !Room(After(items, k))
    ensures CurrentSum(After(items, k + 1)) < 0
  {
    AfterInRange(items, k);
    LossStays(After(items, k), WeightSum(items));
  }

  /** The current weights cancel out as long as no addition has saturated ... */
  lemma ZeroBeforeLoss(items: seq<LbItem>, k: nat)
    requires |items| >= 2 && Fresh(items) && 0 < WeightSum(items) <= I32_MAX && Unsaturated(items, k)
    ensures CurrentSum(After(items, k)) == 0
  {
    FreshBalanced(items);
    RunBalanced(items, k);
  }

  /** ... and never again afterwards. */
  lemma {:induction false} NegativeAfterLoss(items: seq<LbItem>, k: nat)
    requires |items| >= 2 && Fresh(items) && 0 < WeightSum(items) <= I32_MAX && !Unsaturated(items, k)
    ensures CurrentSum(After(items, k)) < 0
  {
    UnsaturatedLast(items, k);
    if Unsaturated(items, k - 1) {
      ZeroBeforeLoss(items, k - 1);
    } else {
      NegativeAfterLoss(items, k - 1);
    }
    LossStaysInRun(items, k - 1);
  }

  /** The exact condition.  For a total that fits in 31 bits one period is fair exactly when it saturates no addition,
      and exactly then every number of periods is. */
  lemma FairIff(items: seq<LbItem>)
    requires Fresh(items) && WeightSum(items) <= I32_MAX
    ensures FairPeriod(items) <==> ExactPeriod(items)
    ensures After(items, WeightSum(items)) == items <==> ExactPeriod(items)
  {
    if ExactPeriod(items) {
      ExactPeriodIsFair(items);
    } else {
      NegativeAfterLoss(items, WeightSum(items));
      SumNonPositive(items);
    }
  }
}
