/**
  How large the current weights of the smooth weighted round robin become (orion-lib/src/clusters/balancers/wrr.rs).

  Any k of n current weights sum to at most k * total * (1/(k+1) + ... + 1/n), because a call that takes nothing off
  them picks an item that is at least as large as each of them.  So a caller can tell from the weights alone that no run
  ever saturates an addition.
 */
module RoundRobinRoom {
  import opened Arithmetic
  import opened Iteration
  import opened RoundRobinFairness
  import opened WeightedRoundRobin

  // ---------------------------------------------------------------- sums over sets of items

  ghost function Over(xs: seq<int>, s: set<nat>): int
    requires forall i | i in s :: i < |xs|
  {
    if s == {} then 0
    else
      var i :| i in s;
      xs[i] + Over(xs, s - {i})
  }

  lemma {:induction false} OverTakes(xs: seq<int>, s: set<nat>, i: nat)
    requires (forall j | j in s :: j < |xs|) && i in s
    ensures Over(xs, s) == xs[i] + Over(xs, s - {i})
    decreases s
  {
    var first :| first in s && Over(xs, s) == xs[first] + Over(xs, s - {first});
    if first != i {
      OverTakes(xs, s - {first}, i);
      OverTakes(xs, s - {i}, first);
      assert s - {first} - {i} == s - {i} - {first};
    }
  }

  lemma {:induction false} OverAdd(xs: seq<int>, ys: seq<int>, zs: seq<int>, s: set<nat>)
    requires |xs| == |ys| == |zs| && forall i | i in s :: i < |xs| && zs[i] == xs[i] + ys[i]
    ensures Over(zs, s) == Over(xs, s) + Over(ys, s)
    decreases s
  {
    if s != {} {
      var i :| i in s;
      OverTakes(xs, s, i);
      OverTakes(ys, s, i);
      OverTakes(zs, s, i);
      OverAdd(xs, ys, zs, s - {i});
    }
  }

  lemma {:induction false} OverAtMost(xs: seq<int>, s: set<nat>, most: int)
    requires forall i | i in s :: i < |xs| && xs[i] <= most
    ensures Over(xs, s) <= Times(|s|, most)
    decreases s
  {
    if s != {} {
      var i :| i in s;
      OverTakes(xs, s, i);
      OverAtMost(xs, s - {i}, most);
    }
  }

  lemma {:induction false} OverMore(xs: seq<int>, s: set<nat>, t: set<nat>)
    requires s <= t && forall i | i in t :: i < |xs| && xs[i] >= 0
    ensures 0 <= Over(xs, s) <= Over(xs, t)
    decreases t
  {
    if t != {} {
      var i :| i in t;
      OverTakes(xs, t, i);
      if i in s {
        OverTakes(xs, s, i);
        OverMore(xs, s - {i}, t - {i});
      } else {
        OverMore(xs, s, t - {i});
      }
    }
  }

  ghost function Weights(items: seq<LbItem>): (r: seq<int>)
    ensures |r| == |items| && forall i | 0 <= i < |r| :: r[i] == items[i].weight
  {
    seq(|items|, i requires 0 <= i < |items| => items[i].weight)
  }

  ghost function Currents(items: seq<LbItem>): (r: seq<int>)
    ensures |r| == |items| && forall i | 0 <= i < |r| :: r[i] == items[i].current
  {
    seq(|items|, i requires 0 <= i < |items| => items[i].current)
  }

  lemma {:induction false} AllWeights(items: seq<LbItem>)
    ensures Over(Weights(items), Range(|items|)) == WeightSum(items)
  {
    if items != [] {
      var n := |items| - 1;
      AllWeights(items[..n]);
      OverTakes(Weights(items), Range(n + 1), n);
      assert Range(n + 1) - {n} == Range(n);
      OverSame(Weights(items), Weights(items[..n]), Range(n));
    }
  }

  lemma {:induction false} OverSame(xs: seq<int>, ys: seq<int>, s: set<nat>)
    requires |ys| <= |xs| && forall i | i in s :: i < |ys| && xs[i] == ys[i]
    ensures Over(xs, s) == Over(ys, s)
    decreases s
  {
    if s != {} {
      var i :| i in s;
      OverTakes(xs, s, i);
      OverTakes(ys, s, i);
      OverSame(xs, ys, s - {i});
    }
  }

  /** No set of items weighs more than all of them. */
  lemma WeightsAtMost(items: seq<LbItem>, s: set<nat>)
    requires s <= Range(|items|)
    ensures Over(Weights(items), s) <= WeightSum(items)
  {
    AllWeights(items);
    OverMore(Weights(items), s, Range(|items|));
  }

  // ---------------------------------------------------------------- what one call does to a set of items

  /** A limit on the sum of so many numbers, as the proof uses it: it admits every smaller sum, and if it admits the sum
      of k + 1 numbers before a call, it admits that of the k after the call that the picked one leaves. */
  type Limit = (int, nat) -> bool

  ghost predicate Closed(limit: Limit, n: nat, total: int) {
    && (forall a, b, k :: limit(a, k) && b <= a ==> limit(b, k))
    && (forall k: nat, sum, top, before :: Leaves(limit, n, total, k, sum, top, before))
  }

  ghost predicate Leaves(limit: Limit, n: nat, total: int, k: nat, sum: int, top: int, before: int) {
    k < n && sum <= Times(k, top) && sum + top <= before + total && limit(before, k + 1) ==> limit(sum, k)
  }

  /** Every set of the numbers is within the limit. */
  ghost predicate Level(xs: seq<int>, limit: Limit) {
    forall s: set<nat> | s <= Range(|xs|) :: limit(Over(xs, s), |s|)
  }

  /** One exact call: `p` is picked as a largest raised number. */
  ghost predicate Call(currents: seq<int>, weights: seq<int>, next: seq<int>, p: nat, total: int) {
    && |currents| == |weights| == |next| && p < |currents|
    && (forall i | 0 <= i < |currents| :: currents[i] + weights[i] <= currents[p] + weights[p])
    && (forall i | 0 <= i < |currents| :: next[i] == currents[i] + weights[i] - (if i == p then total else 0))
  }

  /** A call that does not pick from the set picks an item at least as large as each of the set ... */
  lemma BelowTop(currents: seq<int>, weights: seq<int>, next: seq<int>, p: nat, total: int, s: set<nat>)
    requires Call(currents, weights, next, p, total) && s <= Range(|currents|) && p !in s
    ensures Over(next, s) <= Times(|s|, currents[p] + weights[p])
  {
    OverAtMost(next, s, currents[p] + weights[p]);
  }

  /** ... and with it they were at most what they were before, and one total. */
  lemma WithTop(currents: seq<int>, weights: seq<int>, next: seq<int>, p: nat, total: int, s: set<nat>)
    requires Call(currents, weights, next, p, total) && s <= Range(|currents|) && p !in s
    requires Over(weights, s + {p}) <= total
    ensures Over(next, s) + (currents[p] + weights[p]) <= Over(currents, s + {p}) + total
  {
    var t := s + {p};
    assert t - {p} == s;
    OverTakes(currents, t, p);
    OverTakes(weights, t, p);
    OverAdd(currents, weights, next, s);
  }

  /** A call that picks from the set takes off it at least what it adds. */
  lemma Picked(currents: seq<int>, weights: seq<int>, next: seq<int>, p: nat, total: int, s: set<nat>)
    requires Call(currents, weights, next, p, total) && s <= Range(|currents|) && p in s
    requires Over(weights, s) <= total
    ensures Over(next, s) <= Over(currents, s)
  {
    OverTakes(currents, s, p);
    OverTakes(weights, s, p);
    OverTakes(next, s, p);
    OverAdd(currents, weights, next, s - {p});
  }

  lemma LevelNotPicked(currents: seq<int>, weights: seq<int>, next: seq<int>, p: nat, total: int, s: set<nat>,
                       limit: Limit)
    requires Call(currents, weights, next, p, total) && s <= Range(|currents|) && p !in s
    requires Over(weights, s + {p}) <= total && limit(Over(currents, s + {p}), |s| + 1)
    requires Closed(limit, |currents|, total) && |s| < |currents|
    ensures limit(Over(next, s), |s|)
  {
    BelowTop(currents, weights, next, p, total, s);
    WithTop(currents, weights, next, p, total, s);
    assert Leaves(limit, |currents|, total, |s|, Over(next, s), currents[p] + weights[p], Over(currents, s + {p}));
  }

  lemma ExactCall(items: seq<LbItem>, total: int)
    requires Balanced(items, total) && Room(items)
    ensures Call(Currents(items), Weights(items), Currents(Next(items)), Pick(items), total)
  {
    RaisedExactly(items, total);
    BalancedStep(items, total);
    assert IsBest(IncreaseAll(items), Pick(items));
  }

  lemma SmallerSet(s: set<nat>, p: nat, n: nat)
    requires s <= Range(n) && p < n && p !in s
    ensures |s| < n && s + {p} <= Range(n) && |s + {p}| == |s| + 1
  {
    SmallerSubset(s, Range(n), p);
  }

  /** Every exact call keeps every set of items within the limit. */
  lemma LevelStep(items: seq<LbItem>, total: int, limit: Limit)
    requires Balanced(items, total) && Room(items) && Level(Currents(items), limit) && Closed(limit, |items|, total)
    ensures Level(Currents(Next(items)), limit)
  {
    var currents, weights, next, p := Currents(items), Weights(items), Currents(Next(items)), Pick(items);
    ExactCall(items, total);
    forall s: set<nat> | s <= Range(|next|) ensures limit(Over(next, s), |s|) {
      if p in s {
        WeightsAtMost(items, s);
        Picked(currents, weights, next, p, total, s);
        assert limit(Over(currents, s), |s|);
      } else {
        SmallerSet(s, p, |items|);
        WeightsAtMost(items, s + {p});
        assert limit(Over(currents, s + {p}), |s + {p}|);
        LevelNotPicked(currents, weights, next, p, total, s, limit);
      }
    }
  }

  lemma OverOne(xs: seq<int>, i: nat)
    requires i < |xs|
    ensures Over(xs, {i}) == xs[i] && {i} <= Range(|xs|)
  {
    OverTakes(xs, {i}, i);
    assert {i} - {i} == {};
  }

  lemma OneLevel(xs: seq<int>, limit: Limit, i: nat)
    requires Level(xs, limit) && i < |xs|
    ensures limit(xs[i], 1)
  {
    OverOne(xs, i);
    assert limit(Over(xs, {i}), |{i}|);
  }

  // ---------------------------------------------------------------- runs within a limit

  /** An item within the limit can be raised without saturating. */
  ghost predicate Fits(limit: Limit, items: seq<LbItem>) {
    forall i, c | 0 <= i < |items| && limit(c, 1) :: c + items[i].weight <= I32_MAX
  }

  ghost predicate SameList(a: seq<LbItem>, b: seq<LbItem>) {
    |a| == |b| && forall i | 0 <= i < |a| :: a[i].weight == b[i].weight
  }

  ghost predicate Calm(items: seq<LbItem>, now: seq<LbItem>, total: int, limit: Limit) {
    SameList(now, items) && Balanced(now, total) && Level(Currents(now), limit)
  }

  lemma CalmHasRoom(items: seq<LbItem>, now: seq<LbItem>, total: int, limit: Limit)
    requires Calm(items, now, total, limit) && Fits(limit, items)
    ensures Room(now)
  {
    forall i | 0 <= i < |now| ensures now[i].current + now[i].weight <= I32_MAX {
      OneLevel(Currents(now), limit, i);
    }
  }

  lemma CalmStep(items: seq<LbItem>, now: seq<LbItem>, total: int, limit: Limit)
    requires Calm(items, now, total, limit) && Fits(limit, items) && Closed(limit, |items|, total)
    ensures Calm(items, Next(now), total, limit)
  {
    CalmHasRoom(items, now, total, limit);
    BalancedStep(now, total);
    LevelStep(now, total, limit);
  }

  lemma CalmRun(items: seq<LbItem>, total: int, limit: Limit, k: nat)
    requires Calm(items, items, total, limit) && Fits(limit, items) && Closed(limit, |items|, total)
    ensures Calm(items, After(items, k), total, limit)
  {
    var inv := (x: seq<LbItem>) => Calm(items, x, total, limit);
    forall x: seq<LbItem> | inv(x) ensures inv(Next(x)) {
      CalmStep(items, x, total, limit);
    }
    Invariant(Next, inv, _ => true, items, k);
  }

  /** A run within a fitting limit never saturates an addition. */
  lemma CalmRunUnsaturated(items: seq<LbItem>, total: int, limit: Limit, k: nat)
    requires Calm(items, items, total, limit) && Fits(limit, items) && Closed(limit, |items|, total)
    ensures Unsaturated(items, k)
  {
    forall j | 0 <= j < k ensures Room(After(items, j)) {
      CalmRun(items, total, limit, j);
      CalmHasRoom(items, After(items, j), total, limit);
    }
  }

  // ---------------------------------------------------------------- the harmonic limit

  /** 1 + 1/2 + ... + 1/n. */
  ghost function Harmonic(n: nat): real {
    if n == 0 then 0.0 else Harmonic(n - 1) + 1.0 / n as real
  }

  lemma {:induction false} HarmonicGrows(k: nat, n: nat)
    requires k <= n
    ensures Harmonic(k) <= Harmonic(n)
  {
    if k < n {
      HarmonicGrows(k, n - 1);
    }
  }

  lemma HarmonicNext(k: nat)
    ensures Harmonic(k + 1) == Harmonic(k) + 1.0 / (k as real + 1.0)
  {
    assert (k + 1) as real == k as real + 1.0;
  }

  /** The bound on `k` current weights: `k * total * (1/(k+1) + ... + 1/n)`, the last factor given as `rest`. */
  ghost function Bound(k: real, total: real, rest: real): real {
    k * (total * rest)
  }

  /** The bound for `k` is the `k` out of `k + 1` parts of the bound for `k + 1` and one total. */
  lemma BoundShare(k: real, total: real, rest: real, next: real)
    requires k >= 0.0 && rest == next + 1.0 / (k + 1.0)
    ensures Bound(k, total, rest) == k / (k + 1.0) * (Bound(k + 1.0, total, next) + total)
  {
    var m, x := k + 1.0, total * next;
    var q := k / m;
    assert q * m == k;
    assert q * (m * x + total) == (q * m) * x + q * total;
    assert total * (next + 1.0 / m) == x + total / m;
    assert k * (total / m) == q * total;
    assert k * (x + total / m) == k * x + k * (total / m);
  }

  lemma Average(k: real, sum: real, top: real, bound: real)
    requires k >= 0.0 && sum <= k * top && sum + top <= bound
    ensures sum <= k / (k + 1.0) * bound
  {
    var q := k / (k + 1.0);
    assert q * (k + 1.0) == k && 0.0 <= q;
    assert q * (sum + top) <= q * bound;
    assert (k + 1.0) * (q * (sum + top)) == k * (sum + top) == k * sum + k * top;
    assert (k + 1.0) * sum <= (k + 1.0) * (q * (sum + top));
  }

  ghost predicate WithinBound(n: nat, total: int, sum: int, k: nat) {
    k <= n && sum as real <= Bound(k as real, total as real, Harmonic(n) - Harmonic(k))
  }

  ghost function HarmonicLimit(n: nat, total: int): Limit {
    (sum: int, k: nat) => WithinBound(n, total, sum, k)
  }

  lemma BoundLeaves(n: nat, total: int, k: nat, sum: int, top: int, before: int)
    requires k < n && sum <= Times(k, top) && sum + top <= before + total && WithinBound(n, total, before, k + 1)
    ensures WithinBound(n, total, sum, k)
  {
    TimesIsMul(k, top);
    HarmonicNext(k);
    BoundShare(k as real, total as real, Harmonic(n) - Harmonic(k), Harmonic(n) - Harmonic(k + 1));
    Average(k as real, sum as real, top as real,
            Bound(k as real + 1.0, total as real, Harmonic(n) - Harmonic(k + 1)) + total as real);
  }

  lemma HarmonicLimitIsClosed(n: nat, total: int)
    ensures Closed(HarmonicLimit(n, total), n, total)
  {
    var limit := HarmonicLimit(n, total);
    forall k: nat, sum, top, before ensures Leaves(limit, n, total, k, sum, top, before) {
      if k < n && sum <= Times(k, top) && sum + top <= before + total && limit(before, k + 1) {
        BoundLeaves(n, total, k, sum, top, before);
      }
    }
  }

  lemma ProductNotNegative(x: real, y: real)
    requires x >= 0.0 && y >= 0.0
    ensures x * y >= 0.0
  {
  }

  lemma ZeroWithinBound(n: nat, total: int, k: nat, sum: int)
    requires k <= n && total >= 0 && sum <= 0
    ensures WithinBound(n, total, sum, k)
  {
    HarmonicGrows(k, n);
    ProductNotNegative(total as real, Harmonic(n) - Harmonic(k));
    ProductNotNegative(k as real, total as real * (Harmonic(n) - Harmonic(k)));
  }

  lemma SubsetSize(a: set<nat>, b: set<nat>)
    requires a <= b
    ensures |a| <= |b|
  {
    assert b == a + (b - a);
  }

  lemma FreshLevel(items: seq<LbItem>, total: int)
    requires Fresh(items) && total >= 0
    ensures Level(Currents(items), HarmonicLimit(|items|, total))
  {
    var xs, limit := Currents(items), HarmonicLimit(|items|, total);
    forall s: set<nat> | s <= Range(|xs|) ensures limit(Over(xs, s), |s|) {
      SubsetSize(s, Range(|xs|));
      OverAtMost(xs, s, 0);
      TimesIsMul(|s|, 0);
      ZeroWithinBound(|xs|, total, |s|, Over(xs, s));
    }
  }

  /** What the largest current weight can be: `total * (1/2 + ... + 1/n)`. */
  ghost function Highest(n: nat, total: int): real {
    total as real * (Harmonic(n) - 1.0)
  }

  lemma FirstBound(n: nat, total: int, sum: int)
    requires WithinBound(n, total, sum, 1)
    ensures sum as real <= Highest(n, total)
  {
    assert Harmonic(1) == 1.0 by {
      HarmonicNext(0);
    }
  }

  // ---------------------------------------------------------------- what a caller can check

  /** Every item has room above the largest current weight for its own weight. */
  ghost predicate Roomy(items: seq<LbItem>) {
    && WeightSum(items) <= I32_MAX
    && forall i | 0 <= i < |items| :: items[i].weight as real + Highest(|items|, WeightSum(items)) <= I32_MAX as real
  }

  lemma WholeHarmonic(n: nat, total: int)
    requires n > 0 && total >= 0
    ensures 0.0 <= Highest(n, total) == total as real * Harmonic(n) - total as real
  {
    HarmonicNext(0);
    HarmonicGrows(1, n);
    ProductNotNegative(total as real, Harmonic(n) - 1.0);
  }

  lemma RoomForAll(items: seq<LbItem>)
    requires 0.0 <= Highest(|items|, WeightSum(items)) <= (I32_MAX - WeightSum(items)) as real
    ensures Roomy(items)
  {
    forall i | 0 <= i < |items| ensures items[i].weight <= WeightSum(items) {
      WeightBelowSum(items, i);
    }
  }

  /** It is enough that the total, times 1 + 1/2 + ... + 1/n, fits in 31 bits. */
  lemma EnoughRoom(items: seq<LbItem>)
    requires items != [] && WeightSum(items) as real * Harmonic(|items|) <= I32_MAX as real
    ensures Roomy(items)
  {
    WholeHarmonic(|items|, WeightSum(items));
    RoomForAll(items);
  }

  lemma HarmonicFits(items: seq<LbItem>)
    requires Roomy(items)
    ensures Fits(HarmonicLimit(|items|, WeightSum(items)), items)
  {
    forall i, c | 0 <= i < |items| && WithinBound(|items|, WeightSum(items), c, 1)
      ensures c + items[i].weight <= I32_MAX
    {
      FirstBound(|items|, WeightSum(items), c);
    }
  }

  lemma FreshCalm(items: seq<LbItem>)
    requires |items| >= 2 && Fresh(items) && Roomy(items) && WeightSum(items) > 0
    ensures var total, limit := WeightSum(items), HarmonicLimit(|items|, WeightSum(items));
            Calm(items, items, total, limit) && Fits(limit, items) && Closed(limit, |items|, total)
  {
    FreshBalanced(items);
    FreshLevel(items, WeightSum(items));
    HarmonicFits(items);
    HarmonicLimitIsClosed(|items|, WeightSum(items));
  }

  /** No run of a list with room ever saturates an addition ... */
  lemma RoomyNeverSaturates(items: seq<LbItem>, k: nat)
    requires |items| >= 2 && Fresh(items) && Roomy(items) && WeightSum(items) > 0
    ensures Unsaturated(items, k)
  {
    FreshCalm(items);
    CalmRunUnsaturated(items, WeightSum(items), HarmonicLimit(|items|, WeightSum(items)), k);
  }

  lemma RunWithinBound(items: seq<LbItem>, k: nat, i: nat)
    requires |items| >= 2 && Fresh(items) && Roomy(items) && WeightSum(items) > 0 && i < |items|
    ensures WithinBound(|items|, WeightSum(items), After(items, k)[i].current, 1)
  {
    var limit := HarmonicLimit(|items|, WeightSum(items));
    FreshCalm(items);
    CalmRun(items, WeightSum(items), limit, k);
    OneLevel(Currents(After(items, k)), limit, i);
  }

  /** ... and after every call every current weight is below `total * (1/2 + ... + 1/n)`. */
  lemma CurrentAtMost(items: seq<LbItem>, k: nat, i: nat)
    requires |items| >= 2 && Fresh(items) && Roomy(items) && WeightSum(items) > 0 && i < |items|
    ensures -(WeightSum(items) as int) < After(items, k)[i].current
    ensures After(items, k)[i].current as real <= Highest(|items|, WeightSum(items))
  {
    RunWithinBound(items, k, i);
    FirstBound(|items|, WeightSum(items), After(items, k)[i].current);
    RoomyNeverSaturates(items, k);
    FreshBalanced(items);
    RunBalanced(items, k);
  }

  /** An item has had its share of `k` calls: it is less than one call ahead and at most `behind / total` behind. */
  ghost predicate Timely(k: nat, weight: nat, count: nat, total: nat, behind: real) {
    count * total < k * weight + total && (k * weight - count * total) as real <= behind
  }

  lemma LedgerIsTimely(item: LbItem, now: LbItem, total: nat, picks: seq<nat>, i: nat, behind: real)
    requires Ledger(item, now, total, picks, i) && -(total as int) < now.current && now.current as real <= behind
    ensures Timely(|picks|, item.weight, Count(picks, i), total, behind)
  {
    TimesIsMul(|picks|, item.weight);
    TimesIsMul(Count(picks, i), total);
  }

  /** At every moment every item has had its share of the calls, give or take one call ahead and 1/2 + ... + 1/n calls
      behind. */
  lemma ShareAtEveryMoment(items: seq<LbItem>, k: nat, i: nat)
    requires |items| >= 2 && Fresh(items) && Roomy(items) && WeightSum(items) > 0 && i < |items|
    ensures Timely(k, items[i].weight, Count(Picks(items, k), i), WeightSum(items), Highest(|items|, WeightSum(items)))
  {
    CurrentAtMost(items, k, i);
    RoomyNeverSaturates(items, k);
    FreshBalanced(items);
    RunLedger(items, k, i);
    LedgerIsTimely(items[i], After(items, k)[i], WeightSum(items), Picks(items, k), i,
                   Highest(|items|, WeightSum(items)));
  }

  /** A list with room is fair in every period, for ever. */
  lemma FairForever(items: seq<LbItem>, m: nat, i: nat)
    requires Fresh(items) && (|items| >= 2 ==> Roomy(items)) && i < |items|
    ensures After(items, m * WeightSum(items)) == items
    ensures Count(Picks(items, m * WeightSum(items)), i) == m * items[i].weight
  {
    if |items| >= 2 && WeightSum(items) > 0 {
      RoomyNeverSaturates(items, WeightSum(items));
    }
    ExactPeriodIsFair(items);
    FairPeriodsRepeat(items, m, i);
    TimesIsMul(m, WeightSum(items));
    TimesIsMul(m, items[i].weight);
  }
}
