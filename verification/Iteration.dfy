/** Counting, and runs of a step function that picks something at every step, for any kind of state. */
module Iteration {
  import opened Arithmetic

  function Iterate<S>(step: S -> S, s: S, k: nat): S {
    if k == 0 then s else step(Iterate(step, s, k - 1))
  }

  function Trace<S>(step: S -> S, pick: S -> nat, s: S, k: nat): seq<nat> {
    if k == 0 then [] else Trace(step, pick, s, k - 1) + [pick(Iterate(step, s, k - 1))]
  }

  // ---------------------------------------------------------------- counting

  /** How often a number occurs. */
  function Count(xs: seq<nat>, x: nat): (n: nat)
    ensures n <= |xs|
  {
    if xs == [] then 0 else Count(xs[..|xs| - 1], x) + (if xs[|xs| - 1] == x then 1 else 0)
  }

  lemma {:induction false} CountAppend(a: seq<nat>, b: seq<nat>, x: nat)
    ensures Count(a + b, x) == Count(a, x) + Count(b, x)
  {
    if b == [] {
      assert a + b == a;
    } else {
      CountAppend(a, b[..|b| - 1], x);
      assert (a + b)[..|a + b| - 1] == a + b[..|b| - 1];
    }
  }

  /** The occurrences of all numbers below `n`. */
  function CountSum(picks: seq<nat>, n: nat): nat {
    if n == 0 then 0 else CountSum(picks, n - 1) + Count(picks, n - 1)
  }

  lemma {:induction false} CountsAddUp(picks: seq<nat>, n: nat)
    requires forall k | 0 <= k < |picks| :: picks[k] < n
    ensures CountSum(picks, n) == |picks|
  {
    if picks == [] {
      CountSumEmpty(n);
    } else {
      var m := |picks| - 1;
      CountsAddUp(picks[..m], n);
      CountSumSnoc(picks[..m], picks[m], n);
      assert picks[..m] + [picks[m]] == picks;
    }
  }

  lemma {:induction false} CountSumEmpty(n: nat)
    ensures CountSum([], n) == 0
  {
    if n > 0 {
      CountSumEmpty(n - 1);
    }
  }

  lemma {:induction false} CountSumSnoc(picks: seq<nat>, p: nat, n: nat)
    ensures CountSum(picks + [p], n) == CountSum(picks, n) + (if p < n then 1 else 0)
  {
    assert (picks + [p])[..|picks|] == picks;
    if n > 0 {
      CountSumSnoc(picks, p, n - 1);
    }
  }

  /** Counts that are nowhere above the shares but have the same sum are the shares. */
  lemma {:induction false} SqueezeCounts(picks: seq<nat>, shares: seq<nat>)
    requires forall i | 0 <= i < |shares| :: Count(picks, i) <= shares[i]
    ensures CountSum(picks, |shares|) <= Sum(shares)
    ensures CountSum(picks, |shares|) == Sum(shares) ==> forall i | 0 <= i < |shares| :: Count(picks, i) == shares[i]
  {
    if shares != [] {
      SqueezeCounts(picks, shares[..|shares| - 1]);
    }
  }

  // ---------------------------------------------------------------- runs

  /** What every step keeps, from states that pass a guard, holds after every run through such states. */
  lemma {:induction false} Invariant<S(!new)>(step: S -> S, inv: S -> bool, guard: S -> bool, s: S, k: nat)
    requires inv(s) && forall x: S | inv(x) && guard(x) :: inv(step(x))
    requires forall j | 0 <= j < k :: guard(Iterate(step, s, j))
    ensures inv(Iterate(step, s, k))
  {
    if k > 0 {
      Invariant(step, inv, guard, s, k - 1);
    }
  }

  /** The same for a property that also says how many steps were made. */
  lemma {:induction false} Progress<S(!new)>(step: S -> S, inv: (S, nat) -> bool, guard: S -> bool, s: S, k: nat)
    requires inv(s, 0) && forall x: S, j: nat | inv(x, j) && j < k && guard(x) :: inv(step(x), j + 1)
    requires forall j | 0 <= j < k :: guard(Iterate(step, s, j))
    ensures inv(Iterate(step, s, k), k)
  {
    if k > 0 {
      Progress(step, inv, guard, s, k - 1);
    }
  }

  lemma {:induction false} TraceLength<S>(step: S -> S, pick: S -> nat, s: S, k: nat)
    ensures |Trace(step, pick, s, k)| == k
  {
    if k > 0 {
      TraceLength(step, pick, s, k - 1);
    }
  }

  lemma {:induction false} TraceAt<S>(step: S -> S, pick: S -> nat, s: S, k: nat, j: nat)
    requires j < k
    ensures |Trace(step, pick, s, k)| == k && Trace(step, pick, s, k)[j] == pick(Iterate(step, s, j))
  {
    TraceLength(step, pick, s, k);
    TraceLength(step, pick, s, k - 1);
    if j < k - 1 {
      TraceAt(step, pick, s, k - 1, j);
    }
  }

  lemma {:induction false} IterateAdd<S>(step: S -> S, s: S, a: nat, b: nat)
    ensures Iterate(step, s, a + b) == Iterate(step, Iterate(step, s, a), b)
  {
    if b > 0 {
      IterateAdd(step, s, a, b - 1);
    }
  }

  lemma {:induction false} TraceAdd<S>(step: S -> S, pick: S -> nat, s: S, a: nat, b: nat)
    ensures Trace(step, pick, s, a + b) == Trace(step, pick, s, a) + Trace(step, pick, Iterate(step, s, a), b)
  {
    if b > 0 {
      TraceAdd(step, pick, s, a, b - 1);
      IterateAdd(step, s, a, b - 1);
    }
  }

  lemma {:induction false} StandsStill<S>(step: S -> S, pick: S -> nat, s: S, k: nat)
    requires step(s) == s
    ensures Iterate(step, s, k) == s && Count(Trace(step, pick, s, k), pick(s)) == k
  {
    if k > 0 {
      StandsStill(step, pick, s, k - 1);
      var before := Trace(step, pick, s, k - 1);
      assert (before + [pick(s)])[..|before|] == before;
    }
  }

  /** The run comes back to its start after `calls` steps, having picked `i` so many times. */
  ghost predicate Returns<S(!new)>(step: S -> S, pick: S -> nat, s: S, calls: nat, i: nat, count: nat) {
    Iterate(step, s, calls) == s && Count(Trace(step, pick, s, calls), i) == count
  }

  lemma ReturnsAgain<S(!new)>(step: S -> S, pick: S -> nat, s: S, i: nat, a: nat, m: nat, b: nat, n: nat)
    requires Returns(step, pick, s, a, i, m) && Returns(step, pick, s, b, i, n)
    ensures Returns(step, pick, s, a + b, i, m + n)
  {
    IterateAdd(step, s, a, b);
    TraceAdd(step, pick, s, a, b);
    CountAppend(Trace(step, pick, s, a), Trace(step, pick, s, b), i);
  }

  /** A run that comes back once comes back again and again, with the same picks each time. */
  lemma {:induction false} ReturnsForever<S(!new)>(step: S -> S, pick: S -> nat, s: S, i: nat, period: nat, share: nat,
                                                   m: nat)
    requires Returns(step, pick, s, period, i, share)
    ensures Returns(step, pick, s, Times(m, period), i, Times(m, share))
  {
    if m > 0 {
      ReturnsForever(step, pick, s, i, period, share, m - 1);
      ReturnsAgain(step, pick, s, i, Times(m - 1, period), Times(m - 1, share), period, share);
    }
  }
}
