/**
  Validation of a cluster's endpoints (orion-configuration/src/config/cluster.rs): priorities without gaps, and weights
  whose sum fits in 32 bits.
 */
module ClusterConfig {
  import opened Arithmetic

  // ---------------------------------------------------------------- priorities

  /** The elements of a list in increasing order, each once: the ordered set that the source builds. */
  ghost predicate OrderedSet(distinct: seq<nat>, priorities: seq<nat>) {
    Increasing(distinct) && Elements(distinct) == Elements(priorities)
  }

  /** The test of the source: the first is 0 and the last is one less than the number of different priorities. */
  predicate Accepts(distinct: seq<nat>) {
    distinct == [] || (distinct[0] == 0 && distinct[|distinct| - 1] == |distinct| - 1)
  }

  /** The priorities in use are 0 to N without a gap. */
  ghost predicate NoGap(priorities: seq<nat>) {
    forall p: nat, q: nat | p in priorities && q < p :: q in priorities
  }

  lemma {:induction false} AtLeastPosition(s: seq<nat>, i: nat)
    requires Increasing(s) && i < |s|
    ensures s[i] >= i && s[|s| - 1] >= s[i] + (|s| - 1 - i)
    decreases |s|
  {
    if |s| > 1 {
      if i < |s| - 1 {
        AtLeastPosition(s[..|s| - 1], i);
      } else {
        AtLeastPosition(s[..|s| - 1], i - 1);
      }
    }
  }

  /** The test accepts exactly the lists without a gap. */
  lemma PrioritiesIff(priorities: seq<nat>, distinct: seq<nat>)
    requires OrderedSet(distinct, priorities)
    ensures Accepts(distinct) <==> NoGap(priorities)
  {
    forall x: nat ensures x in distinct <==> x in priorities {
      assert x in Elements(distinct) <==> x in Elements(priorities);
    }
    if distinct != [] {
      if Accepts(distinct) {
        forall p: nat, q: nat | p in priorities && q < p ensures q in priorities {
          var i :| 0 <= i < |distinct| && distinct[i] == p;
          AtLeastPosition(distinct, i);
          forall k | 0 <= k < |distinct| ensures distinct[k] < |distinct| {
            AtLeastPosition(distinct, k);
          }
          Pigeonhole(distinct, |distinct|, q);
        }
      }
      if NoGap(priorities) {
        GapFree(distinct);
      }
    }
  }

  lemma GapFree(s: seq<nat>)
    requires s != [] && Increasing(s)
    requires forall p: nat, q: nat | p in s && q < p :: q in s
    ensures Accepts(s)
  {
    var last := s[|s| - 1];
    assert last in s;
    forall i | 0 <= i < |s| ensures s[i] <= last {
      AtLeastPosition(s, i);
    }
    assert Elements(s) == Range(last + 1);
    DistinctSize(s);
    AtLeastPosition(s, 0);
  }

  // ---------------------------------------------------------------- weights

  lemma {:induction false} PrefixAtMost(weights: seq<nat>, k: nat)
    requires k <= |weights|
    ensures Sum(weights[..k]) <= Sum(weights)
  {
    if k == |weights| {
      assert weights[..k] == weights;
    } else {
      PrefixAtMost(weights[..|weights| - 1], k);
      assert weights[..|weights| - 1][..k] == weights[..k];
    }
  }

  /** Adds up the weights with a check at every step; accepts exactly when the whole sum fits in 32 bits. */
  method CheckWeights(weights: seq<nat>) returns (ok: bool)
    ensures ok <==> Sum(weights) <= U32_MAX
  {
    var sum := 0;
    for i := 0 to |weights|
      invariant sum == Sum(weights[..i]) <= U32_MAX
    {
      assert weights[..i + 1][..i] == weights[..i];
      if sum + weights[i] > U32_MAX {
        PrefixAtMost(weights, i + 1);
        return false;
      }
      sum := sum + weights[i];
    }
    assert weights[..|weights|] == weights;
    return true;
  }

  lemma {:induction false} SumAppend(a: seq<nat>, b: seq<nat>)
    ensures Sum(a + b) == Sum(a) + Sum(b)
  {
    if b == [] {
      assert a + b == a;
    } else {
      SumAppend(a, b[..|b| - 1]);
      assert (a + b)[..|a + b| - 1] == a + b[..|b| - 1];
    }
  }

  lemma SumOfThree(a: seq<nat>, x: nat, b: seq<nat>)
    ensures Sum(a + [x] + b) == Sum(a + b) + x
    ensures multiset(a + b) == multiset(a + [x] + b) - multiset{x}
  {
    SumAppend(a + [x], b);
    SumAppend(a, [x]);
    SumAppend(a, b);
    assert [x][..0] == [];
  }

  lemma Find(b: seq<nat>, x: nat) returns (left: seq<nat>, right: seq<nat>)
    requires x in b
    ensures b == left + [x] + right
  {
    var k :| 0 <= k < |b| && b[k] == x;
    left, right := b[..k], b[k + 1..];
  }

  lemma LastOut(a: seq<nat>)
    requires a != []
    ensures multiset(a[..|a| - 1]) == multiset(a) - multiset{a[|a| - 1]}
  {
    assert a == a[..|a| - 1] + [a[|a| - 1]];
  }

  /** The sum, and so the verdict, does not depend on the order of the endpoints. */
  lemma {:induction false} SumOfAnyOrder(a: seq<nat>, b: seq<nat>)
    requires multiset(a) == multiset(b)
    ensures Sum(a) == Sum(b)
    decreases |a|
  {
    if a == [] {
      assert |multiset(b)| == 0;
    } else {
      var x := a[|a| - 1];
      assert x in multiset(b);
      var left, right := Find(b, x);
      LastOut(a);
      SumOfThree(left, x, right);
      SumOfAnyOrder(a[..|a| - 1], left + right);
    }
  }
}
