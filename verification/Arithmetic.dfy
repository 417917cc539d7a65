/** Facts about products, quotients, powers of two and finite sets that other modules share. */
module Arithmetic {

  const U32_MAX: nat := 0xFFFF_FFFF

  /** The number of 64-bit values. */
  const U64: nat := 0x1_0000_0000_0000_0000

  /** The number of 128-bit values. */
  const U128: nat := 0x1_0000_0000_0000_0000_0000_0000_0000_0000

  // ---------------------------------------------------------------- division facts

  lemma DivMod(n: nat, d: nat)
    requires d > 0
    ensures n == d * (n / d) + n % d && 0 <= n % d < d
  {
  }

  lemma MultipleMod(d: nat, k: nat)
    requires d > 0
    ensures (d * k) % d == 0
  {
    if k > 0 {
      MultipleMod(d, k - 1);
      MulSucc(d, k - 1);
      AddMod(d * (k - 1), d);
    }
  }

  lemma AddMod(n: nat, d: nat)
    requires d > 0
    ensures (n + d) % d == n % d
  {
    DivMod(n, d);
    MulSucc(d, n / d);
    UniqueMod(n + d, d, n / d + 1, n % d);
  }

  lemma UniqueMod(n: nat, d: nat, q: nat, r: nat)
    requires d > 0 && n == d * q + r && r < d
    ensures n % d == r && n / d == q
  {
    DivMod(n, d);
    SameQuotient(d, q, r, n / d, n % d);
  }

  lemma ModAdd(x: nat, y: nat, d: nat)
    requires d > 0
    ensures (x + y) % d == (x % d + y) % d
  {
    DivMod(x, d);
    DivMod(x % d + y, d);
    AddQuotients(x + y, d, x / d, (x % d + y) / d, (x % d + y) % d);
  }

  lemma AddQuotients(n: nat, d: nat, p: nat, q: nat, r: nat)
    requires d > 0 && n == d * p + (d * q + r) && r < d
    ensures n % d == r
  {
    Distribute(d, p, q);
    UniqueMod(n, d, p + q, r);
  }

  lemma SameQuotient(d: nat, q: nat, r: nat, q': nat, r': nat)
    requires r < d && r' < d && d * q + r == d * q' + r'
    ensures q == q' && r == r'
  {
    if q < q' {
      MulMono(d, q + 1, q');
      MulSucc(d, q);
    } else if q' < q {
      MulMono(d, q' + 1, q);
      MulSucc(d, q');
    }
  }

  lemma MulSucc(a: int, x: int)
    ensures a * (x + 1) == a * x + a
  {
  }

  lemma MulAssoc(a: int, b: int, c: int)
    ensures (a * b) * c == a * (b * c)
  {
  }

  lemma MulMono(a: nat, x: int, y: int)
    requires x <= y
    ensures a * x <= a * y
  {
  }

  // ---------------------------------------------------------------- powers of two

  function Pow2(e: nat): nat {
    if e == 0 then 1 else 2 * Pow2(e - 1)
  }

  lemma {:induction false} Pow2Positive(e: nat)
    ensures Pow2(e) > 0
  {
    if e > 0 {
      Pow2Positive(e - 1);
    }
  }

  lemma {:induction false} Pow2Add(a: nat, b: nat)
    ensures Pow2(a + b) == Pow2(a) * Pow2(b)
  {
    if a > 0 {
      Pow2Add(a - 1, b);
      MulAssoc(2, Pow2(a - 1), Pow2(b));
    }
  }

  lemma {:induction false} Pow2Monotone(a: nat, b: nat)
    requires a <= b
    ensures Pow2(a) <= Pow2(b)
  {
    if a < b {
      Pow2Monotone(a, b - 1);
    }
  }

  // ---------------------------------------------------------------- finite sets

  function Range(n: nat): (r: set<nat>)
    ensures |r| == n && forall x: nat :: x in r <==> x < n
  {
    if n == 0 then {} else Range(n - 1) + {n - 1}
  }

  function Elements(xs: seq<nat>): (r: set<nat>)
    ensures forall x: nat :: x in r <==> x in xs
  {
    if xs == [] then {} else Elements(xs[..|xs| - 1]) + {xs[|xs| - 1]}
  }

  lemma {:induction false} DistinctSize(xs: seq<nat>)
    requires forall i, j | 0 <= i < j < |xs| :: xs[i] != xs[j]
    ensures |Elements(xs)| == |xs|
  {
    if xs != [] {
      DistinctSize(xs[..|xs| - 1]);
    }
  }

  /** Distinct numbers below `n`, `n` of them, are all the numbers below `n`. */
  lemma Pigeonhole(xs: seq<nat>, n: nat, x: nat)
    requires |xs| == n && (forall i | 0 <= i < n :: xs[i] < n) && x < n
    requires forall i, j | 0 <= i < j < n :: xs[i] != xs[j]
    ensures x in xs
  {
    DistinctSize(xs);
    if x !in xs {
      SmallerSubset(Elements(xs), Range(n), x);
    }
  }

  lemma SmallerSubset(a: set<nat>, b: set<nat>, x: nat)
    requires a <= b && x in b && x !in a
    ensures |a| < |b|
  {
    var rest := b - {x} - a;
    assert b == a + rest + {x};
  }

  // ---------------------------------------------------------------- sequences of numbers

  ghost predicate Increasing(xs: seq<nat>) {
    forall i, j | 0 <= i < j < |xs| :: xs[i] < xs[j]
  }

  function Sum(xs: seq<nat>): nat {
    if xs == [] then 0 else Sum(xs[..|xs| - 1]) + xs[|xs| - 1]
  }

  // ---------------------------------------------------------------- repeated addition

  /** Multiplication by repeated addition, so that proofs about it stay linear. */
  ghost function Times(n: nat, x: int): (r: int)
    ensures x >= 0 ==> r >= 0
  {
    if n == 0 then 0 else Times(n - 1, x) + x
  }

  lemma {:induction false} TimesIsMul(n: nat, x: int)
    ensures Times(n, x) == n * x
  {
    if n > 0 {
      TimesIsMul(n - 1, x);
      assert n * x == (n - 1) * x + x;
    }
  }

  lemma {:induction false} TimesMonotone(a: nat, b: nat, x: int)
    requires a <= b && 0 <= x
    ensures Times(a, x) <= Times(b, x)
  {
    if a < b {
      TimesMonotone(a, b - 1, x);
    }
  }

  lemma {:induction false} TimesAdd(a: nat, b: nat, x: int)
    ensures Times(a + b, x) == Times(a, x) + Times(b, x)
  {
    if b > 0 {
      TimesAdd(a, b - 1, x);
    }
  }

  lemma {:induction false} TimesOfSum(n: nat, x: int, y: int)
    ensures Times(n, x + y) == Times(n, x) + Times(n, y)
  {
    if n > 0 {
      TimesOfSum(n - 1, x, y);
    }
  }

  lemma Distribute(m: int, x: int, y: int)
    ensures m * (x + y) == m * x + m * y
  {
  }

  lemma Rotate(m: int, x: int, y: int)
    ensures (m * x) * y == (m * y) * x
  {
  }

  /** The same for real numbers. */
  ghost function Scaled(n: nat, x: real): real {
    if n == 0 then 0.0 else Scaled(n - 1, x) + x
  }

  lemma {:induction false} ScaledIsMul(n: nat, x: real)
    ensures Scaled(n, x) == n as real * x
  {
    if n > 0 {
      ScaledIsMul(n - 1, x);
      assert n as real == (n - 1) as real + 1.0;
      DistributeReal((n - 1) as real, 1.0, x);
    }
  }

  lemma {:induction false} ScaledMonotone(a: nat, b: nat, x: real)
    requires a <= b && 0.0 <= x
    ensures Scaled(a, x) <= Scaled(b, x)
  {
    if a < b {
      ScaledMonotone(a, b - 1, x);
    }
  }

  lemma DistributeReal(a: real, b: real, x: real)
    ensures (a + b) * x == a * x + b * x
  {
  }
}
