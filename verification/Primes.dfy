/**
  Prime numbers, as the Maglev lookup table needs them: the primality test that guards the table size at compile
  time (orion-lib/src/clusters/balancers/maglev.rs, lines 255-295), and why stepping by any stride walks the whole
  table.
 */
module Primes {
  import opened Arithmetic

  ghost predicate Prime(n: nat) {
    n >= 2 && forall d | 2 <= d < n :: n % d != 0
  }

  /** A divisor of a divisor is a divisor. */
  lemma DividesThrough(a: nat, d: nat, n: nat)
    requires a > 0 && d > 0 && d % a == 0 && n % d == 0
    ensures n % a == 0
  {
    DivMod(d, a);
    DivMod(n, d);
    var e, q := d / a, n / d;
    MulAssoc(a, e, q);
    MultipleMod(a, e * q);
  }

  // ---------------------------------------------------------------- the primality test

  /** The exponent of the next power of two. */
  function CeilLog2(n: nat): (e: nat)
    requires n >= 1
    ensures n <= Pow2(e) && (n >= 2 ==> e >= 1 && Pow2(e - 1) < n)
    decreases n
  {
    if n == 1 then 0
    else
      var half := (n + 1) / 2;
      CeilLog2(half) + 1
  }

  /** The bound of the trial division is at least the square root, and below the number itself. */
  lemma UpperBound(n: nat)
    requires n >= 5
    ensures var bound := Pow2((CeilLog2(n) + 1) / 2); n <= bound * bound && bound < n
  {
    var e := CeilLog2(n);
    var h := (e + 1) / 2;
    Pow2Add(h, h);
    Pow2Monotone(e, h + h);
    assert Pow2(0) == 1 && Pow2(1) == 2 && Pow2(2) == 4;
    assert e >= 3;
    Pow2Monotone(h, e - 1);
  }

  lemma BoundBelow(n: nat)
    requires n >= 5
    ensures Pow2((CeilLog2(n) + 1) / 2) < n
  {
    UpperBound(n);
  }

  ghost predicate NoDivisorBelow(n: nat, m: nat) {
    forall d | 2 <= d < m && d < n :: n % d != 0
  }

  /** A number with no divisor up to its square root is prime. */
  lemma NoSmallDivisor(n: nat, bound: nat, current: nat)
    requires n >= 5 && bound == Pow2((CeilLog2(n) + 1) / 2) < current
    requires NoDivisorBelow(n, current)
    ensures Prime(n)
  {
    UpperBound(n);
    forall d | 2 <= d < n ensures n % d != 0 {
      NotDividing(n, bound, current, d);
    }
  }

  /** Beside a divisor above the square root there would be one below it. */
  lemma NotDividing(n: nat, bound: nat, current: nat, d: nat)
    requires n <= bound * bound && bound < current && NoDivisorBelow(n, current) && 2 <= d < n
    ensures n % d != 0
  {
    if d >= current && n % d == 0 {
      var e := n / d;
      DivMod(n, d);
      Cofactor(n, d, e);
      if e > bound {
        Product(d, e, bound);
      }
    }
  }

  lemma Product(d: nat, e: nat, bound: nat)
    requires bound < d && bound < e
    ensures d * e > bound * bound
  {
    MulMono(d, bound + 1, e);
    MulMono(bound + 1, bound + 1, d);
    MulSucc(bound + 1, bound);
    MulMono(bound, bound, bound + 1);
  }

  lemma Cofactor(n: nat, d: nat, e: nat)
    requires 2 <= d < n && n == d * e
    ensures 2 <= e < n && n % e == 0
  {
    if e >= n {
      MulMono(d, n, e);
      MulMono(n, 2, d);
    }
    MultipleMod(e, d);
  }

  /** A divisor candidate of the wheel, and the distance to the next one. */
  predicate Wheel(current: nat, incr: nat) {
    (current % 6 == 5 && incr == 2) || (current % 6 == 1 && incr == 4)
  }

  /** Trial division by the numbers that are 1 or 5 modulo 6, up to a power of two above the square root. */
  method IsPrime(n: nat) returns (prime: bool)
    ensures prime <==> Prime(n)
  {
    if n <= 1 {
      return false;
    } else if n <= 3 {
      return true;
    }
    var nextSquare := CeilLog2(n) + 1;
    var upperBound := Pow2(nextSquare / 2);
    var incr: nat := 2;
    if n % 2 == 0 || n % 3 == 0 {
      return false;
    }
    BoundBelow(n);
    StartWheel(n);
    var current := 5;
    while current <= upperBound
      invariant 5 <= current && Wheel(current, incr)
      invariant NoDivisorBelow(n, current)
      decreases upperBound - current
    {
      if n % current == 0 {
        return false;
      }
      TurnWheel(n, current, incr);
      current := current + incr;
      incr := 6 - incr; // the exclusive or of 2 or 4 with 6
    }
    NoSmallDivisor(n, upperBound, current);
    return true;
  }

  lemma StartWheel(n: nat)
    requires n % 2 != 0 && n % 3 != 0
    ensures NoDivisorBelow(n, 5)
  {
    forall d | 2 <= d < 5 && d < n ensures n % d != 0 {
      if d == 4 && n % d == 0 {
        DividesThrough(2, 4, n);
      }
    }
  }

  /** The numbers that the wheel leaves out are multiples of 2 or 3. */
  lemma TurnWheel(n: nat, current: nat, incr: nat)
    requires current >= 2 && n % 2 != 0 && n % 3 != 0 && n % current != 0
    requires Wheel(current, incr) && NoDivisorBelow(n, current)
    ensures incr <= 6 && Wheel(current + incr, 6 - incr) && NoDivisorBelow(n, current + incr)
  {
    forall d | current < d < current + incr ensures n % d != 0 {
      SkippedIsMultiple(current, incr, d);
      if n % d == 0 {
        if d % 2 == 0 {
          DividesThrough(2, d, n);
        } else {
          DividesThrough(3, d, n);
        }
      }
    }
    NextOnWheel(current, incr);
  }

  lemma NextOnWheel(current: nat, incr: nat)
    requires Wheel(current, incr)
    ensures incr <= 6 && Wheel(current + incr, 6 - incr)
  {
  }

  lemma SkippedIsMultiple(current: nat, incr: nat, d: nat)
    requires Wheel(current, incr) && current < d < current + incr
    ensures d % 2 == 0 || d % 3 == 0
  {
    var q := current / 6;
    if d == 6 * q + 2 {
      MultipleMod(2, 3 * q + 1);
    } else if d == 6 * q + 3 {
      MultipleMod(3, 2 * q + 1);
    } else if d == 6 * q + 4 {
      MultipleMod(2, 3 * q + 2);
    } else {
      MultipleMod(2, 3 * q + 3);
    }
  }

  // ---------------------------------------------------------------- strides modulo a prime

  /** A prime divides no product of two positive numbers below it. */
  lemma {:induction false} NoZeroProduct(p: nat, a: nat, b: nat)
    requires Prime(p) && 0 < a < p && 0 < b < p
    ensures (a * b) % p != 0
    decreases a
  {
    if a > 1 && (a * b) % p == 0 {
      var q, r := p / a, p % a;
      DivMod(p, a);
      assert r != 0;
      NoZeroProduct(p, r, b);
      DivMod(a * b, p);
      Descend(p, a, b, q, r, (a * b) / p);
    }
  }

  lemma Descend(p: nat, a: nat, b: nat, q: nat, r: nat, t: nat)
    requires p > 0 && p == a * q + r && a * b == p * t
    ensures (r * b) % p == 0
  {
    var x := b - q * t;
    assert r * b == p * x by {
      calc {
        r * b;
        p * b - (a * q) * b;
        { assert (a * q) * b == q * (a * b); }
        p * b - q * (p * t);
        { assert q * (p * t) == p * (q * t); }
        p * b - p * (q * t);
        p * x;
      }
    }
    assert x >= 0 by {
      if x < 0 {
        MulMono(p, x, -1);
      }
    }
    MultipleMod(p, x);
  }

  /** The slot that step `k` of a walk visits. */
  function Slot(size: nat, offset: nat, skip: nat, k: nat): (slot: nat)
    requires size > 0
    ensures slot < size
  {
    (offset + skip * k) % size
  }

  /** A walk starts at its offset and goes on by its stride, around the table. */
  lemma WalkSteps(size: nat, offset: nat, skip: nat, k: nat)
    requires offset < size
    ensures Slot(size, offset, skip, 0) == offset
    ensures Slot(size, offset, skip, k + 1) == (Slot(size, offset, skip, k) + skip) % size
  {
    UniqueMod(offset, size, 0, offset);
    MulSucc(skip, k);
    ModAdd(offset + skip * k, skip, size);
  }

  lemma SlotsDiffer(size: nat, offset: nat, skip: nat, j: nat, k: nat)
    requires Prime(size) && 0 < skip < size && j < k < j + size
    ensures Slot(size, offset, skip, j) != Slot(size, offset, skip, k)
  {
    var x, y := offset + skip * j, offset + skip * k;
    if x % size == y % size {
      NoZeroProduct(size, skip, k - j);
      DivMod(x, size);
      DivMod(y, size);
      Difference(size, skip * (k - j), x / size, y / size);
    }
  }

  lemma Difference(size: nat, z: nat, s: nat, t: nat)
    requires size > 0 && z == size * t - size * s
    ensures z % size == 0
  {
    assert z == size * (t - s);
    assert t >= s by {
      if t < s {
        MulMono(size, t - s, -1);
      }
    }
    MultipleMod(size, t - s);
  }

  /** Any `size` consecutive steps visit every slot. */
  lemma WalkVisitsAll(size: nat, offset: nat, skip: nat, start: nat, slot: nat) returns (k: nat)
    requires Prime(size) && 0 < skip < size && slot < size
    ensures start <= k < start + size && Slot(size, offset, skip, k) == slot
  {
    var visited := Visited(size, offset, skip, start, size);
    forall i, j | 0 <= i < j < size ensures visited[i] != visited[j] {
      SlotsDiffer(size, offset, skip, start + i, start + j);
    }
    Pigeonhole(visited, size, slot);
    var j :| 0 <= j < size && visited[j] == slot;
    k := start + j;
  }

  function Visited(size: nat, offset: nat, skip: nat, start: nat, n: nat): (r: seq<nat>)
    requires size > 0
    ensures |r| == n && forall j | 0 <= j < n :: r[j] == Slot(size, offset, skip, start + j)
  {
    if n == 0 then [] else Visited(size, offset, skip, start, n - 1) + [Slot(size, offset, skip, start + (n - 1))]
  }
}
