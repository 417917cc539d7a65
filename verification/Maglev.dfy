/**
  Construction of the Maglev lookup table (orion-lib/src/clusters/balancers/maglev.rs).

  Every endpoint walks the table with its own offset and stride and takes the next free slot each time it has
  accumulated enough weight.  The endpoint's hashes are arbitrary; weights are real numbers, so floating-point
  rounding is not modelled.
 */
module Maglev {
  import opened Arithmetic
  import opened Iteration
  import opened Primes
  import opened Wrappers

  datatype Permutation = Permutation(offset: nat, skip: nat, weight: real, current: real, next: nat)

  type Table = seq<Option<nat>>

  predicate PermutationOk(size: nat, target: real, p: Permutation) {
    p.offset < size && 0 < p.skip < size && 0.0 < p.weight <= target
  }

  // ---------------------------------------------------------------- counting slots

  function Filled(t: Table): (n: nat)
    ensures n <= |t|
  {
    if t == [] then 0 else Filled(t[..|t| - 1]) + (if t[|t| - 1].Some? then 1 else 0)
  }

  function Owned(t: Table, item: nat): (n: nat)
    ensures n <= Filled(t)
  {
    if t == [] then 0 else Owned(t[..|t| - 1], item) + (if t[|t| - 1] == Some(item) then 1 else 0)
  }

  lemma {:induction false} FreeSlot(t: Table) returns (slot: nat)
    requires Filled(t) < |t|
    ensures slot < |t| && t[slot].None?
  {
    var n := |t| - 1;
    if t[n].None? {
      slot := n;
    } else {
      slot := FreeSlot(t[..n]);
    }
  }

  lemma {:induction false} AllFilled(t: Table)
    requires Filled(t) == |t|
    ensures forall k | 0 <= k < |t| :: t[k].Some?
  {
    if t != [] {
      AllFilled(t[..|t| - 1]);
    }
  }

  lemma {:induction false} NoneFilled(t: Table, item: nat)
    requires forall k | 0 <= k < |t| :: t[k].None?
    ensures Filled(t) == 0 && Owned(t, item) == 0
  {
    if t != [] {
      NoneFilled(t[..|t| - 1], item);
    }
  }

  /** Taking a free slot adds one to its owner's count and to no other. */
  lemma {:induction false} TakeSlot(t: Table, slot: nat, item: nat, other: nat)
    requires slot < |t| && t[slot].None?
    ensures var t' := t[slot := Some(item)];
            && Filled(t') == Filled(t) + 1
            && Owned(t', other) == Owned(t, other) + (if other == item then 1 else 0)
  {
    var n := |t| - 1;
    var t' := t[slot := Some(item)];
    if slot < n {
      TakeSlot(t[..n], slot, item, other);
      assert t'[..n] == t[..n][slot := Some(item)];
    } else {
      assert t'[..n] == t[..n];
    }
  }

  // ---------------------------------------------------------------- the walk of one endpoint

  /** Walks from the permutation's position to the first free slot and takes it.  With a prime table size and a
      free slot left, the walk succeeds within `size` steps. */
  method Place(size: nat, table: array<Option<nat>>, p: Permutation, item: nat)
    returns (p': Permutation, ghost slot: nat)
    requires Prime(size) && table.Length == size && 0 < p.skip < size
    requires Filled(table[..]) < size
    modifies table
    ensures slot < size && old(table[slot]).None? && table[..] == old(table[..])[slot := Some(item)]
    ensures p' == p.(next := p'.next) && p.next < p'.next <= p.next + size
    ensures slot == Slot(size, p.offset, p.skip, p'.next - 1)
    ensures forall k | p.next <= k < p'.next - 1 :: old(table[Slot(size, p.offset, p.skip, k)]).Some?
  {
    var next := p.next;
    var steps := 0;
    while steps < size
      invariant steps <= size && next == p.next + steps
      invariant table[..] == old(table[..])
      invariant forall k | p.next <= k < next :: table[Slot(size, p.offset, p.skip, k)].Some?
    {
      var index := Slot(size, p.offset, p.skip, next);
      next := next + 1;
      steps := steps + 1;
      if table[index].None? {
        table[index] := Some(item);
        return p.(next := next), index;
      }
    }
    ghost var free := FreeSlot(table[..]);
    ghost var k := WalkVisitsAll(size, p.offset, p.skip, p.next, free);
    assert false;
  }

  /** Adds the weight; an endpoint that reaches the target pays for one slot. */
  function Charge(p: Permutation, target: real): (Permutation, bool) {
    var current := p.current + p.weight;
    if current >= target then (p.(current := current - target), true) else (p.(current := current), false)
  }

  // ---------------------------------------------------------------- the books of an endpoint

  /** What is left is the initial credit plus the weight of all visits, less one target for each slot owned.  An
      endpoint of the target weight gets a slot at every visit; any other is left with less than the target. */
  ghost predicate Account(p: Permutation, target: real, visits: nat, owned: nat) {
    && p.current == target + Scaled(visits, p.weight) - Scaled(owned, target)
    && 0.0 <= p.current <= target
    && (visits == 0 ==> owned == 0)
    && (visits > 0 && p.weight < target ==> p.current < target)
    && (p.weight == target ==> owned == visits)
  }

  lemma ChargeKeepsAccount(p: Permutation, target: real, visits: nat, owned: nat)
    requires Account(p, target, visits, owned) && 0.0 < p.weight <= target
    ensures var (p', enough) := Charge(p, target);
            Account(p', target, visits + 1, owned + (if enough then 1 else 0))
  {
  }

  /** How often an endpoint was visited in `rounds` whole rounds and one that got as far as `upto`. */
  ghost function Visits(rounds: nat, upto: nat, i: nat): nat {
    if i < upto then rounds + 1 else rounds
  }

  /** The books of all endpoints: the first `upto` of them have been visited once more than the others. */
  ghost predicate Books(size: nat, perms: seq<Permutation>, t: Table, target: real, rounds: nat, upto: nat) {
    forall i | 0 <= i < |perms| ::
      PermutationOk(size, target, perms[i]) &&
      Account(perms[i], target, Visits(rounds, upto, i), Owned(t, i))
  }

  /** The entries of an endpoint after a number of visits: one per visit at the target weight, and below it one more
      than the whole part of `visits * weight / target`. */
  ghost predicate Share(owned: nat, weight: real, target: real, visits: nat) {
    && (visits == 0 ==> owned == 0)
    && (visits > 0 && weight < target ==>
          Scaled(visits, weight) < Scaled(owned, target) <= Scaled(visits, weight) + target)
    && (weight == target ==> owned == visits)
  }

  lemma ShareAsProducts(owned: nat, weight: real, target: real, visits: nat)
    requires Share(owned, weight, target, visits) && visits > 0 && weight < target
    ensures (owned as real - 1.0) * target <= visits as real * weight < owned as real * target
  {
    ScaledIsMul(visits, weight);
    ScaledIsMul(owned, target);
    DistributeReal(owned as real - 1.0, 1.0, target);
  }

  lemma AccountGivesShare(p: Permutation, target: real, visits: nat, owned: nat)
    requires Account(p, target, visits, owned) && 0.0 < p.weight <= target
    ensures Share(owned, p.weight, target, visits)
    ensures visits >= 1 ==> owned >= 1
  {
    if visits >= 1 {
      ScaledMonotone(1, visits, p.weight);
    }
  }

  // ---------------------------------------------------------------- building the table

  /** What one visit does: the endpoint's weight is added to its balance; from the target on, the target is taken off
      again and the endpoint takes the first free slot of its walk.  Nothing else changes. */
  ghost predicate Visited(size: nat, before: Table, perms: seq<Permutation>, target: real, item: nat,
                          after: Table, perms': seq<Permutation>)
    requires size > 0 && |before| == size && item < |perms|
  {
    var p := perms[item];
    if p.current + p.weight < target then
      after == before && perms' == perms[item := p.(current := p.current + p.weight)]
    else
      exists k | k >= p.next ::
        && before[Slot(size, p.offset, p.skip, k)] == None
        && (forall j | p.next <= j < k :: before[Slot(size, p.offset, p.skip, j)] != None)
        && after == before[Slot(size, p.offset, p.skip, k) := Some(item)]
        && perms' == perms[item := p.(current := p.current + p.weight - target, next := k + 1)]
  }

  /** A moment of the construction. */
  datatype Moment = Moment(table: Table, perms: seq<Permutation>)

  /** The course of the construction: the endpoints are visited in turn, as long as the table is not full. */
  ghost predicate Course(size: nat, target: real, n: nat, moments: seq<Moment>) {
    && size > 0 && n > 0 && moments != []
    && (forall v | 0 <= v < |moments| :: |moments[v].table| == size && |moments[v].perms| == n)
    && (forall v | 0 <= v < |moments| - 1 :: Moves(size, target, n, moments, v))
  }

  ghost predicate Moves(size: nat, target: real, n: nat, moments: seq<Moment>, v: nat)
    requires size > 0 && n > 0 && v + 1 < |moments| && |moments[v].table| == size && |moments[v].perms| == n
  {
    && Filled(moments[v].table) < size
    && Visited(size, moments[v].table, moments[v].perms, target, v % n, moments[v + 1].table, moments[v + 1].perms)
  }

  ghost predicate Now(moments: seq<Moment>, t: Table, perms: seq<Permutation>, visits: nat) {
    |moments| == visits + 1 && moments[visits] == Moment(t, perms)
  }

  lemma CourseGrows(size: nat, target: real, n: nat, moments: seq<Moment>, rounds: nat, item: nat,
                    t: Table, perms: seq<Permutation>, t': Table, perms': seq<Permutation>)
    requires Course(size, target, n, moments) && item < n && Now(moments, t, perms, Times(rounds, n) + item)
    requires |t| == |t'| == size && |perms| == |perms'| == n && Filled(t) < size
    requires Visited(size, t, perms, target, item, t', perms')
    ensures Course(size, target, n, moments + [Moment(t', perms')])
    ensures Now(moments + [Moment(t', perms')], t', perms', Times(rounds, n) + item + 1)
  {
    TimesIsMul(rounds, n);
    assert Times(rounds, n) == n * rounds;
    UniqueMod(n * rounds + item, n, rounds, item);
    var longer := moments + [Moment(t', perms')];
    forall v | 0 <= v < |longer| - 1 ensures Moves(size, target, n, longer, v) {
      if v < |moments| - 1 {
        assert Moves(size, target, n, moments, v);
      }
    }
  }

  /** One visit to endpoint `item`. */
  method Visit(size: nat, table: array<Option<nat>>, perms: seq<Permutation>, target: real,
               ghost rounds: nat, item: nat, filled: nat)
    returns (perms': seq<Permutation>, filled': nat)
    requires Prime(size) && table.Length == size && item < |perms|
    requires Books(size, perms, table[..], target, rounds, item)
    requires filled == Filled(table[..]) < size
    requires forall k | 0 <= k < size :: table[k].Some? ==> table[k].value < |perms|
    modifies table
    ensures |perms'| == |perms| && forall i | 0 <= i < |perms| :: perms'[i].weight == perms[i].weight
    ensures Books(size, perms', table[..], target, rounds, item + 1)
    ensures filled' == Filled(table[..]) && filled <= filled' <= filled + 1
    ensures forall k | 0 <= k < size :: table[k].Some? ==> table[k].value < |perms|
    ensures Visited(size, old(table[..]), perms, target, item, table[..], perms')
  {
    var (charged, enough) := Charge(perms[item], target);
    ChargeKeepsAccount(perms[item], target, rounds, Owned(table[..], item));
    if !enough {
      return perms[item := charged], filled;
    }
    ghost var before := table[..];
    var moved, slot := Place(size, table, charged, item);
    perms' := perms[item := moved];
    filled' := filled + 1;
    SlotTaken(size, before, slot, perms, item, charged, moved, target, rounds);
    assert forall k | 0 <= k < size :: table[k] == table[..][k];
  }

  lemma SlotTaken(size: nat, before: Table, slot: nat, perms: seq<Permutation>, item: nat, charged: Permutation,
                  moved: Permutation, target: real, rounds: nat)
    requires slot < |before| && before[slot].None? && item < |perms|
    requires Books(size, perms, before, target, rounds, item)
    requires PermutationOk(size, target, charged) && Account(charged, target, rounds + 1, Owned(before, item) + 1)
    requires moved == charged.(next := moved.next)
    ensures var after := before[slot := Some(item)];
            Filled(after) == Filled(before) + 1 && Books(size, perms[item := moved], after, target, rounds, item + 1)
  {
    var after := before[slot := Some(item)];
    TakeSlot(before, slot, item, item);
    forall i | 0 <= i < |perms| ensures Owned(after, i) == Owned(before, i) + (if i == item then 1 else 0) {
      TakeSlot(before, slot, item, i);
    }
  }

  ghost predicate EntriesNameItems(t: Table, n: nat) {
    forall k | 0 <= k < |t| :: t[k].Some? ==> t[k].value < n
  }

  /** What holds during the construction: the books, the entries made so far and the course. */
  ghost predicate UnderWay(size: nat, t: Table, perms: seq<Permutation>, initial: seq<Permutation>, target: real,
                           rounds: nat, upto: nat, moments: seq<Moment>)
  {
    && |perms| == |initial| && (forall i | 0 <= i < |perms| :: perms[i].weight == initial[i].weight)
    && Books(size, perms, t, target, rounds, upto) && EntriesNameItems(t, |perms|)
    && Course(size, target, |perms|, moments) && Now(moments, t, perms, Times(rounds, |perms|) + upto)
  }

  lemma NextRound(size: nat, t: Table, perms: seq<Permutation>, initial: seq<Permutation>, target: real,
                  rounds: nat, moments: seq<Moment>)
    requires UnderWay(size, t, perms, initial, target, rounds, |perms|, moments)
    ensures UnderWay(size, t, perms, initial, target, rounds + 1, 0, moments)
  {
  }

  lemma HeaviestOwns(size: nat, t: Table, perms: seq<Permutation>, initial: seq<Permutation>, target: real,
                     rounds: nat, moments: seq<Moment>, heaviest: nat)
    requires UnderWay(size, t, perms, initial, target, rounds, 0, moments)
    requires heaviest < |initial| && initial[heaviest].weight == target
    ensures Filled(t) >= rounds
  {
    assert Account(perms[heaviest], target, Visits(rounds, 0, heaviest), Owned(t, heaviest));
  }

  lemma OneMoreVisit(size: nat, t: Table, perms: seq<Permutation>, initial: seq<Permutation>, target: real,
                     rounds: nat, item: nat, moments: seq<Moment>, t': Table, perms': seq<Permutation>)
    requires UnderWay(size, t, perms, initial, target, rounds, item, moments) && item < |perms| && Filled(t) < size
    requires |t'| == size && |perms'| == |perms| && forall i | 0 <= i < |perms| :: perms'[i].weight == perms[i].weight
    requires Books(size, perms', t', target, rounds, item + 1) && EntriesNameItems(t', |perms|)
    requires Visited(size, t, perms, target, item, t', perms')
    ensures UnderWay(size, t', perms', initial, target, rounds, item + 1, moments + [Moment(t', perms')])
  {
    CourseGrows(size, target, |perms|, moments, rounds, item, t, perms, t', perms');
  }

  /** One round over the endpoints, left as soon as the table is full. */
  method Round(size: nat, table: array<Option<nat>>, current: seq<Permutation>, ghost initial: seq<Permutation>,
               target: real, ghost rounds: nat, given: nat, ghost past: seq<Moment>)
    returns (perms: seq<Permutation>, filled: nat, upto: nat, ghost moments: seq<Moment>)
    requires Prime(size) && table.Length == size && given == Filled(table[..])
    requires UnderWay(size, table[..], current, initial, target, rounds, 0, past)
    modifies table
    ensures upto <= |perms| && (upto == |perms| || filled == size)
    ensures filled == Filled(table[..]) <= given + upto
    ensures UnderWay(size, table[..], perms, initial, target, rounds, upto, moments) && past <= moments
  {
    perms, filled, upto, moments := current, given, 0, past;
    while upto < |perms|
      invariant upto <= |perms| && filled == Filled(table[..]) <= given + upto
      invariant UnderWay(size, table[..], perms, initial, target, rounds, upto, moments) && past <= moments
    {
      if filled >= size {
        return;
      }
      ghost var before, given := table[..], perms;
      perms, filled := Visit(size, table, perms, target, rounds, upto, filled);
      OneMoreVisit(size, before, given, initial, target, rounds, upto, moments, table[..], perms);
      moments := moments + [Moment(table[..], perms)];
      upto := upto + 1;
    }
  }

  lemma {:induction false} EntriesAreOwned(t: Table, table: seq<nat>, item: nat)
    requires |t| == |table| && forall k | 0 <= k < |t| :: t[k] == Some(table[k])
    ensures Count(table, item) == Owned(t, item)
  {
    if t != [] {
      EntriesAreOwned(t[..|t| - 1], table[..|table| - 1], item);
    }
  }

  /** Every endpoint has exactly its share of entries. */
  ghost predicate Proportional(table: seq<nat>, weights: seq<real>, target: real, rounds: nat, upto: nat) {
    forall i | 0 <= i < |weights| :: Share(Count(table, i), weights[i], target, Visits(rounds, upto, i))
  }

  // ---------------------------------------------------------------- shares of the whole table

  /** The entries of an endpoint, with all weights multiplied by their sum: `heaviest` takes the place of the target. */
  ghost predicate WholeShare(owned: nat, weight: nat, heaviest: nat, rounds: nat) {
    Times(rounds, weight) <= Times(owned, heaviest) <= Times(rounds + 1, weight) + heaviest
  }

  /** An endpoint has at most two entries more than its part of a table of `size`, and at most one less than its part of
      a table of `size - n`, for `n` endpoints. */
  ghost predicate Close(owned: nat, weight: nat, total: nat, size: nat, n: nat) {
    size * weight - n * weight - total <= owned * total <= size * weight + 2 * total
  }

  /** Fractions cleared of their denominator. */
  lemma Cleared(a: nat, w: nat, b: nat, m: nat, total: nat)
    requires total > 0 && Scaled(a, w as real / total as real) <= Scaled(b, m as real / total as real)
    ensures Times(a, w) <= Times(b, m)
  {
    ScaledIsMul(a, w as real / total as real);
    ScaledIsMul(b, m as real / total as real);
    ClearedReal(a as real, w as real, b as real, m as real, total as real);
    InWholeNumbers(a, w, b, m);
  }

  lemma ClearedReal(a: real, w: real, b: real, m: real, total: real)
    requires total > 0.0 && a * (w / total) <= b * (m / total)
    ensures a * w <= b * m
  {
    assert (w / total) * total == w && (m / total) * total == m;
    assert (a * (w / total)) * total == a * w;
    assert (b * (m / total)) * total == b * m;
  }

  lemma InWholeNumbers(a: nat, w: nat, b: nat, m: nat)
    requires a as real * w as real <= b as real * m as real
    ensures Times(a, w) <= Times(b, m)
  {
    TimesIsMul(a, w);
    TimesIsMul(b, m);
    CastProduct(a, w);
    CastProduct(b, m);
  }

  lemma CastProduct(a: nat, b: nat)
    ensures (a * b) as real == a as real * b as real
  {
  }

  lemma ShareIsWhole(owned: nat, weight: nat, heaviest: nat, total: nat, rounds: nat, visits: nat)
    requires 0 < weight <= heaviest && total > 0 && rounds <= visits <= rounds + 1
    requires Share(owned, weight as real / total as real, heaviest as real / total as real, visits)
    ensures WholeShare(owned, weight, heaviest, rounds)
  {
    Ordered(weight, heaviest, total);
    ShareBounds(owned, weight as real / total as real, heaviest as real / total as real, visits);
    Cleared(visits, weight, owned, heaviest, total);
    if owned > 0 {
      Cleared(owned - 1, heaviest, visits, weight, total);
    }
    TimesMonotone(rounds, visits, weight);
    TimesMonotone(visits, rounds + 1, weight);
  }

  lemma Ordered(weight: nat, heaviest: nat, total: nat)
    requires 0 < weight <= heaviest && total > 0
    ensures 0.0 < weight as real / total as real <= heaviest as real / total as real
  {
  }

  lemma ShareBounds(owned: nat, weight: real, target: real, visits: nat)
    requires Share(owned, weight, target, visits) && 0.0 < weight <= target
    ensures Scaled(visits, weight) <= Scaled(owned, target)
    ensures owned > 0 ==> Scaled(owned - 1, target) <= Scaled(visits, weight)
  {
  }

  /** The shares of the first `n` endpoints together. */
  ghost predicate WholeShares(owned: nat, weight: nat, heaviest: nat, rounds: nat, n: nat) {
    Times(rounds, weight) <= Times(owned, heaviest) <= Times(rounds + 1, weight) + Times(n, heaviest)
  }

  lemma OneMoreShare(owned: nat, weight: nat, owned': nat, weight': nat, heaviest: nat, rounds: nat, n: nat)
    requires WholeShares(owned, weight, heaviest, rounds, n) && WholeShare(owned', weight', heaviest, rounds)
    ensures WholeShares(owned + owned', weight + weight', heaviest, rounds, n + 1)
  {
    TimesAdd(owned, owned', heaviest);
    TimesOfSum(rounds, weight, weight');
    TimesOfSum(rounds + 1, weight, weight');
  }

  lemma {:induction false} AllShares(table: seq<nat>, weights: seq<nat>, heaviest: nat, rounds: nat)
    requires forall i | 0 <= i < |weights| :: WholeShare(Count(table, i), weights[i], heaviest, rounds)
    ensures WholeShares(CountSum(table, |weights|), Sum(weights), heaviest, rounds, |weights|)
  {
    if weights == [] {
      TimesIsMul(rounds, 0);
      TimesIsMul(rounds + 1, 0);
    } else {
      var n := |weights| - 1;
      AllShares(table, weights[..n], heaviest, rounds);
      OneMoreShare(CountSum(table, n), Sum(weights[..n]), Count(table, n), weights[n], heaviest, rounds, n);
    }
  }

  /** What the share of one endpoint and the shares of all together say about a table of `size` entries. */
  lemma CloseShare(owned: nat, weight: nat, heaviest: nat, total: nat, rounds: nat, size: nat, n: nat)
    requires 0 < weight <= heaviest
    requires rounds * weight <= owned * heaviest <= (rounds + 1) * weight + heaviest
    requires rounds * total <= size * heaviest <= (rounds + 1) * total + n * heaviest
    ensures Close(owned, weight, total, size, n)
  {
    AtMostTwoMore(owned, weight, heaviest, total, rounds, size);
    NotMuchLess(owned, weight, heaviest, total, rounds, size, n);
  }

  lemma AtMostTwoMore(owned: nat, weight: nat, heaviest: nat, total: nat, rounds: nat, size: nat)
    requires 0 < weight <= heaviest && rounds * total <= size * heaviest
    requires owned * heaviest <= (rounds + 1) * weight + heaviest
    ensures owned * total <= size * weight + 2 * total
  {
    calc {
      heaviest * (owned * total);
      { Rotate(owned, heaviest, total); }
      (owned * heaviest) * total;
    <= { MulMono(total, owned * heaviest, (rounds + 1) * weight + 1 * heaviest); }
      ((rounds + 1) * weight + 1 * heaviest) * total;
      { Expand(rounds, weight, 1, heaviest, total); }
      (rounds * total) * weight + weight * total + (1 * total) * heaviest;
    <= { MulMono(weight, rounds * total, size * heaviest); MulMono(total, weight, heaviest); }
      (size * heaviest) * weight + heaviest * total + heaviest * total;
      { Rotate(size, heaviest, weight); Distribute(heaviest, size * weight, 2 * total); }
      heaviest * (size * weight + 2 * total);
    }
    Cancel(heaviest, owned * total, size * weight + 2 * total);
  }

  lemma Expand(rounds: nat, a: nat, n: nat, b: nat, c: nat)
    ensures ((rounds + 1) * a + n * b) * c == (rounds * c) * a + a * c + (n * c) * b
  {
    Distribute(c, (rounds + 1) * a, n * b);
    Distribute(a, rounds, 1);
    Distribute(c, rounds * a, a);
    Rotate(rounds, a, c);
    Rotate(n, b, c);
  }

  lemma NotMuchLess(owned: nat, weight: nat, heaviest: nat, total: nat, rounds: nat, size: nat, n: nat)
    requires 0 < weight <= heaviest && size * heaviest <= (rounds + 1) * total + n * heaviest
    requires rounds * weight <= owned * heaviest
    ensures size * weight - n * weight - total <= owned * total
  {
    calc {
      heaviest * (size * weight);
      { Rotate(size, heaviest, weight); }
      (size * heaviest) * weight;
    <= { MulMono(weight, size * heaviest, (rounds + 1) * total + n * heaviest); }
      ((rounds + 1) * total + n * heaviest) * weight;
      { Expand(rounds, total, n, heaviest, weight); }
      (rounds * weight) * total + total * weight + (n * weight) * heaviest;
    <= { MulMono(total, rounds * weight, owned * heaviest); MulMono(total, weight, heaviest); }
      (owned * heaviest) * total + total * heaviest + (n * weight) * heaviest;
      { Gather(owned, total, n * weight, heaviest); }
      heaviest * (owned * total + total + n * weight);
    }
    Cancel(heaviest, size * weight, owned * total + total + n * weight);
  }

  lemma Gather(owned: nat, total: nat, rest: nat, heaviest: nat)
    ensures (owned * heaviest) * total + total * heaviest + rest * heaviest == heaviest * (owned * total + total + rest)
  {
    Rotate(owned, heaviest, total);
    Distribute(heaviest, owned * total, total);
    Distribute(heaviest, owned * total + total, rest);
  }

  lemma Cancel(m: nat, x: int, y: int)
    requires m > 0 && m * x <= m * y
    ensures x <= y
  {
    if y < x {
      MulMono(m, y + 1, x);
      MulSucc(m, y);
    }
  }

  /** A full table divided in proportion to the visits is divided in proportion to the weights. */
  lemma TableIsClose(table: seq<nat>, weights: seq<nat>, heaviest: nat, rounds: nat, upto: nat, i: nat)
    requires i < |weights| && heaviest < |weights| && forall k | 0 <= k < |table| :: table[k] < |weights|
    requires forall j | 0 <= j < |weights| :: 0 < weights[j] <= weights[heaviest]
    requires Sum(weights) > 0
    requires Proportional(table, Normalized(weights, Sum(weights)), Normalized(weights, Sum(weights))[heaviest],
                          rounds, upto)
    ensures Close(Count(table, i), weights[i], Sum(weights), |table|, |weights|)
  {
    var total, most := Sum(weights), weights[heaviest];
    forall j | 0 <= j < |weights| ensures WholeShare(Count(table, j), weights[j], most, rounds) {
      ShareIsWhole(Count(table, j), weights[j], most, total, rounds, Visits(rounds, upto, j));
    }
    AllShares(table, weights, most, rounds);
    CountsAddUp(table, |weights|);
    InProducts(Count(table, i), weights[i], most, total, rounds, |table|, |weights|);
  }

  lemma InProducts(owned: nat, weight: nat, heaviest: nat, total: nat, rounds: nat, size: nat, n: nat)
    requires 0 < weight <= heaviest && WholeShare(owned, weight, heaviest, rounds)
    requires WholeShares(size, total, heaviest, rounds, n)
    ensures Close(owned, weight, total, size, n)
  {
    TimesIsMul(rounds, weight);
    TimesIsMul(owned, heaviest);
    TimesIsMul(rounds + 1, weight);
    TimesIsMul(rounds, total);
    TimesIsMul(size, heaviest);
    TimesIsMul(rounds + 1, total);
    TimesIsMul(n, heaviest);
    CloseShare(owned, weight, heaviest, total, rounds, size, n);
  }

  ghost function Weights(perms: seq<Permutation>): (r: seq<real>)
    ensures |r| == |perms| && forall i | 0 <= i < |perms| :: r[i] == perms[i].weight
  {
    seq(|perms|, i requires 0 <= i < |perms| => perms[i].weight)
  }

  /** The rounds over the endpoints, until the table is full.  The heaviest endpoint places an entry in every
      round, so at most `size` rounds are needed. */
  method Rounds(size: nat, slots: array<Option<nat>>, initial: seq<Permutation>, target: real, ghost heaviest: nat)
    returns (perms: seq<Permutation>, round: nat, upto: nat, ghost moments: seq<Moment>)
    requires Prime(size) && heaviest < |initial| && initial[heaviest].weight == target && slots.Length == size
    requires Filled(slots[..]) == 0
    requires UnderWay(size, slots[..], initial, initial, target, 0, 0, [Moment(slots[..], initial)])
    modifies slots
    ensures UnderWay(size, slots[..], perms, initial, target, round, upto, moments) && upto <= |perms|
    ensures Filled(slots[..]) == size && (|initial| <= size ==> round >= 1)
    ensures moments[0] == Moment(old(slots[..]), initial)
  {
    var filled := 0;
    perms, round, upto := initial, 0, 0;
    moments := [Moment(slots[..], initial)];
    while round < size
      invariant round <= size && upto == 0
      invariant UnderWay(size, slots[..], perms, initial, target, round, 0, moments)
      invariant filled == Filled(slots[..]) && (round == 0 ==> filled == 0)
      invariant moments != [] && moments[0] == Moment(old(slots[..]), initial)
    {
      perms, filled, upto, moments := Round(size, slots, perms, initial, target, round, filled, moments);
      if upto < |perms| {
        return;
      }
      NextRound(size, slots[..], perms, initial, target, round, moments);
      upto := 0;
      round := round + 1;
    }
    HeaviestOwns(size, slots[..], perms, initial, target, round, moments, heaviest);
  }

  lemma FinalEntries(size: nat, initial: seq<Permutation>, perms: seq<Permutation>, t: Table, table: seq<nat>,
                     target: real, round: nat, upto: nat, i: nat)
    requires i < |initial| == |perms| && perms[i].weight == initial[i].weight
    requires upto <= |perms| && Books(size, perms, t, target, round, upto)
    requires |t| == |table| && forall k | 0 <= k < |t| :: t[k] == Some(table[k])
    ensures Share(Count(table, i), initial[i].weight, target, Visits(round, upto, i))
    ensures Visits(round, upto, i) >= 1 ==> Count(table, i) >= 1
  {
    EntriesAreOwned(t, table, i);
    AccountGivesShare(perms[i], target, Visits(round, upto, i), Owned(t, i));
  }

  /** The table is what visiting the endpoints in turn, from an empty table on, leads to when it is full. */
  ghost predicate Constructed(size: nat, target: real, initial: seq<Permutation>, moments: seq<Moment>,
                              table: seq<nat>)
  {
    && Course(size, target, |initial|, moments)
    && moments[0].perms == initial && (forall k | 0 <= k < size :: moments[0].table[k] == None)
    && |table| == size && forall k | 0 <= k < size :: moments[|moments| - 1].table[k] == Some(table[k])
  }

  /** Builds the table in rounds over the endpoints.  The table always comes out full, each entry names an endpoint,
      every endpoint has exactly the entries that its weight and its visits give it, and each has at least one entry
      when there are no more endpoints than slots. */
  method Build(size: nat, initial: seq<Permutation>, target: real, ghost heaviest: nat)
    returns (table: seq<nat>, ghost rounds: nat, ghost upto: nat, ghost moments: seq<Moment>)
    requires Prime(size) && heaviest < |initial| && initial[heaviest].weight == target
    requires forall i | 0 <= i < |initial| :: PermutationOk(size, target, initial[i]) && initial[i].current == target
    ensures |table| == size && forall k | 0 <= k < size :: table[k] < |initial|
    ensures Proportional(table, Weights(initial), target, rounds, upto)
    ensures |initial| <= size ==> forall i | 0 <= i < |initial| :: Count(table, i) >= 1
    ensures Constructed(size, target, initial, moments, table)
  {
    var slots := new Option<nat>[size](_ => None);
    NoneFilled(slots[..], 0);
    forall i | 0 <= i < |initial| ensures Owned(slots[..], i) == 0 {
      NoneFilled(slots[..], i);
    }
    ghost var empty := slots[..];
    var perms, round, reached, course := Rounds(size, slots, initial, target, heaviest);
    moments := course;
    table := Unwrap(slots[..], |initial|);
    rounds, upto := round, reached;
    forall i | 0 <= i < |initial|
      ensures Share(Count(table, i), initial[i].weight, target, Visits(rounds, upto, i))
      ensures Visits(rounds, upto, i) >= 1 ==> Count(table, i) >= 1
    {
      FinalEntries(size, initial, perms, slots[..], table, target, round, reached, i);
    }
  }

  /** The entries of a full table. */
  method Unwrap(t: Table, n: nat) returns (table: seq<nat>)
    requires Filled(t) == |t| && EntriesNameItems(t, n)
    ensures |table| == |t| && forall k | 0 <= k < |t| :: t[k] == Some(table[k]) && table[k] < n
  {
    AllFilled(t);
    table := [];
    for k := 0 to |t|
      invariant |table| == k && forall j | 0 <= j < k :: t[j] == Some(table[j]) && table[j] < n
    {
      table := table + [t[k].value];
    }
  }

  // ---------------------------------------------------------------- from weights to a lookup

  /** Every endpoint starts at its offset with its stride, its normalised weight, and the target as its credit. */
  ghost predicate Starts(initial: seq<Permutation>, weights: seq<nat>, offsets: seq<nat>, skips: seq<nat>, target: real)
    requires Sum(weights) > 0 && |weights| == |offsets| == |skips|
  {
    && |initial| == |weights|
    && forall i | 0 <= i < |weights| ::
         initial[i] == Permutation(offsets[i], skips[i], weights[i] as real / Sum(weights) as real, target, 0)
  }

  /** The table of a list of endpoint weights, with each endpoint's hashed offset and stride.  Every hash
      leads to an endpoint. */
  method WithSize(size: nat, weights: seq<nat>, offsets: seq<nat>, skips: seq<nat>)
    returns (table: seq<nat>, ghost target: real, ghost rounds: nat, ghost upto: nat, ghost moments: seq<Moment>)
    requires Prime(size) && |weights| == |offsets| == |skips|
    requires forall i | 0 <= i < |weights| :: weights[i] > 0 && offsets[i] < size && 0 < skips[i] < size
    ensures weights == [] <==> table == []
    ensures |weights| == 1 ==> table == [0]
    ensures forall k | 0 <= k < |table| :: table[k] < |weights|
    ensures |weights| > 1 ==> |table| == size
    ensures |weights| > 1 ==>
              Proportional(table, Normalized(weights, Sum(weights)), target, rounds, upto)
    ensures |weights| > 1 ==>
              && target in Normalized(weights, Sum(weights))
              && forall i | 0 <= i < |weights| :: 0.0 < Normalized(weights, Sum(weights))[i] <= target
    ensures |weights| > 1 ==>
              forall i | 0 <= i < |weights| :: Close(Count(table, i), weights[i], Sum(weights), size, |weights|)
    ensures 1 < |weights| <= size ==> forall i | 0 <= i < |weights| :: Count(table, i) >= 1
    ensures |weights| > 1 ==>
              exists initial: seq<Permutation> ::
                Starts(initial, weights, offsets, skips, target) && Constructed(size, target, initial, moments, table)
  {
    target, rounds, upto, moments := 1.0, 0, 0, [];
    if weights == [] {
      return [], target, rounds, upto, moments;
    }
    if |weights| == 1 {
      return [0], target, rounds, upto, moments;
    }
    var total := Sum(weights);
    SumPositive(weights);
    var normalized := Normalized(weights, total);
    var heaviest := Heaviest(normalized);
    var best := normalized[heaviest];
    var perms := seq(|weights|, i requires 0 <= i < |weights| =>
      Permutation(offsets[i], skips[i], normalized[i], best, 0));
    assert Weights(perms) == normalized;
    table, rounds, upto, moments := Build(size, perms, best, heaviest);
    target := best;
    assert Starts(perms, weights, offsets, skips, target);
    HeaviestOfWhole(weights, total, heaviest);
    forall i | 0 <= i < |weights| ensures Close(Count(table, i), weights[i], total, size, |weights|) {
      TableIsClose(table, weights, heaviest, rounds, upto, i);
    }
  }

  method Heaviest(weights: seq<real>) returns (heaviest: nat)
    requires weights != []
    ensures heaviest < |weights| && forall j | 0 <= j < |weights| :: weights[j] <= weights[heaviest]
  {
    heaviest := 0;
    for i := 1 to |weights|
      invariant heaviest < |weights| && forall j | 0 <= j < i :: weights[j] <= weights[heaviest]
    {
      if weights[i] > weights[heaviest] {
        heaviest := i;
      }
    }
  }

  lemma SumPositive(weights: seq<nat>)
    requires weights != [] && forall i | 0 <= i < |weights| :: weights[i] > 0
    ensures Sum(weights) > 0
  {
  }

  function Normalized(weights: seq<nat>, total: nat): (r: seq<real>)
    requires total > 0 || weights == []
    ensures |r| == |weights| && forall i | 0 <= i < |weights| :: r[i] == weights[i] as real / total as real
    ensures forall i | 0 <= i < |weights| :: weights[i] > 0 ==> r[i] > 0.0
  {
    if weights == [] then []
    else
      Quotient(weights[|weights| - 1], total);
      Normalized(weights[..|weights| - 1], total) + [weights[|weights| - 1] as real / total as real]
  }

  lemma HeaviestOfWhole(weights: seq<nat>, total: nat, heaviest: nat)
    requires total > 0 && heaviest < |weights|
    requires forall j | 0 <= j < |weights| :: Normalized(weights, total)[j] <= Normalized(weights, total)[heaviest]
    ensures forall j | 0 <= j < |weights| :: weights[j] <= weights[heaviest]
  {
    forall j | 0 <= j < |weights| ensures weights[j] <= weights[heaviest] {
      assert Normalized(weights, total)[j] <= Normalized(weights, total)[heaviest];
      Cleared(1, weights[j], 1, weights[heaviest], total);
      assert Times(1, weights[j]) == weights[j];
    }
  }

  lemma Quotient(w: nat, total: nat)
    requires total > 0
    ensures w > 0 ==> w as real / total as real > 0.0
  {
  }

  /** Selection: the endpoint of the slot that the hash falls on. */
  function Select(table: seq<nat>, hash: nat): nat
    requires table != []
  {
    table[hash % |table|]
  }

  /** How many of the hashes below `n` select an endpoint. */
  ghost function Selected(table: seq<nat>, n: nat, item: nat): nat
    requires table != []
  {
    if n == 0 then 0 else Selected(table, n - 1, item) + (if Select(table, n - 1) == item then 1 else 0)
  }

  lemma {:induction false} SelectedSoFar(table: seq<nat>, q: nat, r: nat, item: nat)
    requires table != [] && r <= |table|
    ensures Selected(table, |table| * q + r, item) == Count(table, item) * q + Count(table[..r], item)
    decreases q, r
  {
    var n := |table|;
    if r > 0 {
      SelectedSoFar(table, q, r - 1, item);
      UniqueMod(n * q + (r - 1), n, q, r - 1);
      assert table[..r][..r - 1] == table[..r - 1];
    } else if q > 0 {
      SelectedSoFar(table, q - 1, n, item);
      MulSucc(n, q - 1);
      MulSucc(Count(table, item), q - 1);
      assert table[..n] == table;
    }
  }

  /** Evenly spread hashes select an endpoint as often as it has entries. */
  lemma SelectionFollowsEntries(table: seq<nat>, q: nat, item: nat)
    requires table != []
    ensures Selected(table, |table| * q, item) == Count(table, item) * q
  {
    SelectedSoFar(table, q, 0, item);
  }
}
