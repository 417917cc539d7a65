/**
  Counters split over shards (orion-metrics/src/sharded.rs): every thread adds to its own shard, and reading sums over
  the shards.

  An operation holds its shard's lock, so operations are atomic.  Counters are 64-bit and wrap around, and so does the
  sum of a read.
 */
module ShardedCounter {
  import opened Arithmetic
  import opened Wrappers

  type Shards<S(!new), K(!new)> = map<S, map<K, nat>>

  // ---------------------------------------------------------------- the plain sum

  ghost predicate Holds<S(!new), K(!new)>(data: Shards<S, K>, shard: S, key: K) {
    shard in data && key in data[shard]
  }

  function Value<S(!new), K(!new)>(data: Shards<S, K>, shard: S, key: K): nat {
    if shard in data && key in data[shard] then data[shard][key] else 0
  }

  ghost predicate Held<S(!new), K(!new)>(data: Shards<S, K>, shards: set<S>, key: K) {
    exists shard | shard in shards :: Holds(data, shard, key)
  }

  /** The sum of a key's counters over a set of shards. */
  ghost function SumOver<S(!new), K(!new)>(data: Shards<S, K>, shards: set<S>, key: K): nat {
    if shards == {} then 0
    else
      var shard :| shard in shards;
      Value(data, shard, key) + SumOver(data, shards - {shard}, key)
  }

  /** The sum does not depend on the order of the shards: any shard can be taken first. */
  lemma {:induction false} SumTakes<S(!new), K(!new)>(data: Shards<S, K>, shards: set<S>, key: K, shard: S)
    requires shard in shards
    ensures SumOver(data, shards, key) == Value(data, shard, key) + SumOver(data, shards - {shard}, key)
    decreases shards
  {
    var first :| first in shards &&
      SumOver(data, shards, key) == Value(data, first, key) + SumOver(data, shards - {first}, key);
    if first != shard {
      SumTakes(data, shards - {first}, key, shard);
      SumTakes(data, shards - {shard}, key, first);
      assert shards - {first} - {shard} == shards - {shard} - {first};
    }
  }

  /** Shards with the same counters have the same sum. */
  lemma {:induction false} SumSame<S(!new), K(!new)>(a: Shards<S, K>, b: Shards<S, K>, shards: set<S>, key: K)
    requires forall shard | shard in shards :: Value(a, shard, key) == Value(b, shard, key)
    ensures SumOver(a, shards, key) == SumOver(b, shards, key)
    decreases shards
  {
    if shards != {} {
      var shard :| shard in shards;
      SumTakes(a, shards, key, shard);
      SumTakes(b, shards, key, shard);
      SumSame(a, b, shards - {shard}, key);
    }
  }

  /** The total of a key. */
  ghost function Total<S(!new), K(!new)>(data: Shards<S, K>, key: K): nat {
    SumOver(data, data.Keys, key)
  }

  /** A total is the sum of the counters: nothing is added to that of a key that at most one shard holds. */
  lemma TotalOfOne<S(!new), K(!new)>(data: Shards<S, K>, shard: S, key: K)
    requires forall other | other in data.Keys && other != shard :: !Holds(data, other, key)
    ensures Total(data, key) == Value(data, shard, key)
  {
    if shard in data {
      SumTakes(data, data.Keys, key, shard);
    }
    SumOfNone(data, data.Keys - {shard}, key);
    assert shard !in data ==> data.Keys - {shard} == data.Keys;
  }

  lemma {:induction false} SumOfNone<S(!new), K(!new)>(data: Shards<S, K>, shards: set<S>, key: K)
    requires forall other | other in shards :: !Holds(data, other, key)
    ensures SumOver(data, shards, key) == 0
    decreases shards
  {
    if shards != {} {
      var shard :| shard in shards;
      SumTakes(data, shards, key, shard);
      SumOfNone(data, shards - {shard}, key);
    }
  }

  /** Changing one shard, or adding it, changes a total by the change of that shard's counter. */
  lemma TotalChange<S(!new), K(!new)>(data: Shards<S, K>, shard: S, counters: map<K, nat>, key: K)
    ensures Total(data[shard := counters], key) ==
            Total(data, key) - Value(data, shard, key) + (if key in counters then counters[key] else 0)
  {
    var data' := data[shard := counters];
    SumTakes(data', data'.Keys, key, shard);
    SumSame(data, data', data'.Keys - {shard}, key);
    if shard in data {
      SumTakes(data, data.Keys, key, shard);
      assert data'.Keys - {shard} == data.Keys - {shard};
    } else {
      assert data'.Keys - {shard} == data.Keys;
    }
  }

  // ---------------------------------------------------------------- the operations

  /** The counters of a shard, which is created empty when it is missing. */
  function Shard<S(!new), K(!new)>(data: Shards<S, K>, shard: S): map<K, nat> {
    if shard in data then data[shard] else map[]
  }

  function Added<S(!new), K(!new)>(data: Shards<S, K>, value: nat, shard: S, key: K): Shards<S, K> {
    data[shard := Shard(data, shard)[key := (Value(data, shard, key) + value) % U64]]
  }

  function Subtracted<S(!new), K(!new)>(data: Shards<S, K>, value: nat, shard: S, key: K): Shards<S, K> {
    if shard in data && key in data[shard] then
      data[shard := data[shard][key := if data[shard][key] < value then 0 else data[shard][key] - value]]
    else data
  }

  function Stored<S(!new), K(!new)>(data: Shards<S, K>, value: nat, shard: S, key: K): Shards<S, K> {
    data[shard := Shard(data, shard)[key := value]]
  }

  function Removed<S(!new), K(!new)>(data: Shards<S, K>, shard: S, key: K): Shards<S, K> {
    data[shard := Shard(data, shard) - {key}]
  }

  // ---------------------------------------------------------------- counter by counter

  /** An add creates its counter when it is missing, adds to it modulo 2^64, and leaves all others alone. */
  lemma AddAt<S(!new), K(!new)>(data: Shards<S, K>, value: nat, shard: S, key: K, s: S, k: K)
    ensures Holds(Added(data, value, shard, key), s, k) <==> Holds(data, s, k) || (s == shard && k == key)
    ensures Value(Added(data, value, shard, key), s, k) ==
            if s == shard && k == key then (Value(data, s, k) + value) % 0x1_0000_0000_0000_0000 else Value(data, s, k)
  {
  }

  /** A sub creates nothing, lowers its counter to zero at most, and leaves all others alone. */
  lemma SubAt<S(!new), K(!new)>(data: Shards<S, K>, value: nat, shard: S, key: K, s: S, k: K)
    ensures Holds(Subtracted(data, value, shard, key), s, k) <==> Holds(data, s, k)
    ensures Value(Subtracted(data, value, shard, key), s, k) ==
            if s == shard && k == key then (if Value(data, s, k) < value then 0 else Value(data, s, k) - value)
            else Value(data, s, k)
  {
  }

  /** A store sets its counter, which need not be there, and leaves all others alone. */
  lemma StoreAt<S(!new), K(!new)>(data: Shards<S, K>, value: nat, shard: S, key: K, s: S, k: K)
    ensures Holds(Stored(data, value, shard, key), s, k) <==> Holds(data, s, k) || (s == shard && k == key)
    ensures Value(Stored(data, value, shard, key), s, k) ==
            if s == shard && k == key then value else Value(data, s, k)
  {
  }

  /** A removed counter is not held any more, so that a key that no other shard holds has no value; all others stay. */
  lemma RemoveAt<S(!new), K(!new)>(data: Shards<S, K>, shard: S, key: K, s: S, k: K)
    ensures Holds(Removed(data, shard, key), s, k) <==> Holds(data, s, k) && !(s == shard && k == key)
    ensures !(s == shard && k == key) ==> Value(Removed(data, shard, key), s, k) == Value(data, s, k)
    ensures Held(Removed(data, shard, key), Removed(data, shard, key).Keys, key) <==>
              exists other | other in data.Keys - {shard} :: Holds(data, other, key)
  {
    var data' := Removed(data, shard, key);
    if other :| other in data.Keys - {shard} && Holds(data, other, key) {
      assert other in data'.Keys && Holds(data', other, key);
    }
    if other :| other in data'.Keys && Holds(data', other, key) {
      assert other in data.Keys - {shard} && Holds(data, other, key);
    }
  }

  function Min(a: nat, b: nat): nat {
    if a < b then a else b
  }

  /** An add raises its key's total by its value if that counter does not wrap, and no other total. */
  lemma AddTotals<S(!new), K(!new)>(data: Shards<S, K>, value: nat, shard: S, key: K, other: K)
    requires Value(data, shard, key) + value < U64
    ensures Total(Added(data, value, shard, key), other) == Total(data, other) + if other == key then value else 0
  {
    TotalChange(data, shard, Shard(data, shard)[key := Value(data, shard, key) + value], other);
  }

  /** A sub lowers its key's total by its value, or by that shard's counter if the counter is smaller. */
  lemma SubTotals<S(!new), K(!new)>(data: Shards<S, K>, value: nat, shard: S, key: K, other: K)
    ensures Total(Subtracted(data, value, shard, key), other) ==
            Total(data, other) - if other == key then Min(value, Value(data, shard, key)) else 0
  {
    if shard in data && key in data[shard] {
      var rest := if data[shard][key] < value then 0 else data[shard][key] - value;
      TotalChange(data, shard, data[shard][key := rest], other);
    }
  }

  lemma StoreTotals<S(!new), K(!new)>(data: Shards<S, K>, value: nat, shard: S, key: K, other: K)
    ensures Total(Stored(data, value, shard, key), other) ==
            Total(data, other) + if other == key then value - Value(data, shard, key) else 0
  {
    TotalChange(data, shard, Shard(data, shard)[key := value], other);
  }

  /** A remove takes that shard's counter out of its key's total. */
  lemma RemoveTotals<S(!new), K(!new)>(data: Shards<S, K>, shard: S, key: K, other: K)
    ensures Total(Removed(data, shard, key), other) ==
            Total(data, other) - if other == key then Value(data, shard, key) else 0
  {
    TotalChange(data, shard, Shard(data, shard) - {key}, other);
  }

  // ---------------------------------------------------------------- runs of adds and subs

  datatype Update<S, K> = Add(value: nat, shard: S, key: K) | Sub(value: nat, shard: S, key: K)

  ghost function Apply<S(!new), K(!new)>(data: Shards<S, K>, u: Update<S, K>): Shards<S, K> {
    if u.Add? then Added(data, u.value, u.shard, u.key) else Subtracted(data, u.value, u.shard, u.key)
  }

  ghost function Run<S(!new), K(!new)>(data: Shards<S, K>, updates: seq<Update<S, K>>): Shards<S, K> {
    if updates == [] then data else Apply(Run(data, updates[..|updates| - 1]), updates[|updates| - 1])
  }

  /** No counter of the run wraps around. */
  ghost predicate Fits<S(!new), K(!new)>(data: Shards<S, K>, updates: seq<Update<S, K>>) {
    updates == [] ||
    (var n := |updates| - 1;
     && Fits(data, updates[..n])
     && (updates[n].Add? ==> Value(Run(data, updates[..n]), updates[n].shard, updates[n].key) + updates[n].value < U64))
  }

  /** The same updates on one plain counter. */
  ghost function Plain<S(!new), K(!new)>(updates: seq<Update<S, K>>, key: K): int {
    if updates == [] then 0
    else
      var u := updates[|updates| - 1];
      var rest := Plain(updates[..|updates| - 1], key);
      if u.key != key then rest else if u.Add? then rest + u.value else rest - u.value
  }

  /** The part of a sub that its own shard's counter does not cover. */
  ghost function Uncovered<S(!new), K(!new)>(data: Shards<S, K>, u: Update<S, K>, key: K): nat {
    if u.Sub? && u.key == key then u.value - Min(u.value, Value(data, u.shard, key)) else 0
  }

  ghost function Excess<S(!new), K(!new)>(data: Shards<S, K>, updates: seq<Update<S, K>>, key: K): nat {
    if updates == [] then 0
    else
      var n := |updates| - 1;
      Excess(data, updates[..n], key) + Uncovered(Run(data, updates[..n]), updates[n], key)
  }

  /** However updates are spread over shards, a total is that of one plain counter plus what the subs asked of shards
      that did not hold as much. */
  lemma {:induction false} TotalOfRun<S(!new), K(!new)>(data: Shards<S, K>, updates: seq<Update<S, K>>, key: K)
    requires Fits(data, updates)
    ensures Total(Run(data, updates), key) == Total(data, key) + Plain(updates, key) + Excess(data, updates, key)
  {
    if updates != [] {
      var n := |updates| - 1;
      var before, u := Run(data, updates[..n]), updates[n];
      TotalOfRun(data, updates[..n], key);
      if u.Add? {
        AddTotals(before, u.value, u.shard, u.key, key);
      } else {
        SubTotals(before, u.value, u.shard, u.key, key);
      }
    }
  }

  // ---------------------------------------------------------------- the counter

  class ShardedU64<S(!new,==), K(!new,==)> {
    var data: Shards<S, K>

    constructor ()
      ensures data == map[]
    {
      data := map[];
    }

    method Add(value: nat, shard: S, key: K)
      modifies this
      ensures data == Added(old(data), value, shard, key)
    {
      var counters := Shard(data, shard);
      if key in counters {
        counters := counters[key := (counters[key] + value) % U64];
      } else {
        counters := counters[key := value % U64];
      }
      data := data[shard := counters];
    }

    method Sub(value: nat, shard: S, key: K)
      modifies this
      ensures data == Subtracted(old(data), value, shard, key)
    {
      if shard in data && key in data[shard] {
        var current := data[shard][key];
        data := data[shard := data[shard][key := if current < value then 0 else current - value]];
      }
    }

    method Store(value: nat, shard: S, key: K)
      modifies this
      ensures data == Stored(old(data), value, shard, key)
    {
      data := data[shard := Shard(data, shard)[key := value]];
    }

    method Remove(shard: S, key: K) returns (r: Option<nat>)
      modifies this
      ensures data == Removed(old(data), shard, key)
      ensures r == if Holds(old(data), shard, key) then Some(old(data)[shard][key]) else None
    {
      var counters := Shard(data, shard);
      r := if key in counters then Some(counters[key]) else None;
      data := data[shard := counters - {key}];
    }

    /** Reading sums the key's counters over the shards, in whatever order. */
    method Load(key: K) returns (r: Option<nat>)
      ensures r.Some? <==> Held(data, data.Keys, key)
      ensures r.Some? ==> r.value == Total(data, key) % U64
      ensures r.Some? && Total(data, key) < U64 ==> r.value == Total(data, key)
    {
      var left := data.Keys;
      r := None;
      while left != {}
        invariant left <= data.Keys
        invariant r.Some? <==> Held(data, data.Keys - left, key)
        invariant SumOver(data, data.Keys - left, key) % U64 == if r.Some? then r.value else 0
      {
        var shard :| shard in left;
        ghost var seen := data.Keys - left + {shard};
        assert data.Keys - (left - {shard}) == seen && seen - {shard} == data.Keys - left;
        SumTakes(data, seen, key, shard);
        HeldGrows(data, data.Keys - left, shard, key);
        if key in data[shard] {
          var value := data[shard][key];
          AddWraps(SumOver(data, data.Keys - left, key), value);
          r := Some(((if r.Some? then r.value else 0) + value) % U64);
        }
        left := left - {shard};
      }
      assert data.Keys - left == data.Keys;
    }

    /** Reading everything gives each key that some shard holds its total. */
    method LoadAll() returns (result: map<K, nat>)
      ensures forall k: K :: k in result <==> Held(data, data.Keys, k)
      ensures forall k | k in result :: result[k] == Total(data, k) % U64
    {
      var left := data.Keys;
      result := map[];
      while left != {}
        invariant left <= data.Keys
        invariant Collected(data, data.Keys - left, result)
      {
        var shard :| shard in left;
        ghost var before := result;
        result := Accumulate(result, data[shard]);
        CollectedGrows(data, data.Keys - left, shard, before, result);
        assert data.Keys - (left - {shard}) == data.Keys - left + {shard};
        left := left - {shard};
      }
      assert data.Keys - left == data.Keys;
    }

    /** Adds one shard's counters to the result. */
    method Accumulate(given: map<K, nat>, counters: map<K, nat>) returns (result: map<K, nat>)
      ensures result == Accumulated(given, counters, counters.Keys)
    {
      var left := counters.Keys;
      result := given;
      while left != {}
        invariant left <= counters.Keys
        invariant result == Accumulated(given, counters, counters.Keys - left)
      {
        var key :| key in left;
        result := result[key := ((if key in result then result[key] else 0) + counters[key]) % U64];
        left := left - {key};
      }
      assert counters.Keys - left == counters.Keys;
    }
  }

  ghost function Accumulated<K(!new)>(given: map<K, nat>, counters: map<K, nat>, keys: set<K>): map<K, nat>
    requires keys <= counters.Keys
  {
    map k | k in given.Keys + keys ::
      if k in keys then ((if k in given then given[k] else 0) + counters[k]) % U64 else given[k]
  }

  /** The result so far holds the keys of the shards seen, with their sums. */
  ghost predicate Collected<S(!new), K(!new)>(data: Shards<S, K>, shards: set<S>, result: map<K, nat>) {
    && (forall k: K :: k in result <==> Held(data, shards, k))
    && (forall k: K :: SumOver(data, shards, k) % U64 == if k in result then result[k] else 0)
  }

  lemma CollectedGrows<S(!new), K(!new)>(data: Shards<S, K>, shards: set<S>, shard: S,
                                         before: map<K, nat>, after: map<K, nat>)
    requires shard in data && shard !in shards && Collected(data, shards, before)
    requires after == Accumulated(before, data[shard], data[shard].Keys)
    ensures Collected(data, shards + {shard}, after)
  {
    forall k: K
      ensures k in after <==> Held(data, shards + {shard}, k)
      ensures SumOver(data, shards + {shard}, k) % U64 == if k in after then after[k] else 0
    {
      HeldGrows(data, shards, shard, k);
      SumTakes(data, shards + {shard}, k, shard);
      assert shards + {shard} - {shard} == shards;
      AddWraps(SumOver(data, shards, k), Value(data, shard, k));
    }
  }

  lemma HeldGrows<S(!new), K(!new)>(data: Shards<S, K>, shards: set<S>, shard: S, key: K)
    ensures Held(data, shards + {shard}, key) <==> Held(data, shards, key) || Holds(data, shard, key)
  {
  }

  lemma AddWraps(a: nat, b: nat)
    ensures (a % U64 + b) % U64 == (a + b) % U64
  {
  }
}
