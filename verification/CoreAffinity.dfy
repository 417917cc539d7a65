/**
  Binding runtimes to CPU cores (orion-proxy/src/core_affinity.rs): grouping the available cores by NUMA node, and
  handing out chunks of cores to the runtimes in turn.

  The lines of /proc/cpuinfo are given as the two lists of numbers that they are parsed to.  Products do not overflow.
 */
module CoreAffinity {
  import opened Arithmetic
  import opened Wrappers

  type Core = nat

  datatype AffinityError = NotAvailable | EmptyAffinity | NotEnough(wanted: nat, available: nat)

  // ---------------------------------------------------------------- choosing the cores of one runtime

  ghost predicate Listed(nodes: seq<seq<Core>>, core: Core) {
    exists a :: 0 <= a < |nodes| && core in nodes[a]
  }

  function AllCores(nodes: seq<seq<Core>>): (r: set<Core>)
    ensures forall c: Core :: c in r <==> Listed(nodes, c)
  {
    if nodes == [] then {}
    else
      assert forall c: Core :: Listed(nodes, c) <==> Listed(nodes[..|nodes| - 1], c) || c in nodes[|nodes| - 1] by {
        ListedSnoc(nodes);
      }
      AllCores(nodes[..|nodes| - 1]) + Elements(nodes[|nodes| - 1])
  }

  lemma ListedSnoc(nodes: seq<seq<Core>>)
    requires nodes != []
    ensures forall c: Core :: Listed(nodes, c) <==> Listed(nodes[..|nodes| - 1], c) || c in nodes[|nodes| - 1]
  {
    var init := nodes[..|nodes| - 1];
    forall c: Core | Listed(nodes, c) ensures Listed(init, c) || c in nodes[|nodes| - 1] {
      var a :| 0 <= a < |nodes| && c in nodes[a];
      if a < |init| {
        assert c in init[a];
      }
    }
    forall c: Core | Listed(init, c) ensures Listed(nodes, c) {
      var a :| 0 <= a < |init| && c in init[a];
      assert c in nodes[a];
    }
  }

  function Skip(s: seq<Core>, k: nat): seq<Core> {
    if k <= |s| then s[k..] else []
  }

  function Take(s: seq<Core>, k: nat): seq<Core> {
    if k <= |s| then s[..k] else s
  }

  /** Chunk number `turn` of a node, or what is left of it. */
  function ChunkOf(node: seq<Core>, turn: nat, wanted: nat): seq<Core> {
    Take(Skip(node, turn * wanted), wanted)
  }

  function NodeOf(aff: seq<seq<Core>>, id: nat): seq<Core>
    requires aff != []
  {
    aff[id % |aff|]
  }

  function TurnOf(aff: seq<seq<Core>>, id: nat): nat
    requires aff != []
  {
    id / |aff|
  }

  /** The cores of a runtime: round-robin over the nodes, then the next chunk of that node. */
  function RunStrategy(id: nat, wanted: nat, affinity: Option<seq<seq<Core>>>, avail: seq<seq<Core>>):
      Result<seq<Core>, AffinityError>
  {
    var aff := Affinity(affinity, avail);
    if !(AllCores(aff) <= AllCores(avail)) then Err(NotAvailable)
    else if aff == [] then Err(EmptyAffinity)
    else Enough(ChunkOf(NodeOf(aff, id), TurnOf(aff, id), wanted), wanted)
  }

  function Enough(cores: seq<Core>, wanted: nat): Result<seq<Core>, AffinityError> {
    if |cores| == wanted then Ok(cores) else Err(NotEnough(wanted, |cores|))
  }

  function Affinity(affinity: Option<seq<seq<Core>>>, avail: seq<seq<Core>>): seq<seq<Core>> {
    if affinity.Some? then affinity.value else avail
  }

  ghost predicate Available(aff: seq<seq<Core>>, avail: seq<seq<Core>>) {
    forall c: Core | Listed(aff, c) :: Listed(avail, c)
  }

  /** The node is long enough for all chunks up to number `turn`. */
  ghost predicate Fits(node: seq<Core>, turn: nat, wanted: nat) {
    (turn + 1) * wanted <= |node|
  }

  lemma ChunkFits(node: seq<Core>, turn: nat, wanted: nat)
    ensures |ChunkOf(node, turn, wanted)| == wanted <==> Fits(node, turn, wanted)
    ensures Fits(node, turn, wanted) ==> StretchOf(node, wanted * turn, ChunkOf(node, turn, wanted))
  {
    MulSucc(wanted, turn);
    assert turn * wanted == wanted * turn && (turn + 1) * wanted == wanted * (turn + 1);
  }

  /** The list is the stretch of the node from `start` on. */
  ghost predicate StretchOf(node: seq<Core>, start: int, cores: seq<Core>) {
    forall i | 0 <= i < |cores| :: 0 <= start + i < |node| && cores[i] == node[start + i]
  }

  lemma AvailableIff(aff: seq<seq<Core>>, avail: seq<seq<Core>>)
    ensures AllCores(aff) <= AllCores(avail) <==> Available(aff, avail)
  {
  }

  ghost predicate SomeMissing(nodes: seq<seq<Core>>, avail: seq<seq<Core>>) {
    exists a, c :: 0 <= a < |nodes| && c in nodes[a] && forall b | 0 <= b < |avail| :: c !in avail[b]
  }

  ghost predicate IsChunk(r: Result<seq<Core>, AffinityError>, node: seq<Core>, start: nat, wanted: nat) {
    if start + wanted <= |node| then r == Ok(node[start..start + wanted])
    else r == Err(NotEnough(wanted, if start <= |node| then |node| - start else 0))
  }

  /** What a runtime gets from `nodes`: its own chunk of its node, exactly when every listed core is available, there is
      a node, and the node is long enough for all the chunks up to its own; else the error of the first that fails. */
  ghost predicate GetsChunk(r: Result<seq<Core>, AffinityError>, id: nat, wanted: nat, nodes: seq<seq<Core>>,
                            avail: seq<seq<Core>>)
  {
    if SomeMissing(nodes, avail) then r == Err(NotAvailable)
    else if |nodes| == 0 then r == Err(EmptyAffinity)
    else IsChunk(r, nodes[id % |nodes|], wanted * (id / |nodes|), wanted)
  }

  /** A runtime takes its chunk from the configured nodes, or from the available ones if none are configured. */
  lemma SuccessIff(id: nat, wanted: nat, affinity: Option<seq<seq<Core>>>, avail: seq<seq<Core>>)
    ensures affinity.Some? ==> GetsChunk(RunStrategy(id, wanted, affinity, avail), id, wanted, affinity.value, avail)
    ensures affinity.None? ==> GetsChunk(RunStrategy(id, wanted, affinity, avail), id, wanted, avail, avail)
  {
    StrategyOn(id, wanted, affinity, avail, if affinity.Some? then affinity.value else avail);
  }

  lemma StrategyOn(id: nat, wanted: nat, affinity: Option<seq<seq<Core>>>, avail: seq<seq<Core>>,
                   nodes: seq<seq<Core>>)
    requires Affinity(affinity, avail) == nodes
    ensures GetsChunk(RunStrategy(id, wanted, affinity, avail), id, wanted, nodes, avail)
  {
    MissingIff(nodes, avail);
    if |nodes| > 0 {
      ChunkIs(NodeOf(nodes, id), TurnOf(nodes, id), wanted);
    }
  }

  lemma MissingIff(nodes: seq<seq<Core>>, avail: seq<seq<Core>>)
    ensures SomeMissing(nodes, avail) <==> !(AllCores(nodes) <= AllCores(avail))
  {
    if AllCores(nodes) <= AllCores(avail) {
      forall a, c | 0 <= a < |nodes| && c in nodes[a] ensures exists b :: 0 <= b < |avail| && c in avail[b] {
        assert Listed(nodes, c);
        assert c in AllCores(avail);
      }
    } else {
      var c :| c in AllCores(nodes) && c !in AllCores(avail);
      assert Listed(nodes, c) && !Listed(avail, c);
    }
  }

  lemma ChunkIs(node: seq<Core>, turn: nat, wanted: nat)
    ensures IsChunk(Enough(ChunkOf(node, turn, wanted), wanted), node, wanted * turn, wanted)
  {
    assert turn * wanted == wanted * turn;
    assert wanted == 0 ==> wanted * turn == 0;
    StretchIs(node, wanted * turn, wanted);
  }

  lemma StretchIs(node: seq<Core>, start: nat, wanted: nat)
    requires wanted == 0 ==> start == 0
    ensures IsChunk(Enough(Take(Skip(node, start), wanted), wanted), node, start, wanted)
  {
    if start + wanted <= |node| {
      assert node[start..][..wanted] == node[start..start + wanted];
    }
  }

  /** The same in terms of the nodes in use. */
  lemma ChunkGiven(id: nat, wanted: nat, affinity: Option<seq<seq<Core>>>, avail: seq<seq<Core>>)
    ensures var aff := Affinity(affinity, avail);
            var r := RunStrategy(id, wanted, affinity, avail);
            && (r.Ok? <==> aff != [] && Available(aff, avail) && Fits(NodeOf(aff, id), TurnOf(aff, id), wanted))
            && (r.Ok? ==> |r.value| == wanted && StretchOf(NodeOf(aff, id), wanted * TurnOf(aff, id), r.value))
  {
    var aff := Affinity(affinity, avail);
    AvailableIff(aff, avail);
    if aff != [] {
      ChunkFits(NodeOf(aff, id), TurnOf(aff, id), wanted);
    }
  }

  // ---------------------------------------------------------------- different runtimes, different cores

  /** No core is listed twice. */
  ghost predicate NoDuplicates(nodes: seq<seq<Core>>) {
    forall a, i, b, j | 0 <= a < |nodes| && 0 <= i < |nodes[a]| && 0 <= b < |nodes| && 0 <= j < |nodes[b]| ::
      nodes[a][i] == nodes[b][j] ==> a == b && i == j
  }

  lemma StretchesMeet(aff: seq<seq<Core>>, a: int, start: int, cores: seq<Core>, i: nat,
                      b: int, start': int, cores': seq<Core>, j: nat)
    requires NoDuplicates(aff) && 0 <= a < |aff| && 0 <= b < |aff|
    requires StretchOf(aff[a], start, cores) && StretchOf(aff[b], start', cores')
    requires i < |cores| && j < |cores'| && cores[i] == cores'[j]
    ensures a == b && start + i == start' + j
  {
    assert aff[a][start + i] == aff[b][start' + j];
  }

  lemma SameRuntime(n: nat, wanted: nat, id: nat, i: nat, id': nat, j: nat)
    requires n > 0 && i < wanted && j < wanted
    requires id % n == id' % n && wanted * (id / n) + i == wanted * (id' / n) + j
    ensures id == id' && i == j
  {
    SameQuotient(wanted, id / n, i, id' / n, j);
    DivMod(id, n);
    DivMod(id', n);
  }

  /** Cores of two runtimes coincide only if the runtimes and the positions do. */
  lemma CoresDiffer(aff: seq<seq<Core>>, wanted: nat, id: nat, cores: seq<Core>, i: nat,
                    id': nat, cores': seq<Core>, j: nat)
    requires NoDuplicates(aff) && aff != [] && |cores| == |cores'| == wanted && i < wanted && j < wanted
    requires StretchOf(NodeOf(aff, id), wanted * TurnOf(aff, id), cores)
    requires StretchOf(NodeOf(aff, id'), wanted * TurnOf(aff, id'), cores')
    requires cores[i] == cores'[j]
    ensures id == id' && i == j
  {
    var n := |aff|;
    StretchesMeet(aff, id % n, wanted * TurnOf(aff, id), cores, i, id' % n, wanted * TurnOf(aff, id'), cores', j);
    SameRuntime(n, wanted, id, i, id', j);
  }

  /** Two runtimes that both get their cores share none. */
  lemma RuntimesAreDisjoint(id: nat, id': nat, wanted: nat, affinity: Option<seq<seq<Core>>>, avail: seq<seq<Core>>)
    requires NoDuplicates(Affinity(affinity, avail)) && id != id'
    requires RunStrategy(id, wanted, affinity, avail).Ok? && RunStrategy(id', wanted, affinity, avail).Ok?
    ensures Elements(RunStrategy(id, wanted, affinity, avail).value) !!
            Elements(RunStrategy(id', wanted, affinity, avail).value)
  {
    ChunkGiven(id, wanted, affinity, avail);
    ChunkGiven(id', wanted, affinity, avail);
    var cores := RunStrategy(id, wanted, affinity, avail).value;
    var cores' := RunStrategy(id', wanted, affinity, avail).value;
    forall c | c in cores && c in cores' ensures false {
      var i :| 0 <= i < |cores| && cores[i] == c;
      var j :| 0 <= j < |cores'| && cores'[j] == c;
      CoresDiffer(Affinity(affinity, avail), wanted, id, cores, i, id', cores', j);
    }
  }

  // ---------------------------------------------------------------- all runtimes together

  ghost predicate AllSucceed(count: nat, wanted: nat, affinity: Option<seq<seq<Core>>>, avail: seq<seq<Core>>) {
    forall id | 0 <= id < count :: RunStrategy(id, wanted, affinity, avail).Ok?
  }

  /** The lists of runtimes 0 to count - 1. */
  ghost function Given(count: nat, wanted: nat, affinity: Option<seq<seq<Core>>>, avail: seq<seq<Core>>)
    : (r: seq<seq<Core>>)
    requires AllSucceed(count, wanted, affinity, avail)
    ensures |r| == count && forall id | 0 <= id < count :: r[id] == RunStrategy(id, wanted, affinity, avail).value
  {
    seq(count, id requires 0 <= id < count => RunStrategy(id, wanted, affinity, avail).value)
  }

  ghost predicate Apart(lists: seq<seq<Core>>) {
    forall a, b | 0 <= a < b < |lists| :: Elements(lists[a]) !! Elements(lists[b])
  }

  lemma LastApart(lists: seq<seq<Core>>)
    requires lists != [] && Apart(lists)
    ensures AllCores(lists[..|lists| - 1]) !! Elements(lists[|lists| - 1])
  {
    var n := |lists| - 1;
    forall c | c in AllCores(lists[..n]) ensures c !in lists[n] {
      var a :| 0 <= a < n && c in lists[..n][a];
      assert Elements(lists[a]) !! Elements(lists[n]);
    }
  }

  lemma {:induction false} UnionSize(lists: seq<seq<Core>>, size: nat)
    requires Apart(lists) && forall a | 0 <= a < |lists| :: |Elements(lists[a])| == size
    ensures |AllCores(lists)| == size * |lists|
  {
    if lists != [] {
      var n := |lists| - 1;
      UnionSize(lists[..n], size);
      MulSucc(size, n);
      LastApart(lists);
      DisjointSizes(AllCores(lists[..n]), Elements(lists[n]));
    }
  }

  lemma DistinctCores(id: nat, wanted: nat, affinity: Option<seq<seq<Core>>>, avail: seq<seq<Core>>)
    requires NoDuplicates(Affinity(affinity, avail)) && RunStrategy(id, wanted, affinity, avail).Ok?
    ensures |Elements(RunStrategy(id, wanted, affinity, avail).value)| == wanted
  {
    ChunkGiven(id, wanted, affinity, avail);
    var cores := RunStrategy(id, wanted, affinity, avail).value;
    forall i, j | 0 <= i < j < |cores| ensures cores[i] != cores[j] {
      if cores[i] == cores[j] {
        CoresDiffer(Affinity(affinity, avail), wanted, id, cores, i, id, cores, j);
      }
    }
    DistinctSize(cores);
  }

  /** Together the runtimes use `wanted` cores each, all of them different. */
  lemma UsedSize(count: nat, wanted: nat, affinity: Option<seq<seq<Core>>>, avail: seq<seq<Core>>)
    requires NoDuplicates(Affinity(affinity, avail)) && AllSucceed(count, wanted, affinity, avail)
    ensures |AllCores(Given(count, wanted, affinity, avail))| == wanted * count
  {
    var lists := Given(count, wanted, affinity, avail);
    forall a | 0 <= a < count ensures |Elements(lists[a])| == wanted {
      DistinctCores(a, wanted, affinity, avail);
    }
    forall a, b | 0 <= a < b < count ensures Elements(lists[a]) !! Elements(lists[b]) {
      RuntimesAreDisjoint(a, b, wanted, affinity, avail);
    }
    UnionSize(lists, wanted);
  }

  lemma DisjointSizes(a: set<Core>, b: set<Core>)
    requires a !! b
    ensures |a + b| == |a| + |b|
  {
  }

  datatype ThreadsError = TooManyCpus | TooManyRuntimes | NotAMultiple

  /** The number of threads, and so of cores, of each runtime. */
  function ThreadsPerRuntime(numCpus: nat, numRuntimes: nat, availCpus: nat): (r: Result<nat, ThreadsError>)
    requires numRuntimes > 0
    ensures r.Ok? <==> 0 < numCpus <= availCpus && exists t: nat :: numCpus == numRuntimes * t
    ensures r.Ok? ==> r.value > 0 && numCpus == numRuntimes * r.value
    ensures r == Err(TooManyCpus) <==> numCpus > availCpus
    ensures r == Err(TooManyRuntimes) <==> numCpus <= availCpus && numCpus < numRuntimes
  {
    if numCpus > availCpus then Err(TooManyCpus)
    else
      DivMod(numCpus, numRuntimes);
      var threads := numCpus / numRuntimes;
      if threads == 0 then
        assert forall t: nat | numCpus == numRuntimes * t :: numCpus == 0 by {
          forall t: nat | numCpus == numRuntimes * t ensures numCpus == 0 {
            if t > 0 { MulMono(numRuntimes, 1, t); }
          }
        }
        Err(TooManyRuntimes)
      else if numCpus % numRuntimes != 0 then
        assert forall t: nat :: numCpus != numRuntimes * t by {
          forall t: nat ensures numCpus != numRuntimes * t { MultipleMod(numRuntimes, t); }
        }
        Err(NotAMultiple)
      else Ok(threads)
  }

  /** When all runtimes get their cores, together they use exactly the configured number of CPUs. */
  lemma ExactlyAllCpus(numCpus: nat, numRuntimes: nat, availCpus: nat, threads: nat,
                       affinity: Option<seq<seq<Core>>>, avail: seq<seq<Core>>)
    requires numRuntimes > 0 && ThreadsPerRuntime(numCpus, numRuntimes, availCpus) == Ok(threads)
    requires NoDuplicates(Affinity(affinity, avail)) && AllSucceed(numRuntimes, threads, affinity, avail)
    ensures |AllCores(Given(numRuntimes, threads, affinity, avail))| == numCpus
  {
    UsedSize(numRuntimes, threads, affinity, avail);
  }

  // ---------------------------------------------------------------- when all runtimes succeed

  /** The number of the last chunk that runtimes 0 to count - 1 take from node `a`. */
  function LastTurn(n: nat, count: nat, a: nat): nat
    requires a < n && a < count
  {
    (count - 1 - a) / n
  }

  lemma TurnsBelow(n: nat, count: nat, id: nat)
    requires n > 0 && id < count
    ensures id % n < count && id / n <= LastTurn(n, count, id % n)
  {
    DivMod(id, n);
    var a, q := id % n, id / n;
    DivMod(count - 1 - a, n);
    if q > LastTurn(n, count, a) {
      MulMono(n, LastTurn(n, count, a) + 1, q);
      MulSucc(n, LastTurn(n, count, a));
    }
  }

  lemma LastTurnTaken(n: nat, count: nat, a: nat) returns (id: nat)
    requires a < n && a < count
    ensures id < count && id % n == a && id / n == LastTurn(n, count, a)
  {
    DivMod(count - 1 - a, n);
    id := n * LastTurn(n, count, a) + a;
    UniqueMod(id, n, LastTurn(n, count, a), a);
  }

  lemma FitsEarlier(node: seq<Core>, turn: nat, last: nat, wanted: nat)
    requires turn <= last && Fits(node, last, wanted)
    ensures Fits(node, turn, wanted)
  {
    MulMono(wanted, turn + 1, last + 1);
  }

  /** All runtimes get their cores exactly when every node is long enough for the last chunk taken from it. */
  lemma AllSucceedIff(count: nat, wanted: nat, affinity: Option<seq<seq<Core>>>, avail: seq<seq<Core>>)
    requires count > 0
    ensures var aff := Affinity(affinity, avail);
            AllSucceed(count, wanted, affinity, avail) <==>
              && aff != []
              && Available(aff, avail)
              && forall a | 0 <= a < |aff| && a < count :: Fits(aff[a], LastTurn(|aff|, count, a), wanted)
  {
    var aff := Affinity(affinity, avail);
    if AllSucceed(count, wanted, affinity, avail) {
      assert RunStrategy(0, wanted, affinity, avail).Ok?;
      ChunkGiven(0, wanted, affinity, avail);
      forall a | 0 <= a < |aff| && a < count ensures Fits(aff[a], LastTurn(|aff|, count, a), wanted) {
        var id := LastTurnTaken(|aff|, count, a);
        ChunkGiven(id, wanted, affinity, avail);
      }
    }
    if aff != [] && Available(aff, avail)
       && forall a | 0 <= a < |aff| && a < count :: Fits(aff[a], LastTurn(|aff|, count, a), wanted) {
      forall id | 0 <= id < count ensures RunStrategy(id, wanted, affinity, avail).Ok? {
        TurnsBelow(|aff|, count, id);
        FitsEarlier(NodeOf(aff, id), TurnOf(aff, id), LastTurn(|aff|, count, id % |aff|), wanted);
        ChunkGiven(id, wanted, affinity, avail);
      }
    }
  }

  // ---------------------------------------------------------------- grouping by NUMA node

  datatype CpuinfoError = ParserError | NoMapping(core: Core)

  /** Pairs the processors with the physical ids; a later pair replaces an earlier one of the same processor. */
  function Zip(processors: seq<nat>, ids: seq<nat>): map<nat, nat> {
    var n := if |processors| <= |ids| then |processors| else |ids|;
    ZipUpTo(processors, ids, n)
  }

  function ZipUpTo(processors: seq<nat>, ids: seq<nat>, n: nat): map<nat, nat>
    requires n <= |processors| && n <= |ids|
  {
    if n == 0 then map[] else ZipUpTo(processors, ids, n - 1)[processors[n - 1] := ids[n - 1]]
  }

  lemma {:induction false} Mapped(processors: seq<nat>, ids: seq<nat>, n: nat, p: nat)
    requires n <= |processors| && n <= |ids|
    ensures p in ZipUpTo(processors, ids, n) <==> p in processors[..n]
  {
    if n > 0 {
      Mapped(processors, ids, n - 1, p);
      assert processors[..n] == processors[..n - 1] + [processors[n - 1]];
    }
  }

  /** The physical id of a processor is that in its last line. */
  lemma {:induction false} PhysicalId(processors: seq<nat>, ids: seq<nat>, n: nat, k: nat)
    requires k < n <= |processors| && n <= |ids| && forall m | k < m < n :: processors[m] != processors[k]
    ensures processors[k] in ZipUpTo(processors, ids, n) && ZipUpTo(processors, ids, n)[processors[k]] == ids[k]
  {
    if k < n - 1 {
      PhysicalId(processors, ids, n - 1, k);
    }
  }

  /** The cores of one node, in their input order. */
  function OfNode(cores: seq<Core>, node: map<nat, nat>, key: nat): seq<Core> {
    if cores == [] then []
    else
      var n := |cores| - 1;
      var rest := OfNode(cores[..n], node, key);
      if cores[n] in node && node[cores[n]] == key then rest + [cores[n]] else rest
  }

  /** `groups` are the cores of the nodes `keys`, which are in increasing order and are all the nodes of the cores. */
  ghost predicate Grouped(cores: seq<Core>, node: map<nat, nat>, keys: seq<nat>, groups: seq<seq<Core>>) {
    && |groups| == |keys|
    && Increasing(keys)
    && (forall i | 0 <= i < |keys| :: groups[i] == OfNode(cores, node, keys[i]) != [])
    && (forall i | 0 <= i < |cores| :: cores[i] in node && node[cores[i]] in keys)
  }

  lemma {:induction false} MinExists(s: set<nat>) returns (m: nat)
    requires s != {}
    ensures m in s && forall x | x in s :: m <= x
  {
    var x :| x in s;
    var rest := s - {x};
    assert forall y | y in s :: y == x || y in rest;
    m := x;
    if rest != {} {
      var k := MinExists(rest);
      if k < x {
        m := k;
      }
    }
  }

  ghost predicate ValuesOf(groups: map<nat, seq<Core>>, keys: seq<nat>, values: seq<seq<Core>>) {
    |values| == |keys| && forall i | 0 <= i < |keys| :: keys[i] in groups && values[i] == groups[keys[i]]
  }

  lemma IncreasingSnoc(keys: seq<nat>, k: nat)
    requires Increasing(keys) && forall i | 0 <= i < |keys| :: keys[i] < k
    ensures Increasing(keys + [k])
  {
  }

  /** The values of a map in the order of their keys. */
  method IntoValues(groups: map<nat, seq<Core>>) returns (values: seq<seq<Core>>, keys: seq<nat>)
    ensures Increasing(keys) && ValuesOf(groups, keys, values)
    ensures forall k | k in groups :: k in keys
  {
    var left := groups.Keys;
    values, keys := [], [];
    while left != {}
      invariant left <= groups.Keys
      invariant Increasing(keys) && ValuesOf(groups, keys, values)
      invariant forall k | k in groups :: k in left || k in keys
      invariant forall i, k | 0 <= i < |keys| && k in left :: keys[i] < k
    {
      ghost var m := MinExists(left);
      var k :| k in left && forall x | x in left :: k <= x;
      IncreasingSnoc(keys, k);
      values, keys := values + [groups[k]], keys + [k];
      left := left - {k};
    }
  }

  /** The map holds the cores of every node that has any. */
  ghost predicate GroupsOf(groups: map<nat, seq<Core>>, cores: seq<Core>, node: map<nat, nat>) {
    && (forall j | 0 <= j < |cores| :: cores[j] in node && node[cores[j]] in groups)
    && (forall k | k in groups :: groups[k] == OfNode(cores, node, k) != [])
    && (forall k | k !in groups :: OfNode(cores, node, k) == [])
  }

  lemma OfNodeSnoc(cores: seq<Core>, core: Core, node: map<nat, nat>, key: nat)
    requires core in node
    ensures OfNode(cores + [core], node, key) == OfNode(cores, node, key) + (if node[core] == key then [core] else [])
  {
    assert (cores + [core])[..|cores|] == cores;
  }

  lemma GroupsSnoc(groups: map<nat, seq<Core>>, cores: seq<Core>, core: Core, node: map<nat, nat>)
    requires GroupsOf(groups, cores, node) && core in node
    ensures GroupsOf(Pushed(groups, node[core], core), cores + [core], node)
  {
    forall k
      ensures OfNode(cores + [core], node, k) == OfNode(cores, node, k) + (if node[core] == k then [core] else [])
    {
      OfNodeSnoc(cores, core, node, k);
    }
  }

  /** Appends a core to the group of a key, which starts empty. */
  function Pushed(groups: map<nat, seq<Core>>, key: nat, core: Core): map<nat, seq<Core>> {
    groups[key := (if key in groups then groups[key] else []) + [core]]
  }

  /** Groups the cores by node; fails if the mapping is empty or lacks a core. */
  method GroupByNuma(cores: seq<Core>, processors: seq<nat>, ids: seq<nat>)
    returns (r: Result<seq<seq<Core>>, CpuinfoError>, ghost keys: seq<nat>)
    ensures r.Ok? <==> Zip(processors, ids) != map[] && forall i | 0 <= i < |cores| :: cores[i] in Zip(processors, ids)
    ensures r.Ok? ==> Grouped(cores, Zip(processors, ids), keys, r.value)
    ensures r == Err(ParserError) <==> Zip(processors, ids) == map[]
    ensures r.Err? && r.error.NoMapping? ==>
              exists i | 0 <= i < |cores| ::
                && cores[i] == r.error.core && cores[i] !in Zip(processors, ids)
                && forall j | 0 <= j < i :: cores[j] in Zip(processors, ids)
  {
    var node := Zip(processors, ids);
    keys := [];
    if node == map[] {
      return Err(ParserError), keys;
    }
    var groups: map<nat, seq<Core>> := map[];
    for i := 0 to |cores|
      invariant GroupsOf(groups, cores[..i], node)
    {
      if cores[i] !in node {
        return Err(NoMapping(cores[i])), keys;
      }
      GroupsSnoc(groups, cores[..i], cores[i], node);
      groups := Pushed(groups, node[cores[i]], cores[i]);
      assert cores[..i + 1] == cores[..i] + [cores[i]];
    }
    assert cores[..|cores|] == cores;
    var values: seq<seq<Core>>;
    values, keys := IntoValues(groups);
    r := Ok(values);
  }

  ghost predicate Distinct(cores: seq<Core>) {
    forall i, j | 0 <= i < j < |cores| :: cores[i] != cores[j]
  }

  lemma {:induction false} OfNodeMembers(cores: seq<Core>, node: map<nat, nat>, key: nat, c: Core)
    ensures c in OfNode(cores, node, key) <==> c in cores && c in node && node[c] == key
  {
    if cores != [] {
      OfNodeMembers(cores[..|cores| - 1], node, key, c);
    }
  }

  /** The cores of a node keep their order. */
  lemma {:induction false} OfNodeInOrder(cores: seq<Core>, node: map<nat, nat>, key: nat, a: nat, b: nat)
    requires a < b < |OfNode(cores, node, key)|
    ensures exists i, j | 0 <= i < j < |cores| ::
              cores[i] == OfNode(cores, node, key)[a] && cores[j] == OfNode(cores, node, key)[b]
  {
    var n := |cores| - 1;
    var rest := OfNode(cores[..n], node, key);
    if b < |rest| {
      OfNodeInOrder(cores[..n], node, key, a, b);
      var i, j :| 0 <= i < j < n && cores[..n][i] == rest[a] && cores[..n][j] == rest[b];
      assert cores[i] == rest[a] && cores[j] == rest[b];
    } else {
      OfNodeMembers(cores[..n], node, key, rest[a]);
      var i :| 0 <= i < n && cores[..n][i] == rest[a];
      assert cores[i] == rest[a];
    }
  }

  lemma {:induction false} OfNodeDistinct(cores: seq<Core>, node: map<nat, nat>, key: nat)
    requires Distinct(cores)
    ensures Distinct(OfNode(cores, node, key))
  {
    if cores != [] {
      var n := |cores| - 1;
      OfNodeDistinct(cores[..n], node, key);
      OfNodeMembers(cores[..n], node, key, cores[n]);
    }
  }

  lemma SameCoreSameGroup(cores: seq<Core>, node: map<nat, nat>, keys: seq<nat>, groups: seq<seq<Core>>,
                          a: nat, i: nat, b: nat, j: nat)
    requires Distinct(cores) && Grouped(cores, node, keys, groups)
    requires a < |groups| && i < |groups[a]| && b < |groups| && j < |groups[b]| && groups[a][i] == groups[b][j]
    ensures a == b && i == j
  {
    var c := groups[a][i];
    OfNodeMembers(cores, node, keys[a], c);
    OfNodeMembers(cores, node, keys[b], c);
    OfNodeDistinct(cores, node, keys[a]);
  }

  /** Grouping splits distinct cores: no core is in two groups or lost. */
  lemma GroupsPartition(cores: seq<Core>, node: map<nat, nat>, keys: seq<nat>, groups: seq<seq<Core>>)
    requires Distinct(cores) && Grouped(cores, node, keys, groups)
    ensures NoDuplicates(groups)
    ensures forall c: Core :: Listed(groups, c) <==> c in cores
  {
    forall a, i, b, j | 0 <= a < |groups| && 0 <= i < |groups[a]| && 0 <= b < |groups| && 0 <= j < |groups[b]|
      ensures groups[a][i] == groups[b][j] ==> a == b && i == j
    {
      if groups[a][i] == groups[b][j] {
        SameCoreSameGroup(cores, node, keys, groups, a, i, b, j);
      }
    }
    forall c: Core | Listed(groups, c) ensures c in cores {
      var a :| 0 <= a < |groups| && c in groups[a];
      OfNodeMembers(cores, node, keys[a], c);
    }
    forall c: Core | c in cores ensures Listed(groups, c) {
      var i :| 0 <= i < |cores| && cores[i] == c;
      var a :| 0 <= a < |keys| && keys[a] == node[c];
      OfNodeMembers(cores, node, keys[a], c);
      assert c in groups[a];
    }
  }

  /** With the automatic strategy the runtimes that all get their cores use exactly the configured number of CPUs, each
      of them one of the cores of the process. */
  lemma AutomaticAffinity(cores: seq<Core>, node: map<nat, nat>, keys: seq<nat>, groups: seq<seq<Core>>,
                          numCpus: nat, numRuntimes: nat, threads: nat)
    requires Distinct(cores) && Grouped(cores, node, keys, groups)
    requires numRuntimes > 0 && ThreadsPerRuntime(numCpus, numRuntimes, |cores|) == Ok(threads)
    requires AllSucceed(numRuntimes, threads, None, groups)
    ensures |AllCores(Given(numRuntimes, threads, None, groups))| == numCpus
    ensures forall c: Core | Listed(Given(numRuntimes, threads, None, groups), c) :: c in cores
  {
    GroupsPartition(cores, node, keys, groups);
    ExactlyAllCpus(numCpus, numRuntimes, |cores|, threads, None, groups);
    forall c: Core | Listed(Given(numRuntimes, threads, None, groups), c) ensures c in cores {
      AllGivenAreListed(numRuntimes, threads, groups, c);
    }
  }

  lemma AllGivenAreListed(count: nat, wanted: nat, nodes: seq<seq<Core>>, c: Core)
    requires AllSucceed(count, wanted, None, nodes) && Listed(Given(count, wanted, None, nodes), c)
    ensures Listed(nodes, c)
  {
    var given := Given(count, wanted, None, nodes);
    var id :| 0 <= id < |given| && c in given[id];
    GivenIsListed(id, wanted, nodes, c);
  }

  lemma GivenIsListed(id: nat, wanted: nat, nodes: seq<seq<Core>>, c: Core)
    requires RunStrategy(id, wanted, None, nodes).Ok? && c in RunStrategy(id, wanted, None, nodes).value
    ensures Listed(nodes, c)
  {
    ChunkGiven(id, wanted, None, nodes);
    var cores := RunStrategy(id, wanted, None, nodes).value;
    var i :| 0 <= i < |cores| && cores[i] == c;
    assert NodeOf(nodes, id)[wanted * TurnOf(nodes, id) + i] == c;
    assert c in nodes[id % |nodes|];
  }
}
