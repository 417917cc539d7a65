/**
  Selection of the filter chain of a connection (orion-lib/src/listeners/listener.rs, `select_filterchain`): six
  criteria eliminate chains one after the other, in place, and exactly one chain should be left.
 */
module FilterChainSelection {
  import opened Arithmetic
  import opened MatchSpecificity
  import opened Wrappers

  datatype TransportProtocol = RawBuffer | Ssl

  datatype FilterChainMatch = FilterChainMatch(
    destinationPort: Option<nat>,
    destinationRanges: seq<IpNet>,
    serverNames: seq<ServerNameMatch>,
    sourceRanges: seq<IpNet>,
    sourcePorts: seq<nat>,
    transportProtocol: string,
    applicationProtocols: seq<string>)

  datatype Connection = Connection(
    destinationPort: nat,
    destinationIp: Address,
    serverName: Option<string>,
    transport: TransportProtocol,
    sourceIp: Address,
    sourcePort: nat)

  predicate MatchOk(m: FilterChainMatch) {
    && (forall i | 0 <= i < |m.destinationRanges| :: NetOk(m.destinationRanges[i]))
    && (forall i | 0 <= i < |m.sourceRanges| :: NetOk(m.sourceRanges[i]))
    && (forall i | 0 <= i < |m.serverNames| :: RuleOk(m.serverNames[i]))
  }

  /** Match criteria whose ranges and names were parsed. */
  type ChainMatch = m: FilterChainMatch | MatchOk(m)
    witness FilterChainMatch(None, [], [], [], [], [], [])

  // ---------------------------------------------------------------- the six criteria

  function ServerName(conn: Connection): string {
    if conn.serverName.Some? then conn.serverName.value else []
  }

  function TransportName(transport: TransportProtocol): string {
    if transport == RawBuffer then "raw_buffer" else "ssl"
  }

  function MatchesDestinationPort(m: ChainMatch, port: nat): MatchResult {
    match m.destinationPort
    case Some(p) => if p == port then Matched(0) else FailedMatch
    case None => NoRule
  }

  function MatchesTransport(m: ChainMatch, transport: TransportProtocol): MatchResult {
    if m.transportProtocol == [] then NoRule
    else if m.transportProtocol == TransportName(transport) then Matched(0)
    else FailedMatch
  }

  function MatchesSourcePort(m: ChainMatch, port: nat): MatchResult {
    if m.sourcePorts == [] then NoRule else if port in m.sourcePorts then Matched(0) else FailedMatch
  }

  const CRITERIA := 6

  /** The criteria in the order in which they are applied. */
  function Score(m: ChainMatch, conn: Connection, c: nat): MatchResult
    requires c < CRITERIA
  {
    match c
    case 0 => MatchesDestinationPort(m, conn.destinationPort)
    case 1 => MatchesIp(m.destinationRanges, conn.destinationIp)
    case 2 => MatchesServerName(m.serverNames, ServerName(conn))
    case 3 => MatchesTransport(m, conn.transport)
    case 4 => MatchesIp(m.sourceRanges, conn.sourceIp)
    case _ => MatchesSourcePort(m, conn.sourcePort)
  }

  /** The results of the first `k` criteria. */
  ghost function Scores(m: ChainMatch, conn: Connection, k: nat): (r: seq<MatchResult>)
    requires k <= CRITERIA
    ensures |r| == k
  {
    if k == 0 then [] else Scores(m, conn, k - 1) + [Score(m, conn, k - 1)]
  }

  // ---------------------------------------------------------------- lexicographic comparison

  ghost predicate LexAtMost(u: seq<MatchResult>, v: seq<MatchResult>)
    requires |u| == |v|
  {
    u == [] || if u[0] == v[0] then LexAtMost(u[1..], v[1..]) else AtMost(u[0], v[0])
  }

  lemma {:induction false} LexSnoc(u: seq<MatchResult>, v: seq<MatchResult>, a: MatchResult, b: MatchResult)
    requires |u| == |v|
    ensures LexAtMost(u + [a], v + [b]) <==> LexAtMost(u, v) && (u == v ==> AtMost(a, b))
  {
    if u != [] {
      assert (u + [a])[1..] == u[1..] + [a] && (v + [b])[1..] == v[1..] + [b];
      assert (u + [a])[0] == u[0] && (v + [b])[0] == v[0];
      if u[0] == v[0] {
        LexSnoc(u[1..], v[1..], a, b);
        assert u == [u[0]] + u[1..] && v == [v[0]] + v[1..];
      }
    } else {
      assert u + [a] == [a] && v + [b] == [b];
    }
  }

  lemma {:induction false} LexAntisymmetric(u: seq<MatchResult>, v: seq<MatchResult>)
    requires |u| == |v| && LexAtMost(u, v) && LexAtMost(v, u)
    ensures u == v
  {
    if u != [] {
      TotalOrder(u[0], v[0], v[0]);
      LexAntisymmetric(u[1..], v[1..]);
      assert u == [u[0]] + u[1..] && v == [v[0]] + v[1..];
    }
  }

  lemma {:induction false} LexReflexive(u: seq<MatchResult>)
    ensures LexAtMost(u, u)
  {
    if u != [] {
      LexReflexive(u[1..]);
    }
  }

  // ---------------------------------------------------------------- elimination

  ghost predicate NoFailure(u: seq<MatchResult>) {
    forall i | 0 <= i < |u| :: u[i] != FailedMatch
  }

  /** Chain `i` is still in the running after `k` criteria. */
  ghost predicate Survives(chains: seq<ChainMatch>, conn: Connection, k: nat, i: nat)
    requires k <= CRITERIA && i < |chains|
  {
    k == 0 ||
    (&& Survives(chains, conn, k - 1, i)
     && Score(chains[i], conn, k - 1) != FailedMatch
     && forall j | 0 <= j < |chains| && Survives(chains, conn, k - 1, j) ::
          AtMost(Score(chains[j], conn, k - 1), Score(chains[i], conn, k - 1)))
  }

  /** No criterion fails, and no chain at all does better in the order of the criteria. */
  ghost predicate Wins(chains: seq<ChainMatch>, conn: Connection, k: nat, i: nat)
    requires k <= CRITERIA && i < |chains|
  {
    && NoFailure(Scores(chains[i], conn, k))
    && forall j | 0 <= j < |chains| :: LexAtMost(Scores(chains[j], conn, k), Scores(chains[i], conn, k))
  }

  lemma NoFailureSnoc(u: seq<MatchResult>, a: MatchResult)
    ensures NoFailure(u + [a]) <==> NoFailure(u) && a != FailedMatch
  {
    if NoFailure(u + [a]) {
      assert (u + [a])[|u|] == a;
      forall i | 0 <= i < |u| ensures u[i] != FailedMatch {
        assert (u + [a])[i] == u[i];
      }
    }
  }

  ghost predicate Agree(chains: seq<ChainMatch>, conn: Connection, k: nat)
    requires k <= CRITERIA
  {
    forall i | 0 <= i < |chains| :: Survives(chains, conn, k, i) <==> Wins(chains, conn, k, i)
  }

  lemma SurvivorWins(chains: seq<ChainMatch>, conn: Connection, p: nat, i: nat)
    requires p < CRITERIA && i < |chains| && Survives(chains, conn, p + 1, i)
    requires Agree(chains, conn, p)
    ensures Wins(chains, conn, p + 1, i)
  {
    var u := Scores(chains[i], conn, p);
    NoFailureSnoc(u, Score(chains[i], conn, p));
    forall j | 0 <= j < |chains| ensures LexAtMost(Scores(chains[j], conn, p + 1), Scores(chains[i], conn, p + 1)) {
      var v := Scores(chains[j], conn, p);
      if v == u {
        assert Wins(chains, conn, p, j);
      }
      LexSnoc(v, u, Score(chains[j], conn, p), Score(chains[i], conn, p));
    }
  }

  lemma WinnerSurvives(chains: seq<ChainMatch>, conn: Connection, p: nat, i: nat)
    requires p < CRITERIA && i < |chains| && Wins(chains, conn, p + 1, i)
    requires Agree(chains, conn, p)
    ensures Survives(chains, conn, p + 1, i)
  {
    var u := Scores(chains[i], conn, p);
    NoFailureSnoc(u, Score(chains[i], conn, p));
    forall j | 0 <= j < |chains|
      ensures LexAtMost(Scores(chains[j], conn, p), u)
      ensures Survives(chains, conn, p, j) ==> AtMost(Score(chains[j], conn, p), Score(chains[i], conn, p))
    {
      var v := Scores(chains[j], conn, p);
      assert LexAtMost(Scores(chains[j], conn, p + 1), Scores(chains[i], conn, p + 1));
      LexSnoc(v, u, Score(chains[j], conn, p), Score(chains[i], conn, p));
      if Survives(chains, conn, p, j) {
        assert LexAtMost(u, v);
        LexAntisymmetric(u, v);
      }
    }
  }

  lemma AgreeStep(chains: seq<ChainMatch>, conn: Connection, p: nat, i: nat)
    requires p < CRITERIA && i < |chains| && Agree(chains, conn, p)
    ensures Survives(chains, conn, p + 1, i) <==> Wins(chains, conn, p + 1, i)
  {
    if Survives(chains, conn, p + 1, i) {
      SurvivorWins(chains, conn, p, i);
    }
    if Wins(chains, conn, p + 1, i) {
      WinnerSurvives(chains, conn, p, i);
    }
  }

  lemma AgreeNext(chains: seq<ChainMatch>, conn: Connection, p: nat)
    requires p < CRITERIA && Agree(chains, conn, p)
    ensures Agree(chains, conn, p + 1)
  {
    var k := p + 1;
    forall i | 0 <= i < |chains| ensures Survives(chains, conn, k, i) <==> Wins(chains, conn, k, i) {
      AgreeStep(chains, conn, p, i);
    }
  }

  lemma AgreeAtStart(chains: seq<ChainMatch>, conn: Connection)
    ensures Agree(chains, conn, 0)
  {
    forall i | 0 <= i < |chains| ensures Wins(chains, conn, 0, i) {
      assert forall j | 0 <= j < |chains| :: Scores(chains[j], conn, 0) == [];
    }
  }

  /** Eliminating criterion by criterion keeps exactly the chains that are best in the order of the criteria. */
  lemma {:induction false} SurvivorsWin(chains: seq<ChainMatch>, conn: Connection, k: nat)
    requires k <= CRITERIA
    ensures Agree(chains, conn, k)
  {
    if k > 0 {
      SurvivorsWin(chains, conn, k - 1);
      AgreeNext(chains, conn, k - 1);
    } else {
      AgreeAtStart(chains, conn);
    }
  }

  // ---------------------------------------------------------------- the selection, in place

  /** One criterion: marks the outcome of the chains still in the running and drops all but the best of them. */
  method MatchSubitem(criterion: ChainMatch -> MatchResult, chains: seq<ChainMatch>,
                      scratchpad: array<MatchResult>, possible: array<bool>)
    requires scratchpad.Length == possible.Length == |chains|
    modifies scratchpad, possible
    ensures forall i | 0 <= i < |chains| ::
              possible[i] <==>
                && old(possible[i])
                && criterion(chains[i]) != FailedMatch
                && forall j | 0 <= j < |chains| && old(possible[j]) ::
                     AtMost(criterion(chains[j]), criterion(chains[i]))
  {
    var best := FailedMatch;
    for i := 0 to |chains|
      invariant possible[..] == old(possible[..])
      invariant forall j | 0 <= j < i && possible[j] ::
                  scratchpad[j] == criterion(chains[j]) && AtMost(scratchpad[j], best)
      invariant best == FailedMatch || exists j | 0 <= j < i && possible[j] :: scratchpad[j] == best
    {
      if possible[i] {
        var result := criterion(chains[i]);
        scratchpad[i] := result;
        if Cmp(result, best) == Greater {
          best := result;
        }
      }
    }
    ghost var marks := scratchpad[..];
    for i := 0 to |chains|
      invariant scratchpad[..] == marks
      invariant forall j | 0 <= j < i ::
                  possible[j] <==> old(possible[j]) && scratchpad[j] == best && scratchpad[j] != FailedMatch
      invariant forall j | i <= j < |chains| :: possible[j] == old(possible[j])
    {
      if scratchpad[i] != best || scratchpad[i] == FailedMatch {
        possible[i] := false;
      }
    }
  }

  ghost predicate Running(chains: seq<ChainMatch>, conn: Connection, k: nat, possible: seq<bool>)
    requires k <= CRITERIA
  {
    |possible| == |chains| && forall i | 0 <= i < |chains| :: possible[i] <==> Survives(chains, conn, k, i)
  }

  method Apply(chains: seq<ChainMatch>, conn: Connection, c: nat, scratchpad: array<MatchResult>, possible: array<bool>)
    requires c < CRITERIA && scratchpad.Length == possible.Length == |chains|
    requires Running(chains, conn, c, possible[..])
    modifies scratchpad, possible
    ensures Running(chains, conn, c + 1, possible[..])
  {
    ghost var before := possible[..];
    MatchSubitem((m: ChainMatch) => Score(m, conn, c), chains, scratchpad, possible);
    forall i | 0 <= i < |chains| ensures possible[..][i] <==> Survives(chains, conn, c + 1, i) {
      assert before[i] <==> Survives(chains, conn, c, i);
      assert forall j | 0 <= j < |chains| :: before[j] <==> Survives(chains, conn, c, j);
    }
  }

  /** No chain at all does better in the order of the six criteria, and none of the criteria fails. */
  ghost predicate Winner(chains: seq<ChainMatch>, conn: Connection, i: nat) {
    i < |chains| && Wins(chains, conn, CRITERIA, i)
  }

  ghost predicate OnlyWinner(chains: seq<ChainMatch>, conn: Connection, i: nat) {
    Winner(chains, conn, i) && forall j: nat | Winner(chains, conn, j) :: j == i
  }

  /** Selects the chain of a connection, by its position: the one best chain, none if there is none, and an error if
      several chains tie. */
  method SelectFilterChain(chains: seq<ChainMatch>, conn: Connection) returns (r: Result<Option<nat>, string>)
    ensures r == Ok(None) <==> forall i: nat :: !Winner(chains, conn, i)
    ensures forall i: nat :: r == Ok(Some(i)) <==> OnlyWinner(chains, conn, i)
    ensures r.Err? <==> exists i: nat, j: nat :: i < j && Winner(chains, conn, i) && Winner(chains, conn, j)
  {
    var possible := new bool[|chains|](_ => true);
    var scratchpad := new MatchResult[|chains|](_ => NoRule);
    assert Running(chains, conn, 0, possible[..]);
    Apply(chains, conn, 0, scratchpad, possible);
    Apply(chains, conn, 1, scratchpad, possible);
    Apply(chains, conn, 2, scratchpad, possible);
    Apply(chains, conn, 3, scratchpad, possible);
    Apply(chains, conn, 4, scratchpad, possible);
    Apply(chains, conn, 5, scratchpad, possible);
    SurvivorsWin(chains, conn, CRITERIA);
    ghost var left := possible[..];
    assert forall i: nat :: On(left, i) <==> Winner(chains, conn, i);
    r := TakeOnly(possible[..]);
  }

  ghost predicate On(flags: seq<bool>, i: nat) {
    i < |flags| && flags[i]
  }

  method TakeOnly(possible: seq<bool>) returns (r: Result<Option<nat>, string>)
    ensures r == Ok(None) <==> forall i: nat :: !On(possible, i)
    ensures forall i: nat :: r == Ok(Some(i)) <==> On(possible, i) && forall j: nat | On(possible, j) :: j == i
    ensures r.Err? <==> exists i: nat, j: nat :: i < j && On(possible, i) && On(possible, j)
  {
    var first := 0;
    while first < |possible| && !possible[first]
      invariant first <= |possible| && forall i | 0 <= i < first :: !possible[i]
    {
      first := first + 1;
    }
    if first == |possible| {
      return Ok(None);
    }
    assert On(possible, first);
    var second := first + 1;
    while second < |possible| && !possible[second]
      invariant first < second <= |possible| && forall i | first < i < second :: !possible[i]
    {
      second := second + 1;
    }
    if second == |possible| {
      return Ok(Some(first));
    }
    assert On(possible, second);
    return Err("multiple filterchains matched a single connection");
  }

  // ---------------------------------------------------------------- what the selected chain is

  /** The connection meets every rule that the chain states. */
  ghost predicate Satisfies(m: ChainMatch, conn: Connection) {
    && (m.destinationPort.Some? ==> m.destinationPort.value == conn.destinationPort)
    && (m.destinationRanges != [] ==>
          exists i :: 0 <= i < |m.destinationRanges| && Contains(m.destinationRanges[i], conn.destinationIp))
    && (m.serverNames != [] ==> exists i :: 0 <= i < |m.serverNames| && Covers(m.serverNames[i], ServerName(conn)))
    && (m.transportProtocol != [] ==> m.transportProtocol == TransportName(conn.transport))
    && (m.sourceRanges != [] ==> exists i :: 0 <= i < |m.sourceRanges| && Contains(m.sourceRanges[i], conn.sourceIp))
    && (m.sourcePorts != [] ==> conn.sourcePort in m.sourcePorts)
  }

  /** One chain is preferred to another: by the destination port, then the destination address, the server name, the
      transport protocol, the source address and the source port, the first difference deciding. */
  ghost predicate Beats(a: ChainMatch, b: ChainMatch, conn: Connection) {
    match Cmp(MatchesDestinationPort(a, conn.destinationPort), MatchesDestinationPort(b, conn.destinationPort))
    case Greater => true
    case Less => false
    case Equal =>
    match Cmp(MatchesIp(a.destinationRanges, conn.destinationIp), MatchesIp(b.destinationRanges, conn.destinationIp))
    case Greater => true
    case Less => false
    case Equal =>
    match Cmp(MatchesServerName(a.serverNames, ServerName(conn)), MatchesServerName(b.serverNames, ServerName(conn)))
    case Greater => true
    case Less => false
    case Equal => BeatsInSource(a, b, conn)
  }

  ghost predicate BeatsInSource(a: ChainMatch, b: ChainMatch, conn: Connection) {
    match Cmp(MatchesTransport(a, conn.transport), MatchesTransport(b, conn.transport))
    case Greater => true
    case Less => false
    case Equal =>
    match Cmp(MatchesIp(a.sourceRanges, conn.sourceIp), MatchesIp(b.sourceRanges, conn.sourceIp))
    case Greater => true
    case Less => false
    case Equal =>
      Cmp(MatchesSourcePort(a, conn.sourcePort), MatchesSourcePort(b, conn.sourcePort)) == Greater
  }

  /** The first difference decides against `u`. */
  ghost predicate Behind(u: seq<MatchResult>, v: seq<MatchResult>)
    requires |u| == |v|
  {
    u != [] &&
    match Cmp(v[0], u[0])
    case Greater => true
    case Less => false
    case Equal => Behind(u[1..], v[1..])
  }

  lemma {:induction false} LexIffNotBehind(u: seq<MatchResult>, v: seq<MatchResult>)
    requires |u| == |v|
    ensures LexAtMost(v, u) <==> !Behind(u, v)
  {
    if u != [] {
      TotalOrder(v[0], u[0], u[0]);
      if u[0] == v[0] {
        LexIffNotBehind(u[1..], v[1..]);
      }
    }
  }

  lemma BehindCons(x: MatchResult, u: seq<MatchResult>, y: MatchResult, v: seq<MatchResult>)
    requires |u| == |v|
    ensures Behind([x] + u, [y] + v) <==> Cmp(y, x) == Greater || (Cmp(y, x) == Equal && Behind(u, v))
  {
    assert ([x] + u)[1..] == u && ([y] + v)[1..] == v;
  }

  ghost function Listed(m: ChainMatch, conn: Connection, k: nat): (r: seq<MatchResult>)
    requires k <= CRITERIA
    ensures |r| == CRITERIA - k
    decreases CRITERIA - k
  {
    if k == CRITERIA then [] else [Score(m, conn, k)] + Listed(m, conn, k + 1)
  }

  lemma ListedInOrder(m: ChainMatch, conn: Connection)
    ensures Listed(m, conn, 0) == Scores(m, conn, CRITERIA)
  {
    AppendNothing(Listed(m, conn, 0));
    Regroup(Scores(m, conn, 0), Score(m, conn, 0), Listed(m, conn, 1));
    Regroup(Scores(m, conn, 1), Score(m, conn, 1), Listed(m, conn, 2));
    Regroup(Scores(m, conn, 2), Score(m, conn, 2), Listed(m, conn, 3));
    Regroup(Scores(m, conn, 3), Score(m, conn, 3), Listed(m, conn, 4));
    Regroup(Scores(m, conn, 4), Score(m, conn, 4), Listed(m, conn, 5));
    Regroup(Scores(m, conn, 5), Score(m, conn, 5), Listed(m, conn, 6));
    AppendNothing(Scores(m, conn, 6));
  }

  lemma Regroup(u: seq<MatchResult>, x: MatchResult, v: seq<MatchResult>)
    ensures u + ([x] + v) == (u + [x]) + v
  {
  }

  lemma AppendNothing(u: seq<MatchResult>)
    ensures u + [] == u && [] + u == u
  {
  }

  lemma BehindListed(a: ChainMatch, b: ChainMatch, conn: Connection, k: nat)
    requires k < CRITERIA
    ensures Behind(Listed(a, conn, k), Listed(b, conn, k)) <==>
              || Cmp(Score(b, conn, k), Score(a, conn, k)) == Greater
              || (Cmp(Score(b, conn, k), Score(a, conn, k)) == Equal &&
                  Behind(Listed(a, conn, k + 1), Listed(b, conn, k + 1)))
  {
    BehindCons(Score(a, conn, k), Listed(a, conn, k + 1), Score(b, conn, k), Listed(b, conn, k + 1));
  }

  lemma BehindInSource(a: ChainMatch, b: ChainMatch, conn: Connection)
    ensures Behind(Listed(a, conn, 3), Listed(b, conn, 3)) <==> BeatsInSource(b, a, conn)
  {
    BehindListed(a, b, conn, 3);
    BehindListed(a, b, conn, 4);
    BehindListed(a, b, conn, 5);
  }

  lemma BehindIsBeaten(a: ChainMatch, b: ChainMatch, conn: Connection)
    ensures Behind(Listed(a, conn, 0), Listed(b, conn, 0)) <==> Beats(b, a, conn)
  {
    BehindListed(a, b, conn, 0);
    BehindListed(a, b, conn, 1);
    BehindListed(a, b, conn, 2);
    BehindInSource(a, b, conn);
  }

  /** The lexicographic order of the criteria is the order of preference. */
  lemma LexIffNotBeaten(a: ChainMatch, b: ChainMatch, conn: Connection)
    ensures LexAtMost(Scores(b, conn, CRITERIA), Scores(a, conn, CRITERIA)) <==> !Beats(b, a, conn)
  {
    ListedInOrder(a, conn);
    ListedInOrder(b, conn);
    LexIffNotBehind(Listed(a, conn, 0), Listed(b, conn, 0));
    BehindIsBeaten(a, b, conn);
  }

  lemma SatisfiesRanges(ranges: seq<IpNet>, ip: Address)
    requires forall i | 0 <= i < |ranges| :: NetOk(ranges[i])
    ensures MatchesIp(ranges, ip) != FailedMatch <==>
              (ranges != [] ==> exists i :: 0 <= i < |ranges| && Contains(ranges[i], ip))
  {
    BestRangeIsLongest(ranges, ip);
  }

  lemma SatisfiesNames(rules: seq<ServerNameMatch>, name: string)
    requires forall i | 0 <= i < |rules| :: RuleOk(rules[i])
    ensures MatchesServerName(rules, name) != FailedMatch <==>
              (rules != [] ==> exists i :: 0 <= i < |rules| && Covers(rules[i], name))
  {
    FailedIffNoneCovers(rules, name);
  }

  /** No criterion fails. */
  ghost predicate Passes(m: ChainMatch, conn: Connection) {
    && MatchesDestinationPort(m, conn.destinationPort) != FailedMatch
    && MatchesIp(m.destinationRanges, conn.destinationIp) != FailedMatch
    && MatchesServerName(m.serverNames, ServerName(conn)) != FailedMatch
    && MatchesTransport(m, conn.transport) != FailedMatch
    && MatchesIp(m.sourceRanges, conn.sourceIp) != FailedMatch
    && MatchesSourcePort(m, conn.sourcePort) != FailedMatch
  }

  /** No criterion fails exactly when the connection meets every rule of the chain. */
  lemma PassesIff(m: ChainMatch, conn: Connection)
    ensures Passes(m, conn) <==> Satisfies(m, conn)
  {
    SatisfiesRanges(m.destinationRanges, conn.destinationIp);
    SatisfiesNames(m.serverNames, ServerName(conn));
    SatisfiesRanges(m.sourceRanges, conn.sourceIp);
  }

  lemma {:induction false} ScoreAt(m: ChainMatch, conn: Connection, k: nat, c: nat)
    requires c < k <= CRITERIA
    ensures Scores(m, conn, k)[c] == Score(m, conn, c)
  {
    if c < k - 1 {
      ScoreAt(m, conn, k - 1, c);
    }
  }

  lemma NoFailureAll(m: ChainMatch, conn: Connection)
    ensures NoFailure(Scores(m, conn, CRITERIA)) <==> forall c | 0 <= c < CRITERIA :: Score(m, conn, c) != FailedMatch
  {
    var u := Scores(m, conn, CRITERIA);
    forall c | 0 <= c < CRITERIA ensures u[c] == Score(m, conn, c) {
      ScoreAt(m, conn, CRITERIA, c);
    }
  }

  lemma ScoresOfAll(m: ChainMatch, conn: Connection)
    ensures (forall c | 0 <= c < CRITERIA :: Score(m, conn, c) != FailedMatch) <==> Passes(m, conn)
  {
    if forall c | 0 <= c < CRITERIA :: Score(m, conn, c) != FailedMatch {
      assert Score(m, conn, 0) != FailedMatch && Score(m, conn, 1) != FailedMatch && Score(m, conn, 2) != FailedMatch;
      assert Score(m, conn, 3) != FailedMatch && Score(m, conn, 4) != FailedMatch && Score(m, conn, 5) != FailedMatch;
    }
  }

  /** A chain is selectable exactly when the connection meets all its rules and no chain is preferred to it. */
  lemma WinnerIff(chains: seq<ChainMatch>, conn: Connection, i: nat)
    ensures Winner(chains, conn, i) <==>
              && i < |chains|
              && Satisfies(chains[i], conn)
              && forall j | 0 <= j < |chains| :: !Beats(chains[j], chains[i], conn)
  {
    if i < |chains| {
      NoFailureAll(chains[i], conn);
      ScoresOfAll(chains[i], conn);
      PassesIff(chains[i], conn);
      forall j | 0 <= j < |chains|
        ensures LexAtMost(Scores(chains[j], conn, CRITERIA), Scores(chains[i], conn, CRITERIA)) <==>
                  !Beats(chains[j], chains[i], conn)
      {
        LexIffNotBeaten(chains[i], chains[j], conn);
      }
    }
  }
}
