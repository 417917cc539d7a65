/**
  When two filter chains tie for a connection (orion-lib/src/listeners/listener.rs, the end of `select_filterchain`),
  and which configurations never have a tie.
 */
module FilterChainTies {
  import opened Arithmetic
  import opened FilterChainSelection
  import opened MatchSpecificity
  import opened Wrappers

  /** Best chains agree on all criteria, and a chain that agrees with a best one is a best one too. */
  lemma TieIff(chains: seq<ChainMatch>, conn: Connection, i: nat, j: nat)
    requires Winner(chains, conn, i) && j < |chains|
    ensures Winner(chains, conn, j) <==> Scores(chains[j], conn, CRITERIA) == Scores(chains[i], conn, CRITERIA)
  {
    if Winner(chains, conn, j) {
      LexAntisymmetric(Scores(chains[i], conn, CRITERIA), Scores(chains[j], conn, CRITERIA));
    }
  }

  /** The application protocols of a chain are no criterion. */
  lemma {:induction false} ApplicationProtocolsIgnored(m: ChainMatch, protocols: seq<string>, conn: Connection, k: nat)
    requires k <= CRITERIA
    ensures Scores(m.(applicationProtocols := protocols), conn, k) == Scores(m, conn, k)
  {
    if k > 0 {
      ApplicationProtocolsIgnored(m, protocols, conn, k - 1);
    }
  }

  /** Two different match statements that differ only in their application protocols tie whenever one of them is best,
      so the error that a single chain must match is reachable from accepted configurations. */
  lemma AmbiguousConfiguration(m: ChainMatch, protocols: seq<string>, conn: Connection)
    requires protocols != m.applicationProtocols && NoFailure(Scores(m, conn, CRITERIA))
    ensures var chains: seq<ChainMatch> := [m, m.(applicationProtocols := protocols)];
            chains[0] != chains[1] && Winner(chains, conn, 0) && Winner(chains, conn, 1)
  {
    ApplicationProtocolsIgnored(m, protocols, conn, CRITERIA);
    LexReflexive(Scores(m, conn, CRITERIA));
  }

  ghost predicate SameAnswer(x: MatchResult, y: MatchResult) {
    x == y != FailedMatch
  }

  /** Both chains pass, and no criterion tells them apart. */
  ghost predicate Tied(a: ChainMatch, b: ChainMatch, conn: Connection) {
    Scores(a, conn, CRITERIA) == Scores(b, conn, CRITERIA) && NoFailure(Scores(a, conn, CRITERIA))
  }

  lemma TiedOn(a: ChainMatch, b: ChainMatch, conn: Connection, c: nat)
    requires Tied(a, b, conn) && c < CRITERIA
    ensures SameAnswer(Score(a, conn, c), Score(b, conn, c))
  {
    ScoreAt(a, conn, CRITERIA, c);
    ScoreAt(b, conn, CRITERIA, c);
  }

  lemma SameSnoc(u: seq<MatchResult>, v: seq<MatchResult>, x: MatchResult, y: MatchResult)
    requires u == v && NoFailure(u) && SameAnswer(x, y)
    ensures u + [x] == v + [y] && NoFailure(u + [x])
  {
    NoFailureSnoc(u, x);
  }

  // ---------------------------------------------------------------- ties in one criterion

  ghost predicate SameNetwork(a: IpNet, b: IpNet) {
    NetOk(a) && NetOk(b) && a.family == b.family && a.prefixLen == b.prefixLen && Network(a) == Network(b)
  }

  ghost predicate Valid(ip: Address) {
    ip.bits < Pow2(Width(ip.family))
  }

  /** No longer range of the list contains the address. */
  ghost predicate Longest(ranges: seq<IpNet>, prefixLen: nat, ip: Address) {
    forall k | 0 <= k < |ranges| && NetOk(ranges[k]) && Contains(ranges[k], ip) :: ranges[k].prefixLen <= prefixLen
  }

  /** The address lies in a network that both lists state, and in no longer range of either. */
  ghost predicate Common(a: seq<IpNet>, b: seq<IpNet>, ip: Address) {
    exists i, j | 0 <= i < |a| && 0 <= j < |b| && SameNetwork(a[i], b[j]) ::
      Contains(a[i], ip) && Longest(a, a[i].prefixLen, ip) && Longest(b, a[i].prefixLen, ip)
  }

  /** Neither list has a range, or both state one network that longer ranges of theirs do not cover. */
  ghost predicate ShareRange(a: seq<IpNet>, b: seq<IpNet>) {
    (a == [] && b == []) || exists ip: Address :: Valid(ip) && Common(a, b, ip)
  }

  lemma SamePrefixSameNetwork(a: IpNet, b: IpNet, ip: Address)
    requires NetOk(a) && NetOk(b) && Contains(a, ip) && Contains(b, ip) && a.prefixLen == b.prefixLen
    ensures SameNetwork(a, b)
  {
    ContainsIff(a, ip);
    ContainsIff(b, ip);
    assert Block(a) == Block(b);
  }

  lemma LongestAnswers(ranges: seq<IpNet>, i: nat, ip: Address)
    requires i < |ranges| && (forall k | 0 <= k < |ranges| :: NetOk(ranges[k])) && Contains(ranges[i], ip)
    ensures MatchesIp(ranges, ip) == Matched(Width(ip.family) - ranges[i].prefixLen) <==>
              Longest(ranges, ranges[i].prefixLen, ip)
  {
    BestRangeIsLongest(ranges, ip);
  }

  /** The range that answers. */
  lemma Answering(ranges: seq<IpNet>, ip: Address) returns (i: nat)
    requires (forall k | 0 <= k < |ranges| :: NetOk(ranges[k])) && ranges != [] && MatchesIp(ranges, ip) != FailedMatch
    ensures i < |ranges| && Contains(ranges[i], ip) && Longest(ranges, ranges[i].prefixLen, ip)
    ensures MatchesIp(ranges, ip) == Matched(Width(ip.family) - ranges[i].prefixLen)
  {
    i :| 0 <= i < |ranges| && MatchRanges(ranges, ip)[i] == MatchesIp(ranges, ip);
    LongestAnswers(ranges, i, ip);
  }

  lemma TieHasCommonRange(a: seq<IpNet>, b: seq<IpNet>, ip: Address)
    requires (forall i | 0 <= i < |a| :: NetOk(a[i])) && (forall i | 0 <= i < |b| :: NetOk(b[i]))
    requires SameAnswer(MatchesIp(a, ip), MatchesIp(b, ip))
    ensures (a == [] && b == []) || Common(a, b, ip)
  {
    RulesAnswer(a, ip);
    RulesAnswer(b, ip);
    if a != [] {
      var i := Answering(a, ip);
      var j := Answering(b, ip);
      SamePrefixSameNetwork(a[i], b[j], ip);
    }
  }

  lemma RulesAnswer(ranges: seq<IpNet>, ip: Address)
    requires forall i | 0 <= i < |ranges| :: NetOk(ranges[i])
    ensures MatchesIp(ranges, ip).NoRule? <==> ranges == []
  {
    BestRangeIsLongest(ranges, ip);
  }

  lemma CommonRangeTies(a: seq<IpNet>, b: seq<IpNet>, ip: Address)
    requires (forall i | 0 <= i < |a| :: NetOk(a[i])) && (forall i | 0 <= i < |b| :: NetOk(b[i]))
    requires Common(a, b, ip)
    ensures SameAnswer(MatchesIp(a, ip), MatchesIp(b, ip))
  {
    var i, j :| 0 <= i < |a| && 0 <= j < |b| && SameNetwork(a[i], b[j]) &&
      Contains(a[i], ip) && Longest(a, a[i].prefixLen, ip) && Longest(b, a[i].prefixLen, ip);
    assert Contains(b[j], ip);
    LongestAnswers(a, i, ip);
    LongestAnswers(b, j, ip);
  }

  /** Neither list has an element, or they have one in common. */
  ghost predicate ShareElement<T>(a: seq<T>, b: seq<T>) {
    (a == [] && b == []) || exists i, j :: 0 <= i < |a| && 0 <= j < |b| && a[i] == b[j]
  }

  lemma TieOnNames(a: seq<ServerNameMatch>, b: seq<ServerNameMatch>, name: string)
    requires (forall i | 0 <= i < |a| :: RuleOk(a[i])) && (forall i | 0 <= i < |b| :: RuleOk(b[i]))
    requires |name| <= U32_MAX && SameAnswer(MatchesServerName(a, name), MatchesServerName(b, name))
    ensures ShareElement(a, b)
  {
    BestNameIsMostSpecific(a, name);
    BestNameIsMostSpecific(b, name);
    if a != [] {
      var i :| 0 <= i < |a| && MatchNames(a, name)[i] == MatchesServerName(a, name);
      var j :| 0 <= j < |b| && MatchNames(b, name)[j] == MatchesServerName(b, name);
      SameScoreSameRule(a[i], b[j], name);
    }
  }

  /** A name that a rule covers and nothing more specific does. */
  ghost function Telling(rule: ServerNameMatch, longest: nat): string {
    if rule.matchSubdomains then Filler(longest + 1) + rule.name else rule.name
  }

  ghost function Filler(n: nat): (s: string)
    ensures |s| == n && forall k | 0 <= k < n :: s[k] == 'x'
  {
    seq(n, _ => 'x')
  }

  ghost predicate ShortNames(rules: seq<ServerNameMatch>, longest: nat) {
    forall i | 0 <= i < |rules| :: |rules[i].name| <= longest
  }

  lemma NothingMoreSpecific(rule: ServerNameMatch, other: ServerNameMatch, longest: nat)
    requires RuleOk(rule) && RuleOk(other) && |rule.name| <= longest && |other.name| <= longest
    requires MoreSpecific(other, rule)
    ensures !Covers(other, Telling(rule, longest))
  {
    if other.matchSubdomains {
      forall p: string ensures Telling(rule, longest) != p + other.name {
        if |p| + |other.name| == longest + 1 + |rule.name| {
          DotAgainstFiller(rule.name, other.name, p, longest);
        }
      }
    }
  }

  /** A longer suffix that starts at a dot does not fit, because the name has a filler where the dot should be. */
  lemma DotAgainstFiller(shorter: string, suffix: string, p: string, longest: nat)
    requires |shorter| < |suffix| <= longest && suffix[0] == '.' && |p| + |suffix| == longest + 1 + |shorter|
    ensures (Filler(longest + 1) + shorter)[|p|] == 'x' && (p + suffix)[|p|] == '.'
  {
  }

  lemma TellingScore(rules: seq<ServerNameMatch>, i: nat, longest: nat)
    requires i < |rules| && (forall k | 0 <= k < |rules| :: RuleOk(rules[k])) && ShortNames(rules, longest)
    requires 2 * longest < U32_MAX
    ensures |Telling(rules[i], longest)| <= U32_MAX && Covers(rules[i], Telling(rules[i], longest))
    ensures MatchesServerName(rules, Telling(rules[i], longest)) == MatchName(rules[i], Telling(rules[i], longest))
  {
    var name := Telling(rules[i], longest);
    BestNameIsMostSpecific(rules, name);
    forall j | 0 <= j < |rules| && Covers(rules[j], name) ensures !MoreSpecific(rules[j], rules[i]) {
      if MoreSpecific(rules[j], rules[i]) {
        NothingMoreSpecific(rules[i], rules[j], longest);
      }
    }
  }

  /** Two lists with a rule in common answer the same for some name. */
  lemma NameTie(a: seq<ServerNameMatch>, b: seq<ServerNameMatch>, longest: nat) returns (name: string)
    requires (forall i | 0 <= i < |a| :: RuleOk(a[i])) && (forall i | 0 <= i < |b| :: RuleOk(b[i]))
    requires ShortNames(a, longest) && ShortNames(b, longest) && 2 * longest < U32_MAX && ShareElement(a, b)
    ensures |name| <= U32_MAX && SameAnswer(MatchesServerName(a, name), MatchesServerName(b, name))
  {
    if a == [] {
      name := [];
    } else {
      var i, j :| 0 <= i < |a| && 0 <= j < |b| && a[i] == b[j];
      name := Telling(a[i], longest);
      TellingScore(a, i, longest);
      TellingScore(b, j, longest);
      MatchIffCovers(a[i], name);
    }
  }

  lemma TieOnPorts(a: ChainMatch, b: ChainMatch, port: nat)
    requires SameAnswer(MatchesSourcePort(a, port), MatchesSourcePort(b, port))
    ensures ShareElement(a.sourcePorts, b.sourcePorts)
  {
    if a.sourcePorts != [] {
      var i :| 0 <= i < |a.sourcePorts| && a.sourcePorts[i] == port;
      var j :| 0 <= j < |b.sourcePorts| && b.sourcePorts[j] == port;
    }
  }

  lemma PortTie(a: ChainMatch, b: ChainMatch) returns (port: nat)
    requires ShareElement(a.sourcePorts, b.sourcePorts)
    ensures SameAnswer(MatchesSourcePort(a, port), MatchesSourcePort(b, port))
  {
    port := 0;
    if a.sourcePorts != [] {
      var i, j :| 0 <= i < |a.sourcePorts| && 0 <= j < |b.sourcePorts| && a.sourcePorts[i] == b.sourcePorts[j];
      port := a.sourcePorts[i];
    }
  }

  lemma RangeTie(a: seq<IpNet>, b: seq<IpNet>) returns (ip: Address)
    requires (forall i | 0 <= i < |a| :: NetOk(a[i])) && (forall i | 0 <= i < |b| :: NetOk(b[i])) && ShareRange(a, b)
    ensures Valid(ip) && SameAnswer(MatchesIp(a, ip), MatchesIp(b, ip))
  {
    if a == [] && b == [] {
      ip := Address(V4, 0);
      Pow2Positive(32);
    } else {
      ip :| Valid(ip) && Common(a, b, ip);
      CommonRangeTies(a, b, ip);
    }
  }

  // ---------------------------------------------------------------- ties of two chains

  ghost predicate KnownTransport(name: string) {
    name == [] || name == TransportName(RawBuffer) || name == TransportName(Ssl)
  }

  /** In every criterion both chains have no rule, or they have one in common that can decide. */
  ghost predicate Confusable(a: FilterChainMatch, b: FilterChainMatch) {
    && a.destinationPort == b.destinationPort
    && ShareRange(a.destinationRanges, b.destinationRanges)
    && ShareElement(a.serverNames, b.serverNames)
    && a.transportProtocol == b.transportProtocol && KnownTransport(a.transportProtocol)
    && ShareRange(a.sourceRanges, b.sourceRanges)
    && ShareElement(a.sourcePorts, b.sourcePorts)
  }

  ghost predicate ValidConnection(conn: Connection) {
    Valid(conn.destinationIp) && Valid(conn.sourceIp) && |ServerName(conn)| <= U32_MAX
  }

  lemma TieOnDestination(a: ChainMatch, b: ChainMatch, conn: Connection)
    requires Tied(a, b, conn) && ValidConnection(conn)
    ensures a.destinationPort == b.destinationPort && ShareRange(a.destinationRanges, b.destinationRanges)
  {
    TiedOn(a, b, conn, 0);
    TiedOn(a, b, conn, 1);
    TieHasCommonRange(a.destinationRanges, b.destinationRanges, conn.destinationIp);
  }

  lemma TieOnServer(a: ChainMatch, b: ChainMatch, conn: Connection)
    requires Tied(a, b, conn) && ValidConnection(conn)
    ensures ShareElement(a.serverNames, b.serverNames)
    ensures a.transportProtocol == b.transportProtocol && KnownTransport(a.transportProtocol)
  {
    TiedOn(a, b, conn, 2);
    TiedOn(a, b, conn, 3);
    TieOnNames(a.serverNames, b.serverNames, ServerName(conn));
  }

  lemma TieOnSource(a: ChainMatch, b: ChainMatch, conn: Connection)
    requires Tied(a, b, conn) && ValidConnection(conn)
    ensures ShareRange(a.sourceRanges, b.sourceRanges) && ShareElement(a.sourcePorts, b.sourcePorts)
  {
    TiedOn(a, b, conn, 4);
    TiedOn(a, b, conn, 5);
    TieHasCommonRange(a.sourceRanges, b.sourceRanges, conn.sourceIp);
    TieOnPorts(a, b, conn.sourcePort);
  }

  /** Chains that tie can be confused ... */
  lemma TieMeansConfusable(a: ChainMatch, b: ChainMatch, conn: Connection)
    requires Tied(a, b, conn) && ValidConnection(conn)
    ensures Confusable(a, b)
  {
    TieOnDestination(a, b, conn);
    TieOnServer(a, b, conn);
    TieOnSource(a, b, conn);
  }

  lemma TiedIf(a: ChainMatch, b: ChainMatch, conn: Connection)
    requires SameAnswer(Score(a, conn, 0), Score(b, conn, 0)) && SameAnswer(Score(a, conn, 1), Score(b, conn, 1))
    requires SameAnswer(Score(a, conn, 2), Score(b, conn, 2)) && SameAnswer(Score(a, conn, 3), Score(b, conn, 3))
    requires SameAnswer(Score(a, conn, 4), Score(b, conn, 4)) && SameAnswer(Score(a, conn, 5), Score(b, conn, 5))
    ensures Tied(a, b, conn)
  {
    SameSnoc(Scores(a, conn, 0), Scores(b, conn, 0), Score(a, conn, 0), Score(b, conn, 0));
    SameSnoc(Scores(a, conn, 1), Scores(b, conn, 1), Score(a, conn, 1), Score(b, conn, 1));
    SameSnoc(Scores(a, conn, 2), Scores(b, conn, 2), Score(a, conn, 2), Score(b, conn, 2));
    SameSnoc(Scores(a, conn, 3), Scores(b, conn, 3), Score(a, conn, 3), Score(b, conn, 3));
    SameSnoc(Scores(a, conn, 4), Scores(b, conn, 4), Score(a, conn, 4), Score(b, conn, 4));
    SameSnoc(Scores(a, conn, 5), Scores(b, conn, 5), Score(a, conn, 5), Score(b, conn, 5));
  }

  lemma DestinationTies(a: ChainMatch, b: ChainMatch, conn: Connection)
    requires a.destinationPort == b.destinationPort
    requires a.destinationPort.Some? ==> conn.destinationPort == a.destinationPort.value
    requires SameAnswer(MatchesIp(a.destinationRanges, conn.destinationIp),
                        MatchesIp(b.destinationRanges, conn.destinationIp))
    ensures SameAnswer(Score(a, conn, 0), Score(b, conn, 0)) && SameAnswer(Score(a, conn, 1), Score(b, conn, 1))
  {
  }

  lemma ServerTies(a: ChainMatch, b: ChainMatch, conn: Connection)
    requires a.transportProtocol == b.transportProtocol
    requires a.transportProtocol != [] ==> a.transportProtocol == TransportName(conn.transport)
    requires SameAnswer(MatchesServerName(a.serverNames, ServerName(conn)),
                        MatchesServerName(b.serverNames, ServerName(conn)))
    ensures SameAnswer(Score(a, conn, 2), Score(b, conn, 2)) && SameAnswer(Score(a, conn, 3), Score(b, conn, 3))
  {
  }

  lemma SourceTies(a: ChainMatch, b: ChainMatch, conn: Connection)
    requires SameAnswer(MatchesIp(a.sourceRanges, conn.sourceIp), MatchesIp(b.sourceRanges, conn.sourceIp))
    requires SameAnswer(MatchesSourcePort(a, conn.sourcePort), MatchesSourcePort(b, conn.sourcePort))
    ensures SameAnswer(Score(a, conn, 4), Score(b, conn, 4)) && SameAnswer(Score(a, conn, 5), Score(b, conn, 5))
  {
  }

  ghost function TransportOf(name: string): TransportProtocol {
    if name == TransportName(Ssl) then Ssl else RawBuffer
  }

  /** ... and chains that can be confused tie for some connection. */
  lemma ConfusableMeansTie(a: ChainMatch, b: ChainMatch, longest: nat) returns (conn: Connection)
    requires Confusable(a, b)
    requires ShortNames(a.serverNames, longest) && ShortNames(b.serverNames, longest) && 2 * longest < U32_MAX
    ensures ValidConnection(conn) && Tied(a, b, conn)
  {
    var destinationPort := if a.destinationPort.Some? then a.destinationPort.value else 0;
    var destination := RangeTie(a.destinationRanges, b.destinationRanges);
    var name := NameTie(a.serverNames, b.serverNames, longest);
    var source := RangeTie(a.sourceRanges, b.sourceRanges);
    var port := PortTie(a, b);
    conn := Connection(destinationPort, destination, Some(name), TransportOf(a.transportProtocol), source, port);
    DestinationTies(a, b, conn);
    ServerTies(a, b, conn);
    SourceTies(a, b, conn);
    TiedIf(a, b, conn);
  }

  // ---------------------------------------------------------------- configurations without ties

  ghost predicate Ambiguous(chains: seq<ChainMatch>, conn: Connection) {
    exists i: nat, j: nat :: i < j && Winner(chains, conn, i) && Winner(chains, conn, j)
  }

  /** If no two chains of a configuration can be confused, no connection is ambiguous ... */
  lemma Unambiguous(chains: seq<ChainMatch>, conn: Connection)
    requires ValidConnection(conn) && Ambiguous(chains, conn)
    ensures exists x, y :: 0 <= x < y < |chains| && Confusable(chains[x], chains[y])
  {
    var i: nat, j: nat :| i < j && Winner(chains, conn, i) && Winner(chains, conn, j);
    TieIff(chains, conn, i, j);
    TieMeansConfusable(chains[i], chains[j], conn);
  }

  /** ... and for two chains that is exact: some connection is ambiguous if and only if they can be confused. */
  lemma AmbiguousPairIff(a: ChainMatch, b: ChainMatch, longest: nat)
    requires ShortNames(a.serverNames, longest) && ShortNames(b.serverNames, longest) && 2 * longest < U32_MAX
    ensures (exists conn: Connection :: ValidConnection(conn) && Ambiguous([a, b], conn)) <==> Confusable(a, b)
  {
    if conn: Connection :| ValidConnection(conn) && Ambiguous([a, b], conn) {
      Unambiguous([a, b], conn);
    }
    if Confusable(a, b) {
      var conn := ConfusableMeansTie(a, b, longest);
      TiedPair(a, b, conn);
    }
  }

  lemma TiedPair(a: ChainMatch, b: ChainMatch, conn: Connection)
    requires Tied(a, b, conn)
    ensures Ambiguous([a, b], conn)
  {
    LexReflexive(Scores(a, conn, CRITERIA));
    var chains := [a, b];
    assert Winner(chains, conn, 0) && Winner(chains, conn, 1);
  }
}
