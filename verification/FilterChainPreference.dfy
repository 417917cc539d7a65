/**
  Which of two filter chains is preferred for a connection, in terms of the rules that they state
  (orion-configuration/src/config/listener.rs, lines 227-348, and orion-lib/src/listeners/listener.rs, lines 439-490).

  In each criterion a chain whose rule is met comes before one that states no rule, and that before one whose rule is
  not met.  Of two ranges that contain the address the longer one counts, of two names the more specific one.
 */
module FilterChainPreference {
  import opened Arithmetic
  import opened FilterChainSelection
  import opened MatchSpecificity
  import opened Wrappers

  // ---------------------------------------------------------------- one criterion

  ghost predicate BetterPort(a: Option<nat>, b: Option<nat>, port: nat) {
    || (a == Some(port) && b != Some(port))
    || (a == None && b != None && b != Some(port))
  }

  ghost predicate BetterRanges(a: seq<IpNet>, b: seq<IpNet>, ip: Address)
    requires (forall i | 0 <= i < |a| :: NetOk(a[i])) && (forall i | 0 <= i < |b| :: NetOk(b[i]))
  {
    || (exists i | 0 <= i < |a| :: Contains(a[i], ip) && LongerThanAll(a[i], b, ip))
    || (a == [] && b != [] && forall j | 0 <= j < |b| :: !Contains(b[j], ip))
  }

  ghost predicate LongerThanAll(range: IpNet, ranges: seq<IpNet>, ip: Address)
    requires forall i | 0 <= i < |ranges| :: NetOk(ranges[i])
  {
    forall j | 0 <= j < |ranges| && Contains(ranges[j], ip) :: range.prefixLen > ranges[j].prefixLen
  }

  ghost predicate BetterNames(a: seq<ServerNameMatch>, b: seq<ServerNameMatch>, name: string) {
    || (exists i | 0 <= i < |a| :: Covers(a[i], name) && MoreSpecificThanAll(a[i], b, name))
    || (a == [] && b != [] && forall j | 0 <= j < |b| :: !Covers(b[j], name))
  }

  ghost predicate MoreSpecificThanAll(rule: ServerNameMatch, rules: seq<ServerNameMatch>, name: string) {
    forall j | 0 <= j < |rules| && Covers(rules[j], name) :: MoreSpecific(rule, rules[j])
  }

  ghost predicate BetterTransport(a: string, b: string, transport: TransportProtocol) {
    var name := if transport == RawBuffer then "raw_buffer" else "ssl";
    (a == name && b != name) || (a == "" && b != "" && b != name)
  }

  ghost predicate BetterSourcePort(a: seq<nat>, b: seq<nat>, port: nat) {
    (port in a && port !in b) || (a == [] && b != [] && port !in b)
  }

  lemma PortIff(a: ChainMatch, b: ChainMatch, port: nat)
    ensures Cmp(MatchesDestinationPort(a, port), MatchesDestinationPort(b, port)) == Greater <==>
              BetterPort(a.destinationPort, b.destinationPort, port)
  {
  }

  lemma TransportIff(a: ChainMatch, b: ChainMatch, transport: TransportProtocol)
    ensures Cmp(MatchesTransport(a, transport), MatchesTransport(b, transport)) == Greater <==>
              BetterTransport(a.transportProtocol, b.transportProtocol, transport)
  {
  }

  lemma SourcePortIff(a: ChainMatch, b: ChainMatch, port: nat)
    ensures Cmp(MatchesSourcePort(a, port), MatchesSourcePort(b, port)) == Greater <==>
              BetterSourcePort(a.sourcePorts, b.sourcePorts, port)
  {
  }

  /** The range of a list that answers: the longest that contains the address. */
  lemma LongestRange(ranges: seq<IpNet>, ip: Address) returns (i: nat)
    requires (forall k | 0 <= k < |ranges| :: NetOk(ranges[k])) && MatchesIp(ranges, ip).Matched?
    ensures i < |ranges| && Contains(ranges[i], ip)
    ensures MatchesIp(ranges, ip) == Matched(Width(ip.family) - ranges[i].prefixLen)
    ensures forall j | 0 <= j < |ranges| && Contains(ranges[j], ip) :: ranges[j].prefixLen <= ranges[i].prefixLen
  {
    BestRangeIsLongest(ranges, ip);
    i :| 0 <= i < |ranges| && MatchRanges(ranges, ip)[i] == MatchesIp(ranges, ip);
  }

  lemma RangesIff(a: seq<IpNet>, b: seq<IpNet>, ip: Address)
    requires (forall i | 0 <= i < |a| :: NetOk(a[i])) && (forall i | 0 <= i < |b| :: NetOk(b[i]))
    ensures Cmp(MatchesIp(a, ip), MatchesIp(b, ip)) == Greater <==> BetterRanges(a, b, ip)
  {
    BestRangeIsLongest(a, ip);
    BestRangeIsLongest(b, ip);
    if MatchesIp(a, ip).Matched? {
      var i := LongestRange(a, ip);
      if MatchesIp(b, ip).Matched? {
        var j := LongestRange(b, ip);
        assert LongerThanAll(a[i], b, ip) <==> a[i].prefixLen > b[j].prefixLen;
      } else {
        assert LongerThanAll(a[i], b, ip);
      }
    }
  }

  /** The rule of a list that answers: the most specific that covers the name. */
  lemma MostSpecificName(rules: seq<ServerNameMatch>, name: string) returns (i: nat)
    requires (forall k | 0 <= k < |rules| :: RuleOk(rules[k])) && MatchesServerName(rules, name).Matched?
    requires |name| <= U32_MAX
    ensures i < |rules| && Covers(rules[i], name) && MatchesServerName(rules, name) == MatchName(rules[i], name)
    ensures forall j | 0 <= j < |rules| && Covers(rules[j], name) :: !MoreSpecific(rules[j], rules[i])
  {
    i :| 0 <= i < |rules| && MatchNames(rules, name)[i] == MatchesServerName(rules, name);
    MatchIffCovers(rules[i], name);
    BestNameAt(rules, name, i);
  }

  /** Of two rules that cover a name, one is more specific exactly when it scores lower. */
  lemma ScoresLowerIff(a: ServerNameMatch, b: ServerNameMatch, name: string)
    requires RuleOk(a) && RuleOk(b) && Covers(a, name) && Covers(b, name) && |name| <= U32_MAX
    ensures MatchName(a, name).Matched? && MatchName(b, name).Matched?
    ensures MoreSpecific(a, b) <==> MatchName(a, name).score < MatchName(b, name).score
  {
    MatchIffCovers(a, name);
    MatchIffCovers(b, name);
    if MoreSpecific(a, b) {
      SpecificScoresLower(a, b, name);
    } else if MatchName(a, name).score < MatchName(b, name).score {
      NotEqualScores(a, b, name);
    }
  }

  lemma NamesIff(a: seq<ServerNameMatch>, b: seq<ServerNameMatch>, name: string)
    requires (forall i | 0 <= i < |a| :: RuleOk(a[i])) && (forall i | 0 <= i < |b| :: RuleOk(b[i]))
    requires |name| <= U32_MAX
    ensures Cmp(MatchesServerName(a, name), MatchesServerName(b, name)) == Greater <==> BetterNames(a, b, name)
  {
    FailedIffNoneCovers(a, name);
    FailedIffNoneCovers(b, name);
    if MatchesServerName(a, name).Matched? {
      var i := MostSpecificName(a, name);
      if MatchesServerName(b, name).Matched? {
        var j := MostSpecificName(b, name);
        BetterThanBest(a, i, b, j, name);
      } else {
        assert MoreSpecificThanAll(a[i], b, name);
      }
    }
  }

  lemma BetterThanBest(a: seq<ServerNameMatch>, i: nat, b: seq<ServerNameMatch>, j: nat, name: string)
    requires (forall k | 0 <= k < |a| :: RuleOk(a[k])) && (forall k | 0 <= k < |b| :: RuleOk(b[k]))
    requires |name| <= U32_MAX && i < |a| && j < |b| && Covers(a[i], name) && Covers(b[j], name)
    requires forall k | 0 <= k < |a| && Covers(a[k], name) :: !MoreSpecific(a[k], a[i])
    requires forall k | 0 <= k < |b| && Covers(b[k], name) :: !MoreSpecific(b[k], b[j])
    ensures MatchName(a[i], name).Matched? && MatchName(b[j], name).Matched?
    ensures BetterNames(a, b, name) <==> MatchName(a[i], name).score < MatchName(b[j], name).score
  {
    ScoresLowerIff(a[i], b[j], name);
    if MoreSpecific(a[i], b[j]) {
      forall k | 0 <= k < |b| && Covers(b[k], name) ensures MoreSpecific(a[i], b[k]) {
        ScoresLowerIff(a[i], b[j], name);
        ScoresLowerIff(b[k], b[j], name);
        ScoresLowerIff(a[i], b[k], name);
      }
      assert MoreSpecificThanAll(a[i], b, name);
    }
    if BetterNames(a, b, name) {
      var k :| 0 <= k < |a| && Covers(a[k], name) && MoreSpecificThanAll(a[k], b, name);
      ScoresLowerIff(a[k], b[j], name);
      ScoresLowerIff(a[k], a[i], name);
    }
  }

  // ---------------------------------------------------------------- all six criteria

  /** The first criterion in which one of the two chains is better decides. */
  ghost predicate Preferred(a: ChainMatch, b: ChainMatch, conn: Connection) {
    || BetterPort(a.destinationPort, b.destinationPort, conn.destinationPort)
    || (!BetterPort(b.destinationPort, a.destinationPort, conn.destinationPort) &&
        (|| BetterRanges(a.destinationRanges, b.destinationRanges, conn.destinationIp)
         || (!BetterRanges(b.destinationRanges, a.destinationRanges, conn.destinationIp) &&
             PreferredByName(a, b, conn))))
  }

  ghost predicate PreferredByName(a: ChainMatch, b: ChainMatch, conn: Connection) {
    var name := if conn.serverName.Some? then conn.serverName.value else "";
    || BetterNames(a.serverNames, b.serverNames, name)
    || (!BetterNames(b.serverNames, a.serverNames, name) &&
        (|| BetterTransport(a.transportProtocol, b.transportProtocol, conn.transport)
         || (!BetterTransport(b.transportProtocol, a.transportProtocol, conn.transport) &&
             PreferredBySource(a, b, conn))))
  }

  ghost predicate PreferredBySource(a: ChainMatch, b: ChainMatch, conn: Connection) {
    || BetterRanges(a.sourceRanges, b.sourceRanges, conn.sourceIp)
    || (!BetterRanges(b.sourceRanges, a.sourceRanges, conn.sourceIp) &&
        BetterSourcePort(a.sourcePorts, b.sourcePorts, conn.sourcePort))
  }

  lemma NotLess(x: MatchResult, y: MatchResult)
    ensures Cmp(x, y) == Less <==> Cmp(y, x) == Greater
  {
    TotalOrder(x, y, y);
  }

  lemma BeatsInSourceIff(a: ChainMatch, b: ChainMatch, conn: Connection)
    ensures BeatsInSource(a, b, conn) <==>
              || BetterTransport(a.transportProtocol, b.transportProtocol, conn.transport)
              || (!BetterTransport(b.transportProtocol, a.transportProtocol, conn.transport) &&
                  PreferredBySource(a, b, conn))
  {
    TransportIff(a, b, conn.transport);
    TransportIff(b, a, conn.transport);
    NotLess(MatchesTransport(a, conn.transport), MatchesTransport(b, conn.transport));
    RangesIff(a.sourceRanges, b.sourceRanges, conn.sourceIp);
    RangesIff(b.sourceRanges, a.sourceRanges, conn.sourceIp);
    NotLess(MatchesIp(a.sourceRanges, conn.sourceIp), MatchesIp(b.sourceRanges, conn.sourceIp));
    SourcePortIff(a, b, conn.sourcePort);
  }

  /** One chain beats another exactly when the rules that the two state make it the preferred one. */
  lemma BeatsIff(a: ChainMatch, b: ChainMatch, conn: Connection)
    requires |ServerName(conn)| <= U32_MAX
    ensures Beats(a, b, conn) <==> Preferred(a, b, conn)
  {
    PortIff(a, b, conn.destinationPort);
    PortIff(b, a, conn.destinationPort);
    NotLess(MatchesDestinationPort(a, conn.destinationPort), MatchesDestinationPort(b, conn.destinationPort));
    RangesIff(a.destinationRanges, b.destinationRanges, conn.destinationIp);
    RangesIff(b.destinationRanges, a.destinationRanges, conn.destinationIp);
    NotLess(MatchesIp(a.destinationRanges, conn.destinationIp), MatchesIp(b.destinationRanges, conn.destinationIp));
    NamesIff(a.serverNames, b.serverNames, ServerName(conn));
    NamesIff(b.serverNames, a.serverNames, ServerName(conn));
    NotLess(MatchesServerName(a.serverNames, ServerName(conn)), MatchesServerName(b.serverNames, ServerName(conn)));
    BeatsInSourceIff(a, b, conn);
  }

  /** A chain is selectable exactly when the connection meets all its rules and the rules of no chain make that one the
      preferred one. */
  lemma SelectableIff(chains: seq<ChainMatch>, conn: Connection, i: nat)
    requires |ServerName(conn)| <= U32_MAX
    ensures Winner(chains, conn, i) <==>
              && i < |chains|
              && Satisfies(chains[i], conn)
              && forall j | 0 <= j < |chains| :: !Preferred(chains[j], chains[i], conn)
  {
    WinnerIff(chains, conn, i);
    if i < |chains| {
      forall j | 0 <= j < |chains|
        ensures Beats(chains[j], chains[i], conn) <==> Preferred(chains[j], chains[i], conn)
      {
        BeatsIff(chains[j], chains[i], conn);
      }
    }
  }
}
