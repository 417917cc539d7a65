/**
  How specific a filter-chain criterion matches a connection (orion-configuration/src/config/listener.rs): the order
  of match results, server names with wildcards, and CIDR ranges.

  Names are ASCII text, where characters and bytes coincide.
 */
module MatchSpecificity {
  import opened Arithmetic
  import opened Ascii
  import opened Wrappers

  // ---------------------------------------------------------------- the order of match results

  datatype MatchResult = FailedMatch | NoRule | Matched(score: nat)

  datatype Ordering = Less | Equal | Greater

  function Compare(x: nat, y: nat): Ordering {
    if x < y then Less else if x == y then Equal else Greater
  }

  /** A lower score is a better match; any match is better than no rule, and no rule better than a failed match. */
  function Cmp(a: MatchResult, b: MatchResult): Ordering {
    match (a, b)
    case (Matched(x), Matched(y)) => Compare(y, x)
    case (FailedMatch, FailedMatch) => Equal
    case (NoRule, NoRule) => Equal
    case (Matched(_), _) => Greater
    case (NoRule, FailedMatch) => Greater
    case (_, Matched(_)) => Less
    case (FailedMatch, NoRule) => Less
  }

  predicate AtMost(a: MatchResult, b: MatchResult) {
    Cmp(a, b) != Greater
  }

  /** The comparison is the total order in which a failed match comes last, no rule next, and then the matches, the
      lower score being the better one. */
  lemma TotalOrder(a: MatchResult, b: MatchResult, c: MatchResult)
    ensures Cmp(a, b) == Greater <==>
              || (a.Matched? && (b.Matched? ==> a.score < b.score))
              || (a.NoRule? && b.FailedMatch?)
    ensures Cmp(a, b) == Equal <==> a == b
    ensures Cmp(a, b) == Less <==> Cmp(b, a) == Greater
    ensures AtMost(a, b) || AtMost(b, a)
    ensures AtMost(a, b) && AtMost(b, c) ==> AtMost(a, c)
  {
  }

  /** The best of the results of a list of rules, `NoRule` for an empty list. */
  function Best(results: seq<MatchResult>): (r: MatchResult)
    ensures results == [] ==> r == NoRule
    ensures results != [] ==> r in results
    ensures forall i | 0 <= i < |results| :: AtMost(results[i], r)
  {
    if results == [] then NoRule
    else
      var n := |results| - 1;
      var best := Best(results[..n]);
      if n == 0 || AtMost(best, results[n]) then results[n] else best
  }

  // ---------------------------------------------------------------- server names

  datatype ServerNameMatch = ServerNameMatch(name: string, matchSubdomains: bool)

  /** Only a leading `*.` is a wildcard; the rule keeps the dot. */
  function FromStr(s: string): Option<ServerNameMatch> {
    var wildcard := |s| >= 2 && s[0] == '*' && s[1] == '.';
    var rest := if wildcard then s[1..] else s;
    if '*' in rest then None else Some(ServerNameMatch(LowerAll(rest), wildcard))
  }

  /** What every parsed rule has: no star, and a wildcard rule starts at a dot. */
  predicate RuleOk(rule: ServerNameMatch) {
    rule.matchSubdomains ==> rule.name != [] && rule.name[0] == '.'
  }

  lemma ParsedRulesAreOk(s: string)
    requires FromStr(s).Some?
    ensures RuleOk(FromStr(s).value)
  {
  }

  predicate EndsWith(s: string, suffix: string) {
    |suffix| <= |s| && s[|s| - |suffix|..] == suffix
  }

  function Dots(s: string): (n: nat)
    ensures n <= |s|
  {
    if s == [] then 0 else Dots(s[..|s| - 1]) + (if s[|s| - 1] == '.' then 1 else 0)
  }

  /** The number of positions that hold a dot. */
  lemma {:induction false} DotsAre(s: string)
    ensures Dots(s) == |set i | 0 <= i < |s| && s[i] == '.'|
  {
    if s != [] {
      var front := s[..|s| - 1];
      DotsAre(front);
      var before := set i | 0 <= i < |front| && front[i] == '.';
      var all := set i | 0 <= i < |s| && s[i] == '.';
      assert all == if s[|s| - 1] == '.' then before + {|s| - 1} else before;
    }
  }

  function Saturate(n: nat): nat {
    if n <= U32_MAX then n else U32_MAX
  }

  /** The score of a wildcard is the number of dots up to and including the one that the rule starts with. */
  function MatchName(rule: ServerNameMatch, serverName: string): MatchResult
    requires RuleOk(rule)
  {
    if rule.matchSubdomains then
      if EndsWith(serverName, rule.name) then
        Matched(Saturate(Dots(serverName[..|serverName| - (|rule.name| - 1)])))
      else FailedMatch
    else if serverName == rule.name then Matched(0)
    else FailedMatch
  }

  function MatchNames(rules: seq<ServerNameMatch>, serverName: string): (r: seq<MatchResult>)
    requires forall i | 0 <= i < |rules| :: RuleOk(rules[i])
    ensures |r| == |rules| && forall i | 0 <= i < |rules| :: r[i] == MatchName(rules[i], serverName)
  {
    seq(|rules|, i requires 0 <= i < |rules| => MatchName(rules[i], serverName))
  }

  /** The match of a server name against a chain's list of names. */
  function MatchesServerName(rules: seq<ServerNameMatch>, serverName: string): MatchResult
    requires forall i | 0 <= i < |rules| :: RuleOk(rules[i])
  {
    Best(MatchNames(rules, serverName))
  }

  /** The names a rule stands for: its own name, or any text in front of its dotted suffix. */
  ghost predicate Covers(rule: ServerNameMatch, serverName: string) {
    if rule.matchSubdomains then exists p: string :: serverName == p + rule.name
    else serverName == rule.name
  }

  /** A text parses exactly when it has no star but that of a leading `*.`.  The rule then covers the names that end in
      the lower-case text behind the star, or the one name that is the lower-case text. */
  lemma ParsedRule(s: string, serverName: string, lower: string)
    requires InLowerCase(s, lower)
    ensures FromStr(s).Some? <==> (if "*." <= s then '*' !in s[1..] else '*' !in s)
    ensures FromStr(s).Some? && "*." <= s ==>
              (Covers(FromStr(s).value, serverName) <==> exists p: string :: serverName == p + lower[1..])
    ensures FromStr(s).Some? && !("*." <= s) ==> (Covers(FromStr(s).value, serverName) <==> serverName == lower)
  {
    assert "*." <= s <==> |s| >= 2 && s[0] == '*' && s[1] == '.';
    if "*." <= s {
      LowerAllIff(s[1..], lower[1..]);
    } else {
      LowerAllIff(s, lower);
    }
  }

  lemma MatchIffCovers(rule: ServerNameMatch, serverName: string)
    requires RuleOk(rule)
    ensures MatchName(rule, serverName).Matched? <==> Covers(rule, serverName)
    ensures !MatchName(rule, serverName).NoRule?
  {
    if rule.matchSubdomains {
      if EndsWith(serverName, rule.name) {
        var k := |serverName| - |rule.name|;
        assert serverName == serverName[..k] + rule.name;
      }
      if Covers(rule, serverName) {
        var p: string :| serverName == p + rule.name;
        assert serverName[|p|..] == rule.name;
      }
    }
  }

  /** One rule is more specific than another: an exact name than a wildcard, a longer wildcard than a shorter one. */
  ghost predicate MoreSpecific(a: ServerNameMatch, b: ServerNameMatch) {
    b.matchSubdomains && (!a.matchSubdomains || |a.name| > |b.name|)
  }

  lemma DotsAppend(s: string, t: string)
    ensures Dots(s + t) == Dots(s) + Dots(t)
  {
    if t == [] {
      assert s + t == s;
    } else {
      var n := |t| - 1;
      DotsAppend(s, t[..n]);
      assert (s + t)[..|s + t| - 1] == s + t[..n];
    }
  }

  lemma DotsOfFirst(s: string)
    requires s != [] && s[0] == '.'
    ensures Dots(s) >= 1
  {
    DotsAppend([s[0]], s[1..]);
    assert [s[0]] + s[1..] == s;
  }

  /** The dots in front of a matching wildcard, counting its own. */
  lemma WildcardScore(rule: ServerNameMatch, serverName: string)
    requires RuleOk(rule) && rule.matchSubdomains && EndsWith(serverName, rule.name) && |serverName| <= U32_MAX
    ensures MatchName(rule, serverName) == Matched(Dots(serverName[..|serverName| - |rule.name|]) + 1)
  {
    var k := |serverName| - |rule.name|;
    assert serverName[k] == rule.name[0];
    assert serverName[..k + 1][..k] == serverName[..k];
  }

  /** Of two matching rules the more specific one has the strictly lower score. */
  lemma SpecificScoresLower(a: ServerNameMatch, b: ServerNameMatch, serverName: string)
    requires RuleOk(a) && RuleOk(b) && MoreSpecific(a, b) && |serverName| <= U32_MAX
    requires MatchName(a, serverName).Matched? && MatchName(b, serverName).Matched?
    ensures MatchName(a, serverName).score < MatchName(b, serverName).score
  {
    WildcardScore(b, serverName);
    if a.matchSubdomains {
      WildcardScore(a, serverName);
      var k, m := |serverName| - |a.name|, |serverName| - |b.name|;
      var middle := serverName[k..m];
      assert serverName[..m] == serverName[..k] + middle;
      DotsAppend(serverName[..k], middle);
      assert middle[0] == serverName[k..][0] == a.name[0];
      DotsOfFirst(middle);
    }
  }

  /** Matching rules with the same score are the same rule. */
  lemma SameScoreSameRule(a: ServerNameMatch, b: ServerNameMatch, serverName: string)
    requires RuleOk(a) && RuleOk(b) && |serverName| <= U32_MAX
    requires MatchName(a, serverName).Matched? && MatchName(a, serverName) == MatchName(b, serverName)
    ensures a == b
  {
    if MoreSpecific(a, b) {
      SpecificScoresLower(a, b, serverName);
    } else if MoreSpecific(b, a) {
      SpecificScoresLower(b, a, serverName);
    }
  }

  lemma FailedIffNoneCovers(rules: seq<ServerNameMatch>, serverName: string)
    requires forall i | 0 <= i < |rules| :: RuleOk(rules[i])
    ensures MatchesServerName(rules, serverName).NoRule? <==> rules == []
    ensures MatchesServerName(rules, serverName).FailedMatch? <==>
              rules != [] && forall i | 0 <= i < |rules| :: !Covers(rules[i], serverName)
  {
    var results := MatchNames(rules, serverName);
    forall i | 0 <= i < |rules| ensures (results[i].Matched? <==> Covers(rules[i], serverName)) && !results[i].NoRule? {
      MatchIffCovers(rules[i], serverName);
    }
  }

  /** A matching name gets the score of the most specific rule that covers it. */
  lemma BestNameIsMostSpecific(rules: seq<ServerNameMatch>, serverName: string)
    requires forall i | 0 <= i < |rules| :: RuleOk(rules[i])
    requires |serverName| <= U32_MAX
    ensures MatchesServerName(rules, serverName).NoRule? <==> rules == []
    ensures MatchesServerName(rules, serverName).FailedMatch? <==>
              rules != [] && forall i | 0 <= i < |rules| :: !Covers(rules[i], serverName)
    ensures forall i | 0 <= i < |rules| && Covers(rules[i], serverName) ::
              MatchesServerName(rules, serverName) == MatchName(rules[i], serverName) <==>
                forall j | 0 <= j < |rules| && Covers(rules[j], serverName) :: !MoreSpecific(rules[j], rules[i])
  {
    FailedIffNoneCovers(rules, serverName);
    forall i | 0 <= i < |rules| && Covers(rules[i], serverName)
      ensures MatchesServerName(rules, serverName) == MatchName(rules[i], serverName) <==>
                forall j | 0 <= j < |rules| && Covers(rules[j], serverName) :: !MoreSpecific(rules[j], rules[i])
    {
      BestNameAt(rules, serverName, i);
    }
  }

  lemma BestNameAt(rules: seq<ServerNameMatch>, serverName: string, i: nat)
    requires i < |rules| && forall i | 0 <= i < |rules| :: RuleOk(rules[i])
    requires |serverName| <= U32_MAX && Covers(rules[i], serverName)
    ensures MatchesServerName(rules, serverName) == MatchName(rules[i], serverName) <==>
              forall j | 0 <= j < |rules| && Covers(rules[j], serverName) :: !MoreSpecific(rules[j], rules[i])
  {
    var results := MatchNames(rules, serverName);
    var best := Best(results);
    MatchIffCovers(rules[i], serverName);
    if best == results[i] {
      forall j | 0 <= j < |rules| && Covers(rules[j], serverName) ensures !MoreSpecific(rules[j], rules[i]) {
        MatchIffCovers(rules[j], serverName);
        assert AtMost(results[j], best);
        if MoreSpecific(rules[j], rules[i]) {
          SpecificScoresLower(rules[j], rules[i], serverName);
        }
      }
    } else {
      var j :| 0 <= j < |results| && results[j] == best;
      assert AtMost(results[i], best);
      MatchIffCovers(rules[j], serverName);
      NotEqualScores(rules[j], rules[i], serverName);
    }
  }

  /** Of two matching rules, the one that scores lower is the more specific one. */
  lemma NotEqualScores(a: ServerNameMatch, b: ServerNameMatch, serverName: string)
    requires RuleOk(a) && RuleOk(b) && |serverName| <= U32_MAX
    requires MatchName(a, serverName).Matched? && MatchName(b, serverName).Matched?
    requires MatchName(a, serverName).score < MatchName(b, serverName).score
    ensures MoreSpecific(a, b)
  {
    if MoreSpecific(b, a) {
      SpecificScoresLower(b, a, serverName);
    }
  }

  // ---------------------------------------------------------------- CIDR ranges

  datatype Family = V4 | V6

  function Width(family: Family): nat {
    if family == V4 then 32 else 128
  }

  datatype Address = Address(family: Family, bits: nat)

  datatype IpNet = IpNet(family: Family, addr: nat, prefixLen: nat)

  predicate NetOk(net: IpNet) {
    net.prefixLen <= Width(net.family)
  }

  /** The number of addresses of a range. */
  function Block(net: IpNet): (b: nat)
    requires NetOk(net)
    ensures b > 0
  {
    Pow2Positive(Width(net.family) - net.prefixLen);
    Pow2(Width(net.family) - net.prefixLen)
  }

  function Network(net: IpNet): int
    requires NetOk(net)
  {
    net.addr - net.addr % Block(net)
  }

  function Broadcast(net: IpNet): int
    requires NetOk(net)
  {
    Network(net) + Block(net) - 1
  }

  /** A range holds the addresses of its own family from its network to its broadcast address. */
  predicate Contains(net: IpNet, ip: Address)
    requires NetOk(net)
  {
    net.family == ip.family && Network(net) <= ip.bits <= Broadcast(net)
  }

  function MatchRange(net: IpNet, ip: Address): MatchResult
    requires NetOk(net)
  {
    if Contains(net, ip) then Matched(Width(ip.family) - net.prefixLen) else FailedMatch
  }

  function MatchRanges(ranges: seq<IpNet>, ip: Address): (r: seq<MatchResult>)
    requires forall i | 0 <= i < |ranges| :: NetOk(ranges[i])
    ensures |r| == |ranges| && forall i | 0 <= i < |ranges| :: r[i] == MatchRange(ranges[i], ip)
  {
    seq(|ranges|, i requires 0 <= i < |ranges| => MatchRange(ranges[i], ip))
  }

  /** The match of an address against a chain's list of ranges. */
  function MatchesIp(ranges: seq<IpNet>, ip: Address): MatchResult
    requires forall i | 0 <= i < |ranges| :: NetOk(ranges[i])
  {
    Best(MatchRanges(ranges, ip))
  }

  /** A range contains an address exactly when the two agree above the block. */
  lemma ContainsIff(net: IpNet, ip: Address)
    requires NetOk(net) && net.family == ip.family
    ensures Contains(net, ip) <==> ip.bits / Block(net) == net.addr / Block(net)
  {
    SameBlock(net.addr, ip.bits, Block(net));
  }

  lemma SameBlock(a: nat, x: nat, b: nat)
    requires b > 0
    ensures a - a % b <= x <= a - a % b + b - 1 <==> x / b == a / b
  {
    DivMod(a, b);
    DivMod(x, b);
    if x / b == a / b {
    } else if x / b < a / b {
      MulMono(b, x / b + 1, a / b);
      MulSucc(b, x / b);
    } else {
      MulMono(b, a / b + 1, x / b);
      MulSucc(b, a / b);
    }
  }

  /** Agreement above a small block gives agreement above a larger one. */
  lemma CoarserBlock(x: nat, y: nat, b: nat, m: nat)
    requires b > 0 && m > 0 && x / b == y / b
    ensures b * m > 0 && x / (b * m) == y / (b * m)
  {
    MulMono(b, 1, m);
    DivideTwice(x, b, m);
    DivideTwice(y, b, m);
  }

  lemma DivideTwice(x: nat, b: nat, m: nat)
    requires b > 0 && m > 0
    ensures b * m > 0 && x / (b * m) == (x / b) / m
  {
    MulMono(b, 1, m);
    DivMod(x, b);
    DivMod(x / b, m);
    var q, r := (x / b) / m, (x / b) % m;
    MulMono(b, r + 1, m);
    MulSucc(b, r);
    Expand(b, m, q, r);
    UniqueMod(x, b * m, q, b * r + x % b);
  }

  /** Bit `i` of a number, counted from the lowest one. */
  ghost function Bit(x: nat, i: nat): nat {
    Pow2Positive(i);
    x / Pow2(i) % 2
  }

  /** Numbers agree above a block exactly when all their bits from there on do. */
  lemma {:induction false} SameHighBits(x: nat, y: nat, low: nat, high: nat)
    requires low <= high && x < Pow2(high) && y < Pow2(high) && Pow2(low) > 0
    ensures x / Pow2(low) == y / Pow2(low) <==> forall i | low <= i < high :: Bit(x, i) == Bit(y, i)
    decreases high - low
  {
    if low == high {
      SmallQuotient(x, Pow2(low));
      SmallQuotient(y, Pow2(low));
    } else {
      Pow2Positive(low + 1);
      SameHighBits(x, y, low + 1, high);
      LowestBit(x, low);
      LowestBit(y, low);
    }
  }

  lemma SmallQuotient(x: nat, b: nat)
    requires x < b
    ensures x / b == 0
  {
  }

  lemma LowestBit(x: nat, i: nat)
    requires Pow2(i) > 0 && Pow2(i + 1) > 0
    ensures x / Pow2(i) == 2 * (x / Pow2(i + 1)) + Bit(x, i)
  {
    DivideTwice(x, Pow2(i), 2);
    assert Pow2(i + 1) == Pow2(i) * 2;
    DivMod(x / Pow2(i), 2);
  }

  /** A range contains an address of its family exactly when the leading bits, as many as its prefix says, agree. */
  lemma PrefixBits(net: IpNet, ip: Address)
    requires NetOk(net)
    requires var width := if net.family == V4 then 32 else 128; net.addr < Pow2(width) && ip.bits < Pow2(width)
    ensures var width := if net.family == V4 then 32 else 128;
            Contains(net, ip) <==>
              && net.family == ip.family
              && forall i | width - net.prefixLen <= i < width :: Bit(ip.bits, i) == Bit(net.addr, i)
  {
    if net.family == ip.family {
      var width := if net.family == V4 then 32 else 128;
      ContainsIff(net, ip);
      Pow2Positive(width - net.prefixLen);
      SameHighBits(ip.bits, net.addr, width - net.prefixLen, width);
    }
  }

  lemma Expand(b: nat, m: nat, q: nat, r: nat)
    ensures b * (m * q + r) == (b * m) * q + b * r
  {
    MulAssoc(b, m, q);
  }

  /** Of two ranges that contain the same address, the one with the longer prefix lies inside the other. */
  lemma RangesNest(a: IpNet, b: IpNet, ip: Address, other: Address)
    requires NetOk(a) && NetOk(b) && Contains(a, ip) && Contains(b, ip) && a.prefixLen >= b.prefixLen
    requires Contains(a, other)
    ensures Contains(b, other)
  {
    ContainsIff(a, ip);
    ContainsIff(b, ip);
    ContainsIff(a, other);
    ContainsIff(b, other);
    var m := Pow2(a.prefixLen - b.prefixLen);
    Pow2Positive(a.prefixLen - b.prefixLen);
    Pow2Add(Width(a.family) - a.prefixLen, a.prefixLen - b.prefixLen);
    CoarserBlock(ip.bits, other.bits, Block(a), m);
  }

  /** The score is the width less the longest prefix that contains the address. */
  lemma BestRangeIsLongest(ranges: seq<IpNet>, ip: Address)
    requires forall i | 0 <= i < |ranges| :: NetOk(ranges[i])
    ensures MatchesIp(ranges, ip).NoRule? <==> ranges == []
    ensures MatchesIp(ranges, ip).FailedMatch? <==>
              ranges != [] && forall i | 0 <= i < |ranges| :: !Contains(ranges[i], ip)
    ensures forall i | 0 <= i < |ranges| && Contains(ranges[i], ip) ::
              MatchesIp(ranges, ip) == Matched(Width(ip.family) - ranges[i].prefixLen) <==>
                forall j | 0 <= j < |ranges| && Contains(ranges[j], ip) :: ranges[j].prefixLen <= ranges[i].prefixLen
  {
    var results := MatchRanges(ranges, ip);
    forall i | 0 <= i < |ranges| && Contains(ranges[i], ip)
      ensures Best(results) == results[i] <==>
                forall j | 0 <= j < |ranges| && Contains(ranges[j], ip) :: ranges[j].prefixLen <= ranges[i].prefixLen
    {
      if Best(results) == results[i] {
        forall j | 0 <= j < |ranges| && Contains(ranges[j], ip) ensures ranges[j].prefixLen <= ranges[i].prefixLen {
          assert AtMost(results[j], Best(results));
        }
      } else {
        var j :| 0 <= j < |results| && results[j] == Best(results);
        assert AtMost(results[i], results[j]);
      }
    }
  }
}
