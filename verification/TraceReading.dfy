/**
  What the texts and headers of a trace context mean, header by header and digit by digit
  (orion-tracing/src/trace_info.rs, lines 178-292).
 */
module TraceReading {
  import opened Arithmetic
  import opened Ascii
  import opened Trace
  import opened Wrappers

  // ---------------------------------------------------------------- numbers

  ghost predicate IsHexDigit(c: char) {
    '0' <= c <= '9' || 'a' <= c <= 'f' || 'A' <= c <= 'F'
  }

  /** The sixteen digits, of either case, and the one that is printed. */
  lemma DigitIff(c: char, d: nat)
    requires d < 16
    ensures DigitValue(c) == Some(d) <==> c == "0123456789abcdef"[d] || c == "0123456789ABCDEF"[d]
    ensures HexDigit(d) == "0123456789abcdef"[d]
  {
  }

  /** A digit is worth sixteen times the one behind it. */
  lemma {:induction false} PlaceValue(s: string, t: string)
    requires DigitsValue(s).Some? && DigitsValue(t).Some?
    ensures DigitsValue(s + t) == Some(DigitsValue(s).value * Pow16(|t|) + DigitsValue(t).value)
  {
    if t == [] {
      assert s + t == s;
    } else {
      var front, last := t[..|t| - 1], t[|t| - 1];
      PlaceValue(s, front);
      assert t == front + [last];
      DigitsAfter(s, front, last, DigitsValue(s + front).value, DigitValue(last).value);
      Shifted(DigitsValue(s).value, Pow16(|front|));
    }
  }

  lemma Shifted(v: nat, p: nat)
    ensures 16 * (v * p) == v * (16 * p)
  {
  }

  /** A text of digits has a value exactly when all of them are hexadecimal digits, of either case. */
  lemma {:induction false} DigitsIff(s: string)
    ensures DigitsValue(s).Some? <==> forall i | 0 <= i < |s| :: IsHexDigit(s[i])
  {
    if s != [] {
      DigitsIff(s[..|s| - 1]);
    }
  }

  /** The case of the digits does not matter. */
  lemma {:induction false} EitherCase(s: string, lower: string)
    requires InLowerCase(s, lower)
    ensures DigitsValue(s) == DigitsValue(lower)
  {
    if s != [] {
      EitherCase(s[..|s| - 1], lower[..|s| - 1]);
    }
  }

  /** A number is read from at least one digit, behind a plus sign or not, if it is below the bound. */
  lemma NumberIff(s: string, bound: nat, v: nat)
    ensures FromStrRadix(s, bound) == Some(v) <==>
              var digits := if s != "" && s[0] == '+' then s[1..] else s;
              digits != "" && DigitsValue(digits) == Some(v) && v < bound
  {
  }

  // ---------------------------------------------------------------- texts with separators

  /** Joining undoes splitting, and no part holds the separator: every text is a join of such fields. */
  lemma {:induction false} JoinSplit(s: string, sep: char)
    ensures Join(Split(s, sep), sep) == s
    ensures forall i | 0 <= i < |Split(s, sep)| :: Without(Split(s, sep)[i], sep)
  {
    if s != [] {
      JoinSplit(s[1..], sep);
      var rest := Split(s[1..], sep);
      if s[0] == sep {
        assert ([[]] + rest)[1..] == rest;
        assert [] + ([sep] + s[1..]) == s;
      } else {
        JoinPrefix([s[0]], rest, sep);
        assert [s[0]] + s[1..] == s;
      }
    }
  }

  lemma JoinPrefix(p: string, parts: seq<string>, sep: char)
    requires parts != []
    ensures Join([p + parts[0]] + parts[1..], sep) == p + Join(parts, sep)
  {
    var prefixed := [p + parts[0]] + parts[1..];
    assert prefixed[1..] == parts[1..];
    if |parts| > 1 {
      Associate(p, parts[0], [sep] + Join(parts[1..], sep));
    }
  }

  ghost predicate SampledText(s: string, sampled: bool) {
    s == if sampled then "1" else "0"
  }

  ghost predicate UberFields(fields: seq<string>, info: Info) {
    && |fields| == 4 && info.provider == Uber && info.spanId.Some? && info.parentId.Some?
    && FromStrRadix(fields[0], 0x1_0000_0000_0000_0000_0000_0000_0000_0000) == Some(info.traceId)
    && FromStrRadix(fields[1], 0x1_0000_0000_0000_0000) == info.spanId
    && FromStrRadix(fields[2], 0x1_0000_0000_0000_0000) == info.parentId
    && SampledText(fields[3], info.sampled)
  }

  lemma UberPartsIff(fields: seq<string>, info: Info)
    ensures ReadUberParts(fields) == Some(info) <==> UberFields(fields, info)
  {
  }

  /** The Uber header has exactly four fields: the trace id, the span id, the parent id and the flag. */
  lemma UberIff(fields: seq<string>, info: Info)
    requires fields != [] && forall i | 0 <= i < |fields| :: Without(fields[i], ':')
    ensures ReadUber(Join(fields, ':')) == Some(info) <==> UberFields(fields, info)
  {
    SplitJoin(fields, ':');
    UberPartsIff(fields, info);
  }

  ghost predicate B3Fields(fields: seq<string>, info: Info) {
    && |fields| >= 3 && info.provider == B3 && info.spanId.Some?
    && FromStrRadix(fields[0], 0x1_0000_0000_0000_0000_0000_0000_0000_0000) == Some(info.traceId)
    && FromStrRadix(fields[1], 0x1_0000_0000_0000_0000) == info.spanId
    && SampledText(fields[2], info.sampled)
    && (if |fields| == 4 then info.parentId.Some? && FromStrRadix(fields[3], 0x1_0000_0000_0000_0000) == info.parentId
        else info.parentId == None)
  }

  lemma B3PartsIff(fields: seq<string>, info: Info)
    ensures ReadB3Parts(fields) == Some(info) <==> B3Fields(fields, info)
  {
  }

  /** The B3 header has at least three fields: the trace id, the span id and the flag.  A fourth is the parent id; with
      more than four there is no parent. */
  lemma B3Iff(fields: seq<string>, info: Info)
    requires fields != [] && forall i | 0 <= i < |fields| :: Without(fields[i], '-')
    ensures ReadB3(Join(fields, '-')) == Some(info) <==> B3Fields(fields, info)
  {
    SplitJoin(fields, '-');
    B3PartsIff(fields, info);
  }

  // ---------------------------------------------------------------- headers

  /** The four B3 headers: the parent may be missing, and a flag that is missing or unreadable means not sampled. */
  lemma MultiIff(trace: Value, span: Value, parent: Option<Value>, sampled: Option<Value>, info: Info)
    ensures ReadMulti(trace, span, parent, sampled) == Some(info) <==>
              && info.provider == B3Multi && trace.Text? && span.Text? && info.spanId.Some?
              && FromStrRadix(trace.text, 0x1_0000_0000_0000_0000_0000_0000_0000_0000) == Some(info.traceId)
              && FromStrRadix(span.text, 0x1_0000_0000_0000_0000) == info.spanId
              && (match parent
                  case None => info.parentId == None
                  case Some(Opaque) => false
                  case Some(Text(id)) =>
                    info.parentId.Some? && FromStrRadix(id, 0x1_0000_0000_0000_0000) == info.parentId)
              && (match sampled
                  case Some(Text(flag)) => SampledText(flag, info.sampled)
                  case _ => !info.sampled)
  {
  }

  /** The first format whose header is there decides: traceparent, then the Uber header, then B3, as far as they are
      readable text, then the B3 headers for the trace and the span id, which come together or not at all. */
  lemma FirstFormatDecides(headers: Headers, traceparent: Traceparser)
    ensures var r := Extract(headers, traceparent);
            if Readable(headers, Traceparent) then
              match traceparent(headers[Traceparent].text)
              case None => r == Err(InvalidFormat)
              case Some((trace, span, sampled)) =>
                r == Ok(Some(Info(trace, Some(span), None, W3CTraceContext, sampled)))
            else if Readable(headers, UberTraceId) then IsRead(r, ReadUber(headers[UberTraceId].text))
            else if Readable(headers, B3Single) then IsRead(r, ReadB3(headers[B3Single].text))
            else if XB3TraceId in headers && XB3SpanId in headers then
              IsRead(r, ReadMulti(headers[XB3TraceId], headers[XB3SpanId], Header(headers, XB3ParentSpanId),
                                  Header(headers, XB3Sampled)))
            else if XB3TraceId in headers then r == Err(MissingSpanId)
            else if XB3SpanId in headers then r == Err(MissingTraceId)
            else r == Ok(None)
  {
  }

  ghost predicate Readable(headers: Headers, name: Name) {
    name in headers && headers[name] != Opaque
  }

  ghost function Header(headers: Headers, name: Name): Option<Value> {
    if name in headers then Some(headers[name]) else None
  }

  /** A header that is there is either read, or an error. */
  ghost predicate IsRead(r: Result<Option<Info>, TraceError>, info: Option<Info>) {
    if info.None? then r == Err(InvalidFormat) else r == Ok(info)
  }
}
