/**
  Trace headers: printing, parsing and propagation over hops (orion-tracing/src/trace_info.rs).

  Header values are either visible text or opaque bytes that cannot be read as a string.  The W3C traceparent parser
  is foreign code and appears as a function parameter; new span ids are parameters.
 */
module Trace {
  import opened Arithmetic
  import opened Ascii
  import opened Wrappers

  datatype Provider = W3CTraceContext | B3 | B3Multi | Uber

  datatype Info = Info(traceId: nat, spanId: Option<nat>, parentId: Option<nat>, provider: Provider, sampled: bool)

  datatype TraceError = InvalidFormat | InvalidHeaderValue | MissingSpanId | MissingTraceId

  datatype Name =
    | Traceparent | UberTraceId | B3Single | XB3TraceId | XB3SpanId | XB3ParentSpanId | XB3Sampled | Other(id: nat)

  datatype Value = Text(text: string) | Opaque

  type Headers = map<Name, Value>

  // ---------------------------------------------------------------- hexadecimal numbers

  function Pow16(w: nat): (p: nat)
    ensures p > 0
  {
    if w == 0 then 1 else 16 * Pow16(w - 1)
  }

  /** A span id has 16 hexadecimal digits and a trace id 32. */
  lemma IdDigits()
    ensures Pow16(16) == U64 && Pow16(32) == U128
  {
    FourDigits(0);
    FourDigits(4);
    FourDigits(8);
    FourDigits(12);
    FourDigits(16);
    FourDigits(20);
    FourDigits(24);
    FourDigits(28);
  }

  lemma FourDigits(w: nat)
    ensures Pow16(w + 4) == 0x1_0000 * Pow16(w)
  {
    assert Pow16(w + 2) == 16 * Pow16(w + 1);
    assert Pow16(w + 4) == 16 * Pow16(w + 3);
  }

  function HexDigit(d: nat): char
    requires d < 16
  {
    if d < 10 then '0' + (d as char) else 'a' + ((d - 10) as char)
  }

  function DigitValue(c: char): Option<nat> {
    if '0' <= c <= '9' then Some(c as nat - '0' as nat)
    else if 'a' <= c <= 'f' then Some(c as nat - 'a' as nat + 10)
    else if 'A' <= c <= 'F' then Some(c as nat - 'A' as nat + 10)
    else None
  }

  /** The shortest lower-case form. */
  function LowerHex(n: nat): (s: string)
    ensures s != []
  {
    if n < 16 then [HexDigit(n)] else LowerHex(n / 16) + [HexDigit(n % 16)]
  }

  function Zeros(k: nat): string {
    if k == 0 then [] else Zeros(k - 1) + ['0']
  }

  /** The form padded with zeros to at least `width` digits. */
  function Padded(n: nat, width: nat): string {
    var s := LowerHex(n);
    if |s| < width then Zeros(width - |s|) + s else s
  }

  function DigitsValue(s: string): Option<nat> {
    if s == [] then Some(0)
    else
      match DigitsValue(s[..|s| - 1])
      case None => None
      case Some(v) =>
        match DigitValue(s[|s| - 1])
        case None => None
        case Some(d) => Some(16 * v + d)
  }

  /** Reads a number below `bound`: an optional plus sign and at least one digit of either case. */
  function FromStrRadix(s: string, bound: nat): Option<nat> {
    if s == [] then None
    else
      var digits := if s[0] == '+' then s[1..] else s;
      if digits == [] then None
      else
        match DigitsValue(digits)
        case None => None
        case Some(v) => if v < bound then Some(v) else None
  }

  lemma {:induction false} LowerHexLength(n: nat, w: nat)
    requires n < Pow16(w) && w > 0
    ensures |LowerHex(n)| <= w
  {
    if n >= 16 {
      LowerHexLength(n / 16, w - 1);
    }
  }

  predicate IsLowerHex(c: char) {
    '0' <= c <= '9' || 'a' <= c <= 'f'
  }

  ghost predicate AllHex(s: string) {
    forall i | 0 <= i < |s| :: IsLowerHex(s[i])
  }

  lemma AllHexAppend(s: string, t: string)
    requires AllHex(s) && AllHex(t)
    ensures AllHex(s + t)
  {
  }

  lemma {:induction false} LowerHexIsHex(n: nat)
    ensures AllHex(LowerHex(n))
  {
    if n >= 16 {
      LowerHexIsHex(n / 16);
      AllHexAppend(LowerHex(n / 16), [HexDigit(n % 16)]);
    }
  }

  lemma {:induction false} ZerosAreHex(k: nat)
    ensures |Zeros(k)| == k && AllHex(Zeros(k))
  {
    if k > 0 {
      ZerosAreHex(k - 1);
      AllHexAppend(Zeros(k - 1), ['0']);
    }
  }

  lemma DigitsSnoc(s: string, c: char, v: nat, d: nat)
    requires DigitsValue(s) == Some(v) && DigitValue(c) == Some(d)
    ensures DigitsValue(s + [c]) == Some(16 * v + d)
  {
    assert (s + [c])[..|s|] == s;
  }

  lemma {:induction false} ZerosAreZero(k: nat)
    ensures DigitsValue(Zeros(k)) == Some(0)
  {
    if k > 0 {
      ZerosAreZero(k - 1);
      DigitsSnoc(Zeros(k - 1), '0', 0, 0);
    }
  }

  lemma DigitsAfter(s: string, t: string, c: char, v: nat, d: nat)
    requires DigitsValue(s + t) == Some(v) && DigitValue(c) == Some(d)
    ensures DigitsValue(s + (t + [c])) == Some(16 * v + d)
  {
    DigitsSnoc(s + t, c, v, d);
    Associate(s, t, [c]);
  }

  lemma {:induction false} DigitsAfterZeros(k: nat, n: nat)
    ensures DigitsValue(Zeros(k) + LowerHex(n)) == Some(n)
  {
    if n < 16 {
      ZerosAreZero(k);
      DigitsSnoc(Zeros(k), HexDigit(n), 0, n);
    } else {
      DigitsAfterZeros(k, n / 16);
      DivMod(n, 16);
      DigitsAfter(Zeros(k), LowerHex(n / 16), HexDigit(n % 16), n / 16, n % 16);
    }
  }

  /** A number that fits the width prints in exactly that many hexadecimal digits. */
  lemma PaddedFacts(n: nat, width: nat)
    requires n < Pow16(width) && width > 0
    ensures |Padded(n, width)| == width && AllHex(Padded(n, width))
  {
    var s := LowerHex(n);
    LowerHexLength(n, width);
    LowerHexIsHex(n);
    ZerosAreHex(width - |s|);
    AllHexAppend(Zeros(width - |s|), s);
  }

  /** Printing and reading back. */
  lemma HexRoundTrip(n: nat, width: nat, bound: nat)
    requires n < Pow16(width) && width > 0 && n < bound
    ensures FromStrRadix(Padded(n, width), bound) == Some(n)
  {
    var s := LowerHex(n);
    var k := if |s| < width then width - |s| else 0;
    PaddedFacts(n, width);
    DigitsAfterZeros(k, n);
    assert Padded(n, width) == Zeros(k) + s;
  }

  // ---------------------------------------------------------------- splitting and joining

  function Split(s: string, sep: char): (parts: seq<string>)
    ensures parts != []
  {
    if s == [] then [[]]
    else
      var rest := Split(s[1..], sep);
      if s[0] == sep then [[]] + rest else [[s[0]] + rest[0]] + rest[1..]
  }

  function Join(fields: seq<string>, sep: char): string
    requires fields != []
  {
    if |fields| == 1 then fields[0] else fields[0] + ([sep] + Join(fields[1..], sep))
  }

  ghost predicate Without(s: string, sep: char) {
    forall i | 0 <= i < |s| :: s[i] != sep
  }

  /** Prefixing a text with characters other than the separator prefixes its first part. */
  lemma {:induction false} SplitPrefix(p: string, s: string, sep: char)
    requires Without(p, sep)
    ensures Split(p + s, sep) == PrefixFirst(p, Split(s, sep))
  {
    if p == [] {
      PrefixNothing(Split(s, sep));
      assert p + s == s;
    } else {
      SplitPrefix(p[1..], s, sep);
      assert (p + s)[1..] == p[1..] + s;
      assert [p[0]] + (p[1..] + Split(s, sep)[0]) == p + Split(s, sep)[0];
    }
  }

  ghost function PrefixFirst(p: string, parts: seq<string>): seq<string>
    requires parts != []
  {
    [p + parts[0]] + parts[1..]
  }

  lemma PrefixNothing(parts: seq<string>)
    requires parts != []
    ensures PrefixFirst([], parts) == parts
  {
    assert [] + parts[0] == parts[0];
  }

  /** Splitting undoes joining. */
  lemma {:induction false} SplitJoin(fields: seq<string>, sep: char)
    requires fields != [] && forall i | 0 <= i < |fields| :: Without(fields[i], sep)
    ensures Split(Join(fields, sep), sep) == fields
  {
    var p := fields[0];
    if |fields| == 1 {
      SplitPrefix(p, [], sep);
      assert p + [] == p;
    } else {
      var rest := Join(fields[1..], sep);
      SplitJoin(fields[1..], sep);
      SplitPrefix(p, [sep] + rest, sep);
      assert ([sep] + rest)[1..] == rest;
      assert p + [] == p;
    }
  }

  // ---------------------------------------------------------------- printing

  ghost predicate Valid(info: Info) {
    && info.traceId < U128
    && (info.spanId.Some? ==> info.spanId.value < U64)
    && (info.parentId.Some? ==> info.parentId.value < U64)
  }

  function OrZero(id: Option<nat>): nat {
    if id.Some? then id.value else 0
  }

  function Flag(b: bool): string {
    if b then ['1'] else ['0']
  }

  function Separator(provider: Provider): char {
    if provider == Uber then ':' else '-'
  }

  function Fields(info: Info): (fields: seq<string>)
    ensures 3 <= |fields| <= 4
  {
    var trace := Padded(info.traceId, 32);
    var span := Padded(OrZero(info.spanId), 16);
    var parent := Padded(OrZero(info.parentId), 16);
    match info.provider
    case W3CTraceContext => [['0', '0'], trace, span, ['0'] + Flag(info.sampled)]
    case Uber => [trace, span, parent, Flag(info.sampled)]
    case _ =>
      if info.parentId.Some? then [trace, span, Flag(info.sampled), parent] else [trace, span, Flag(info.sampled)]
  }

  /** The text form of a trace context. */
  function Display(info: Info): string {
    Join(Fields(info), Separator(info.provider))
  }

  // ---------------------------------------------------------------- reading

  function ReadFlag(s: string): Option<bool> {
    if s == ['1'] then Some(true) else if s == ['0'] then Some(false) else None
  }

  ghost function ReadUber(text: string): Option<Info> {
    ReadUberParts(Split(text, ':'))
  }

  ghost function ReadUberParts(parts: seq<string>): Option<Info> {
    if |parts| != 4 then None
    else
      var trace, span, parent := FromStrRadix(parts[0], U128), FromStrRadix(parts[1], U64), FromStrRadix(parts[2], U64);
      var sampled := ReadFlag(parts[3]);
      if trace.None? || span.None? || parent.None? || sampled.None? then None
      else Some(Info(trace.value, span, parent, Uber, sampled.value))
  }

  ghost function ReadB3(text: string): Option<Info> {
    ReadB3Parts(Split(text, '-'))
  }

  ghost function ReadB3Parts(parts: seq<string>): Option<Info> {
    if |parts| < 3 then None
    else
      var trace, span := FromStrRadix(parts[0], U128), FromStrRadix(parts[1], U64);
      var sampled := ReadFlag(parts[2]);
      if trace.None? || span.None? || sampled.None? then None
      else if |parts| == 4 then
        var parent := FromStrRadix(parts[3], U64);
        if parent.None? then None else Some(Info(trace.value, span, parent, B3, sampled.value))
      else Some(Info(trace.value, span, None, B3, sampled.value))
  }

  ghost function ReadId(v: Value, bound: nat): Option<nat> {
    if v.Text? then FromStrRadix(v.text, bound) else None
  }

  ghost function ReadMulti(trace: Value, span: Value, parent: Option<Value>, sampled: Option<Value>): Option<Info> {
    var t, s := ReadId(trace, U128), ReadId(span, U64);
    var p := if parent.Some? then ReadId(parent.value, U64) else None;
    var f := if sampled.Some? && sampled.value.Text? then ReadFlag(sampled.value.text) else Some(false);
    if t.None? || s.None? || (parent.Some? && p.None?) || f.None? then None
    else Some(Info(t.value, s, p, B3Multi, f.value))
  }

  function Get(headers: Headers, name: Name): Option<Value> {
    if name in headers then Some(headers[name]) else None
  }

  /** Whether a header is there and readable as text; an unreadable one counts as absent for the single-header
      formats. */
  predicate HasText(headers: Headers, name: Name) {
    name in headers && headers[name].Text?
  }

  /** The header or headers that the context is read from. */
  datatype Carrier =
    | OneTraceparent(text: string)
    | OneUber(text: string)
    | OneB3(text: string)
    | Multi(trace: Value, span: Value, parent: Option<Value>, sampled: Option<Value>)
    | NoSpanId
    | NoTraceId
    | NoContext

  /** Looks for traceparent first, then the Uber header, then B3, then the four B3 headers. */
  function Find(headers: Headers): Carrier {
    if HasText(headers, Traceparent) then OneTraceparent(headers[Traceparent].text)
    else if HasText(headers, UberTraceId) then OneUber(headers[UberTraceId].text)
    else if HasText(headers, B3Single) then OneB3(headers[B3Single].text)
    else if XB3TraceId in headers then
      if XB3SpanId in headers then
        Multi(headers[XB3TraceId], headers[XB3SpanId], Get(headers, XB3ParentSpanId), Get(headers, XB3Sampled))
      else NoSpanId
    else if XB3SpanId in headers then NoTraceId
    else NoContext
  }

  function Checked(info: Option<Info>): Result<Option<Info>, TraceError> {
    if info.Some? then Ok(info) else Err(InvalidFormat)
  }

  type Traceparser = string -> Option<(nat, nat, bool)>

  /** A traceparent parser that answers ids in their ranges, and reads the text form of a context whose ids are not
      zero; a zero id is not valid in that format. */
  ghost predicate Faithful(traceparent: Traceparser) {
    && (forall text :: traceparent(text).Some? ==> traceparent(text).value.0 < U128 && traceparent(text).value.1 < U64)
    && (forall info: Info | info.provider == W3CTraceContext && Traceable(info) ::
          traceparent(Display(info)) == Some((info.traceId, info.spanId.value, info.sampled)))
  }

  /** The ids are in range, and those that a traceparent header carries are not zero. */
  ghost predicate Traceable(info: Info) {
    Valid(info) && info.traceId != 0 && info.spanId.Some? && info.spanId.value != 0
  }

  ghost function Read(carrier: Carrier, traceparent: Traceparser): Result<Option<Info>, TraceError> {
    match carrier
    case OneTraceparent(text) =>
      var tp := traceparent(text);
      Checked(if tp.None? then None else Some(Info(tp.value.0, Some(tp.value.1), None, W3CTraceContext, tp.value.2)))
    case OneUber(text) => Checked(ReadUber(text))
    case OneB3(text) => Checked(ReadB3(text))
    case Multi(trace, span, parent, sampled) => Checked(ReadMulti(trace, span, parent, sampled))
    case NoSpanId => Err(MissingSpanId)
    case NoTraceId => Err(MissingTraceId)
    case NoContext => Ok(None)
  }

  /** Reads the trace context of a request. */
  ghost function Extract(headers: Headers, traceparent: Traceparser): Result<Option<Info>, TraceError> {
    Read(Find(headers), traceparent)
  }

  // ---------------------------------------------------------------- what is printed reads back

  lemma HexHasNoSeparator(s: string)
    requires AllHex(s)
    ensures Without(s, '-') && Without(s, ':')
  {
  }

  /** At most 32 hexadecimal digits. */
  ghost predicate Short(s: string) {
    AllHex(s) && |s| <= 32
  }

  lemma IdIsShort(id: Option<nat>)
    requires id.Some? ==> id.value < U64
    ensures Short(Padded(OrZero(id), 16)) && |Padded(OrZero(id), 16)| == 16
  {
    IdDigits();
    PaddedFacts(OrZero(id), 16);
  }

  lemma TraceIdIsShort(id: nat)
    requires id < U128
    ensures Short(Padded(id, 32))
  {
    IdDigits();
    PaddedFacts(id, 32);
  }

  lemma FlagIsShort(b: bool)
    ensures Short(Flag(b)) && Short(['0'] + Flag(b)) && Short(['0', '0'])
  {
  }

  lemma IdReadsBack(id: Option<nat>)
    requires id.Some? ==> id.value < U64
    ensures FromStrRadix(Padded(OrZero(id), 16), U64) == Some(OrZero(id))
  {
    IdDigits();
    HexRoundTrip(OrZero(id), 16, U64);
  }

  lemma TraceIdReadsBack(id: nat)
    requires id < U128
    ensures FromStrRadix(Padded(id, 32), U128) == Some(id)
  {
    IdDigits();
    HexRoundTrip(id, 32, U128);
  }

  lemma FourShort(a: string, b: string, c: string, d: string)
    requires Short(a) && Short(b) && Short(c) && Short(d)
    ensures forall i | 0 <= i < 4 :: Short([a, b, c, d][i])
    ensures forall i | 0 <= i < 3 :: Short([a, b, c][i])
  {
  }

  lemma FieldsAreShort(info: Info)
    requires Valid(info)
    ensures forall i | 0 <= i < |Fields(info)| :: Short(Fields(info)[i])
  {
    TraceIdIsShort(info.traceId);
    IdIsShort(info.spanId);
    IdIsShort(info.parentId);
    FlagIsShort(info.sampled);
    var trace := Padded(info.traceId, 32);
    var span := Padded(OrZero(info.spanId), 16);
    var parent := Padded(OrZero(info.parentId), 16);
    match info.provider {
      case W3CTraceContext => FourShort(['0', '0'], trace, span, ['0'] + Flag(info.sampled));
      case Uber => FourShort(trace, span, parent, Flag(info.sampled));
      case _ => FourShort(trace, span, Flag(info.sampled), parent);
    }
  }

  lemma SplitDisplay(info: Info)
    requires Valid(info)
    ensures Split(Display(info), Separator(info.provider)) == Fields(info)
  {
    FieldsAreShort(info);
    forall i | 0 <= i < |Fields(info)| ensures Without(Fields(info)[i], Separator(info.provider)) {
      HexHasNoSeparator(Fields(info)[i]);
    }
    SplitJoin(Fields(info), Separator(info.provider));
  }

  /** The smallest parser that meets what is asked of a traceparent parser: the four fields of the text form. */
  ghost function PlainTraceparser(text: string): Option<(nat, nat, bool)> {
    var parts := Split(text, '-');
    if |parts| != 4 || |parts[3]| != 2 then None
    else
      var trace, span, sampled := FromStrRadix(parts[1], U128), FromStrRadix(parts[2], U64), ReadFlag(parts[3][1..]);
      if trace.None? || span.None? || sampled.None? then None else Some((trace.value, span.value, sampled.value))
  }

  lemma PlainReads(info: Info)
    requires info.provider == W3CTraceContext && Traceable(info)
    ensures PlainTraceparser(Display(info)) == Some((info.traceId, info.spanId.value, info.sampled))
  {
    SplitDisplay(info);
    TraceIdReadsBack(info.traceId);
    IdReadsBack(info.spanId);
    assert (['0'] + Flag(info.sampled))[1..] == Flag(info.sampled);
  }

  /** There are such parsers. */
  lemma PlainIsFaithful()
    ensures Faithful(PlainTraceparser)
  {
    forall info: Info | info.provider == W3CTraceContext && Traceable(info)
      ensures PlainTraceparser(Display(info)) == Some((info.traceId, info.spanId.value, info.sampled))
    {
      PlainReads(info);
    }
  }

  lemma UberPartsReadBack(trace: string, span: string, parent: string, t: nat, s: nat, p: nat, f: bool)
    requires FromStrRadix(trace, U128) == Some(t) && FromStrRadix(span, U64) == Some(s)
    requires FromStrRadix(parent, U64) == Some(p)
    ensures ReadUberParts([trace, span, parent, Flag(f)]) == Some(Info(t, Some(s), Some(p), Uber, f))
  {
  }

  lemma B3PartsReadBack(trace: string, span: string, parent: string, t: nat, s: nat, p: nat, f: bool)
    requires FromStrRadix(trace, U128) == Some(t) && FromStrRadix(span, U64) == Some(s)
    requires FromStrRadix(parent, U64) == Some(p)
    ensures ReadB3Parts([trace, span, Flag(f), parent]) == Some(Info(t, Some(s), Some(p), B3, f))
    ensures ReadB3Parts([trace, span, Flag(f)]) == Some(Info(t, Some(s), None, B3, f))
  {
  }

  lemma UberReadsBack(info: Info)
    requires Valid(info) && info.provider == Uber
    ensures ReadUber(Display(info)) ==
            Some(info.(spanId := Some(OrZero(info.spanId)), parentId := Some(OrZero(info.parentId))))
  {
    SplitDisplay(info);
    TraceIdReadsBack(info.traceId);
    IdReadsBack(info.spanId);
    IdReadsBack(info.parentId);
    UberPartsReadBack(Padded(info.traceId, 32), Padded(OrZero(info.spanId), 16), Padded(OrZero(info.parentId), 16),
                      info.traceId, OrZero(info.spanId), OrZero(info.parentId), info.sampled);
  }

  lemma B3ReadsBack(info: Info)
    requires Valid(info) && info.provider == B3
    ensures ReadB3(Display(info)) == Some(info.(spanId := Some(OrZero(info.spanId))))
  {
    SplitDisplay(info);
    TraceIdReadsBack(info.traceId);
    IdReadsBack(info.spanId);
    IdReadsBack(info.parentId);
    B3PartsReadBack(Padded(info.traceId, 32), Padded(OrZero(info.spanId), 16), Padded(OrZero(info.parentId), 16),
                    info.traceId, OrZero(info.spanId), OrZero(info.parentId), info.sampled);
  }

  lemma MultiReadsBack(info: Info, trace: string, span: string, parent: Option<Value>, flag: string)
    requires info.provider == B3Multi && info.spanId.Some?
    requires FromStrRadix(trace, U128) == Some(info.traceId) && FromStrRadix(span, U64) == info.spanId
    requires info.parentId.Some? ==> parent.Some? && ReadId(parent.value, U64) == info.parentId
    requires ReadFlag(flag) == Some(info.sampled)
    ensures ReadMulti(Text(trace), Text(span), parent, Some(Text(flag))) == Some(info) <==>
              (info.parentId.None? ==> parent.None?)
  {
  }

  // ---------------------------------------------------------------- headers written and read back

  /** The headers with the trace context written in its provider's format. */
  function Updated(headers: Headers, info: Info): Headers {
    match info.provider
    case Uber => headers[UberTraceId := Text(Display(info))]
    case W3CTraceContext => headers[Traceparent := Text(Display(info))]
    case B3 => headers[B3Single := Text(Display(info))]
    case B3Multi =>
      var base := headers[XB3Sampled := Text(Flag(info.sampled))][XB3TraceId := Text(Padded(info.traceId, 32))];
      var spanned := if info.spanId.Some? then base[XB3SpanId := Text(Padded(info.spanId.value, 16))] else base;
      if info.parentId.Some? then spanned[XB3ParentSpanId := Text(Padded(info.parentId.value, 16))] else spanned
  }

  /** No header of a format that is read before the provider's own. */
  predicate Undisturbed(headers: Headers, provider: Provider) {
    match provider
    case W3CTraceContext => true
    case Uber => !HasText(headers, Traceparent)
    case B3 => !HasText(headers, Traceparent) && !HasText(headers, UberTraceId)
    case B3Multi =>
      !HasText(headers, Traceparent) && !HasText(headers, UberTraceId) && !HasText(headers, B3Single)
  }

  /** The headers can carry the context: nothing is read before it, and every id the format insists on is there.
      The traceparent header has no room for a parent, and the four-header format leaves a stale parent header in place
      when the context has no parent. */
  predicate Carries(headers: Headers, info: Info) {
    && Undisturbed(headers, info.provider)
    && info.spanId.Some?
    && (info.provider == W3CTraceContext ==> info.parentId.None?)
    && (info.provider == Uber ==> info.parentId.Some?)
    && (info.provider == B3Multi && info.parentId.None? ==> XB3ParentSpanId !in headers)
  }

  ghost predicate IsOf(carrier: Carrier, provider: Provider) {
    match provider
    case W3CTraceContext => carrier.OneTraceparent?
    case Uber => carrier.OneUber?
    case B3 => carrier.OneB3?
    case B3Multi => carrier.Multi?
  }

  /** The provider of a context tells which headers it was read from, and those leave its ids in range. */
  lemma ReadIsValid(carrier: Carrier, info: Info, traceparent: Traceparser)
    requires Read(carrier, traceparent) == Ok(Some(info)) && Faithful(traceparent)
    ensures IsOf(carrier, info.provider) && Valid(info) && info.spanId.Some?
    ensures info.provider == W3CTraceContext ==> info.parentId.None?
    ensures info.provider == Uber ==> info.parentId.Some?
  {
  }

  /** Where the written context is looked for. */
  lemma FindUpdated(headers: Headers, info: Info)
    requires Undisturbed(headers, info.provider)
    ensures info.provider == W3CTraceContext ==> Find(Updated(headers, info)) == OneTraceparent(Display(info))
    ensures info.provider == Uber ==> Find(Updated(headers, info)) == OneUber(Display(info))
    ensures info.provider == B3 ==> Find(Updated(headers, info)) == OneB3(Display(info))
    ensures info.provider == B3Multi && info.spanId.Some? ==>
              Find(Updated(headers, info)) ==
                Multi(Text(Padded(info.traceId, 32)), Text(Padded(info.spanId.value, 16)), WrittenParent(headers, info),
                      Some(Text(Flag(info.sampled))))
  {
  }

  function WrittenParent(headers: Headers, info: Info): Option<Value> {
    if info.parentId.Some? then Some(Text(Padded(info.parentId.value, 16))) else Get(headers, XB3ParentSpanId)
  }

  /** A header that is read before the provider's own hides what is written. */
  lemma FindDisturbed(headers: Headers, info: Info)
    requires !Undisturbed(headers, info.provider)
    ensures !IsOf(Find(Updated(headers, info)), info.provider)
  {
  }

  lemma MultiRoundTrip(headers: Headers, info: Info)
    requires Valid(info) && info.provider == B3Multi && info.spanId.Some?
    ensures ReadMulti(Text(Padded(info.traceId, 32)), Text(Padded(info.spanId.value, 16)), WrittenParent(headers, info),
                      Some(Text(Flag(info.sampled)))) == Some(info)
            <==> (info.parentId.None? ==> XB3ParentSpanId !in headers)
  {
    TraceIdReadsBack(info.traceId);
    IdReadsBack(info.spanId);
    IdReadsBack(info.parentId);
    MultiReadsBack(info, Padded(info.traceId, 32), Padded(info.spanId.value, 16), WrittenParent(headers, info),
                   Flag(info.sampled));
  }

  /** What is left of a context in the headers: the traceparent header drops the parent. */
  function Carried(info: Info): Info {
    if info.provider == W3CTraceContext then info.(parentId := None) else info
  }

  lemma TraceparentReadsBack(headers: Headers, info: Info, traceparent: Traceparser)
    requires info.provider == W3CTraceContext && Traceable(info) && Faithful(traceparent)
    ensures Extract(Updated(headers, info), traceparent) == Ok(Some(Carried(info)))
  {
    FindUpdated(headers, info);
  }

  lemma UndisturbedRoundTrip(headers: Headers, info: Info, traceparent: Traceparser)
    requires Valid(info) && Faithful(traceparent) && (info.provider == W3CTraceContext ==> Traceable(info))
    requires Undisturbed(headers, info.provider) && info.spanId.Some?
    ensures Extract(Updated(headers, info), traceparent) == Ok(Some(info)) <==> Carries(headers, info)
  {
    FindUpdated(headers, info);
    match info.provider {
      case W3CTraceContext => TraceparentReadsBack(headers, info, traceparent);
      case Uber => UberReadsBack(info);
      case B3 => B3ReadsBack(info);
      case B3Multi => MultiRoundTrip(headers, info);
    }
  }

  /** What is written is read back exactly when the headers can carry it. */
  lemma RoundTrip(headers: Headers, info: Info, traceparent: Traceparser)
    requires Valid(info) && Faithful(traceparent)
    requires info.provider == W3CTraceContext && info.spanId.Some? ==> Traceable(info)
    ensures Extract(Updated(headers, info), traceparent) == Ok(Some(info)) <==> Carries(headers, info)
  {
    if Extract(Updated(headers, info), traceparent) == Ok(Some(info)) {
      ReadIsValid(Find(Updated(headers, info)), info, traceparent);
      if !Undisturbed(headers, info.provider) {
        FindDisturbed(headers, info);
      } else {
        UndisturbedRoundTrip(headers, info, traceparent);
      }
    } else if Carries(headers, info) {
      UndisturbedRoundTrip(headers, info, traceparent);
    }
  }

  /** An extracted context has ids in range and a span id, and nothing was read before it. */
  lemma ExtractedIsValid(headers: Headers, info: Info, traceparent: Traceparser)
    requires Extract(headers, traceparent) == Ok(Some(info)) && Faithful(traceparent)
    ensures Valid(info) && info.spanId.Some? && Undisturbed(headers, info.provider)
  {
    ReadIsValid(Find(headers), info, traceparent);
  }

  // ---------------------------------------------------------------- a chain of hops

  /** The context of the next span; `newSpan` is its random id. */
  function IntoChild(info: Info, newSpan: nat): Info {
    info.(spanId := Some(newSpan), parentId := info.spanId)
  }

  /** One hop: read the context, start a child span, write it back. */
  ghost function Hop(headers: Headers, newSpan: nat, traceparent: Traceparser): Option<Headers> {
    match Extract(headers, traceparent)
    case Ok(Some(info)) => Some(Updated(headers, IntoChild(info, newSpan)))
    case _ => None
  }

  ghost function After(headers: Headers, spans: seq<nat>, traceparent: Traceparser): Option<Headers> {
    if spans == [] then Some(headers)
    else
      var n := |spans| - 1;
      match After(headers, spans[..n], traceparent)
      case None => None
      case Some(h) => Hop(h, spans[n], traceparent)
  }

  /** A span id that the format can carry. */
  ghost predicate Usable(span: nat, provider: Provider) {
    span < U64 && (provider == W3CTraceContext ==> span != 0)
  }

  lemma HopPropagates(headers: Headers, info: Info, newSpan: nat, traceparent: Traceparser)
    requires Extract(headers, traceparent) == Ok(Some(info)) && Faithful(traceparent) && Usable(newSpan, info.provider)
    requires info.provider == W3CTraceContext ==> info.traceId != 0
    ensures Hop(headers, newSpan, traceparent) == Some(Updated(headers, IntoChild(info, newSpan)))
    ensures Extract(Updated(headers, IntoChild(info, newSpan)), traceparent) ==
            Ok(Some(Carried(IntoChild(info, newSpan))))
  {
    ExtractedIsValid(headers, info, traceparent);
    if info.provider == W3CTraceContext {
      TraceparentReadsBack(headers, IntoChild(info, newSpan), traceparent);
    } else {
      RoundTrip(headers, IntoChild(info, newSpan), traceparent);
    }
  }

  /** The parent after the given spans: none in the traceparent format, else the span of the hop before. */
  ghost function ParentAfter(info: Info, spans: seq<nat>): Option<nat> {
    if info.provider == W3CTraceContext then None
    else if |spans| == 0 then info.parentId
    else if |spans| == 1 then info.spanId
    else Some(spans[|spans| - 2])
  }

  /** Over any number of hops the trace id, the sampled flag and the provider stay, the span id is that of the last hop,
      and the parent id, where the format has one, that of the hop before. */
  lemma {:induction false} Propagation(headers: Headers, info: Info, spans: seq<nat>, traceparent: Traceparser)
    requires Extract(headers, traceparent) == Ok(Some(info)) && Faithful(traceparent)
    requires info.provider == W3CTraceContext ==> info.traceId != 0
    requires forall k | 0 <= k < |spans| :: Usable(spans[k], info.provider)
    ensures var span := if spans == [] then info.spanId else Some(spans[|spans| - 1]);
            && After(headers, spans, traceparent).Some?
            && Extract(After(headers, spans, traceparent).value, traceparent)
               == Ok(Some(Info(info.traceId, span, ParentAfter(info, spans), info.provider, info.sampled)))
  {
    ReadIsValid(Find(headers), info, traceparent);
    if spans != [] {
      var n := |spans| - 1;
      Propagation(headers, info, spans[..n], traceparent);
      var before := After(headers, spans[..n], traceparent).value;
      HopPropagates(before, Extract(before, traceparent).value.value, spans[n], traceparent);
    }
  }

  // ---------------------------------------------------------------- fixed-size buffers

  function Concat(pieces: seq<string>): string {
    if pieces == [] then [] else pieces[0] + Concat(pieces[1..])
  }

  /** Writing pieces to a buffer of fixed capacity: the first piece that does not fit ends the writing. */
  function Buffered(capacity: nat, buffer: string, pieces: seq<string>): string
    decreases |pieces|
  {
    if pieces == [] || |buffer| + |pieces[0]| > capacity then buffer
    else Buffered(capacity, buffer + pieces[0], pieces[1..])
  }

  lemma {:induction false} NotTruncated(capacity: nat, buffer: string, pieces: seq<string>)
    requires |buffer| + |Concat(pieces)| <= capacity
    ensures Buffered(capacity, buffer, pieces) == buffer + Concat(pieces)
    decreases |pieces|
  {
    if pieces == [] {
      assert buffer + [] == buffer;
    } else {
      NotTruncated(capacity, buffer + pieces[0], pieces[1..]);
      Associate(buffer, pieces[0], Concat(pieces[1..]));
    }
  }

  /** The pieces that printing writes one after the other. */
  function Pieces(fields: seq<string>, sep: char): seq<string>
    requires fields != []
  {
    if |fields| == 1 then fields else [fields[0], [sep]] + Pieces(fields[1..], sep)
  }

  lemma ConcatTwo(a: string, b: string, rest: seq<string>)
    ensures Concat([a, b] + rest) == a + (b + Concat(rest))
  {
    assert ([a, b] + rest)[1..] == [b] + rest;
    assert ([b] + rest)[1..] == rest;
  }

  lemma {:induction false} PiecesJoin(fields: seq<string>, sep: char)
    requires fields != []
    ensures Concat(Pieces(fields, sep)) == Join(fields, sep)
  {
    if |fields| == 1 {
      assert fields[0] + [] == fields[0];
    } else {
      PiecesJoin(fields[1..], sep);
      ConcatTwo(fields[0], [sep], Pieces(fields[1..], sep));
    }
  }

  /** Visible text, which a header value accepts. */
  predicate Visible(s: string) {
    forall i | 0 <= i < |s| :: ' ' <= s[i] <= '~' || s[i] == '\t'
  }

  lemma VisibleAppend(s: string, t: string)
    requires Visible(s) && Visible(t)
    ensures Visible(s + t)
  {
  }

  lemma HexIsVisible(s: string)
    requires AllHex(s)
    ensures Visible(s)
  {
  }

  lemma ConcatOne(s: string)
    ensures Concat([s]) == s
  {
    assert s + [] == s;
  }

  lemma {:induction false} JoinFits(fields: seq<string>, sep: char, width: nat)
    requires fields != [] && (sep == '-' || sep == ':')
    requires forall i | 0 <= i < |fields| :: AllHex(fields[i])
    requires Widths(fields) + |fields| - 1 <= width
    ensures |Join(fields, sep)| <= width && Visible(Join(fields, sep))
  {
    HexIsVisible(fields[0]);
    if |fields| > 1 {
      JoinFits(fields[1..], sep, width - |fields[0]| - 1);
      VisibleAppend([sep], Join(fields[1..], sep));
      VisibleAppend(fields[0], [sep] + Join(fields[1..], sep));
    }
  }

  ghost function Widths(fields: seq<string>): nat {
    if fields == [] then 0 else |fields[0]| + Widths(fields[1..])
  }

  lemma WidthsCons(a: string, rest: seq<string>)
    ensures Widths([a] + rest) == |a| + Widths(rest)
  {
    assert ([a] + rest)[1..] == rest;
  }

  lemma WidthsOfThree(a: string, b: string, c: string)
    ensures Widths([a, b, c]) == |a| + |b| + |c|
  {
    WidthsCons(a, [b, c]);
    WidthsCons(b, [c]);
    WidthsCons(c, []);
    assert [a] + [b, c] == [a, b, c] && [b] + [c] == [b, c] && [c] + [] == [c];
  }

  lemma WidthsOfFour(a: string, b: string, c: string, d: string)
    ensures Widths([a, b, c, d]) == |a| + |b| + |c| + |d|
  {
    WidthsCons(a, [b, c, d]);
    WidthsOfThree(b, c, d);
    assert [a] + [b, c, d] == [a, b, c, d];
  }

  /** The text form never takes more than 68 of the buffer's 80 characters. */
  lemma DisplayFits(info: Info)
    requires Valid(info)
    ensures |Display(info)| <= 68 && Visible(Display(info))
  {
    FieldsAreShort(info);
    FieldWidths(info);
    JoinFits(Fields(info), Separator(info.provider), 68);
  }

  lemma FieldWidths(info: Info)
    requires Valid(info)
    ensures Widths(Fields(info)) + |Fields(info)| - 1 <= 68
  {
    TraceIdIsShort(info.traceId);
    IdIsShort(info.spanId);
    IdIsShort(info.parentId);
    var trace := Padded(info.traceId, 32);
    var span := Padded(OrZero(info.spanId), 16);
    var parent := Padded(OrZero(info.parentId), 16);
    match info.provider {
      case W3CTraceContext => WidthsOfFour(['0', '0'], trace, span, ['0'] + Flag(info.sampled));
      case Uber => WidthsOfFour(trace, span, parent, Flag(info.sampled));
      case _ =>
        WidthsOfFour(trace, span, Flag(info.sampled), parent);
        WidthsOfThree(trace, span, Flag(info.sampled));
    }
  }

  class HeaderMap {
    var entries: Headers

    constructor (headers: Headers)
      ensures entries == headers
    {
      entries := headers;
    }

    /** Prints the pieces into a buffer of the given capacity and inserts what is in the buffer. */
    method Insert(name: Name, capacity: nat, pieces: seq<string>) returns (ok: bool)
      modifies this
      ensures ok <==> Visible(Buffered(capacity, [], pieces))
      ensures entries == if ok then old(entries)[name := Text(Buffered(capacity, [], pieces))] else old(entries)
    {
      var buffer := Buffered(capacity, [], pieces);
      ok := Visible(buffer);
      if ok {
        entries := entries[name := Text(buffer)];
      }
    }

    /** Inserts a text that the buffer holds whole. */
    method InsertWhole(name: Name, capacity: nat, pieces: seq<string>, ghost text: string) returns (ok: bool)
      requires text == Concat(pieces) && |text| <= capacity && Visible(text)
      modifies this
      ensures ok && entries == old(entries)[name := Text(text)]
    {
      NotTruncated(capacity, [], pieces);
      assert [] + text == text;
      ok := Insert(name, capacity, pieces);
    }

    method InsertId(name: Name, capacity: nat, id: nat) returns (ok: bool)
      requires id < Pow16(capacity) && capacity > 0
      modifies this
      ensures ok && entries == old(entries)[name := Text(Padded(id, capacity))]
    {
      PaddedFacts(id, capacity);
      HexIsVisible(Padded(id, capacity));
      ConcatOne(Padded(id, capacity));
      ok := InsertWhole(name, capacity, [Padded(id, capacity)], Padded(id, capacity));
    }

    method InsertDisplay(name: Name, info: Info) returns (ok: bool)
      requires Valid(info)
      modifies this
      ensures ok && entries == old(entries)[name := Text(Display(info))]
    {
      DisplayFits(info);
      PiecesJoin(Fields(info), Separator(info.provider));
      ok := InsertWhole(name, 80, Pieces(Fields(info), Separator(info.provider)), Display(info));
    }

    /** Writes the trace context into the headers.  The buffers of 80, 32, 16 and 1 characters never cut anything. */
    method UpdateHeaders(info: Info) returns (r: Result<(), TraceError>)
      requires Valid(info)
      modifies this
      ensures r == Ok(()) && entries == Updated(old(entries), info)
    {
      var ok: bool;
      r := Ok(());
      match info.provider {
        case Uber => ok := InsertDisplay(UberTraceId, info);
        case W3CTraceContext => ok := InsertDisplay(Traceparent, info);
        case B3 => ok := InsertDisplay(B3Single, info);
        case B3Multi => UpdateMulti(info);
      }
    }

    method UpdateMulti(info: Info)
      requires Valid(info) && info.provider == B3Multi
      modifies this
      ensures entries == Updated(old(entries), info)
    {
      IdDigits();
      FlagIsShort(info.sampled);
      HexIsVisible(Flag(info.sampled));
      ConcatOne(Flag(info.sampled));
      var ok := InsertWhole(XB3Sampled, 1, [Flag(info.sampled)], Flag(info.sampled));
      ok := InsertId(XB3TraceId, 32, info.traceId);
      if info.spanId.Some? {
        ok := InsertId(XB3SpanId, 16, OrZero(info.spanId));
      }
      if info.parentId.Some? {
        ok := InsertId(XB3ParentSpanId, 16, OrZero(info.parentId));
      }
    }
  }
}
