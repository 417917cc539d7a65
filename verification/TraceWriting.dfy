/**
  What is written for a trace context, character by character and header by header
  (orion-tracing/src/trace_info.rs, lines 93-138 and 294-324).
 */
module TraceWriting {
  import opened Arithmetic
  import opened Trace
  import opened TraceReading
  import opened Wrappers

  // ---------------------------------------------------------------- numbers

  /** The text is the number in exactly that many lower-case hexadecimal digits. */
  ghost predicate Spells(text: string, n: nat, width: nat) {
    |text| == width && AllHex(text) && DigitsValue(text) == Some(n)
  }

  /** There is one such text only. */
  lemma {:induction false} OneSpelling(a: string, b: string, n: nat, width: nat)
    requires Spells(a, n, width) && Spells(b, n, width)
    ensures a == b
  {
    if width > 0 {
      OneLess(a, n, width);
      OneLess(b, n, width);
      OneSpelling(a[..width - 1], b[..width - 1], n / 16, width - 1);
      assert a == a[..width - 1] + [a[width - 1]];
      assert b == b[..width - 1] + [b[width - 1]];
    }
  }

  lemma OneLess(a: string, n: nat, width: nat)
    requires Spells(a, n, width) && width > 0
    ensures Spells(a[..width - 1], n / 16, width - 1) && DigitValue(a[width - 1]) == Some(n % 16)
  {
  }

  /** A number is printed in its one spelling. */
  lemma PaddedIs(n: nat, width: nat, text: string)
    requires n < Pow16(width) && width > 0 && Spells(text, n, width)
    ensures Padded(n, width) == text
  {
    PaddedFacts(n, width);
    var s := LowerHex(n);
    var k := if |s| < width then width - |s| else 0;
    DigitsAfterZeros(k, n);
    assert Padded(n, width) == Zeros(k) + s;
    OneSpelling(Padded(n, width), text, n, width);
  }

  // ---------------------------------------------------------------- the texts of a context

  /** The spellings of the trace id, the span id and the parent id, where a missing one counts as zero. */
  ghost predicate Ids(info: Info, trace: string, span: string, parent: string) {
    && Valid(info)
    && Spells(trace, info.traceId, 32)
    && Spells(span, if info.spanId.Some? then info.spanId.value else 0, 16)
    && Spells(parent, if info.parentId.Some? then info.parentId.value else 0, 16)
  }

  lemma IdsArePadded(info: Info, trace: string, span: string, parent: string)
    requires Ids(info, trace, span, parent)
    ensures Padded(info.traceId, 32) == trace
    ensures Padded(OrZero(info.spanId), 16) == span && Padded(OrZero(info.parentId), 16) == parent
  {
    IdDigits();
    PaddedIs(info.traceId, 32, trace);
    PaddedIs(OrZero(info.spanId), 16, span);
    PaddedIs(OrZero(info.parentId), 16, parent);
  }

  /** The traceparent format has a version in front and a flag of two digits at the end, and no parent. */
  lemma TraceparentText(info: Info, trace: string, span: string, parent: string)
    requires Ids(info, trace, span, parent) && info.provider == W3CTraceContext
    ensures Display(info) == "00" + "-" + trace + "-" + span + "-" + (if info.sampled then "01" else "00")
  {
    IdsArePadded(info, trace, span, parent);
    var flag := if info.sampled then "01" else "00";
    assert ['0'] + Flag(info.sampled) == flag;
    JoinFour("00", trace, span, flag, '-');
  }

  /** The Uber format always has a parent. */
  lemma UberText(info: Info, trace: string, span: string, parent: string)
    requires Ids(info, trace, span, parent) && info.provider == Uber
    ensures Display(info) == trace + ":" + span + ":" + parent + ":" + (if info.sampled then "1" else "0")
  {
    IdsArePadded(info, trace, span, parent);
    JoinFour(trace, span, parent, if info.sampled then "1" else "0", ':');
  }

  /** The B3 format ends with the parent if there is one. */
  lemma B3Text(info: Info, trace: string, span: string, parent: string)
    requires Ids(info, trace, span, parent) && (info.provider == B3 || info.provider == B3Multi)
    ensures var short := trace + "-" + span + "-" + (if info.sampled then "1" else "0");
            Display(info) == if info.parentId.Some? then short + "-" + parent else short
  {
    IdsArePadded(info, trace, span, parent);
    var flag := if info.sampled then "1" else "0";
    if info.parentId.Some? {
      JoinFour(trace, span, flag, parent, '-');
    } else {
      JoinThree(trace, span, flag, '-');
    }
  }

  lemma JoinThree(a: string, b: string, c: string, sep: char)
    ensures Join([a, b, c], sep) == a + [sep] + b + [sep] + c
  {
    assert [a, b, c][1..] == [b, c];
    assert [b, c][1..] == [c];
    assert Join([c], sep) == c;
    assert Join([b, c], sep) == b + ([sep] + c);
  }

  lemma JoinFour(a: string, b: string, c: string, d: string, sep: char)
    ensures Join([a, b, c, d], sep) == a + [sep] + b + [sep] + c + [sep] + d
  {
    assert [a, b, c, d][1..] == [b, c, d];
    JoinThree(b, c, d, sep);
  }

  // ---------------------------------------------------------------- the headers of a context

  /** The headers that a context is written to. */
  ghost function Written(info: Info): set<Name> {
    match info.provider
    case W3CTraceContext => {Traceparent}
    case Uber => {UberTraceId}
    case B3 => {B3Single}
    case B3Multi =>
      {XB3Sampled, XB3TraceId} + (if info.spanId.Some? then {XB3SpanId} else {}) +
      (if info.parentId.Some? then {XB3ParentSpanId} else {})
  }

  /** A context with four headers writes its flag, its trace id, and the ids that it has. */
  lemma MultiHeaders(headers: Headers, info: Info, trace: string, span: string, parent: string)
    requires Ids(info, trace, span, parent) && info.provider == B3Multi
    ensures var after := Updated(headers, info);
            && XB3Sampled in after && after[XB3Sampled] == Text(if info.sampled then "1" else "0")
            && XB3TraceId in after && after[XB3TraceId] == Text(trace)
            && (info.spanId.Some? ==> XB3SpanId in after && after[XB3SpanId] == Text(span))
            && (info.parentId.Some? ==> XB3ParentSpanId in after && after[XB3ParentSpanId] == Text(parent))
  {
    IdsArePadded(info, trace, span, parent);
  }

  /** In the other formats the one header has the whole text. */
  lemma SingleHeader(headers: Headers, info: Info, name: Name)
    requires info.provider != B3Multi && name in Written(info)
    ensures name in Updated(headers, info) && Updated(headers, info)[name] == Text(Display(info))
  {
  }

  /** Every other header stays as it is. */
  lemma OtherHeaders(headers: Headers, info: Info, name: Name)
    requires name !in Written(info)
    ensures name in Updated(headers, info) <==> name in headers
    ensures name in headers ==> Updated(headers, info)[name] == headers[name]
  {
  }
}
