/**
  The access-log format grammar (orion-format/src/grammar.rs).

  A format string mixes literal text, the escape "%%" and placeholders "%NAME%" or
  "%NAME(ARG)%".  `Parse` is the scanner of the source: one loop over an index, a pending
  literal and a growing list of templates.  `Lex` and `Group` say what it computes in two
  phases: the unique reading of the text as tokens, then the grouping of literal runs.

  Text is a sequence of characters.  The source indexes bytes, but every slice it takes
  starts and ends at a character boundary, and operator names are ASCII.
 */
module Grammar {
  import opened Ascii
  import opened Wrappers

  // ---------------------------------------------------------------- data model

  /** `Plain` stands for the argument-free operators; which one is immaterial to the grammar. */
  datatype Operator =
    | Plain(id: nat)
    | RequestScheme | RequestMethod | RequestPath | RequestOriginalPathOrPath | RequestAuthority
    | Request(header: string)
    | ResponseStatus
    | Response(header: string)

  /** A category is a single bit of a 16-bit mask, represented by its bit number. */
  const NUM_OPERATOR_CATEGORIES := 12

  datatype Entry = Entry(op: Operator, category: nat, hasArg: bool)

  type Table = map<string, Entry>

  datatype Template = Char(c: char) | Literal(text: string) | Placeholder(op: Operator, category: nat)

  datatype FormatError =
    | InvalidOperator(text: string)
    | MissingBracket(text: string)
    | MissingDelimiter(text: string)
    | EmptyArgument(text: string)
    | InvalidRequestArg(text: string)
    | InvalidResponseArg(text: string)
    | InvalidOperatorIndex

  predicate IsDelimiter(c: char) {
    c == ' ' || c == '%' || c == '('
  }

  /** The shape of the operator table: non-empty names free of delimiters, one category bit each,
      and an argument exactly on the request- and response-header operators. */
  predicate TableOk(table: Table) {
    forall name <- table ::
      && name != ""
      && (forall c <- name :: !IsDelimiter(c))
      && table[name].category < NUM_OPERATOR_CATEGORIES
      && (table[name].hasArg <==> table[name].op.Request? || table[name].op.Response?)
  }

  /** A language: its operator table, and what the argument of a request- or response-header operator selects. */
  datatype Language = Language(table: Table, argOperator: (Operator, string) -> Result<Operator, FormatError>)

  predicate LanguageOk(lang: Language) {
    TableOk(lang.table)
  }

  // ---------------------------------------------------------------- text primitives

  lemma SplitAt(s: string, prefix: string)
    requires prefix <= s
    ensures prefix + s[|prefix|..] == s
  {
  }

  lemma DropPrefix(x: string, y: string)
    ensures (x + y)[|x|..] == y && (x + y)[..|x|] == x
  {
  }

  /** Index of the first delimiter, or the length of the text. */
  function WordLength(s: string): (n: nat)
    ensures n <= |s|
    ensures forall k | 0 <= k < n :: !IsDelimiter(s[k])
    ensures n < |s| ==> IsDelimiter(s[n])
  {
    if s == "" || IsDelimiter(s[0]) then 0 else 1 + WordLength(s[1..])
  }

  /** Index of the first occurrence of `c`, or the length of the text. */
  function IndexOf(s: string, c: char): (n: nat)
    ensures n <= |s|
    ensures c !in s[..n]
    ensures n < |s| ==> s[n] == c
  {
    if s == "" || s[0] == c then 0 else 1 + IndexOf(s[1..], c)
  }

  /** The longest key of the table that is a prefix of `s` and at most `n` long: what the trie search returns. */
  function LongestPrefix(keys: set<string>, s: string, n: nat): (r: Option<string>)
    requires n <= |s|
    ensures r.Some? ==> r.value in keys && r.value <= s && |r.value| <= n
    ensures forall k | k in keys && k <= s && |k| <= n :: r.Some? && |k| <= |r.value|
  {
    if s[..n] in keys then Some(s[..n])
    else if n == 0 then
      assert forall k: string | k <= s && |k| <= n :: k == s[..n];
      None
    else
      assert forall k: string | k <= s && |k| <= n :: |k| <= n - 1 || k == s[..n];
      LongestPrefix(keys, s, n - 1)
  }

  function FindLongestPrefix(keys: set<string>, s: string): (r: Option<string>)
    ensures r.Some? ==> r.value in keys && r.value <= s
    ensures forall k | k in keys && k <= s :: r.Some? && |k| <= |r.value|
  {
    LongestPrefix(keys, s, |s|)
  }

  /** The trie search followed by the length check is exact lookup of the word before the first delimiter. */
  lemma LongestPrefixIsExactLookup(table: Table, s: string)
    requires TableOk(table)
    ensures var found := FindLongestPrefix(table.Keys, s);
            var word := s[..WordLength(s)];
            && (found.Some? && |found.value| == |word| <==> word in table)
            && (word in table ==> found == Some(word))
  {
    var found := FindLongestPrefix(table.Keys, s);
    var word := s[..WordLength(s)];
    if word in table {
      // a longer name would run across the delimiter that ends the word
      assert word <= s;
      assert forall k | 0 <= k < |found.value| :: found.value[k] == s[k] && found.value[k] in found.value;
    }
    assert found.Some? ==> found.value == s[..|found.value|];
  }

  // ---------------------------------------------------------------- arguments

  /** The text between '(' and the first ')', with the length of the whole bracketed part. */
  function ExtractOperatorArg(input: string): (r: Result<(string, nat), FormatError>)
    ensures r.Ok? ==>
              var (arg, len) := r.value;
              arg != "" && ')' !in arg && len == |arg| + 2 <= |input| && input[..len] == "(" + arg + ")"
  {
    if input != "" && input[0] == '(' && IndexOf(input[1..], ')') < |input| - 1 then
      var arg := input[1..][..IndexOf(input[1..], ')')];
      if arg == "" then Err(EmptyArgument(input))
      else
        assert input[..|arg| + 2] == "(" + arg + ")";
        Ok((arg, |arg| + 2))
    else Err(MissingBracket(input))
  }

  /** Which argument is extracted does not depend on what follows the closing bracket. */
  lemma ExtractBracketed(arg: string, input: string)
    requires arg != "" && ')' !in arg
    requires |input| >= |arg| + 2 && input[0] == '(' && input[1..|arg| + 1] == arg && input[|arg| + 1] == ')'
    ensures ExtractOperatorArg(input) == Ok((arg, |arg| + 2))
  {
    var inner := input[1..];
    var n := IndexOf(inner, ')');
    assert inner[..|arg|] == arg && inner[|arg|] == ')';
    assert forall k | 0 <= k < |arg| :: inner[k] == inner[..|arg|][k] == arg[k];
    assert forall k | 0 <= k < n :: inner[k] == inner[..n][k];
    assert n == |arg|;
  }

  // ---------------------------------------------------------------- tokens: what the text means

  datatype Token = Text(c: char) | Escape | Field(name: string, arg: Option<string>)

  /** What follows the name of a field: its argument, if any, and the closing '%'. */
  function Tail(arg: Option<string>): string {
    if arg.Some? then "(" + arg.value + ")%" else "%"
  }

  /** The number of characters the scan advances by. */
  function Skip(t: Token): nat {
    match t
    case Text(_) => 1
    case Escape => 2
    case Field(name, None) => 2 + |name|
    case Field(name, Some(arg)) => 2 + |name| + (|arg| + 2)
  }

  /** The characters a token is written with. */
  function Source(t: Token): (s: string)
    ensures |s| == Skip(t)
  {
    match t
    case Text(c) => [c]
    case Escape => "%%"
    case Field(name, arg) => "%" + (name + Tail(arg))
  }

  function SourceAll(ts: seq<Token>): string {
    if ts == [] then "" else Source(ts[0]) + SourceAll(ts[1..])
  }

  predicate WellFormed(lang: Language, t: Token)
    requires LanguageOk(lang)
  {
    match t
    case Text(c) => c != '%'
    case Escape => true
    case Field(name, arg) =>
      && name in lang.table
      && (lang.table[name].hasArg <==> arg.Some?)
      && (arg.Some? ==> arg.value != "" && ')' !in arg.value && lang.argOperator(lang.table[name].op, arg.value).Ok?)
  }

  predicate AllWellFormed(lang: Language, ts: seq<Token>)
    requires LanguageOk(lang)
  {
    forall t <- ts :: WellFormed(lang, t)
  }

  /** The placeholder a well-formed field stands for. */
  function Meaning(lang: Language, f: Token): (t: Template)
    requires LanguageOk(lang) && f.Field? && WellFormed(lang, f)
  {
    var entry := lang.table[f.name];
    Placeholder(if entry.hasArg then lang.argOperator(entry.op, f.arg.value).value else entry.op, entry.category)
  }

  // ---------------------------------------------------------------- lexing

  function SplitOnce(s: string): string {
    s[..IndexOf(s, '%')]
  }

  lemma TailShape(arg: string, after: string)
    requires |after| > |arg| + 2 && after[..|arg| + 2] == "(" + arg + ")" && after[|arg| + 2] == '%'
    ensures Tail(Some(arg)) <= after
  {
    var n := |arg| + 2;
    assert after[..n + 1] == after[..n] + "%";
    assert Tail(Some(arg)) == "(" + arg + ")" + "%";
  }

  /** The part of the scan after a table name has been recognised. */
  function ScanTail(lang: Language, name: string, after: string): (r: Result<Option<string>, FormatError>)
    requires LanguageOk(lang) && name in lang.table
    ensures r.Ok? ==> WellFormed(lang, Field(name, r.value)) && Tail(r.value) <= after
  {
    if lang.table[name].hasArg then
      match ExtractOperatorArg(after)
      case Err(e) => Err(e)
      case Ok((arg, len)) =>
        match lang.argOperator(lang.table[name].op, arg)
        case Err(e) => Err(e)
        case Ok(_) =>
          if len < |after| && after[len] == '%' then TailShape(arg, after); Ok(Some(arg))
          else Err(MissingDelimiter(name))
    else if after != "" && after[0] == '%' then Ok(None)
    else Err(MissingDelimiter(name))
  }

  /** The scan of a placeholder, after its opening '%'. */
  function ScanField(lang: Language, remainder: string): (r: Result<Token, FormatError>)
    requires LanguageOk(lang)
    ensures r.Ok? ==> r.value.Field? && WellFormed(lang, r.value) && r.value.name + Tail(r.value.arg) <= remainder
  {
    match FindLongestPrefix(lang.table.Keys, remainder)
    case None => Err(InvalidOperator(SplitOnce(remainder)))
    case Some(name) =>
      if WordLength(remainder) != |name| then Err(InvalidOperator(SplitOnce(remainder)))
      else
        match ScanTail(lang, name, remainder[|name|..])
        case Err(e) => Err(e)
        case Ok(arg) => PrefixJoin(name, Tail(arg), remainder); Ok(Field(name, arg))
  }

  lemma PrefixJoin(a: string, b: string, s: string)
    requires a <= s && b <= s[|a|..]
    ensures a + b <= s
  {
  }

  /** One iteration of the scan at the start of `s`, with the source's order of checks. */
  function ScanToken(lang: Language, s: string): (r: Result<Token, FormatError>)
    requires LanguageOk(lang) && s != ""
    ensures r.Ok? ==> WellFormed(lang, r.value) && Source(r.value) <= s
  {
    if s[0] != '%' then Ok(Text(s[0]))
    else if |s| > 1 && s[1] == '%' then Ok(Escape)
    else
      match ScanField(lang, s[1..])
      case Err(e) => Err(e)
      case Ok(f) => PrefixJoin("%", f.name + Tail(f.arg), s); Ok(f)
  }

  /** The scan reads a well-formed token off any text that starts with it. */
  lemma ScanReadsToken(lang: Language, t: Token, rest: string)
    requires LanguageOk(lang) && WellFormed(lang, t)
    ensures ScanToken(lang, Source(t) + rest) == Ok(t)
  {
    if t.Field? {
      FieldSource(t, rest);
      ScanReadsField(lang, t.name, t.arg, rest);
      assert t.name[0] in t.name;
    }
  }

  lemma FieldSource(f: Token, rest: string)
    requires f.Field?
    ensures var s := Source(f) + rest;
            s[0] == '%' && s[1..] == f.name + (Tail(f.arg) + rest)
            && (f.name != "" ==> s[1] == f.name[0])
  {
  }

  lemma ScanReadsField(lang: Language, name: string, arg: Option<string>, rest: string)
    requires LanguageOk(lang) && WellFormed(lang, Field(name, arg))
    ensures ScanField(lang, name + (Tail(arg) + rest)) == Ok(Field(name, arg))
  {
    var after := Tail(arg) + rest;
    var remainder := name + after;
    assert after[0] == '(' || after[0] == '%';
    WordOfName(name, remainder);
    LongestPrefixIsExactLookup(lang.table, remainder);
    assert remainder[..|name|] == name && remainder[|name|..] == after;
    ScanReadsTail(lang, name, arg, rest);
  }

  lemma ScanReadsTail(lang: Language, name: string, arg: Option<string>, rest: string)
    requires LanguageOk(lang) && WellFormed(lang, Field(name, arg))
    ensures ScanTail(lang, name, Tail(arg) + rest) == Ok(arg)
  {
    if arg.Some? {
      BracketShape(arg.value, rest);
      ExtractBracketed(arg.value, Tail(arg) + rest);
    }
  }

  lemma BracketShape(arg: string, rest: string)
    ensures var after := "(" + arg + ")%" + rest;
            && |after| >= |arg| + 3 && after[0] == '(' && after[1..|arg| + 1] == arg
            && after[|arg| + 1] == ')' && after[|arg| + 2] == '%'
  {
  }

  lemma WordOfName(name: string, s: string)
    requires forall c <- name :: !IsDelimiter(c)
    requires name <= s && |name| < |s| && IsDelimiter(s[|name|])
    ensures WordLength(s) == |name|
  {
    assert forall k | 0 <= k < |name| :: s[k] == name[k] && name[k] in name;
  }

  function Lex(lang: Language, s: string): Result<seq<Token>, FormatError>
    requires LanguageOk(lang)
    decreases |s|
  {
    if s == "" then Ok([])
    else
      match ScanToken(lang, s)
      case Err(e) => Err(e)
      case Ok(t) =>
        match Lex(lang, s[Skip(t)..])
        case Err(e) => Err(e)
        case Ok(ts) => Ok([t] + ts)
  }

  /** Soundness and completeness of the scan: a text is accepted exactly when it can be written as a
      sequence of well-formed tokens, and that reading is unique. */
  lemma LexIff(lang: Language, s: string, ts: seq<Token>)
    requires LanguageOk(lang)
    ensures Lex(lang, s) == Ok(ts) <==> AllWellFormed(lang, ts) && SourceAll(ts) == s
  {
    if Lex(lang, s) == Ok(ts) {
      LexSound(lang, s);
    }
    if AllWellFormed(lang, ts) && SourceAll(ts) == s {
      LexComplete(lang, ts);
    }
  }

  lemma {:induction false} LexSound(lang: Language, s: string)
    requires LanguageOk(lang)
    ensures Lex(lang, s).Ok? ==> AllWellFormed(lang, Lex(lang, s).value) && SourceAll(Lex(lang, s).value) == s
    decreases |s|
  {
    if s != "" && ScanToken(lang, s).Ok? {
      var t := ScanToken(lang, s).value;
      var rest := s[Skip(t)..];
      LexSound(lang, rest);
      if Lex(lang, rest).Ok? {
        var ts := Lex(lang, rest).value;
        assert ([t] + ts)[1..] == ts;
        SplitAt(s, Source(t));
      }
    }
  }

  lemma {:induction false} LexComplete(lang: Language, ts: seq<Token>)
    requires LanguageOk(lang) && AllWellFormed(lang, ts)
    ensures Lex(lang, SourceAll(ts)) == Ok(ts)
  {
    if ts != [] {
      LexComplete(lang, ts[1..]);
      LexStep(lang, ts[0], SourceAll(ts[1..]));
      assert ts == [ts[0]] + ts[1..];
    }
  }

  lemma LexStep(lang: Language, t: Token, rest: string)
    requires LanguageOk(lang) && WellFormed(lang, t)
    ensures Lex(lang, rest).Ok? ==> Lex(lang, Source(t) + rest) == Ok([t] + Lex(lang, rest).value)
    ensures Lex(lang, rest).Err? ==> Lex(lang, Source(t) + rest) == Lex(lang, rest)
  {
    ScanReadsToken(lang, t, rest);
    DropPrefix(Source(t), rest);
  }

  // ---------------------------------------------------------------- grouping

  /** A literal becomes nothing, a single character or a string. */
  function LiteralTemplates(s: string): seq<Template> {
    if s == "" then [] else if |s| == 1 then [Char(s[0])] else [Literal(s)]
  }

  /** Leftmost, non-overlapping replacement of "%%" by "%". */
  function Unescape(s: string): string {
    if |s| < 2 then s
    else if s[0] == '%' && s[1] == '%' then "%" + Unescape(s[2..])
    else [s[0]] + Unescape(s[1..])
  }

  /** Doubles every '%'. */
  function DoublePercent(s: string): string {
    if s == "" then "" else (if s[0] == '%' then "%%" else [s[0]]) + DoublePercent(s[1..])
  }

  /** Templates of a token list when `pending` is the literal text read so far: a literal before a
      placeholder is kept as written, only the last one is unescaped. */
  function Group(lang: Language, pending: string, ts: seq<Token>): seq<Template>
    requires LanguageOk(lang) && AllWellFormed(lang, ts)
    decreases |ts|
  {
    if ts == [] then LiteralTemplates(Unescape(pending))
    else if ts[0].Field? then LiteralTemplates(pending) + [Meaning(lang, ts[0])] + Group(lang, "", ts[1..])
    else Group(lang, pending + Source(ts[0]), ts[1..])
  }

  lemma GroupField(lang: Language, pending: string, f: Token, ts: seq<Token>)
    requires LanguageOk(lang) && WellFormed(lang, f) && f.Field? && AllWellFormed(lang, ts)
    ensures Group(lang, pending, [f] + ts) == LiteralTemplates(pending) + ([Meaning(lang, f)] + Group(lang, "", ts))
  {
    assert ([f] + ts)[1..] == ts;
  }

  /** The meaning of a format: the grouping of its unique token reading, or the first error of the scan. */
  function Templates(lang: Language, s: string): Result<seq<Template>, FormatError>
    requires LanguageOk(lang)
  {
    match Lex(lang, s)
    case Err(e) => Err(e)
    case Ok(ts) => LexSound(lang, s); Ok(Group(lang, "", ts))
  }

  // ---------------------------------------------------------------- the scanner

  /** The templates finished once `ts` has been read, and the literal text still pending then. */
  function Finished(lang: Language, ts: seq<Token>): seq<Template>
    requires LanguageOk(lang) && AllWellFormed(lang, ts)
  {
    if ts == [] then []
    else
      var init, t := ts[..|ts| - 1], ts[|ts| - 1];
      if t.Field? then Finished(lang, init) + LiteralTemplates(Pending(init)) + [Meaning(lang, t)]
      else Finished(lang, init)
  }

  function Pending(ts: seq<Token>): string {
    if ts == [] || ts[|ts| - 1].Field? then ""
    else Pending(ts[..|ts| - 1]) + Source(ts[|ts| - 1])
  }

  /** Grouping can be resumed after any number of tokens. */
  lemma {:induction false} GroupResumed(lang: Language, ts: seq<Token>, rest: seq<Token>)
    requires LanguageOk(lang) && AllWellFormed(lang, ts) && AllWellFormed(lang, rest)
    ensures Group(lang, "", ts + rest) == Finished(lang, ts) + Group(lang, Pending(ts), rest)
    decreases |ts|
  {
    if ts == [] {
      assert ts + rest == rest;
    } else {
      var init, t := ts[..|ts| - 1], ts[|ts| - 1];
      assert init + ([t] + rest) == ts + rest;
      GroupResumed(lang, init, [t] + rest);
      if t.Field? {
        GroupField(lang, Pending(init), t, rest);
        Regroup(Finished(lang, init), LiteralTemplates(Pending(init)), [Meaning(lang, t)], Group(lang, "", rest));
      } else {
        assert ([t] + rest)[1..] == rest;
      }
    }
  }

  lemma Regroup(a: seq<Template>, b: seq<Template>, c: seq<Template>, d: seq<Template>)
    ensures a + (b + (c + d)) == ((a + b) + c) + d
  {
  }

  /** Reading resumes after any well-formed prefix; in particular an error met there is the error of the whole. */
  lemma {:induction false} LexResumed(lang: Language, ts: seq<Token>, rest: string)
    requires LanguageOk(lang) && AllWellFormed(lang, ts)
    ensures Lex(lang, rest).Err? ==> Lex(lang, SourceAll(ts) + rest) == Lex(lang, rest)
    decreases |ts|
  {
    if ts == [] {
      assert SourceAll(ts) + rest == rest;
    } else {
      var after := SourceAll(ts[1..]) + rest;
      LexResumed(lang, ts[1..], rest);
      LexStep(lang, ts[0], after);
      Associate(Source(ts[0]), SourceAll(ts[1..]), rest);
    }
  }

  lemma {:induction false} SourceAllAppend(a: seq<Token>, b: seq<Token>)
    ensures SourceAll(a + b) == SourceAll(a) + SourceAll(b)
  {
    if a == [] {
      assert a + b == b;
    } else {
      calc {
        SourceAll(a + b);
        { assert (a + b)[0] == a[0] && (a + b)[1..] == a[1..] + b; }
        Source(a[0]) + SourceAll(a[1..] + b);
        { SourceAllAppend(a[1..], b); }
        Source(a[0]) + (SourceAll(a[1..]) + SourceAll(b));
        { Associate(Source(a[0]), SourceAll(a[1..]), SourceAll(b)); }
        SourceAll(a) + SourceAll(b);
      }
    }
  }

  /** The parts after a placeholder: the pending literal, if there is one, and the placeholder. */
  function WithField(lang: Language, parts: seq<Template>, literal: string, t: Token): seq<Template>
    requires LanguageOk(lang) && WellFormed(lang, t) && t.Field?
  {
    (if literal != "" then parts + LiteralTemplates(literal) else parts) + [Meaning(lang, t)]
  }

  /** The source's single pass: scan index, start of the pending literal, list of parts.  It computes the
      grouping of the unique token reading, and reports the first error of the scan. */
  method Parse(lang: Language, input: string) returns (r: Result<seq<Template>, FormatError>)
    requires LanguageOk(lang)
    ensures r == Templates(lang, input)
  {
    var parts: seq<Template> := [];
    var literalStart := 0;
    var i := 0;
    ghost var read: seq<Token> := [];
    while i < |input|
      invariant 0 <= literalStart <= i <= |input|
      invariant AllWellFormed(lang, read) && SourceAll(read) == input[..i]
      invariant parts == Finished(lang, read) && input[literalStart..i] == Pending(read)
    {
      var scan := ScanToken(lang, input[i..]);
      if scan.Err? {
        ReadError(lang, input, i, read);
        return Err(scan.error);
      }
      var t := scan.value;
      ReadOne(lang, input, literalStart, i, read, t);
      read := read + [t];
      if t.Field? {
        if i > literalStart {
          parts := parts + LiteralTemplates(input[literalStart..i]);
        }
        parts := parts + [Meaning(lang, t)];
        i := i + Skip(t);
        literalStart := i;
      } else {
        i := i + Skip(t);
      }
    }
    ReadAll(lang, input, read);
    if i > literalStart {
      parts := parts + LiteralTemplates(Unescape(input[literalStart..i]));
    }
    r := Ok(parts);
  }

  /** Bookkeeping of one turn of the loop. */
  lemma ReadOne(lang: Language, input: string, literalStart: nat, i: nat, read: seq<Token>, t: Token)
    requires LanguageOk(lang) && AllWellFormed(lang, read) && WellFormed(lang, t)
    requires literalStart <= i <= |input| && Source(t) <= input[i..]
    requires SourceAll(read) == input[..i] && Pending(read) == input[literalStart..i]
    ensures i + Skip(t) <= |input| && SourceAll(read + [t]) == input[..i + Skip(t)]
    ensures !t.Field? ==>
              && Pending(read + [t]) == input[literalStart..i + Skip(t)]
              && Finished(lang, read + [t]) == Finished(lang, read)
    ensures t.Field? ==>
              && Pending(read + [t]) == ""
              && Finished(lang, read + [t]) == WithField(lang, Finished(lang, read), input[literalStart..i], t)
  {
    assert (read + [t])[..|read|] == read;
    Extend(input, literalStart, i, Source(t));
    SourceSnoc(input, i, read, t);
    NoLiteral(Finished(lang, read));
  }

  lemma Extend(s: string, a: nat, b: nat, piece: string)
    requires a <= b <= |s| && piece <= s[b..]
    ensures b + |piece| <= |s| && s[a..b] + piece == s[a..b + |piece|]
  {
  }

  lemma SourceSnoc(input: string, i: nat, read: seq<Token>, t: Token)
    requires i <= |input| && Source(t) <= input[i..] && SourceAll(read) == input[..i]
    ensures i + Skip(t) <= |input| && SourceAll(read + [t]) == input[..i + Skip(t)]
  {
    calc {
      SourceAll(read + [t]);
      { SourceAllAppend(read, [t]); }
      SourceAll(read) + SourceAll([t]);
      { assert SourceAll([t]) == Source(t) + ""; }
      input[..i] + Source(t);
      { Extend(input, 0, i, Source(t)); }
      input[..i + Skip(t)];
    }
  }

  lemma NoLiteral(parts: seq<Template>)
    ensures parts + LiteralTemplates("") == parts
  {
  }

  lemma ReadError(lang: Language, input: string, i: nat, read: seq<Token>)
    requires LanguageOk(lang) && AllWellFormed(lang, read)
    requires i < |input| && SourceAll(read) == input[..i]
    requires ScanToken(lang, input[i..]).Err?
    ensures Templates(lang, input) == Err(ScanToken(lang, input[i..]).error)
  {
    LexResumed(lang, read, input[i..]);
    assert input[..i] + input[i..] == input;
  }

  lemma ReadAll(lang: Language, input: string, read: seq<Token>)
    requires LanguageOk(lang) && AllWellFormed(lang, read) && SourceAll(read) == input
    ensures Templates(lang, input) ==
            Ok(if Pending(read) == "" then Finished(lang, read)
               else Finished(lang, read) + LiteralTemplates(Unescape(Pending(read))))
  {
    LexComplete(lang, read);
    GroupResumed(lang, read, []);
    assert read + [] == read;
    NoLiteral(Finished(lang, read));
  }
}
