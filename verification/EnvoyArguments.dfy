/** Arguments of the request- and response-header operators (orion-format/src/grammar.rs, lines 36-50 and 277-296). */
module EnvoyArguments {
  import opened Ascii
  import opened Grammar
  import opened GrammarLaws
  import opened Wrappers

  const MAX_HEADER_NAME_LEN := 65535

  /** Token characters of a header name, section 5.6.2 of RFC 9110. */
  predicate IsTokenChar(c: char) {
    || 'a' <= c <= 'z' || IsUpper(c) || '0' <= c <= '9'
    || c == '!' || '#' <= c <= '\'' || c == '*' || c == '+' || c == '-' || c == '.'
    || '^' <= c <= '`' || c == '|' || c == '~'
  }

  /** A valid header name, converted to lower case. */
  function HeaderName(arg: string): Option<string> {
    if 1 <= |arg| <= MAX_HEADER_NAME_LEN && forall c <- arg :: IsTokenChar(c) then Some(LowerAll(arg)) else None
  }

  /** The source searches a trie for the longest key that is a prefix of the argument.  No key is a prefix
      of another, so at most one of these tests succeeds. */
  function ParseRequest(arg: string): Result<Operator, FormatError> {
    if ":SCHEME" <= arg then Ok(RequestScheme)
    else if ":METHOD" <= arg then Ok(RequestMethod)
    else if ":PATH" <= arg then Ok(RequestPath)
    else if ":AUTHORITY" <= arg then Ok(RequestAuthority)
    else if "X-ENVOY-ORIGINAL-PATH?:PATH" <= arg then Ok(RequestOriginalPathOrPath)
    else
      match HeaderName(arg)
      case Some(name) => Ok(Request(name))
      case None => Err(InvalidRequestArg(arg))
  }

  function ParseResponse(arg: string): Result<Operator, FormatError> {
    if ":STATUS" <= arg then Ok(ResponseStatus)
    else
      match HeaderName(arg)
      case Some(name) => Ok(Response(name))
      case None => Err(InvalidResponseArg(arg))
  }

  /** The operator that an argument selects on a request- or response-header entry. */
  function ArgOperator(op: Operator, arg: string): Result<Operator, FormatError>
  {
    if op.Request? then ParseRequest(arg) else ParseResponse(arg)
  }

  /** The format language of the proxy over a given operator table. */
  function EnvoyLanguage(table: Table): Language {
    Language(table, ArgOperator)
  }

  /** The operator names of the proxy are words of capitals, digits and underscores, and such tables are fine. */
  lemma CapitalNames(table: Table)
    requires forall name <- table, c <- name :: 'A' <= c <= 'Z' || '0' <= c <= '9' || c == '_'
    requires forall name <- table ::
               && name != "" && table[name].category < 12
               && (table[name].hasArg <==> table[name].op.Request? || table[name].op.Response?)
    ensures LanguageOk(EnvoyLanguage(table))
  {
  }

  /** Pseudo-header arguments are recognised by prefix, not by equality: whatever follows is dropped, and the
      tests exclude one another. */
  lemma PseudoHeaderByPrefix(arg: string)
    ensures ParseRequest(arg) == Ok(RequestScheme) <==> ":SCHEME" <= arg
    ensures ParseRequest(arg) == Ok(RequestMethod) <==> ":METHOD" <= arg
    ensures ParseRequest(arg) == Ok(RequestPath) <==> ":PATH" <= arg
    ensures ParseRequest(arg) == Ok(RequestAuthority) <==> ":AUTHORITY" <= arg
    ensures ParseRequest(arg) == Ok(RequestOriginalPathOrPath) <==> "X-ENVOY-ORIGINAL-PATH?:PATH" <= arg
  {
    if |arg| >= 2 {
      // the second character tells the keys apart
      if arg[1] == 'S' {
      } else if arg[1] == 'M' {
      } else if arg[1] == 'P' {
      } else if arg[1] == 'A' {
      }
    }
  }

  /** A lower-case token is its own header argument, so every such request or response header can be written. */
  lemma HeaderArgument(table: Table, name: string, header: string)
    requires TableOk(table) && name in table && table[name].hasArg
    requires 1 <= |header| <= MAX_HEADER_NAME_LEN
    requires forall c <- header :: IsTokenChar(c) && !IsUpper(c)
    ensures var op := if table[name].op.Request? then Request(header) else Response(header);
            Spelled(EnvoyLanguage(table), Field(name, Some(header)), Placeholder(op, table[name].category))
  {
    HeaderIsItself(header);
  }

  lemma HeaderIsItself(header: string)
    requires 1 <= |header| <= MAX_HEADER_NAME_LEN
    requires forall c <- header :: IsTokenChar(c) && !IsUpper(c)
    ensures ParseRequest(header) == Ok(Request(header)) && ParseResponse(header) == Ok(Response(header))
    ensures ')' !in header
  {
    TokenIsHeaderName(header);
    assert header[0] in header;
    NoPseudoHeader(header);
  }

  lemma TokenIsHeaderName(header: string)
    requires 1 <= |header| <= MAX_HEADER_NAME_LEN
    requires forall c <- header :: IsTokenChar(c) && !IsUpper(c)
    ensures HeaderName(header) == Some(header) && ')' !in header
  {
    assert forall k | 0 <= k < |header| :: header[k] in header;
    assert LowerAll(header) == header;
  }

  /** The keys of the pseudo-headers start with a colon or an X. */
  lemma NoPseudoHeader(arg: string)
    requires arg != "" && arg[0] != ':' && arg[0] != 'X' && HeaderName(arg).Some?
    ensures ParseRequest(arg) == Ok(Request(HeaderName(arg).value))
    ensures ParseResponse(arg) == Ok(Response(HeaderName(arg).value))
  {
  }

  /** The token characters are the visible ones that are not delimiters of the protocol. */
  lemma TokenCharacters(c: char)
    ensures IsTokenChar(c) <==> '!' <= c <= '~' && c !in "\"(),/:;<=>?@[\\]{}"
  {
    var delimiters := "\"(),/:;<=>?@[\\]{}";
    assert delimiters[0] == '"' && delimiters[1] == '(' && delimiters[2] == ')' && delimiters[3] == ',';
    assert delimiters[4] == '/' && delimiters[5] == ':' && delimiters[6] == ';' && delimiters[7] == '<';
    assert delimiters[8] == '=' && delimiters[9] == '>' && delimiters[10] == '?' && delimiters[11] == '@';
    assert delimiters[12] == '[' && delimiters[13] == '\\' && delimiters[14] == ']' && delimiters[15] == '{';
    assert delimiters[16] == '}';
  }

  /** A text that can name a header: a token, no longer than a header name may be. */
  ghost predicate NamesHeader(arg: string) {
    1 <= |arg| <= 65535 && forall k | 0 <= k < |arg| :: IsTokenChar(arg[k])
  }

  lemma HeaderNameIff(arg: string, name: string)
    ensures HeaderName(arg) == Some(name) <==> NamesHeader(arg) && InLowerCase(arg, name)
    ensures HeaderName(arg) == None <==> !NamesHeader(arg)
  {
    LowerAllIff(arg, name);
    assert forall k | 0 <= k < |arg| :: arg[k] in arg;
  }

  /** A request argument that selects no pseudo-header names a header in lower case, or is refused. */
  lemma RequestArgument(arg: string, name: string)
    requires !(":SCHEME" <= arg) && !(":METHOD" <= arg) && !(":PATH" <= arg) && !(":AUTHORITY" <= arg)
    requires !("X-ENVOY-ORIGINAL-PATH?:PATH" <= arg)
    ensures ParseRequest(arg) == Ok(Request(name)) <==> NamesHeader(arg) && InLowerCase(arg, name)
    ensures ParseRequest(arg) == Err(InvalidRequestArg(arg)) <==> !NamesHeader(arg)
  {
    HeaderNameIff(arg, name);
  }

  /** A response argument selects the status exactly when it starts with its key; any other names a header in lower
      case, or is refused. */
  lemma ResponseArgument(arg: string, name: string)
    ensures ParseResponse(arg) == Ok(ResponseStatus) <==> ":STATUS" <= arg
    ensures ParseResponse(arg) == Ok(Response(name)) <==>
              !(":STATUS" <= arg) && NamesHeader(arg) && InLowerCase(arg, name)
    ensures ParseResponse(arg) == Err(InvalidResponseArg(arg)) <==> !(":STATUS" <= arg) && !NamesHeader(arg)
  {
    HeaderNameIff(arg, name);
  }

  /** On the entries of request headers and of response headers the argument is read in the one and the other way. */
  lemma ArgumentOfEntry(table: Table, name: string, arg: string, op: Operator)
    requires TableOk(table) && name in table && table[name].hasArg && arg != "" && ')' !in arg
    requires if table[name].op.Request? then ParseRequest(arg) == Ok(op) else ParseResponse(arg) == Ok(op)
    ensures Templates(EnvoyLanguage(table), "%" + name + "(" + arg + ")%") ==
            Ok([Placeholder(op, table[name].category)])
  {
    ArgumentPlaceholder(EnvoyLanguage(table), name, arg, op);
  }
}
