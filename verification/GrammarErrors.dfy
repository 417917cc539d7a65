/** Which format strings are rejected, and with which error (orion-format/src/grammar.rs, lines 297-406). */
module GrammarErrors {
  import opened Ascii
  import opened Grammar
  import opened Wrappers

  /** What is wrong after the name of an operator: the percent sign is missing, or the argument is missing, empty,
      refused or not followed by a percent sign. */
  ghost predicate FaultyTail(lang: Language, name: string, after: string, e: FormatError)
    requires LanguageOk(lang) && name in lang.table
  {
    if !lang.table[name].hasArg then !("%" <= after) && e == MissingDelimiter(name)
    else if !("(" <= after) || ')' !in after then e == MissingBracket(after)
    else if "()" <= after then e == EmptyArgument(after)
    else exists arg: string :: FaultyArgument(lang, name, arg, after, e)
  }

  ghost predicate FaultyArgument(lang: Language, name: string, arg: string, after: string, e: FormatError)
    requires LanguageOk(lang) && name in lang.table
  {
    var selected := lang.argOperator(lang.table[name].op, arg);
    && arg != "" && ')' !in arg && "(" + arg + ")" <= after
    && (if selected.Err? then selected == Err(e) else !("(" + arg + ")%" <= after) && e == MissingDelimiter(name))
  }

  /** What is wrong after a percent sign: the word that follows is no operator, or it has a faulty tail. */
  ghost predicate FaultyField(lang: Language, s: string, e: FormatError)
    requires LanguageOk(lang)
  {
    var word, after := s[..WordLength(s)], s[WordLength(s)..];
    if word in lang.table then FaultyTail(lang, word, after, e) else e == InvalidOperator(s[..IndexOf(s, '%')])
  }

  ghost predicate Faulty(lang: Language, text: string, e: FormatError)
    requires LanguageOk(lang)
  {
    text != "" && text[0] == '%' && !("%%" <= text) && FaultyField(lang, text[1..], e)
  }

  lemma StartsWith(s: string, c: char)
    ensures [c] <= s <==> s != "" && s[0] == c
  {
  }

  lemma StartsWithTwo(s: string, c: char, d: char)
    ensures [c, d] <= s <==> |s| >= 2 && s[0] == c && s[1] == d
  {
  }

  /** A closing bracket after the opening one. */
  lemma ClosedIff(after: string)
    requires after != "" && after[0] == '('
    ensures ')' in after <==> IndexOf(after[1..], ')') < |after| - 1
  {
    var inner := after[1..];
    var n := IndexOf(inner, ')');
    if n < |inner| {
      assert after[n + 1] == inner[n];
    } else {
      assert inner[..n] == inner;
      assert after == [after[0]] + inner;
    }
  }

  lemma ArgumentOf(after: string)
    requires "(" <= after && ')' in after
    ensures "()" <= after ==> ExtractOperatorArg(after) == Err(EmptyArgument(after))
    ensures !("()" <= after) ==> ExtractOperatorArg(after).Ok?
  {
    ClosedIff(after);
    StartsWithTwo(after, '(', ')');
    var inner := after[1..];
    var n := IndexOf(inner, ')');
    if n > 0 {
      assert inner[0] == inner[..n][0] != ')';
    }
  }

  lemma NoArgument(after: string)
    requires !("(" <= after) || ')' !in after
    ensures ExtractOperatorArg(after) == Err(MissingBracket(after))
  {
    StartsWith(after, '(');
    if "(" <= after {
      ClosedIff(after);
    }
  }

  lemma Bracketed(arg: string, after: string)
    requires arg != "" && ')' !in arg && "(" + arg + ")" <= after
    ensures ExtractOperatorArg(after) == Ok((arg, |arg| + 2))
    ensures "(" + arg + ")%" <= after <==> |arg| + 2 < |after| && after[|arg| + 2] == '%'
  {
    var b := "(" + arg + ")";
    assert forall k | 0 <= k < |b| :: after[k] == b[k];
    assert after[1..|arg| + 1] == arg;
    ExtractBracketed(arg, after);
    assert "(" + arg + ")%" == b + "%";
  }

  lemma ArgumentErrorIff(lang: Language, name: string, after: string, e: FormatError)
    requires LanguageOk(lang) && name in lang.table && lang.table[name].hasArg
    requires "(" <= after && ')' in after && !("()" <= after)
    ensures ScanTail(lang, name, after) == Err(e) <==> exists arg: string :: FaultyArgument(lang, name, arg, after, e)
  {
    ArgumentOf(after);
    var found := ExtractOperatorArg(after).value.0;
    Bracketed(found, after);
    forall arg: string | FaultyArgument(lang, name, arg, after, e) ensures arg == found {
      Bracketed(arg, after);
    }
    assert ScanTail(lang, name, after) == Err(e) <==> FaultyArgument(lang, name, found, after, e);
  }

  lemma TailErrorIff(lang: Language, name: string, after: string, e: FormatError)
    requires LanguageOk(lang) && name in lang.table
    ensures ScanTail(lang, name, after) == Err(e) <==> FaultyTail(lang, name, after, e)
  {
    if !lang.table[name].hasArg {
      StartsWith(after, '%');
    } else if !("(" <= after) || ')' !in after {
      NoArgument(after);
    } else if "()" <= after {
      ArgumentOf(after);
    } else {
      ArgumentErrorIff(lang, name, after, e);
    }
  }

  lemma FieldErrorIff(lang: Language, s: string, e: FormatError)
    requires LanguageOk(lang)
    ensures ScanField(lang, s) == Err(e) <==> FaultyField(lang, s, e)
  {
    LongestPrefixIsExactLookup(lang.table, s);
    var word := s[..WordLength(s)];
    if word in lang.table {
      TailErrorIff(lang, word, s[|word|..], e);
    }
  }

  /** The scan fails exactly on a faulty text, and with the error of its fault. */
  lemma ScanErrorIff(lang: Language, text: string, e: FormatError)
    requires LanguageOk(lang) && text != ""
    ensures ScanToken(lang, text) == Err(e) <==> Faulty(lang, text, e)
  {
    StartsWithTwo(text, '%', '%');
    FieldErrorIff(lang, text[1..], e);
  }

  lemma {:induction false} LexFails(lang: Language, text: string) returns (ts: seq<Token>, rest: string)
    requires LanguageOk(lang) && Lex(lang, text).Err?
    ensures AllWellFormed(lang, ts) && text == SourceAll(ts) + rest && rest != ""
    ensures ScanToken(lang, rest) == Err(Lex(lang, text).error)
    decreases |text|
  {
    var scan := ScanToken(lang, text);
    if scan.Err? {
      ts, rest := [], text;
      assert text == "" + text;
    } else {
      var t := scan.value;
      var ts', rest' := LexFails(lang, text[Skip(t)..]);
      ts, rest := [t] + ts', rest';
      SplitAt(text, Source(t));
      assert ts[1..] == ts';
      Associate(Source(t), SourceAll(ts'), rest);
    }
  }

  /** A format string is rejected exactly when a fault follows well-formed tokens, and the error is that of the
      fault. */
  lemma ErrorIff(lang: Language, text: string, e: FormatError)
    requires LanguageOk(lang)
    ensures Templates(lang, text) == Err(e) <==>
              exists ts: seq<Token>, rest: string ::
                AllWellFormed(lang, ts) && text == SourceAll(ts) + rest && Faulty(lang, rest, e)
  {
    if Templates(lang, text) == Err(e) {
      var ts, rest := LexFails(lang, text);
      ScanErrorIff(lang, rest, e);
    }
    if ts: seq<Token>, rest: string :|
      AllWellFormed(lang, ts) && text == SourceAll(ts) + rest && Faulty(lang, rest, e)
    {
      ScanErrorIff(lang, rest, e);
      LexResumed(lang, ts, rest);
    }
  }
}
