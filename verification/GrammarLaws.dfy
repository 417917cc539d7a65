/**
  Laws of the access-log format grammar: printing and parsing are inverse, the parts of an accepted
  format tile its text, and exactly which template lists the parser can produce.
 */
module GrammarLaws {
  import opened Ascii
  import opened Grammar
  import opened Wrappers

  // ---------------------------------------------------------------- literals and escapes

  /** Every '%' belongs to a "%%" pair, read from the left. */
  predicate Paired(s: string) {
    if s == "" then true
    else if s[0] != '%' then Paired(s[1..])
    else |s| >= 2 && s[1] == '%' && Paired(s[2..])
  }

  /** The literal tokens of a paired text. */
  function LiteralTokens(s: string): (ts: seq<Token>)
    requires Paired(s)
    ensures forall t <- ts :: t == Escape || (t.Text? && t.c != '%')
  {
    if s == "" then []
    else if s[0] != '%' then [Text(s[0])] + LiteralTokens(s[1..])
    else [Escape] + LiteralTokens(s[2..])
  }

  lemma {:induction false} LiteralTokensSource(s: string)
    requires Paired(s)
    ensures SourceAll(LiteralTokens(s)) == s
  {
    if s != "" {
      if s[0] != '%' {
        LiteralTokensSource(s[1..]);
        SourceCons(Text(s[0]), LiteralTokens(s[1..]));
        assert s == [s[0]] + s[1..];
      } else {
        LiteralTokensSource(s[2..]);
        SourceCons(Escape, LiteralTokens(s[2..]));
        assert s == "%%" + s[2..];
      }
    }
  }

  lemma SourceCons(t: Token, ts: seq<Token>)
    ensures SourceAll([t] + ts) == Source(t) + SourceAll(ts)
  {
    assert ([t] + ts)[1..] == ts;
  }

  /** Doubling yields a paired text, and unescaping undoes it. */
  lemma {:induction false} DoubleThenUnescape(s: string)
    ensures Paired(DoublePercent(s)) && Unescape(DoublePercent(s)) == s
  {
    if s != "" {
      DoubleThenUnescape(s[1..]);
      var d := DoublePercent(s[1..]);
      var head := if s[0] == '%' then "%%" else [s[0]];
      assert (head + d)[|head|..] == d;
      assert s == [s[0]] + s[1..];
    }
  }

  /** Unescaping loses nothing on a paired text: doubling restores it. */
  lemma {:induction false} UnescapeThenDouble(s: string)
    requires Paired(s)
    ensures DoublePercent(Unescape(s)) == s
    ensures s != "" ==> Unescape(s) != ""
    ensures Unescape(s) == s <==> '%' !in s
  {
    if s != "" {
      var n := if s[0] != '%' then 1 else 2;
      UnescapeThenDouble(s[n..]);
      assert s == s[..n] + s[n..];
      if |s| > 1 {
        var u := Unescape(s[n..]);
        assert ([s[0]] + u)[1..] == u;
        if n == 2 {
          UnescapeShrinks(s[2..]);
        }
      }
    }
  }

  lemma UnescapeShrinks(s: string)
    ensures |Unescape(s)| <= |s|
  {
  }

  lemma {:induction false} PairedAppend(a: string, b: string)
    requires Paired(a) && Paired(b)
    ensures Paired(a + b)
  {
    if a == "" {
      assert a + b == b;
    } else {
      var n := if a[0] != '%' then 1 else 2;
      PairedAppend(a[n..], b);
      assert (a + b)[n..] == a[n..] + b;
    }
  }

  // ---------------------------------------------------------------- normal forms and printing

  predicate IsLiteral(t: Template) { !t.Placeholder? }

  function LiteralText(t: Template): string
    requires IsLiteral(t)
  {
    if t.Char? then [t.c] else t.text
  }

  /** No adjacent literals, one-character literals as `Char`, and '%' only in pairs in a literal that
      precedes a placeholder. */
  predicate NormalForm(ts: seq<Template>) {
    ts == [] ||
    (&& (ts[0].Literal? ==> |ts[0].text| >= 2)
     && (IsLiteral(ts[0]) && |ts| > 1 ==> ts[1].Placeholder? && Paired(LiteralText(ts[0])))
     && NormalForm(ts[1..]))
  }

  /** A field stands for the placeholder of its table entry: of the entry's own operator, or of the one that its
      argument selects, and of the entry's category. */
  ghost predicate Spelled(lang: Language, f: Token, t: Template)
    requires LanguageOk(lang)
  {
    && f.Field? && WellFormed(lang, f) && t.Placeholder?
    && t.category == lang.table[f.name].category
    && (if f.arg.None? then t.op == lang.table[f.name].op
        else lang.argOperator(lang.table[f.name].op, f.arg.value) == Ok(t.op))
  }

  lemma SpelledIsMeaning(lang: Language, f: Token, t: Template)
    requires LanguageOk(lang) && f.Field? && WellFormed(lang, f)
    ensures Spelled(lang, f, t) <==> Meaning(lang, f) == t
  {
  }

  /** `spell` writes every placeholder of the list as a field that stands for it. */
  ghost predicate Spells(lang: Language, spell: Template -> Token, ts: seq<Template>)
    requires LanguageOk(lang)
  {
    forall t <- ts :: t.Placeholder? ==> Spelled(lang, spell(t), t)
  }

  /** The text of a template list: placeholders spelled out, '%' doubled in the last literal only. */
  function Print(spell: Template -> Token, ts: seq<Template>): string {
    if ts == [] then ""
    else
      (if ts[0].Placeholder? then Source(spell(ts[0]))
       else if |ts| == 1 then DoublePercent(LiteralText(ts[0]))
       else LiteralText(ts[0])) + Print(spell, ts[1..])
  }

  ghost function Tokens(lang: Language, spell: Template -> Token, ts: seq<Template>): (r: seq<Token>)
    requires LanguageOk(lang) && NormalForm(ts) && Spells(lang, spell, ts)
    ensures AllWellFormed(lang, r)
  {
    if ts == [] then []
    else
      (if ts[0].Placeholder? then [spell(ts[0])]
       else if |ts| == 1 then
         DoubleThenUnescape(LiteralText(ts[0]));
         LiteralTokens(DoublePercent(LiteralText(ts[0])))
       else LiteralTokens(LiteralText(ts[0]))) + Tokens(lang, spell, ts[1..])
  }

  lemma {:induction false} TokensSource(lang: Language, spell: Template -> Token, ts: seq<Template>)
    requires LanguageOk(lang) && NormalForm(ts) && Spells(lang, spell, ts)
    ensures SourceAll(Tokens(lang, spell, ts)) == Print(spell, ts)
  {
    if ts != [] {
      TokensSource(lang, spell, ts[1..]);
      var rest := Tokens(lang, spell, ts[1..]);
      if ts[0].Placeholder? {
        SourceAllAppend([spell(ts[0])], rest);
        assert SourceAll([spell(ts[0])]) == Source(spell(ts[0])) + "";
      } else {
        var text := LiteralText(ts[0]);
        DoubleThenUnescape(text);
        var written := if |ts| == 1 then DoublePercent(text) else text;
        SourceAllAppend(LiteralTokens(written), rest);
        LiteralTokensSource(written);
      }
    }
  }

  /** A run of literal tokens is absorbed into the pending text. */
  lemma {:induction false} GroupLiterals(lang: Language, pending: string, lits: seq<Token>, ts: seq<Token>)
    requires LanguageOk(lang) && AllWellFormed(lang, lits) && AllWellFormed(lang, ts)
    requires forall t <- lits :: !t.Field?
    ensures Group(lang, pending, lits + ts) == Group(lang, pending + SourceAll(lits), ts)
    decreases |lits|
  {
    if lits == [] {
      assert lits + ts == ts && pending + "" == pending;
    } else {
      assert (lits + ts)[1..] == lits[1..] + ts;
      GroupLiterals(lang, pending + Source(lits[0]), lits[1..], ts);
      assert pending + Source(lits[0]) + SourceAll(lits[1..]) == pending + SourceAll(lits);
    }
  }

  lemma {:induction false} GroupOfTokens(lang: Language, spell: Template -> Token, ts: seq<Template>)
    requires LanguageOk(lang) && NormalForm(ts) && Spells(lang, spell, ts)
    ensures Group(lang, "", Tokens(lang, spell, ts)) == ts
    decreases |ts|
  {
    if ts != [] && ts[0].Placeholder? {
      GroupOfTokens(lang, spell, ts[1..]);
      GroupField(lang, "", spell(ts[0]), Tokens(lang, spell, ts[1..]));
    } else if |ts| == 1 {
      GroupOfLast(lang, spell, ts);
    } else if |ts| > 1 {
      GroupOfTokens(lang, spell, ts[1..]);
      GroupOfLiteral(lang, spell, ts);
    }
  }

  lemma GroupOfLast(lang: Language, spell: Template -> Token, ts: seq<Template>)
    requires LanguageOk(lang) && NormalForm(ts) && Spells(lang, spell, ts)
    requires |ts| == 1 && IsLiteral(ts[0])
    ensures Group(lang, "", Tokens(lang, spell, ts)) == ts
  {
    var text := LiteralText(ts[0]);
    var written := DoublePercent(text);
    DoubleThenUnescape(text);
    LiteralTokensSource(written);
    GroupLiterals(lang, "", LiteralTokens(written), []);
    assert "" + written == written;
    assert Tokens(lang, spell, ts) == LiteralTokens(written) + [];
  }

  lemma GroupOfLiteral(lang: Language, spell: Template -> Token, ts: seq<Template>)
    requires LanguageOk(lang) && NormalForm(ts) && Spells(lang, spell, ts)
    requires |ts| > 1 && IsLiteral(ts[0])
    requires Group(lang, "", Tokens(lang, spell, ts[1..])) == ts[1..]
    ensures Group(lang, "", Tokens(lang, spell, ts)) == ts
  {
    var text := LiteralText(ts[0]);
    var f := spell(ts[1]);
    var rest := Tokens(lang, spell, ts[1..][1..]);
    assert Tokens(lang, spell, ts[1..]) == [f] + rest;
    GroupBefore(lang, text, f, rest);
    assert LiteralTemplates(text) == [ts[0]];
    assert [ts[0]] + ts[1..] == ts;
  }

  /** A literal in front of a field only adds its own template. */
  lemma GroupBefore(lang: Language, text: string, f: Token, rest: seq<Token>)
    requires LanguageOk(lang) && f.Field? && WellFormed(lang, f) && AllWellFormed(lang, rest) && Paired(text)
    ensures Group(lang, "", LiteralTokens(text) + ([f] + rest)) == LiteralTemplates(text) + Group(lang, "", [f] + rest)
  {
    var later := [Meaning(lang, f)] + Group(lang, "", rest);
    calc {
      Group(lang, "", LiteralTokens(text) + ([f] + rest));
      { LiteralTokensSource(text); GroupLiterals(lang, "", LiteralTokens(text), [f] + rest); }
      Group(lang, "" + text, [f] + rest);
      { assert "" + text == text; GroupField(lang, text, f, rest); }
      LiteralTemplates(text) + later;
      { GroupField(lang, "", f, rest); assert LiteralTemplates("") + later == later; }
      LiteralTemplates(text) + Group(lang, "", [f] + rest);
    }
  }

  /** Round trip: printing any normal form, with any spelling of its placeholders, and parsing the text
      gives the same list back. */
  lemma RoundTrip(lang: Language, spell: Template -> Token, ts: seq<Template>)
    requires LanguageOk(lang) && NormalForm(ts) && Spells(lang, spell, ts)
    ensures Templates(lang, Print(spell, ts)) == Ok(ts)
  {
    var tokens := Tokens(lang, spell, ts);
    TokensSource(lang, spell, ts);
    LexComplete(lang, tokens);
    GroupOfTokens(lang, spell, ts);
  }

  // ---------------------------------------------------------------- the parts tile the text

  function Join(pieces: seq<string>): string {
    if pieces == [] then "" else pieces[0] + Join(pieces[1..])
  }

  /** The piece of source text behind a template. */
  ghost predicate Explains(lang: Language, t: Template, piece: string, last: bool)
    requires LanguageOk(lang)
  {
    match t
    case Placeholder(_, _) =>
      exists f: Token :: Spelled(lang, f, t) && Source(f) == piece
    case _ =>
      && Paired(piece) && piece != ""
      && (if last then DoublePercent(LiteralText(t)) == piece else LiteralText(t) == piece)
  }

  ghost predicate Tiles(lang: Language, ts: seq<Template>, pieces: seq<string>, text: string)
    requires LanguageOk(lang)
  {
    && |pieces| == |ts|
    && Join(pieces) == text
    && forall k | 0 <= k < |ts| :: Explains(lang, ts[k], pieces[k], k == |ts| - 1)
  }

  /** The pieces of an accepted text tile it without gap or overlap: an earlier literal is its piece
      verbatim, doubling '%' in the last literal restores its piece, and a placeholder's piece is a
      well-formed field with that meaning.  A literal is the unescaped form of its piece exactly when
      it comes last or its piece has no '%'. */
  lemma Tiling(lang: Language, text: string) returns (pieces: seq<string>)
    requires LanguageOk(lang) && Templates(lang, text).Ok?
    ensures Tiles(lang, Templates(lang, text).value, pieces, text)
    ensures var ts := Templates(lang, text).value;
            forall k | 0 <= k < |ts| && IsLiteral(ts[k]) ::
              (LiteralText(ts[k]) == Unescape(pieces[k]) <==> k == |ts| - 1 || '%' !in pieces[k])
  {
    LexSound(lang, text);
    var tokens := Lex(lang, text).value;
    pieces := GroupTiles(lang, "", tokens);
    var ts := Templates(lang, text).value;
    assert [] + Group(lang, "", tokens) == Group(lang, "", tokens);
    assert "" + SourceAll(tokens) == text;
    forall k | 0 <= k < |ts| && IsLiteral(ts[k])
      ensures LiteralText(ts[k]) == Unescape(pieces[k]) <==> k == |ts| - 1 || '%' !in pieces[k]
    {
      assert Explains(lang, ts[k], pieces[k], k == |ts| - 1);
      DoubleThenUnescape(LiteralText(ts[k]));
      UnescapeThenDouble(pieces[k]);
    }
  }

  lemma {:induction false} GroupTiles(lang: Language, pending: string, tokens: seq<Token>) returns (pieces: seq<string>)
    requires LanguageOk(lang) && AllWellFormed(lang, tokens) && Paired(pending)
    ensures Tiles(lang, Group(lang, pending, tokens), pieces, pending + SourceAll(tokens))
    decreases |tokens|
  {
    if tokens == [] {
      pieces := LastTiles(lang, pending);
    } else if tokens[0].Field? {
      var rest := GroupTiles(lang, "", tokens[1..]);
      assert "" + SourceAll(tokens[1..]) == SourceAll(tokens[1..]);
      pieces := FieldTiles(lang, pending, tokens[0], tokens[1..], rest);
      assert [tokens[0]] + tokens[1..] == tokens;
    } else {
      PairedToken(lang, tokens[0]);
      PairedAppend(pending, Source(tokens[0]));
      pieces := GroupTiles(lang, pending + Source(tokens[0]), tokens[1..]);
      Associate(pending, Source(tokens[0]), SourceAll(tokens[1..]));
    }
  }

  lemma LastTiles(lang: Language, pending: string) returns (pieces: seq<string>)
    requires LanguageOk(lang) && Paired(pending)
    ensures Tiles(lang, LiteralTemplates(Unescape(pending)), pieces, pending + "")
  {
    UnescapeThenDouble(pending);
    pieces := if pending == "" then [] else [pending];
    if pending != "" {
      var u := Unescape(pending);
      assert LiteralText(LiteralTemplates(u)[0]) == u;
    }
  }

  lemma PairedToken(lang: Language, t: Token)
    requires LanguageOk(lang) && WellFormed(lang, t) && !t.Field?
    ensures Paired(Source(t))
  {
  }

  lemma FieldTiles(lang: Language, pending: string, f: Token, tokens: seq<Token>, rest: seq<string>)
    returns (pieces: seq<string>)
    requires LanguageOk(lang) && AllWellFormed(lang, tokens) && Paired(pending)
    requires f.Field? && WellFormed(lang, f)
    requires Tiles(lang, Group(lang, "", tokens), rest, SourceAll(tokens))
    ensures Tiles(lang, Group(lang, pending, [f] + tokens), pieces, pending + (Source(f) + SourceAll(tokens)))
  {
    var later := Group(lang, "", tokens);
    var ts := [Meaning(lang, f)] + later;
    var text := Source(f) + SourceAll(tokens);
    pieces := [Source(f)] + rest;
    GroupField(lang, pending, f, tokens);
    TilesCons(lang, Meaning(lang, f), Source(f), later, rest, SourceAll(tokens));
    if pending == "" {
      assert LiteralTemplates(pending) + ts == ts && pending + text == text;
    } else {
      TilesCons(lang, LiteralTemplates(pending)[0], pending, ts, pieces, text);
      pieces := [pending] + pieces;
    }
  }

  lemma TilesCons(lang: Language, t: Template, piece: string, ts: seq<Template>, pieces: seq<string>, text: string)
    requires LanguageOk(lang) && Tiles(lang, ts, pieces, text)
    requires Explains(lang, t, piece, ts == [])
    ensures Tiles(lang, [t] + ts, [piece] + pieces, piece + text)
  {
    assert ([piece] + pieces)[1..] == pieces;
    forall k | 0 <= k < |ts| + 1
      ensures Explains(lang, ([t] + ts)[k], ([piece] + pieces)[k], k == |ts|)
    {
      if k > 0 {
        assert Explains(lang, ts[k - 1], pieces[k - 1], k - 1 == |ts| - 1);
      }
    }
  }

  // ---------------------------------------------------------------- the image of the parser

  ghost predicate Expressible(lang: Language, ts: seq<Template>)
    requires LanguageOk(lang)
  {
    forall t <- ts :: t.Placeholder? ==> exists f: Token :: Spelled(lang, f, t)
  }

  /** A template list comes out of the parser exactly when it is a normal form whose placeholders can be written. */
  lemma ParserImage(lang: Language, ts: seq<Template>)
    requires LanguageOk(lang)
    ensures NormalForm(ts) && Expressible(lang, ts) <==> exists text: string :: Templates(lang, text) == Ok(ts)
  {
    if NormalForm(ts) && Expressible(lang, ts) {
      var spell: Template -> Token := t => if exists f: Token :: Spelled(lang, f, t) then
                                        var f: Token :| Spelled(lang, f, t); f
                                      else Escape;
      assert Spells(lang, spell, ts);
      RoundTrip(lang, spell, ts);
    }
    if text: string :| Templates(lang, text) == Ok(ts) {
      LexSound(lang, text);
      GroupNormal(lang, "", Lex(lang, text).value);
      assert [] + ts == ts;
    }
  }

  lemma NormalCons(lang: Language, t: Template, ts: seq<Template>)
    requires LanguageOk(lang) && NormalForm(ts) && Expressible(lang, ts)
    requires t.Literal? ==> |t.text| >= 2
    requires IsLiteral(t) && ts != [] ==> ts[0].Placeholder? && Paired(LiteralText(t))
    requires t.Placeholder? ==> exists f: Token :: Spelled(lang, f, t)
    ensures NormalForm([t] + ts) && Expressible(lang, [t] + ts)
  {
    assert ([t] + ts)[1..] == ts;
  }

  lemma {:induction false} GroupNormal(lang: Language, pending: string, tokens: seq<Token>)
    requires LanguageOk(lang) && AllWellFormed(lang, tokens) && Paired(pending)
    ensures NormalForm(Group(lang, pending, tokens)) && Expressible(lang, Group(lang, pending, tokens))
    decreases |tokens|
  {
    var ts := Group(lang, pending, tokens);
    if tokens == [] {
    } else if tokens[0].Field? {
      var later := Group(lang, "", tokens[1..]);
      GroupNormal(lang, "", tokens[1..]);
      var field := Meaning(lang, tokens[0]);
      assert Spelled(lang, tokens[0], field);
      GroupField(lang, pending, tokens[0], tokens[1..]);
      assert [tokens[0]] + tokens[1..] == tokens;
      NormalCons(lang, field, later);
      if pending == "" {
        assert LiteralTemplates(pending) + ([field] + later) == [field] + later;
      } else {
        assert LiteralText(LiteralTemplates(pending)[0]) == pending;
        NormalCons(lang, LiteralTemplates(pending)[0], [field] + later);
      }
    } else {
      PairedToken(lang, tokens[0]);
      PairedAppend(pending, Source(tokens[0]));
      GroupNormal(lang, pending + Source(tokens[0]), tokens[1..]);
    }
  }

  // ---------------------------------------------------------------- one part on its own

  lemma OneField(lang: Language, f: Token, t: Template)
    requires LanguageOk(lang) && Spelled(lang, f, t)
    ensures Templates(lang, Source(f)) == Ok([t])
  {
    RoundTrip(lang, _ => f, [t]);
    assert Print(_ => f, []) == "" && Source(f) + "" == Source(f);
  }

  /** An operator without an argument is the placeholder of its own table entry. */
  lemma PlainPlaceholder(lang: Language, name: string)
    requires LanguageOk(lang) && name in lang.table && !lang.table[name].hasArg
    ensures Templates(lang, "%" + name + "%") == Ok([Placeholder(lang.table[name].op, lang.table[name].category)])
  {
    var f := Field(name, None);
    OneField(lang, f, Placeholder(lang.table[name].op, lang.table[name].category));
    assert Source(f) == "%" + name + "%";
  }

  /** An operator with an argument is the placeholder of what the argument selects, in the category of its entry. */
  lemma ArgumentPlaceholder(lang: Language, name: string, arg: string, op: Operator)
    requires LanguageOk(lang) && name in lang.table && lang.table[name].hasArg
    requires arg != "" && ')' !in arg && lang.argOperator(lang.table[name].op, arg) == Ok(op)
    ensures Templates(lang, "%" + name + "(" + arg + ")%") == Ok([Placeholder(op, lang.table[name].category)])
  {
    var f := Field(name, Some(arg));
    OneField(lang, f, Placeholder(op, lang.table[name].category));
    assert Source(f) == "%" + name + "(" + arg + ")%";
  }

  /** Text without placeholders is one literal, with its doubled percent signs halved. */
  lemma PlainText(lang: Language, text: string)
    requires LanguageOk(lang) && text != ""
    ensures Templates(lang, DoublePercent(text)) == Ok([if |text| == 1 then Char(text[0]) else Literal(text)])
    ensures Templates(lang, "") == Ok([])
  {
    var t := if |text| == 1 then Char(text[0]) else Literal(text);
    RoundTrip(lang, _ => Escape, [t]);
    assert DoublePercent(text) + "" == DoublePercent(text);
    assert LiteralText(t) == text;
    RoundTrip(lang, _ => Escape, []);
  }
}
