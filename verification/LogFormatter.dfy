/**
  Compiling a format and filling its slots (orion-format/src/lib.rs): every placeholder position goes into the bucket of
  its category, and a context overwrites the slots of the buckets of its categories.
 */
module LogFormatter {
  import opened Arithmetic
  import opened Grammar
  import opened Wrappers

  datatype StringType = CharValue(c: char) | Smol(text: string) | Bytes(bytes: seq<nat>) | Nothing

  /** A context: the categories it covers, in bit order, and the value it gives an operator. */
  datatype Context = Context(categories: seq<nat>, eval: Operator -> StringType)

  predicate ContextOk(ctx: Context) {
    forall k | 0 <= k < |ctx.categories| :: ctx.categories[k] < NUM_OPERATOR_CATEGORIES
  }

  /** Positions are stored in one byte. */
  const MAX_INDEX := 255

  // ---------------------------------------------------------------- buckets

  predicate CategoriesOk(templates: seq<Template>) {
    forall i | 0 <= i < |templates| :: templates[i].Placeholder? ==> templates[i].category < NUM_OPERATOR_CATEGORIES
  }

  predicate InCategory(t: Template, c: nat) {
    t.Placeholder? && t.category == c
  }

  /** The positions of the placeholders of one category. */
  function Positions(templates: seq<Template>, c: nat): seq<nat> {
    if templates == [] then []
    else
      var n := |templates| - 1;
      if InCategory(templates[n], c) then Positions(templates[..n], c) + [n] else Positions(templates[..n], c)
  }

  /** A bucket is increasing and holds exactly the placeholders of its category. */
  lemma {:induction false} BucketExact(templates: seq<Template>, c: nat)
    ensures Increasing(Positions(templates, c))
    ensures forall k | 0 <= k < |Positions(templates, c)| :: Positions(templates, c)[k] < |templates|
    ensures forall i: nat :: i in Positions(templates, c) <==> i < |templates| && InCategory(templates[i], c)
  {
    if templates != [] {
      BucketExact(templates[..|templates| - 1], c);
    }
  }

  /** Every placeholder position is in exactly one bucket. */
  lemma InExactlyOneBucket(templates: seq<Template>, i: nat)
    requires CategoriesOk(templates) && i < |templates|
    ensures templates[i].Placeholder? <==> exists c | 0 <= c < NUM_OPERATOR_CATEGORIES :: i in Positions(templates, c)
    ensures forall c: nat, d: nat | i in Positions(templates, c) && i in Positions(templates, d) :: c == d
  {
    forall c: nat ensures i in Positions(templates, c) <==> InCategory(templates[i], c) {
      BucketExact(templates, c);
    }
    if templates[i].Placeholder? {
      assert i in Positions(templates, templates[i].category);
    }
  }

  ghost predicate BucketsOf(templates: seq<Template>, indices: seq<seq<nat>>) {
    && |indices| == NUM_OPERATOR_CATEGORIES
    && forall c | 0 <= c < NUM_OPERATOR_CATEGORIES :: indices[c] == Positions(templates, c)
  }

  // ---------------------------------------------------------------- compiling a format

  function Slot(t: Template): StringType {
    match t
    case Char(c) => CharValue(c)
    case Literal(text) => Smol(text)
    case Placeholder(_, _) => Nothing
  }

  function Slots(templates: seq<Template>): (r: seq<StringType>)
    ensures |r| == |templates| && forall i | 0 <= i < |r| :: r[i] == Slot(templates[i])
  {
    seq(|templates|, i requires 0 <= i < |templates| => Slot(templates[i]))
  }

  lemma CategoriesAppend(a: seq<Template>, b: seq<Template>)
    requires CategoriesOk(a) && CategoriesOk(b)
    ensures CategoriesOk(a + b)
  {
  }

  lemma {:induction false} GroupCategories(lang: Language, pending: string, ts: seq<Token>)
    requires LanguageOk(lang) && AllWellFormed(lang, ts)
    ensures CategoriesOk(Group(lang, pending, ts))
    decreases |ts|
  {
    if ts != [] {
      if ts[0].Field? {
        GroupCategories(lang, "", ts[1..]);
        assert ts == [ts[0]] + ts[1..];
        GroupField(lang, pending, ts[0], ts[1..]);
        CategoriesAppend([Meaning(lang, ts[0])], Group(lang, "", ts[1..]));
        CategoriesAppend(LiteralTemplates(pending), [Meaning(lang, ts[0])] + Group(lang, "", ts[1..]));
      } else {
        GroupCategories(lang, pending + Source(ts[0]), ts[1..]);
      }
    }
  }

  lemma ParsedCategories(lang: Language, input: string)
    requires LanguageOk(lang) && Templates(lang, input).Ok?
    ensures CategoriesOk(Templates(lang, input).value)
  {
    LexSound(lang, input);
    GroupCategories(lang, "", Lex(lang, input).value);
  }

  lemma PositionsSnoc(templates: seq<Template>, i: nat, c: nat)
    requires i < |templates|
    ensures Positions(templates[..i + 1], c) ==
            Positions(templates[..i], c) + (if InCategory(templates[i], c) then [i] else [])
  {
    assert templates[..i + 1][..i] == templates[..i];
  }

  /** Sorts the placeholder positions into buckets; a placeholder beyond position 255 is an error. */
  method FillBuckets(templates: seq<Template>) returns (r: Result<seq<seq<nat>>, FormatError>)
    requires CategoriesOk(templates)
    ensures r.Ok? <==> forall i | 0 <= i < |templates| :: templates[i].Placeholder? ==> i <= MAX_INDEX
    ensures r.Ok? ==> BucketsOf(templates, r.value)
    ensures r.Err? ==> r.error == InvalidOperatorIndex
  {
    var indices: seq<seq<nat>> := seq(NUM_OPERATOR_CATEGORIES, _ => []);
    for i := 0 to |templates|
      invariant BucketsOf(templates[..i], indices)
      invariant forall j | 0 <= j < i :: templates[j].Placeholder? ==> j <= MAX_INDEX
    {
      forall c | 0 <= c < NUM_OPERATOR_CATEGORIES
        ensures Positions(templates[..i + 1], c) ==
                Positions(templates[..i], c) + (if InCategory(templates[i], c) then [i] else [])
      {
        PositionsSnoc(templates, i, c);
      }
      if templates[i].Placeholder? {
        if i > MAX_INDEX {
          return Err(InvalidOperatorIndex);
        }
        var c := templates[i].category;
        indices := indices[c := indices[c] + [i]];
      }
    }
    assert templates[..|templates|] == templates;
    r := Ok(indices);
  }

  /** A compiled format: the templates, the buckets and the slots before any context. */
  datatype Compiled = Compiled(
    templates: seq<Template>, indices: seq<seq<nat>>, format: seq<StringType>, omitEmptyValues: bool)

  ghost predicate CompiledOk(f: Compiled) {
    CategoriesOk(f.templates) && BucketsOf(f.templates, f.indices) && |f.format| == |f.templates|
  }

  /** Parses and compiles a format. */
  method TryNew(lang: Language, input: string, omitEmptyValues: bool) returns (r: Result<Compiled, FormatError>)
    requires LanguageOk(lang)
    ensures Templates(lang, input).Err? ==> r == Err(Templates(lang, input).error)
    ensures r.Ok? <==>
              && Templates(lang, input).Ok?
              && forall i | 0 <= i < |Templates(lang, input).value| ::
                   Templates(lang, input).value[i].Placeholder? ==> i <= MAX_INDEX
    ensures r.Ok? ==>
              && CompiledOk(r.value)
              && r.value.templates == Templates(lang, input).value
              && r.value.omitEmptyValues == omitEmptyValues
              && forall i | 0 <= i < |r.value.templates| ::
                   match r.value.templates[i]
                   case Char(c) => r.value.format[i] == CharValue(c)
                   case Literal(text) => r.value.format[i] == Smol(text)
                   case Placeholder(_, _) => r.value.format[i] == Nothing
  {
    var parsed := Parse(lang, input);
    if parsed.Err? {
      return Err(parsed.error);
    }
    ParsedCategories(lang, input);
    var indices := FillBuckets(parsed.value);
    if indices.Err? {
      return Err(indices.error);
    }
    r := Ok(Compiled(parsed.value, indices.value, Slots(parsed.value), omitEmptyValues));
  }

  // ---------------------------------------------------------------- filling the slots

  /** Slot by slot, without buckets: a placeholder of a covered category gets the context's value, all else stays. */
  function FilledSlot(t: Template, slot: StringType, ctx: Context): StringType {
    if t.Placeholder? && t.category in ctx.categories then ctx.eval(t.op) else slot
  }

  function Filled(templates: seq<Template>, format: seq<StringType>, ctx: Context): (r: seq<StringType>)
    requires |format| == |templates|
    ensures |r| == |format| && forall i | 0 <= i < |r| :: r[i] == FilledSlot(templates[i], format[i], ctx)
  {
    seq(|format|, i requires 0 <= i < |format| => FilledSlot(templates[i], format[i], ctx))
  }

  class LogFormatterLocal {
    const conf: Compiled
    const format: array<StringType>

    ghost predicate Valid() {
      CompiledOk(conf) && format.Length == |conf.templates|
    }

    constructor (compiled: Compiled)
      requires CompiledOk(compiled)
      ensures Valid() && conf == compiled && fresh(format) && format[..] == compiled.format
    {
      conf := compiled;
      var n := |compiled.format|;
      var slots := new StringType[n](i requires 0 <= i < n => compiled.format[i]);
      format := slots;
      new;
      assert format[..] == compiled.format;
    }

    /** Overwrites the slots of one bucket. */
    method FillBucket(c: nat, ctx: Context)
      requires Valid() && c < NUM_OPERATOR_CATEGORIES
      modifies format
      ensures forall i | 0 <= i < format.Length ::
                format[i] == if InCategory(conf.templates[i], c) then ctx.eval(conf.templates[i].op) else old(format[i])
    {
      BucketExact(conf.templates, c);
      var bucket := conf.indices[c];
      for k := 0 to |bucket|
        invariant forall i | 0 <= i < format.Length ::
                    format[i] == if i in bucket[..k] then ctx.eval(conf.templates[i].op) else old(format[i])
      {
        var idx := bucket[k];
        assert idx in Positions(conf.templates, c);
        format[idx] := ctx.eval(conf.templates[idx].op);
        assert bucket[..k + 1] == bucket[..k] + [idx];
      }
      assert bucket[..|bucket|] == bucket;
    }

    /** Applies a context, bucket by bucket; the result is that of the plain pass over all slots. */
    method WithContext(ctx: Context)
      requires Valid() && ContextOk(ctx)
      modifies format
      ensures format[..] == Filled(conf.templates, old(format[..]), ctx)
    {
      for k := 0 to |ctx.categories|
        invariant forall i | 0 <= i < format.Length ::
                    format[i] == FilledSlot(conf.templates[i], old(format[i]), ctx.(categories := ctx.categories[..k]))
      {
        FillBucket(ctx.categories[k], ctx);
        assert ctx.categories[..k + 1] == ctx.categories[..k] + [ctx.categories[k]];
      }
      assert ctx.categories[..|ctx.categories|] == ctx.categories;
    }
  }

  // ---------------------------------------------------------------- a series of contexts

  function AfterAll(templates: seq<Template>, format: seq<StringType>, contexts: seq<Context>): (r: seq<StringType>)
    requires |format| == |templates|
    ensures |r| == |format|
  {
    if contexts == [] then format
    else Filled(templates, AfterAll(templates, format, contexts[..|contexts| - 1]), contexts[|contexts| - 1])
  }

  /** The last context that covers a category, if any. */
  function LastCovering(contexts: seq<Context>, c: nat): (r: Option<nat>)
    ensures r.Some? ==>
              && r.value < |contexts|
              && c in contexts[r.value].categories
              && forall k | r.value < k < |contexts| :: c !in contexts[k].categories
    ensures r.None? ==> forall k | 0 <= k < |contexts| :: c !in contexts[k].categories
  {
    if contexts == [] then None
    else if c in contexts[|contexts| - 1].categories then Some(|contexts| - 1)
    else LastCovering(contexts[..|contexts| - 1], c)
  }

  /** After any series of contexts a placeholder has the value of the last context that covers its category, and is
      as it was if there is none; literals are as they were. */
  lemma {:induction false} LastContextWins(templates: seq<Template>, format: seq<StringType>, contexts: seq<Context>,
                                           i: nat)
    requires |format| == |templates| && i < |templates|
    ensures AfterAll(templates, format, contexts)[i] ==
            if templates[i].Placeholder? && LastCovering(contexts, templates[i].category).Some?
            then contexts[LastCovering(contexts, templates[i].category).value].eval(templates[i].op)
            else format[i]
  {
    if contexts != [] {
      LastContextWins(templates, format, contexts[..|contexts| - 1], i);
    }
  }
}
