/**
  The batching access logger (orion-lib/src/access_log/logger.rs): one task that owns the log writers of every target
  and handles configuration and message items in batches of at most 64.

  A writer is told apart by a serial number.  Whether its destination can be opened is decided outside, by `opens`.
  `writes` records, in order, every line given to an open writer; a write that fails is only reported, and the logger
  goes on as if it had not failed.
 */
module AccessLogger {

  datatype Target = Listener(name: string) | Admin

  datatype Conf = Stdout | Stderr | File(path: string)

  type Line = string

  datatype Item = Configure(target: Target, confs: seq<Conf>) | Message(target: Target, lines: seq<Line>)

  datatype Writer = Writer(id: nat, conf: Conf)

  datatype Write = Write(writer: nat, line: Line)

  datatype State = State(writers: map<Target, seq<Writer>>, next: nat, writes: seq<Write>)

  const RECEIVER_BATCH_CAPACITY := 64

  type Opens = nat -> bool

  // ---------------------------------------------------------------- one item at a time

  function NewWriters(next: nat, confs: seq<Conf>): (r: seq<Writer>)
    ensures |r| == |confs| && forall i | 0 <= i < |r| :: r[i] == Writer(next + i, confs[i])
  {
    seq(|confs|, i requires 0 <= i < |confs| => Writer(next + i, confs[i]))
  }

  ghost predicate Configured(writers: seq<Writer>, confs: seq<Conf>) {
    |writers| == |confs| && forall i | 0 <= i < |confs| :: writers[i].conf == confs[i]
  }

  /** A line goes to a writer that can be opened. */
  function WriteOf(writer: Writer, line: Line, opens: Opens): seq<Write> {
    if opens(writer.id) then [Write(writer.id, line)] else []
  }

  /** Line `i` goes to writer `i`. */
  function WritesOf(writers: seq<Writer>, lines: seq<Line>, opens: Opens): seq<Write> {
    if writers == [] || lines == [] then []
    else WriteOf(writers[0], lines[0], opens) + WritesOf(writers[1..], lines[1..], opens)
  }

  ghost function Handle(s: State, item: Item, opens: Opens): State {
    match item
    case Configure(target, confs) =>
      if target in s.writers && Configured(s.writers[target], confs) then s
      else s.(writers := s.writers[target := NewWriters(s.next, confs)], next := s.next + |confs|)
    case Message(target, lines) =>
      if target in s.writers then s.(writes := s.writes + WritesOf(s.writers[target], lines, opens)) else s
  }

  ghost function HandleAll(s: State, items: seq<Item>, opens: Opens): State {
    if items == [] then s else Handle(HandleAll(s, items[..|items| - 1], opens), items[|items| - 1], opens)
  }

  lemma {:induction false} HandleAppend(s: State, a: seq<Item>, b: seq<Item>, opens: Opens)
    ensures HandleAll(s, a + b, opens) == HandleAll(HandleAll(s, a, opens), b, opens)
  {
    if b == [] {
      assert a + b == a;
    } else {
      HandleAppend(s, a, b[..|b| - 1], opens);
      assert (a + b)[..|a + b| - 1] == a + b[..|b| - 1];
    }
  }

  // ---------------------------------------------------------------- the logger

  function Flatten(batches: seq<seq<Item>>): seq<Item> {
    if batches == [] then [] else Flatten(batches[..|batches| - 1]) + batches[|batches| - 1]
  }

  /** The number of items in the batches before number `b`. */
  ghost function ItemsBefore(batches: seq<seq<Item>>, b: nat): nat
    requires b <= |batches|
  {
    if b == 0 then 0 else ItemsBefore(batches, b - 1) + |batches[b - 1]|
  }

  /** Every item of every batch is handled, in its place, and nothing else is. */
  lemma {:induction false} EveryItemInPlace(batches: seq<seq<Item>>, b: nat, i: nat)
    requires b < |batches| && i < |batches[b]|
    ensures |Flatten(batches)| == ItemsBefore(batches, |batches|)
    ensures ItemsBefore(batches, b) + i < |Flatten(batches)|
    ensures Flatten(batches)[ItemsBefore(batches, b) + i] == batches[b][i]
  {
    var n := |batches| - 1;
    FlattenLength(batches[..n]);
    SamePrefix(batches, n, n);
    if b < n {
      EveryItemInPlace(batches[..n], b, i);
      SamePrefix(batches, n, b);
    }
  }

  lemma {:induction false} FlattenLength(batches: seq<seq<Item>>)
    ensures |Flatten(batches)| == ItemsBefore(batches, |batches|)
  {
    if batches != [] {
      var n := |batches| - 1;
      FlattenLength(batches[..n]);
      SamePrefix(batches, n, n);
    }
  }

  lemma {:induction false} SamePrefix(batches: seq<seq<Item>>, n: nat, b: nat)
    requires b <= n <= |batches|
    ensures ItemsBefore(batches[..n], b) == ItemsBefore(batches, b)
  {
    if b > 0 {
      SamePrefix(batches, n, b - 1);
    }
  }

  class AccessLogger {
    var writers: map<Target, seq<Writer>>
    var next: nat
    var writes: seq<Write>
    const opens: Opens

    ghost function Now(): State
      reads this
    {
      State(writers, next, writes)
    }

    constructor (opens: Opens)
      ensures Now() == State(map[], 0, []) && this.opens == opens
    {
      writers, next, writes := map[], 0, [];
      this.opens := opens;
    }

    /** Whether the writers of a target differ from a configuration. */
    method UpdateRequired(target: Target, confs: seq<Conf>) returns (required: bool)
      ensures required <==> !(target in writers && Configured(writers[target], confs))
    {
      if target !in writers || |writers[target]| != |confs| {
        return true;
      }
      for i := 0 to |confs|
        invariant forall j | 0 <= j < i :: writers[target][j].conf == confs[j]
      {
        if writers[target][i].conf != confs[i] {
          return true;
        }
      }
      return false;
    }

    method HandleOne(item: Item)
      modifies this
      ensures Now() == Handle(old(Now()), item, opens)
    {
      match item
      case Configure(target, confs) =>
        var required := UpdateRequired(target, confs);
        if required {
          writers := writers[target := NewWriters(next, confs)];
          next := next + |confs|;
        }
      case Message(target, lines) =>
        if target in writers {
          WriteLines(writers[target], lines);
        }
    }

    method WriteLines(loggers: seq<Writer>, lines: seq<Line>)
      modifies this`writes
      ensures writes == old(writes) + WritesOf(loggers, lines, opens)
    {
      var i := 0;
      while i < |loggers| && i < |lines|
        invariant i <= |loggers| && i <= |lines|
        invariant writes + WritesOf(loggers[i..], lines[i..], opens) == old(writes) + WritesOf(loggers, lines, opens)
      {
        WritesStep(loggers, lines, i, opens, writes);
        if opens(loggers[i].id) {
          writes := writes + [Write(loggers[i].id, lines[i])];
        }
        i := i + 1;
      }
    }

    /** Handles batch after batch until the channel is closed.  How the items were cut into batches does not matter. */
    method Run(batches: seq<seq<Item>>)
      requires forall b | 0 <= b < |batches| :: 0 < |batches[b]| <= RECEIVER_BATCH_CAPACITY
      modifies this
      ensures Now() == HandleAll(old(Now()), Flatten(batches), opens)
    {
      for b := 0 to |batches|
        invariant Now() == HandleAll(old(Now()), Flatten(batches[..b]), opens)
      {
        HandleBatch(batches[b]);
        HandleAppend(old(Now()), Flatten(batches[..b]), batches[b], opens);
        assert batches[..b + 1][..b] == batches[..b];
      }
      assert batches[..|batches|] == batches;
    }

    method HandleBatch(buffer: seq<Item>)
      modifies this
      ensures Now() == HandleAll(old(Now()), buffer, opens)
    {
      for i := 0 to |buffer|
        invariant Now() == HandleAll(old(Now()), buffer[..i], opens)
      {
        HandleOne(buffer[i]);
        assert buffer[..i + 1][..i] == buffer[..i];
      }
      assert buffer[..|buffer|] == buffer;
    }
  }

  lemma WritesStep(loggers: seq<Writer>, lines: seq<Line>, i: nat, opens: Opens, done: seq<Write>)
    requires i < |loggers| && i < |lines|
    ensures done + WritesOf(loggers[i..], lines[i..], opens) ==
            (done + WriteOf(loggers[i], lines[i], opens)) + WritesOf(loggers[i + 1..], lines[i + 1..], opens)
  {
    assert loggers[i..][1..] == loggers[i + 1..] && lines[i..][1..] == lines[i + 1..];
  }

  // ---------------------------------------------------------------- what each writer gets

  /** The last configuration of a target. */
  ghost function LastConfs(items: seq<Item>, target: Target): seq<Conf> {
    if items == [] then []
    else
      var item := items[|items| - 1];
      if item.Configure? && item.target == target then item.confs else LastConfs(items[..|items| - 1], target)
  }

  ghost predicate EverConfigured(items: seq<Item>, target: Target) {
    exists k :: 0 <= k < |items| && items[k].Configure? && items[k].target == target
  }

  /** Lines number `i` of the target's messages since its configuration last changed. */
  ghost function LinesFor(items: seq<Item>, target: Target, i: nat): seq<Line> {
    if items == [] then []
    else
      var before, item := items[..|items| - 1], items[|items| - 1];
      if item.target != target then LinesFor(before, target, i)
      else
        match item
        case Configure(_, confs) =>
          if EverConfigured(before, target) && confs == LastConfs(before, target) then LinesFor(before, target, i)
          else []
        case Message(_, lines) =>
          if EverConfigured(before, target) && i < |lines| then LinesFor(before, target, i) + [lines[i]]
          else LinesFor(before, target, i)
  }

  /** The lines written to one writer. */
  ghost function WrittenTo(writes: seq<Write>, id: nat): seq<Line> {
    if writes == [] then []
    else
      var rest := WrittenTo(writes[..|writes| - 1], id);
      if writes[|writes| - 1].writer == id then rest + [writes[|writes| - 1].line] else rest
  }

  lemma {:induction false} WrittenAppend(a: seq<Write>, b: seq<Write>, id: nat)
    ensures WrittenTo(a + b, id) == WrittenTo(a, id) + WrittenTo(b, id)
  {
    if b == [] {
      assert a + b == a;
    } else {
      WrittenAppend(a, b[..|b| - 1], id);
      assert (a + b)[..|a + b| - 1] == a + b[..|b| - 1];
    }
  }

  lemma {:induction false} NotWritten(writes: seq<Write>, id: nat)
    requires forall k | 0 <= k < |writes| :: writes[k].writer != id
    ensures WrittenTo(writes, id) == []
  {
    if writes != [] {
      NotWritten(writes[..|writes| - 1], id);
    }
  }

  lemma {:induction false} WritersOfWrites(writers: seq<Writer>, lines: seq<Line>, opens: Opens, k: nat)
    requires k < |WritesOf(writers, lines, opens)|
    ensures exists i :: 0 <= i < |writers| && WritesOf(writers, lines, opens)[k].writer == writers[i].id
  {
    var n := if opens(writers[0].id) then 1 else 0;
    if k < n {
      assert WritesOf(writers, lines, opens)[k].writer == writers[0].id;
    } else {
      WritersOfWrites(writers[1..], lines[1..], opens, k - n);
      var i :| 0 <= i < |writers[1..]| && WritesOf(writers[1..], lines[1..], opens)[k - n].writer == writers[1..][i].id;
      assert WritesOf(writers, lines, opens)[k].writer == writers[i + 1].id;
    }
  }

  ghost predicate DistinctIds(writers: seq<Writer>) {
    forall i, j | 0 <= i < j < |writers| :: writers[i].id != writers[j].id
  }

  lemma OtherWriters(writers: seq<Writer>, lines: seq<Line>, opens: Opens, id: nat)
    requires forall i | 0 <= i < |writers| :: writers[i].id != id
    ensures WrittenTo(WritesOf(writers, lines, opens), id) == []
  {
    forall k | 0 <= k < |WritesOf(writers, lines, opens)| ensures WritesOf(writers, lines, opens)[k].writer != id {
      WritersOfWrites(writers, lines, opens, k);
    }
    NotWritten(WritesOf(writers, lines, opens), id);
  }

  lemma WrittenOne(writer: Writer, line: Line, opens: Opens, id: nat)
    ensures WrittenTo(WriteOf(writer, line, opens), id) == if opens(writer.id) && writer.id == id then [line] else []
  {
    assert [Write(writer.id, line)][..0] == [];
  }

  /** A message gives writer `i` line `i` and nothing else. */
  lemma {:induction false} LineByLine(writers: seq<Writer>, lines: seq<Line>, opens: Opens, i: nat)
    requires DistinctIds(writers) && i < |writers|
    ensures WrittenTo(WritesOf(writers, lines, opens), writers[i].id) ==
            if opens(writers[i].id) && i < |lines| then [lines[i]] else []
  {
    var id := writers[i].id;
    if lines != [] {
      WrittenAppend(WriteOf(writers[0], lines[0], opens), WritesOf(writers[1..], lines[1..], opens), id);
      WrittenOne(writers[0], lines[0], opens, id);
      if i == 0 {
        OtherWriters(writers[1..], lines[1..], opens, id);
      } else {
        LineByLine(writers[1..], lines[1..], opens, i - 1);
      }
    }
  }

  /** Writer `i` of target `t` has been given exactly its lines. */
  ghost predicate WriterOk(items: seq<Item>, s: State, opens: Opens, t: Target, i: nat)
    requires t in s.writers && i < |s.writers[t]|
  {
    var w := s.writers[t][i];
    WrittenTo(s.writes, w.id) == if opens(w.id) then LinesFor(items, t, i) else []
  }

  /** The numbers in use are below the next one, and every writer has its own. */
  ghost predicate UniqueIds(s: State) {
    (forall k | 0 <= k < |s.writes| :: s.writes[k].writer < s.next) &&
    (forall t, i | t in s.writers && 0 <= i < |s.writers[t]| :: s.writers[t][i].id < s.next) &&
    forall t, i, u, j | t in s.writers && u in s.writers && 0 <= i < |s.writers[t]| && 0 <= j < |s.writers[u]| ::
      s.writers[t][i].id == s.writers[u][j].id ==> t == u && i == j
  }

  ghost predicate TargetsOk(items: seq<Item>, s: State) {
    forall t :: TargetOk(items, s, t)
  }

  ghost predicate TargetOk(items: seq<Item>, s: State, t: Target) {
    && (t in s.writers <==> EverConfigured(items, t))
    && (t in s.writers ==> Configured(s.writers[t], LastConfs(items, t)))
  }

  ghost predicate WritersOk(items: seq<Item>, s: State, opens: Opens) {
    forall t, i | t in s.writers && 0 <= i < |s.writers[t]| :: WriterOk(items, s, opens, t, i)
  }

  ghost predicate Inv(items: seq<Item>, s: State, opens: Opens) {
    TargetsOk(items, s) && UniqueIds(s) && WritersOk(items, s, opens)
  }

  lemma StepKeepsTargets(items: seq<Item>, s: State, opens: Opens, item: Item)
    requires TargetsOk(items, s)
    ensures TargetsOk(items + [item], Handle(s, item, opens))
  {
    Snoc(items, item);
    forall t ensures TargetOk(items + [item], Handle(s, item, opens), t) {
      assert TargetOk(items, s, t);
      EverSnoc(items, item, t);
    }
  }

  lemma EverSnoc(items: seq<Item>, item: Item, t: Target)
    ensures EverConfigured(items + [item], t) <==> EverConfigured(items, t) || (item.Configure? && item.target == t)
  {
    var all := items + [item];
    if EverConfigured(items, t) {
      var k :| 0 <= k < |items| && items[k].Configure? && items[k].target == t;
      assert all[k] == items[k];
    }
    assert all[|items|] == item;
  }

  lemma Snoc(items: seq<Item>, item: Item)
    ensures (items + [item])[..|items + [item]| - 1] == items && (items + [item])[|items + [item]| - 1] == item
  {
  }

  lemma MessageKeepsWriter(items: seq<Item>, s: State, opens: Opens, item: Item, t: Target, i: nat)
    requires Inv(items, s, opens) && item.Message? && t in s.writers && i < |s.writers[t]|
    ensures WriterOk(items + [item], Handle(s, item, opens), opens, t, i)
  {
    assert WriterOk(items, s, opens, t, i) && TargetOk(items, s, item.target);
    Snoc(items, item);
    if item.target in s.writers {
      var ws, id := s.writers[item.target], s.writers[t][i].id;
      WrittenAppend(s.writes, WritesOf(ws, item.lines, opens), id);
      if item.target == t {
        LineByLine(ws, item.lines, opens, i);
      } else {
        OtherWriters(ws, item.lines, opens, id);
      }
    }
  }

  lemma MessageKeepsWriters(items: seq<Item>, s: State, opens: Opens, item: Item)
    requires Inv(items, s, opens) && item.Message?
    ensures WritersOk(items + [item], Handle(s, item, opens), opens)
  {
    var s' := Handle(s, item, opens);
    forall t, i | t in s'.writers && 0 <= i < |s'.writers[t]| ensures WriterOk(items + [item], s', opens, t, i) {
      MessageKeepsWriter(items, s, opens, item, t, i);
    }
  }

  lemma MessageKeepsIds(s: State, item: Item, opens: Opens)
    requires item.Message? && UniqueIds(s)
    ensures UniqueIds(Handle(s, item, opens))
  {
    if item.target in s.writers {
      var more := WritesOf(s.writers[item.target], item.lines, opens);
      forall k | 0 <= k < |more| ensures more[k].writer < s.next {
        WritersOfWrites(s.writers[item.target], item.lines, opens, k);
      }
    }
  }

  lemma ConfigureKeepsWriter(items: seq<Item>, s: State, opens: Opens, item: Item, t: Target, i: nat)
    requires Inv(items, s, opens) && item.Configure?
    requires t in Handle(s, item, opens).writers && i < |Handle(s, item, opens).writers[t]|
    ensures WriterOk(items + [item], Handle(s, item, opens), opens, t, i)
  {
    Snoc(items, item);
    assert TargetOk(items, s, t);
    var s' := Handle(s, item, opens);
    if t == item.target && !(t in s.writers && Configured(s.writers[t], item.confs)) {
      NotWritten(s.writes, s'.writers[t][i].id);
      if t in s.writers {
        assert LastConfs(items, t) != item.confs;
      }
    } else {
      assert WriterOk(items, s, opens, t, i);
      if t == item.target {
        assert LastConfs(items, t) == item.confs;
      }
    }
  }

  lemma ConfigureKeepsWriters(items: seq<Item>, s: State, opens: Opens, item: Item)
    requires Inv(items, s, opens) && item.Configure?
    ensures WritersOk(items + [item], Handle(s, item, opens), opens)
  {
    var s' := Handle(s, item, opens);
    forall t, i | t in s'.writers && 0 <= i < |s'.writers[t]| ensures WriterOk(items + [item], s', opens, t, i) {
      ConfigureKeepsWriter(items, s, opens, item, t, i);
    }
  }

  lemma ConfigureKeepsIds(s: State, item: Item, opens: Opens)
    requires item.Configure? && UniqueIds(s)
    ensures UniqueIds(Handle(s, item, opens))
  {
  }

  lemma StepKeepsInv(items: seq<Item>, s: State, opens: Opens, item: Item)
    requires Inv(items, s, opens)
    ensures Inv(items + [item], Handle(s, item, opens), opens)
  {
    StepKeepsTargets(items, s, opens, item);
    if item.Message? {
      MessageKeepsIds(s, item, opens);
      MessageKeepsWriters(items, s, opens, item);
    } else {
      ConfigureKeepsIds(s, item, opens);
      ConfigureKeepsWriters(items, s, opens, item);
    }
  }

  const EMPTY := State(map[], 0, [])

  lemma {:induction false} AllKeepInv(items: seq<Item>, opens: Opens)
    ensures Inv(items, HandleAll(EMPTY, items, opens), opens)
  {
    if items != [] {
      var before, item := items[..|items| - 1], items[|items| - 1];
      AllKeepInv(before, opens);
      assert items == before + [item];
      StepKeepsInv(before, HandleAll(EMPTY, before, opens), opens, item);
    }
  }

  /** After any items a target has writers exactly if it was ever configured, they match its last configuration, and
      writer `i` has been given lines `i` of the target's messages since that configuration came into force, in order
      and nothing else, or nothing if it cannot be opened. */
  lemma EveryWriterGetsItsLines(items: seq<Item>, opens: Opens, t: Target, i: nat)
    ensures var s := HandleAll(EMPTY, items, opens);
            && (t in s.writers <==> EverConfigured(items, t))
            && (t in s.writers ==> Configured(s.writers[t], LastConfs(items, t)))
            && (t in s.writers && i < |s.writers[t]| ==>
                  WrittenTo(s.writes, s.writers[t][i].id) ==
                    if opens(s.writers[t][i].id) then LinesFor(items, t, i) else [])
  {
    AllKeepInv(items, opens);
    var s := HandleAll(EMPTY, items, opens);
    assert TargetOk(items, s, t);
    if t in s.writers && i < |s.writers[t]| {
      assert WriterOk(items, s, opens, t, i);
    }
  }

  /** A configuration equal to the one in force keeps the writers themselves. */
  lemma SameConfigurationKeepsWriters(items: seq<Item>, opens: Opens, t: Target, confs: seq<Conf>)
    requires EverConfigured(items, t) && confs == LastConfs(items, t)
    ensures HandleAll(EMPTY, items + [Configure(t, confs)], opens) == HandleAll(EMPTY, items, opens)
  {
    AllKeepInv(items, opens);
    assert TargetOk(items, HandleAll(EMPTY, items, opens), t);
    Snoc(items, Configure(t, confs));
  }
}
