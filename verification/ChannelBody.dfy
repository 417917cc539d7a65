/**
  A body whose frames are handed over a bounded channel (orion-lib/src/body/channel_body.rs): the bridge pulls items
  from the original body and sends them, the channel body peeks at them and hands them out.

  The steps of the two sides interleave freely; an operation of the bridge may also be abandoned between two of its
  steps.  The channel is the bounded channel of tokio, and peeking takes at most one item out of it.
 */
module ChannelBody {
  import opened Wrappers

  const CAPACITY := 32

  /** What a body yields: a data frame, a trailers frame or an error. */
  datatype Item = Data(bytes: nat) | Trailers(fields: nat) | Failure(error: nat)

  datatype Kind = Complete | CompleteData | ObserveAndInject

  /** An operation of the bridge.  `base` items had been sent when it began, and `goal` is what they and the rest of the
      body were then. */
  datatype Call = Call(kind: Kind, base: nat, goal: seq<Item>)

  datatype Answer = AllSent | Stopped(item: Item) | Observed(seen: Option<Item>) | Lost | Refused

  datatype Op =
    | Idle | Pulling(call: Call) | Sending(call: Call, item: Item) | Injecting(item: Item)
    | Done(call: Call, answer: Answer) | InjectDone(sent: bool)

  /** The bridge: what the original body still holds, whether the sender is there, and the operation under way. */
  datatype Bridge = Bridge(source: seq<Item>, injector: bool, op: Op)

  /** The channel: what is in it, whether the channel body is there and has reported the end, and everything sent and
      handed out so far. */
  datatype Wire = Wire(
    queue: seq<Item>, peeked: Option<Item>, receiver: bool, ended: bool, injected: seq<Item>, delivered: seq<Item>)

  datatype State = State(bridge: Bridge, wire: Wire)

  datatype Step =
    | Begin(kind: Kind) | Pull | Send | SendFails | Abandon | Inject(item: Item) | Take | Close   // the bridge
    | Peek | Next | DropBody                                                                      // the channel body

  ghost function Initial(body: seq<Item>): State {
    State(Bridge(body, true, Idle), Wire([], None, true, false, [], []))
  }

  ghost predicate Busy(op: Op) {
    op.Pulling? || op.Sending? || op.Injecting?
  }

  ghost predicate Enabled(s: State, step: Step) {
    var op, wire := s.bridge.op, s.wire;
    match step
    case Begin(_) => !Busy(op)
    case Pull => op.Pulling?
    case Send => HasItem(op) && s.bridge.injector && wire.receiver && |wire.queue| < CAPACITY
    case SendFails => HasItem(op) && (!s.bridge.injector || !wire.receiver)
    case Abandon => Busy(op)
    case Inject(_) => !Busy(op)
    case Take => !Busy(op)
    case Close => !Busy(op)
    case Peek => wire.receiver
    case Next => wire.receiver
    case DropBody => wire.receiver
  }

  ghost predicate HasItem(op: Op) {
    op.Sending? || op.Injecting?
  }

  /** What pulling one item leads to: `complete_data` stops at the first item that is not data. */
  ghost function Pulled(b: Bridge): Bridge
    requires b.op.Pulling?
  {
    var call := b.op.call;
    if b.source == [] then b.(op := Done(call, if call.kind == ObserveAndInject then Observed(None) else AllSent))
    else
      var item := b.source[0];
      if call.kind == CompleteData && !item.Data? then Bridge(b.source[1..], b.injector, Done(call, Stopped(item)))
      else Bridge(b.source[1..], b.injector, Sending(call, item))
  }

  /** The body after its next item, if there is one, was taken without being sent. */
  ghost function Rest(source: seq<Item>): seq<Item> {
    if source == [] then [] else source[1..]
  }

  /** The operation after its item was sent, or could not be sent. */
  ghost function AfterSend(op: Op, sent: bool): Op
    requires HasItem(op)
  {
    if op.Injecting? then InjectDone(sent)
    else if op.call.kind == ObserveAndInject then Done(op.call, Observed(Some(op.item)))
    else if sent then Pulling(op.call)
    else Done(op.call, Lost)
  }

  ghost function Enqueued(w: Wire, item: Item): Wire {
    w.(queue := w.queue + [item], injected := w.injected + [item])
  }

  /** `complete` and `complete_data` do nothing without a sender. */
  ghost function Begun(b: Bridge, kind: Kind, injected: seq<Item>): Bridge {
    var call := Call(kind, |injected|, injected + b.source);
    if kind != ObserveAndInject && !b.injector then b.(op := Done(call, Refused)) else b.(op := Pulling(call))
  }

  ghost function Peeked(w: Wire): Wire {
    if w.peeked.None? && w.queue != [] then w.(peeked := Some(w.queue[0]), queue := w.queue[1..]) else w
  }

  /** Hands out the peeked item, else the first of the queue; reports the end once the sender is gone. */
  ghost function Taken(w: Wire, injector: bool): Wire {
    if w.peeked.Some? then w.(peeked := None, delivered := w.delivered + [w.peeked.value])
    else if w.queue != [] then w.(queue := w.queue[1..], delivered := w.delivered + [w.queue[0]])
    else w.(ended := w.ended || !injector)
  }

  ghost function Do(s: State, step: Step): State
    requires Enabled(s, step)
  {
    var b, w := s.bridge, s.wire;
    match step
    case Begin(kind) => State(Begun(b, kind, w.injected), w)
    case Pull => State(Pulled(b), w)
    case Send => State(b.(op := AfterSend(b.op, true)), Enqueued(w, b.op.item))
    case SendFails => State(b.(op := AfterSend(b.op, false)), w)
    case Abandon => State(b.(op := Idle), w)
    case Inject(item) => State(b.(op := Injecting(item)), w)
    case Take => State(b.(source := Rest(b.source), op := Idle), w)
    case Close => State(b.(injector := false), w)
    case Peek => State(b, Peeked(w))
    case Next => State(b, Taken(w, b.injector))
    case DropBody => State(b, w.(receiver := false, queue := [], peeked := None))
  }

  ghost predicate Possible(s: State, steps: seq<Step>)
    decreases |steps|
  {
    steps == [] || (Enabled(s, steps[0]) && Possible(Do(s, steps[0]), steps[1..]))
  }

  ghost function Run(s: State, steps: seq<Step>): State
    requires Possible(s, steps)
    decreases |steps|
  {
    if steps == [] then s else Run(Do(s, steps[0]), steps[1..])
  }

  // ---------------------------------------------------------------- the channel

  /** What is sent and not yet handed out, in order. */
  ghost function Waiting(w: Wire): seq<Item> {
    (if w.peeked.Some? then [w.peeked.value] else []) + w.queue
  }

  ghost predicate WireOk(w: Wire, injector: bool) {
    && |w.queue| <= CAPACITY
    && (if w.receiver then w.injected == w.delivered + Waiting(w) else w.delivered <= w.injected)
    && (w.ended ==> !injector && w.delivered == w.injected)
  }

  ghost predicate ChannelOk(s: State) {
    WireOk(s.wire, s.bridge.injector)
  }

  /** Handing out takes the first waiting item, whether it was peeked or not. */
  lemma TakesFirst(w: Wire, injector: bool)
    requires WireOk(w, injector) && w.receiver
    ensures WireOk(Taken(w, injector), injector)
    ensures Waiting(w) != [] ==>
              && Taken(w, injector).delivered == w.delivered + [Waiting(w)[0]]
              && Waiting(Taken(w, injector)) == Waiting(w)[1..]
    ensures Waiting(w) == [] ==> Taken(w, injector) == w.(ended := w.ended || !injector)
  {
  }

  /** Waiting for a frame holds the first one aside, and leaves what will be handed out as it is. */
  lemma PeekChangesNothing(w: Wire)
    ensures Peeked(w).peeked == if Waiting(w) == [] then None else Some(Waiting(w)[0])
    ensures Waiting(Peeked(w)) == Waiting(w) && |Peeked(w).queue| <= |w.queue|
    ensures Peeked(w) == w.(queue := Peeked(w).queue, peeked := Peeked(w).peeked)
  {
  }

  /** A sent item waits behind the others. */
  lemma SentWaits(w: Wire, item: Item)
    ensures Waiting(Enqueued(w, item)) == Waiting(w) + [item]
  {
  }

  lemma SendKeepsWire(w: Wire, item: Item)
    requires WireOk(w, true) && w.receiver && |w.queue| < CAPACITY
    ensures WireOk(Enqueued(w, item), true)
  {
  }

  lemma StepKeepsChannel(s: State, step: Step)
    requires ChannelOk(s) && Enabled(s, step)
    ensures ChannelOk(Do(s, step))
  {
    match step {
      case Send => SendKeepsWire(s.wire, s.bridge.op.item);
      case Peek => PeekChangesNothing(s.wire);
      case Next => TakesFirst(s.wire, s.bridge.injector);
      case _ =>
    }
  }

  lemma {:induction false} RunKeepsChannel(s: State, steps: seq<Step>)
    requires ChannelOk(s) && Possible(s, steps)
    ensures ChannelOk(Run(s, steps))
    decreases |steps|
  {
    if steps != [] {
      StepKeepsChannel(s, steps[0]);
      RunKeepsChannel(Do(s, steps[0]), steps[1..]);
    }
  }

  /** In every run the items handed out are a prefix of the items sent, with at most 33 between the two, and the end is
      reported only after all of them. */
  lemma DeliveredInOrder(body: seq<Item>, steps: seq<Step>)
    requires Possible(Initial(body), steps)
    ensures var w := Run(Initial(body), steps).wire;
            && w.delivered <= w.injected
            && (w.receiver ==> |w.injected| - |w.delivered| <= CAPACITY + 1)
            && (w.ended ==> w.delivered == w.injected)
  {
    assert ChannelOk(Initial(body));
    RunKeepsChannel(Initial(body), steps);
  }

  /** Two channels that differ at most in whether the first waiting item has been peeked. */
  ghost predicate AgreeWires(v: Wire, w: Wire) {
    && Waiting(v) == Waiting(w)
    && v.receiver == w.receiver && v.ended == w.ended && v.injected == w.injected && v.delivered == w.delivered
  }

  ghost predicate Agree(s: State, t: State) {
    s.bridge == t.bridge && AgreeWires(s.wire, t.wire)
  }

  lemma NextAgrees(v: Wire, w: Wire, injector: bool)
    requires WireOk(v, injector) && WireOk(w, injector) && AgreeWires(v, w) && v.receiver
    ensures AgreeWires(Taken(v, injector), Taken(w, injector))
  {
    TakesFirst(v, injector);
    TakesFirst(w, injector);
  }

  lemma StepAgrees(s: State, t: State, step: Step)
    requires ChannelOk(s) && ChannelOk(t) && Agree(s, t) && Enabled(s, step) && Enabled(t, step) && !step.Peek?
    ensures Agree(Do(s, step), Do(t, step))
  {
    match step {
      case Send =>
        SentWaits(s.wire, s.bridge.op.item);
        SentWaits(t.wire, s.bridge.op.item);
      case Next => NextAgrees(s.wire, t.wire, s.bridge.injector);
      case _ =>
    }
  }

  ghost function WithoutPeeks(steps: seq<Step>): seq<Step> {
    if steps == [] then []
    else if steps[0].Peek? then WithoutPeeks(steps[1..])
    else [steps[0]] + WithoutPeeks(steps[1..])
  }

  /** Every item is sent while fewer items than the channel holds are waiting, counting a peeked one. */
  ghost predicate RoomAtSends(s: State, steps: seq<Step>)
    requires Possible(s, steps)
    decreases |steps|
  {
    steps != [] ==>
      && (steps[0].Send? ==> |Waiting(s.wire)| < CAPACITY)
      && RoomAtSends(Do(s, steps[0]), steps[1..])
  }

  /** A step is possible without the waiting for frames before it unless it sends into a full channel. */
  lemma EnabledWithoutPeeks(s: State, t: State, step: Step)
    requires Agree(s, t) && Enabled(s, step) && t.wire.peeked.None? && !step.Peek?
    ensures Enabled(t, step) <==> (step.Send? ==> |Waiting(s.wire)| < CAPACITY)
    ensures Enabled(t, step) ==> Do(t, step).wire.peeked.None?
  {
    assert Waiting(t.wire) == t.wire.queue;
  }

  lemma {:induction false} AgreeWithoutPeeks(s: State, t: State, steps: seq<Step>)
    requires ChannelOk(s) && ChannelOk(t) && Agree(s, t) && Possible(s, steps) && t.wire.peeked.None?
    ensures Possible(t, WithoutPeeks(steps)) <==> RoomAtSends(s, steps)
    ensures Possible(t, WithoutPeeks(steps)) ==> Agree(Run(s, steps), Run(t, WithoutPeeks(steps)))
    decreases |steps|
  {
    if steps != [] {
      StepKeepsChannel(s, steps[0]);
      if steps[0].Peek? {
        PeekChangesNothing(s.wire);
        AgreeWithoutPeeks(Do(s, steps[0]), t, steps[1..]);
      } else {
        assert WithoutPeeks(steps)[1..] == WithoutPeeks(steps[1..]);
        EnabledWithoutPeeks(s, t, steps[0]);
        if Enabled(t, steps[0]) {
          StepKeepsChannel(t, steps[0]);
          StepAgrees(s, t, steps[0]);
          AgreeWithoutPeeks(Do(s, steps[0]), Do(t, steps[0]), steps[1..]);
        }
      }
    }
  }

  /** Leaving out all waiting for frames, a run is still possible exactly when it sends no item while the channel's full
      number of items is waiting, and then it hands out the same items and reports the same end. */
  lemma PeeksDoNotMatter(body: seq<Item>, steps: seq<Step>)
    requires Possible(Initial(body), steps)
    ensures Possible(Initial(body), WithoutPeeks(steps)) <==> RoomAtSends(Initial(body), steps)
    ensures RoomAtSends(Initial(body), steps) ==>
              var v, w := Run(Initial(body), steps).wire, Run(Initial(body), WithoutPeeks(steps)).wire;
              v.delivered == w.delivered && v.ended == w.ended && Waiting(v) == Waiting(w)
  {
    assert ChannelOk(Initial(body));
    AgreeWithoutPeeks(Initial(body), Initial(body), steps);
  }

  // ---------------------------------------------------------------- the operations of the bridge

  ghost predicate DataSince(s: seq<Item>, base: nat) {
    forall k | base <= k < |s| :: s[k].Data?
  }

  /** While an operation that sends the body runs, the sent items, the one in its hands and the rest of the body are
      together what they were when it began. */
  ghost predicate InHand(injected: seq<Item>, source: seq<Item>, call: Call, hand: seq<Item>) {
    && call.base <= |injected|
    && call.goal == injected + (hand + source)
    && (call.kind == CompleteData ==> DataSince(injected, call.base))
    && (call.kind == ObserveAndInject ==> |injected| == call.base)
  }

  ghost predicate OpOk(s: State) {
    var injected, source := s.wire.injected, s.bridge.source;
    match s.bridge.op
    case Idle => true
    case Injecting(_) => true
    case InjectDone(_) => true
    case Pulling(call) => InHand(injected, source, call, [])
    case Sending(call, item) => InHand(injected, source, call, [item]) && (call.kind == CompleteData ==> item.Data?)
    case Done(call, answer) => AnswerOk(s, call, answer)
  }

  ghost predicate AnswerOk(s: State, call: Call, answer: Answer) {
    var injected, source := s.wire.injected, s.bridge.source;
    match answer
    case AllSent => call.kind != ObserveAndInject && InHand(injected, source, call, []) && source == []
    case Stopped(item) => call.kind == CompleteData && InHand(injected, source, call, [item]) && !item.Data?
    case Lost => call.kind != ObserveAndInject && Broken(s) && exists item :: InHand(injected, source, call, [item])
    case Refused =>
      && call.kind != ObserveAndInject && !s.bridge.injector
      && InHand(injected, source, call, []) && |injected| == call.base
    case Observed(None) => call.kind == ObserveAndInject && InHand(injected, source, call, []) && source == []
    case Observed(Some(item)) => call.kind == ObserveAndInject && Seen(s, call, item)
  }

  /** The sender or the receiver is gone, for good. */
  ghost predicate Broken(s: State) {
    !s.bridge.injector || !s.wire.receiver
  }

  /** The item was the next of the body; it was sent if the sender and the receiver were there. */
  ghost predicate Seen(s: State, call: Call, item: Item) {
    var injected, source := s.wire.injected, s.bridge.source;
    || (|injected| == call.base + 1 && injected[call.base] == item && call.goal == injected + source)
    || (|injected| == call.base && call.goal == injected + ([item] + source) && Broken(s))
  }

  lemma PullKeepsOp(s: State)
    requires OpOk(s) && s.bridge.op.Pulling?
    ensures OpOk(Do(s, Pull))
  {
  }

  lemma SendKeepsOp(s: State)
    requires OpOk(s) && Enabled(s, Send)
    ensures OpOk(Do(s, Send))
  {
  }

  lemma StepKeepsOp(s: State, step: Step)
    requires OpOk(s) && Enabled(s, step)
    ensures OpOk(Do(s, step))
  {
    match step {
      case Begin(kind) => assert [] + s.bridge.source == s.bridge.source;
      case Pull => PullKeepsOp(s);
      case Send => SendKeepsOp(s);
      case _ =>
    }
  }

  lemma {:induction false} RunKeepsOp(s: State, steps: seq<Step>)
    requires OpOk(s) && Possible(s, steps)
    ensures OpOk(Run(s, steps))
    decreases |steps|
  {
    if steps != [] {
      StepKeepsOp(s, steps[0]);
      RunKeepsOp(Do(s, steps[0]), steps[1..]);
    }
  }

  /** Steps during which the bridge starts nothing new. */
  ghost predicate NothingBegins(steps: seq<Step>) {
    forall k | 0 <= k < |steps| :: !steps[k].Begin? && !steps[k].Inject? && !steps[k].Take?
  }

  ghost predicate Serves(op: Op, call: Call) {
    op.Idle? || ((op.Pulling? || op.Sending? || op.Done?) && op.call == call)
  }

  lemma {:induction false} SameCall(s: State, steps: seq<Step>, call: Call)
    requires Possible(s, steps) && NothingBegins(steps) && Serves(s.bridge.op, call)
    ensures Serves(Run(s, steps).bridge.op, call)
    decreases |steps|
  {
    if steps != [] {
      SameCall(Do(s, steps[0]), steps[1..], call);
    }
  }

  /** `complete` that returns with the receiver and the sender in place has sent the whole remaining body, in order.
      `complete_data` has sent exactly the data frames before the first other item, and returns that item, which stays
      unsent, or none if there was no other item.  `observe_and_inject` has sent the next item of the body and returns
      it.  If the sender or the receiver is gone, one item at most is lost. */
  lemma CompletedCall(body: seq<Item>, before: seq<Step>, kind: Kind, during: seq<Step>)
    requires Possible(Initial(body), before) && Enabled(Run(Initial(body), before), Begin(kind))
    requires Possible(Do(Run(Initial(body), before), Begin(kind)), during) && NothingBegins(during)
    requires Run(Do(Run(Initial(body), before), Begin(kind)), during).bridge.op.Done?
    ensures var start := Run(Initial(body), before);
            var end := Run(Do(start, Begin(kind)), during);
            CompleteResult(kind, start.wire.injected, start.bridge.source,
                           end.bridge.op.answer, end.wire.injected, end.bridge.source, Broken(end))
  {
    RunKeepsOp(Initial(body), before);
    var start := Run(Initial(body), before);
    StepKeepsOp(start, Begin(kind));
    var begun := Do(start, Begin(kind));
    RunKeepsOp(begun, during);
    SameCall(begun, during, Call(kind, |start.wire.injected|, start.wire.injected + start.bridge.source));
    var end := Run(begun, during);
    SentIsKept(begun, during);
    ResultOf(end, start.wire.injected, start.bridge.source);
  }

  lemma {:induction false} SentIsKept(s: State, steps: seq<Step>)
    requires Possible(s, steps)
    ensures s.wire.injected <= Run(s, steps).wire.injected
    decreases |steps|
  {
    if steps != [] {
      SentIsKept(Do(s, steps[0]), steps[1..]);
    }
  }

  lemma ResultOf(end: State, sent: seq<Item>, body: seq<Item>)
    requires OpOk(end) && end.bridge.op.Done? && sent <= end.wire.injected
    requires end.bridge.op.call == Call(end.bridge.op.call.kind, |sent|, sent + body)
    ensures CompleteResult(end.bridge.op.call.kind, sent, body, end.bridge.op.answer, end.wire.injected,
                           end.bridge.source, Broken(end))
  {
    var injected, source := end.wire.injected, end.bridge.source;
    NothingInHand(injected, source);
    match end.bridge.op.answer {
      case Refused => Unsent(sent, body, injected, source);
      case Observed(None) => Unsent(sent, body, injected, source);
      case Observed(Some(item)) =>
        if |injected| == |sent| {
          Unsent(sent, body, injected, [item] + source);
        } else {
          OneSent(sent, body, injected, item, source);
        }
      case _ =>
    }
  }

  lemma NothingInHand(injected: seq<Item>, source: seq<Item>)
    ensures injected + ([] + source) == injected + source
    ensures source == [] ==> injected + source == injected
  {
    assert [] + source == source;
  }

  lemma Unsent(sent: seq<Item>, body: seq<Item>, injected: seq<Item>, rest: seq<Item>)
    requires sent <= injected && |injected| == |sent| && sent + body == injected + rest
    ensures injected == sent && body == rest
  {
    assert body == (sent + body)[|sent|..] && rest == (injected + rest)[|sent|..];
  }

  lemma OneSent(sent: seq<Item>, body: seq<Item>, injected: seq<Item>, item: Item, rest: seq<Item>)
    requires sent <= injected && |injected| == |sent| + 1 && injected[|sent|] == item && sent + body == injected + rest
    ensures injected == sent + [item] && body == [item] + rest
  {
    assert injected + rest == sent + ([item] + rest);
    assert body == (sent + body)[|sent|..] && [item] + rest == (sent + ([item] + rest))[|sent|..];
  }

  /** What the operations promise: the items sent before and the body's before, and the answer, the items sent and the
      body's rest after. */
  ghost predicate CompleteResult(kind: Kind, sent: seq<Item>, body: seq<Item>,
                                 answer: Answer, sent': seq<Item>, body': seq<Item>, broken: bool)
  {
    && (kind == CompleteData ==> DataSince(sent', |sent|))
    && match answer
       case AllSent => kind != ObserveAndInject && sent' == sent + body && body' == []
       case Stopped(item) => kind == CompleteData && !item.Data? && sent' + ([item] + body') == sent + body
       case Lost => kind != ObserveAndInject && broken && exists item :: sent' + ([item] + body') == sent + body
       case Refused => kind != ObserveAndInject && broken && sent' == sent && body' == body
       case Observed(None) => kind == ObserveAndInject && body == [] && sent' == sent && body' == []
       case Observed(Some(item)) =>
         && kind == ObserveAndInject && body == [item] + body'
         && (sent' == sent + [item] || (sent' == sent && broken))
  }

  // ---------------------------------------------------------------- injecting one frame

  /** `inject_frame` of an item is under way, was abandoned, or has ended. */
  ghost predicate InInject(s: State, sent: seq<Item>, item: Item) {
    match s.bridge.op
    case Injecting(i) => i == item && s.wire.injected == sent
    case InjectDone(ok) => if ok then s.wire.injected == sent + [item] else s.wire.injected == sent && Broken(s)
    case Idle => s.wire.injected == sent
    case _ => false
  }

  lemma {:induction false} InjectRun(s: State, steps: seq<Step>, sent: seq<Item>, item: Item)
    requires Possible(s, steps) && NothingBegins(steps) && InInject(s, sent, item)
    ensures InInject(Run(s, steps), sent, item) && Run(s, steps).bridge.source == s.bridge.source
    decreases |steps|
  {
    if steps != [] {
      InjectRun(Do(s, steps[0]), steps[1..], sent, item);
    }
  }

  /** `inject_frame` that returns has sent exactly its frame, or returns an error because the sender or the receiver is
      gone; the body is not touched. */
  lemma InjectedCall(s: State, item: Item, during: seq<Step>)
    requires Enabled(s, Inject(item)) && Possible(Do(s, Inject(item)), during) && NothingBegins(during)
    requires Run(Do(s, Inject(item)), during).bridge.op.InjectDone?
    ensures var end := Run(Do(s, Inject(item)), during);
            && end.bridge.source == s.bridge.source
            && (end.bridge.op.sent ==> end.wire.injected == s.wire.injected + [item])
            && (!end.bridge.op.sent ==> end.wire.injected == s.wire.injected && Broken(end))
  {
    InjectRun(Do(s, Inject(item)), during, s.wire.injected, item);
  }

  // ---------------------------------------------------------------- after the end

  /** Once the bridge is closed nothing more is sent. */
  lemma {:induction false} ClosedSendsNothing(s: State, steps: seq<Step>)
    requires !s.bridge.injector && Possible(s, steps)
    ensures Run(s, steps).wire.injected == s.wire.injected
    decreases |steps|
  {
    if steps != [] {
      ClosedSendsNothing(Do(s, steps[0]), steps[1..]);
    }
  }

  lemma AfterClose(s: State, steps: seq<Step>)
    requires !Busy(s.bridge.op) && Possible(Do(s, Close), steps)
    ensures Run(Do(s, Close), steps).wire.injected == s.wire.injected
  {
    ClosedSendsNothing(Do(s, Close), steps);
  }

  /** Once the channel body is dropped nothing more is sent or handed out. */
  lemma {:induction false} DroppedDoesNothing(s: State, steps: seq<Step>)
    requires !s.wire.receiver && Possible(s, steps)
    ensures Run(s, steps).wire.injected == s.wire.injected && Run(s, steps).wire.delivered == s.wire.delivered
    decreases |steps|
  {
    if steps != [] {
      DroppedDoesNothing(Do(s, steps[0]), steps[1..]);
    }
  }

  lemma AfterDrop(s: State, steps: seq<Step>)
    requires s.wire.receiver && Possible(Do(s, DropBody), steps)
    ensures Run(Do(s, DropBody), steps).wire.injected == s.wire.injected
    ensures Run(Do(s, DropBody), steps).wire.delivered == s.wire.delivered
  {
    DroppedDoesNothing(Do(s, DropBody), steps);
  }

  // ---------------------------------------------------------------- nothing gets stuck

  lemma StepThen(s: State, step: Step, rest: seq<Step>)
    requires Enabled(s, step) && Possible(Do(s, step), rest)
    ensures Possible(s, [step] + rest) && Run(s, [step] + rest) == Run(Do(s, step), rest)
  {
    assert ([step] + rest)[1..] == rest;
  }

  /** With sender and receiver in place and room in the channel a frame can be injected. */
  lemma InjectAlone(s: State, item: Item)
    requires !Busy(s.bridge.op) && s.bridge.injector && s.wire.receiver && |s.wire.queue| < CAPACITY
    ensures Possible(s, [Inject(item), Send])
    ensures Run(s, [Inject(item), Send]) == State(s.bridge.(op := InjectDone(true)), Enqueued(s.wire, item))
  {
    var begun := Do(s, Inject(item));
    StepThen(begun, Send, []);
    StepThen(s, Inject(item), [Send]);
  }

  /** Passing on `n` items one by one, and finding the end of the body. */
  ghost function PassOn(n: nat): seq<Step> {
    if n == 0 then [Pull] else [Pull, Send, Next] + PassOn(n - 1)
  }

  lemma {:induction false} PassedOn(source: seq<Item>, call: Call, sent: seq<Item>)
    requires call.kind == Complete
    ensures var s := State(Bridge(source, true, Pulling(call)), Wire([], None, true, false, sent, sent));
            && Possible(s, PassOn(|source|))
            && Run(s, PassOn(|source|)) ==
               State(Bridge([], true, Done(call, AllSent)), Wire([], None, true, false, sent + source, sent + source))
  {
    var s := State(Bridge(source, true, Pulling(call)), Wire([], None, true, false, sent, sent));
    if source == [] {
      StepThen(s, Pull, []);
      assert sent + [] == sent;
    } else {
      var item, rest := source[0], PassOn(|source| - 1);
      var next := State(Bridge(source[1..], true, Pulling(call)),
                        Wire([], None, true, false, sent + [item], sent + [item]));
      PassedOn(source[1..], call, sent + [item]);
      OneItem(source, call, sent);
      StepThen(Do(Do(s, Pull), Send), Next, rest);
      StepThen(Do(s, Pull), Send, [Next] + rest);
      StepThen(s, Pull, [Send] + ([Next] + rest));
      assert [Pull] + ([Send] + ([Next] + rest)) == PassOn(|source|);
      assert sent + [item] + source[1..] == sent + source;
    }
  }

  lemma OneItem(source: seq<Item>, call: Call, sent: seq<Item>)
    requires call.kind == Complete && source != []
    ensures var s := State(Bridge(source, true, Pulling(call)), Wire([], None, true, false, sent, sent));
            && Enabled(s, Pull) && Enabled(Do(s, Pull), Send) && Enabled(Do(Do(s, Pull), Send), Next)
            && Do(Do(Do(s, Pull), Send), Next) ==
               State(Bridge(source[1..], true, Pulling(call)),
                     Wire([], None, true, false, sent + [source[0]], sent + [source[0]]))
  {
    assert [] + [source[0]] == [source[0]];
  }

  /** `complete` can pass on a body of any length to a reader that takes every item, and the reader gets all of it. */
  lemma WholeBodyGoesThrough(body: seq<Item>)
    ensures Possible(Initial(body), [Begin(Complete)] + PassOn(|body|))
    ensures var end := Run(Initial(body), [Begin(Complete)] + PassOn(|body|));
            end.wire.delivered == body && end.bridge.op.Done? && end.bridge.op.answer == AllSent
  {
    var s := Initial(body);
    PassedOn(body, Call(Complete, 0, [] + body), []);
    StepThen(s, Begin(Complete), PassOn(|body|));
    assert [] + body == body;
  }

  /** The steps of an operation that goes on, and of a reader. */
  ghost predicate GoesOn(steps: seq<Step>) {
    forall k | 0 <= k < |steps| :: steps[k] in {Pull, Send, SendFails, Next}
  }

  lemma OneMore(s: State, step: Step, rest: seq<Step>) returns (steps: seq<Step>)
    requires step in {Pull, Send, SendFails, Next} && Enabled(s, step) && Possible(Do(s, step), rest) && GoesOn(rest)
    ensures Possible(s, steps) && GoesOn(steps) && Run(s, steps) == Run(Do(s, step), rest)
  {
    StepThen(s, step, rest);
    steps := [step] + rest;
  }

  /** An operation is never stuck: if the reader goes on reading it comes to its end, whatever else has happened. */
  lemma {:induction false} CanFinish(s: State) returns (steps: seq<Step>)
    requires Busy(s.bridge.op) && |s.wire.queue| <= CAPACITY
    ensures Possible(s, steps) && GoesOn(steps)
    ensures var op := Run(s, steps).bridge.op; op.Done? || op.InjectDone?
    decreases |s.bridge.source|, HasItem(s.bridge.op), |s.wire.queue|, s.wire.peeked.Some?
  {
    var step :=
      if s.bridge.op.Pulling? then Pull
      else if !s.bridge.injector || !s.wire.receiver then SendFails
      else if |s.wire.queue| < CAPACITY then Send
      else Next;
    var rest := [];
    if Busy(Do(s, step).bridge.op) {
      rest := CanFinish(Do(s, step));
    }
    steps := OneMore(s, step, rest);
  }

  /** An operation can be given up at any time.  What it has sent stays sent, and the item in its hand is lost. */
  lemma GivenUp(s: State)
    requires Busy(s.bridge.op)
    ensures Possible(s, [Abandon]) && Run(s, [Abandon]) == State(s.bridge.(op := Idle), s.wire)
  {
    StepThen(s, Abandon, []);
  }

  /** `next_frame` takes the next item of the body and sends nothing. */
  lemma TakenUnsent(s: State)
    requires !Busy(s.bridge.op)
    ensures Possible(s, [Take])
    ensures Run(s, [Take]).wire == s.wire && Run(s, [Take]).bridge.injector == s.bridge.injector
    ensures if s.bridge.source == [] then Run(s, [Take]).bridge.source == []
            else s.bridge.source == [s.bridge.source[0]] + Run(s, [Take]).bridge.source
  {
    StepThen(s, Take, []);
  }

  /** A wait is possible at any time, also while the bridge is busy, and has no effect that the bridge could see. */
  lemma WaitAnyTime(s: State)
    requires s.wire.receiver
    ensures Possible(s, [Peek])
    ensures var after := Run(s, [Peek]);
            && after.bridge == s.bridge && Waiting(after.wire) == Waiting(s.wire)
            && after.wire.delivered == s.wire.delivered && after.wire.ended == s.wire.ended
  {
    PeekChangesNothing(s.wire);
    StepThen(s, Peek, []);
  }

  /** After `close` a reader gets everything that was sent, and then the end. */
  lemma CloseIsSeen(body: seq<Item>, before: seq<Step>) returns (nexts: seq<Step>)
    requires Possible(Initial(body), before)
    requires var s := Run(Initial(body), before); !Busy(s.bridge.op) && s.wire.receiver
    ensures forall k | 0 <= k < |nexts| :: nexts[k] == Next
    ensures var s := Run(Initial(body), before);
            && Possible(s, [Close] + nexts)
            && Run(s, [Close] + nexts).wire.ended && Run(s, [Close] + nexts).wire.delivered == s.wire.injected
  {
    var s := Run(Initial(body), before);
    RunKeepsChannel(Initial(body), before);
    StepKeepsChannel(s, Close);
    nexts := ReadToTheEnd(Do(s, Close));
    StepThen(s, Close, nexts);
  }

  lemma {:induction false} ReadToTheEnd(s: State) returns (nexts: seq<Step>)
    requires ChannelOk(s) && s.wire.receiver && !s.bridge.injector
    ensures forall k | 0 <= k < |nexts| :: nexts[k] == Next
    ensures Possible(s, nexts) && Run(s, nexts).wire.ended && Run(s, nexts).wire.delivered == s.wire.injected
    decreases |Waiting(s.wire)|
  {
    TakesFirst(s.wire, s.bridge.injector);
    var rest := [];
    if Waiting(s.wire) != [] {
      rest := ReadToTheEnd(Do(s, Next));
    }
    StepThen(s, Next, rest);
    nexts := [Next] + rest;
  }

  /** A reader who has everything that was sent is told the end once the bridge is closed, and not before. */
  lemma EndIsReported(s: State)
    requires s.wire.receiver && Waiting(s.wire) == [] && !s.wire.ended
    ensures Enabled(s, Next) && (Do(s, Next).wire.ended <==> !s.bridge.injector)
  {
  }
}
