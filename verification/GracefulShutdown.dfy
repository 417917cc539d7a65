/**
  Graceful shutdown of a server (hyper-util-fork/src/server/graceful.rs): a watch channel whose receivers live in the
  watchers and in the watched connection futures.

  The steps of the server, of the connections and of whoever drops them interleave freely.  The channel is the watch
  channel of tokio: sending to no receiver changes nothing, `changed` is ready once the version differs from the one
  seen or the sender is gone, and `closed` is ready once there is no receiver.
 */
module GracefulShutdown {

  type Id = nat

  // ---------------------------------------------------------------- one watched connection

  datatype Call = PollCancel | ShutDown | PollConn

  /** The calls of one poll; `ready` is what polling the cancel future answers. */
  function PollCalls(guarded: bool, ready: bool): seq<Call> {
    if guarded then [PollConn] else if ready then [PollCancel, ShutDown, PollConn] else [PollCancel, PollConn]
  }

  /** A connection future.  The receiver is in the cancel future until that is done, then in the guard. */
  class GracefulConnectionFuture {
    var cancelDone: bool
    var guard: bool
    ghost var calls: seq<Call>
    ghost var answers: seq<bool>

    /** `answers` are those of the cancel channel at the polls so far. */
    ghost predicate Valid()
      reads this
    {
      cancelDone == guard == (true in answers) && calls == CallsOf(answers)
    }

    constructor ()
      ensures Valid() && answers == []
    {
      cancelDone, guard, calls, answers := false, false, [], [];
    }

    /** The cancel future is polled only while it is not done. */
    method PollCancelFuture(ready: bool)
      requires !cancelDone
      modifies this
      ensures cancelDone == ready && guard == old(guard) && answers == old(answers)
      ensures calls == old(calls) + [PollCancel]
    {
      cancelDone := ready;
      calls := calls + [PollCancel];
    }

    method Poll(ready: bool)
      requires Valid()
      modifies this
      ensures Valid() && answers == old(answers) + [ready]
    {
      CallsSnoc(answers, ready);
      if !guard {
        PollCancelFuture(ready);
        if cancelDone {
          guard := true;
          calls := calls + [ShutDown];
        }
      }
      calls := calls + [PollConn];
      answers := answers + [ready];
    }
  }

  /** The calls of a series of polls: the cancel future is polled until it is ready, the connection is told to shut down
      at that poll and not again, and every poll ends by polling the connection. */
  ghost function CallsOf(polls: seq<bool>): seq<Call> {
    if polls == [] then []
    else
      var n := |polls| - 1;
      CallsOf(polls[..n]) + PollCalls(true in polls[..n], polls[n])
  }

  lemma CallsSnoc(polls: seq<bool>, ready: bool)
    ensures CallsOf(polls + [ready]) == CallsOf(polls) + PollCalls(true in polls, ready)
    ensures true in polls + [ready] <==> true in polls || ready
  {
    assert (polls + [ready])[..|polls|] == polls;
    assert (polls + [ready])[|polls|] == ready;
  }

  ghost function Count(calls: seq<Call>, call: Call): nat {
    if calls == [] then 0 else Count(calls[..|calls| - 1], call) + (if calls[|calls| - 1] == call then 1 else 0)
  }

  lemma {:induction false} CountAppend(a: seq<Call>, b: seq<Call>, call: Call)
    ensures Count(a + b, call) == Count(a, call) + Count(b, call)
  {
    if b == [] {
      assert a + b == a;
    } else {
      var n := |b| - 1;
      CountAppend(a, b[..n], call);
      assert (a + b)[..|a + b| - 1] == a + b[..n];
    }
  }

  lemma {:induction false} CountIn(calls: seq<Call>, call: Call)
    ensures Count(calls, call) > 0 <==> call in calls
  {
    if calls != [] {
      CountIn(calls[..|calls| - 1], call);
    }
  }

  lemma CountPoll(guarded: bool, ready: bool)
    ensures Count(PollCalls(guarded, ready), ShutDown) == if !guarded && ready then 1 else 0
  {
    CountSingle(PollCancel, ShutDown);
    CountSingle(ShutDown, ShutDown);
    CountSingle(PollConn, ShutDown);
    CountAppend([PollCancel], [PollConn], ShutDown);
    CountAppend([PollCancel], [ShutDown], ShutDown);
    CountAppend([PollCancel] + [ShutDown], [PollConn], ShutDown);
    assert [PollCancel] + [PollConn] == [PollCancel, PollConn];
    assert [PollCancel] + [ShutDown] + [PollConn] == [PollCancel, ShutDown, PollConn];
  }

  lemma CountSingle(call: Call, counted: Call)
    ensures Count([call], counted) == if call == counted then 1 else 0
  {
    assert [call][..0] == [];
  }

  /** A connection is told to shut down at most once, and has been told exactly when it holds the guard. */
  lemma {:induction false} ShutDownOnce(polls: seq<bool>)
    ensures Count(CallsOf(polls), ShutDown) == if true in polls then 1 else 0
  {
    if polls != [] {
      var n := |polls| - 1;
      ShutDownOnce(polls[..n]);
      CountAppend(CallsOf(polls[..n]), PollCalls(true in polls[..n], polls[n]), ShutDown);
      CountPoll(true in polls[..n], polls[n]);
      assert true in polls <==> true in polls[..n] || polls[n];
    }
  }

  /** Every poll polls the connection once, and as its last call. */
  lemma {:induction false} EveryPollPolls(polls: seq<bool>)
    ensures Count(CallsOf(polls), PollConn) == |polls|
    ensures polls != [] ==> CallsOf(polls) != [] && CallsOf(polls)[|CallsOf(polls)| - 1] == PollConn
  {
    if polls != [] {
      var n := |polls| - 1;
      EveryPollPolls(polls[..n]);
      CountAppend(CallsOf(polls[..n]), PollCalls(true in polls[..n], polls[n]), PollConn);
      CountPollConn(true in polls[..n], polls[n]);
    }
  }

  lemma CountPollConn(guarded: bool, ready: bool)
    ensures Count(PollCalls(guarded, ready), PollConn) == 1
  {
    CountSingle(PollCancel, PollConn);
    CountSingle(ShutDown, PollConn);
    CountSingle(PollConn, PollConn);
    CountAppend([PollCancel], [PollConn], PollConn);
    CountAppend([PollCancel], [ShutDown], PollConn);
    CountAppend([PollCancel] + [ShutDown], [PollConn], PollConn);
    assert [PollCancel] + [PollConn] == [PollCancel, PollConn];
    assert [PollCancel] + [ShutDown] + [PollConn] == [PollCancel, ShutDown, PollConn];
  }

  /** After a call of the one kind there is none of the other. */
  ghost predicate NoneAfter(calls: seq<Call>, one: Call, other: Call) {
    forall i, j | 0 <= i < j < |calls| :: calls[i] == one ==> calls[j] != other
  }

  /** A cancel future that was ready is not polled again. */
  lemma {:induction false} NotPolledAgain(polls: seq<bool>)
    ensures NoneAfter(CallsOf(polls), ShutDown, PollCancel)
  {
    if polls != [] {
      var n := |polls| - 1;
      NotPolledAgain(polls[..n]);
      ShutDownOnce(polls[..n]);
      CountIn(CallsOf(polls[..n]), ShutDown);
    }
  }

  // ---------------------------------------------------------------- the server and all its connections

  /** The sender is live, waits in `shutdown` after signalling, has finished `shutdown`, or was dropped. */
  datatype Sender = Live | Waiting | Finished | Gone

  /** A watcher that has no connection yet, or a watched connection future. */
  datatype Handle = Watching(seen: nat) | Conn(seen: nat, cancelDone: bool, guard: bool)

  /** `answers` records, for every watcher ever made, the cancel channel's answers at the polls of its connection. */
  datatype State = State(version: nat, sender: Sender, handles: map<Id, Handle>, answers: map<Id, seq<bool>>)

  datatype Step = Subscribe(w: Id) | Watch(w: Id) | Poll(w: Id) | Drop(w: Id) | Signal | DropSender | Finish

  ghost function Initial(): State {
    State(0, Live, map[], map[])
  }

  ghost predicate HoldsReceiver(h: Handle) {
    h.Watching? || !h.cancelDone || h.guard
  }

  ghost predicate Changed(s: State, seen: nat) {
    s.version != seen || s.sender.Finished? || s.sender.Gone?
  }

  ghost predicate Enabled(s: State, step: Step) {
    match step
    case Subscribe(w) => s.sender.Live? && w !in s.answers
    case Watch(w) => w in s.handles && s.handles[w].Watching?
    case Poll(w) => w in s.handles && s.handles[w].Conn? && w in s.answers
    case Drop(w) => w in s.handles
    case Signal => s.sender.Live?
    case DropSender => s.sender.Live? || s.sender.Waiting?
    case Finish => s.sender.Waiting? && forall id | id in s.handles :: !HoldsReceiver(s.handles[id])
  }

  ghost function Polled(s: State, h: Handle): Handle
    requires h.Conn?
  {
    if h.guard then h else h.(cancelDone := Changed(s, h.seen), guard := Changed(s, h.seen))
  }

  ghost function Do(s: State, step: Step): State
    requires Enabled(s, step)
  {
    match step
    case Subscribe(w) => s.(handles := s.handles[w := Watching(s.version)], answers := s.answers[w := []])
    case Watch(w) => s.(handles := s.handles[w := Conn(s.handles[w].seen, false, false)])
    case Poll(w) =>
      s.(handles := s.handles[w := Polled(s, s.handles[w])],
         answers := s.answers[w := s.answers[w] + [Changed(s, s.handles[w].seen)]])
    case Drop(w) => s.(handles := s.handles - {w})
    case Signal => s.(version := if s.handles == map[] then s.version else s.version + 1, sender := Waiting)
    case DropSender => s.(sender := Gone)
    case Finish => s.(sender := Finished)
  }

  ghost predicate Possible(s: State, steps: seq<Step>)
    decreases |steps|
  {
    steps == [] || (Enabled(s, steps[0]) && Possible(Do(s, steps[0]), steps[1..]))
  }

  ghost function Run(s: State, steps: seq<Step>): State
    requires Possible(s, steps)
    decreases |steps|
  {
    if steps == [] then s else Run(Do(s, steps[0]), steps[1..])
  }

  // ---------------------------------------------------------------- what every step keeps

  ghost predicate HandleOk(s: State, w: Id, h: Handle) {
    && w in s.answers
    && (h.Watching? ==> s.answers[w] == [])
    && (h.Conn? ==> h.cancelDone == h.guard == (true in s.answers[w]))
    && (s.sender.Live? ==> h.seen == s.version)
    && (s.sender.Waiting? ==> h.seen != s.version)
  }

  ghost predicate Inv(s: State) {
    && (forall w | w in s.handles :: HandleOk(s, w, s.handles[w]))
    && (s.sender.Live? ==> forall w | w in s.answers :: true !in s.answers[w])
    && (s.sender.Finished? ==> s.handles == map[])
  }

  lemma StepKeepsInv(s: State, step: Step)
    requires Inv(s) && Enabled(s, step)
    ensures Inv(Do(s, step))
  {
  }

  lemma {:induction false} RunKeepsInv(s: State, steps: seq<Step>)
    requires Inv(s) && Possible(s, steps)
    ensures Inv(Run(s, steps))
    decreases |steps|
  {
    if steps != [] {
      StepKeepsInv(s, steps[0]);
      RunKeepsInv(Do(s, steps[0]), steps[1..]);
    }
  }

  // ---------------------------------------------------------------- safety over every run

  /** The calls that connection `w` has received. */
  ghost function Calls(s: State, w: Id): seq<Call>
    requires w in s.answers
  {
    CallsOf(s.answers[w])
  }

  /** No connection is told to shut down more than once, none before the sender signals or is dropped, and a finished
      cancel future is never polled again. */
  lemma Safety(steps: seq<Step>, w: Id)
    requires Possible(Initial(), steps) && w in Run(Initial(), steps).answers
    ensures var s := Run(Initial(), steps);
            && Count(Calls(s, w), ShutDown) <= 1
            && (s.sender.Live? ==> Count(Calls(s, w), ShutDown) == 0)
            && NoneAfter(Calls(s, w), ShutDown, PollCancel)
            && (w in s.handles && s.handles[w].Conn? ==> s.handles[w].cancelDone == s.handles[w].guard)
  {
    RunKeepsInv(Initial(), steps);
    var s := Run(Initial(), steps);
    ShutDownOnce(s.answers[w]);
    NotPolledAgain(s.answers[w]);
    if w in s.handles {
      assert HandleOk(s, w, s.handles[w]);
    }
  }

  /** A poll after the signal, or after the sender was dropped, tells a connection that has not been told yet to shut
      down, before it polls the connection. */
  lemma PollAfterSignal(steps: seq<Step>, w: Id)
    requires Possible(Initial(), steps) && Enabled(Run(Initial(), steps), Poll(w))
    requires !Run(Initial(), steps).sender.Live?
    ensures var s := Run(Initial(), steps);
            && Calls(Do(s, Poll(w)), w) ==
                 Calls(s, w) + (if ShutDown in Calls(s, w) then [PollConn] else [PollCancel, ShutDown, PollConn])
            && true in Do(s, Poll(w)).answers[w]
  {
    RunKeepsInv(Initial(), steps);
    var s := Run(Initial(), steps);
    assert HandleOk(s, w, s.handles[w]);
    CallsSnoc(s.answers[w], true);
    ShutDownOnce(s.answers[w]);
    CountIn(Calls(s, w), ShutDown);
  }

  /** As long as the sender is live and silent, a poll asks the cancel future and then polls the connection. */
  lemma PollBeforeSignal(steps: seq<Step>, w: Id)
    requires Possible(Initial(), steps) && Enabled(Run(Initial(), steps), Poll(w))
    requires Run(Initial(), steps).sender.Live?
    ensures var s := Run(Initial(), steps);
            Calls(Do(s, Poll(w)), w) == Calls(s, w) + [PollCancel, PollConn]
  {
    RunKeepsInv(Initial(), steps);
    var s := Run(Initial(), steps);
    assert HandleOk(s, w, s.handles[w]);
    CallsSnoc(s.answers[w], false);
  }

  lemma {:induction false} StaysTold(s: State, steps: seq<Step>, w: Id)
    requires Inv(s) && Possible(s, steps) && w in s.answers && true in s.answers[w]
    ensures w in Run(s, steps).answers && true in Run(s, steps).answers[w]
    decreases |steps|
  {
    if steps != [] {
      StepKeepsInv(s, steps[0]);
      StaysTold(Do(s, steps[0]), steps[1..], w);
    }
  }

  /** From the signal on, a connection that is polled at all has been told to shut down exactly once. */
  lemma {:induction false} PolledIsTold(s: State, steps: seq<Step>, w: Id)
    requires Inv(s) && !s.sender.Live? && Possible(s, steps) && Poll(w) in steps
    ensures w in Run(s, steps).answers && Count(Calls(Run(s, steps), w), ShutDown) == 1
    decreases |steps|
  {
    StepKeepsInv(s, steps[0]);
    var s' := Do(s, steps[0]);
    if steps[0] == Poll(w) {
      assert HandleOk(s, w, s.handles[w]);
      CallsSnoc(s.answers[w], true);
      StaysTold(s', steps[1..], w);
      ShutDownOnce(Run(s', steps[1..]).answers[w]);
    } else {
      assert steps == [steps[0]] + steps[1..];
      PolledIsTold(s', steps[1..], w);
    }
  }

  /** `shutdown` finishes only when every watcher and every watched connection has been dropped. */
  lemma FinishedMeansDropped(steps: seq<Step>, w: Id)
    requires Possible(Initial(), steps) && Run(Initial(), steps).sender.Finished? && w in Run(Initial(), steps).answers
    ensures w !in Run(Initial(), steps).handles && Drop(w) in steps
  {
    RunKeepsInv(Initial(), steps);
    LeavesByDrop(Initial(), steps, w);
  }

  /** A watcher that was made and is gone was dropped. */
  lemma {:induction false} LeavesByDrop(s: State, steps: seq<Step>, w: Id)
    requires Possible(s, steps) && (w in s.answers ==> w in s.handles)
    requires w in Run(s, steps).answers && w !in Run(s, steps).handles
    ensures Drop(w) in steps
    decreases |steps|
  {
    if steps != [] && steps[0] != Drop(w) {
      LeavesByDrop(Do(s, steps[0]), steps[1..], w);
    }
  }

  /** While `shutdown` waits it can finish exactly when no watcher and no watched connection is left. */
  lemma FinishIff(steps: seq<Step>)
    requires Possible(Initial(), steps) && Run(Initial(), steps).sender.Waiting?
    ensures Enabled(Run(Initial(), steps), Finish) <==> Run(Initial(), steps).handles == map[]
  {
    RunKeepsInv(Initial(), steps);
    NoneHeldIff(Run(Initial(), steps));
  }

  lemma NoneHeldIff(s: State)
    requires Inv(s) && s.sender.Waiting?
    ensures Enabled(s, Finish) <==> s.handles == map[]
  {
    if s.handles != map[] {
      var w :| w in s.handles;
      assert HandleOk(s, w, s.handles[w]);
    }
  }

  /** However many watchers and connections there are, dropping them lets `shutdown` finish. */
  lemma {:induction false} DroppingFinishes(s: State) returns (steps: seq<Step>)
    requires Inv(s) && s.sender.Waiting?
    ensures Possible(s, steps) && Run(s, steps).sender.Finished?
    ensures forall k | 0 <= k < |steps| - 1 :: steps[k].Drop?
    decreases |s.handles|
  {
    if s.handles == map[] {
      steps := [Finish];
      NoneHeldIff(s);
      assert steps[1..] == [];
    } else {
      var w :| w in s.handles;
      var dropped := Do(s, Drop(w));
      StepKeepsInv(s, Drop(w));
      assert dropped.handles.Keys == s.handles.Keys - {w};
      assert |dropped.handles| == |dropped.handles.Keys| && |s.handles| == |s.handles.Keys|;
      var rest := DroppingFinishes(dropped);
      steps := [Drop(w)] + rest;
      assert steps[1..] == rest;
    }
  }
}
