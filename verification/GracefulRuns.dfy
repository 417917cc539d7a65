/**
  Graceful shutdown read off the list of what happened (hyper-util-fork/src/server/graceful.rs): who is watched, who can
  go on, and who has been told to shut down.
 */
module GracefulRuns {
  import opened GracefulShutdown

  /** Shutting down begins: `shutdown` is called, or the sender is dropped. */
  ghost predicate Begins(step: Step) {
    step.Signal? || step.DropSender?
  }

  lemma InFront(step: Step, steps: seq<Step>)
    requires steps != []
    ensures step in steps <==> step == steps[0] || step in steps[1..]
  {
    assert steps == [steps[0]] + steps[1..];
  }

  // ---------------------------------------------------------------- the sender

  lemma {:induction false} SenderTells(s: State, steps: seq<Step>)
    requires Possible(s, steps)
    ensures var end := Run(s, steps).sender;
            && (end.Live? <==> s.sender.Live? && Signal !in steps && DropSender !in steps)
            && (end.Gone? <==> s.sender.Gone? || DropSender in steps)
            && (end.Finished? <==> s.sender.Finished? || Finish in steps)
    decreases |steps|
  {
    if steps != [] {
      SenderTells(Do(s, steps[0]), steps[1..]);
      InFront(Signal, steps);
      InFront(DropSender, steps);
      InFront(Finish, steps);
    }
  }

  /** What has become of the sender: `shutdown` waits from its call on, until it finishes or is dropped. */
  lemma SenderIs(steps: seq<Step>)
    requires Possible(Initial(), steps)
    ensures var end := Run(Initial(), steps).sender;
            && (end.Live? <==> Signal !in steps && DropSender !in steps)
            && (end.Waiting? <==> Signal in steps && DropSender !in steps && Finish !in steps)
            && (end.Finished? <==> Finish in steps)
            && (end.Gone? <==> DropSender in steps)
  {
    SenderTells(Initial(), steps);
  }

  // ---------------------------------------------------------------- the watchers

  lemma {:induction false} WatchersTell(s: State, steps: seq<Step>, w: Id)
    requires Possible(s, steps) && (w in s.handles ==> w in s.answers)
    ensures var end := Run(s, steps);
            && (w in s.answers ==> Subscribe(w) !in steps)
            && (w in end.answers <==> w in s.answers || Subscribe(w) in steps)
            && (w in end.handles <==> (w in s.handles || Subscribe(w) in steps) && Drop(w) !in steps)
    decreases |steps|
  {
    if steps != [] {
      WatchersTell(Do(s, steps[0]), steps[1..], w);
      InFront(Subscribe(w), steps);
      InFront(Drop(w), steps);
    }
  }

  lemma {:induction false} ConnectionsTell(s: State, steps: seq<Step>, w: Id)
    requires Possible(s, steps) && w in Run(s, steps).handles && (w in s.handles ==> w in s.answers)
    ensures Run(s, steps).handles[w].Conn? <==> (w in s.handles && s.handles[w].Conn?) || Watch(w) in steps
    decreases |steps|
  {
    if steps != [] {
      WatchersTell(Do(s, steps[0]), steps[1..], w);
      ConnectionsTell(Do(s, steps[0]), steps[1..], w);
      InFront(Watch(w), steps);
    }
  }

  /** A watcher is there from when it was made until it is dropped, and has a connection from when it watches one. */
  lemma WatchersAre(steps: seq<Step>, w: Id)
    requires Possible(Initial(), steps)
    ensures w in Run(Initial(), steps).answers <==> Subscribe(w) in steps
    ensures w in Run(Initial(), steps).handles <==> Subscribe(w) in steps && Drop(w) !in steps
    ensures w in Run(Initial(), steps).handles ==>
              (Run(Initial(), steps).handles[w].Conn? <==> Watch(w) in steps)
  {
    WatchersTell(Initial(), steps, w);
    if w in Run(Initial(), steps).handles {
      ConnectionsTell(Initial(), steps, w);
    }
  }

  // ---------------------------------------------------------------- who is told

  /** The connection is polled at some step, and shutting down began before it. */
  ghost predicate PolledSince(steps: seq<Step>, begun: bool, w: Id) {
    exists j | 0 <= j < |steps| :: steps[j] == Poll(w) && (begun || exists i | 0 <= i < j :: Begins(steps[i]))
  }

  lemma PolledSinceTail(steps: seq<Step>, begun: bool, w: Id)
    requires steps != []
    ensures PolledSince(steps, begun, w) <==>
              (begun && steps[0] == Poll(w)) || PolledSince(steps[1..], begun || Begins(steps[0]), w)
  {
    var rest, begun' := steps[1..], begun || Begins(steps[0]);
    if PolledSince(rest, begun', w) {
      var j :| 0 <= j < |rest| && rest[j] == Poll(w) && (begun' || exists i | 0 <= i < j :: Begins(rest[i]));
      assert steps[j + 1] == Poll(w);
      if !begun' {
        var i :| 0 <= i < j && Begins(rest[i]);
        assert Begins(steps[i + 1]);
      }
    }
    if PolledSince(steps, begun, w) && !(begun && steps[0] == Poll(w)) {
      var j :| 0 <= j < |steps| && steps[j] == Poll(w) && (begun || exists i | 0 <= i < j :: Begins(steps[i]));
      assert rest[j - 1] == Poll(w);
      if !begun' {
        var i :| 0 <= i < j && Begins(steps[i]);
        assert Begins(rest[i - 1]);
      }
    }
  }

  lemma {:induction false} ToldTells(s: State, steps: seq<Step>, w: Id)
    requires Inv(s) && Possible(s, steps) && w in Run(s, steps).answers
    ensures true in Run(s, steps).answers[w] <==>
              (w in s.answers && true in s.answers[w]) || PolledSince(steps, !s.sender.Live?, w)
    decreases |steps|
  {
    if steps != [] {
      StepKeepsInv(s, steps[0]);
      ToldTells(Do(s, steps[0]), steps[1..], w);
      PolledSinceTail(steps, !s.sender.Live?, w);
      ToldByStep(s, steps[0], w);
    }
  }

  lemma ToldByStep(s: State, step: Step, w: Id)
    requires Inv(s) && Enabled(s, step)
    ensures w in s.answers ==> w in Do(s, step).answers
    ensures w in Do(s, step).answers ==>
              (true in Do(s, step).answers[w] <==>
                 (w in s.answers && true in s.answers[w]) || (!s.sender.Live? && step == Poll(w)))
    ensures !Do(s, step).sender.Live? <==> !s.sender.Live? || Begins(step)
  {
    if step == Poll(w) {
      assert HandleOk(s, w, s.handles[w]);
    }
  }

  /** In every run a connection has been told to shut down, once, exactly when it was polled after that began. */
  lemma ToldIff(steps: seq<Step>, w: Id)
    requires Possible(Initial(), steps) && Subscribe(w) in steps
    ensures w in Run(Initial(), steps).answers
    ensures Count(Calls(Run(Initial(), steps), w), ShutDown) ==
            if exists i, j | 0 <= i < j < |steps| :: Begins(steps[i]) && steps[j] == Poll(w) then 1 else 0
  {
    WatchersAre(steps, w);
    ToldTells(Initial(), steps, w);
    ShutDownOnce(Run(Initial(), steps).answers[w]);
    if PolledSince(steps, false, w) {
      var j :| 0 <= j < |steps| && steps[j] == Poll(w) && exists i | 0 <= i < j :: Begins(steps[i]);
      var i :| 0 <= i < j && Begins(steps[i]);
    }
  }

  // ---------------------------------------------------------------- what can always be done

  lemma StepThen(s: State, step: Step, rest: seq<Step>)
    requires Enabled(s, step) && Possible(Do(s, step), rest)
    ensures Possible(s, [step] + rest) && Run(s, [step] + rest) == Run(Do(s, step), rest)
  {
    assert ([step] + rest)[1..] == rest;
  }

  /** Until shutting down begins a connection can be watched and served. */
  lemma CanWatch(s: State, w: Id)
    requires Inv(s) && s.sender.Live? && w !in s.answers
    ensures Possible(s, [Subscribe(w), Watch(w), Poll(w)])
    ensures var end := Run(s, [Subscribe(w), Watch(w), Poll(w)]);
            end.sender.Live? && w in end.handles && w in end.answers && Calls(end, w) == [PollCancel, PollConn]
  {
    var subscribed := Do(s, Subscribe(w));
    var watched := Do(subscribed, Watch(w));
    StepThen(watched, Poll(w), []);
    StepThen(subscribed, Watch(w), [Poll(w)]);
    StepThen(s, Subscribe(w), [Watch(w), Poll(w)]);
    assert [Subscribe(w)] + [Watch(w), Poll(w)] == [Subscribe(w), Watch(w), Poll(w)];
    assert [Watch(w)] + [Poll(w)] == [Watch(w), Poll(w)];
    CallsSnoc([], false);
    assert [] + [false] == [false];
  }

  /** A watched connection can be polled and dropped at any time, whatever the sender does. */
  lemma CanServe(s: State, w: Id)
    requires Inv(s) && w in s.handles && s.handles[w].Conn?
    ensures Possible(s, [Poll(w)]) && w in Run(s, [Poll(w)]).handles && Run(s, [Poll(w)]).handles[w].Conn?
    ensures Possible(s, [Drop(w)]) && w !in Run(s, [Drop(w)]).handles
  {
    assert HandleOk(s, w, s.handles[w]);
    StepThen(s, Poll(w), []);
    StepThen(s, Drop(w), []);
  }

  /** The sender can begin shutting down while it is live, and can be dropped until `shutdown` has finished. */
  lemma SenderCan(s: State)
    ensures s.sender.Live? ==> Possible(s, [Signal])
    ensures s.sender.Live? || s.sender.Waiting? ==> Possible(s, [DropSender])
  {
    if s.sender.Live? {
      StepThen(s, Signal, []);
    }
    if s.sender.Live? || s.sender.Waiting? {
      StepThen(s, DropSender, []);
    }
  }
}
