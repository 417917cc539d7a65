/**
  A body that reports its size once (orion-lib/src/body/body_with_metrics.rs, the form with metrics): polling counts the
  bytes of data frames, and the end of the stream, an error or the drop of the body runs the completion callback.
 */
module BodyWithMetrics {
  import opened Arithmetic
  import opened Wrappers

  /** What polling the inner body answers.  An error comes with the event and the response flags inferred from it. */
  datatype Poll = Pending | DataFrame(size: nat) | OtherFrame | Failed(event: Option<nat>, flags: nat) | EndOfStream

  /** One run of the completion callback. */
  datatype Report = Report(bytes: nat, event: Option<nat>, flags: nat)

  const NO_FLAGS := 0

  datatype Metrics = Metrics(bytes: nat, armed: bool, reports: seq<Report>)

  // ---------------------------------------------------------------- what the methods compute

  ghost function Triggered(m: Metrics, event: Option<nat>, flags: nat): Metrics {
    if m.armed then m.(armed := false, reports := m.reports + [Report(m.bytes, event, flags)]) else m
  }

  ghost function Polled(m: Metrics, poll: Poll): Metrics {
    match poll
    case DataFrame(size) => m.(bytes := (m.bytes + size) % U64)
    case EndOfStream => Triggered(m, None, NO_FLAGS)
    case Failed(event, flags) => Triggered(m, event, flags)
    case _ => m
  }

  /** The state shared by a body, the guard that is dropped with it, and the bodies made from it for other attempts. */
  class MetricsState {
    var bytesCounter: nat
    var onComplete: bool
    ghost var reports: seq<Report>

    ghost function Now(): Metrics
      reads this
    {
      Metrics(bytesCounter, onComplete, reports)
    }

    constructor ()
      ensures Now() == Metrics(0, true, [])
    {
      bytesCounter, onComplete, reports := 0, true, [];
    }

    /** Takes the callback out, if it is still there, and runs it. */
    method TriggerOnComplete(event: Option<nat>, flags: nat)
      modifies this
      ensures Now() == Triggered(old(Now()), event, flags)
    {
      var closure := onComplete;
      onComplete := false;
      if closure {
        reports := reports + [Report(bytesCounter, event, flags)];
      }
    }

    method Count(size: nat)
      modifies this
      ensures Now() == old(Now()).(bytes := (old(bytesCounter) + size) % U64)
    {
      bytesCounter := (bytesCounter + size) % U64;
    }
  }

  class BodyWithMetrics {
    const state: MetricsState

    constructor ()
      ensures fresh(state) && state.Now() == Metrics(0, true, [])
    {
      state := new MetricsState();
    }

    /** Moves the state and the guard into a body of another type; nothing is dropped. */
    constructor MapInto(from: BodyWithMetrics)
      ensures state == from.state && unchanged(from.state)
    {
      state := from.state;
    }

    /** A body for another attempt at the request, around a copy of the inner body: it shares the state and has a guard
        of its own. */
    constructor ForAttempt(request: BodyWithMetrics)
      ensures state == request.state && unchanged(request.state)
    {
      state := request.state;
    }

    /** Passes the answer of the inner body on. */
    method PollFrame(inner: Poll) returns (poll: Poll)
      modifies state
      ensures poll == inner && state.Now() == Polled(old(state.Now()), inner)
    {
      poll := inner;
      match inner
      case DataFrame(size) => state.Count(size);
      case EndOfStream => state.TriggerOnComplete(None, NO_FLAGS);
      case Failed(event, flags) => state.TriggerOnComplete(event, flags);
      case _ =>
    }

    /** Dropping the body drops the guard. */
    method Drop()
      modifies state
      ensures state.Now() == Triggered(old(state.Now()), None, NO_FLAGS)
    {
      state.TriggerOnComplete(None, NO_FLAGS);
    }
  }

  // ---------------------------------------------------------------- over the lives of all bodies that share a state

  /** What happens to one of the bodies that share a state: the request's own and one for every attempt. */
  datatype Event = Polling(body: nat, poll: Poll) | Dropping(body: nat)

  ghost function Happened(m: Metrics, event: Event): Metrics {
    match event
    case Polling(_, poll) => Polled(m, poll)
    case Dropping(_) => Triggered(m, None, NO_FLAGS)
  }

  ghost function Run(m: Metrics, events: seq<Event>): Metrics {
    if events == [] then m else Happened(Run(m, events[..|events| - 1]), events[|events| - 1])
  }

  ghost predicate Terminal(event: Event) {
    event.Dropping? || event.poll.EndOfStream? || event.poll.Failed?
  }

  /** The event and the flags that the callback is told: those of an error, or none. */
  ghost function Cause(event: Event): (Option<nat>, nat) {
    if event.Polling? && event.poll.Failed? then (event.poll.event, event.poll.flags) else (None, NO_FLAGS)
  }

  ghost function DataBytes(events: seq<Event>): nat {
    if events == [] then 0
    else
      var last := events[|events| - 1];
      DataBytes(events[..|events| - 1]) + if last.Polling? && last.poll.DataFrame? then last.poll.size else 0
  }

  lemma CountWraps(a: nat, b: nat)
    ensures (a % U64 + b) % U64 == (a + b) % U64
  {
  }

  /** Nothing is reported before any of the bodies ends, fails or is dropped. */
  lemma {:induction false} NothingReported(events: seq<Event>)
    requires forall j | 0 <= j < |events| :: !Terminal(events[j])
    ensures Run(Metrics(0, true, []), events) == Metrics(DataBytes(events) % U64, true, [])
  {
    if events != [] {
      var n := |events| - 1;
      NothingReported(events[..n]);
      if events[n].Polling? && events[n].poll.DataFrame? {
        CountWraps(DataBytes(events[..n]), events[n].poll.size);
      }
    }
  }

  /** However the bodies that share a state are polled and dropped, the callback runs exactly once: at the first end of
      stream, error or drop of any of them, with the bytes of all data frames returned until then. */
  lemma {:induction false} ExactlyOnce(events: seq<Event>, first: nat)
    requires first < |events| && Terminal(events[first]) && forall j | 0 <= j < first :: !Terminal(events[j])
    ensures !Run(Metrics(0, true, []), events).armed
    ensures Run(Metrics(0, true, []), events).reports ==
            [Report(DataBytes(events[..first]) % U64, Cause(events[first]).0, Cause(events[first]).1)]
  {
    var n := |events| - 1;
    if first == n {
      NothingReported(events[..n]);
    } else {
      ExactlyOnce(events[..n], first);
      assert events[..n][..first] == events[..first];
    }
  }
}
