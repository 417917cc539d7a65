/**
  The cached watch (orion-lib/src/clusters/cached_watch.rs): a value behind a read-write lock, a version counter, and
  watchers that keep a local copy and refresh it when the version has moved.

  Every access to the lock, the value or the counter is a step of its own, and steps of different threads interleave
  freely.  Steps are sequentially consistent and the counter does not wrap.  `history` records the value that each
  version was committed with.
 */
module CachedWatch {

  type Id = nat

  datatype Lock = Free | Shared(readers: set<Id>) | Exclusive(updater: Id, bumped: bool)

  /** Where a watcher is in `cached_or_latest` (or in `get_clone`, which starts at Reading). */
  datatype Phase = Idle | Checked | Reading | Cloned | Loaded

  /** `clean` says that the caller has not written through the returned reference since the last refresh. */
  datatype Watcher<T> = Watcher(local: T, version: nat, phase: Phase, clean: bool)

  datatype State<T> = State(value: T, version: nat, lock: Lock, history: seq<T>, watchers: map<Id, Watcher<T>>)

  datatype Step<T> =
    | Acquire(u: Id)          // update: takes the write lock
    | Write(u: Id, v: T)      // update: the closure changes the value, once or several times
    | Bump(u: Id)             // update: increments the version
    | Release(u: Id)          // update: drops the write lock
    | Subscribe(w: Id, v: T)  // watcher(): takes the read lock; the copy is not there yet
    | Begin(w: Id)            // cached_or_latest: loads the version and compares
    | TryRead(w: Id)          // cached_or_latest: try_read succeeds
    | Miss(w: Id)             // cached_or_latest: try_read fails
    | Clone(w: Id)            // copies the value
    | Load(w: Id)             // loads the version
    | Unlock(w: Id)           // drops the read lock
    | Scribble(w: Id, v: T)   // the caller writes through the returned reference

  ghost function Initial<T>(v: T): State<T> {
    State(v, 0, Free, [v], map[])
  }

  ghost predicate At<T>(s: State<T>, w: Id, phase: Phase) {
    w in s.watchers && s.watchers[w].phase == phase
  }

  ghost function Readers(lock: Lock): set<Id> {
    if lock.Shared? then lock.readers else {}
  }

  ghost predicate Enabled<T>(s: State<T>, step: Step<T>) {
    match step
    case Acquire(u) => s.lock.Free?
    case Write(u, v) => s.lock == Exclusive(u, false)
    case Bump(u) => s.lock == Exclusive(u, false)
    case Release(u) => s.lock == Exclusive(u, true)
    case Subscribe(w, v) => w !in s.watchers && !s.lock.Exclusive?
    case Begin(w) => At(s, w, Idle)
    case TryRead(w) => At(s, w, Checked) && !s.lock.Exclusive?
    case Miss(w) => At(s, w, Checked)
    case Clone(w) => At(s, w, Reading)
    case Load(w) => At(s, w, Cloned)
    case Unlock(w) => At(s, w, Loaded)
    case Scribble(w, v) => At(s, w, Idle)
  }

  ghost function Join(lock: Lock, w: Id): Lock {
    Shared(Readers(lock) + {w})
  }

  ghost function Leave(lock: Lock, w: Id): Lock {
    var readers := Readers(lock) - {w};
    if readers == {} then Free else Shared(readers)
  }

  ghost function Do<T>(s: State<T>, step: Step<T>): State<T>
    requires Enabled(s, step)
  {
    match step
    case Acquire(u) => s.(lock := Exclusive(u, false))
    case Write(u, v) => s.(value := v)
    case Bump(u) => s.(version := s.version + 1, history := s.history + [s.value], lock := Exclusive(u, true))
    case Release(u) => s.(lock := Free)
    case Subscribe(w, v) =>
      s.(lock := Join(s.lock, w), watchers := s.watchers[w := Watcher(v, 0, Reading, false)])
    case Begin(w) => if s.version == s.watchers[w].version then s else Goto(s, w, Checked)
    case TryRead(w) => Goto(s.(lock := Join(s.lock, w)), w, Reading)
    case Miss(w) => Goto(s, w, Idle)
    case Clone(w) => Put(s, w, s.watchers[w].(local := s.value, phase := Cloned, clean := false))
    case Load(w) => Put(s, w, s.watchers[w].(version := s.version, phase := Loaded, clean := true))
    case Unlock(w) => Goto(s.(lock := Leave(s.lock, w)), w, Idle)
    case Scribble(w, v) => Put(s, w, s.watchers[w].(local := v, clean := false))
  }

  ghost function Put<T>(s: State<T>, w: Id, watcher: Watcher<T>): State<T> {
    s.(watchers := s.watchers[w := watcher])
  }

  ghost function Goto<T>(s: State<T>, w: Id, phase: Phase): State<T>
    requires w in s.watchers
  {
    Put(s, w, s.watchers[w].(phase := phase))
  }

  /** The steps can be taken one after the other. */
  ghost predicate Possible<T>(s: State<T>, steps: seq<Step<T>>)
    decreases |steps|
  {
    steps == [] || (Enabled(s, steps[0]) && Possible(Do(s, steps[0]), steps[1..]))
  }

  ghost function Run<T>(s: State<T>, steps: seq<Step<T>>): State<T>
    requires Possible(s, steps)
    decreases |steps|
  {
    if steps == [] then s else Run(Do(s, steps[0]), steps[1..])
  }

  // ---------------------------------------------------------------- what every step keeps

  ghost predicate Holds(phase: Phase) {
    phase == Reading || phase == Cloned || phase == Loaded
  }

  ghost predicate WatcherOk<T>(s: State<T>, id: Id, w: Watcher<T>) {
    && w.version <= s.version < |s.history|
    && (Holds(w.phase) <==> id in Readers(s.lock))
    && (w.phase == Cloned ==> w.local == s.value)
    && (w.clean ==> w.local == s.history[w.version])
  }

  ghost predicate Inv<T>(s: State<T>) {
    && |s.history| == s.version + 1
    && ((s.lock.Exclusive? && !s.lock.bumped) || s.value == s.history[s.version])
    && (s.lock.Shared? ==> s.lock.readers != {})
    && (forall r | r in Readers(s.lock) :: r in s.watchers)
    && (forall id | id in s.watchers :: WatcherOk(s, id, s.watchers[id]))
  }

  lemma InitialInv<T>(v: T)
    ensures Inv(Initial(v))
  {
  }

  lemma StepKeepsInv<T>(s: State<T>, step: Step<T>)
    requires Inv(s) && Enabled(s, step)
    ensures Inv(Do(s, step))
  {
  }

  lemma {:induction false} RunKeepsInv<T>(s: State<T>, steps: seq<Step<T>>)
    requires Inv(s) && Possible(s, steps)
    ensures Inv(Run(s, steps))
    decreases |steps|
  {
    if steps != [] {
      StepKeepsInv(s, steps[0]);
      RunKeepsInv(Do(s, steps[0]), steps[1..]);
    }
  }

  /** A refresh stores a value together with the version that the value was committed with. */
  lemma RefreshIsCommitted<T>(v: T, steps: seq<Step<T>>, w: Id)
    requires Possible(Initial(v), steps) && Enabled(Run(Initial(v), steps), Load(w))
    ensures var s := Run(Initial(v), steps);
            var refreshed := Do(s, Load(w)).watchers[w];
            refreshed.version == s.version < |s.history| && refreshed.local == s.history[refreshed.version]
  {
    InitialInv(v);
    RunKeepsInv(Initial(v), steps);
    var s := Run(Initial(v), steps);
    assert WatcherOk(s, w, s.watchers[w]);
    StepKeepsInv(s, Load(w));
  }

  // ---------------------------------------------------------------- what the updates wrote

  /** The value after the writes among the steps: the last one's, or the given one if there is none. */
  ghost function LastWritten<T>(v: T, steps: seq<Step<T>>): T {
    if steps == [] then v
    else
      var last := steps[|steps| - 1];
      if last.Write? then last.v else LastWritten(v, steps[..|steps| - 1])
  }

  /** The number of updates among the steps that have incremented the version. */
  ghost function Updates<T>(steps: seq<Step<T>>): nat {
    if steps == [] then 0 else Updates(steps[..|steps| - 1]) + (if steps[|steps| - 1].Bump? then 1 else 0)
  }

  /** The values that the steps commit, one for every version: what was last written when the version was
      incremented. */
  ghost function Committed<T>(v: T, steps: seq<Step<T>>): (r: seq<T>)
    ensures |r| == Updates(steps) + 1
  {
    if steps == [] then [v]
    else
      var done := steps[..|steps| - 1];
      Committed(v, done) + (if steps[|steps| - 1].Bump? then [LastWritten(v, done)] else [])
  }

  /** The state tells exactly what the steps have written. */
  ghost predicate Tells<T>(v: T, done: seq<Step<T>>, s: State<T>) {
    s.value == LastWritten(v, done) && s.version == Updates(done) && s.history == Committed(v, done)
  }

  lemma StepTells<T>(v: T, done: seq<Step<T>>, s: State<T>, step: Step<T>)
    requires Tells(v, done, s) && Enabled(s, step)
    ensures Tells(v, done + [step], Do(s, step))
  {
    assert (done + [step])[..|done|] == done;
  }

  lemma {:induction false} RunTells<T>(v: T, done: seq<Step<T>>, s: State<T>, steps: seq<Step<T>>)
    requires Tells(v, done, s) && Possible(s, steps)
    ensures Tells(v, done + steps, Run(s, steps))
    decreases |steps|
  {
    if steps == [] {
      assert done + steps == done;
    } else {
      StepTells(v, done, s, steps[0]);
      RunTells(v, done + [steps[0]], Do(s, steps[0]), steps[1..]);
      assert done + [steps[0]] + steps[1..] == done + steps;
    }
  }

  /** After every run the value is the last one written, the version counts the updates, and every version was
      committed with what its update had written last. */
  lemma HistoryIsWritten<T>(v: T, steps: seq<Step<T>>)
    requires Possible(Initial(v), steps)
    ensures Tells(v, steps, Run(Initial(v), steps))
  {
    RunTells(v, [], Initial(v), steps);
    assert [] + steps == steps;
  }

  lemma {:induction false} RunAppend<T>(s: State<T>, a: seq<Step<T>>, b: seq<Step<T>>)
    ensures Possible(s, a + b) <==> Possible(s, a) && Possible(Run(s, a), b)
    ensures Possible(s, a + b) ==> Run(s, a + b) == Run(Run(s, a), b)
    decreases |a|
  {
    if a == [] {
      assert a + b == b;
    } else {
      assert (a + b)[0] == a[0] && (a + b)[1..] == a[1..] + b;
      if Enabled(s, a[0]) {
        RunAppend(Do(s, a[0]), a[1..], b);
      }
    }
  }

  lemma {:induction false} WrittenAppend<T>(v: T, a: seq<Step<T>>, b: seq<Step<T>>)
    ensures LastWritten(v, a + b) == LastWritten(LastWritten(v, a), b)
    ensures Updates(a + b) == Updates(a) + Updates(b)
    ensures Committed(v, a) <= Committed(v, a + b)
  {
    if b == [] {
      assert a + b == a;
    } else {
      WrittenAppend(v, a, b[..|b| - 1]);
      assert (a + b)[..|a + b| - 1] == a + b[..|b| - 1];
    }
  }

  /** The steps of a run up to the update of `u` that increments the version next, of that update, and after it. */
  ghost function WithUpdate<T>(before: seq<Step<T>>, u: Id, during: seq<Step<T>>, after: seq<Step<T>>): seq<Step<T>> {
    before + ([Acquire(u)] + during + [Bump(u)] + after)
  }

  /** An update commits what it wrote last, or the value before it if it wrote nothing. */
  lemma UpdateCommits<T>(v: T, before: seq<Step<T>>, u: Id, during: seq<Step<T>>, after: seq<Step<T>>)
    requires Possible(Initial(v), WithUpdate(before, u, during, after))
    requires forall k | 0 <= k < |during| :: !during[k].Bump?
    ensures var n := Updates(before);
            var history := Run(Initial(v), WithUpdate(before, u, during, after)).history;
            n + 1 < |history| && history[n + 1] == LastWritten(history[n], during)
  {
    var rest := [Acquire(u)] + during + [Bump(u)] + after;
    RunAppend(Initial(v), before, rest);
    assert rest[0] == Acquire(u);
    AcquiredIsCommitted(v, before, u);
    HistoryIsWritten(v, WithUpdate(before, u, during, after));
    CommittedNext(v, before, u, during, after);
  }

  lemma CommittedNext<T>(v: T, before: seq<Step<T>>, u: Id, during: seq<Step<T>>, after: seq<Step<T>>)
    requires forall k | 0 <= k < |during| :: !during[k].Bump?
    ensures var n, committed := Updates(before), Committed(v, WithUpdate(before, u, during, after));
            && n + 1 < |committed| && committed[n] == Committed(v, before)[n]
            && committed[n + 1] == LastWritten(LastWritten(v, before), during)
  {
    var done := before + ([Acquire(u)] + during);
    var bumped := done + [Bump(u)];
    assert WithUpdate(before, u, during, after) == bumped + after;
    WrittenAppend(v, bumped, after);
    assert bumped[..|done|] == done;
    NoUpdates([Acquire(u)] + during);
    WrittenAppend(v, before, [Acquire(u)] + during);
    SkipFirst(LastWritten(v, before), Acquire(u), during);
  }

  lemma SkipFirst<T>(v: T, step: Step<T>, steps: seq<Step<T>>)
    requires !step.Write?
    ensures LastWritten(v, [step] + steps) == LastWritten(v, steps)
  {
    WrittenAppend(v, [step], steps);
    assert [step][..0] == [];
  }

  lemma {:induction false} NoUpdates<T>(steps: seq<Step<T>>)
    requires forall k | 0 <= k < |steps| :: !steps[k].Bump?
    ensures Updates(steps) == 0
  {
    if steps != [] {
      NoUpdates(steps[..|steps| - 1]);
    }
  }

  /** Where an update can begin, everything written is committed. */
  lemma AcquiredIsCommitted<T>(v: T, before: seq<Step<T>>, u: Id)
    requires Possible(Initial(v), before) && Enabled(Run(Initial(v), before), Acquire(u))
    ensures LastWritten(v, before) == Committed(v, before)[Updates(before)]
  {
    InitialInv(v);
    RunKeepsInv(Initial(v), before);
    HistoryIsWritten(v, before);
  }

  /** An update that nobody interrupts can always be made when the lock is free, and leaves it free. */
  lemma UpdateAlone<T>(s: State<T>, u: Id, x: T)
    requires s.lock.Free?
    ensures Possible(s, [Acquire(u), Write(u, x), Bump(u), Release(u)])
    ensures Run(s, [Acquire(u), Write(u, x), Bump(u), Release(u)]) ==
            State(x, s.version + 1, Free, s.history + [x], s.watchers)
  {
    var held := s.(lock := Exclusive(u, false));
    var written := held.(value := x);
    var bumped := written.(version := s.version + 1, history := s.history + [x], lock := Exclusive(u, true));
    StepThen(bumped, Release(u), []);
    StepThen(written, Bump(u), [Release(u)]);
    StepThen(held, Write(u, x), [Bump(u), Release(u)]);
    StepThen(s, Acquire(u), [Write(u, x), Bump(u), Release(u)]);
  }

  lemma StepThen<T>(s: State<T>, step: Step<T>, rest: seq<Step<T>>)
    requires Enabled(s, step) && Possible(Do(s, step), rest)
    ensures Possible(s, [step] + rest) && Run(s, [step] + rest) == Run(Do(s, step), rest)
  {
    assert ([step] + rest)[1..] == rest;
  }

  /** Under the read lock a watcher copies the value and the version, and lets go of the lock. */
  lemma ReadAlone<T>(s: State<T>, w: Id)
    requires At(s, w, Reading)
    ensures Possible(s, [Clone(w), Load(w), Unlock(w)])
    ensures Run(s, [Clone(w), Load(w), Unlock(w)]) ==
            s.(lock := Leave(s.lock, w), watchers := s.watchers[w := Watcher(s.value, s.version, Idle, true)])
  {
    var cloned := Put(s, w, Watcher(s.value, s.watchers[w].version, Cloned, false));
    var loaded := Put(s, w, Watcher(s.value, s.version, Loaded, true));
    assert Do(s, Clone(w)) == cloned;
    assert Do(cloned, Load(w)) == loaded;
    StepThen(loaded, Unlock(w), []);
    StepThen(cloned, Load(w), [Unlock(w)]);
    StepThen(s, Clone(w), [Load(w), Unlock(w)]);
  }

  /** A call of a watcher that is behind can always be made when nobody updates, and leaves it with the value and the
      version of now, and everything else as it was. */
  lemma RefreshAlone<T>(s: State<T>, w: Id)
    requires Inv(s) && At(s, w, Idle) && s.watchers[w].version != s.version && !s.lock.Exclusive?
    ensures Possible(s, [Begin(w), TryRead(w), Clone(w), Load(w), Unlock(w)])
    ensures Run(s, [Begin(w), TryRead(w), Clone(w), Load(w), Unlock(w)]) ==
            s.(watchers := s.watchers[w := Watcher(s.value, s.version, Idle, true)])
  {
    assert WatcherOk(s, w, s.watchers[w]);
    var checked := Goto(s, w, Checked);
    TryReadAlone(checked, w);
    StepThen(s, Begin(w), [TryRead(w), Clone(w), Load(w), Unlock(w)]);
  }

  lemma TryReadAlone<T>(s: State<T>, w: Id)
    requires At(s, w, Checked) && !s.lock.Exclusive? && w !in Readers(s.lock)
    requires s.lock.Shared? ==> s.lock.readers != {}
    ensures Possible(s, [TryRead(w), Clone(w), Load(w), Unlock(w)])
    ensures Run(s, [TryRead(w), Clone(w), Load(w), Unlock(w)]) ==
            s.(watchers := s.watchers[w := Watcher(s.value, s.version, Idle, true)])
  {
    JoinThenLeave(s.lock, w);
    ReadAlone(Do(s, TryRead(w)), w);
    StepThen(s, TryRead(w), [Clone(w), Load(w), Unlock(w)]);
  }

  /** A call that cannot get the read lock does not wait: it leaves everything, also the old copy, as it was. */
  lemma MissAlone<T>(s: State<T>, w: Id)
    requires At(s, w, Idle) && s.watchers[w].version != s.version
    ensures Possible(s, [Begin(w), Miss(w)]) && Run(s, [Begin(w), Miss(w)]) == s
  {
    var checked := Do(s, Begin(w));
    StepThen(s, Begin(w), [Miss(w)]);
    StepThen(checked, Miss(w), []);
    assert Do(checked, Miss(w)).watchers == s.watchers;
  }

  /** What the caller wrote through the reference is there at the next call, as long as there was no update. */
  lemma ScribbleStays<T>(s: State<T>, w: Id, x: T)
    requires At(s, w, Idle) && s.watchers[w].version == s.version
    ensures Possible(s, [Scribble(w, x), Begin(w)])
    ensures Run(s, [Scribble(w, x), Begin(w)]) == s.(watchers := s.watchers[w := Watcher(x, s.version, Idle, false)])
  {
    var written := Do(s, Scribble(w, x));
    StepThen(s, Scribble(w, x), [Begin(w)]);
    StepThen(written, Begin(w), []);
  }

  /** A new watcher has the value and the version of now. */
  lemma SubscribeAlone<T>(s: State<T>, w: Id, v: T)
    requires Inv(s) && w !in s.watchers && !s.lock.Exclusive?
    ensures Possible(s, [Subscribe(w, v), Clone(w), Load(w), Unlock(w)])
    ensures Run(s, [Subscribe(w, v), Clone(w), Load(w), Unlock(w)]) ==
            s.(watchers := s.watchers[w := Watcher(s.value, s.version, Idle, true)])
  {
    JoinThenLeave(s.lock, w);
    ReadAlone(Do(s, Subscribe(w, v)), w);
    StepThen(s, Subscribe(w, v), [Clone(w), Load(w), Unlock(w)]);
  }

  lemma JoinThenLeave(lock: Lock, w: Id)
    requires !lock.Exclusive? && w !in Readers(lock) && (lock.Shared? ==> lock.readers != {})
    ensures Leave(Join(lock, w), w) == lock
  {
    assert Readers(lock) + {w} - {w} == Readers(lock);
  }

  // ---------------------------------------------------------------- nothing goes back

  lemma StepGrows<T>(s: State<T>, step: Step<T>, w: Id)
    requires Inv(s) && Enabled(s, step) && w in s.watchers
    ensures var s' := Do(s, step);
            s.history <= s'.history && w in s'.watchers && s.watchers[w].version <= s'.watchers[w].version
  {
  }

  lemma StepExtendsHistory<T>(s: State<T>, step: Step<T>)
    requires Enabled(s, step)
    ensures s.history <= Do(s, step).history && s.version <= Do(s, step).version
  {
  }

  /** Over every run the committed values stay committed and no watcher's version goes back. */
  lemma {:induction false} RunGrows<T>(s: State<T>, steps: seq<Step<T>>, w: Id)
    requires Inv(s) && Possible(s, steps) && w in s.watchers
    ensures var s' := Run(s, steps);
            && s.history <= s'.history
            && s.version <= s'.version
            && w in s'.watchers
            && s.watchers[w].version <= s'.watchers[w].version
    decreases |steps|
  {
    if steps != [] {
      StepGrows(s, steps[0], w);
      StepExtendsHistory(s, steps[0]);
      StepKeepsInv(s, steps[0]);
      RunGrows(Do(s, steps[0]), steps[1..], w);
    }
  }

  // ---------------------------------------------------------------- freshness of a call

  /** A call of watcher `w` that began at version `floor` is under way or has just ended. */
  ghost predicate InCall<T>(s: State<T>, w: Id, floor: nat, missed: bool) {
    && w in s.watchers
    && floor <= s.version
    && match s.watchers[w].phase
       case Idle =>
         if missed then s.watchers[w].version < floor else s.watchers[w].version >= floor && s.watchers[w].clean
       case Checked => !missed && s.watchers[w].version < floor
       case Loaded => !missed && s.watchers[w].version >= floor && s.watchers[w].clean
       case _ => !missed
  }

  /** Steps that are not part of a new call of `w`, nor writes of its caller. */
  ghost predicate SameCall<T>(steps: seq<Step<T>>, w: Id) {
    forall k | 0 <= k < |steps| :: !(steps[k].Begin? && steps[k].w == w) && !(steps[k].Scribble? && steps[k].w == w)
  }

  ghost predicate Misses<T>(steps: seq<Step<T>>, w: Id) {
    exists k | 0 <= k < |steps| :: steps[k] == Miss(w)
  }

  lemma StepInCall<T>(s: State<T>, step: Step<T>, w: Id, floor: nat, missed: bool)
    requires Inv(s) && Enabled(s, step) && InCall(s, w, floor, missed)
    requires !(step.Begin? && step.w == w) && !(step.Scribble? && step.w == w)
    ensures InCall(Do(s, step), w, floor, missed || step == Miss(w))
  {
    StepExtendsHistory(s, step);
  }

  lemma {:induction false} RunInCall<T>(s: State<T>, steps: seq<Step<T>>, w: Id, floor: nat, missed: bool)
    requires Inv(s) && Possible(s, steps) && InCall(s, w, floor, missed) && SameCall(steps, w)
    ensures InCall(Run(s, steps), w, floor, missed || Misses(steps, w))
    decreases |steps|
  {
    if steps != [] {
      StepInCall(s, steps[0], w, floor, missed);
      StepKeepsInv(s, steps[0]);
      RunInCall(Do(s, steps[0]), steps[1..], w, floor, missed || steps[0] == Miss(w));
      assert Misses(steps, w) <==> steps[0] == Miss(w) || Misses(steps[1..], w) by {
        MissesCons(steps, w);
      }
    }
  }

  lemma MissesCons<T>(steps: seq<Step<T>>, w: Id)
    requires steps != []
    ensures Misses(steps, w) <==> steps[0] == Miss(w) || Misses(steps[1..], w)
  {
  }

  /** A call that has ended returns, exactly when its try-read did not fail, a value committed by the last update that
      had incremented the version when the call began, or by a later one. */
  lemma Freshness<T>(v: T, before: seq<Step<T>>, during: seq<Step<T>>, w: Id)
    requires Possible(Initial(v), before) && At(Run(Initial(v), before), w, Idle)
    requires Possible(Initial(v), before + [Begin(w)] + during)
    requires var s := Run(Initial(v), before);
             s.watchers[w].clean || s.watchers[w].version != s.version
    requires SameCall(during, w) && At(Run(Initial(v), before + [Begin(w)] + during), w, Idle)
    ensures var mine := Run(Initial(v), before + [Begin(w)] + during).watchers[w];
            var committed := Committed(v, before + [Begin(w)] + during);
            && (mine.version >= Updates(before) <==> !Misses(during, w))
            && (!Misses(during, w) ==> mine.version < |committed| && mine.local == committed[mine.version])
  {
    var s := Run(Initial(v), before);
    RunAppend(Initial(v), before + [Begin(w)], during);
    RunAppend(Initial(v), before, [Begin(w)]);
    OneStep(s, Begin(w));
    InitialInv(v);
    RunKeepsInv(Initial(v), before);
    HistoryIsWritten(v, before);
    HistoryIsWritten(v, before + [Begin(w)] + during);
    CallInRun(s, during, w);
  }

  lemma OneStep<T>(s: State<T>, step: Step<T>)
    requires Enabled(s, step)
    ensures Possible(s, [step]) && Run(s, [step]) == Do(s, step)
  {
    assert [step][1..] == [];
  }

  lemma CallInRun<T>(s: State<T>, during: seq<Step<T>>, w: Id)
    requires Inv(s) && At(s, w, Idle) && (s.watchers[w].clean || s.watchers[w].version != s.version)
    requires Possible(Do(s, Begin(w)), during) && SameCall(during, w) && At(Run(Do(s, Begin(w)), during), w, Idle)
    ensures var end := Run(Do(s, Begin(w)), during);
            var mine := end.watchers[w];
            && (mine.version >= s.version <==> !Misses(during, w))
            && (!Misses(during, w) ==> mine.version < |end.history| && mine.local == end.history[mine.version])
  {
    assert WatcherOk(s, w, s.watchers[w]);
    StepKeepsInv(s, Begin(w));
    var begun := Do(s, Begin(w));
    RunInCall(begun, during, w, s.version, false);
    RunKeepsInv(begun, during);
    var end := Run(begun, during);
    assert WatcherOk(end, w, end.watchers[w]);
  }
}
