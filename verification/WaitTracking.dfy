/**
  The timer table of `WaitTracker`. Polls arm a timer for every listed execution that has no entry yet;
  starts drop the entry but not the timer; stepping down as leader disarms the timers but keeps the
  entries. One step is one stretch between awaits, so a poll may land after its process stepped down.
 */
module WaitTracking {
  import opened Basics

  type ExecutionId = nat
  type TimerId = nat

  datatype Timer = Timer(execution: ExecutionId, due: int)

  /** A row of the poll: an execution that waits until a given instant. */
  datatype Listed = Listed(execution: ExecutionId, waitTill: int)

  /** `polling` says that a main timer was ever set; it is cleared on stepping down, but never unset. */
  datatype State = State(polling: bool, waiting: map<ExecutionId, TimerId>, armed: map<TimerId, Timer>, next: TimerId)

  datatype Step =
    | TakeOver
    | StepDown
    | Poll(listed: seq<Listed>, now: int)
    | StopExecution(execution: ExecutionId)
    | StartExecution(execution: ExecutionId)
    | Fire(timer: TimerId)

  const Initial := State(false, map[], map[], 0)

  /** One iteration of `getWaitingExecutions`: an instant in the past fires at once. */
  function Track(s: State, e: Listed, now: int): State {
    if e.execution in s.waiting then s
    else State(s.polling, s.waiting[e.execution := s.next],
               s.armed[s.next := Timer(e.execution, Max(now, e.waitTill))], s.next + 1)
  }

  function TrackAll(s: State, listed: seq<Listed>, now: int): State {
    if listed == [] then s
    else Track(TrackAll(s, listed[..|listed| - 1], now), listed[|listed| - 1], now)
  }

  predicate Enabled(s: State, step: Step) {
    step.Fire? ==> step.timer in s.armed
  }

  function Apply(s: State, step: Step): State
    requires Enabled(s, step)
  {
    match step
    case TakeOver => s.(polling := true)
    case StepDown => if s.polling then s.(armed := s.armed - s.waiting.Values) else s
    case Poll(listed, now) => TrackAll(s, listed, now)
    case StopExecution(id) =>
      if id in s.waiting then s.(armed := s.armed - {s.waiting[id]}, waiting := s.waiting - {id}) else s
    case StartExecution(id) => s.(waiting := s.waiting - {id})
    case Fire(t) => s.(armed := s.armed - {t}, waiting := s.waiting - {s.armed[t].execution})
  }

  ghost predicate Legal(s: State, steps: seq<Step>)
    decreases |steps|
  {
    steps == [] || (Enabled(s, steps[0]) && Legal(Apply(s, steps[0]), steps[1..]))
  }

  ghost function Run(s: State, steps: seq<Step>): State
    requires Legal(s, steps)
    decreases |steps|
  {
    if steps == [] then s else Run(Apply(s, steps[0]), steps[1..])
  }

  // ---------------------------------------------------------------------
  // Entries and their timers
  // ---------------------------------------------------------------------

  /** Timers are handed out once, and an entry's timer, while armed, starts that very execution. */
  ghost predicate Recorded(s: State) {
    && (forall t :: t in s.armed ==> t < s.next)
    && (forall id :: id in s.waiting ==> s.waiting[id] < s.next)
    && (forall id :: id in s.waiting && s.waiting[id] in s.armed ==> s.armed[s.waiting[id]].execution == id)
  }

  /** An entry whose timer will fire. */
  predicate Live(s: State, id: ExecutionId) {
    id in s.waiting && s.waiting[id] in s.armed
  }

  /** An entry whose timer is gone. */
  predicate Stale(s: State, id: ExecutionId) {
    id in s.waiting && s.waiting[id] !in s.armed
  }

  ghost predicate NoneStale(s: State) {
    forall id :: id in s.waiting ==> s.waiting[id] in s.armed
  }

  /** What was there stays as it was: entries, armed timers, and timers that are gone. */
  ghost predicate Undisturbed(s: State, s': State) {
    && s'.polling == s.polling && s.next <= s'.next
    && (forall id :: id in s.waiting ==> id in s'.waiting && s'.waiting[id] == s.waiting[id])
    && (forall t :: t in s.armed ==> t in s'.armed && s'.armed[t] == s.armed[t])
    && (forall t :: t in s'.armed && t < s.next ==> t in s.armed)
  }

  /** A new timer is the one on record for an execution that had no entry, and is due when the list says. */
  ghost predicate NewTimer(s: State, listed: seq<Listed>, now: int, s': State, t: TimerId)
    requires t in s'.armed
  {
    var timer := s'.armed[t];
    && timer.execution !in s.waiting && timer.execution in s'.waiting && s'.waiting[timer.execution] == t
    && exists e :: e in listed && timer == Timer(e.execution, Max(now, e.waitTill))
  }

  /** A poll adds a timer for every listed execution without an entry, and nothing else. */
  ghost predicate Polled(s: State, listed: seq<Listed>, now: int, s': State) {
    && Undisturbed(s, s')
    && (forall t :: t in s'.armed && s.next <= t ==> NewTimer(s, listed, now, s', t))
    && (forall id :: id in s'.waiting && id !in s.waiting ==> s.next <= s'.waiting[id] && s'.waiting[id] in s'.armed)
    && (forall e :: e in listed ==> e.execution in s'.waiting)
  }

  lemma {:induction false} TrackAllPolled(s: State, listed: seq<Listed>, now: int)
    requires Recorded(s)
    ensures Recorded(TrackAll(s, listed, now)) && Polled(s, listed, now, TrackAll(s, listed, now))
    decreases |listed|
  {
    if listed != [] {
      var front, last := listed[..|listed| - 1], listed[|listed| - 1];
      TrackAllPolled(s, front, now);
      assert listed == front + [last];
      TrackPolled(s, front, last, now, TrackAll(s, front, now));
    }
  }

  lemma TrackTimers(s: State, front: seq<Listed>, e: Listed, now: int, mid: State, t: TimerId)
    requires Recorded(mid) && Polled(s, front, now, mid) && t in Track(mid, e, now).armed && s.next <= t
    ensures NewTimer(s, front + [e], now, Track(mid, e, now), t)
  {
  }

  lemma TrackRecorded(s: State, mid: State, e: Listed, now: int)
    requires Recorded(mid) && Undisturbed(s, mid)
    ensures Recorded(Track(mid, e, now)) && Undisturbed(s, Track(mid, e, now))
  {
  }

  lemma TrackPolled(s: State, front: seq<Listed>, e: Listed, now: int, mid: State)
    requires Recorded(mid) && Polled(s, front, now, mid)
    ensures Recorded(Track(mid, e, now)) && Polled(s, front + [e], now, Track(mid, e, now))
  {
    var s', listed := Track(mid, e, now), front + [e];
    TrackRecorded(s, mid, e, now);
    forall t | t in s'.armed && s.next <= t ensures NewTimer(s, listed, now, s', t) {
      TrackTimers(s, front, e, now, mid, t);
    }
    forall x | x in listed ensures x.execution in s'.waiting {
      assert x in front || x == e;
    }
    forall id | id in s'.waiting && id !in s.waiting ensures s.next <= s'.waiting[id] && s'.waiting[id] in s'.armed {
      assert id in mid.waiting || id == e.execution;
    }
  }

  lemma RecordedStep(s: State, step: Step)
    requires Recorded(s) && Enabled(s, step)
    ensures Recorded(Apply(s, step))
  {
    if step.Poll? {
      TrackAllPolled(s, step.listed, step.now);
    }
  }

  /** A poll leaves all its executions with a timer that will fire if and only if none of them was stale. */
  lemma PollTracksExactly(s: State, listed: seq<Listed>, now: int)
    requires Recorded(s)
    ensures (forall e :: e in listed ==> Live(Apply(s, Poll(listed, now)), e.execution))
       <==> (forall e :: e in listed ==> !Stale(s, e.execution))
  {
    TrackAllPolled(s, listed, now);
    var s' := Apply(s, Poll(listed, now));
    forall e | e in listed ensures Live(s', e.execution) <==> !Stale(s, e.execution) {
      if Stale(s, e.execution) {
        assert s'.waiting[e.execution] == s.waiting[e.execution] < s.next;
      }
    }
  }

  /** Stepping down after having polled makes every entry stale; no other step makes any. */
  lemma StaleStep(s: State, step: Step, id: ExecutionId)
    requires Recorded(s) && Enabled(s, step)
    ensures step == StepDown && s.polling ==> (Stale(Apply(s, step), id) <==> id in s.waiting)
    ensures !(step == StepDown && s.polling) && Stale(Apply(s, step), id) ==> Stale(s, id)
  {
    if step.Poll? {
      TrackAllPolled(s, step.listed, step.now);
    }
  }

  // ---------------------------------------------------------------------
  // Over whole runs
  // ---------------------------------------------------------------------

  ghost predicate InOneTerm(steps: seq<Step>) {
    forall step :: step in steps ==> step != StepDown
  }

  /** Every poll of the run leaves all its executions live. */
  ghost predicate PollsTrack(s: State, steps: seq<Step>)
    requires Legal(s, steps)
    decreases |steps|
  {
    steps != [] ==>
      && (steps[0].Poll? ==> forall e :: e in steps[0].listed ==> Live(Apply(s, steps[0]), e.execution))
      && PollsTrack(Apply(s, steps[0]), steps[1..])
  }

  ghost predicate TermTracks(s: State) {
    forall steps :: Legal(s, steps) && InOneTerm(steps) ==> PollsTrack(s, steps)
  }

  lemma {:induction false} NoneStaleTracks(s: State, steps: seq<Step>)
    requires Recorded(s) && NoneStale(s) && Legal(s, steps) && InOneTerm(steps)
    ensures PollsTrack(s, steps)
    decreases |steps|
  {
    if steps != [] {
      assert steps[0] in steps;
      var s' := Apply(s, steps[0]);
      RecordedStep(s, steps[0]);
      forall id | id in s'.waiting ensures s'.waiting[id] in s'.armed {
        StaleStep(s, steps[0], id);
      }
      if steps[0].Poll? {
        PollTracksExactly(s, steps[0].listed, steps[0].now);
      }
      assert forall step :: step in steps[1..] ==> step in steps;
      NoneStaleTracks(s', steps[1..]);
    }
  }

  /**
    The exact condition: throughout the rest of a term every poll gives every execution it lists a timer
    if and only if the term began without stale entries. A process that never stepped down has none; one
    that regains leadership has one for every entry it kept.
   */
  lemma TermTracksExactly(s: State)
    requires Recorded(s)
    ensures TermTracks(s) <==> NoneStale(s)
  {
    if NoneStale(s) {
      forall steps | Legal(s, steps) && InOneTerm(steps) ensures PollsTrack(s, steps) {
        NoneStaleTracks(s, steps);
      }
    } else {
      var id :| id in s.waiting && s.waiting[id] !in s.armed;
      var e := Listed(id, 0);
      PollTracksExactly(s, [e], 0);
      assert e in [e];
      var steps := [Poll([e], 0)];
      assert Legal(Apply(s, steps[0]), steps[1..]);
      assert Legal(s, steps) && InOneTerm(steps) && !PollsTrack(s, steps);
    }
  }

  /** No step of the run starts or stops the execution from outside. */
  ghost predicate LeftAlone(steps: seq<Step>, id: ExecutionId) {
    StartExecution(id) !in steps && StopExecution(id) !in steps
  }

  /** Some timer of the run starts the execution. */
  ghost predicate Fires(s: State, steps: seq<Step>, id: ExecutionId)
    requires Legal(s, steps)
    decreases |steps|
  {
    steps != [] &&
    ((steps[0].Fire? && s.armed[steps[0].timer].execution == id) || Fires(Apply(s, steps[0]), steps[1..], id))
  }

  ghost predicate CanFire(s: State, id: ExecutionId) {
    exists steps :: Legal(s, steps) && LeftAlone(steps, id) && Fires(s, steps, id)
  }

  /** A stale entry, and no other timer left over for its execution. */
  ghost predicate Lost(s: State, id: ExecutionId) {
    Stale(s, id) && forall t :: t in s.armed ==> s.armed[t].execution != id
  }

  lemma LostStep(s: State, step: Step, id: ExecutionId)
    requires Recorded(s) && Enabled(s, step) && Lost(s, id)
    requires step != StartExecution(id) && step != StopExecution(id)
    ensures Lost(Apply(s, step), id)
  {
    if step.Poll? {
      TrackAllPolled(s, step.listed, step.now);
    }
  }

  lemma {:induction false} LostNeverFires(s: State, steps: seq<Step>, id: ExecutionId)
    requires Recorded(s) && Lost(s, id) && Legal(s, steps) && LeftAlone(steps, id)
    ensures !Fires(s, steps, id) && Lost(Run(s, steps), id)
    decreases |steps|
  {
    if steps != [] {
      assert steps[0] in steps;
      RecordedStep(s, steps[0]);
      LostStep(s, steps[0], id);
      LostNeverFires(Apply(s, steps[0]), steps[1..], id);
    }
  }

  lemma ArmedCanFire(s: State, t: TimerId)
    requires t in s.armed
    ensures CanFire(s, s.armed[t].execution)
  {
    var steps := [Fire(t)];
    assert Legal(Apply(s, steps[0]), steps[1..]);
    assert Legal(s, steps) && LeftAlone(steps, s.armed[t].execution) && Fires(s, steps, s.armed[t].execution);
  }

  lemma AbsentCanFire(s: State, id: ExecutionId)
    requires Recorded(s) && id !in s.waiting
    ensures CanFire(s, id)
  {
    var poll := Poll([Listed(id, 0)], 0);
    var s1 := Apply(s, poll);
    assert s1 == Track(TrackAll(s, [], 0), Listed(id, 0), 0);
    var fire := [Fire(s.next)];
    assert Legal(Apply(s1, fire[0]), fire[1..]);
    assert Legal(s1, fire) && Fires(s1, fire, id);
    var steps := [poll] + fire;
    assert steps[1..] == fire;
    assert Legal(s, steps) && LeftAlone(steps, id) && Fires(s, steps, id);
  }

  /**
    The exact condition under which this process can still resume an execution on time, over every run of
    polls, takeovers and other executions' steps: it fails precisely for a stale entry without a
    left-over timer, and then it fails for good.
   */
  lemma LostExactly(s: State, id: ExecutionId)
    requires Recorded(s)
    ensures CanFire(s, id) <==> !Lost(s, id)
  {
    if Lost(s, id) {
      forall steps | Legal(s, steps) && LeftAlone(steps, id) ensures !Fires(s, steps, id) {
        LostNeverFires(s, steps, id);
      }
    } else if t :| t in s.armed && s.armed[t].execution == id {
      ArmedCanFire(s, t);
    } else {
      assert id !in s.waiting;
      AbsentCanFire(s, id);
    }
  }

  /** It happens to a single execution that is polled before its leader steps down and takes over again. */
  lemma LostAcrossTerms(id: ExecutionId, waitTill: int, now: int)
    ensures var steps := [TakeOver, Poll([Listed(id, waitTill)], now), StepDown, TakeOver];
      Legal(Initial, steps) && Lost(Run(Initial, steps), id)
  {
    var poll, down := Poll([Listed(id, waitTill)], now), [StepDown, TakeOver];
    var s1 := Apply(Initial, TakeOver);
    var s2 := Apply(s1, poll);
    assert s2 == Track(TrackAll(s1, [], now), Listed(id, waitTill), now);
    var s3 := Apply(s2, StepDown);
    var s4 := Apply(s3, TakeOver);
    assert s3.armed == map[] by {
      assert s2.waiting[id] in s2.waiting.Values;
    }
    var steps := [TakeOver, poll, StepDown, TakeOver];
    assert steps[1..] == [poll, StepDown, TakeOver] && steps[1..][1..] == down && down[1..] == [TakeOver];
    assert down[1..][1..] == [];
    assert Legal(s4, []) && Legal(s3, down[1..]) && Legal(s2, down) && Legal(s1, steps[1..]);
    assert Run(s3, down[1..]) == s4 && Run(s2, down) == s4 && Run(s1, steps[1..]) == s4;
  }

  // ---------------------------------------------------------------------
  // Stopping, starting and firing
  // ---------------------------------------------------------------------

  /** Stopping disarms the timer on record and no other, and removes the entry and no other. */
  lemma StopDisarms(s: State, id: ExecutionId, t: TimerId, other: ExecutionId)
    requires Recorded(s)
    ensures var s' := Apply(s, StopExecution(id));
      && id !in s'.waiting
      && (t in s'.armed <==> t in s.armed && !(id in s.waiting && s.waiting[id] == t))
      && (t in s'.armed ==> s'.armed[t] == s.armed[t])
      && (other != id ==> (other in s'.waiting <==> other in s.waiting) && (Live(s', other) <==> Live(s, other)))
  {
  }

  /** Starting removes the entry and leaves every timer armed; a timer that fires is spent, and starts its execution. */
  lemma StartKeepsTimers(s: State, id: ExecutionId, t: TimerId)
    ensures var s' := Apply(s, StartExecution(id));
      s'.armed == s.armed && id !in s'.waiting && forall other :: other != id && other in s.waiting ==> other in s'.waiting && s'.waiting[other] == s.waiting[other]
    ensures t in s.armed ==>
      var s', id := Apply(s, Fire(t)), s.armed[t].execution;
      && t !in s'.armed && id !in s'.waiting
      && (forall x :: x in s.armed && x != t ==> x in s'.armed && s'.armed[x] == s.armed[x])
      && (forall other :: other != id && other in s.waiting ==> other in s'.waiting && s'.waiting[other] == s.waiting[other])
  {
  }

  /** Stepping down disarms exactly the timers on record, if there ever was a main timer, and keeps every entry. */
  lemma StepDownExactly(s: State, t: TimerId)
    ensures var s' := Apply(s, StepDown);
      && s'.waiting == s.waiting
      && (t in s'.armed <==> t in s.armed && !(s.polling && exists id :: id in s.waiting && s.waiting[id] == t))
      && (t in s'.armed ==> s'.armed[t] == s.armed[t])
  {
    if id :| id in s.waiting && s.waiting[id] == t {
      assert t in s.waiting.Values;
    }
  }

  ghost predicate NotListed(steps: seq<Step>, id: ExecutionId) {
    forall step, e :: step in steps && step.Poll? && e in step.listed ==> e.execution != id
  }

  ghost predicate NoTimer(s: State, id: ExecutionId) {
    forall t :: t in s.armed ==> s.armed[t].execution != id
  }

  lemma NoTimerStep(s: State, step: Step, id: ExecutionId)
    requires Recorded(s) && Enabled(s, step) && NoTimer(s, id) && NotListed([step], id)
    ensures NoTimer(Apply(s, step), id)
  {
    if step.Poll? {
      TrackAllPolled(s, step.listed, step.now);
      var s' := Apply(s, step);
      assert step in [step];
      forall t | t in s'.armed ensures s'.armed[t].execution != id {
        if s.next <= t {
          assert NewTimer(s, step.listed, step.now, s', t);
        }
      }
    }
  }

  lemma {:induction false} NoTimerNeverFires(s: State, steps: seq<Step>, id: ExecutionId)
    requires Recorded(s) && NoTimer(s, id) && Legal(s, steps) && NotListed(steps, id)
    ensures !Fires(s, steps, id)
    decreases |steps|
  {
    if steps != [] {
      assert steps[0] in steps && forall step :: step in steps[1..] ==> step in steps;
      RecordedStep(s, steps[0]);
      NoTimerStep(s, steps[0], id);
      NoTimerNeverFires(Apply(s, steps[0]), steps[1..], id);
    }
  }

  ghost predicate CanFireUnlisted(s: State, id: ExecutionId) {
    exists steps :: Legal(s, steps) && NotListed(steps, id) && Fires(s, steps, id)
  }

  /** A timer of the execution, other than the one on record, is left over from before. */
  ghost predicate LeftOver(s: State, id: ExecutionId) {
    exists t :: t in s.armed && s.armed[t].execution == id && !(id in s.waiting && s.waiting[id] == t)
  }

  /**
    A stopped execution is started by a timer, in some run that does not poll it again, if and only if a
    timer other than the one on record was left over; if a later poll lists it, it can be started as any other.
   */
  lemma StoppedExactly(s: State, id: ExecutionId)
    requires Recorded(s)
    ensures var s' := Apply(s, StopExecution(id));
      (CanFireUnlisted(s', id) <==> LeftOver(s, id)) && CanFire(s', id)
  {
    var s' := Apply(s, StopExecution(id));
    RecordedStep(s, StopExecution(id));
    AbsentCanFire(s', id);
    if LeftOver(s, id) {
      var t :| t in s.armed && s.armed[t].execution == id && !(id in s.waiting && s.waiting[id] == t);
      var steps := [Fire(t)];
      assert Legal(Apply(s', steps[0]), steps[1..]);
      assert Legal(s', steps) && NotListed(steps, id) && Fires(s', steps, id);
    } else {
      forall t | t in s'.armed ensures s'.armed[t].execution != id {
        assert t in s.armed;
      }
      forall steps | Legal(s', steps) && NotListed(steps, id) ensures !Fires(s', steps, id) {
        NoTimerNeverFires(s', steps, id);
      }
    }
  }

  // ---------------------------------------------------------------------
  // No timer is early
  // ---------------------------------------------------------------------

  ghost predicate NotEarly(s: State, tills: ExecutionId -> int) {
    forall t :: t in s.armed ==> tills(s.armed[t].execution) <= s.armed[t].due
  }

  /** Every poll of the run lists each execution with the same instant. */
  ghost predicate ListsOnly(steps: seq<Step>, tills: ExecutionId -> int) {
    forall step :: step in steps && step.Poll? ==> forall e :: e in step.listed ==> e.waitTill == tills(e.execution)
  }

  /** If no execution changes its instant, no timer fires before it, in any run. */
  lemma {:induction false} TimersNotEarly(s: State, steps: seq<Step>, tills: ExecutionId -> int)
    requires Recorded(s) && NotEarly(s, tills) && Legal(s, steps) && ListsOnly(steps, tills)
    ensures NotEarly(Run(s, steps), tills)
    decreases |steps|
  {
    if steps != [] {
      assert steps[0] in steps;
      RecordedStep(s, steps[0]);
      NotEarlyStep(s, steps[0], tills);
      assert forall step :: step in steps[1..] ==> step in steps;
      TimersNotEarly(Apply(s, steps[0]), steps[1..], tills);
    }
  }

  lemma NotEarlyStep(s: State, step: Step, tills: ExecutionId -> int)
    requires Recorded(s) && NotEarly(s, tills) && Enabled(s, step)
    requires step.Poll? ==> forall e :: e in step.listed ==> e.waitTill == tills(e.execution)
    ensures NotEarly(Apply(s, step), tills)
  {
    if step.Poll? {
      TrackAllPolled(s, step.listed, step.now);
      var s' := Apply(s, step);
      forall t | t in s'.armed ensures tills(s'.armed[t].execution) <= s'.armed[t].due {
        if s.next <= t {
          assert NewTimer(s, step.listed, step.now, s', t);
        }
      }
    }
  }

  /** Every timer armed for the execution is due at or after the given instant. */
  ghost predicate OnTime(s: State, id: ExecutionId, till: int) {
    forall t :: t in s.armed && s.armed[t].execution == id ==> till <= s.armed[t].due
  }

  /** Every poll of the run that lists the execution lists it with the given instant. */
  ghost predicate ListsAs(steps: seq<Step>, id: ExecutionId, till: int) {
    forall step, e :: step in steps && step.Poll? && e in step.listed && e.execution == id ==> e.waitTill == till
  }

  /** Some timer starts the execution although it is due before the given instant. */
  ghost predicate FiresEarly(s: State, steps: seq<Step>, id: ExecutionId, till: int)
    requires Legal(s, steps)
    decreases |steps|
  {
    steps != [] &&
    ((steps[0].Fire? && s.armed[steps[0].timer].execution == id && s.armed[steps[0].timer].due < till)
     || FiresEarly(Apply(s, steps[0]), steps[1..], id, till))
  }

  ghost predicate NeverEarly(s: State, id: ExecutionId, till: int) {
    forall steps :: Legal(s, steps) && ListsAs(steps, id, till) ==> !FiresEarly(s, steps, id, till)
  }

  lemma OnTimeStep(s: State, step: Step, id: ExecutionId, till: int)
    requires Recorded(s) && Enabled(s, step) && OnTime(s, id, till) && ListsAs([step], id, till)
    ensures OnTime(Apply(s, step), id, till)
  {
    if step.Poll? {
      TrackAllPolled(s, step.listed, step.now);
      var s' := Apply(s, step);
      assert step in [step];
      forall t | t in s'.armed && s'.armed[t].execution == id ensures till <= s'.armed[t].due {
        if s.next <= t {
          assert NewTimer(s, step.listed, step.now, s', t);
        }
      }
    }
  }

  lemma {:induction false} OnTimeNeverEarly(s: State, steps: seq<Step>, id: ExecutionId, till: int)
    requires Recorded(s) && OnTime(s, id, till) && Legal(s, steps) && ListsAs(steps, id, till)
    ensures !FiresEarly(s, steps, id, till) && OnTime(Run(s, steps), id, till)
    decreases |steps|
  {
    if steps != [] {
      assert steps[0] in steps && forall step :: step in steps[1..] ==> step in steps;
      RecordedStep(s, steps[0]);
      OnTimeStep(s, steps[0], id, till);
      OnTimeNeverEarly(Apply(s, steps[0]), steps[1..], id, till);
    }
  }

  /**
    The exact condition for one execution, whatever happens to the others: in no run does a timer start it
    before the instant it now waits for, if and only if no timer left from before is due earlier.
   */
  lemma NeverEarlyExactly(s: State, id: ExecutionId, till: int)
    requires Recorded(s)
    ensures NeverEarly(s, id, till) <==> OnTime(s, id, till)
  {
    if OnTime(s, id, till) {
      forall steps | Legal(s, steps) && ListsAs(steps, id, till) ensures !FiresEarly(s, steps, id, till) {
        OnTimeNeverEarly(s, steps, id, till);
      }
    } else {
      var t :| t in s.armed && s.armed[t].execution == id && s.armed[t].due < till;
      var steps := [Fire(t)];
      assert Legal(Apply(s, steps[0]), steps[1..]);
      assert Legal(s, steps) && ListsAs(steps, id, till) && FiresEarly(s, steps, id, till);
    }
  }

  /**
    An execution that was resumed by other means and waits again, until a later instant, keeps its first
    timer, because it still has its entry: that timer ends the second wait early.
   */
  lemma EarlyTimer(id: ExecutionId, first: int, second: int)
    requires 0 <= first < second
    ensures var s := Apply(Apply(Initial, Poll([Listed(id, first)], 0)), Poll([Listed(id, second)], 0));
      s.armed == map[0 := Timer(id, first)] && Live(s, id) && first < second
  {
    var s1 := Apply(Initial, Poll([Listed(id, first)], 0));
    assert s1 == Track(TrackAll(Initial, [], 0), Listed(id, first), 0);
    var s2 := Apply(s1, Poll([Listed(id, second)], 0));
    assert s2 == Track(TrackAll(s1, [], 0), Listed(id, second), 0);
  }

  // ---------------------------------------------------------------------
  // The object
  // ---------------------------------------------------------------------

  class WaitTracker {
    var polling: bool
    var waiting: map<ExecutionId, TimerId>
    var armed: map<TimerId, Timer>
    var next: TimerId

    ghost function View(): State
      reads this
    {
      State(polling, waiting, armed, next)
    }

    ghost predicate Valid()
      reads this
    {
      Recorded(View())
    }

    constructor ()
      ensures Valid() && View() == Initial
    {
      polling, waiting, armed, next := false, map[], map[], 0;
    }

    /** `startTracking`, but for the poll it begins. */
    method StartTracking()
      requires Valid()
      modifies this
      ensures Valid() && View() == Apply(old(View()), TakeOver)
    {
      polling := true;
    }

    /** `getWaitingExecutions`, once its query has answered. */
    method GetWaitingExecutions(listed: seq<Listed>, now: int)
      requires Valid()
      modifies this
      ensures Valid() && View() == Apply(old(View()), Poll(listed, now))
    {
      ghost var before := View();
      for i := 0 to |listed|
        invariant View() == TrackAll(before, listed[..i], now)
      {
        assert listed[..i + 1][..i] == listed[..i];
        var e := listed[i];
        if e.execution !in waiting {
          var triggerTime := e.waitTill - now;
          armed := armed[next := Timer(e.execution, now + Max(triggerTime, 0))];
          waiting := waiting[e.execution := next];
          next := next + 1;
        }
      }
      assert listed[..|listed|] == listed;
      TrackAllPolled(before, listed, now);
    }

    /** `stopExecution`. */
    method StopWaiting(id: ExecutionId)
      requires Valid()
      modifies this
      ensures Valid() && View() == Apply(old(View()), StopExecution(id))
      ensures id !in waiting && (id in old(waiting) ==> old(waiting)[id] !in armed)
      ensures forall other :: other != id && Live(old(View()), other) ==> Live(View(), other)
    {
      RecordedStep(View(), StopExecution(id));
      if id !in waiting {
        return;
      }
      armed := armed - {waiting[id]};
      waiting := waiting - {id};
    }

    /** `startExecution` up to its first await, called when a child has finished. */
    method Start(id: ExecutionId)
      requires Valid()
      modifies this`waiting
      ensures Valid() && View() == Apply(old(View()), StartExecution(id))
      ensures id !in waiting && armed == old(armed)
    {
      waiting := waiting - {id};
    }

    /** A timer fires and starts its execution. */
    method FireTimer(t: TimerId) returns (id: ExecutionId)
      requires Valid() && t in armed
      modifies this
      ensures Valid() && View() == Apply(old(View()), Fire(t)) && id == old(armed)[t].execution
    {
      id := armed[t].execution;
      armed := armed - {t};
      Start(id);
    }

    /** `stopTracking`, over the entries in any order: every timer on record is disarmed, every entry stays. */
    method StopTracking(ids: seq<ExecutionId>)
      requires Valid() && forall id :: id in ids <==> id in waiting
      modifies this`armed
      ensures Valid() && View() == Apply(old(View()), StepDown)
      ensures polling ==> forall id :: id in waiting ==> Stale(View(), id)
    {
      if !polling {
        return;
      }
      for i := 0 to |ids|
        invariant forall t :: t in armed <==> t in old(armed) && forall k :: 0 <= k < i ==> waiting[ids[k]] != t
        invariant forall t :: t in armed ==> armed[t] == old(armed)[t]
      {
        armed := armed - {waiting[ids[i]]};
      }
      forall t ensures t in armed <==> t in old(armed) && t !in waiting.Values {
        if t in waiting.Values {
          var id :| id in waiting && waiting[id] == t;
          var k :| 0 <= k < |ids| && ids[k] == id;
        }
      }
      assert armed == old(armed) - waiting.Values;
    }

    /** `withRetry`, given how each attempt ends: well, or with an error that is or is not worth retrying. */
    static method WithRetry(outcome: nat -> Option<bool>, maxAttempts: int)
      returns (succeeded: bool, attempts: nat, slept: nat)
      ensures 1 <= attempts <= Max(1, maxAttempts)
      ensures forall n :: 1 <= n < attempts ==> outcome(n) == Some(true)
      ensures succeeded <==> outcome(attempts).None?
      ensures !succeeded ==> attempts >= maxAttempts || outcome(attempts) == Some(false)
      ensures slept == 100 * (Pow2(attempts - 1) - 1)
    {
      attempts, slept := 1, 0;
      while true
        invariant 1 <= attempts <= Max(1, maxAttempts)
        invariant forall n :: 1 <= n < attempts ==> outcome(n) == Some(true)
        invariant slept == 100 * (Pow2(attempts - 1) - 1)
        decreases maxAttempts - attempts
      {
        var error := outcome(attempts);
        if error.None? {
          return true, attempts, slept;
        }
        if attempts >= maxAttempts || !error.value {
          return false, attempts, slept;
        }
        slept := slept + 100 * Pow2(attempts - 1);
        attempts := attempts + 1;
      }
    }
  }
}
