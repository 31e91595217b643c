/**
  The retry queue of workflow activations: one entry and one timer per workflow, with a delay that
  doubles on every failure up to a day.
 */
module ActivationQueue {
  import opened Basics

  type WorkflowId = nat
  type TimerId = nat

  const WORKFLOW_REACTIVATE_INITIAL_TIMEOUT := 1000
  const WORKFLOW_REACTIVATE_MAX_TIMEOUT := 24 * 60 * 60 * 1000

  /** How a retry failed: an isolate error says nothing about the workflow and does not slow it down. */
  datatype Failure = Isolate | Other

  /** The delay after one more failure. */
  function NextDelay(last: int, failure: Failure): int {
    if failure != Isolate && last < WORKFLOW_REACTIVATE_MAX_TIMEOUT
    then Min(last * 2, WORKFLOW_REACTIVATE_MAX_TIMEOUT)
    else last
  }

  function DelayAfter(failures: seq<Failure>): int {
    if failures == [] then WORKFLOW_REACTIVATE_INITIAL_TIMEOUT
    else NextDelay(DelayAfter(failures[..|failures| - 1]), failures[|failures| - 1])
  }

  function Slowing(failures: seq<Failure>): nat {
    if failures == [] then 0
    else Slowing(failures[..|failures| - 1]) + (if failures[|failures| - 1] == Isolate then 0 else 1)
  }

  /** The delay depends on the number of failures that count, and on nothing else. */
  lemma {:induction false} BackoffClosedForm(failures: seq<Failure>)
    ensures DelayAfter(failures) == Backoff(failures)
    decreases |failures|
  {
    if failures != [] {
      BackoffClosedForm(failures[..|failures| - 1]);
    }
  }

  /** The delay that belongs to a history of failures. */
  function Backoff(failures: seq<Failure>): int {
    Min(WORKFLOW_REACTIVATE_INITIAL_TIMEOUT * Pow2(Slowing(failures)), WORKFLOW_REACTIVATE_MAX_TIMEOUT)
  }

  /** The first retry comes after a second; an isolate error leaves the delay, any other doubles it, up to a day. */
  lemma BackoffInMilliseconds(failures: seq<Failure>)
    ensures Backoff([]) == 1000
    ensures Backoff(failures) <= 86_400_000
    ensures Backoff(failures + [Isolate]) == Backoff(failures)
    ensures Backoff(failures + [Other]) == if Backoff(failures) <= 43_200_000 then 2 * Backoff(failures) else 86_400_000
  {
    OneMoreFailure(failures, Isolate);
    OneMoreFailure(failures, Other);
    BackoffClosedForm(failures);
  }

  lemma OneMoreFailure(failures: seq<Failure>, failure: Failure)
    ensures NextDelay(Backoff(failures), failure) == Backoff(failures + [failure])
  {
    assert (failures + [failure])[..|failures|] == failures;
    BackoffClosedForm(failures);
    BackoffClosedForm(failures + [failure]);
  }

  datatype Queued = Queued(lastTimeout: int, timer: TimerId)
  datatype Timer = Timer(workflow: WorkflowId, delay: int)

  type Queue = map<WorkflowId, Queued>
  type Timers = map<TimerId, Timer>

  /** Every timer that will fire is the one recorded for its workflow, with the recorded delay. */
  ghost predicate OneTimerEach(queued: Queue, armed: Timers) {
    forall t :: t in armed ==>
      armed[t].workflow in queued && queued[armed[t].workflow] == Queued(armed[t].delay, t)
  }

  /** Timer ids are handed out once, and a recorded timer belongs to the workflow that records it. */
  ghost predicate Recorded(queued: Queue, armed: Timers, next: TimerId) {
    && (forall t :: t in armed ==> t < next)
    && (forall w :: w in queued ==> queued[w].timer < next)
    && (forall w :: w in queued && queued[w].timer in armed ==> armed[queued[w].timer].workflow == w)
  }

  /**
    Arming a new timer for a queued workflow leaves it with a single timer if and only if its recorded
    timer is no longer armed. A retry that overlaps a re-queueing of its workflow is the case where it is.
   */
  lemma RearmKeepsOneTimerExactly(queued: Queue, armed: Timers, next: TimerId, w: WorkflowId, delay: int)
    requires Recorded(queued, armed, next) && OneTimerEach(queued, armed) && w in queued
    ensures OneTimerEach(queued[w := Queued(delay, next)], armed[next := Timer(w, delay)])
       <==> queued[w].timer !in armed
  {
    var armed' := armed[next := Timer(w, delay)];
    if queued[w].timer in armed {
      assert queued[w].timer in armed' && armed'[queued[w].timer].workflow == w;
    }
  }

  lemma RearmRecorded(queued: Queue, armed: Timers, next: TimerId, w: WorkflowId, delay: int)
    requires Recorded(queued, armed, next)
    ensures Recorded(queued[w := Queued(delay, next)], armed[next := Timer(w, delay)], next + 1)
    ensures w !in queued && OneTimerEach(queued, armed)
      ==> OneTimerEach(queued[w := Queued(delay, next)], armed[next := Timer(w, delay)])
  {
  }

  lemma DisarmRecorded(queued: Queue, armed: Timers, next: TimerId, w: WorkflowId)
    requires Recorded(queued, armed, next) && w in queued
    ensures Recorded(queued - {w}, armed - {queued[w].timer}, next)
    ensures OneTimerEach(queued, armed) ==>
      && OneTimerEach(queued - {w}, armed - {queued[w].timer})
      && forall t :: t in armed - {queued[w].timer} ==> armed[t].workflow != w
  {
  }

  class Activations {
    var queued: map<WorkflowId, Queued>
    /** Timers that will still fire. */
    var armed: map<TimerId, Timer>
    var nextTimer: TimerId
    /** The failures of each queued workflow since it was queued. */
    ghost var failures: map<WorkflowId, seq<Failure>>

    ghost predicate Valid()
      reads this
    {
      && Recorded(queued, armed, nextTimer)
      && (forall w :: w in queued <==> w in failures)
      && (forall w :: w in queued ==> queued[w].lastTimeout == Backoff(failures[w]))
    }

    constructor ()
      ensures Valid() && OneTimerEach(queued, armed) && queued == map[] && armed == map[]
    {
      queued, armed, nextTimer, failures := map[], map[], 0, map[];
    }

    /** `setTimeout` with the delay that fits the workflow's failures, recorded in its entry. */
    method Rearm(w: WorkflowId, delay: int, ghost history: seq<Failure>)
      requires Valid() && delay == Backoff(history)
      modifies this
      ensures Valid() && failures == old(failures)[w := history]
      ensures queued == old(queued)[w := Queued(delay, old(nextTimer))]
      ensures armed == old(armed)[old(nextTimer) := Timer(w, delay)]
    {
      RearmRecorded(queued, armed, nextTimer, w, delay);
      armed := armed[nextTimer := Timer(w, delay)];
      queued := queued[w := Queued(delay, nextTimer)];
      nextTimer := nextTimer + 1;
      failures := failures[w := history];
    }

    /** `removeQueuedWorkflowActivation`. */
    method RemoveQueued(w: WorkflowId)
      requires Valid()
      modifies this
      ensures Valid() && (old(OneTimerEach(queued, armed)) ==> OneTimerEach(queued, armed))
      ensures queued == old(queued) - {w} && failures == old(failures) - {w} && nextTimer == old(nextTimer)
      ensures armed == if w in old(queued) then old(armed) - {old(queued)[w].timer} else old(armed)
      ensures old(OneTimerEach(queued, armed)) ==> forall t :: t in armed ==> armed[t].workflow != w
    {
      if w in queued {
        DisarmRecorded(queued, armed, nextTimer, w);
        armed := armed - {queued[w].timer};
        queued := queued - {w};
      }
      failures := failures - {w};
    }

    /** `addQueuedWorkflowActivation`. */
    method AddQueued(w: WorkflowId)
      requires Valid()
      modifies this
      ensures Valid() && (old(OneTimerEach(queued, armed)) ==> OneTimerEach(queued, armed))
      ensures w in queued && queued[w].timer in armed && failures == old(failures)[w := []]
      ensures queued[w] == Queued(1000, old(nextTimer))
      ensures armed == (if w in old(queued) then old(armed) - {old(queued)[w].timer} else old(armed))[old(nextTimer) := Timer(w, 1000)]
      ensures forall other :: other != w ==> (other in queued <==> other in old(queued))
      ensures forall other :: other != w && other in queued ==> queued[other] == old(queued)[other]
    {
      RemoveQueued(w);
      RearmRecorded(queued, armed, nextTimer, w, WORKFLOW_REACTIVATE_INITIAL_TIMEOUT);
      Rearm(w, WORKFLOW_REACTIVATE_INITIAL_TIMEOUT, []);
    }

    /** A timer fires: it is spent, and the retry of its workflow begins. */
    method Fire(t: TimerId) returns (w: WorkflowId)
      requires Valid() && t in armed
      modifies this`armed
      ensures Valid() && (old(OneTimerEach(queued, armed)) ==> OneTimerEach(queued, armed))
      ensures w == old(armed)[t].workflow && armed == old(armed) - {t}
    {
      w := armed[t].workflow;
      armed := armed - {t};
    }

    /**
      A retry failed. If the entry was removed meanwhile the error handler itself throws. Otherwise the
      next delay follows the closed form, and the workflow keeps a single timer if and only if no timer
      of its entry was armed while the retry was under way.
     */
    method RetryFailed(w: WorkflowId, failure: Failure) returns (handled: bool)
      requires Valid()
      modifies this
      ensures Valid() && handled == (w in old(queued))
      ensures !handled ==> queued == old(queued) && armed == old(armed)
      ensures handled ==>
        && failures == old(failures)[w := old(failures)[w] + [failure]]
        && queued == old(queued)[w := Queued(Backoff(failures[w]), old(nextTimer))]
        && armed == old(armed)[old(nextTimer) := Timer(w, Backoff(failures[w]))]
        && (old(OneTimerEach(queued, armed)) ==> (OneTimerEach(queued, armed) <==> old(queued)[w].timer !in old(armed)))
    {
      handled := w in queued;
      if handled {
        var lastTimeout := queued[w].lastTimeout;
        if failure != Isolate && lastTimeout < WORKFLOW_REACTIVATE_MAX_TIMEOUT {
          lastTimeout := Min(lastTimeout * 2, WORKFLOW_REACTIVATE_MAX_TIMEOUT);
        }
        OneMoreFailure(failures[w], failure);
        if OneTimerEach(queued, armed) {
          RearmKeepsOneTimerExactly(queued, armed, nextTimer, w, lastTimeout);
        }
        Rearm(w, lastTimeout, failures[w] + [failure]);
      }
    }

    /** A retry succeeded: `add` has taken the workflow out of the queue. */
    method RetrySucceeded(w: WorkflowId)
      requires Valid()
      modifies this
      ensures Valid() && (old(OneTimerEach(queued, armed)) ==> OneTimerEach(queued, armed))
      ensures queued == old(queued) - {w}
      ensures armed == if w in old(queued) then old(armed) - {old(queued)[w].timer} else old(armed)
      ensures old(OneTimerEach(queued, armed)) ==> forall t :: t in armed ==> armed[t].workflow != w
    {
      RemoveQueued(w);
    }

    /** `removeAllQueuedWorkflowActivations`, over the keys in any order: no timer is left behind. */
    method RemoveAll(ids: seq<WorkflowId>)
      requires Valid() && OneTimerEach(queued, armed) && forall w :: w in ids <==> w in queued
      modifies this
      ensures Valid() && queued == map[] && armed == map[]
    {
      for i := 0 to |ids|
        invariant Valid() && OneTimerEach(queued, armed)
        invariant forall w :: w in queued ==> w in ids[i..]
      {
        RemoveQueued(ids[i]);
      }
      assert forall w :: w !in queued;
    }
  }

  /**
    The overlap does happen: a workflow is queued again while its retry is under way, the retry then fails,
    and two timers of the workflow are armed.
   */
  method OverlappingRetry(w: WorkflowId, failure: Failure) returns (a: Activations, first: TimerId, second: TimerId)
    ensures fresh(a) && a.Valid() && !OneTimerEach(a.queued, a.armed)
    ensures first != second && first in a.armed && second in a.armed
    ensures a.armed[first].workflow == w == a.armed[second].workflow
  {
    a := new Activations();
    a.AddQueued(w);
    var fired := a.queued[w].timer;
    var _ := a.Fire(fired);
    a.AddQueued(w);
    first := a.queued[w].timer;
    var _ := a.RetryFailed(w, failure);
    second := a.queued[w].timer;
  }
}
