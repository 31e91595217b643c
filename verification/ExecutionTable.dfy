/**
  `ActiveExecutions` as the object it is: its fields, updated in place by the stretches of its methods
  that run between awaits. Each method is proved to take exactly the step of the same name, so every
  property of the steps holds of any sequence of calls.
 */
module ExecutionTable {
  import opened Basics
  import opened ActiveExecutions

  // ---------------------------------------------------------------------
  // Shutdown, over the steps
  // ---------------------------------------------------------------------

  /** The entry for `id`, if there is one, is settled and will be removed by its own cleanup. */
  ghost predicate Leaving(s: State, id: ExecutionId) {
    id in s.table ==> Has(s, id) && Get(s, id).outcome.Some? && Get(s, id).status != Waiting && !Get(s, id).cleaned
  }

  /** An ended entry whose cleanup is over: it was cleaned up while waiting and got another status since. */
  ghost predicate Stuck(s: State, id: ExecutionId) {
    Has(s, id) && Get(s, id).cleaned && Get(s, id).status != Waiting
  }

  /** An entry gets stuck exactly when a status other than `waiting` is set on it after it was cleaned up. */
  lemma StuckExactly(s: State, step: Step, id: ExecutionId)
    requires Inv(s) && Enabled(s, step) && !Stuck(s, id)
    ensures Stuck(Apply(s, step), id) <==>
      step.SetStatus? && step.id == id && step.status != Waiting && Get(s, id).cleaned
  {
    TableStep(s, step);
    if id in s.table {
      RecordStep(s, step, s.table[id]);
    }
  }

  /** Stopping an execution concerns no other entry, and makes its own leave unless it is stuck. */
  lemma StopMakesLeave(s: State, id: ExecutionId, reason: int, other: ExecutionId)
    requires Inv(s) && Enabled(s, Stop(id, reason))
    ensures var s' := Apply(s, Stop(id, reason));
      && (Leaving(s', id) <==> !Stuck(s, id))
      && (Stuck(s', other) <==> Stuck(s, other))
      && (other != id ==> (Leaving(s', other) <==> Leaving(s, other)))
      && (other in s'.table ==> other in s.table && s'.table[other] == s.table[other])
  {
  }

  /** The first pass of `shutdown` in regular mode with `cancelAll`. */
  ghost function StopAll(s: State, ids: seq<ExecutionId>, reason: int): State {
    if ids == [] then s
    else
      var before, id := StopAll(s, ids[..|ids| - 1], reason), ids[|ids| - 1];
      if Enabled(before, Stop(id, reason)) then Apply(before, Stop(id, reason)) else before
  }

  lemma OneMoreStop(s: State, ids: seq<ExecutionId>, i: nat, reason: int)
    requires i < |ids| && QueueOk(StopAll(s, ids[..i], reason))
    ensures var before := StopAll(s, ids[..i], reason);
      StopAll(s, ids[..i + 1], reason) == if Has(before, ids[i]) then Apply(before, Stop(ids[i], reason)) else before
  {
    assert ids[..i + 1][..i] == ids[..i];
  }

  /** After the pass every execution it visited has left or is leaving, but for stuck ones; no entry is new. */
  lemma {:induction false} StopAllMakesLeave(s: State, ids: seq<ExecutionId>, reason: int, id: ExecutionId)
    requires Inv(s)
    ensures var s' := StopAll(s, ids, reason);
      && Inv(s')
      && (Stuck(s', id) <==> Stuck(s, id))
      && (id in ids ==> (Leaving(s', id) <==> !Stuck(s, id)))
      && (id in s'.table ==> id in s.table && s'.table[id] == s.table[id])
    decreases |ids|
  {
    if ids != [] {
      var front, last := ids[..|ids| - 1], ids[|ids| - 1];
      StopAllMakesLeave(s, front, reason, id);
      var before := StopAll(s, front, reason);
      assert id in ids <==> id in front || id == last;
      if Enabled(before, Stop(last, reason)) {
        InvStep(before, Stop(last, reason));
        StopMakesLeave(before, last, reason, id);
      }
    }
  }

  ghost predicate AllLeaving(s: State) {
    forall id :: id in s.table ==> Leaving(s, id)
  }

  /** The records whose cleanup is still to run. */
  ghost function Due(s: State): set<Token> {
    set k | k in s.calls && CleanupPending(s, k)
  }

  /** An add in flight that reaches the table, or an entry that turns to waiting. */
  predicate Revives(step: Step) {
    step.Register? || (step.SetStatus? && step.status == Waiting)
  }

  ghost function CleanedIn(steps: seq<Step>): set<Token> {
    set step | step in steps && step.Cleanup? :: step.token
  }

  lemma LeavingStep(s: State, step: Step, id: ExecutionId)
    requires Inv(s) && AllLeaving(s) && Enabled(s, step) && !Revives(step)
    ensures Leaving(Apply(s, step), id)
    ensures id in Apply(s, step).table ==> id in s.table && Apply(s, step).table[id] == s.table[id]
  {
    TableStep(s, step);
    if id in s.table {
      assert Leaving(s, id);
      RecordStep(s, step, s.table[id]);
    }
  }

  lemma DueStep(s: State, step: Step, k: Token)
    requires Inv(s) && AllLeaving(s) && Enabled(s, step) && !Revives(step)
    ensures CleanupPending(Apply(s, step), k) <==> CleanupPending(s, k) && step != Cleanup(k)
  {
    if IsRegistered(s, k) {
      RecordStep(s, step, k);
      assert Concerns(s, step, k) && !step.Cleanup? ==> Leaving(s, step.id);
    } else if IsRegistered(Apply(s, step), k) {
      NewRecord(s, step, k);
    }
  }

  /**
    While the server shuts down, every other part of it goes on. Exactly two kinds of step stop the entries
    from leaving: an add in flight that registers, and an entry that turns to waiting. Any other step brings
    no entry back and changes the due cleanups only by running one.
   */
  lemma DrainStep(s: State, step: Step)
    requires Inv(s) && AllLeaving(s) && Enabled(s, step)
    ensures AllLeaving(Apply(s, step)) <==> !Revives(step)
    ensures !Revives(step) ==> Due(Apply(s, step)) == Due(s) - CleanedIn([step])
    ensures !Revives(step) ==> Apply(s, step).table.Keys <= s.table.Keys
  {
    var s' := Apply(s, step);
    if Revives(step) {
      TableStep(s, step);
      var id := if step.Register? then s.calls[step.token].id else step.id;
      assert id in s'.table && !Leaving(s', id);
    } else {
      forall id ensures Leaving(s', id) && (id in s'.table ==> id in s.table) {
        LeavingStep(s, step, id);
      }
      forall k ensures k in Due(s') <==> k in Due(s) && k !in CleanedIn([step]) {
        DueStep(s, step, k);
        assert step in [step];
      }
    }
  }

  /**
    Whatever else happens while `shutdown` waits, as long as no add in flight registers and no entry turns to
    waiting: the due cleanups are those that have not run yet, and the table is empty once all have.
   */
  lemma {:induction false} DrainRun(s: State, steps: seq<Step>)
    requires Inv(s) && AllLeaving(s) && Legal(s, steps) && forall step :: step in steps ==> !Revives(step)
    ensures AllLeaving(Run(s, steps)) && Due(Run(s, steps)) == Due(s) - CleanedIn(steps)
    ensures Due(s) <= CleanedIn(steps) ==> Run(s, steps).table == map[]
    decreases |steps|
  {
    if steps == [] {
      AllDone(s);
    } else {
      assert steps[0] in steps && forall step :: step in steps <==> step == steps[0] || step in steps[1..];
      InvStep(s, steps[0]);
      DrainStep(s, steps[0]);
      DrainRun(Apply(s, steps[0]), steps[1..]);
      assert CleanedIn(steps) == CleanedIn([steps[0]]) + CleanedIn(steps[1..]);
    }
  }

  /** As long as an entry is left, its cleanup is due. */
  lemma AllDone(s: State)
    requires Inv(s) && AllLeaving(s)
    ensures forall id :: id in s.table ==> s.table[id] in Due(s)
    ensures Due(s) == {} ==> s.table == map[]
  {
    forall id | id in s.table ensures s.table[id] in Due(s) {
      assert Leaving(s, id);
    }
  }

  class Executions {
    const limit: nat
    var enabled: bool
    var capacity: int
    var queue: seq<Token>
    var calls: map<Token, Call>
    var table: map<ExecutionId, Token>
    var responseModes: map<ExecutionId, int>

    ghost function View(): State
      reads this
    {
      State(limit, enabled, capacity, queue, calls, table, responseModes)
    }

    ghost predicate Valid()
      reads this
    {
      Inv(View())
    }

    constructor (limit: nat)
      ensures Valid() && View() == Initial(limit)
    {
      this.limit, enabled, capacity, queue := limit, true, limit, [];
      calls, table, responseModes := map[], map[], map[];
      new;
      assert Holders(calls) == {};
    }

    /** `has`. */
    predicate HasExecution(id: ExecutionId)
      reads this
    {
      id in table && table[id] in calls && calls[table[id]].phase.Registered?
    }

    method SetRecord(k: Token, record: Record)
      requires k in calls
      modifies this`calls
      ensures View() == Put(old(View()), k, record)
    {
      calls := calls[k := calls[k].(phase := Registered(record))];
    }

    /** `ConcurrencyQueue.resolveNext`. */
    method AdmitNext()
      requires QueueOk(View())
      modifies this`queue, this`calls
      ensures View() == ResolveNext(old(View()))
    {
      if |queue| > 0 {
        var next := queue[0];
        assert next in queue;
        queue := queue[1..];
        calls := calls[next := calls[next].(phase := Admitted)];
      }
    }

    /** `ConcurrencyCapacityReservation.release`. */
    method Release(mode: Mode)
      requires QueueOk(View())
      modifies this`capacity, this`queue, this`calls
      ensures View() == ReleaseSlot(old(View()), mode)
    {
      if enabled && mode == Limited {
        capacity := capacity + 1;
        AdmitNext();
      }
    }

    /** `add` up to and including `reserve`; the result says whether the call may go on at once. */
    method ReserveCapacity(token: Token, id: ExecutionId, mode: Mode) returns (admitted: bool)
      requires Valid() && token !in calls
      modifies this
      ensures View() == Apply(old(View()), Reserve(token, id, mode)) && Valid()
      ensures admitted <==> calls[token].phase == Admitted
    {
      InvStep(View(), Reserve(token, id, mode));
      admitted := true;
      if enabled && mode == Limited {
        capacity := capacity - 1;
        if capacity < 0 {
          queue := queue + [token];
          admitted := false;
        }
      }
      calls := calls[token := Call(id, mode, if admitted then Admitted else Queued)];
    }

    /** The failure path of `add`, among it a lost compare-and-set. */
    method AbandonAdd(token: Token)
      requires Valid() && Enabled(View(), FailAdd(token))
      modifies this
      ensures View() == Apply(old(View()), FailAdd(token)) && Valid()
    {
      ghost var before := View();
      InvStep(before, FailAdd(token));
      var mode := calls[token].mode;
      UpdateConserves(before, token, calls[token].(phase := Released));
      calls := calls[token := calls[token].(phase := Released)];
      Release(mode);
    }

    /** The rest of `add`, once its database write has succeeded. */
    method EnterIntoTable(token: Token, now: int)
      requires Valid() && Enabled(View(), Register(token, now))
      modifies this
      ensures View() == Apply(old(View()), Register(token, now)) && Valid()
    {
      InvStep(View(), Register(token, now));
      var id := calls[token].id;
      var startedAt, promise := now, None;
      if id in table {
        startedAt := calls[table[id]].phase.record.startedAt;
        promise := calls[table[id]].phase.record.responsePromise;
      }
      SetRecord(token, Record(Running, None, startedAt, promise, false));
      table := table[id := token];
    }

    /** `finalizeExecution`; unknown executions are ignored. */
    method FinalizeExecution(id: ExecutionId, data: int)
      requires Valid()
      modifies this
      ensures Valid()
      ensures View() == if Has(old(View()), id) then Apply(old(View()), Finalize(id, data)) else old(View())
    {
      if HasExecution(id) {
        InvStep(View(), Finalize(id, data));
        var record := calls[table[id]].phase.record;
        SetRecord(table[id], if record.outcome.None? then record.(outcome := Some(Resolved(data))) else record);
      }
    }

    /** `stopExecution`; unknown executions are ignored. */
    method StopExecution(id: ExecutionId, reason: int)
      requires Valid()
      modifies this
      ensures Valid()
      ensures View() == if Has(old(View()), id) then Apply(old(View()), Stop(id, reason)) else old(View())
    {
      if !HasExecution(id) {
        return;
      }
      InvStep(View(), Stop(id, reason));
      var record := calls[table[id]].phase.record;
      if record.status == Waiting {
        table := table - {id};
        responseModes := responseModes - {id};
      } else {
        SetRecord(table[id], if record.outcome.None? then record.(outcome := Some(Rejected(reason))) else record);
      }
    }

    /** The record is marked as cleaned up and its reservation released. */
    method CleanRecord(k: Token)
      requires SlotsConserved(View()) && Enabled(View(), Cleanup(k))
      modifies this`capacity, this`queue, this`calls
      ensures QueueOk(Put(old(View()), k, old(View()).calls[k].phase.record.(cleaned := true)))
      ensures View() == ReleaseSlot(Put(old(View()), k, old(View()).calls[k].phase.record.(cleaned := true)), old(View()).calls[k].mode)
    {
      var call := calls[k];
      var cleaned := call.phase.record.(cleaned := true);
      UpdateConserves(View(), k, call.(phase := Registered(cleaned)));
      SetRecord(k, cleaned);
      Release(call.mode);
    }

    /** The continuation of the post-execution promise. */
    method RunCleanup(k: Token)
      requires Valid() && Enabled(View(), Cleanup(k))
      modifies this
      ensures View() == Apply(old(View()), Cleanup(k)) && Valid()
    {
      InvStep(View(), Cleanup(k));
      var call := calls[k];
      CleanRecord(k);
      if call.phase.record.status != Waiting {
        table := table - {call.id};
        responseModes := responseModes - {call.id};
      }
    }

    /** `setStatus`, among others by `putExecutionToWait` while the run goes on; an unknown execution is an error. */
    method SetExecutionStatus(id: ExecutionId, status: Status) returns (found: bool)
      requires Valid()
      modifies this
      ensures Valid() && found == Has(old(View()), id)
      ensures View() == if found then Apply(old(View()), SetStatus(id, status)) else old(View())
    {
      found := HasExecution(id);
      if found {
        InvStep(View(), SetStatus(id, status));
        SetRecord(table[id], calls[table[id]].phase.record.(status := status));
      }
    }

    /** `attachResponsePromise`; an unknown execution is an error. */
    method AttachResponsePromise(id: ExecutionId, promise: int) returns (found: bool)
      requires Valid()
      modifies this
      ensures Valid() && found == Has(old(View()), id)
      ensures View() == if found then Apply(old(View()), AttachResponse(id, promise)) else old(View())
    {
      found := HasExecution(id);
      if found {
        InvStep(View(), AttachResponse(id, promise));
        SetRecord(table[id], calls[table[id]].phase.record.(responsePromise := Some(promise)));
      }
    }

    /** The search of `ConcurrencyQueue.remove`. */
    method FindThrottled(id: ExecutionId) returns (i: nat)
      requires QueueOk(View())
      ensures i == FirstFor(View(), id, 0)
    {
      i := 0;
      while i < |queue| && calls[queue[i]].id != id
        invariant 0 <= i <= |queue| && FirstFor(View(), id, 0) == FirstFor(View(), id, i)
      {
        i := i + 1;
      }
    }

    method DropThrottled(id: ExecutionId, i: nat)
      requires QueueOk(View()) && i == FirstFor(View(), id, 0) < |queue|
      modifies this`queue, this`capacity, this`calls
      ensures View() == TakeOut(old(View()), id)
    {
      var k := queue[i];
      queue := queue[..i] + queue[i + 1..];
      capacity := capacity + 1;
      calls := calls[k := calls[k].(phase := Dropped)];
    }

    /** `ConcurrencyQueue.remove`, which lets the next throttled call in. */
    method RemoveThrottled(id: ExecutionId)
      requires Valid()
      modifies this
      ensures Valid()
      ensures View() == if Enabled(old(View()), RemoveQueued(id)) then Apply(old(View()), RemoveQueued(id)) else old(View())
    {
      var i := FindThrottled(id);
      if enabled && i < |queue| {
        InvStep(View(), RemoveQueued(id));
        TakeOutConserves(View(), id);
        DropThrottled(id, i);
        AdmitNext();
      }
    }

    // -------------------------------------------------------------------
    // Shutdown
    // -------------------------------------------------------------------

    /** The first pass of `shutdown` in regular mode with `cancelAll`, over the keys in any order. */
    method CancelAll(ids: seq<ExecutionId>, reason: int)
      requires Valid() && forall id :: id in ids <==> id in table
      modifies this
      ensures Valid() && !enabled
      ensures AllLeaving(View()) <==> forall id :: id in old(table) ==> !Stuck(old(View()), id)
      ensures forall id :: id in table ==> id in old(table) && table[id] == old(table)[id]
    {
      ghost var start := View();
      InvStep(start, Disable);
      enabled := false;
      ghost var begun := View();
      for i := 0 to |ids|
        invariant Valid() && !enabled && View() == StopAll(begun, ids[..i], reason)
      {
        OneMoreStop(begun, ids, i, reason);
        StopExecution(ids[i], reason);
      }
      assert ids[..|ids|] == ids;
      AllStopped(start, begun, ids, reason);
    }

    /** One step of whatever else the server does, by the method that takes it. */
    method Perform(step: Step)
      requires Valid() && Enabled(View(), step)
      modifies this
      ensures Valid() && View() == Apply(old(View()), step)
    {
      match step
      case Reserve(k, id, mode) => var _ := ReserveCapacity(k, id, mode);
      case FailAdd(k) => AbandonAdd(k);
      case Register(k, now) => EnterIntoTable(k, now);
      case SetStatus(id, status) => var _ := SetExecutionStatus(id, status);
      case AttachResponse(id, promise) => var _ := AttachResponsePromise(id, promise);
      case SetResponseMode(id, mode) => InvStep(View(), step); responseModes := responseModes[id := mode];
      case Finalize(id, data) => FinalizeExecution(id, data);
      case Stop(id, reason) => StopExecution(id, reason);
      case Cleanup(k) => RunCleanup(k);
      case RemoveQueued(id) => RemoveThrottled(id);
      case Disable => InvStep(View(), step); enabled := false;
    }

    /**
      The waiting loop of `shutdown`. While it sleeps the server takes the given steps, in which every due
      cleanup runs at some point; the loop then ends with an empty table.
     */
    method Drain(meanwhile: seq<Step>)
      requires Valid() && AllLeaving(View()) && Legal(View(), meanwhile)
      requires forall step :: step in meanwhile ==> !Revives(step)
      requires Due(View()) <= CleanedIn(meanwhile)
      modifies this
      ensures Valid() && table == map[]
    {
      var i := 0;
      assert meanwhile[0..] == meanwhile;
      while |table| > 0
        invariant Valid() && AllLeaving(View()) && 0 <= i <= |meanwhile| && Legal(View(), meanwhile[i..])
        invariant Due(View()) <= CleanedIn(meanwhile[i..])
        decreases |meanwhile| - i
      {
        SomethingToDo(View(), meanwhile[i..]);
        DrainStep(View(), meanwhile[i]);
        OneTaken(meanwhile, i);
        Perform(meanwhile[i]);
        i := i + 1;
      }
    }
  }

  /** The pass visits every entry, so it leaves all of them leaving unless one was stuck before. */
  lemma AllStopped(start: State, begun: State, ids: seq<ExecutionId>, reason: int)
    requires Inv(start) && begun == start.(enabled := false) && Inv(begun) && forall id :: id in ids <==> id in start.table
    ensures var s' := StopAll(begun, ids, reason);
      && (AllLeaving(s') <==> forall id :: id in start.table ==> !Stuck(start, id))
      && (forall id :: id in s'.table ==> id in start.table && s'.table[id] == start.table[id])
  {
    var s' := StopAll(begun, ids, reason);
    forall id
      ensures id in start.table ==> (Leaving(s', id) <==> !Stuck(start, id))
      ensures id in s'.table ==> id in start.table && s'.table[id] == start.table[id]
      ensures Stuck(start, id) ==> id in s'.table && id in start.table
    {
      StopAllMakesLeave(begun, ids, reason, id);
    }
  }

  lemma SomethingToDo(s: State, steps: seq<Step>)
    requires Inv(s) && AllLeaving(s) && |s.table| > 0 && Due(s) <= CleanedIn(steps)
    ensures steps != []
  {
    AllDone(s);
    var id :| id in s.table;
    assert s.table[id] in CleanedIn(steps);
  }

  lemma OneTaken(steps: seq<Step>, i: nat)
    requires i < |steps|
    ensures steps[i] in steps && steps[i..][0] == steps[i] && steps[i..][1..] == steps[i + 1..]
    ensures CleanedIn(steps[i..]) == CleanedIn([steps[i]]) + CleanedIn(steps[i + 1..])
  {
    assert forall step :: step in steps[i..] <==> step == steps[i] || step in steps[i + 1..];
  }
}
