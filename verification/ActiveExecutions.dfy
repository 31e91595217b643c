/**
  The per-process table of active executions, its settle-once promises and its concurrency slots.
  `add`, `stopExecution`, `finalizeExecution` and the cleanup continuation run to completion between
  awaits, so one step here is one such stretch and a run is any order of steps. A token names one call
  of `add`: first its reservation, later the record that the call put into the table.
 */
module ActiveExecutions {
  import opened Basics

  type ExecutionId = nat
  type Token = nat

  /** Executions limited by the production queue, executions without a queue, and evaluation runs. */
  datatype Mode = Limited | Unlimited | Evaluation

  datatype Status = New | Running | Waiting | Success | Error | Canceled | Crashed

  /** How a post-execution promise settled: with run data, or with a cancellation. */
  datatype Outcome = Resolved(data: int) | Rejected(reason: int)

  /** An entry of the table together with the promise and reservation its closure holds on to. */
  datatype Record = Record(status: Status, outcome: Option<Outcome>, startedAt: int,
                           responsePromise: Option<int>, cleaned: bool)

  datatype Phase =
    | Queued                        // throttled: waiting for a slot
    | Admitted                      // past `reserve`, its database write still in flight
    | Registered(record: Record)    // entered into the table
    | Released                      // failed before it was entered
    | Dropped                       // taken out of the queue while throttled

  datatype Call = Call(id: ExecutionId, mode: Mode, phase: Phase)

  datatype State = State(limit: nat, enabled: bool, capacity: int, queue: seq<Token>, calls: map<Token, Call>,
                         table: map<ExecutionId, Token>, responseModes: map<ExecutionId, int>)

  datatype Step =
    | Reserve(token: Token, id: ExecutionId, mode: Mode)
    | FailAdd(token: Token)
    | Register(token: Token, now: int)
    | SetStatus(id: ExecutionId, status: Status)
    | AttachResponse(id: ExecutionId, promise: int)
    | SetResponseMode(id: ExecutionId, responseMode: int)
    | Finalize(id: ExecutionId, data: int)
    | Stop(id: ExecutionId, reason: int)
    | Cleanup(token: Token)
    | RemoveQueued(id: ExecutionId)
    | Disable

  function Initial(limit: nat): State {
    State(limit, true, limit, [], map[], map[], map[])
  }

  // ---------------------------------------------------------------------
  // The concurrency queue
  // ---------------------------------------------------------------------

  /** `ConcurrencyControlService.throttle`: only a limited execution takes from the queue's capacity. */
  function Throttle(s: State, token: Token, id: ExecutionId, mode: Mode): State {
    if s.enabled && mode == Limited then
      var throttled := s.capacity - 1 < 0;
      s.(capacity := s.capacity - 1,
         queue := if throttled then s.queue + [token] else s.queue,
         calls := s.calls[token := Call(id, mode, if throttled then Queued else Admitted)])
    else
      s.(calls := s.calls[token := Call(id, mode, Admitted)])
  }

  /** `ConcurrencyQueue.resolveNext`: the oldest throttled call goes on. */
  function ResolveNext(s: State): State
    requires forall k :: k in s.queue ==> k in s.calls
  {
    if s.queue == [] then s
    else s.(queue := s.queue[1..], calls := s.calls[s.queue[0] := s.calls[s.queue[0]].(phase := Admitted)])
  }

  /** `ConcurrencyQueue.dequeue`, reached from `ConcurrencyCapacityReservation.release`. */
  function ReleaseSlot(s: State, mode: Mode): State
    requires forall k :: k in s.queue ==> k in s.calls
  {
    if s.enabled && mode == Limited then ResolveNext(s.(capacity := s.capacity + 1)) else s
  }

  function FirstFor(s: State, id: ExecutionId, i: nat): nat
    requires forall k :: k in s.queue ==> k in s.calls
    requires i <= |s.queue|
    ensures i <= FirstFor(s, id, i) <= |s.queue|
    ensures FirstFor(s, id, i) < |s.queue| ==> s.calls[s.queue[FirstFor(s, id, i)]].id == id
    ensures forall j :: i <= j < FirstFor(s, id, i) ==> s.calls[s.queue[j]].id != id
    decreases |s.queue| - i
  {
    if i == |s.queue| || s.calls[s.queue[i]].id == id then i else FirstFor(s, id, i + 1)
  }

  /** `ConcurrencyQueue.remove`, before it resolves the next call. */
  function TakeOut(s: State, id: ExecutionId): State
    requires forall k :: k in s.queue ==> k in s.calls
    requires FirstFor(s, id, 0) < |s.queue|
  {
    var i := FirstFor(s, id, 0);
    var k := s.queue[i];
    s.(capacity := s.capacity + 1, queue := s.queue[..i] + s.queue[i + 1..],
       calls := s.calls[k := s.calls[k].(phase := Dropped)])
  }

  // ---------------------------------------------------------------------
  // The steps
  // ---------------------------------------------------------------------

  predicate IsRegistered(s: State, k: Token) {
    k in s.calls && s.calls[k].phase.Registered?
  }

  /** The entry of the table for `id`, if any. */
  predicate Has(s: State, id: ExecutionId) {
    id in s.table && IsRegistered(s, s.table[id])
  }

  function Get(s: State, id: ExecutionId): Record
    requires Has(s, id)
  {
    s.calls[s.table[id]].phase.record
  }

  function Put(s: State, k: Token, record: Record): State
    requires k in s.calls
  {
    s.(calls := s.calls[k := s.calls[k].(phase := Registered(record))])
  }

  /** A promise settles once; later settlements have no effect. */
  function Settle(record: Record, outcome: Outcome): Record {
    if record.outcome.Some? then record else record.(outcome := Some(outcome))
  }

  predicate Enabled(s: State, step: Step) {
    && (forall k :: k in s.queue ==> k in s.calls)
    && match step
       case Reserve(k, _, _) => k !in s.calls
       case FailAdd(k) => k in s.calls && s.calls[k].phase == Admitted
       case Register(k, _) => k in s.calls && s.calls[k].phase == Admitted && (s.calls[k].id in s.table ==> Has(s, s.calls[k].id))
       case SetStatus(id, _) => Has(s, id)
       case AttachResponse(id, _) => Has(s, id)
       case SetResponseMode(_, _) => true
       case Finalize(id, _) => Has(s, id)
       case Stop(id, _) => Has(s, id)
       case Cleanup(k) => IsRegistered(s, k) && s.calls[k].phase.record.outcome.Some? && !s.calls[k].phase.record.cleaned
       case RemoveQueued(id) => s.enabled && FirstFor(s, id, 0) < |s.queue|
       case Disable => true
  }

  function Apply(s: State, step: Step): State
    requires Enabled(s, step)
  {
    match step
    case Reserve(k, id, mode) => Throttle(s, k, id, mode)
    case FailAdd(k) =>
      ReleaseSlot(s.(calls := s.calls[k := s.calls[k].(phase := Released)]), s.calls[k].mode)
    case Register(k, now) =>
      var id := s.calls[k].id;
      var startedAt := if id in s.table then Get(s, id).startedAt else now;
      var promise := if id in s.table then Get(s, id).responsePromise else None;
      Put(s, k, Record(Running, None, startedAt, promise, false)).(table := s.table[id := k])
    case SetStatus(id, status) => Put(s, s.table[id], Get(s, id).(status := status))
    case AttachResponse(id, promise) => Put(s, s.table[id], Get(s, id).(responsePromise := Some(promise)))
    case SetResponseMode(id, mode) => s.(responseModes := s.responseModes[id := mode])
    case Finalize(id, data) => Put(s, s.table[id], Settle(Get(s, id), Resolved(data)))
    case Stop(id, reason) =>
      if Get(s, id).status == Waiting
      then s.(table := s.table - {id}, responseModes := s.responseModes - {id})
      else Put(s, s.table[id], Settle(Get(s, id), Rejected(reason)))
    case Cleanup(k) =>
      var record := s.calls[k].phase.record;
      var cleaned := ReleaseSlot(Put(s, k, record.(cleaned := true)), s.calls[k].mode);
      if record.status == Waiting then cleaned
      else cleaned.(table := s.table - {s.calls[k].id}, responseModes := s.responseModes - {s.calls[k].id})
    case RemoveQueued(id) => ResolveNext(TakeOut(s, id))
    case Disable => s.(enabled := false)
  }

  // ---------------------------------------------------------------------
  // Slot conservation
  // ---------------------------------------------------------------------

  /** A reservation lasts from admission until the call fails or its record is cleaned up. */
  predicate HoldsSlot(call: Call) {
    && call.mode == Limited
    && (call.phase == Admitted || (call.phase.Registered? && !call.phase.record.cleaned))
  }

  ghost function Holders(calls: map<Token, Call>): set<Token> {
    set k | k in calls && HoldsSlot(calls[k])
  }

  lemma HoldersUpdate(calls: map<Token, Call>, k: Token, call: Call)
    ensures |Holders(calls[k := call])| + One(k in calls && HoldsSlot(calls[k]))
         == |Holders(calls)| + One(HoldsSlot(call))
  {
    var before, after := Holders(calls), Holders(calls[k := call]);
    if HoldsSlot(call) {
      assert after == before + {k};
    } else {
      assert after == before - {k};
    }
  }

  ghost predicate QueueOk(s: State) {
    && Distinct(s.queue)
    && (forall k :: k in s.queue ==> k in s.calls && s.calls[k].phase == Queued && s.calls[k].mode == Limited)
  }

  /**
    Until the queue is disabled for shutdown, every unit of the limit is free, held by exactly one
    reservation, or owed to a throttled call.
   */
  ghost predicate SlotsConserved(s: State) {
    QueueOk(s) && (s.enabled ==> s.capacity + |Holders(s.calls)| + |s.queue| == s.limit)
  }

  lemma ResolveNextConserves(s: State)
    requires QueueOk(s)
    ensures QueueOk(ResolveNext(s))
    ensures var s' := ResolveNext(s);
      |Holders(s'.calls)| + |s'.queue| == |Holders(s.calls)| + |s.queue|
  {
    if s.queue != [] {
      HoldersUpdate(s.calls, s.queue[0], s.calls[s.queue[0]].(phase := Admitted));
      assert s.queue[0] in s.queue;
      assert forall k :: k in s.queue[1..] ==> k in s.queue && k != s.queue[0];
    }
  }

  /** Replacing one call leaves the queue alone unless that call was in it. */
  lemma UpdateConserves(s: State, k: Token, call: Call)
    requires QueueOk(s) && k !in s.queue
    ensures QueueOk(s.(calls := s.calls[k := call]))
    ensures |Holders(s.calls[k := call])| + One(k in s.calls && HoldsSlot(s.calls[k]))
         == |Holders(s.calls)| + One(HoldsSlot(call))
  {
    HoldersUpdate(s.calls, k, call);
  }

  lemma ReleaseConserves(s: State, k: Token, call: Call)
    requires SlotsConserved(s) && k in s.calls && k !in s.queue
    requires call.mode == s.calls[k].mode && !HoldsSlot(call)
    requires s.calls[k].mode == Limited ==> HoldsSlot(s.calls[k])
    ensures QueueOk(s.(calls := s.calls[k := call]))
    ensures SlotsConserved(ReleaseSlot(s.(calls := s.calls[k := call]), s.calls[k].mode))
  {
    UpdateConserves(s, k, call);
    if s.enabled && s.calls[k].mode == Limited {
      ResolveNextConserves(s.(calls := s.calls[k := call], capacity := s.capacity + 1));
    }
  }

  lemma ReserveConserves(s: State, k: Token, id: ExecutionId, mode: Mode)
    requires SlotsConserved(s) && k !in s.calls
    ensures SlotsConserved(Apply(s, Reserve(k, id, mode)))
  {
    var s' := Apply(s, Reserve(k, id, mode));
    assert k !in s.queue;
    UpdateConserves(s, k, s'.calls[k]);
  }

  lemma TakeOutConserves(s: State, id: ExecutionId)
    requires QueueOk(s) && FirstFor(s, id, 0) < |s.queue|
    ensures QueueOk(TakeOut(s, id))
    ensures Holders(TakeOut(s, id).calls) == Holders(s.calls)
  {
  }

  lemma RemoveQueuedConserves(s: State, id: ExecutionId)
    requires SlotsConserved(s) && Enabled(s, RemoveQueued(id))
    ensures SlotsConserved(Apply(s, RemoveQueued(id)))
  {
    TakeOutConserves(s, id);
    ResolveNextConserves(TakeOut(s, id));
  }

  /** A step that changes a record, or makes one of a reservation, moves no slot. */
  lemma ReplaceConserves(s: State, s': State, k: Token)
    requires SlotsConserved(s) && k in s.calls && k !in s.queue && k in s'.calls
    requires s'.calls == s.calls[k := s'.calls[k]] && HoldsSlot(s'.calls[k]) == HoldsSlot(s.calls[k])
    requires s'.limit == s.limit && s'.enabled == s.enabled && s'.capacity == s.capacity && s'.queue == s.queue
    ensures SlotsConserved(s')
  {
    HoldersUpdate(s.calls, k, s'.calls[k]);
  }

  lemma EntryStepConserves(s: State, step: Step)
    requires SlotsConserved(s) && Enabled(s, step)
    requires step.SetStatus? || step.AttachResponse? || step.Finalize? || step.Stop?
    ensures SlotsConserved(Apply(s, step))
  {
    ReplaceConserves(s, Apply(s, step), s.table[step.id]);
  }

  lemma SlotsConservedStep(s: State, step: Step)
    requires SlotsConserved(s) && Enabled(s, step)
    ensures SlotsConserved(Apply(s, step))
  {
    match step
    case Reserve(k, id, mode) => ReserveConserves(s, k, id, mode);
    case FailAdd(k) => ReleaseConserves(s, k, s.calls[k].(phase := Released));
    case Register(k, _) => ReplaceConserves(s, Apply(s, step), k);
    case SetResponseMode(_, _) =>
    case Cleanup(k) =>
      ReleaseConserves(s, k, s.calls[k].(phase := Registered(s.calls[k].phase.record.(cleaned := true))));
    case RemoveQueued(id) => RemoveQueuedConserves(s, id);
    case Disable =>
    case _ => EntryStepConserves(s, step);
  }

  // ---------------------------------------------------------------------
  // The limit itself
  // ---------------------------------------------------------------------

  /** Calls are throttled only when the capacity is used up. */
  ghost predicate Admits(s: State) {
    s.enabled ==> |s.queue| == if s.capacity < 0 then -s.capacity else 0
  }

  lemma AdmitsStep(s: State, step: Step)
    requires SlotsConserved(s) && Admits(s) && Enabled(s, step) && !step.RemoveQueued?
    ensures Admits(Apply(s, step))
  {
  }

  /**
    Taking a throttled execution out of the queue also admits the next one, although no running
    execution has ended. The limit survives if and only if nobody else was throttled.
   */
  lemma RemoveKeepsLimitExactly(s: State, id: ExecutionId)
    requires SlotsConserved(s) && Admits(s) && Enabled(s, RemoveQueued(id))
    ensures |Holders(s.calls)| == s.limit
    ensures |Holders(Apply(s, RemoveQueued(id)).calls)| <= s.limit <==> |s.queue| == 1
  {
    RemoveQueuedConserves(s, id);
  }

  // ---------------------------------------------------------------------
  // What a step does to the table and to the records
  // ---------------------------------------------------------------------

  /** Admitting the next throttled call concerns no record. */
  lemma ResolveNextKeepsRecords(s: State, k: Token)
    requires QueueOk(s)
    ensures IsRegistered(ResolveNext(s), k) <==> IsRegistered(s, k)
    ensures IsRegistered(s, k) ==> ResolveNext(s).calls[k] == s.calls[k]
    ensures ResolveNext(s).table == s.table && ResolveNext(s).responseModes == s.responseModes
  {
  }

  /** Steps that release or drop a reservation change no record but the one being cleaned up. */
  lemma ReleaseKeepsRecords(s: State, step: Step, k: Token)
    requires SlotsConserved(s) && Enabled(s, step)
    requires step.FailAdd? || step.Cleanup? || step.RemoveQueued?
    ensures IsRegistered(Apply(s, step), k) <==> IsRegistered(s, k)
    ensures IsRegistered(s, k) && !(step.Cleanup? && step.token == k) ==> Apply(s, step).calls[k] == s.calls[k]
    ensures step.Cleanup? && step.token == k ==>
      Apply(s, step).calls[k] == s.calls[k].(phase := Registered(s.calls[k].phase.record.(cleaned := true)))
  {
    match step
    case FailAdd(t) => ReleaseKeeps(s, t, s.calls[t].(phase := Released), k);
    case Cleanup(t) =>
      ReleaseKeeps(s, t, s.calls[t].(phase := Registered(s.calls[t].phase.record.(cleaned := true))), k);
    case RemoveQueued(id) =>
      TakeOutConserves(s, id);
      ResolveNextKeepsRecords(TakeOut(s, id), k);
      assert s.queue[FirstFor(s, id, 0)] in s.queue;
    case _ =>
  }

  lemma ReleaseKeeps(s: State, t: Token, call: Call, k: Token)
    requires SlotsConserved(s) && t in s.calls && t !in s.queue
    ensures QueueOk(s.(calls := s.calls[t := call]))
    ensures var s1 := s.(calls := s.calls[t := call]);
      var s' := ReleaseSlot(s1, s.calls[t].mode);
      && (IsRegistered(s', k) <==> IsRegistered(s1, k))
      && (IsRegistered(s1, k) ==> s'.calls[k] == s1.calls[k])
  {
    var s1 := s.(calls := s.calls[t := call]);
    UpdateConserves(s, t, call);
    ResolveNextKeepsRecords(s1.(capacity := s.capacity + 1), k);
  }

  /** The entries a step takes out of the table. */
  function Departs(s: State, step: Step): set<ExecutionId>
    requires Enabled(s, step)
  {
    if step.Stop? && Get(s, step.id).status == Waiting then {step.id}
    else if step.Cleanup? && s.calls[step.token].phase.record.status != Waiting then {s.calls[step.token].id}
    else {}
  }

  /** Most steps leave the table and the response modes alone. */
  lemma OtherStepsKeepTable(s: State, step: Step)
    requires Enabled(s, step) && !step.Register? && !step.Stop? && !step.Cleanup?
    ensures Apply(s, step).table == s.table
    ensures !step.SetResponseMode? ==> Apply(s, step).responseModes == s.responseModes
  {
    match step
    case FailAdd(k) => ReleaseSlotKeepsTable(s.(calls := s.calls[k := s.calls[k].(phase := Released)]), s.calls[k].mode);
    case _ =>
  }

  lemma CleanupTable(s: State, k: Token)
    requires Enabled(s, Cleanup(k))
    ensures var s', gone := Apply(s, Cleanup(k)), s.calls[k].phase.record.status != Waiting;
      && s'.table == (if gone then s.table - {s.calls[k].id} else s.table)
      && s'.responseModes == (if gone then s.responseModes - {s.calls[k].id} else s.responseModes)
  {
    ReleaseSlotKeepsTable(Put(s, k, s.calls[k].phase.record.(cleaned := true)), s.calls[k].mode);
  }

  lemma MinusNothing<K, V>(m: map<K, V>)
    ensures m - {} == m
  {
  }

  /** Registration enters, stopping a waiting entry and cleaning up an ended record remove; no other step does either. */
  lemma TableStep(s: State, step: Step)
    requires Enabled(s, step)
    ensures step.Register? ==> Apply(s, step).table == s.table[s.calls[step.token].id := step.token]
    ensures !step.Register? ==> Apply(s, step).table == s.table - Departs(s, step)
  {
    MinusNothing(s.table);
    if step.Cleanup? {
      CleanupTable(s, step.token);
    } else if !step.Register? && !step.Stop? {
      OtherStepsKeepTable(s, step);
    }
  }

  lemma ReleaseSlotKeepsTable(s: State, mode: Mode)
    requires forall k :: k in s.queue ==> k in s.calls
    ensures ReleaseSlot(s, mode).table == s.table && ReleaseSlot(s, mode).responseModes == s.responseModes
  {
  }

  /** The step is a call about the entry `k` of the table, or the cleanup of `k`. */
  predicate Concerns(s: State, step: Step, k: Token) {
    match step
    case SetStatus(id, _) => id in s.table && s.table[id] == k
    case AttachResponse(id, _) => id in s.table && s.table[id] == k
    case Finalize(id, _) => id in s.table && s.table[id] == k
    case Stop(id, _) => id in s.table && s.table[id] == k
    case Cleanup(t) => t == k
    case _ => false
  }

  /** What no step changes in a record once it is in the table. */
  lemma RecordStep(s: State, step: Step, k: Token)
    requires SlotsConserved(s) && Enabled(s, step) && IsRegistered(s, k)
    ensures IsRegistered(Apply(s, step), k)
    ensures !Concerns(s, step, k) ==> Apply(s, step).calls[k] == s.calls[k]
    ensures var call, call' := s.calls[k], Apply(s, step).calls[k];
      var record, record' := call.phase.record, call'.phase.record;
      && call'.id == call.id && call'.mode == call.mode
      && record'.startedAt == record.startedAt
      && (record.outcome.Some? ==> record'.outcome == record.outcome)
      && (record'.cleaned <==> record.cleaned || step == Cleanup(k))
      && (record'.status != record.status ==> step.SetStatus?)
      && (record'.responsePromise != record.responsePromise ==> step.AttachResponse?)
  {
    if step.FailAdd? || step.Cleanup? || step.RemoveQueued? {
      ReleaseKeepsRecords(s, step, k);
    }
  }

  /** Records come into being by registration only: open, running, and not cleaned up. */
  lemma NewRecord(s: State, step: Step, k: Token)
    requires SlotsConserved(s) && Enabled(s, step) && !IsRegistered(s, k) && IsRegistered(Apply(s, step), k)
    ensures step.Register? && step.token == k && Apply(s, step).calls[k].id == s.calls[k].id
    ensures var record := Apply(s, step).calls[k].phase.record;
      record.status == Running && record.outcome.None? && !record.cleaned
  {
    if step.FailAdd? || step.Cleanup? || step.RemoveQueued? {
      ReleaseKeepsRecords(s, step, k);
    }
  }

  // ---------------------------------------------------------------------
  // Whole runs
  // ---------------------------------------------------------------------

  ghost predicate Legal(s: State, steps: seq<Step>)
    decreases |steps|
  {
    steps == [] || (Enabled(s, steps[0]) && Legal(Apply(s, steps[0]), steps[1..]))
  }

  ghost function Run(s: State, steps: seq<Step>): State
    requires Legal(s, steps)
    decreases |steps|
  {
    if steps == [] then s else Run(Apply(s, steps[0]), steps[1..])
  }

  /** Entries belong to their execution, and only settled records are cleaned up. */
  ghost predicate KeysOk(s: State) {
    && (forall id :: id in s.table ==> IsRegistered(s, s.table[id]) && s.calls[s.table[id]].id == id)
    && (forall k :: IsRegistered(s, k) && s.calls[k].phase.record.cleaned ==> s.calls[k].phase.record.outcome.Some?)
  }

  ghost predicate Inv(s: State) {
    SlotsConserved(s) && KeysOk(s)
  }

  lemma EntryKeyedStep(s: State, step: Step, id: ExecutionId)
    requires Inv(s) && Enabled(s, step) && id in Apply(s, step).table
    ensures var s' := Apply(s, step); IsRegistered(s', s'.table[id]) && s'.calls[s'.table[id]].id == id
  {
    TableStep(s, step);
    if id in s.table {
      RecordStep(s, step, s.table[id]);
    }
  }

  lemma CleanedSettledStep(s: State, step: Step, k: Token)
    requires Inv(s) && Enabled(s, step) && IsRegistered(Apply(s, step), k)
    ensures var record := Apply(s, step).calls[k].phase.record; record.cleaned ==> record.outcome.Some?
  {
    if IsRegistered(s, k) {
      RecordStep(s, step, k);
    } else {
      NewRecord(s, step, k);
    }
  }

  lemma InvStep(s: State, step: Step)
    requires Inv(s) && Enabled(s, step)
    ensures Inv(Apply(s, step)) && Apply(s, step).limit == s.limit
  {
    var s' := Apply(s, step);
    SlotsConservedStep(s, step);
    forall id | id in s'.table ensures IsRegistered(s', s'.table[id]) && s'.calls[s'.table[id]].id == id {
      EntryKeyedStep(s, step, id);
    }
    forall k | IsRegistered(s', k) && s'.calls[k].phase.record.cleaned ensures s'.calls[k].phase.record.outcome.Some? {
      CleanedSettledStep(s, step, k);
    }
  }

  lemma {:induction false} RunKeepsInv(s: State, steps: seq<Step>)
    requires Legal(s, steps) && Inv(s)
    ensures Inv(Run(s, steps)) && Run(s, steps).limit == s.limit
    decreases |steps|
  {
    if steps != [] {
      InvStep(s, steps[0]);
      RunKeepsInv(Apply(s, steps[0]), steps[1..]);
    }
  }

  lemma InitialInv(limit: nat)
    ensures Inv(Initial(limit)) && Admits(Initial(limit))
  {
    assert Holders(Initial(limit).calls) == {};
  }

  lemma NotBeyondLimit(s: State)
    requires SlotsConserved(s) && Admits(s)
    ensures s.enabled ==> |Holders(s.calls)| <= s.limit
  {
  }

  lemma {:induction false} RunKeepsAdmits(s: State, steps: seq<Step>)
    requires Legal(s, steps) && SlotsConserved(s) && Admits(s)
    requires forall step :: step in steps ==> !step.RemoveQueued?
    ensures SlotsConserved(Run(s, steps)) && Admits(Run(s, steps)) && Run(s, steps).limit == s.limit
    decreases |steps|
  {
    if steps != [] {
      assert steps[0] in steps && forall step :: step in steps[1..] ==> step in steps;
      SlotsConservedStep(s, steps[0]);
      AdmitsStep(s, steps[0]);
      LimitStays(s, steps[0]);
      RunKeepsAdmits(Apply(s, steps[0]), steps[1..]);
    }
  }

  lemma LimitStays(s: State, step: Step)
    requires Enabled(s, step)
    ensures Apply(s, step).limit == s.limit
  {
  }

  /** As long as no throttled execution is taken out of the queue, the limit is never exceeded. */
  lemma LimitHolds(s: State, steps: seq<Step>)
    requires Legal(s, steps) && SlotsConserved(s) && Admits(s)
    requires forall step :: step in steps ==> !step.RemoveQueued?
    ensures Run(s, steps).enabled ==> |Holders(Run(s, steps).calls)| <= s.limit
  {
    RunKeepsAdmits(s, steps);
    NotBeyondLimit(Run(s, steps));
  }

  // ---------------------------------------------------------------------
  // Who is let in, and when
  // ---------------------------------------------------------------------

  /** A call is let in at once unless it is limited, the limit is in force and no capacity is left; else it queues up last. */
  lemma ReserveAdmitsExactly(s: State, k: Token, id: ExecutionId, mode: Mode)
    requires Enabled(s, Reserve(k, id, mode))
    ensures var s' := Apply(s, Reserve(k, id, mode));
      var throttled := s.enabled && mode == Limited && s.capacity <= 0;
      && k in s'.calls && s'.calls[k].id == id && s'.calls[k].mode == mode
      && s'.calls[k].phase == (if throttled then Queued else Admitted)
      && s'.queue == (if throttled then s.queue + [k] else s.queue)
  {
  }

  /** A call that fails holds no slot any more; the slot goes to whoever is first in the queue, or back to the capacity. */
  lemma FailedAddReturnsSlot(s: State, k: Token)
    requires SlotsConserved(s) && Enabled(s, FailAdd(k))
    ensures var s', returned := Apply(s, FailAdd(k)), s.enabled && s.calls[k].mode == Limited;
      && s'.calls[k].phase == Released && k !in Holders(s'.calls)
      && s'.capacity == s.capacity + One(returned)
      && s'.queue == (if returned && s.queue != [] then s.queue[1..] else s.queue)
      && (returned && s.queue != [] ==> s'.calls[s.queue[0]].phase == Admitted)
  {
    assert s.queue != [] ==> s.queue[0] in s.queue;
  }

  /** Call `a` is queued before call `b`. */
  ghost predicate Ahead(s: State, a: Token, b: Token) {
    InOrder(s.queue, a, b)
  }

  ghost predicate InOrder(queue: seq<Token>, a: Token, b: Token) {
    exists i, j :: 0 <= i < j < |queue| && queue[i] == a && queue[j] == b
  }

  lemma ShiftKeepsOrder(s: State, a: Token, b: Token)
    requires QueueOk(s) && Ahead(s, a, b)
    ensures ResolveNext(s).calls[a].phase != Queued || Ahead(ResolveNext(s), a, b)
  {
    var i, j :| 0 <= i < j < |s.queue| && s.queue[i] == a && s.queue[j] == b;
    if i > 0 {
      assert s.queue[1..][i - 1] == a && s.queue[1..][j - 1] == b;
    }
  }

  lemma OthersKeepOrder(queue: seq<Token>, x: nat, i: nat, j: nat)
    requires x < |queue| && i < j < |queue| && x != i && x != j
    ensures InOrder(queue[..x] + queue[x + 1..], queue[i], queue[j])
  {
    var rest := queue[..x] + queue[x + 1..];
    var i', j' := if i < x then i else i - 1, if j < x then j else j - 1;
    assert rest[i'] == queue[i] && rest[j'] == queue[j];
  }

  lemma TakeOutKeepsOrder(s: State, id: ExecutionId, a: Token, b: Token)
    requires QueueOk(s) && FirstFor(s, id, 0) < |s.queue| && Ahead(s, a, b)
    ensures var s' := TakeOut(s, id); s'.calls[a].phase == Dropped || s'.calls[b].phase == Dropped || Ahead(s', a, b)
  {
    var i, j :| 0 <= i < j < |s.queue| && s.queue[i] == a && s.queue[j] == b;
    var x := FirstFor(s, id, 0);
    if x != i && x != j {
      OthersKeepOrder(s.queue, x, i, j);
    }
  }

  lemma RemoveKeepsOrder(s: State, id: ExecutionId, a: Token, b: Token)
    requires SlotsConserved(s) && Enabled(s, RemoveQueued(id)) && Ahead(s, a, b)
    ensures var s' := Apply(s, RemoveQueued(id));
      a in s'.calls && b in s'.calls
      && (s'.calls[a].phase == Queued ==> s'.calls[b].phase == Dropped || Ahead(s', a, b))
  {
    TakeOutConserves(s, id);
    TakeOutKeepsOrder(s, id, a, b);
    var mid := TakeOut(s, id);
    ResolveNextPhases(mid, a);
    ResolveNextPhases(mid, b);
    if Ahead(mid, a, b) {
      ShiftKeepsOrder(mid, a, b);
    }
  }

  lemma ResolveNextPhases(s: State, k: Token)
    requires QueueOk(s) && k in s.calls
    ensures k in ResolveNext(s).calls
    ensures ResolveNext(s).calls[k].phase == s.calls[k].phase
      || (s.calls[k].phase == Queued && ResolveNext(s).calls[k].phase == Admitted)
  {
    assert s.queue != [] ==> s.queue[0] in s.queue;
  }

  /** A step lets nobody overtake: as long as a call is throttled, everybody behind it is throttled too, or was dropped. */
  lemma NoOvertakingStep(s: State, step: Step, a: Token, b: Token)
    requires SlotsConserved(s) && Enabled(s, step) && Ahead(s, a, b)
    ensures var s' := Apply(s, step);
      a in s'.calls && b in s'.calls
      && (s'.calls[a].phase == Queued ==> s'.calls[b].phase == Dropped || Ahead(s', a, b))
  {
    assert a in s.queue && b in s.queue;
    match step
    case FailAdd(k) => ReleaseKeepsOrder(s, k, s.calls[k].(phase := Released), a, b);
    case Cleanup(k) =>
      ReleaseKeepsOrder(s, k, s.calls[k].(phase := Registered(s.calls[k].phase.record.(cleaned := true))), a, b);
    case RemoveQueued(id) => RemoveKeepsOrder(s, id, a, b);
    case _ => QueueGrows(s, step, a, b);
  }

  lemma QueueGrows(s: State, step: Step, a: Token, b: Token)
    requires SlotsConserved(s) && Enabled(s, step) && Ahead(s, a, b)
    requires !step.FailAdd? && !step.Cleanup? && !step.RemoveQueued?
    ensures a in Apply(s, step).calls && b in Apply(s, step).calls && Ahead(Apply(s, step), a, b)
  {
    var s' := Apply(s, step);
    assert s.queue <= s'.queue;
    var i, j :| 0 <= i < j < |s.queue| && s.queue[i] == a && s.queue[j] == b;
    assert s'.queue[i] == a && s'.queue[j] == b;
  }

  lemma ReleaseKeepsOrder(s: State, k: Token, call: Call, a: Token, b: Token)
    requires SlotsConserved(s) && k in s.calls && k !in s.queue && Ahead(s, a, b)
    ensures QueueOk(s.(calls := s.calls[k := call]))
    ensures var s' := ReleaseSlot(s.(calls := s.calls[k := call]), s.calls[k].mode);
      && a in s'.calls && b in s'.calls
      && (s'.calls[a].phase != Queued || Ahead(s', a, b))
  {
    var s1 := s.(calls := s.calls[k := call], capacity := s.capacity + 1);
    UpdateConserves(s, k, call);
    assert Ahead(s1, a, b);
    ShiftKeepsOrder(s1, a, b);
  }

  /** Over every run throttled calls are let in first come, first served. */
  lemma {:induction false} NoOvertaking(s: State, steps: seq<Step>, a: Token, b: Token)
    requires Legal(s, steps) && Inv(s) && Ahead(s, a, b)
    ensures var s' := Run(s, steps);
      a in s'.calls && b in s'.calls
      && (s'.calls[a].phase == Queued ==> s'.calls[b].phase == Dropped || Ahead(s', a, b))
    decreases |steps|
  {
    if steps != [] {
      var s1 := Apply(s, steps[0]);
      InvStep(s, steps[0]);
      NoOvertakingStep(s, steps[0], a, b);
      if s1.calls[a].phase == Queued && s1.calls[b].phase != Dropped {
        NoOvertaking(s1, steps[1..], a, b);
      } else {
        PhasesPass(s1, steps[1..], a);
        PhasesPass(s1, steps[1..], b);
      }
    }
  }

  lemma PhasesPassStep(s: State, step: Step, k: Token)
    requires SlotsConserved(s) && Enabled(s, step) && k in s.calls
    ensures k in Apply(s, step).calls
    ensures s.calls[k].phase != Queued ==> Apply(s, step).calls[k].phase != Queued
    ensures s.calls[k].phase == Dropped ==> Apply(s, step).calls[k].phase == Dropped
  {
    match step
    case FailAdd(t) => ReleasePhases(s, t, s.calls[t].(phase := Released), k);
    case Cleanup(t) =>
      ReleasePhases(s, t, s.calls[t].(phase := Registered(s.calls[t].phase.record.(cleaned := true))), k);
    case RemoveQueued(id) =>
      TakeOutConserves(s, id);
      ResolveNextPhases(TakeOut(s, id), k);
      assert s.queue[FirstFor(s, id, 0)] in s.queue;
    case _ =>
  }

  lemma ReleasePhases(s: State, t: Token, call: Call, k: Token)
    requires SlotsConserved(s) && t in s.calls && t !in s.queue && k in s.calls
    ensures QueueOk(s.(calls := s.calls[t := call]))
    ensures var s1 := s.(calls := s.calls[t := call]);
      var s' := ReleaseSlot(s1, s.calls[t].mode);
      && k in s'.calls
      && (s'.calls[k].phase == s1.calls[k].phase || (s1.calls[k].phase == Queued && s'.calls[k].phase == Admitted))
  {
    UpdateConserves(s, t, call);
    ResolveNextPhases(s.(calls := s.calls[t := call], capacity := s.capacity + 1), k);
  }

  /** A call is throttled at most once, and one that was dropped stays so. */
  lemma {:induction false} PhasesPass(s: State, steps: seq<Step>, k: Token)
    requires Legal(s, steps) && Inv(s) && k in s.calls
    ensures k in Run(s, steps).calls
    ensures s.calls[k].phase != Queued ==> Run(s, steps).calls[k].phase != Queued
    ensures s.calls[k].phase == Dropped ==> Run(s, steps).calls[k].phase == Dropped
    decreases |steps|
  {
    if steps != [] {
      InvStep(s, steps[0]);
      PhasesPassStep(s, steps[0], k);
      PhasesPass(Apply(s, steps[0]), steps[1..], k);
    }
  }

  /** A removal drops the first throttled call of the execution and no other call. */
  lemma RemoveDropsExactly(s: State, id: ExecutionId, i: nat)
    requires SlotsConserved(s) && Enabled(s, RemoveQueued(id)) && i < |s.queue|
    ensures s.queue[i] in Apply(s, RemoveQueued(id)).calls
    ensures Apply(s, RemoveQueued(id)).calls[s.queue[i]].phase == Dropped <==>
      s.calls[s.queue[i]].id == id && forall j :: 0 <= j < i ==> s.calls[s.queue[j]].id != id
  {
    TakeOutConserves(s, id);
    assert s.queue[i] in s.queue && s.queue[FirstFor(s, id, 0)] in s.queue;
  }

  /** Once the queue is disabled for shutdown, no throttled call is ever let in: the queue stays as it is. */
  lemma {:induction false} NobodyAdmittedAfterDisable(s: State, steps: seq<Step>)
    requires Legal(s, steps) && Inv(s) && !s.enabled
    ensures !Run(s, steps).enabled && Run(s, steps).queue == s.queue && Inv(Run(s, steps))
    ensures forall k :: k in s.queue ==> k in Run(s, steps).calls && Run(s, steps).calls[k].phase == Queued
    decreases |steps|
  {
    if steps != [] {
      InvStep(s, steps[0]);
      NobodyAdmittedAfterDisable(Apply(s, steps[0]), steps[1..]);
    }
  }

  /** And disabling is for good, and changes nothing else. */
  lemma DisableOnlyDisables(s: State)
    requires Enabled(s, Disable)
    ensures !Apply(s, Disable).enabled && Apply(s, Disable).(enabled := s.enabled) == s
  {
  }

  // ---------------------------------------------------------------------
  // Records that lose their entry while their promise is open
  // ---------------------------------------------------------------------

  /** An open record outside the table: nothing can settle it any more, so its slot is never returned. */
  ghost predicate Stranded(s: State, k: Token) {
    && IsRegistered(s, k) && s.calls[k].phase.record.outcome.None?
    && !(s.calls[k].id in s.table && s.table[s.calls[k].id] == k)
  }

  predicate OpenEntry(s: State, id: ExecutionId) {
    Has(s, id) && Get(s, id).outcome.None?
  }

  /**
    The open entry that a step puts out of the table: one that says `waiting` and is stopped, one that a
    resume registers over, or one whose execution has another, ended record that is cleaned up.
   */
  function Displaced(s: State, step: Step): Option<Token>
    requires Enabled(s, step)
  {
    match step
    case Stop(id, _) => if OpenEntry(s, id) && Get(s, id).status == Waiting then Some(s.table[id]) else None
    case Register(k, _) => if OpenEntry(s, s.calls[k].id) then Some(s.table[s.calls[k].id]) else None
    case Cleanup(k) =>
      var id := s.calls[k].id;
      if OpenEntry(s, id) && s.calls[k].phase.record.status != Waiting then Some(s.table[id]) else None
    case _ => None
  }

  lemma StrandedStays(s: State, step: Step, k: Token)
    requires Inv(s) && Stranded(s, k) && Enabled(s, step)
    ensures Stranded(Apply(s, step), k) && Apply(s, step).calls[k] == s.calls[k]
  {
    TableStep(s, step);
    RecordStep(s, step, k);
  }

  lemma DisplacedIsStranded(s: State, step: Step, k: Token)
    requires Inv(s) && Enabled(s, step) && Displaced(s, step) == Some(k)
    ensures Stranded(Apply(s, step), k)
  {
    TableStep(s, step);
    RecordStep(s, step, k);
  }

  lemma OnlyDisplacedStrands(s: State, step: Step, k: Token)
    requires Inv(s) && Enabled(s, step) && Stranded(Apply(s, step), k) && !Stranded(s, k)
    ensures Displaced(s, step) == Some(k)
  {
    TableStep(s, step);
    if IsRegistered(s, k) {
      RecordStep(s, step, k);
    } else {
      NewRecord(s, step, k);
    }
  }

  /** A step strands exactly the open entry it displaces. */
  lemma StrandsExactly(s: State, step: Step, k: Token)
    requires Inv(s) && Enabled(s, step)
    ensures Stranded(Apply(s, step), k) <==> Stranded(s, k) || Displaced(s, step) == Some(k)
  {
    if Stranded(s, k) {
      StrandedStays(s, step, k);
    } else if Displaced(s, step) == Some(k) {
      DisplacedIsStranded(s, step, k);
    } else if Stranded(Apply(s, step), k) {
      OnlyDisplacedStrands(s, step, k);
    }
  }

  ghost predicate DisplacedIn(s: State, steps: seq<Step>, k: Token)
    requires Legal(s, steps)
    decreases |steps|
  {
    steps != [] && (Displaced(s, steps[0]) == Some(k) || DisplacedIn(Apply(s, steps[0]), steps[1..], k))
  }

  /** Over every run, the stranded records are those that were stranded and those that some step displaced. */
  lemma {:induction false} StrandedInRun(s: State, steps: seq<Step>, k: Token)
    requires Legal(s, steps) && Inv(s)
    ensures Stranded(Run(s, steps), k) <==> Stranded(s, k) || DisplacedIn(s, steps, k)
    decreases |steps|
  {
    if steps != [] {
      InvStep(s, steps[0]);
      StrandsExactly(s, steps[0], k);
      StrandedInRun(Apply(s, steps[0]), steps[1..], k);
    }
  }

  /** A stranded record stays stranded in every continuation, and holds its slot for ever. */
  lemma {:induction false} StrandedForEver(s: State, steps: seq<Step>, k: Token)
    requires Legal(s, steps) && Inv(s) && Stranded(s, k)
    ensures Stranded(Run(s, steps), k)
    ensures s.calls[k].mode == Limited ==> k in Holders(Run(s, steps).calls)
    decreases |steps|
  {
    if steps != [] {
      InvStep(s, steps[0]);
      StrandedStays(s, steps[0], k);
      StrandedForEver(Apply(s, steps[0]), steps[1..], k);
    }
  }

  /** A record whose promise has not settled; `stopExecution` and `finalizeExecution` can still reach it. */
  ghost predicate Unsettled(s: State, k: Token) {
    && IsRegistered(s, k) && s.calls[k].phase.record.outcome.None?
    && s.calls[k].id in s.table && s.table[s.calls[k].id] == k
  }

  ghost predicate CleanupPending(s: State, k: Token) {
    IsRegistered(s, k) && s.calls[k].phase.record.outcome.Some? && !s.calls[k].phase.record.cleaned
  }

  /** A slot that will be returned: of an add in flight, of a live entry, or of a record due for cleanup. */
  ghost predicate Accounted(s: State, k: Token) {
    && k in s.calls && s.calls[k].mode == Limited
    && (s.calls[k].phase == Admitted || Unsettled(s, k) || CleanupPending(s, k))
  }

  ghost predicate LosesSlot(s: State, k: Token) {
    Stranded(s, k) && s.calls[k].mode == Limited
  }

  /** Every held slot will be returned or is lost, and not both. */
  lemma HoldersSplit(s: State, k: Token)
    requires Inv(s)
    ensures k in Holders(s.calls) <==> Accounted(s, k) || LosesSlot(s, k)
    ensures !(Accounted(s, k) && LosesSlot(s, k))
  {
  }

  /**
    In the state that any run reaches, the limit is split exactly into free capacity, held slots and
    throttled calls, and the held slots are those of adds in flight, live entries and settled records due
    for cleanup, plus exactly those of the open entries that some step of the run displaced.
   */
  lemma SlotConservation(limit: nat, steps: seq<Step>)
    requires Legal(Initial(limit), steps)
    ensures var s := Run(Initial(limit), steps);
      && (s.enabled ==> s.capacity + |Holders(s.calls)| + |s.queue| == limit)
      && (forall k :: k in Holders(s.calls) <==>
            Accounted(s, k) || (k in s.calls && s.calls[k].mode == Limited && DisplacedIn(Initial(limit), steps, k)))
  {
    InitialInv(limit);
    RunKeepsInv(Initial(limit), steps);
    var s := Run(Initial(limit), steps);
    forall k ensures k in Holders(s.calls) <==>
      Accounted(s, k) || (k in s.calls && s.calls[k].mode == Limited && DisplacedIn(Initial(limit), steps, k))
    {
      HoldersSplit(s, k);
      StrandedInRun(Initial(limit), steps, k);
    }
  }

  /**
    The exact condition under which no slot is lost: every held slot will be returned if and only if no
    step of the run displaced an open entry of a limited execution.
   */
  lemma NoSlotLostExactly(limit: nat, steps: seq<Step>)
    requires Legal(Initial(limit), steps)
    ensures var s := Run(Initial(limit), steps);
      (forall k :: k in Holders(s.calls) ==> Accounted(s, k))
      <==> (forall k :: DisplacedIn(Initial(limit), steps, k) ==> !(k in s.calls && s.calls[k].mode == Limited))
  {
    InitialInv(limit);
    RunKeepsInv(Initial(limit), steps);
    var s := Run(Initial(limit), steps);
    forall k
      ensures (k in Holders(s.calls) && !Accounted(s, k))
         <==> (DisplacedIn(Initial(limit), steps, k) && k in s.calls && s.calls[k].mode == Limited)
    {
      HoldersSplit(s, k);
      StrandedInRun(Initial(limit), steps, k);
    }
  }

  lemma {:induction false} OneMoreStep(s: State, steps: seq<Step>, step: Step)
    requires Legal(s, steps) && Enabled(Run(s, steps), step)
    ensures Legal(s, steps + [step]) && Run(s, steps + [step]) == Apply(Run(s, steps), step)
    decreases |steps|
  {
    if steps == [] {
      assert [step][1..] == [];
    } else {
      assert (steps + [step])[1..] == steps[1..] + [step];
      OneMoreStep(Apply(s, steps[0]), steps[1..], step);
    }
  }

  lemma Extend(s: State, steps: seq<Step>, step: Step) returns (more: seq<Step>)
    requires Legal(s, steps) && Enabled(Run(s, steps), step)
    ensures more == steps + [step]
    ensures Legal(s, more) && Run(s, more) == Apply(Run(s, steps), step)
  {
    OneMoreStep(s, steps, step);
    more := steps + [step];
  }

  /** An execution in the state in which every wait begins: `waiting` in memory, its promise still open. */
  lemma TurningToWait(limit: nat, id: ExecutionId, now: int) returns (steps: seq<Step>)
    requires limit > 0
    ensures Legal(Initial(limit), steps)
    ensures var s := Run(Initial(limit), steps);
      && s == Initial(limit).(capacity := limit - 1, table := map[id := 0],
                              calls := map[0 := Call(id, Limited, Registered(Record(Waiting, None, now, None, false)))])
  {
    var s := Initial(limit);
    steps := Extend(s, [], Reserve(0, id, Limited));
    steps := Extend(s, steps, Register(0, now));
    steps := Extend(s, steps, SetStatus(id, Waiting));
  }

  /** Stopping an execution between the two strands its slot. */
  lemma StopWhileTurningWaiting(limit: nat, id: ExecutionId, now: int, reason: int) returns (steps: seq<Step>)
    requires limit > 0
    ensures Legal(Initial(limit), steps) && Stranded(Run(Initial(limit), steps), 0)
    ensures 0 in Holders(Run(Initial(limit), steps).calls)
  {
    steps := TurningToWait(limit, id, now);
    steps := Extend(Initial(limit), steps, Stop(id, reason));
  }

  /** So does a resume that finds the row `waiting` before the run it resumes has been finalized. */
  lemma ResumeBeforeFinalize(limit: nat, id: ExecutionId, now: int) returns (steps: seq<Step>)
    requires limit > 1
    ensures Legal(Initial(limit), steps) && Stranded(Run(Initial(limit), steps), 0)
    ensures 0 in Holders(Run(Initial(limit), steps).calls)
  {
    steps := TurningToWait(limit, id, now);
    steps := Extend(Initial(limit), steps, Reserve(1, id, Limited));
    steps := Extend(Initial(limit), steps, Register(1, now));
  }

  // ---------------------------------------------------------------------
  // The limit is exceeded
  // ---------------------------------------------------------------------

  lemma {:induction false} ReserveMany(limit: nat, n: nat) returns (steps: seq<Step>)
    ensures Legal(Initial(limit), steps)
    ensures var s := Run(Initial(limit), steps);
      Inv(s) && Admits(s) && s.enabled && s.limit == limit && s.capacity == limit - n && forall k :: k in s.calls ==> k < n
    decreases n
  {
    InitialInv(limit);
    if n == 0 {
      steps := [];
    } else {
      steps := ReserveMany(limit, n - 1);
      var s := Run(Initial(limit), steps);
      var step := Reserve(n - 1, n - 1, Limited);
      InvStep(s, step);
      AdmitsStep(s, step);
      steps := Extend(Initial(limit), steps, step);
    }
  }

  /** With two executions throttled, stopping one of them lets the other run beyond the limit, whatever the limit is. */
  lemma OverAdmission(limit: nat) returns (steps: seq<Step>)
    ensures Legal(Initial(limit), steps)
    ensures var s := Run(Initial(limit), steps); s.enabled && |Holders(s.calls)| > limit
  {
    steps := ReserveMany(limit, limit + 2);
    var s := Run(Initial(limit), steps);
    assert s.queue[0] in s.queue;
    var id := s.calls[s.queue[0]].id;
    assert FirstFor(s, id, 0) == 0;
    RemoveKeepsLimitExactly(s, id);
    steps := Extend(Initial(limit), steps, RemoveQueued(id));
  }

  // ---------------------------------------------------------------------
  // First settlement wins, and cleanup is exact
  // ---------------------------------------------------------------------

  /** Whatever is called afterwards and in whatever order, the first settlement is the outcome. */
  lemma {:induction false} FirstSettlementWins(s: State, steps: seq<Step>, k: Token)
    requires Legal(s, steps) && SlotsConserved(s)
    requires IsRegistered(s, k) && s.calls[k].phase.record.outcome.Some?
    ensures var s' := Run(s, steps);
      IsRegistered(s', k) && s'.calls[k].phase.record.outcome == s.calls[k].phase.record.outcome
      && (s.calls[k].phase.record.cleaned ==> Cleanup(k) !in steps && k !in Holders(s'.calls))
    decreases |steps|
  {
    if steps != [] {
      SlotsConservedStep(s, steps[0]);
      RecordStep(s, steps[0], k);
      FirstSettlementWins(Apply(s, steps[0]), steps[1..], k);
    }
  }

  /** The steps that settle an execution, and what with. */
  function Settlement(step: Step): Option<(ExecutionId, Outcome)> {
    match step
    case Finalize(id, data) => Some((id, Resolved(data)))
    case Stop(id, reason) => Some((id, Rejected(reason)))
    case _ => None
  }

  /**
    A run that ends returns its slot, unless it is stopped while it says `waiting` with its promise open.
    In every other case its record becomes due for a cleanup, with this outcome unless it had one, and
    after that cleanup it holds no slot.
   */
  lemma EndReturnsTheSlotExactly(s: State, step: Step)
    requires Inv(s) && Enabled(s, step) && Settlement(step).Some?
    requires !Get(s, Settlement(step).value.0).cleaned
    ensures var k, settled := s.table[Settlement(step).value.0], Apply(s, step);
      var outcome := s.calls[k].phase.record.outcome;
      && (CleanupPending(settled, k) <==> Displaced(s, step) != Some(k))
      && (CleanupPending(settled, k) ==>
            && settled.calls[k].phase.record.outcome == (if outcome.Some? then outcome else Some(Settlement(step).value.1))
            && Enabled(settled, Cleanup(k))
            && k !in Holders(Apply(settled, Cleanup(k)).calls))
  {
    var k, settled := s.table[Settlement(step).value.0], Apply(s, step);
    InvStep(s, step);
    RecordStep(s, step, k);
    if CleanupPending(settled, k) {
      RecordStep(settled, Cleanup(k), k);
    }
  }

  /** A step takes the entry of `id` out: it is stopped while waiting, or an ended record of it is cleaned up. */
  predicate Removes(s: State, step: Step, id: ExecutionId)
    requires Enabled(s, step)
  {
    || (step.Stop? && step.id == id && Get(s, id).status == Waiting)
    || (step.Cleanup? && s.calls[step.token].id == id && s.calls[step.token].phase.record.status != Waiting)
  }

  /** An entry leaves by exactly these steps; in particular the cleanup of a waiting record leaves it alone. */
  lemma EntryLeavesExactly(s: State, step: Step, id: ExecutionId)
    requires Inv(s) && Enabled(s, step) && Has(s, id)
    ensures Has(Apply(s, step), id) <==> !Removes(s, step, id)
  {
    TableStep(s, step);
    InvStep(s, step);
  }

  /**
    A cleanup takes out the entry of its execution if the record has ended, together with the response
    mode, and no entry at all if it waits. The entry it takes out is its own, unless another record of
    the execution was registered over it.
   */
  lemma CleanupIsExact(s: State, k: Token)
    requires Inv(s) && Enabled(s, Cleanup(k))
    ensures var s', id := Apply(s, Cleanup(k)), s.calls[k].id;
      && (s.calls[k].phase.record.status == Waiting ==> s'.table == s.table && s'.responseModes == s.responseModes)
      && (s.calls[k].phase.record.status != Waiting ==>
            s'.table == s.table - {id} && s'.responseModes == s.responseModes - {id})
      && ((exists other :: other in s.table && s.table[other] != k && other !in s'.table)
          <==> s.calls[k].phase.record.status != Waiting && id in s.table && s.table[id] != k)
  {
    TableStep(s, Cleanup(k));
  }

  /** No step of the run takes the entry of `id` out. */
  ghost predicate Spared(s: State, steps: seq<Step>, id: ExecutionId)
    requires Legal(s, steps)
    decreases |steps|
  {
    steps == [] || (!Removes(s, steps[0], id) && Spared(Apply(s, steps[0]), steps[1..], id))
  }

  lemma OriginStep(s: State, step: Step, id: ExecutionId)
    requires Inv(s) && Enabled(s, step) && Has(s, id) && !Removes(s, step, id)
    ensures Has(Apply(s, step), id) && Get(Apply(s, step), id).startedAt == Get(s, id).startedAt
    ensures !step.AttachResponse? ==> Get(Apply(s, step), id).responsePromise == Get(s, id).responsePromise
  {
    TableStep(s, step);
    EntryLeavesExactly(s, step, id);
    RecordStep(s, step, s.table[id]);
  }

  /**
    Over any number of waits and resumes an entry that is neither stopped while waiting nor cleaned up
    after its end survives, with the start time and response promise it began with.
   */
  lemma {:induction false} EntryKeepsItsOrigin(s: State, steps: seq<Step>, id: ExecutionId)
    requires Legal(s, steps) && Inv(s) && Has(s, id) && Spared(s, steps, id)
    ensures Has(Run(s, steps), id) && Get(Run(s, steps), id).startedAt == Get(s, id).startedAt
    ensures (forall step :: step in steps ==> !step.AttachResponse?)
      ==> Get(Run(s, steps), id).responsePromise == Get(s, id).responsePromise
    decreases |steps|
  {
    if steps != [] {
      InvStep(s, steps[0]);
      OriginStep(s, steps[0], id);
      EntryKeepsItsOrigin(Apply(s, steps[0]), steps[1..], id);
      assert steps[0] in steps && forall step :: step in steps[1..] ==> step in steps;
    }
  }

  // ---------------------------------------------------------------------
  // What is set on an entry is found there again
  // ---------------------------------------------------------------------

  /** A call that registers becomes the entry of its execution, running; one not known before starts now and has no response promise. */
  lemma RegisterStarts(s: State, k: Token, now: int)
    requires Enabled(s, Register(k, now))
    ensures var s', id := Apply(s, Register(k, now)), s.calls[k].id;
      && Has(s', id) && s'.table[id] == k && Get(s', id).status == Running
      && (id !in s.table ==> Get(s', id).startedAt == now && Get(s', id).responsePromise.None?)
      && (id in s.table ==>
            Get(s', id).startedAt == Get(s, id).startedAt && Get(s', id).responsePromise == Get(s, id).responsePromise)
  {
  }

  /** Neither the execution's status is set again nor is it resumed. */
  ghost predicate StatusLeft(s: State, steps: seq<Step>, id: ExecutionId)
    requires Legal(s, steps)
    decreases |steps|
  {
    steps == [] ||
    (&& !(steps[0].SetStatus? && steps[0].id == id)
     && !(steps[0].Register? && s.calls[steps[0].token].id == id)
     && StatusLeft(Apply(s, steps[0]), steps[1..], id))
  }

  lemma {:induction false} StatusKept(s: State, steps: seq<Step>, id: ExecutionId)
    requires Legal(s, steps) && Inv(s) && Has(s, id) && Spared(s, steps, id) && StatusLeft(s, steps, id)
    ensures Has(Run(s, steps), id) && Run(s, steps).table[id] == s.table[id]
    ensures Get(Run(s, steps), id).status == Get(s, id).status
    decreases |steps|
  {
    if steps != [] {
      InvStep(s, steps[0]);
      TableStep(s, steps[0]);
      EntryLeavesExactly(s, steps[0], id);
      RecordStep(s, steps[0], s.table[id]);
      assert !Concerns(s, steps[0], s.table[id]) || !steps[0].SetStatus?;
      StatusKept(Apply(s, steps[0]), steps[1..], id);
    }
  }

  /** The status set on an entry is found there until it is set again, or the execution is resumed or leaves. */
  lemma StatusIsFound(s: State, id: ExecutionId, status: Status, steps: seq<Step>)
    requires Inv(s) && Enabled(s, SetStatus(id, status))
    requires var s1 := Apply(s, SetStatus(id, status)); Legal(s1, steps) && Spared(s1, steps, id) && StatusLeft(s1, steps, id)
    ensures var s' := Run(Apply(s, SetStatus(id, status)), steps); Has(s', id) && Get(s', id).status == status
  {
    InvStep(s, SetStatus(id, status));
    StatusKept(Apply(s, SetStatus(id, status)), steps, id);
  }

  /** The response promise attached to an entry is found there after any number of waits and resumes. */
  lemma AttachedIsFound(s: State, id: ExecutionId, promise: int, steps: seq<Step>)
    requires Inv(s) && Enabled(s, AttachResponse(id, promise))
    requires var attached := Apply(s, AttachResponse(id, promise)); Legal(attached, steps) && Spared(attached, steps, id)
    requires forall step :: step in steps ==> !step.AttachResponse?
    ensures var s' := Run(Apply(s, AttachResponse(id, promise)), steps); Has(s', id) && Get(s', id).responsePromise == Some(promise)
  {
    InvStep(s, AttachResponse(id, promise));
    EntryKeepsItsOrigin(Apply(s, AttachResponse(id, promise)), steps, id);
  }

  /** A response mode is set by its own call and goes exactly when an entry of its execution would. */
  lemma ResponseModeStep(s: State, step: Step)
    requires Enabled(s, step)
    ensures step.SetResponseMode? ==> Apply(s, step).responseModes == s.responseModes[step.id := step.responseMode]
    ensures !step.SetResponseMode? ==> Apply(s, step).responseModes == s.responseModes - Departs(s, step)
  {
    MinusNothing(s.responseModes);
    if step.Cleanup? {
      CleanupTable(s, step.token);
    } else if !step.Register? && !step.Stop? {
      OtherStepsKeepTable(s, step);
    }
  }
}
