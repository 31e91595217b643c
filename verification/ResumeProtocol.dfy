/**
  Resuming a waiting parent execution. Any number of finished children, timers and retries, in any
  number of processes, read the parent's row, patch it, read it again and compare-and-set its status;
  none of these accesses is synchronised with the others. One step here is one database access, and a
  run is any interleaving of steps.
 */
module ResumeProtocol {
  import opened Basics

  /** How often each half of a parent resume is tried. */
  const MAX_PARENT_RESUME_ATTEMPTS := 3

  type Data = int

  /** One entry of the parent's `nodeExecutionStack`. */
  datatype Entry = Entry(node: int, input: Data, resumeError: Option<Data>, subExecution: Option<nat>)

  /** What a finished child hands to its parent; an error takes precedence over output. */
  datatype ChildResult = Failed(error: Data) | Output(data: Data) | Nothing

  datatype Status = Waiting | Running | Ended

  /**
    The parent's row. `origin` and `touched` are history: the wait whose stack this one descends
    from, and whether a child has written to the row since that wait began.
   */
  datatype Row = Row(status: Status, finished: bool, stack: seq<Entry>, origin: nat, touched: bool)

  /** A copy of the stack read from the row; `origin` and `readIn` are history. */
  datatype Snapshot = Snapshot(stack: seq<Entry>, origin: nat, readIn: nat)

  /** Where an attempt to resume the parent stands. */
  datatype Point =
    | PatchRead(attempt: nat)
    | PatchWrite(attempt: nat, snapshot: Snapshot)
    | StartRead(attempt: nat)
    | CompareAndSet(attempt: nat, snapshot: Snapshot)
    | Started
    | AlreadyResuming
    | GaveUp

  /**
    A party resuming the parent: a child with a result, or a timer without one. `patchedIn` is
    history: the wait during which its patch reached the row.
   */
  datatype Agent = Agent(result: Option<ChildResult>, point: Point, patchedIn: Option<nat>)

  /** A successful compare-and-set: in which wait, by whom, on which stack. */
  datatype Resume = Resume(wait: nat, agent: nat, snapshot: Snapshot, patchedIn: Option<nat>)

  /**
    `stacks[n]` is the stack with which the parent entered its n-th wait; `stacks[0]` is the one it
    was started with. Waits are counted from 1, so `Wait()` is 0 until the parent first waits.
   */
  datatype State = State(row: Row, agents: map<nat, Agent>, stacks: seq<seq<Entry>>, resumes: seq<Resume>) {
    function Wait(): nat { if |stacks| == 0 then 0 else |stacks| - 1 }
  }

  datatype Step =
    | Spawn(id: nat, result: Option<ChildResult>)
    | Advance(id: nat)
    | Fail(id: nat, retryable: bool)
    | FailAfter(id: nat, retryable: bool)
    | ParentWaits(stack: seq<Entry>)
    | ParentEnds(finished: bool)

  function Initial(stack: seq<Entry>): State {
    State(Row(Running, false, stack, 0, false), map[], [stack], [])
  }

  // ---------------------------------------------------------------------
  // The operations
  // ---------------------------------------------------------------------

  /** `updateParentExecutionWithChildResults`, the part between its read and its write. */
  function Patch(stack: seq<Entry>, result: ChildResult, child: nat): seq<Entry>
    requires stack != []
  {
    match result
    case Failed(e) => [stack[0].(resumeError := Some(e), subExecution := Some(child))] + stack[1..]
    case Output(d) => [stack[0].(input := d)] + stack[1..]
    case Nothing => stack
  }

  predicate HasResult(result: Option<ChildResult>) {
    result.Some? && result.value != Nothing
  }

  function Attempts(result: Option<ChildResult>): nat {
    if result.Some? then MAX_PARENT_RESUME_ATTEMPTS else 1
  }

  /** `withRetry` after a failed attempt: try the same half again, or give up. */
  function Retry(agent: Agent, retryable: bool): Agent {
    match agent.point
    case PatchRead(n) => RetryAt(agent, PatchRead(n + 1), n, retryable)
    case PatchWrite(n, _) => RetryAt(agent, PatchRead(n + 1), n, retryable)
    case StartRead(n) => RetryAt(agent, StartRead(n + 1), n, retryable)
    case CompareAndSet(n, _) => RetryAt(agent, StartRead(n + 1), n, retryable)
    case _ => agent
  }

  function RetryAt(agent: Agent, again: Point, attempt: nat, retryable: bool): Agent {
    agent.(point := if attempt >= Attempts(agent.result) || !retryable then GaveUp else again)
  }

  predicate Active(point: Point) {
    point.PatchRead? || point.PatchWrite? || point.StartRead? || point.CompareAndSet?
  }

  predicate Enabled(s: State, step: Step) {
    match step
    case Spawn(id, _) => id !in s.agents
    case Advance(id) => id in s.agents && Active(s.agents[id].point)
    case Fail(id, _) => id in s.agents && Active(s.agents[id].point)
    case FailAfter(id, _) => id in s.agents && (s.agents[id].point.PatchWrite? || s.agents[id].point.CompareAndSet?)
    case ParentWaits(_) => s.row.status == Running
    case ParentEnds(_) => s.row.status != Ended
  }

  function Take(s: State): Snapshot {
    Snapshot(s.row.stack, s.row.origin, s.Wait())
  }

  /** Where the next database access of agent `id` leaves it. */
  function Moved(s: State, id: nat): Agent
    requires id in s.agents && Active(s.agents[id].point)
  {
    var agent := s.agents[id];
    match agent.point
    case PatchRead(n) =>
      if !HasResult(agent.result) || s.row.status != Waiting || s.row.stack == []
      then agent.(point := StartRead(1))
      else agent.(point := PatchWrite(n, Take(s)))
    case PatchWrite(_, _) => agent.(point := StartRead(1), patchedIn := Some(s.Wait()))
    case StartRead(n) => agent.(point := if s.row.finished then GaveUp else CompareAndSet(n, Take(s)))
    case CompareAndSet(_, _) => agent.(point := if s.row.status == Waiting then Started else AlreadyResuming)
  }

  /** What the next database access of agent `id` does to the row: only two kinds write. */
  function Written(s: State, id: nat): Row
    requires id in s.agents && Active(s.agents[id].point)
  {
    var agent := s.agents[id];
    match agent.point
    case PatchWrite(_, snap) =>
      if HasResult(agent.result) && snap.stack != []
      then s.row.(stack := Patch(snap.stack, agent.result.value, id), origin := snap.origin, touched := true)
      else s.row
    case CompareAndSet(_, snap) =>
      if s.row.status == Waiting then s.row.(status := Running, stack := snap.stack, origin := snap.origin)
      else s.row
    case _ => s.row
  }

  function Logged(s: State, id: nat): seq<Resume>
    requires id in s.agents
  {
    var agent := s.agents[id];
    if agent.point.CompareAndSet? && s.row.status == Waiting
    then s.resumes + [Resume(s.Wait(), id, agent.point.snapshot, agent.patchedIn)]
    else s.resumes
  }

  function Apply(s: State, step: Step): State
    requires Enabled(s, step)
  {
    match step
    case Spawn(id, result) =>
      s.(agents := s.agents[id := Agent(result, if result.Some? then PatchRead(1) else StartRead(1), None)])
    case Advance(id) =>
      s.(row := Written(s, id), agents := s.agents[id := Moved(s, id)], resumes := Logged(s, id))
    case Fail(id, retryable) =>
      s.(agents := s.agents[id := Retry(s.agents[id], retryable)])
    case FailAfter(id, retryable) =>
      // the write was committed, but the caller sees an error; a refused compare-and-set is no error
      var moved := Moved(s, id);
      var agent := if moved.point.AlreadyResuming? then moved
                   else Retry(s.agents[id], retryable).(patchedIn := moved.patchedIn);
      s.(row := Written(s, id), agents := s.agents[id := agent], resumes := Logged(s, id))
    case ParentWaits(stack) =>
      s.(row := Row(Waiting, false, stack, |s.stacks|, false), stacks := s.stacks + [stack])
    case ParentEnds(finished) => s.(row := s.row.(status := Ended, finished := finished))
  }

  ghost predicate Legal(s: State, steps: seq<Step>)
    decreases |steps|
  {
    steps == [] || (Enabled(s, steps[0]) && Legal(Apply(s, steps[0]), steps[1..]))
  }

  ghost function Run(s: State, steps: seq<Step>): State
    requires Legal(s, steps)
    decreases |steps|
  {
    if steps == [] then s else Run(Apply(s, steps[0]), steps[1..])
  }

  // ---------------------------------------------------------------------
  // At most one resume per wait
  // ---------------------------------------------------------------------

  /** Resumes belong to different waits, and a wait that is still on has none. */
  ghost predicate OneResumePerWait(s: State) {
    && |s.stacks| >= 1
    && (forall i, j :: 0 <= i < j < |s.resumes| ==> s.resumes[i].wait < s.resumes[j].wait)
    && (forall r :: r in s.resumes ==> r.wait <= s.Wait())
    && (s.row.status == Waiting ==> forall r :: r in s.resumes ==> r.wait < s.Wait())
  }

  lemma OneResumePerWaitStep(s: State, step: Step)
    requires OneResumePerWait(s) && Enabled(s, step)
    ensures OneResumePerWait(Apply(s, step))
  {
  }

  // ---------------------------------------------------------------------
  // What a parent resumes with
  // ---------------------------------------------------------------------

  /** `stack` is the stack of wait `origin`, except perhaps for the data of its first entry. */
  ghost predicate Descends(stacks: seq<seq<Entry>>, stack: seq<Entry>, origin: nat) {
    && origin < |stacks|
    && |stack| == |stacks[origin]|
    && (stack != [] ==> stack[0].node == stacks[origin][0].node && stack[1..] == stacks[origin][1..])
  }

  /** The entry carries what the child `id` handed over: its output, or its error with a link to it. */
  ghost predicate Shows(entry: Entry, id: nat, result: Option<ChildResult>) {
    match result
    case Some(Failed(e)) => entry.resumeError == Some(e) && entry.subExecution == Some(id)
    case Some(Output(d)) => entry.input == d
    case _ => false
  }

  /** The stack's first entry carries the output or the error of some finished child. */
  ghost predicate FromChild(agents: map<nat, Agent>, stack: seq<Entry>) {
    stack != [] && exists id :: id in agents && Shows(stack[0], id, agents[id].result)
  }

  /** A child's result is worth a patch exactly if some entry could show it. */
  lemma ResultsThatShow(id: nat, result: Option<ChildResult>)
    ensures HasResult(result) <==> exists entry :: Shows(entry, id, result)
  {
    if HasResult(result) {
      match result.value
      case Failed(e) => assert Shows(Entry(0, 0, Some(e), Some(id)), id, result);
      case Output(d) => assert Shows(Entry(0, d, None, None), id, result);
    }
  }

  ghost predicate SnapshotOk(s: State, snap: Snapshot) {
    snap.origin <= snap.readIn < |s.stacks| && Descends(s.stacks, snap.stack, snap.origin)
  }

  ghost predicate RowOk(s: State) {
    && |s.stacks| >= 1
    && Descends(s.stacks, s.row.stack, s.row.origin)
    && (s.row.status == Waiting ==> !s.row.finished)
    && (s.row.status == Waiting && s.row.touched ==> FromChild(s.agents, s.row.stack))
  }

  ghost predicate AgentOk(s: State, agent: Agent) {
    && (agent.patchedIn.Some? ==> agent.patchedIn.value < |s.stacks|)
    && (agent.patchedIn == Some(s.Wait()) ==> s.row.touched)
    && (agent.point.PatchWrite? ==>
          HasResult(agent.result) && agent.point.snapshot.stack != [] && SnapshotOk(s, agent.point.snapshot))
    && (agent.point.CompareAndSet? ==>
          var snap := agent.point.snapshot;
          && SnapshotOk(s, snap)
          && (s.row.status == Waiting && agent.patchedIn == Some(s.Wait()) && snap.readIn == s.Wait()
              ==> FromChild(s.agents, snap.stack)))
  }

  ghost predicate ResumeOk(s: State, r: Resume) {
    && SnapshotOk(s, r.snapshot)
    && (r.patchedIn == Some(r.wait) && r.snapshot.readIn == r.wait ==> FromChild(s.agents, r.snapshot.stack))
  }

  ghost predicate Consistent(s: State) {
    && RowOk(s)
    && (forall id :: id in s.agents ==> AgentOk(s, s.agents[id]))
    && (forall r :: r in s.resumes ==> ResumeOk(s, r))
  }

  /** Later states keep every stack and every child's result. */
  ghost predicate Grows(s: State, s': State) {
    && s.stacks <= s'.stacks
    && (forall id :: id in s.agents ==> id in s'.agents && s'.agents[id].result == s.agents[id].result)
  }

  lemma StepGrows(s: State, step: Step)
    requires Enabled(s, step)
    ensures Grows(s, Apply(s, step))
  {
  }

  lemma FromChildGrows(s: State, s': State, stack: seq<Entry>)
    requires Grows(s, s') && FromChild(s.agents, stack)
    ensures FromChild(s'.agents, stack)
  {
  }

  /** A patch changes the first entry only, and leaves the child's mark there. */
  lemma PatchShows(s: State, snap: Snapshot, id: nat)
    requires id in s.agents && HasResult(s.agents[id].result) && snap.stack != [] && SnapshotOk(s, snap)
    ensures var patched := Patch(snap.stack, s.agents[id].result.value, id);
      Descends(s.stacks, patched, snap.origin) && FromChild(s.agents, patched)
  {
  }

  lemma RowOkStep(s: State, step: Step)
    requires Consistent(s) && Enabled(s, step)
    ensures RowOk(Apply(s, step))
  {
    var s' := Apply(s, step);
    StepGrows(s, step);
    if (step.Advance? || step.FailAfter?) && s.agents[step.id].point.PatchWrite? {
      var snap := s.agents[step.id].point.snapshot;
      assert AgentOk(s, s.agents[step.id]);
      PatchShows(s, snap, step.id);
      FromChildGrows(s, s', s'.row.stack);
    } else if s'.row.status == Waiting && s'.row.touched {
      FromChildGrows(s, s', s.row.stack);
    }
  }

  /** An agent that did not move is not upset by what the others do to the row. */
  lemma BystanderOk(s: State, step: Step, agent: Agent)
    requires Consistent(s) && Enabled(s, step) && AgentOk(s, agent)
    ensures AgentOk(Apply(s, step), agent)
  {
    var s' := Apply(s, step);
    StepGrows(s, step);
    if agent.point.CompareAndSet? && FromChild(s.agents, agent.point.snapshot.stack) {
      FromChildGrows(s, s', agent.point.snapshot.stack);
    }
  }

  /** The agent that moved: what it has just read satisfies what the row satisfied. */
  lemma MoverOk(s: State, step: Step)
    requires Consistent(s) && Enabled(s, step)
    requires step.Advance? || step.Fail? || step.FailAfter?
    ensures AgentOk(Apply(s, step), Apply(s, step).agents[step.id])
  {
    var s' := Apply(s, step);
    StepGrows(s, step);
    assert AgentOk(s, s.agents[step.id]);
    if step.Advance? && s.agents[step.id].point.StartRead? && s.row.status == Waiting && s.row.touched {
      FromChildGrows(s, s', s.row.stack);
    }
  }

  lemma ResumesOkStep(s: State, step: Step)
    requires Consistent(s) && Enabled(s, step)
    ensures forall r :: r in Apply(s, step).resumes ==> ResumeOk(Apply(s, step), r)
  {
    var s' := Apply(s, step);
    StepGrows(s, step);
    forall r | r in s'.resumes ensures ResumeOk(s', r) {
      if r in s.resumes {
        assert ResumeOk(s, r);
      } else {
        assert AgentOk(s, s.agents[step.id]);
        assert r == s'.resumes[|s.resumes|];
      }
      if FromChild(s.agents, r.snapshot.stack) {
        FromChildGrows(s, s', r.snapshot.stack);
      }
    }
  }

  lemma ConsistentStep(s: State, step: Step)
    requires Consistent(s) && Enabled(s, step)
    ensures Consistent(Apply(s, step))
  {
    var s' := Apply(s, step);
    RowOkStep(s, step);
    ResumesOkStep(s, step);
    forall id | id in s'.agents ensures AgentOk(s', s'.agents[id]) {
      if id in s.agents && s'.agents[id] == s.agents[id] {
        BystanderOk(s, step, s.agents[id]);
      } else if id in s.agents {
        MoverOk(s, step);
      }
    }
  }

  lemma {:induction false} RunKeeps(s: State, steps: seq<Step>)
    requires Legal(s, steps) && Consistent(s) && OneResumePerWait(s)
    ensures Consistent(Run(s, steps)) && OneResumePerWait(Run(s, steps))
    decreases |steps|
  {
    if steps != [] {
      ConsistentStep(s, steps[0]);
      OneResumePerWaitStep(s, steps[0]);
      RunKeeps(Apply(s, steps[0]), steps[1..]);
    }
  }

  /**
    For every interleaving of any number of children, timers and retries: no wait is resumed twice,
    whatever is resumed differs from the stack of some wait in its first entry only, and a child that
    patched and re-read the row during the wait it ends resumes the parent on some child's result,
    even when other children's updates were lost. If every wait begins with a stack and with nobody past his
    patch who would resume it without a result, every winner with a result resumes the parent on one.
   */
  lemma ResumeSafety(stack: seq<Entry>, steps: seq<Step>)
    requires Legal(Initial(stack), steps)
    ensures var s := Run(Initial(stack), steps);
      && (forall i, j :: 0 <= i < j < |s.resumes| ==> s.resumes[i].wait != s.resumes[j].wait)
      && (forall r :: r in s.resumes ==> Descends(s.stacks, r.snapshot.stack, r.snapshot.origin))
      && (forall r :: r in s.resumes && r.patchedIn == Some(r.wait) && r.snapshot.readIn == r.wait
            ==> FromChild(s.agents, r.snapshot.stack))
      && (WaitsCarry(Initial(stack), steps) ==> CarriedSince(s, 0))
  {
    RunKeeps(Initial(stack), steps);
    if WaitsCarry(Initial(stack), steps) {
      CarriedInRun(Initial(stack), steps, 0);
    }
    var s := Run(Initial(stack), steps);
    forall r | r in s.resumes
      ensures Descends(s.stacks, r.snapshot.stack, r.snapshot.origin)
      ensures r.patchedIn == Some(r.wait) && r.snapshot.readIn == r.wait ==> FromChild(s.agents, r.snapshot.stack)
    {
      assert ResumeOk(s, r);
    }
  }

  // ---------------------------------------------------------------------
  // Where every part of a resumed stack comes from
  // ---------------------------------------------------------------------

  /**
    Each part of the entry is the wait's own or some child's: its data, and its error together with the
    link to the child that failed. The node is always the wait's own.
   */
  ghost predicate Traced(agents: map<nat, Agent>, entry: Entry, own: Entry) {
    && entry.node == own.node
    && (entry.input == own.input || exists id :: id in agents && agents[id].result == Some(Output(entry.input)))
    && ((entry.resumeError == own.resumeError && entry.subExecution == own.subExecution) || FromFailure(agents, entry))
  }

  ghost predicate FromFailure(agents: map<nat, Agent>, entry: Entry) {
    exists id :: id in agents && agents[id].result.Some? && agents[id].result.value.Failed? && Shows(entry, id, agents[id].result)
  }

  ghost predicate StackTraced(s: State, stack: seq<Entry>, origin: nat) {
    && origin < |s.stacks| && |stack| == |s.stacks[origin]|
    && (stack != [] ==> Traced(s.agents, stack[0], s.stacks[origin][0]))
  }

  /** Every stack in circulation: the row's, every copy held, and every one resumed with. */
  ghost predicate AllTraced(s: State) {
    && StackTraced(s, s.row.stack, s.row.origin)
    && (forall id :: id in s.agents && Holds(s.agents[id]) ==>
          StackTraced(s, s.agents[id].point.snapshot.stack, s.agents[id].point.snapshot.origin))
    && (forall r :: r in s.resumes ==> StackTraced(s, r.snapshot.stack, r.snapshot.origin))
  }

  lemma TracedGrows(s: State, s': State, stack: seq<Entry>, origin: nat)
    requires Grows(s, s') && StackTraced(s, stack, origin)
    ensures StackTraced(s', stack, origin)
  {
  }

  /** A patch replaces the data or the error of the first entry, and leaves the other, the node and the rest. */
  lemma PatchTraced(s: State, snap: Snapshot, id: nat)
    requires id in s.agents && HasResult(s.agents[id].result) && snap.stack != []
    requires StackTraced(s, snap.stack, snap.origin)
    ensures var patched := Patch(snap.stack, s.agents[id].result.value, id);
      && StackTraced(s, patched, snap.origin)
      && patched[0].node == snap.stack[0].node && patched[1..] == snap.stack[1..]
      && (s.agents[id].result.value.Output? ==>
            patched[0].resumeError == snap.stack[0].resumeError && patched[0].subExecution == snap.stack[0].subExecution)
      && (s.agents[id].result.value.Failed? ==> patched[0].input == snap.stack[0].input)
  {
    var patched := Patch(snap.stack, s.agents[id].result.value, id);
    if s.agents[id].result.value.Failed? {
      assert Shows(patched[0], id, s.agents[id].result);
    }
  }

  lemma RowTracedStep(s: State, step: Step)
    requires Consistent(s) && AllTraced(s) && Enabled(s, step)
    ensures StackTraced(Apply(s, step), Apply(s, step).row.stack, Apply(s, step).row.origin)
  {
    var s' := Apply(s, step);
    StepGrows(s, step);
    TracedGrows(s, s', s.row.stack, s.row.origin);
    if (step.Advance? || step.FailAfter?) && Holds(s.agents[step.id]) {
      var snap := s.agents[step.id].point.snapshot;
      assert AgentOk(s, s.agents[step.id]);
      TracedGrows(s, s', snap.stack, snap.origin);
      if s.agents[step.id].point.PatchWrite? {
        PatchTraced(s, snap, step.id);
        TracedGrows(s, s', s'.row.stack, s'.row.origin);
      }
    }
  }

  lemma TracedStep(s: State, step: Step)
    requires Consistent(s) && AllTraced(s) && Enabled(s, step)
    ensures AllTraced(Apply(s, step))
  {
    var s' := Apply(s, step);
    StepGrows(s, step);
    RowTracedStep(s, step);
    TracedGrows(s, s', s.row.stack, s.row.origin);
    forall id | id in s'.agents && Holds(s'.agents[id])
      ensures StackTraced(s', s'.agents[id].point.snapshot.stack, s'.agents[id].point.snapshot.origin)
    {
      if id in s.agents && s'.agents[id] == s.agents[id] {
        TracedGrows(s, s', s.agents[id].point.snapshot.stack, s.agents[id].point.snapshot.origin);
      }
    }
    forall r | r in s'.resumes ensures StackTraced(s', r.snapshot.stack, r.snapshot.origin) {
      if r !in s.resumes {
        assert r == s'.resumes[|s.resumes|];
      }
      TracedGrows(s, s', r.snapshot.stack, r.snapshot.origin);
    }
  }

  lemma {:induction false} RunTraced(s: State, steps: seq<Step>)
    requires Legal(s, steps) && Consistent(s) && AllTraced(s)
    ensures AllTraced(Run(s, steps))
    decreases |steps|
  {
    if steps != [] {
      ConsistentStep(s, steps[0]);
      TracedStep(s, steps[0]);
      RunTraced(Apply(s, steps[0]), steps[1..]);
    }
  }

  /** For every interleaving: whatever the parent is resumed with is made of its own wait's stack and of children's results. */
  lemma ResumesAreTraced(stack: seq<Entry>, steps: seq<Step>)
    requires Legal(Initial(stack), steps)
    ensures var s := Run(Initial(stack), steps);
      && (forall r :: r in s.resumes ==>
            Descends(s.stacks, r.snapshot.stack, r.snapshot.origin) && StackTraced(s, r.snapshot.stack, r.snapshot.origin))
      && Descends(s.stacks, s.row.stack, s.row.origin) && StackTraced(s, s.row.stack, s.row.origin)
  {
    RunKeeps(Initial(stack), steps);
    RunTraced(Initial(stack), steps);
    ResumeSafety(stack, steps);
  }

  // ---------------------------------------------------------------------
  // Attempts that lose, and attempts that end
  // ---------------------------------------------------------------------

  /**
    Once a wait has been resumed, every further compare-and-set during that wait is refused: the row
    and the resumes stay as they are, the agent stops, and no error makes it retry. So a retry after a
    failure that followed a successful compare-and-set cannot start the parent a second time.
   */
  lemma LaterAttemptsRefused(s: State, step: Step)
    requires OneResumePerWait(s) && Enabled(s, step)
    requires exists r :: r in s.resumes && r.wait == s.Wait()
    requires step.Advance? || step.FailAfter?
    requires s.agents[step.id].point.CompareAndSet?
    ensures Apply(s, step).row == s.row && Apply(s, step).resumes == s.resumes
    ensures Apply(s, step).agents[step.id].point == AlreadyResuming
  {
  }

  ghost predicate StartedSince(s: State, later: State, id: nat) {
    && id in later.agents && later.agents[id].point == Started
    && !(id in s.agents && s.agents[id].point == Started)
  }

  /** What a stretch of steps within one wait adds to the log: only resumes of that wait, and one for each starter. */
  ghost predicate LogsThisWait(s: State, later: State) {
    && s.resumes <= later.resumes
    && (forall i :: |s.resumes| <= i < |later.resumes| ==> later.resumes[i].wait == s.Wait())
    && (forall id :: StartedSince(s, later, id) ==>
          exists i :: |s.resumes| <= i < |later.resumes| && later.resumes[i].agent == id)
  }

  lemma StepLogsThisWait(s: State, step: Step)
    requires Enabled(s, step) && !step.ParentWaits?
    ensures LogsThisWait(s, Apply(s, step)) && Apply(s, step).stacks == s.stacks
  {
    var s' := Apply(s, step);
    forall id | StartedSince(s, s', id) ensures exists i :: |s.resumes| <= i < |s'.resumes| && s'.resumes[i].agent == id {
      assert s'.resumes[|s.resumes|].agent == id;
    }
  }

  lemma LogsCompose(s: State, mid: State, later: State)
    requires LogsThisWait(s, mid) && LogsThisWait(mid, later) && mid.stacks == s.stacks
    ensures LogsThisWait(s, later)
  {
    forall id | StartedSince(s, later, id)
      ensures exists i :: |s.resumes| <= i < |later.resumes| && later.resumes[i].agent == id
    {
      if StartedSince(mid, later, id) {
        var i :| |mid.resumes| <= i < |later.resumes| && later.resumes[i].agent == id;
      } else {
        assert StartedSince(s, mid, id);
        var i :| |s.resumes| <= i < |mid.resumes| && mid.resumes[i].agent == id;
        assert later.resumes[i] == mid.resumes[i];
      }
    }
  }

  lemma {:induction false} RunLogsThisWait(s: State, steps: seq<Step>)
    requires Legal(s, steps) && SameWait(steps)
    ensures LogsThisWait(s, Run(s, steps))
    decreases |steps|
  {
    if steps != [] {
      assert steps[0] in steps;
      StepLogsThisWait(s, steps[0]);
      RunLogsThisWait(Apply(s, steps[0]), steps[1..]);
      LogsCompose(s, Apply(s, steps[0]), Run(s, steps));
    }
  }

  lemma LaterResumeLaterWait(s: State, i: int, j: int)
    requires OneResumePerWait(s) && 0 <= i < j < |s.resumes|
    ensures s.resumes[i].wait < s.resumes[j].wait
  {
  }

  lemma OneLogEntryPerWait(s: State, later: State)
    requires OneResumePerWait(later) && LogsThisWait(s, later)
    ensures |later.resumes| <= |s.resumes| + 1
  {
    var n := |s.resumes|;
    if n + 1 < |later.resumes| {
      LaterResumeLaterWait(later, n, n + 1);
      assert false;
    }
  }

  lemma OneNewStarter(s: State, later: State, id: nat, other: nat)
    requires OneResumePerWait(later) && LogsThisWait(s, later)
    requires StartedSince(s, later, id) && StartedSince(s, later, other)
    ensures id == other
  {
  }

  /** However many children, timers and retries race during one wait, at most one of them starts the parent. */
  lemma OneStarterPerWait(s: State, steps: seq<Step>, id: nat, other: nat)
    requires Consistent(s) && OneResumePerWait(s) && Legal(s, steps) && SameWait(steps)
    ensures |Run(s, steps).resumes| <= |s.resumes| + One(s.row.status == Waiting)
    ensures StartedSince(s, Run(s, steps), id) && StartedSince(s, Run(s, steps), other) ==> id == other
  {
    var later := Run(s, steps);
    RunKeeps(s, steps);
    RunLogsThisWait(s, steps);
    OneLogEntryPerWait(s, later);
    if s.row.status != Waiting {
      NoResumeUnlessWaiting(s, steps);
    }
    if StartedSince(s, later, id) && StartedSince(s, later, other) {
      OneNewStarter(s, later, id, other);
    }
  }

  lemma {:induction false} NoResumeUnlessWaiting(s: State, steps: seq<Step>)
    requires Legal(s, steps) && SameWait(steps) && s.row.status != Waiting
    ensures Run(s, steps).resumes == s.resumes
    decreases |steps|
  {
    if steps != [] {
      assert steps[0] in steps;
      NoResumeUnlessWaiting(Apply(s, steps[0]), steps[1..]);
    }
  }

  predicate StepOf(step: Step, id: nat) {
    (step.Advance? || step.Fail? || step.FailAfter?) && step.id == id
  }

  ghost predicate PointInRange(agent: Agent) {
    Active(agent.point) ==> 1 <= agent.point.attempt <= Attempts(agent.result)
  }

  /** How many more database accesses an agent can make: two for every attempt at either half. */
  ghost function Budget(agent: Agent): nat
    requires PointInRange(agent)
  {
    var attempts := Attempts(agent.result);
    match agent.point
    case PatchRead(n) => 2 * attempts + 2 * (attempts + 1 - n)
    case PatchWrite(n, _) => 2 * attempts + 2 * (attempts + 1 - n) - 1
    case StartRead(n) => 2 * (attempts + 1 - n)
    case CompareAndSet(n, _) => 2 * (attempts + 1 - n) - 1
    case _ => 0
  }

  /** Each of an agent's own steps uses up budget, and nobody else's step touches it. */
  lemma AgentsEnd(s: State, step: Step, id: nat)
    requires Enabled(s, step) && id in s.agents && PointInRange(s.agents[id])
    ensures PointInRange(Apply(s, step).agents[id])
    ensures StepOf(step, id) ==> Budget(Apply(s, step).agents[id]) < Budget(s.agents[id])
    ensures !StepOf(step, id) ==> Apply(s, step).agents[id] == s.agents[id]
  {
  }

  /** How many of the steps are the agent's own. */
  function OwnSteps(steps: seq<Step>, id: nat): nat {
    if steps == [] then 0 else One(StepOf(steps[0], id)) + OwnSteps(steps[1..], id)
  }

  lemma {:induction false} BudgetBoundsSteps(s: State, steps: seq<Step>, id: nat)
    requires Legal(s, steps) && id in s.agents && PointInRange(s.agents[id])
    ensures id in Run(s, steps).agents && PointInRange(Run(s, steps).agents[id])
    ensures OwnSteps(steps, id) + Budget(Run(s, steps).agents[id]) <= Budget(s.agents[id])
    decreases |steps|
  {
    if steps != [] {
      AgentsEnd(s, steps[0], id);
      BudgetBoundsSteps(Apply(s, steps[0]), steps[1..], id);
    }
  }

  /** In every run every attempt to resume the parent ends: a child makes at most 12 database accesses, a timer at most 2. */
  lemma {:induction false} AttemptsEnd(s: State, steps: seq<Step>, id: nat)
    requires Legal(s, steps) && id !in s.agents
    ensures OwnSteps(steps, id) <= 12
    ensures id in Run(s, steps).agents && Run(s, steps).agents[id].result.None? ==> OwnSteps(steps, id) <= 2
    decreases |steps|
  {
    if steps != [] {
      var s' := Apply(s, steps[0]);
      if id in s'.agents {
        BudgetBoundsSteps(s', steps[1..], id);
        ResultsKept(s', steps[1..], id);
      } else {
        AttemptsEnd(s', steps[1..], id);
      }
    }
  }

  lemma {:induction false} ResultsKept(s: State, steps: seq<Step>, id: nat)
    requires Legal(s, steps) && id in s.agents
    ensures id in Run(s, steps).agents && Run(s, steps).agents[id].result == s.agents[id].result
    decreases |steps|
  {
    if steps != [] {
      StepGrows(s, steps[0]);
      ResultsKept(Apply(s, steps[0]), steps[1..], id);
    }
  }

  /** An access that fails leaves row and resumes alone, and the party tries that half again or gives up, exactly so. */
  lemma RetriesExactly(s: State, id: nat, retryable: bool)
    requires Enabled(s, Fail(id, retryable)) && PointInRange(s.agents[id])
    ensures var s', agent := Apply(s, Fail(id, retryable)), s.agents[id];
      var patching, next := agent.point.PatchRead? || agent.point.PatchWrite?, agent.point.attempt + 1;
      && s'.row == s.row && s'.resumes == s.resumes
      && (s'.agents[id].point == GaveUp <==> !retryable || next > if agent.result.Some? then 3 else 1)
      && (s'.agents[id].point != GaveUp ==> s'.agents[id].point == if patching then PatchRead(next) else StartRead(next))
  {
  }

  /** An error seen after a write does not undo it: row and resumes are as if the access had gone well. */
  lemma CommittedDespiteError(s: State, id: nat, retryable: bool)
    requires Enabled(s, FailAfter(id, retryable))
    ensures Enabled(s, Advance(id))
    ensures var failed, moved := Apply(s, FailAfter(id, retryable)), Apply(s, Advance(id));
      failed.row == moved.row && failed.resumes == moved.resumes && failed.stacks == moved.stacks
  {
  }

  /** Whoever resumes the parent leaves in the row the stack it resumed with; whoever reads a finished parent gives up. */
  lemma ResumeIsWritten(s: State, id: nat)
    requires Enabled(s, Advance(id))
    ensures var s', point := Apply(s, Advance(id)), s.agents[id].point;
      && (point.CompareAndSet? && s.row.status == Waiting ==>
            s'.row.status == Running && s'.row.stack == point.snapshot.stack && s'.agents[id].point == Started)
      && (point.StartRead? ==> (s'.agents[id].point == GaveUp <==> s.row.finished))
  {
  }

  /** A child goes on to patch exactly if it has a result and finds the parent waiting with a stack; else it goes on to start it. */
  lemma PatchesExactly(s: State, id: nat)
    requires Enabled(s, Advance(id)) && s.agents[id].point.PatchRead?
    ensures var point := Apply(s, Advance(id)).agents[id].point;
      && Apply(s, Advance(id)).row == s.row
      && (point.PatchWrite? <==> HasResult(s.agents[id].result) && s.row.status == Waiting && s.row.stack != [])
      && (point.PatchWrite? ==> point.snapshot.stack == s.row.stack)
      && (!point.PatchWrite? ==> point == StartRead(1))
  {
  }

  /** What the parent's own steps leave in the row. */
  lemma ParentWritesRow(s: State, step: Step)
    requires Enabled(s, step)
    ensures step.ParentWaits? ==>
      var row := Apply(s, step).row; row.status == Waiting && !row.finished && row.stack == step.stack
    ensures step.ParentEnds? ==>
      var row := Apply(s, step).row; row.status == Ended && row.finished == step.finished && row.stack == s.row.stack
    ensures step.ParentWaits? || step.ParentEnds? ==> Apply(s, step).agents == s.agents && Apply(s, step).resumes == s.resumes
  {
  }

  /** A parent that has ended is never resumed again, whatever is still under way. */
  lemma {:induction false} EndedStaysEnded(s: State, steps: seq<Step>)
    requires Legal(s, steps) && s.row.status == Ended
    ensures Run(s, steps).row.status == Ended && Run(s, steps).resumes == s.resumes
    ensures Run(s, steps).row.finished == s.row.finished && Run(s, steps).stacks == s.stacks
    decreases |steps|
  {
    if steps != [] {
      EndedStaysEnded(Apply(s, steps[0]), steps[1..]);
    }
  }

  // ---------------------------------------------------------------------
  // When the resumed stack is that of the wait being ended
  // ---------------------------------------------------------------------

  predicate Holds(agent: Agent) {
    agent.point.PatchWrite? || agent.point.CompareAndSet?
  }

  /** Nobody still holds a copy of the row read before the present wait began. */
  ghost predicate NothingHeldOver(s: State) {
    && s.row.origin == s.Wait()
    && forall id :: id in s.agents && Holds(s.agents[id]) ==> s.agents[id].point.snapshot.origin == s.Wait()
  }

  ghost predicate SameWait(steps: seq<Step>) {
    forall step :: step in steps ==> !step.ParentWaits?
  }

  /** However the present wait goes on, whoever ends it resumes its stack and not an earlier one. */
  ghost predicate AlwaysFresh(s: State) {
    forall steps :: Legal(s, steps) && SameWait(steps) ==> FreshSince(s, Run(s, steps))
  }

  ghost predicate FreshSince(s: State, later: State) {
    forall i :: |s.resumes| <= i < |later.resumes| ==>
      later.resumes[i].snapshot.origin == s.Wait() == later.resumes[i].wait
  }

  lemma {:induction false} NothingHeldOverStays(s: State, steps: seq<Step>)
    requires Legal(s, steps) && SameWait(steps) && |s.stacks| >= 1 && NothingHeldOver(s)
    ensures FreshSince(s, Run(s, steps)) && s.resumes <= Run(s, steps).resumes
    decreases |steps|
  {
    if steps != [] {
      assert steps[0] in steps;
      var s' := Apply(s, steps[0]);
      assert NothingHeldOver(s') && s'.Wait() == s.Wait();
      assert s.resumes <= s'.resumes && FreshSince(s, s');
      NothingHeldOverStays(s', steps[1..]);
    }
  }

  lemma {:induction false} OneMoreStep(s: State, steps: seq<Step>, step: Step)
    requires Legal(s, steps) && Enabled(Run(s, steps), step)
    ensures Legal(s, steps + [step]) && Run(s, steps + [step]) == Apply(Run(s, steps), step)
    decreases |steps|
  {
    if steps == [] {
      assert [step][1..] == [];
    } else {
      assert (steps + [step])[1..] == steps[1..] + [step];
      OneMoreStep(Apply(s, steps[0]), steps[1..], step);
    }
  }

  /** An agent that re-reads the row, or has read it, can end the wait on what it read. */
  lemma EndWaitFromRead(s: State, steps: seq<Step>, id: nat)
    requires Legal(s, steps) && SameWait(steps)
    requires var now := Run(s, steps);
      now.row.status == Waiting && !now.row.finished && now.Wait() == s.Wait() && now.resumes == s.resumes
      && now.row.origin != s.Wait() && id in now.agents && now.agents[id].point.StartRead?
    ensures !AlwaysFresh(s)
  {
    OneMoreStep(s, steps, Advance(id));
    var read := steps + [Advance(id)];
    OneMoreStep(s, read, Advance(id));
    var all := read + [Advance(id)];
    assert SameWait(all);
    assert Run(s, all).resumes[|s.resumes|].snapshot.origin != s.Wait();
    assert !FreshSince(s, Run(s, all));
  }

  lemma StaleCopyEndsWait(s: State, id: nat)
    requires Consistent(s) && s.row.status == Waiting
    requires id in s.agents && Holds(s.agents[id]) && s.agents[id].point.snapshot.origin != s.Wait()
    ensures !AlwaysFresh(s)
  {
    OneMoreStep(s, [], Advance(id));
    var steps := [] + [Advance(id)];
    assert SameWait(steps);
    assert AgentOk(s, s.agents[id]);
    if s.agents[id].point.PatchWrite? {
      EndWaitFromRead(s, steps, id);
    } else {
      assert Run(s, steps).resumes[|s.resumes|].snapshot.origin != s.Wait();
      assert !FreshSince(s, Run(s, steps));
    }
  }

  lemma StaleRowEndsWait(s: State)
    requires Consistent(s) && s.row.status == Waiting && s.row.origin != s.Wait()
    ensures !AlwaysFresh(s)
  {
    var id := UnusedId(s.agents.Keys);
    OneMoreStep(s, [], Spawn(id, None));
    var steps := [] + [Spawn(id, None)];
    assert SameWait(steps);
    EndWaitFromRead(s, steps, id);
  }

  /**
    The exact condition: a parent that is waiting is sure to be resumed on the stack of this very wait
    if and only if no copy of its row from before this wait is still being held or has been written back.
   */
  lemma FreshExactlyWhenNothingHeldOver(s: State)
    requires Consistent(s) && s.row.status == Waiting
    ensures AlwaysFresh(s) <==> NothingHeldOver(s)
  {
    if NothingHeldOver(s) {
      forall steps | Legal(s, steps) && SameWait(steps) ensures FreshSince(s, Run(s, steps)) {
        NothingHeldOverStays(s, steps);
      }
    } else if s.row.origin != s.Wait() {
      StaleRowEndsWait(s);
    } else {
      var id :| id in s.agents && Holds(s.agents[id]) && s.agents[id].point.snapshot.origin != s.Wait();
      StaleCopyEndsWait(s, id);
    }
  }

  lemma FreshResumeOk(s: State, later: State, i: nat)
    requires Consistent(later) && FreshSince(s, later) && later.stacks == s.stacks && |s.stacks| >= 1
    requires |s.resumes| <= i < |later.resumes|
    ensures var r := later.resumes[i];
      && r.wait == s.Wait()
      && Descends(later.stacks, r.snapshot.stack, r.wait)
      && (r.patchedIn == Some(r.wait) ==> FromChild(later.agents, r.snapshot.stack))
  {
    assert ResumeOk(later, later.resumes[i]);
  }

  /**
    With nothing held over, whoever ends the wait resumes the stack of that wait with only its first
    entry changed, and a child whose patch arrived during the wait resumes it on some child's result. So does
    any child with a result unless one stood past its patch without.
   */
  lemma FreshResume(s: State, steps: seq<Step>)
    requires Consistent(s) && OneResumePerWait(s) && NothingHeldOver(s)
    requires Legal(s, steps) && SameWait(steps)
    ensures s.row.status == Waiting && Carries(s) ==> CarriedSince(Run(s, steps), |s.resumes|)
    ensures var later := Run(s, steps);
      forall i :: |s.resumes| <= i < |later.resumes| ==>
        var r := later.resumes[i];
        && r.wait == s.Wait()
        && Descends(later.stacks, r.snapshot.stack, r.wait)
        && (r.patchedIn == Some(r.wait) ==> FromChild(later.agents, r.snapshot.stack))
  {
    var later := Run(s, steps);
    if s.row.status == Waiting && Carries(s) {
      CarriedExactly(s);
    }
    NothingHeldOverStays(s, steps);
    RunKeeps(s, steps);
    StacksKept(s, steps);
    forall i | |s.resumes| <= i < |later.resumes|
      ensures var r := later.resumes[i];
        && r.wait == s.Wait()
        && Descends(later.stacks, r.snapshot.stack, r.wait)
        && (r.patchedIn == Some(r.wait) ==> FromChild(later.agents, r.snapshot.stack))
    {
      FreshResumeOk(s, later, i);
    }
  }

  lemma {:induction false} StacksKept(s: State, steps: seq<Step>)
    requires Legal(s, steps) && SameWait(steps)
    ensures Run(s, steps).stacks == s.stacks
    decreases |steps|
  {
    if steps != [] {
      assert steps[0] in steps;
      StacksKept(Apply(s, steps[0]), steps[1..]);
    }
  }

  // ---------------------------------------------------------------------
  // When a winner with a result resumes the parent on some child's result
  // ---------------------------------------------------------------------

  /**
    What an agent past its patch would resume the parent on. Before its patch there is nothing to ask for:
    the patch will put its result into the row.
   */
  ghost predicate AgentCarries(s: State, agent: Agent) {
    HasResult(agent.result) ==>
      match agent.point
      case StartRead(_) => FromChild(s.agents, s.row.stack)
      case CompareAndSet(n, snap) =>
        FromChild(s.agents, snap.stack) && (n < MAX_PARENT_RESUME_ATTEMPTS ==> FromChild(s.agents, s.row.stack))
      case _ => true
  }

  /**
    The waiting parent has a stack to patch, and no child with a result stands past its patch with a copy,
    or with a read still to come, that shows no child's result.
   */
  ghost predicate Carries(s: State) {
    s.row.stack != [] && forall id :: id in s.agents ==> AgentCarries(s, s.agents[id])
  }

  /** From the n-th resume on: a winner with a result resumed the parent on some child's output or error. */
  ghost predicate CarriedSince(s: State, n: nat) {
    forall i :: n <= i < |s.resumes| ==>
      && s.resumes[i].agent in s.agents
      && (HasResult(s.agents[s.resumes[i].agent].result) ==> FromChild(s.agents, s.resumes[i].snapshot.stack))
  }

  ghost predicate AlwaysCarried(s: State) {
    forall steps :: Legal(s, steps) && SameWait(steps) ==> CarriedSince(Run(s, steps), |s.resumes|)
  }

  /** While the parent waits, a row that shows a child's result goes on showing one. */
  lemma RowGoesOnShowing(s: State, step: Step)
    requires Consistent(s) && Enabled(s, step) && Apply(s, step).row.status == Waiting && !step.ParentWaits?
    ensures FromChild(s.agents, s.row.stack) ==> FromChild(Apply(s, step).agents, Apply(s, step).row.stack)
    ensures s.row.stack != [] ==> Apply(s, step).row.stack != []
    ensures (step.Advance? || step.FailAfter?) && s.agents[step.id].point.PatchWrite?
      ==> FromChild(Apply(s, step).agents, Apply(s, step).row.stack)
  {
    var s' := Apply(s, step);
    StepGrows(s, step);
    if (step.Advance? || step.FailAfter?) && s.agents[step.id].point.PatchWrite? {
      assert AgentOk(s, s.agents[step.id]);
      PatchShows(s, s.agents[step.id].point.snapshot, step.id);
      FromChildGrows(s, s', s'.row.stack);
    } else if FromChild(s.agents, s.row.stack) {
      FromChildGrows(s, s', s.row.stack);
    }
  }

  lemma BystanderCarries(s: State, step: Step, agent: Agent)
    requires Consistent(s) && Enabled(s, step) && Apply(s, step).row.status == Waiting && !step.ParentWaits?
    requires AgentCarries(s, agent)
    ensures AgentCarries(Apply(s, step), agent)
  {
    StepGrows(s, step);
    RowGoesOnShowing(s, step);
    if agent.point.CompareAndSet? && FromChild(s.agents, agent.point.snapshot.stack) {
      FromChildGrows(s, Apply(s, step), agent.point.snapshot.stack);
    }
  }

  lemma MoverCarries(s: State, step: Step)
    requires Consistent(s) && Carries(s) && s.row.status == Waiting
    requires Enabled(s, step) && Apply(s, step).row.status == Waiting
    requires step.Advance? || step.Fail? || step.FailAfter?
    ensures AgentCarries(Apply(s, step), Apply(s, step).agents[step.id])
  {
    RowGoesOnShowing(s, step);
    assert AgentCarries(s, s.agents[step.id]);
  }

  lemma CarriesStep(s: State, step: Step)
    requires Consistent(s) && Carries(s) && s.row.status == Waiting
    requires Enabled(s, step) && Apply(s, step).row.status == Waiting && !step.ParentWaits?
    ensures Carries(Apply(s, step))
  {
    var s' := Apply(s, step);
    RowGoesOnShowing(s, step);
    forall id | id in s'.agents ensures AgentCarries(s', s'.agents[id]) {
      if id in s.agents && s'.agents[id] == s.agents[id] {
        BystanderCarries(s, step, s.agents[id]);
      } else if id in s.agents {
        MoverCarries(s, step);
      }
    }
  }

  lemma CarriedStep(s: State, step: Step, n: nat)
    requires Consistent(s) && Enabled(s, step) && CarriedSince(s, n) && (s.row.status == Waiting ==> Carries(s))
    ensures CarriedSince(Apply(s, step), n)
  {
    var s' := Apply(s, step);
    StepGrows(s, step);
    forall i | n <= i < |s'.resumes|
      ensures s'.resumes[i].agent in s'.agents
      ensures HasResult(s'.agents[s'.resumes[i].agent].result) ==> FromChild(s'.agents, s'.resumes[i].snapshot.stack)
    {
      if i < |s.resumes| {
        assert s'.resumes[i] == s.resumes[i];
      } else {
        assert AgentCarries(s, s.agents[step.id]);
      }
      if FromChild(s.agents, s'.resumes[i].snapshot.stack) {
        FromChildGrows(s, s', s'.resumes[i].snapshot.stack);
      }
    }
  }

  /** Every wait of the run begins with nobody past its patch who would resume it without a result. */
  ghost predicate WaitsCarry(s: State, steps: seq<Step>)
    requires Legal(s, steps)
    decreases |steps|
  {
    steps != [] ==>
      && (steps[0].ParentWaits? ==> Carries(Apply(s, steps[0])))
      && WaitsCarry(Apply(s, steps[0]), steps[1..])
  }

  lemma {:induction false} CarriedInRun(s: State, steps: seq<Step>, n: nat)
    requires Consistent(s) && Legal(s, steps) && WaitsCarry(s, steps)
    requires CarriedSince(s, n) && (s.row.status == Waiting ==> Carries(s))
    ensures CarriedSince(Run(s, steps), n)
    decreases |steps|
  {
    if steps != [] {
      var s' := Apply(s, steps[0]);
      ConsistentStep(s, steps[0]);
      CarriedStep(s, steps[0], n);
      if s'.row.status == Waiting && !steps[0].ParentWaits? {
        CarriesStep(s, steps[0]);
      }
      CarriedInRun(s', steps[1..], n);
    }
  }

  lemma {:induction false} SameWaitCarries(s: State, steps: seq<Step>)
    requires Legal(s, steps) && SameWait(steps)
    ensures WaitsCarry(s, steps)
    decreases |steps|
  {
    if steps != [] {
      assert steps[0] in steps && forall step :: step in steps[1..] ==> step in steps;
      SameWaitCarries(Apply(s, steps[0]), steps[1..]);
    }
  }

  /** An agent with a result that ends the wait, after the given steps, on a stack that shows no child's result. */
  lemma EndsWithoutResult(s: State, steps: seq<Step>, id: nat)
    requires Legal(s, steps) && SameWait(steps)
    requires var now := Run(s, steps);
      && now.row.status == Waiting && now.resumes == s.resumes
      && id in now.agents && HasResult(now.agents[id].result) && now.agents[id].point.CompareAndSet?
      && !FromChild(now.agents, now.agents[id].point.snapshot.stack)
    ensures !AlwaysCarried(s)
  {
    var now := Run(s, steps);
    OneMoreStep(s, steps, Advance(id));
    var all := steps + [Advance(id)];
    assert SameWait(all);
    var end := Run(s, all);
    assert end.agents.Keys == now.agents.Keys && forall x :: x in now.agents ==> end.agents[x].result == now.agents[x].result;
    assert !FromChild(end.agents, end.resumes[|s.resumes|].snapshot.stack);
    assert !CarriedSince(end, |s.resumes|);
  }

  /** The same for an agent that has yet to read such a row. */
  lemma ReadsWithoutResult(s: State, steps: seq<Step>, id: nat)
    requires Legal(s, steps) && SameWait(steps)
    requires var now := Run(s, steps);
      && now.row.status == Waiting && !now.row.finished && now.resumes == s.resumes
      && id in now.agents && HasResult(now.agents[id].result) && now.agents[id].point.StartRead?
      && !FromChild(now.agents, now.row.stack)
    ensures !AlwaysCarried(s)
  {
    var now := Run(s, steps);
    OneMoreStep(s, steps, Advance(id));
    var read := steps + [Advance(id)];
    assert SameWait(read);
    var end := Run(s, read);
    assert end.agents.Keys == now.agents.Keys && forall x :: x in now.agents ==> end.agents[x].result == now.agents[x].result;
    assert !FromChild(end.agents, end.agents[id].point.snapshot.stack);
    EndsWithoutResult(s, read, id);
  }

  lemma AgentEndsWithoutResult(s: State, id: nat)
    requires Consistent(s) && s.row.status == Waiting && id in s.agents && !AgentCarries(s, s.agents[id])
    ensures !AlwaysCarried(s)
  {
    var agent := s.agents[id];
    if agent.point.StartRead? {
      ReadsWithoutResult(s, [], id);
    } else if !FromChild(s.agents, agent.point.snapshot.stack) {
      EndsWithoutResult(s, [], id);
    } else {
      OneMoreStep(s, [], Fail(id, true));
      var steps := [] + [Fail(id, true)];
      assert SameWait(steps);
      var now := Run(s, steps);
      assert now.agents.Keys == s.agents.Keys && forall x :: x in s.agents ==> now.agents[x].result == s.agents[x].result;
      assert !FromChild(now.agents, now.row.stack);
      ReadsWithoutResult(s, steps, id);
    }
  }

  lemma EmptyStackEndsWithoutResult(s: State)
    requires Consistent(s) && s.row.status == Waiting && s.row.stack == []
    ensures !AlwaysCarried(s)
  {
    var id := UnusedId(s.agents.Keys);
    var steps := Extend(s, [], Spawn(id, Some(Output(0))));
    steps := Extend(s, steps, Advance(id));
    assert SameWait(steps);
    ReadsWithoutResult(s, steps, id);
  }

  /**
    The exact condition: in every continuation of the present wait, a winner that carried output or an error
    resumes the parent on some child's output or error, if and only if the parent has a stack to patch and
    no child with a result stands past its patch, holding or about to read a stack without one.
   */
  lemma CarriedExactly(s: State)
    requires Consistent(s) && s.row.status == Waiting
    ensures AlwaysCarried(s) <==> Carries(s)
  {
    if Carries(s) {
      forall steps | Legal(s, steps) && SameWait(steps) ensures CarriedSince(Run(s, steps), |s.resumes|) {
        SameWaitCarries(s, steps);
        CarriedInRun(s, steps, |s.resumes|);
      }
    } else if s.row.stack == [] {
      EmptyStackEndsWithoutResult(s);
    } else {
      var id :| id in s.agents && !AgentCarries(s, s.agents[id]);
      AgentEndsWithoutResult(s, id);
    }
  }

  // ---------------------------------------------------------------------
  // The races that the condition excludes do occur
  // ---------------------------------------------------------------------

  /** Two timers read the row during the first wait; the slower one ends the second wait on the first one's stack. */
  lemma LateCompareAndSet(first: seq<Entry>, second: seq<Entry>) returns (steps: seq<Step>)
    ensures Legal(Initial([]), steps)
    ensures var s := Run(Initial([]), steps);
      |s.resumes| == 2 && s.resumes[1].wait == 2 && s.stacks == [[], first, second] && s.resumes[1].snapshot.stack == first
  {
    var s := Initial([]);
    steps := [];
    steps := Extend(s, steps, ParentWaits(first));
    steps := Extend(s, steps, Spawn(0, None));
    steps := Extend(s, steps, Spawn(1, None));
    steps := Extend(s, steps, Advance(0));
    steps := Extend(s, steps, Advance(1));
    steps := Extend(s, steps, Advance(0));
    steps := Extend(s, steps, ParentWaits(second));
    steps := Extend(s, steps, Advance(1));
  }

  lemma Extend(s: State, steps: seq<Step>, step: Step) returns (more: seq<Step>)
    requires Legal(s, steps) && Enabled(Run(s, steps), step)
    ensures more == steps + [step]
    ensures Legal(s, more) && Run(s, more) == Apply(Run(s, steps), step)
  {
    OneMoreStep(s, steps, step);
    more := steps + [step];
  }

  /** A child's patch, read during the first wait, lands during the second and puts the first stack back. */
  lemma LatePatch(first: seq<Entry>, second: seq<Entry>, output: Data) returns (steps: seq<Step>)
    requires first != []
    ensures Legal(Initial([]), steps)
    ensures var s := Run(Initial([]), steps);
      |s.resumes| == 2 && s.resumes[1].wait == 2 && s.stacks == [[], first, second]
      && s.resumes[1].snapshot.stack == Patch(first, Output(output), 0)
  {
    var s := Initial([]);
    steps := ResumedWhilePatching(first, output);
    steps := Extend(s, steps, ParentWaits(second));
    steps := Extend(s, steps, Advance(0));
    steps := Extend(s, steps, Advance(0));
    steps := Extend(s, steps, Advance(0));
  }

  /** A timer ends the first wait while a child has read the row and not yet written it. */
  lemma ResumedWhilePatching(first: seq<Entry>, output: Data) returns (steps: seq<Step>)
    requires first != []
    ensures Legal(Initial([]), steps)
    ensures var s := Run(Initial([]), steps);
      && s.row.status == Running && s.stacks == [[], first] && |s.resumes| == 1 && 0 in s.agents
      && s.agents[0] == Agent(Some(Output(output)), PatchWrite(1, Snapshot(first, 1, 1)), None)
  {
    var s := Initial([]);
    steps := [];
    steps := Extend(s, steps, ParentWaits(first));
    steps := Extend(s, steps, Spawn(0, Some(Output(output))));
    steps := Extend(s, steps, Spawn(1, None));
    steps := Extend(s, steps, Advance(0));
    steps := Extend(s, steps, Advance(1));
    steps := Extend(s, steps, Advance(1));
  }

  /** A child that finishes before the parent waits skips its patch, yet may end the wait without its result. */
  lemma EarlyChild(start: seq<Entry>, stack: seq<Entry>, output: Data) returns (steps: seq<Step>)
    ensures Legal(Initial(start), steps)
    ensures var s := Run(Initial(start), steps);
      |s.resumes| == 1 && s.resumes[0].agent == 0 && 0 in s.agents && s.agents[0].result == Some(Output(output))
      && s.stacks == [start, stack] && s.resumes[0].snapshot.stack == stack
  {
    var s := Initial(start);
    steps := [];
    steps := Extend(s, steps, Spawn(0, Some(Output(output))));
    steps := Extend(s, steps, Advance(0));
    steps := Extend(s, steps, ParentWaits(stack));
    steps := Extend(s, steps, Advance(0));
    steps := Extend(s, steps, Advance(0));
  }

  lemma {:induction false} OwnStepsSnoc(steps: seq<Step>, step: Step, id: nat)
    ensures OwnSteps(steps + [step], id) == OwnSteps(steps, id) + One(StepOf(step, id))
  {
    if steps != [] {
      assert (steps + [step])[1..] == steps[1..] + [step];
      OwnStepsSnoc(steps[1..], step, id);
    }
  }

  /** One more attempt at a half, that reads and then fails. */
  lemma FailedAttempt(s: State, steps: seq<Step>, id: nat) returns (more: seq<Step>)
    requires Legal(s, steps) && id in Run(s, steps).agents
    requires var now := Run(s, steps); var agent := now.agents[id];
      && now.row.status == Waiting && !now.row.finished && now.row.stack != [] && HasResult(agent.result)
      && (agent.point.PatchRead? || agent.point.StartRead?)
    ensures Legal(s, more) && OwnSteps(more, id) == OwnSteps(steps, id) + 2
    ensures var now, later := Run(s, steps), Run(s, more);
      later.row == now.row && id in later.agents && later.agents[id] == Retry(now.agents[id], true)
  {
    more := Extend(s, steps, Advance(id));
    OwnStepsSnoc(steps, Advance(id), id);
    OwnStepsSnoc(more, Fail(id, true), id);
    more := Extend(s, more, Fail(id, true));
  }

  /** A child that needs all its attempts to write its patch. */
  lemma PatchedAtLast(entry: Entry, output: Data) returns (steps: seq<Step>)
    ensures Legal(Initial([]), steps) && OwnSteps(steps, 0) == 6
    ensures var s := Run(Initial([]), steps);
      && 0 in s.agents && s.agents[0].point == StartRead(1) && s.agents[0].result == Some(Output(output))
      && s.row.status == Waiting && !s.row.finished && s.row.stack == [entry.(input := output)]
  {
    var s := Initial([]);
    steps := Extend(s, [], ParentWaits([entry]));
    OwnStepsSnoc([], ParentWaits([entry]), 0);
    OwnStepsSnoc(steps, Spawn(0, Some(Output(output))), 0);
    steps := Extend(s, steps, Spawn(0, Some(Output(output))));
    steps := FailedAttempt(s, steps, 0);
    steps := FailedAttempt(s, steps, 0);
    OwnStepsSnoc(steps, Advance(0), 0);
    steps := Extend(s, steps, Advance(0));
    OwnStepsSnoc(steps, Advance(0), 0);
    steps := Extend(s, steps, Advance(0));
  }

  /** The bound is met: a child whose accesses keep failing makes all twelve, and the parent goes on waiting, patched. */
  lemma AllAttemptsUsed(entry: Entry, output: Data) returns (steps: seq<Step>)
    ensures Legal(Initial([]), steps) && OwnSteps(steps, 0) == 12
    ensures var s := Run(Initial([]), steps);
      0 in s.agents && s.agents[0].point == GaveUp && s.row.status == Waiting && s.row.stack == [entry.(input := output)]
  {
    var s := Initial([]);
    steps := PatchedAtLast(entry, output);
    steps := FailedAttempt(s, steps, 0);
    steps := FailedAttempt(s, steps, 0);
    steps := FailedAttempt(s, steps, 0);
  }
}
