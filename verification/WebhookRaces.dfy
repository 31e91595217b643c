/**
  The accesses of `storeWebhook` and `deleteWorkflowWebhooks`, interleaved between processes. The
  insert is guarded by the primary key; the refresh of an own row is a check followed by an unguarded
  update, and a removal is a query followed by an unguarded delete.
 */
module WebhookRaces {
  import opened Basics

  type WorkflowId = nat
  type Key = (string, string)

  /** Where a registration or a removal stands. */
  datatype Point =
    | Inserting(key: Key)
    | Checking(key: Key)
    | Updating(key: Key)
    | Finding
    | Deleting(keys: set<Key>)
    | Stored
    | Refused
    | Removed

  datatype Agent = Agent(workflow: WorkflowId, point: Point)

  /** The owner of every registered key, and the parties at work on them. */
  datatype State = State(rows: map<Key, WorkflowId>, agents: map<nat, Agent>)

  datatype Step =
    | BeginStore(id: nat, workflow: WorkflowId, key: Key)
    | BeginRemove(id: nat, workflow: WorkflowId)
    | Advance(id: nat)

  predicate Busy(point: Point) {
    point.Inserting? || point.Checking? || point.Updating? || point.Finding? || point.Deleting?
  }

  predicate Enabled(s: State, step: Step) {
    match step
    case BeginStore(id, _, _) => id !in s.agents
    case BeginRemove(id, _) => id !in s.agents
    case Advance(id) => id in s.agents && Busy(s.agents[id].point)
  }

  function Moved(s: State, agent: Agent): Point
    requires Busy(agent.point)
  {
    match agent.point
    case Inserting(key) => if key in s.rows then Checking(key) else Stored
    case Checking(key) => if key in s.rows && s.rows[key] == agent.workflow then Updating(key) else Refused
    case Updating(_) => Stored
    case Finding => Deleting(set key | key in s.rows && s.rows[key] == agent.workflow)
    case Deleting(_) => Removed
  }

  function Written(s: State, agent: Agent): map<Key, WorkflowId> {
    match agent.point
    case Inserting(key) => if key in s.rows then s.rows else s.rows[key := agent.workflow]
    case Updating(key) => if key in s.rows then s.rows[key := agent.workflow] else s.rows
    case Deleting(keys) => s.rows - keys
    case _ => s.rows
  }

  function Apply(s: State, step: Step): State
    requires Enabled(s, step)
  {
    match step
    case BeginStore(id, w, key) => s.(agents := s.agents[id := Agent(w, Inserting(key))])
    case BeginRemove(id, w) => s.(agents := s.agents[id := Agent(w, Finding)])
    case Advance(id) =>
      var agent := s.agents[id];
      State(Written(s, agent), s.agents[id := agent.(point := Moved(s, agent))])
  }

  ghost predicate Legal(s: State, steps: seq<Step>)
    decreases |steps|
  {
    steps == [] || (Enabled(s, steps[0]) && Legal(Apply(s, steps[0]), steps[1..]))
  }

  ghost function Run(s: State, steps: seq<Step>): State
    requires Legal(s, steps)
    decreases |steps|
  {
    if steps == [] then s else Run(Apply(s, steps[0]), steps[1..])
  }

  /** A key passes from one workflow to another without having been free in between. */
  ghost predicate Steals(s: State, step: Step)
    requires Enabled(s, step)
  {
    exists key :: key in s.rows && key in Apply(s, step).rows && Apply(s, step).rows[key] != s.rows[key]
  }

  /** A step by which a removal takes effect. */
  predicate Deletes(s: State, step: Step)
    requires Enabled(s, step)
  {
    step.Advance? && s.agents[step.id].point.Deleting?
  }

  ghost predicate NoDelete(s: State, steps: seq<Step>)
    requires Legal(s, steps)
    decreases |steps|
  {
    steps == [] || (!Deletes(s, steps[0]) && NoDelete(Apply(s, steps[0]), steps[1..]))
  }

  ghost predicate NoSteal(s: State, steps: seq<Step>)
    requires Legal(s, steps)
    decreases |steps|
  {
    steps == [] || (!Steals(s, steps[0]) && NoSteal(Apply(s, steps[0]), steps[1..]))
  }

  /** Every refresh that has passed its check still finds its own row. */
  ghost predicate ChecksHold(s: State) {
    forall id :: id in s.agents && s.agents[id].point.Updating? ==>
      s.agents[id].point.key in s.rows && s.rows[s.agents[id].point.key] == s.agents[id].workflow
  }

  /** Until the next removal takes effect, no key can change hands, however the steps fall. */
  ghost predicate SafeUntilDelete(s: State) {
    forall steps :: Legal(s, steps) && NoDelete(s, steps) ==> NoSteal(s, steps)
  }

  lemma {:induction false} ChecksHoldKeepsOwners(s: State, steps: seq<Step>)
    requires Legal(s, steps) && NoDelete(s, steps) && ChecksHold(s)
    ensures NoSteal(s, steps) && ChecksHold(Run(s, steps))
    decreases |steps|
  {
    if steps != [] {
      var s' := Apply(s, steps[0]);
      assert !Steals(s, steps[0]);
      assert ChecksHold(s');
      ChecksHoldKeepsOwners(s', steps[1..]);
    }
  }

  lemma TakenRowIsStolen(s: State, id: nat)
    requires id in s.agents && s.agents[id].point.Updating?
    requires var key := s.agents[id].point.key; key in s.rows && s.rows[key] != s.agents[id].workflow
    ensures var steps := [Advance(id)];
      Legal(s, steps) && NoDelete(s, steps) && !NoSteal(s, steps)
  {
  }

  lemma Prepend(s: State, step: Step, steps: seq<Step>)
    requires Enabled(s, step) && !Deletes(s, step)
    requires var s' := Apply(s, step); Legal(s', steps) && NoDelete(s', steps) && !NoSteal(s', steps)
    ensures Legal(s, [step] + steps) && NoDelete(s, [step] + steps) && !NoSteal(s, [step] + steps)
  {
  }

  /** A refresh whose row is gone, or was taken, ends up on somebody else's row. */
  lemma BrokenCheckSteals(s: State, id: nat)
    requires id in s.agents && s.agents[id].point.Updating?
    requires var key := s.agents[id].point.key;
      !(key in s.rows && s.rows[key] == s.agents[id].workflow)
    ensures !SafeUntilDelete(s)
  {
    var agent := s.agents[id];
    var key := agent.point.key;
    if key in s.rows {
      TakenRowIsStolen(s, id);
    } else {
      var other := UnusedId(s.agents.Keys);
      var first := BeginStore(other, agent.workflow + 1, key);
      var s1 := Apply(s, first);
      var s2 := Apply(s1, Advance(other));
      TakenRowIsStolen(s2, id);
      Prepend(s1, Advance(other), [Advance(id)]);
      Prepend(s, first, [Advance(other)] + [Advance(id)]);
    }
  }

  /**
    The exact condition: ownership is safe until the next removal if and only if no registration is
    between its check and its update with that row meanwhile gone or owned by somebody else.
   */
  lemma OwnersSafeExactly(s: State)
    ensures SafeUntilDelete(s) <==> ChecksHold(s)
  {
    if ChecksHold(s) {
      forall steps | Legal(s, steps) && NoDelete(s, steps) ensures NoSteal(s, steps) {
        ChecksHoldKeepsOwners(s, steps);
      }
    } else {
      var id :| id in s.agents && s.agents[id].point.Updating?
        && !(s.agents[id].point.key in s.rows && s.rows[s.agents[id].point.key] == s.agents[id].workflow);
      BrokenCheckSteals(s, id);
    }
  }

  /** No row about to be deleted is one that a registration has checked and is about to refresh. */
  ghost predicate SparesChecked(s: State, id: nat)
    requires id in s.agents && s.agents[id].point.Deleting?
  {
    forall other :: other in s.agents && s.agents[other].point.Updating? ==>
      s.agents[other].point.key !in s.agents[id].point.keys
  }

  /** A removal breaks no check if and only if it deletes no row that a registration has just checked. */
  lemma DeleteKeepsChecksExactly(s: State, id: nat)
    requires ChecksHold(s) && Enabled(s, Advance(id)) && s.agents[id].point.Deleting?
    ensures ChecksHold(Apply(s, Advance(id))) <==> SparesChecked(s, id)
  {
    var s' := Apply(s, Advance(id));
    if ChecksHold(s') {
      forall other | other in s.agents && s.agents[other].point.Updating?
        ensures s.agents[other].point.key !in s.agents[id].point.keys
      {
        assert other in s'.agents && s'.agents[other] == s.agents[other];
      }
    }
  }

  // ---------------------------------------------------------------------
  // Over whole runs
  // ---------------------------------------------------------------------

  /** Registrations and removals of the same rows do not overlap. */
  ghost predicate NoOverlap(s: State, steps: seq<Step>)
    requires Legal(s, steps)
    decreases |steps|
  {
    steps != [] ==>
      && (Deletes(s, steps[0]) ==> SparesChecked(s, steps[0].id))
      && NoOverlap(Apply(s, steps[0]), steps[1..])
  }

  /** Then a key never changes hands, from any state in which no check is broken: it is given up first. */
  lemma {:induction false} KeysChangeHandsOnlyWhenFree(s: State, steps: seq<Step>)
    requires Legal(s, steps) && NoOverlap(s, steps) && ChecksHold(s)
    ensures NoSteal(s, steps)
    decreases |steps|
  {
    if steps != [] {
      var s' := Apply(s, steps[0]);
      if Deletes(s, steps[0]) {
        DeleteKeepsChecksExactly(s, steps[0].id);
      } else {
        assert ChecksHold(s');
      }
      assert !Steals(s, steps[0]);
      KeysChangeHandsOnlyWhenFree(s', steps[1..]);
    }
  }

  // ---------------------------------------------------------------------
  // Removals that delete somebody else's row
  // ---------------------------------------------------------------------

  /** A removal deletes a row that meanwhile belongs to another workflow. */
  ghost predicate Robs(s: State, step: Step)
    requires Enabled(s, step)
  {
    && Deletes(s, step)
    && exists key :: key in s.agents[step.id].point.keys && key in s.rows && s.rows[key] != s.agents[step.id].workflow
  }

  /** Every row that a removal is about to delete still belongs to its workflow, or is gone already. */
  ghost predicate FindsHold(s: State) {
    forall id, key :: id in s.agents && s.agents[id].point.Deleting? && key in s.agents[id].point.keys && key in s.rows
      ==> s.rows[key] == s.agents[id].workflow
  }

  /** A registration inserts a key that another workflow's removal has found and not yet deleted. */
  ghost predicate InsertsDoomed(s: State, step: Step)
    requires Enabled(s, step)
  {
    && step.Advance? && s.agents[step.id].point.Inserting? && s.agents[step.id].point.key !in s.rows
    && exists other :: other in s.agents && Dooms(s.agents[other], s.agents[step.id])
  }

  predicate Dooms(remover: Agent, registrar: Agent)
    requires registrar.point.Inserting?
  {
    remover.point.Deleting? && registrar.point.key in remover.point.keys && remover.workflow != registrar.workflow
  }

  /**
    Removals go on deleting only their own rows exactly as long as nobody inserts a key that another
    workflow's removal has found: that takes a second removal, which frees the key in between.
   */
  lemma FindsHoldExactly(s: State, step: Step)
    requires FindsHold(s) && ChecksHold(s) && Enabled(s, step)
    ensures !Robs(s, step)
    ensures FindsHold(Apply(s, step)) <==> !InsertsDoomed(s, step)
  {
    var s' := Apply(s, step);
    if InsertsDoomed(s, step) {
      var other :| other in s.agents && Dooms(s.agents[other], s.agents[step.id]);
      var key := s.agents[step.id].point.key;
      assert s'.agents[other] == s.agents[other] && key in s'.agents[other].point.keys && key in s'.rows;
    } else {
      forall id, key | id in s'.agents && s'.agents[id].point.Deleting? && key in s'.agents[id].point.keys && key in s'.rows
        ensures s'.rows[key] == s'.agents[id].workflow
      {
        assert (step.Advance? && step.id == id) || (id in s.agents && s'.agents[id] == s.agents[id]);
      }
    }
  }

  /** No removal overlaps a registration of a row it has found, by its own workflow or by another. */
  ghost predicate Apart(s: State, steps: seq<Step>)
    requires Legal(s, steps)
    decreases |steps|
  {
    steps != [] ==>
      && (Deletes(s, steps[0]) ==> SparesChecked(s, steps[0].id))
      && !InsertsDoomed(s, steps[0])
      && Apart(Apply(s, steps[0]), steps[1..])
  }

  ghost predicate NoRobbery(s: State, steps: seq<Step>)
    requires Legal(s, steps)
    decreases |steps|
  {
    steps == [] || (!Robs(s, steps[0]) && NoRobbery(Apply(s, steps[0]), steps[1..]))
  }

  /** Over whole runs: kept apart, registrations and removals neither take nor delete another workflow's rows. */
  lemma {:induction false} RowsAreSafe(s: State, steps: seq<Step>)
    requires Legal(s, steps) && Apart(s, steps) && ChecksHold(s) && FindsHold(s)
    ensures NoSteal(s, steps) && NoRobbery(s, steps)
    decreases |steps|
  {
    if steps != [] {
      ChecksHoldStep(s, steps[0]);
      FindsHoldExactly(s, steps[0]);
      RowsAreSafe(Apply(s, steps[0]), steps[1..]);
    }
  }

  lemma ChecksHoldStep(s: State, step: Step)
    requires ChecksHold(s) && Enabled(s, step) && (Deletes(s, step) ==> SparesChecked(s, step.id))
    ensures ChecksHold(Apply(s, step)) && !Steals(s, step)
  {
    if Deletes(s, step) {
      DeleteKeepsChecksExactly(s, step.id);
    }
  }

  // ---------------------------------------------------------------------
  // What each access does, and what an undisturbed operation amounts to
  // ---------------------------------------------------------------------

  /** Rows come by inserts of free keys, go by deletes of keys that were found, and change owner by updates only. */
  lemma RowsChangeOnlyBy(s: State, step: Step, key: Key)
    requires Enabled(s, step)
    ensures var s' := Apply(s, step);
      && (key !in s.rows && key in s'.rows ==>
            step.Advance? && s.agents[step.id].point == Inserting(key) && s'.rows[key] == s.agents[step.id].workflow)
      && (key in s.rows && key !in s'.rows <==> key in s.rows && Deletes(s, step) && key in s.agents[step.id].point.keys)
      && (key in s.rows && key in s'.rows && s'.rows[key] != s.rows[key] ==>
            step.Advance? && s.agents[step.id].point == Updating(key) && s'.rows[key] == s.agents[step.id].workflow)
  {
  }

  /** A registration that nobody disturbs ends with the key its own, or is refused because another workflow has it. */
  lemma UndisturbedStore(s: State, id: nat)
    requires id in s.agents && s.agents[id].point.Inserting?
    ensures var key, w := s.agents[id].point.key, s.agents[id].workflow;
      var s1 := Apply(s, Advance(id));
      && (key !in s.rows ==> s1.agents[id].point == Stored && s1.rows == s.rows[key := w])
      && (key in s.rows ==> s1.agents[id].point == Checking(key) && s1.rows == s.rows)
      && (key in s.rows && s.rows[key] != w ==> Apply(s1, Advance(id)).agents[id].point == Refused)
      && (key in s.rows && s.rows[key] == w ==>
            var s2 := Apply(s1, Advance(id));
            s2.agents[id].point == Updating(key) && Apply(s2, Advance(id)).agents[id].point == Stored)
  {
  }

  /** A removal that nobody disturbs deletes every row of its workflow and no other. */
  lemma UndisturbedRemoval(s: State, id: nat, key: Key)
    requires id in s.agents && s.agents[id].point == Finding
    ensures var s2 := Apply(Apply(s, Advance(id)), Advance(id));
      && s2.agents[id].point == Removed
      && (key in s2.rows <==> key in s.rows && s.rows[key] != s.agents[id].workflow)
      && (key in s2.rows ==> s2.rows[key] == s.rows[key])
  {
  }

  // ---------------------------------------------------------------------
  // Both do happen
  // ---------------------------------------------------------------------

  const Empty := State(map[], map[])

  lemma {:induction false} OneMoreStep(s: State, steps: seq<Step>, step: Step)
    requires Legal(s, steps) && Enabled(Run(s, steps), step)
    ensures Legal(s, steps + [step]) && Run(s, steps + [step]) == Apply(Run(s, steps), step)
    decreases |steps|
  {
    if steps == [] {
      assert [step][1..] == [];
    } else {
      assert (steps + [step])[1..] == steps[1..] + [step];
      OneMoreStep(Apply(s, steps[0]), steps[1..], step);
    }
  }

  lemma Extend(steps: seq<Step>, step: Step) returns (more: seq<Step>)
    requires Legal(Empty, steps) && Enabled(Run(Empty, steps), step)
    ensures Legal(Empty, more) && Run(Empty, more) == Apply(Run(Empty, steps), step)
  {
    OneMoreStep(Empty, steps, step);
    more := steps + [step];
  }

  /** A workflow that has registered a key, up to the point where it registers it again and has passed its check. */
  lemma RegisteredTwice(w: WorkflowId, key: Key) returns (steps: seq<Step>)
    ensures Legal(Empty, steps)
    ensures Run(Empty, steps) == State(map[key := w], map[0 := Agent(w, Stored), 1 := Agent(w, Updating(key))])
  {
    steps := Extend([], BeginStore(0, w, key));
    steps := Extend(steps, Advance(0));
    steps := Extend(steps, BeginStore(1, w, key));
    steps := Extend(steps, Advance(1));
    steps := Extend(steps, Advance(1));
  }

  /** From an empty table: a removal and another workflow's registration come in between, and the update takes the key over. */
  lemma StolenKey(w: WorkflowId, other: WorkflowId, key: Key) returns (steps: seq<Step>)
    requires w != other
    ensures Legal(Empty, steps) && Enabled(Run(Empty, steps), Advance(1)) && Steals(Run(Empty, steps), Advance(1))
  {
    steps := RegisteredTwice(w, key);
    steps := Extend(steps, BeginRemove(2, w));
    steps := Extend(steps, Advance(2));
    steps := Extend(steps, Advance(2));
    steps := Extend(steps, BeginStore(3, other, key));
    steps := Extend(steps, Advance(3));
    var s := Run(Empty, steps);
    assert s.rows == map[key := other] && s.agents[1] == Agent(w, Updating(key));
    assert Apply(s, Advance(1)).rows[key] == w;
  }

  /** Two removals of the same workflow, both past their query. */
  lemma TwoRemovals(w: WorkflowId, key: Key) returns (steps: seq<Step>)
    ensures Legal(Empty, steps)
    ensures Run(Empty, steps) == State(map[key := w],
      map[0 := Agent(w, Stored), 1 := Agent(w, Deleting({key})), 2 := Agent(w, Deleting({key}))])
  {
    steps := Extend([], BeginStore(0, w, key));
    steps := Extend(steps, Advance(0));
    steps := Extend(steps, BeginRemove(1, w));
    steps := Extend(steps, Advance(1));
    steps := Extend(steps, BeginRemove(2, w));
    assert (set k | k in map[key := w] && map[key := w][k] == w) == {key};
    steps := Extend(steps, Advance(2));
  }

  /** From an empty table: of two overlapping removals the slower one deletes the row of whoever took the key since. */
  lemma RobbedKey(w: WorkflowId, other: WorkflowId, key: Key) returns (steps: seq<Step>)
    requires w != other
    ensures Legal(Empty, steps) && Enabled(Run(Empty, steps), Advance(2)) && Robs(Run(Empty, steps), Advance(2))
  {
    steps := TwoRemovals(w, key);
    steps := Extend(steps, Advance(1));
    steps := Extend(steps, BeginStore(3, other, key));
    steps := Extend(steps, Advance(3));
    assert Run(Empty, steps).rows == map[key := other];
  }
}
