/** Soft deadlines of workflows and sub-workflows, and the hard stop of a run that may have waited. */
module Deadlines {
  import opened Basics

  const SECONDS_TO_MILLISECONDS := 1000

  /** `determineWorkflowDeadline`; a maximum of zero or less is no maximum. */
  function OwnDeadline(start: int, setting: Option<int>, timeout: int, maxTimeout: int): Option<int> {
    if setting.Some? then
      if setting.value <= 0 then None else Some(start + Clamp(setting.value, maxTimeout) * SECONDS_TO_MILLISECONDS)
    else if timeout > 0 then Some(start + Clamp(timeout, maxTimeout) * SECONDS_TO_MILLISECONDS)
    else None
  }

  function Clamp(timeout: int, maxTimeout: int): int {
    if maxTimeout > 0 then Min(timeout, maxTimeout) else timeout
  }

  /**
    The timeout asked for, the workflow's own setting before the global default, counts in whole seconds from
    the start; a positive maximum cuts it short, any other does not, and no positive timeout is no deadline.
   */
  lemma OwnDeadlineExactly(start: int, setting: Option<int>, timeout: int, maxTimeout: int)
    ensures var asked, own := Requested(setting, timeout), OwnDeadline(start, setting, timeout, maxTimeout);
      && (own.None? <==> asked <= 0)
      && (asked > 0 && (maxTimeout <= 0 || asked <= maxTimeout) ==> own == Some(start + 1000 * asked))
      && (0 < maxTimeout < asked ==> own == Some(start + 1000 * maxTimeout))
  {
  }

  /** `resolveSubworkflowDeadline`. */
  function Resolve(own: Option<int>, parent: Option<int>, detached: bool): Option<int> {
    if detached then own
    else if parent.Some? && own.Some? then Some(Min(parent.value, own.value))
    else if parent.Some? then parent
    else own
  }

  /** No deadline is later than every deadline. */
  predicate NotLater(a: Option<int>, b: Option<int>) {
    b.None? || (a.Some? && a.value <= b.value)
  }

  /** One nested call: the sub-workflow's own deadline, and whether its caller waits for it. */
  datatype Level = Level(own: Option<int>, detached: bool)

  /** The deadline in force at the innermost level of a chain of calls. */
  function Effective(root: Option<int>, levels: seq<Level>): Option<int> {
    if levels == [] then root
    else
      var last := levels[|levels| - 1];
      Resolve(last.own, Effective(root, levels[..|levels| - 1]), last.detached)
  }

  ghost predicate Among(d: Option<int>, root: Option<int>, levels: seq<Level>) {
    d == root || exists i :: 0 <= i < |levels| && levels[i].own == d
  }

  /**
    In a chain of awaited calls of any depth the deadline in force is the earliest of the root's and
    everybody's own: none of them is earlier, and it is one of them.
   */
  lemma {:induction false} NestedDeadlineIsMinimum(root: Option<int>, levels: seq<Level>)
    requires forall level :: level in levels ==> !level.detached
    ensures NotLater(Effective(root, levels), root)
    ensures forall i :: 0 <= i < |levels| ==> NotLater(Effective(root, levels), levels[i].own)
    ensures Among(Effective(root, levels), root, levels)
    decreases |levels|
  {
    if levels != [] {
      var front, last := levels[..|levels| - 1], levels[|levels| - 1];
      assert last in levels && forall level :: level in front ==> level in levels;
      NestedDeadlineIsMinimum(root, front);
      assert forall i :: 0 <= i < |front| ==> front[i] == levels[i];
      if Effective(root, levels) == Effective(root, front) && Effective(root, front) != root {
        var i :| 0 <= i < |front| && front[i].own == Effective(root, front);
        assert levels[i].own == Effective(root, levels);
      } else if Effective(root, levels) != root {
        assert levels[|levels| - 1].own == Effective(root, levels);
      }
    }
  }

  /** Going deeper through awaited calls never moves the deadline out; a detached call starts afresh. */
  lemma {:induction false} DeeperIsNotLater(root: Option<int>, levels: seq<Level>, more: seq<Level>)
    requires forall level :: level in more ==> !level.detached
    ensures NotLater(Effective(root, levels + more), Effective(root, levels))
    ensures forall own, other :: Effective(root, levels + [Level(own, true)] + more) == Effective(other, [Level(own, true)] + more)
    decreases |more|
  {
    if more == [] {
      assert levels + more == levels;
      forall own, other
        ensures Effective(root, levels + [Level(own, true)] + more) == Effective(other, [Level(own, true)] + more)
      {
        assert levels + [Level(own, true)] + more == levels + [Level(own, true)];
        assert (levels + [Level(own, true)])[..|levels|] == levels;
        assert [Level(own, true)] + more == [Level(own, true)];
      }
    } else {
      var front, last := more[..|more| - 1], more[|more| - 1];
      assert last in more && forall level :: level in front ==> level in more;
      DeeperIsNotLater(root, levels, front);
      assert (levels + more)[..|levels + more| - 1] == levels + front;
      forall own, other
        ensures Effective(root, levels + [Level(own, true)] + more) == Effective(other, [Level(own, true)] + more)
      {
        var a, b := levels + [Level(own, true)] + more, [Level(own, true)] + more;
        assert a[..|a| - 1] == levels + [Level(own, true)] + front;
        assert b[..|b| - 1] == [Level(own, true)] + front;
      }
    }
  }

  /** Below a detached call its own deadline is in force and no other. */
  lemma DetachedStartsAfresh(root: Option<int>, levels: seq<Level>, own: Option<int>)
    ensures Effective(root, levels + [Level(own, true)]) == own
  {
  }

  /**
    The timeouts of `runMainProcess`: the soft deadline from the clock reading before the run is set up,
    and the instant of the hard stop from the one after it, both `None` for a run without a limit.
   */
  method ArmTimeouts(setting: Option<int>, timeout: int, maxTimeout: int, startedAt: Option<int>,
                     nowBefore: int, nowAfter: int)
    returns (soft: Option<int>, stop: Option<int>)
    requires nowBefore <= nowAfter
    ensures maxTimeout > 0 || Requested(setting, timeout) <= 0 <==>
      soft == OwnDeadline(nowBefore, setting, timeout, maxTimeout)
    ensures soft.Some? <==> stop.Some?
    ensures soft.Some? ==>
      var limit := Min(Requested(setting, timeout), maxTimeout) * 1000;
      && soft == Some(nowBefore + limit)
      && stop == Some(if startedAt.Some? then Max(nowAfter, startedAt.value + limit) else nowAfter + limit)
      && (startedAt.Some? ==>
           (stop.value <= soft.value <==> startedAt.value <= nowBefore && nowAfter <= nowBefore + limit))
  {
    var workflowTimeout := if setting.Some? then setting.value else timeout;
    if workflowTimeout > 0 {
      workflowTimeout := Min(workflowTimeout, maxTimeout);
    }
    soft := if workflowTimeout <= 0 then None else Some(nowBefore + workflowTimeout * SECONDS_TO_MILLISECONDS);
    stop := None;
    if workflowTimeout > 0 {
      var delay := Min(workflowTimeout, maxTimeout) * SECONDS_TO_MILLISECONDS;
      if startedAt.Some? {
        delay := Max(delay - (nowAfter - startedAt.value), 0);
      }
      stop := Some(if delay == 0 then nowAfter else nowAfter + delay);
    }
  }

  function Requested(setting: Option<int>, timeout: int): int {
    if setting.Some? then setting.value else timeout
  }
}
