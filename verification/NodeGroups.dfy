/** `validateWorkflowNodeGroups`. */
module NodeGroups {
  import opened Basics

  datatype Group = Group(name: string, nodeIds: seq<string>)

  datatype GroupError = DuplicateName(name: string) | UnknownNode(nodeId: string) | InSeveralGroups(nodeId: string)

  /** A node id together with the name of the group that lists it. */
  datatype Member = Member(nodeId: string, group: string)

  /** The first `n` memberships of one group. */
  function MembersUpTo(group: Group, n: nat): (r: seq<Member>)
    requires n <= |group.nodeIds|
    ensures |r| == n
  {
    if n == 0 then [] else MembersUpTo(group, n - 1) + [Member(group.nodeIds[n - 1], group.name)]
  }

  function MembersOf(group: Group): seq<Member> {
    MembersUpTo(group, |group.nodeIds|)
  }

  lemma {:induction false} MembersUpToPrefix(group: Group, j: nat, n: nat)
    requires j <= n <= |group.nodeIds|
    ensures MembersUpTo(group, j) <= MembersUpTo(group, n)
    decreases n - j
  {
    if j < n {
      MembersUpToPrefix(group, j, n - 1);
    }
  }

  lemma {:induction false} MembersUpToGroup(group: Group, n: nat, m: Member)
    requires n <= |group.nodeIds| && m in MembersUpTo(group, n)
    ensures m.group == group.name
  {
    if m !in MembersUpTo(group, n - 1) {
      assert m == Member(group.nodeIds[n - 1], group.name);
    } else {
      MembersUpToGroup(group, n - 1, m);
    }
  }

  /** All memberships, group by group. */
  function Members(groups: seq<Group>): seq<Member> {
    if groups == [] then [] else Members(groups[..|groups| - 1]) + MembersOf(groups[|groups| - 1])
  }

  ghost predicate NamesDistinct(groups: seq<Group>) {
    forall i, j :: 0 <= i < j < |groups| ==> groups[i].name != groups[j].name
  }

  ghost predicate Known(ids: seq<string>, members: seq<Member>) {
    forall m :: m in members ==> m.nodeId != "" && m.nodeId in ids
  }

  /** A node listed again was so far only in the group without a name. */
  ghost predicate Exclusive(members: seq<Member>) {
    forall p, q :: 0 <= p < q < |members| && members[p].nodeId == members[q].nodeId ==> members[p].group == ""
  }

  /** What is accepted, exactly: an empty group name counts as no group. */
  ghost predicate Accepts(ids: seq<string>, groups: seq<Group>) {
    NamesDistinct(groups) && Known(ids, Members(groups)) && Exclusive(Members(groups))
  }

  /** With named groups only, each listed node is listed once. */
  lemma NamedGroupsAreDisjoint(ids: seq<string>, groups: seq<Group>)
    requires forall g :: g in groups ==> g.name != ""
    ensures Accepts(ids, groups) <==>
      && NamesDistinct(groups) && Known(ids, Members(groups))
      && forall p, q :: 0 <= p < q < |Members(groups)| ==> Members(groups)[p].nodeId != Members(groups)[q].nodeId
  {
    var members := Members(groups);
    forall p | 0 <= p < |members| ensures members[p].group != "" {
      MemberHasGroup(groups, p);
    }
  }

  lemma {:induction false} MemberHasGroup(groups: seq<Group>, p: nat)
    requires p < |Members(groups)|
    ensures exists g :: g in groups && g.name == Members(groups)[p].group
    decreases |groups|
  {
    var front, last := groups[..|groups| - 1], groups[|groups| - 1];
    if p < |Members(front)| {
      MemberHasGroup(front, p);
      assert forall g :: g in front ==> g in groups;
    } else {
      assert last in groups;
      MembersUpToGroup(last, |last.nodeIds|, Members(groups)[p]);
    }
  }

  /** What the map from node to group records: the latest group that lists each node. */
  function LatestGroup(members: seq<Member>): map<string, string> {
    if members == [] then map[]
    else LatestGroup(members[..|members| - 1])[members[|members| - 1].nodeId := members[|members| - 1].group]
  }

  lemma {:induction false} LatestAt(members: seq<Member>, id: string) returns (p: nat)
    requires id in LatestGroup(members)
    ensures p < |members| && members[p] == Member(id, LatestGroup(members)[id])
    ensures forall q :: p < q < |members| ==> members[q].nodeId != id
    decreases |members|
  {
    var front, last := members[..|members| - 1], members[|members| - 1];
    if last.nodeId == id {
      p := |members| - 1;
    } else {
      p := LatestAt(front, id);
      assert forall q :: 0 <= q < |front| ==> front[q] == members[q];
    }
  }

  lemma {:induction false} LatestAbsent(members: seq<Member>, id: string, q: nat)
    requires id !in LatestGroup(members) && q < |members|
    ensures members[q].nodeId != id
    decreases |members|
  {
    if q < |members| - 1 {
      LatestAbsent(members[..|members| - 1], id, q);
    }
  }

  /** The lookup decides exactly whether one more membership is still exclusive. */
  lemma OneMoreMember(members: seq<Member>, m: Member)
    requires Exclusive(members)
    ensures Exclusive(members + [m]) <==> (m.nodeId in LatestGroup(members) ==> LatestGroup(members)[m.nodeId] == "")
    ensures LatestGroup(members + [m]) == LatestGroup(members)[m.nodeId := m.group]
  {
    var more := members + [m];
    assert more[..|members|] == members;
    if m.nodeId in LatestGroup(members) {
      var p := LatestAt(members, m.nodeId);
      assert more[p].nodeId == more[|members|].nodeId;
      forall q | 0 <= q < |members| && members[q].nodeId == m.nodeId && members[p].group == ""
        ensures members[q].group == ""
      {
        assert q <= p;
      }
    } else {
      forall q | 0 <= q < |members| ensures members[q].nodeId != m.nodeId {
        LatestAbsent(members, m.nodeId, q);
      }
    }
  }

  lemma {:induction false} MembersPrefix(groups: seq<Group>, i: nat)
    requires i <= |groups|
    ensures Members(groups[..i]) <= Members(groups)
    decreases |groups|
  {
    if i == |groups| {
      assert groups[..i] == groups;
    } else {
      var front := groups[..|groups| - 1];
      MembersPrefix(front, i);
      assert front[..i] == groups[..i];
    }
  }

  lemma MembersUpToPoint(groups: seq<Group>, i: nat, j: nat)
    requires i < |groups| && j <= |groups[i].nodeIds|
    ensures Members(groups[..i]) + MembersUpTo(groups[i], j) <= Members(groups)
  {
    MembersPrefix(groups, i + 1);
    MembersUpToPrefix(groups[i], j, |groups[i].nodeIds|);
    assert groups[..i + 1][..i] == groups[..i];
  }

  lemma AcceptedPrefix(ids: seq<string>, members: seq<Member>, seen: seq<Member>)
    requires seen <= members && Known(ids, members) && Exclusive(members)
    ensures Known(ids, seen) && Exclusive(seen)
  {
  }

  /** What was accepted as a whole was accepted up to any point. */
  lemma AcceptedSoFar(ids: seq<string>, groups: seq<Group>, i: nat, j: nat)
    requires i < |groups| && 0 < j <= |groups[i].nodeIds| && Accepts(ids, groups)
    ensures Exclusive(Members(groups[..i]) + MembersUpTo(groups[i], j))
    ensures groups[i].nodeIds[j - 1] in ids && groups[i].nodeIds[j - 1] != ""
  {
    var seen := Members(groups[..i]) + MembersUpTo(groups[i], j);
    MembersUpToPoint(groups, i, j);
    AcceptedPrefix(ids, Members(groups), seen);
    assert seen[|seen| - 1] == Member(groups[i].nodeIds[j - 1], groups[i].name);
    assert seen[|seen| - 1] in seen;
  }

  /** A node is listed by a named group and once more after that. */
  ghost predicate ListedAgain(members: seq<Member>, id: string) {
    exists p, q :: 0 <= p < q < |members| && members[p].nodeId == id == members[q].nodeId && members[p].group != ""
  }

  /** What each error reports about the groups. */
  ghost predicate Justified(ids: seq<string>, groups: seq<Group>, error: GroupError) {
    match error
    case DuplicateName(name) => exists i, j :: 0 <= i < j < |groups| && groups[i].name == name == groups[j].name
    case UnknownNode(id) => (id == "" || id !in ids) && exists i :: 0 <= i < |groups| && id in groups[i].nodeIds
    case InSeveralGroups(id) => ListedAgain(Members(groups), id)
  }

  lemma ListedBefore(members: seq<Member>, m: Member)
    requires m.nodeId in LatestGroup(members) && LatestGroup(members)[m.nodeId] != ""
    ensures ListedAgain(members + [m], m.nodeId)
  {
    var p := LatestAt(members, m.nodeId);
    assert (members + [m])[p] == members[p] && (members + [m])[|members|] == m;
  }

  lemma NextMember(seen: seq<Member>, group: Group, j: nat)
    requires j < |group.nodeIds|
    ensures var m := Member(group.nodeIds[j], group.name);
      && MembersUpTo(group, j + 1) == MembersUpTo(group, j) + [m]
      && seen + MembersUpTo(group, j + 1) == seen + MembersUpTo(group, j) + [m]
  {
    Append(seen, MembersUpTo(group, j), Member(group.nodeIds[j], group.name));
  }

  /** What the inner loop reports about the membership it stopped at. */
  ghost predicate GroupFault(ids: set<string>, members: seq<Member>, nodeId: string, error: GroupError) {
    || (error == UnknownNode(nodeId) && nodeId !in ids)
    || (error == InSeveralGroups(nodeId) && ListedAgain(members, nodeId))
  }

  /** The first `j` nodes of the group were found acceptable and recorded. */
  ghost predicate Passed(ids: set<string>, seen: seq<Member>, group: Group, j: nat, nodeToGroup: map<string, string>)
    requires j <= |group.nodeIds|
  {
    && Exclusive(seen + MembersUpTo(group, j))
    && nodeToGroup == LatestGroup(seen + MembersUpTo(group, j))
    && forall m :: m in MembersUpTo(group, j) ==> m.nodeId in ids
  }

  lemma OneMorePasses(ids: set<string>, seen: seq<Member>, group: Group, j: nat, nodeToGroup: map<string, string>)
    requires j < |group.nodeIds| && Passed(ids, seen, group, j, nodeToGroup)
    requires var id := group.nodeIds[j]; id in ids && (id in nodeToGroup ==> nodeToGroup[id] == "")
    ensures Passed(ids, seen, group, j + 1, nodeToGroup[group.nodeIds[j] := group.name])
  {
    NextMember(seen, group, j);
    OneMoreMember(seen + MembersUpTo(group, j), Member(group.nodeIds[j], group.name));
  }

  lemma AlreadyGrouped(ids: set<string>, seen: seq<Member>, group: Group, j: nat, nodeToGroup: map<string, string>)
    requires j < |group.nodeIds| && Passed(ids, seen, group, j, nodeToGroup)
    requires var id := group.nodeIds[j]; id in nodeToGroup && nodeToGroup[id] != ""
    ensures ListedAgain(seen + MembersUpTo(group, j + 1), group.nodeIds[j])
  {
    NextMember(seen, group, j);
    ListedBefore(seen + MembersUpTo(group, j), Member(group.nodeIds[j], group.name));
  }

  /** The inner loop, over the nodes of one group: it stops after the first membership that is not acceptable. */
  method ValidateGroup(ids: set<string>, group: Group, nodeToGroup: map<string, string>, ghost seen: seq<Member>)
    returns (error: Option<GroupError>, nodeToGroup': map<string, string>, ghost done: nat)
    requires Exclusive(seen) && nodeToGroup == LatestGroup(seen)
    ensures error.None? ==> Passed(ids, seen, group, |group.nodeIds|, nodeToGroup')
    ensures error.Some? ==> 0 < done <= |group.nodeIds| && GroupFault(ids, seen + MembersUpTo(group, done), group.nodeIds[done - 1], error.value)
  {
    nodeToGroup' := nodeToGroup;
    assert seen + MembersUpTo(group, 0) == seen;
    for j := 0 to |group.nodeIds|
      invariant Passed(ids, seen, group, j, nodeToGroup')
    {
      var nodeId := group.nodeIds[j];
      if nodeId !in ids {
        return Some(UnknownNode(nodeId)), nodeToGroup', j + 1;
      }
      if nodeId in nodeToGroup' && nodeToGroup'[nodeId] != "" {
        AlreadyGrouped(ids, seen, group, j, nodeToGroup');
        return Some(InSeveralGroups(nodeId)), nodeToGroup', j + 1;
      }
      OneMorePasses(ids, seen, group, j, nodeToGroup');
      nodeToGroup' := nodeToGroup'[nodeId := group.name];
    }
    return None, nodeToGroup', |group.nodeIds|;
  }

  lemma FaultRejects(ids: seq<string>, groups: seq<Group>, i: nat, j: nat, nodeIds: set<string>, error: GroupError)
    requires i < |groups| && 0 < j <= |groups[i].nodeIds| && nodeIds == set id | id in ids && id != ""
    requires GroupFault(nodeIds, Members(groups[..i]) + MembersUpTo(groups[i], j), groups[i].nodeIds[j - 1], error)
    ensures !Accepts(ids, groups) && Justified(ids, groups, error)
  {
    var seen := Members(groups[..i]) + MembersUpTo(groups[i], j);
    MembersUpToPoint(groups, i, j);
    assert forall p :: 0 <= p < |seen| ==> seen[p] == Members(groups)[p];
    assert groups[i].nodeIds[j - 1] in groups[i].nodeIds;
    assert ListedAgain(seen, groups[i].nodeIds[j - 1]) ==> ListedAgain(Members(groups), groups[i].nodeIds[j - 1]);
    if Accepts(ids, groups) {
      AcceptedSoFar(ids, groups, i, j);
      assert false;
    }
  }

  ghost function Names(groups: seq<Group>): set<string> {
    set g | g in groups :: g.name
  }

  lemma OneMoreName(groups: seq<Group>, group: Group)
    requires NamesDistinct(groups)
    ensures Names(groups + [group]) == Names(groups) + {group.name}
    ensures NamesDistinct(groups + [group]) <==> group.name !in Names(groups)
  {
    var more := groups + [group];
    assert forall g :: g in more <==> g in groups || g == group;
    if group.name in Names(groups) {
      var k :| 0 <= k < |groups| && groups[k].name == group.name;
      assert more[k].name == more[|groups|].name;
    }
  }

  /** A name seen among the first `i` groups and borne again by the next. */
  lemma RepeatedName(ids: seq<string>, groups: seq<Group>, i: nat)
    requires i < |groups| && groups[i].name in Names(groups[..i])
    ensures !Accepts(ids, groups) && Justified(ids, groups, DuplicateName(groups[i].name))
  {
  }

  lemma OneMoreGroup(ids: seq<string>, groups: seq<Group>, i: nat)
    requires i < |groups| && Known(ids, Members(groups[..i]))
    requires forall m :: m in MembersOf(groups[i]) ==> m.nodeId in ids && m.nodeId != ""
    ensures groups[..i + 1] == groups[..i] + [groups[i]]
    ensures Members(groups[..i + 1]) == Members(groups[..i]) + MembersOf(groups[i])
    ensures Known(ids, Members(groups[..i + 1]))
  {
  }

  /** `validateWorkflowNodeGroups`: no error if and only if the groups are acceptable. */
  method ValidateWorkflowNodeGroups(ids: seq<string>, groups: seq<Group>) returns (error: Option<GroupError>)
    ensures error.None? <==> Accepts(ids, groups)
    ensures error.Some? ==> Justified(ids, groups, error.value)
  {
    var nodeIds := set id | id in ids && id != "";
    var seenNames: set<string> := {};
    var nodeToGroup: map<string, string> := map[];
    for i := 0 to |groups|
      invariant seenNames == Names(groups[..i]) && NamesDistinct(groups[..i])
      invariant Known(ids, Members(groups[..i])) && Exclusive(Members(groups[..i]))
      invariant nodeToGroup == LatestGroup(Members(groups[..i]))
    {
      var group := groups[i];
      OneMoreName(groups[..i], group);
      if group.name in seenNames {
        RepeatedName(ids, groups, i);
        return Some(DuplicateName(group.name));
      }
      seenNames := seenNames + {group.name};
      ghost var done;
      error, nodeToGroup, done := ValidateGroup(nodeIds, group, nodeToGroup, Members(groups[..i]));
      if error.Some? {
        FaultRejects(ids, groups, i, done, nodeIds, error.value);
        return;
      }
      OneMoreGroup(ids, groups, i);
    }
    assert groups[..|groups|] == groups;
    return None;
  }
}
