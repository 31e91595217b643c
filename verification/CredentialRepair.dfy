/**
  `replaceInvalidCredentials`: credential references of a workflow are replaced by what the database
  knows, with two caches that save queries. Proved here: what the caches do to the result, exactly.
 */
module CredentialRepair {
  import opened Basics

  /** A node's reference to a credential, in the forms that stored workflows contain. */
  datatype Ref = Absent | Managed | Name(name: string) | Details(id: Option<string>, name: string)

  datatype Slot = Slot(credType: string, ref: Ref)

  /** A node; one without `credentials` has no slots. */
  datatype Node = Node(disabled: bool, slots: seq<Slot>)

  datatype Row = Row(name: string, credType: string, projects: set<string>)

  /** The credentials table, by primary key. */
  type Database = map<string, Row>

  /** `findByNameAndTypeInProject`. */
  function FindByName(db: Database, project: string, name: string, credType: string): set<string> {
    set id | id in db && db[id].name == name && db[id].credType == credType && project in db[id].projects
  }

  /** `findOneBy({ id, type })`. */
  predicate Exists(db: Database, id: string, credType: string) {
    id in db && db[id].credType == credType
  }

  predicate Unique(db: Database, project: string, name: string, credType: string) {
    |FindByName(db, project, name, credType)| == 1
  }

  ghost function TheOne(ids: set<string>): (id: string)
    requires |ids| == 1
    ensures ids == {id}
  {
    var id :| id in ids;
    assert |ids - {id}| == 0;
    assert ids == ids - {id} + {id};
    id
  }

  /** The reference found by a name that is unique for its type. */
  ghost function ByName(db: Database, project: string, name: string, credType: string): Ref
    requires Unique(db, project, name, credType)
  {
    Details(Some(TheOne(FindByName(db, project, name, credType))), name)
  }

  predicate Named(ref: Ref) {
    ref.Name? || (ref.Details? && ref.id.None?)
  }

  predicate Identified(ref: Ref) {
    ref.Details? && ref.id.Some?
  }

  // ---------------------------------------------------------------------
  // Without caches
  // ---------------------------------------------------------------------

  /** The repair of one reference on its own. */
  ghost function Repair(db: Database, project: string, slot: Slot): Ref {
    var t, ref := slot.credType, slot.ref;
    if Named(ref) then
      if Unique(db, project, ref.name, t) then ByName(db, project, ref.name, t) else ref
    else if Identified(ref) then
      if Exists(db, ref.id.value, t) then Details(ref.id, db[ref.id.value].name)
      else if Unique(db, project, ref.name, t) then ByName(db, project, ref.name, t)
      else ref
    else ref
  }

  /** A bare name and a reference with a null id say the same. */
  function Canonical(ref: Ref): Ref {
    if ref.Name? then Details(None, ref.name) else ref
  }

  // ---------------------------------------------------------------------
  // With caches
  // ---------------------------------------------------------------------

  type Key = (string, string)

  datatype Caches = Caches(byName: map<Key, Ref>, byId: map<Key, Ref>)

  /** A reference that neither its id nor its name resolves. */
  ghost predicate Dangling(db: Database, project: string, slot: Slot) {
    && Identified(slot.ref)
    && !Exists(db, slot.ref.id.value, slot.credType)
    && !Unique(db, project, slot.ref.name, slot.credType)
  }

  ghost predicate DanglingAs(db: Database, project: string, slot: Slot, key: Key) {
    Dangling(db, project, slot) && slot.credType == key.0 && slot.ref.id == Some(key.1)
  }

  ghost predicate NamedAs(slot: Slot, key: Key) {
    Named(slot.ref) && slot.credType == key.0 && slot.ref.name == key.1
  }

  /** The first reference among `slots` that dangles under `key`. */
  ghost function FirstDangling(db: Database, project: string, slots: seq<Slot>, key: Key): Option<Ref> {
    if slots == [] then None
    else
      var front, last := slots[..|slots| - 1], slots[|slots| - 1];
      var earlier := FirstDangling(db, project, front, key);
      if earlier.Some? then earlier else if DanglingAs(db, project, last, key) then Some(last.ref) else None
  }

  ghost predicate NameSeen(slots: seq<Slot>, key: Key) {
    exists slot :: slot in slots && NamedAs(slot, key)
  }

  /** What the code makes of a slot, given the slots it has handled before. */
  ghost function Cached(db: Database, project: string, before: seq<Slot>, slot: Slot): Ref {
    var t, ref := slot.credType, slot.ref;
    if Named(ref) && NameSeen(before, (t, ref.name)) then Canonical(Repair(db, project, slot))
    else if Identified(ref) && FirstDangling(db, project, before, (t, ref.id.value)).Some? then
      FirstDangling(db, project, before, (t, ref.id.value)).value
    else Repair(db, project, slot)
  }

  /** The slots in order, each given what was handled before it. */
  ghost function Repaired(db: Database, project: string, slots: seq<Slot>): (r: seq<Slot>)
    ensures |r| == |slots|
    decreases |slots|
  {
    if slots == [] then []
    else
      var front, last := slots[..|slots| - 1], slots[|slots| - 1];
      Repaired(db, project, front) + [Slot(last.credType, Cached(db, project, front, last))]
  }

  lemma RepairedSnoc(db: Database, project: string, seen: seq<Slot>, slot: Slot)
    ensures Repaired(db, project, seen + [slot])
         == Repaired(db, project, seen) + [Slot(slot.credType, Cached(db, project, seen, slot))]
  {
  }

  lemma {:induction false} RepairedAt(db: Database, project: string, slots: seq<Slot>, j: nat)
    requires j < |slots|
    ensures Repaired(db, project, slots)[j] == Slot(slots[j].credType, Cached(db, project, slots[..j], slots[j]))
    decreases |slots|
  {
    var front := slots[..|slots| - 1];
    if j < |front| {
      RepairedAt(db, project, front, j);
      assert front[..j] == slots[..j];
    }
  }

  /** The slots of all enabled nodes, in order. */
  function Active(nodes: seq<Node>): seq<Slot> {
    if nodes == [] then []
    else
      var front, last := Active(nodes[..|nodes| - 1]), nodes[|nodes| - 1];
      if last.disabled then front else front + last.slots
  }

  lemma ActiveSnoc(nodes: seq<Node>, node: Node)
    ensures Active(nodes + [node]) == if node.disabled then Active(nodes) else Active(nodes) + node.slots
  {
  }

  ghost function NameAnswer(db: Database, project: string, key: Key): Ref {
    Canonical(Repair(db, project, Slot(key.0, Name(key.1))))
  }

  /** The name cache holds the answer for every name met so far. */
  ghost predicate NamesOk(db: Database, project: string, byName: map<Key, Ref>, before: seq<Slot>) {
    && (forall key :: key in byName <==> NameSeen(before, key))
    && (forall key :: key in byName ==> byName[key] == NameAnswer(db, project, key))
  }

  /** The id cache holds existing rows, and for ids without a row the first reference that dangled. */
  ghost predicate IdsOk(db: Database, project: string, byId: map<Key, Ref>, before: seq<Slot>) {
    && (forall key :: key in byId && Exists(db, key.1, key.0) ==>
          byId[key] == Details(Some(key.1), db[key.1].name))
    && (forall key: Key :: !Exists(db, key.1, key.0) ==>
          FirstDangling(db, project, before, key) == (if key in byId then Some(byId[key]) else None))
  }

  ghost predicate CachesOk(db: Database, project: string, caches: Caches, before: seq<Slot>) {
    NamesOk(db, project, caches.byName, before) && IdsOk(db, project, caches.byId, before)
  }

  lemma NamesExtend(db: Database, project: string, byName: map<Key, Ref>, before: seq<Slot>, slot: Slot)
    requires NamesOk(db, project, byName, before)
    ensures !Named(slot.ref) ==> NamesOk(db, project, byName, before + [slot])
    ensures Named(slot.ref) ==>
      var key := (slot.credType, slot.ref.name);
      && NamesOk(db, project, byName[key := NameAnswer(db, project, key)], before + [slot])
      && (key in byName ==> NamesOk(db, project, byName, before + [slot]))
  {
    forall key ensures NameSeen(before + [slot], key) <==> NameSeen(before, key) || NamedAs(slot, key) {
      NameSeenExtends(before, slot, key);
    }
  }

  lemma IdsExtend(db: Database, project: string, byId: map<Key, Ref>, before: seq<Slot>, slot: Slot)
    requires IdsOk(db, project, byId, before)
    ensures !Dangling(db, project, slot) ==> IdsOk(db, project, byId, before + [slot])
    ensures Dangling(db, project, slot) ==>
      var key := (slot.credType, slot.ref.id.value);
      IdsOk(db, project, if key in byId then byId else byId[key := slot.ref], before + [slot])
  {
  }

  lemma IdsWithRow(db: Database, project: string, byId: map<Key, Ref>, before: seq<Slot>, key: Key)
    requires IdsOk(db, project, byId, before) && Exists(db, key.1, key.0)
    ensures IdsOk(db, project, byId[key := Details(Some(key.1), db[key.1].name)], before)
  {
  }

  /** A dangling reference never has a row, so it is only ever met again as itself. */
  lemma {:induction false} FirstDanglingKey(db: Database, project: string, slots: seq<Slot>, key: Key)
    ensures FirstDangling(db, project, slots, key).Some? ==>
      exists j :: 0 <= j < |slots| && DanglingAs(db, project, slots[j], key)
        && FirstDangling(db, project, slots, key).value == slots[j].ref
    ensures FirstDangling(db, project, slots, key).None? ==>
      forall j :: 0 <= j < |slots| ==> !DanglingAs(db, project, slots[j], key)
    decreases |slots|
  {
    if slots != [] {
      var front := slots[..|slots| - 1];
      FirstDanglingKey(db, project, front, key);
      assert forall j :: 0 <= j < |front| ==> front[j] == slots[j];
    }
  }

  lemma NameSeenExtends(before: seq<Slot>, slot: Slot, key: Key)
    ensures NameSeen(before + [slot], key) <==> NameSeen(before, key) || NamedAs(slot, key)
  {
  }

  /** A reference without an id: looked up by name once, then served from the cache. */
  method RepairNamed(db: Database, project: string, byName: map<Key, Ref>, slot: Slot, ghost before: seq<Slot>)
    returns (ref: Ref, byName': map<Key, Ref>)
    requires NamesOk(db, project, byName, before) && Named(slot.ref)
    ensures ref == Cached(db, project, before, slot)
    ensures NamesOk(db, project, byName', before + [slot])
  {
    var t, name := slot.credType, slot.ref.name;
    NamesExtend(db, project, byName, before, slot);
    ref, byName' := slot.ref, byName;
    if (t, name) !in byName {
      var found := FindByName(db, project, name, t);
      if |found| == 1 {
        var id :| id in found;
        assert found == {TheOne(found)};
        ref := Details(Some(id), db[id].name);
        byName' := byName[(t, name) := ref];
      } else {
        byName' := byName[(t, name) := Details(None, name)];
      }
    } else {
      ref := byName[(t, name)];
    }
  }

  /** A reference with an id: looked up by id, then by name; a second meeting is served from the cache. */
  method RepairIdentified(db: Database, project: string, byId: map<Key, Ref>, slot: Slot, ghost before: seq<Slot>)
    returns (ref: Ref, byId': map<Key, Ref>)
    requires IdsOk(db, project, byId, before) && Identified(slot.ref)
    ensures ref == Cached(db, project, before, slot)
    ensures IdsOk(db, project, byId', before + [slot])
  {
    var t, id := slot.credType, slot.ref.id.value;
    IdsExtend(db, project, byId, before, slot);
    FirstDanglingKey(db, project, before, (t, id));
    ref, byId' := slot.ref, byId;
    if (t, id) in byId {
      ref := byId[(t, id)];
    } else if id in db && db[id].credType == t {
      ref := Details(Some(id), db[id].name);
      byId' := byId[(t, id) := ref];
      IdsWithRow(db, project, byId, before + [slot], (t, id));
    } else {
      var found := FindByName(db, project, slot.ref.name, t);
      if |found| == 1 {
        var rid :| rid in found;
        assert found == {TheOne(found)};
        ref := Details(Some(rid), db[rid].name);
        byId' := byId[(t, rid) := ref];
        IdsWithRow(db, project, byId, before + [slot], (t, rid));
      } else {
        byId' := byId[(t, id) := slot.ref];
      }
    }
  }

  /** Where the code stands after the slots `seen`: `done` is what it made of them. */
  ghost predicate Reached(db: Database, project: string, caches: Caches, seen: seq<Slot>, done: seq<Slot>) {
    done == Repaired(db, project, seen) && CachesOk(db, project, caches, seen)
  }

  /** The body of the inner loop. */
  method RepairSlot(db: Database, project: string, caches: Caches, slot: Slot, ghost seen: seq<Slot>, ghost done: seq<Slot>)
    returns (repaired: Slot, caches': Caches)
    requires Reached(db, project, caches, seen, done)
    ensures Reached(db, project, caches', seen + [slot], done + [repaired])
  {
    NamesExtend(db, project, caches.byName, seen, slot);
    IdsExtend(db, project, caches.byId, seen, slot);
    RepairedSnoc(db, project, seen, slot);
    repaired, caches' := slot, caches;
    if Named(slot.ref) {
      var ref, byName := RepairNamed(db, project, caches.byName, slot, seen);
      repaired, caches' := slot.(ref := ref), caches.(byName := byName);
    } else if Identified(slot.ref) {
      var ref, byId := RepairIdentified(db, project, caches.byId, slot, seen);
      repaired, caches' := slot.(ref := ref), caches.(byId := byId);
    }
  }

  /** The inner loop: the slots of one enabled node. */
  method RepairSlots(db: Database, project: string, caches: Caches, slots: seq<Slot>, ghost seen: seq<Slot>, ghost done: seq<Slot>)
    returns (repaired: seq<Slot>, caches': Caches)
    requires Reached(db, project, caches, seen, done)
    ensures |repaired| == |slots| && Reached(db, project, caches', seen + slots, done + repaired)
  {
    repaired, caches' := [], caches;
    assert seen + slots[..0] == seen && done + repaired == done;
    for i := 0 to |slots|
      invariant |repaired| == i && Reached(db, project, caches', seen + slots[..i], done + repaired)
    {
      var slot;
      slot, caches' := RepairSlot(db, project, caches', slots[i], seen + slots[..i], done + repaired);
      Append(seen, slots[..i], slots[i]);
      TakeNext(slots, i);
      Append(done, repaired, slot);
      repaired := repaired + [slot];
    }
    assert slots[..|slots|] == slots;
  }

  /** A node's slots may get new references; a disabled node gets none. */
  ghost predicate OnlySlotsChange(was: Node, now: Node) {
    now.disabled == was.disabled && |now.slots| == |was.slots| && (was.disabled ==> now == was)
  }

  /** The body of the outer loop. */
  method RepairNode(db: Database, project: string, caches: Caches, node: Node, ghost was: seq<Node>, ghost done: seq<Node>)
    returns (repaired: Node, caches': Caches)
    requires Reached(db, project, caches, Active(was), Active(done))
    ensures Reached(db, project, caches', Active(was + [node]), Active(done + [repaired]))
    ensures OnlySlotsChange(node, repaired)
  {
    repaired, caches' := node, caches;
    if !node.disabled {
      var slots;
      slots, caches' := RepairSlots(db, project, caches, node.slots, Active(was), Active(done));
      repaired := node.(slots := slots);
    }
    ActiveSnoc(was, node);
    ActiveSnoc(done, repaired);
  }

  /** `replaceInvalidCredentials`: disabled nodes stay as they are, the others are repaired in order. */
  method ReplaceInvalidCredentials(db: Database, project: string, nodes: array<Node>)
    modifies nodes
    ensures Active(nodes[..]) == Repaired(db, project, Active(old(nodes[..])))
    ensures forall i :: 0 <= i < nodes.Length ==> OnlySlotsChange(old(nodes[i]), nodes[i])
  {
    var caches := Caches(map[], map[]);
    ghost var was, done := nodes[..], [];
    Started(db, project, was);
    for i := 0 to nodes.Length
      invariant nodes[..] == done + was[i..] && Handled(db, project, caches, was, i, done)
    {
      var node;
      node, caches := RepairNode(db, project, caches, nodes[i], was[..i], done);
      HandledNext(db, project, caches, was, i, done, node);
      WriteNext(done, was, i, node);
      nodes[i] := node;
      done := done + [node];
    }
    assert was[..nodes.Length] == was && done == nodes[..];
  }

  /** Where the outer loop stands after `i` nodes: `done` is what became of them. */
  ghost predicate Handled(db: Database, project: string, caches: Caches, was: seq<Node>, i: nat, done: seq<Node>) {
    i == |done| <= |was| && OnlySlotsChanged(was, done) && Reached(db, project, caches, Active(was[..i]), Active(done))
  }

  lemma Started(db: Database, project: string, was: seq<Node>)
    ensures Handled(db, project, Caches(map[], map[]), was, 0, []) && was == [] + was[0..]
  {
  }

  lemma HandledNext(db: Database, project: string, caches: Caches, was: seq<Node>, i: nat, done: seq<Node>, node: Node)
    requires i == |done| < |was| && OnlySlotsChanged(was, done) && OnlySlotsChange(was[i], node)
    requires Reached(db, project, caches, Active(was[..i] + [was[i]]), Active(done + [node]))
    ensures Handled(db, project, caches, was, i + 1, done + [node])
  {
    TakeNext(was, i);
    OneMoreChanged(was, done, node);
  }

  ghost predicate OnlySlotsChanged(was: seq<Node>, done: seq<Node>) {
    |done| <= |was| && forall k :: 0 <= k < |done| ==> OnlySlotsChange(was[k], done[k])
  }

  lemma OneMoreChanged(was: seq<Node>, done: seq<Node>, node: Node)
    requires OnlySlotsChanged(was, done) && |done| < |was| && OnlySlotsChange(was[|done|], node)
    ensures OnlySlotsChanged(was, done + [node])
  {
  }

  lemma WriteNext<T>(done: seq<T>, was: seq<T>, i: nat, x: T)
    requires i == |done| < |was|
    ensures (done + was[i..])[i := x] == done + [x] + was[i + 1..]
  {
  }

  // ---------------------------------------------------------------------
  // What the caches do to the result
  // ---------------------------------------------------------------------

  lemma {:induction false} FirstDanglingStays(db: Database, project: string, slots: seq<Slot>, a: nat, b: nat, key: Key)
    requires a <= b <= |slots| && FirstDangling(db, project, slots[..a], key).Some?
    ensures FirstDangling(db, project, slots[..b], key) == FirstDangling(db, project, slots[..a], key)
    decreases b - a
  {
    if a < b {
      FirstDanglingStays(db, project, slots, a, b - 1, key);
      assert slots[..b][..b - 1] == slots[..b - 1];
    }
  }

  lemma DanglingIsRemembered(db: Database, project: string, slots: seq<Slot>, i: nat, key: Key)
    requires i < |slots| && DanglingAs(db, project, slots[i], key)
    ensures FirstDangling(db, project, slots[..i + 1], key) ==
      var earlier := FirstDangling(db, project, slots[..i], key);
      if earlier.Some? then earlier else Some(slots[i].ref)
  {
    assert slots[..i + 1][..i] == slots[..i];
  }

  /** A repaired reference that still dangles is the one remembered for its type and id. */
  lemma DanglingResult(db: Database, project: string, slots: seq<Slot>, i: nat, key: Key)
    requires i < |slots| && DanglingAs(db, project, Repaired(db, project, slots)[i], key)
    ensures FirstDangling(db, project, slots[..i + 1], key) == Some(Repaired(db, project, slots)[i].ref)
  {
    RepairedAt(db, project, slots, i);
    var slot := slots[i];
    if Identified(slot.ref) {
      var own := (slot.credType, slot.ref.id.value);
      FirstDanglingKey(db, project, slots[..i], own);
      assert own == key;
      if FirstDangling(db, project, slots[..i], key).Some? {
        FirstDanglingStays(db, project, slots, i, i + 1, key);
      } else {
        DanglingIsRemembered(db, project, slots, i, key);
      }
    }
  }

  /** References that share type and id with an earlier unresolvable one also share its name. */
  ghost predicate NamesAgree(db: Database, project: string, slots: seq<Slot>) {
    forall i, j :: 0 <= i < j < |slots| && Dangling(db, project, slots[i]) && Identified(slots[j].ref)
      && slots[i].credType == slots[j].credType && slots[i].ref.id == slots[j].ref.id
      ==> slots[i].ref.name == slots[j].ref.name
  }

  ghost predicate SameAsUncached(db: Database, project: string, slots: seq<Slot>, j: nat)
    requires j < |slots|
  {
    Canonical(Repaired(db, project, slots)[j].ref) == Canonical(Repair(db, project, slots[j]))
  }

  lemma NamesAgreeSuffices(db: Database, project: string, slots: seq<Slot>, j: nat)
    requires NamesAgree(db, project, slots) && j < |slots|
    ensures SameAsUncached(db, project, slots, j)
  {
    RepairedAt(db, project, slots, j);
    if Identified(slots[j].ref) {
      FirstDanglingKey(db, project, slots[..j], (slots[j].credType, slots[j].ref.id.value));
    }
  }

  /** A second reference under a dangling key keeps its own answer only if it has the remembered name. */
  lemma NameMustMatch(db: Database, project: string, slots: seq<Slot>, j: nat, key: Key)
    requires j < |slots| && SameAsUncached(db, project, slots, j)
    requires Identified(slots[j].ref) && key == (slots[j].credType, slots[j].ref.id.value)
    requires FirstDangling(db, project, slots[..j], key).Some?
    ensures FirstDangling(db, project, slots[..j], key).value == slots[j].ref
  {
    RepairedAt(db, project, slots, j);
    FirstDanglingKey(db, project, slots[..j], key);
  }

  lemma NamesAgreeNeeded(db: Database, project: string, slots: seq<Slot>, i: nat, j: nat)
    requires forall x :: 0 <= x < |slots| ==> SameAsUncached(db, project, slots, x)
    requires i < j < |slots| && Dangling(db, project, slots[i]) && Identified(slots[j].ref)
    requires slots[i].credType == slots[j].credType && slots[i].ref.id == slots[j].ref.id
    ensures slots[i].ref.name == slots[j].ref.name
  {
    var key := (slots[i].credType, slots[i].ref.id.value);
    DanglingIsRemembered(db, project, slots, i, key);
    if FirstDangling(db, project, slots[..i], key).Some? {
      NameMustMatch(db, project, slots, i, key);
    }
    FirstDanglingStays(db, project, slots, i + 1, j, key);
    NameMustMatch(db, project, slots, j, key);
  }

  /**
    The exact condition under which the caches do not show: every reference is repaired as it would be
    on its own if and only if no unresolvable id is used with two names.
   */
  lemma CachesInvisibleExactly(db: Database, project: string, slots: seq<Slot>)
    ensures (forall j :: 0 <= j < |slots| ==> SameAsUncached(db, project, slots, j)) <==> NamesAgree(db, project, slots)
  {
    if NamesAgree(db, project, slots) {
      forall j | 0 <= j < |slots| ensures SameAsUncached(db, project, slots, j) {
        NamesAgreeSuffices(db, project, slots, j);
      }
    }
    if forall j :: 0 <= j < |slots| ==> SameAsUncached(db, project, slots, j) {
      forall i, j | 0 <= i < j < |slots| && Dangling(db, project, slots[i]) && Identified(slots[j].ref)
        && slots[i].credType == slots[j].credType && slots[i].ref.id == slots[j].ref.id
        ensures slots[i].ref.name == slots[j].ref.name
      {
        NamesAgreeNeeded(db, project, slots, i, j);
      }
    }
  }

  /** The condition can fail: the second name would have resolved on its own. */
  lemma CachesCanShow(db: Database, project: string, t: string, id: string, lost: string, known: string)
    requires !Exists(db, id, t) && !Unique(db, project, lost, t) && Unique(db, project, known, t)
    ensures var slots := [Slot(t, Details(Some(id), lost)), Slot(t, Details(Some(id), known))];
      Repaired(db, project, slots)[1].ref == Details(Some(id), lost) != Repair(db, project, slots[1])
  {
  }

  /** Whatever the input, an id in the result was there before or belongs to a row of that type. */
  lemma IdsAreReal(db: Database, project: string, slots: seq<Slot>, j: nat)
    requires j < |slots| && Identified(Repaired(db, project, slots)[j].ref)
    ensures var ref := Repaired(db, project, slots)[j].ref;
      (slots[j].ref.Details? && ref.id == slots[j].ref.id) || Exists(db, ref.id.value, slots[j].credType)
  {
    RepairedAt(db, project, slots, j);
    if Identified(slots[j].ref) {
      FirstDanglingKey(db, project, slots[..j], (slots[j].credType, slots[j].ref.id.value));
    }
    if slots[j].ref.Name? || slots[j].ref.Details? {
      if Unique(db, project, slots[j].ref.name, slots[j].credType) {
        var found := FindByName(db, project, slots[j].ref.name, slots[j].credType);
        assert TheOne(found) in found;
      }
    }
  }

  // ---------------------------------------------------------------------
  // What a repair achieves, in terms of the database
  // ---------------------------------------------------------------------

  predicate Bears(db: Database, project: string, name: string, credType: string, id: string) {
    id in db && db[id].name == name && db[id].credType == credType && project in db[id].projects
  }

  /** The row is the only one of its type in the project that bears the name. */
  ghost predicate OnlyRow(db: Database, project: string, name: string, credType: string, id: string) {
    && Bears(db, project, name, credType, id)
    && forall other :: Bears(db, project, name, credType, other) ==> other == id
  }

  lemma UniqueIsOnlyRow(db: Database, project: string, name: string, credType: string)
    ensures Unique(db, project, name, credType) <==> exists id :: OnlyRow(db, project, name, credType, id)
    ensures Unique(db, project, name, credType) ==>
      OnlyRow(db, project, name, credType, TheOne(FindByName(db, project, name, credType)))
  {
    var found := FindByName(db, project, name, credType);
    if Unique(db, project, name, credType) {
      assert TheOne(found) in found;
      forall other | Bears(db, project, name, credType, other) ensures other == TheOne(found) {
        assert other in found;
      }
      assert OnlyRow(db, project, name, credType, TheOne(found));
    }
    if id :| OnlyRow(db, project, name, credType, id) {
      forall other ensures other in found <==> other == id {
        assert other in found ==> Bears(db, project, name, credType, other);
      }
      assert found == {id};
    }
  }

  /** What is left without an existing row has a name that no single row of its type in the project bears. */
  lemma RepairIsComplete(db: Database, project: string, slots: seq<Slot>, j: nat, id: string)
    requires j < |slots|
    ensures var t, ref := slots[j].credType, Repaired(db, project, slots)[j].ref;
      Named(ref) || (Identified(ref) && !(ref.id.value in db && db[ref.id.value].credType == t))
      ==> !OnlyRow(db, project, ref.name, t, id)
  {
    var t, ref := slots[j].credType, Repaired(db, project, slots)[j].ref;
    if Named(ref) {
      FirstPassNamed(db, project, slots, j);
      UniqueIsOnlyRow(db, project, ref.name, t);
    } else if Identified(ref) && !Exists(db, ref.id.value, t) {
      UnresolvedStaysDangling(db, project, slots, j);
      UniqueIsOnlyRow(db, project, ref.name, t);
    }
  }

  lemma UnresolvedStaysDangling(db: Database, project: string, slots: seq<Slot>, j: nat)
    requires j < |slots|
    requires var ref := Repaired(db, project, slots)[j].ref; Identified(ref) && !Exists(db, ref.id.value, slots[j].credType)
    ensures !Unique(db, project, Repaired(db, project, slots)[j].ref.name, slots[j].credType)
  {
    RepairedAt(db, project, slots, j);
    var slot := slots[j];
    if Identified(slot.ref) {
      FirstDanglingKey(db, project, slots[..j], (slot.credType, slot.ref.id.value));
    }
    if Named(slot.ref) || Identified(slot.ref) {
      UniqueIsOnlyRow(db, project, slot.ref.name, slot.credType);
    }
  }

  /** A reference to an existing row keeps its id and takes the row's name; what is no reference stays as it is. */
  lemma ExistingRowsAreKept(db: Database, project: string, slots: seq<Slot>, j: nat)
    requires j < |slots|
    ensures var t, was, now := slots[j].credType, slots[j].ref, Repaired(db, project, slots)[j];
      && now.credType == t
      && (was.Absent? || was.Managed? ==> now.ref == was)
      && (was.Details? && was.id.Some? && was.id.value in db && db[was.id.value].credType == t ==>
            now.ref == Details(was.id, db[was.id.value].name))
  {
    RepairedAt(db, project, slots, j);
    if Identified(slots[j].ref) {
      FirstDanglingKey(db, project, slots[..j], (slots[j].credType, slots[j].ref.id.value));
    }
  }

  /** No earlier reference of the same type and id was left unresolved. */
  ghost predicate NotForestalled(db: Database, project: string, slots: seq<Slot>, j: nat)
    requires j < |slots|
  {
    Identified(slots[j].ref) ==>
      forall i :: 0 <= i < j ==> !DanglingAs(db, project, slots[i], (slots[j].credType, slots[j].ref.id.value))
  }

  /**
    A reference whose id leads nowhere, or that has none, is repaired to the only row of its type in the
    project that bears its name, if there is one and the id cache does not forestall it.
   */
  lemma OnlyRowIsFound(db: Database, project: string, slots: seq<Slot>, j: nat, id: string)
    requires j < |slots| && slots[j].ref != Absent && slots[j].ref != Managed
    requires slots[j].ref.Details? && slots[j].ref.id.Some? ==> !Exists(db, slots[j].ref.id.value, slots[j].credType)
    requires OnlyRow(db, project, slots[j].ref.name, slots[j].credType, id) && NotForestalled(db, project, slots, j)
    ensures Repaired(db, project, slots)[j].ref == Details(Some(id), db[id].name)
  {
    RepairedAt(db, project, slots, j);
    UniqueIsOnlyRow(db, project, slots[j].ref.name, slots[j].credType);
    if Identified(slots[j].ref) {
      FirstDanglingKey(db, project, slots[..j], (slots[j].credType, slots[j].ref.id.value));
    }
  }

  /** What cannot be repaired keeps its id, or stays without one under its own name. */
  lemma NothingIsInvented(db: Database, project: string, slots: seq<Slot>, j: nat)
    requires j < |slots|
    requires var ref := Repaired(db, project, slots)[j].ref;
      Named(ref) || (Identified(ref) && !Exists(db, ref.id.value, slots[j].credType))
    ensures var was, now := slots[j].ref, Repaired(db, project, slots)[j].ref;
      && (Named(now) ==> Named(was) && now.name == was.name)
      && (Identified(now) ==> Identified(was) && now.id == was.id && exists i :: 0 <= i <= j && slots[i].ref == now)
  {
    RepairedAt(db, project, slots, j);
    if Named(Repaired(db, project, slots)[j].ref) {
      FirstPassNamed(db, project, slots, j);
    } else {
      if Named(slots[j].ref) || Identified(slots[j].ref) {
        UniqueIsOnlyRow(db, project, slots[j].ref.name, slots[j].credType);
      }
      if Identified(slots[j].ref) {
        var key := (slots[j].credType, slots[j].ref.id.value);
        FirstDanglingKey(db, project, slots[..j], key);
        if FirstDangling(db, project, slots[..j], key).Some? {
          var i :| 0 <= i < j && DanglingAs(db, project, slots[..j][i], key)
            && FirstDangling(db, project, slots[..j], key).value == slots[..j][i].ref;
          assert slots[i].ref == Repaired(db, project, slots)[j].ref;
        } else {
          assert slots[j].ref == Repaired(db, project, slots)[j].ref;
        }
      }
    }
  }

  /** A bare name that cannot be repaired stays as it is the first time, and gets a `null` id when the name is met again. */
  lemma BareNameMetAgain(db: Database, project: string, slots: seq<Slot>, j: nat)
    requires j < |slots| && slots[j].ref.Name? && Named(Repaired(db, project, slots)[j].ref)
    ensures Repaired(db, project, slots)[j].ref ==
      if exists i :: 0 <= i < j && NamedAs(slots[i], (slots[j].credType, slots[j].ref.name))
      then Details(None, slots[j].ref.name) else slots[j].ref
  {
    RepairedAt(db, project, slots, j);
    var key := (slots[j].credType, slots[j].ref.name);
    if i :| 0 <= i < j && NamedAs(slots[i], key) {
      assert slots[..j][i] in slots[..j];
    } else {
      assert !NameSeen(slots[..j], key);
    }
  }

  lemma SecondPassSlot(db: Database, project: string, slots: seq<Slot>, j: nat)
    requires j < |slots|
    ensures var once := Repaired(db, project, slots);
      Cached(db, project, once[..j], once[j]) == once[j].ref
  {
    RepairedAt(db, project, slots, j);
    var once := Repaired(db, project, slots);
    var t, ref := slots[j].credType, once[j].ref;
    if Named(ref) {
      if NameSeen(once[..j], (t, ref.name)) {
        var slot :| slot in once[..j] && NamedAs(slot, (t, ref.name));
        var i :| 0 <= i < j && once[i] == slot;
        RepairedAt(db, project, slots, i);
        FirstPassNamed(db, project, slots, i);
        FirstPassNamed(db, project, slots, j);
        assert slots[i] in slots[..j] && NamedAs(slots[i], (t, ref.name));
      } else {
        FirstPassNamed(db, project, slots, j);
      }
    } else if Identified(ref) {
      var key := (t, ref.id.value);
      FirstDanglingKey(db, project, once[..j], key);
      if FirstDangling(db, project, once[..j], key).Some? {
        var i :| 0 <= i < j && DanglingAs(db, project, once[i], key)
          && FirstDangling(db, project, once[..j], key).value == once[i].ref;
        DanglingResult(db, project, slots, i, key);
        FirstDanglingStays(db, project, slots, i + 1, j, key);
        SecondPassRemembered(db, project, slots, j, key);
      } else {
        SecondPassFixed(db, project, slots, j);
      }
    }
  }

  /** A reference left without an id had none before, under the same name, which is not unique. */
  lemma FirstPassNamed(db: Database, project: string, slots: seq<Slot>, j: nat)
    requires j < |slots| && Named(Repaired(db, project, slots)[j].ref)
    ensures var ref := Repaired(db, project, slots)[j].ref;
      && Named(slots[j].ref) && slots[j].ref.name == ref.name
      && !Unique(db, project, ref.name, slots[j].credType)
      && (NameSeen(slots[..j], (slots[j].credType, ref.name)) ==> ref == Canonical(ref))
  {
    RepairedAt(db, project, slots, j);
    if Identified(slots[j].ref) {
      FirstDanglingKey(db, project, slots[..j], (slots[j].credType, slots[j].ref.id.value));
    }
  }

  lemma SecondPassRemembered(db: Database, project: string, slots: seq<Slot>, j: nat, key: Key)
    requires j < |slots|
    requires var once := Repaired(db, project, slots);
      Identified(once[j].ref) && key == (once[j].credType, once[j].ref.id.value)
    requires FirstDangling(db, project, slots[..j], key).Some?
    ensures Repaired(db, project, slots)[j].ref == FirstDangling(db, project, slots[..j], key).value
  {
    RepairedAt(db, project, slots, j);
    FirstDanglingKey(db, project, slots[..j], key);
    IdsAreReal(db, project, slots, j);
  }

  /** With nothing remembered, looking the result up again finds it unchanged. */
  lemma SecondPassFixed(db: Database, project: string, slots: seq<Slot>, j: nat)
    requires j < |slots| && Identified(Repaired(db, project, slots)[j].ref)
    ensures Repair(db, project, Repaired(db, project, slots)[j]) == Repaired(db, project, slots)[j].ref
  {
    RepairedAt(db, project, slots, j);
    if Identified(slots[j].ref) {
      FirstDanglingKey(db, project, slots[..j], (slots[j].credType, slots[j].ref.id.value));
    }
    if slots[j].ref.Name? || slots[j].ref.Details? {
      if Unique(db, project, slots[j].ref.name, slots[j].credType) {
        var found := FindByName(db, project, slots[j].ref.name, slots[j].credType);
        assert TheOne(found) in found;
      }
    }
  }

  /** A second pass over the same database changes nothing, whatever the caches did in the first. */
  lemma SecondPassChangesNothing(db: Database, project: string, slots: seq<Slot>)
    ensures Repaired(db, project, Repaired(db, project, slots)) == Repaired(db, project, slots)
  {
    forall j | 0 <= j < |slots|
      ensures Repaired(db, project, Repaired(db, project, slots))[j] == Repaired(db, project, slots)[j]
    {
      RepairedAt(db, project, Repaired(db, project, slots), j);
      RepairedAt(db, project, slots, j);
      SecondPassSlot(db, project, slots, j);
    }
  }
}
