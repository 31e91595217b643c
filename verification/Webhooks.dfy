/**
  Webhook registration as one process sees it: `storeWebhook`, `clearWebhooks` and `addWebhooks` with its
  rollback, on a table keyed by path and method.
 */
module Webhooks {
  import opened Basics

  type WorkflowId = nat
  type Key = (string, string)

  datatype Row = Row(workflow: WorkflowId, node: string)

  type Rows = map<Key, Row>

  datatype Activation = Init | LeadershipChange | Update | Activate

  datatype ErrorKind = QueryFailed | PathTaken | OtherError

  datatype Webhook = Webhook(node: string, path: string, httpMethod: string)

  /** What the database and the external service do with one webhook. */
  datatype Fault = Fault(insertFails: bool, createFails: Option<ErrorKind>)

  /** One leading and one trailing slash are dropped. */
  function Normalise(path: string): string {
    var p := if |path| > 0 && path[0] == '/' then path[1..] else path;
    if |p| > 0 && p[|p| - 1] == '/' then p[..|p| - 1] else p
  }

  /** Of the path, exactly a leading slash and a trailing one are lost; the slash of "/" counts as leading. */
  lemma NormaliseDropsSlashes(path: string)
    ensures var leading := |path| > 0 && path[0] == '/';
      var trailing := |path| > (if leading then 1 else 0) && path[|path| - 1] == '/';
      path == (if leading then "/" else "") + Normalise(path) + (if trailing then "/" else "")
  {
  }

  function KeyOf(webhook: Webhook): Key {
    (Normalise(webhook.path), webhook.httpMethod)
  }

  /** Two webhooks share a key exactly if they share the method and, up to those slashes, the path. */
  lemma SameKeyExactly(a: Webhook, b: Webhook)
    ensures KeyOf(a) == KeyOf(b) <==> a.httpMethod == b.httpMethod && Normalise(a.path) == Normalise(b.path)
  {
  }

  predicate Owns(rows: Rows, workflow: WorkflowId, key: Key) {
    key in rows && rows[key].workflow == workflow
  }

  /** The rows of every other workflow, row by row. */
  ghost predicate OthersIntact(workflow: WorkflowId, before: Rows, after: Rows) {
    forall key :: (key in before && before[key].workflow != workflow) || (key in after && after[key].workflow != workflow)
      ==> key in before && key in after && after[key] == before[key]
  }

  // ---------------------------------------------------------------------
  // What registering a list of webhooks amounts to
  // ---------------------------------------------------------------------

  predicate AtStartUp(activation: Activation) {
    activation == Init || activation == LeadershipChange
  }

  predicate Taken(rows: Rows, workflow: WorkflowId, key: Key) {
    key in rows && rows[key].workflow != workflow
  }

  /** The key has a row when its turn comes: from before, or from an earlier webhook of the list. */
  ghost predicate Present(rows: Rows, webhooks: seq<Webhook>, faults: seq<Fault>, i: nat)
    requires i < |webhooks| == |faults|
  {
    KeyOf(webhooks[i]) in rows || exists j :: 0 <= j < i && KeyOf(webhooks[j]) == KeyOf(webhooks[i]) && !faults[j].insertFails
  }

  /** The webhook gets its row: the key is not another workflow's, and the insert works or there is a row to refresh. */
  ghost predicate Stores(rows: Rows, workflow: WorkflowId, webhooks: seq<Webhook>, faults: seq<Fault>, i: nat)
    requires i < |webhooks| == |faults|
  {
    !Taken(rows, workflow, KeyOf(webhooks[i])) && (faults[i].insertFails ==> Present(rows, webhooks, faults, i))
  }

  /** What goes wrong with the webhook, if anything, while it is stored or else while it is created. */
  ghost function ErrorAt(rows: Rows, workflow: WorkflowId, webhooks: seq<Webhook>, faults: seq<Fault>, i: nat): Option<ErrorKind>
    requires i < |webhooks| == |faults|
  {
    if Taken(rows, workflow, KeyOf(webhooks[i])) then Some(PathTaken)
    else if !Stores(rows, workflow, webhooks, faults, i) then Some(QueryFailed)
    else faults[i].createFails
  }

  /** It ends the activation, unless it is a failed query at start-up. */
  ghost predicate Fatal(rows: Rows, workflow: WorkflowId, webhooks: seq<Webhook>, activation: Activation, faults: seq<Fault>, i: nat)
    requires i < |webhooks| == |faults|
  {
    var error := ErrorAt(rows, workflow, webhooks, faults, i);
    error.Some? && !(AtStartUp(activation) && error.value == QueryFailed)
  }

  /** A failed query is reported as a path that is taken. */
  function Reported(error: ErrorKind): ErrorKind {
    if error == QueryFailed then PathTaken else error
  }

  ghost predicate StoresUnder(rows: Rows, workflow: WorkflowId, webhooks: seq<Webhook>, faults: seq<Fault>, i: nat, key: Key)
    requires i < |webhooks| == |faults|
  {
    KeyOf(webhooks[i]) == key && Stores(rows, workflow, webhooks, faults, i)
  }

  /** The last of the first `n` webhooks that stores a row under `key`, counted from 1; 0 if there is none. */
  ghost function LastFor(rows: Rows, workflow: WorkflowId, webhooks: seq<Webhook>, faults: seq<Fault>, n: nat, key: Key): (i: nat)
    requires n <= |webhooks| == |faults|
    ensures i <= n
    ensures i > 0 ==> StoresUnder(rows, workflow, webhooks, faults, i - 1, key)
    ensures forall j :: i <= j < n ==> !StoresUnder(rows, workflow, webhooks, faults, j, key)
  {
    if n == 0 then 0
    else if StoresUnder(rows, workflow, webhooks, faults, n - 1, key) then n
    else LastFor(rows, workflow, webhooks, faults, n - 1, key)
  }

  /** Every key has the row of the last webhook that stored one under it, and otherwise the row it had. */
  ghost predicate Registered(rows: Rows, workflow: WorkflowId, webhooks: seq<Webhook>, faults: seq<Fault>, n: nat, after: Rows)
    requires n <= |webhooks| == |faults|
  {
    forall key :: RowFor(rows, workflow, webhooks, faults, n, after, key)
  }

  ghost predicate RowFor(rows: Rows, workflow: WorkflowId, webhooks: seq<Webhook>, faults: seq<Fault>, n: nat, after: Rows, key: Key)
    requires n <= |webhooks| == |faults|
  {
    var i := LastFor(rows, workflow, webhooks, faults, n, key);
    if i > 0 then key in after && after[key] == Row(workflow, webhooks[i - 1].node)
    else (key in after <==> key in rows) && (key in rows ==> after[key] == rows[key])
  }

  /** While the list is worked off, a key has a row exactly if it is present in the above sense. */
  lemma PresentExactly(rows: Rows, workflow: WorkflowId, webhooks: seq<Webhook>, faults: seq<Fault>, n: nat, now: Rows)
    requires n < |webhooks| == |faults| && Registered(rows, workflow, webhooks, faults, n, now)
    ensures KeyOf(webhooks[n]) in now <==> Present(rows, webhooks, faults, n)
    ensures Taken(now, workflow, KeyOf(webhooks[n])) <==> Taken(rows, workflow, KeyOf(webhooks[n]))
  {
    var key := KeyOf(webhooks[n]);
    assert RowFor(rows, workflow, webhooks, faults, n, now, key);
    var i := LastFor(rows, workflow, webhooks, faults, n, key);
    if i > 0 {
      StoredIsPresent(rows, workflow, webhooks, faults, i - 1, n);
    } else if Present(rows, webhooks, faults, n) && key !in rows {
      var j :| 0 <= j < n && KeyOf(webhooks[j]) == KeyOf(webhooks[n]) && !faults[j].insertFails;
      assert StoresUnder(rows, workflow, webhooks, faults, j, key);
      assert false;
    }
  }

  lemma {:induction false} StoredIsPresent(rows: Rows, workflow: WorkflowId, webhooks: seq<Webhook>, faults: seq<Fault>, i: nat, n: nat)
    requires i < n < |webhooks| == |faults| && KeyOf(webhooks[i]) == KeyOf(webhooks[n])
    requires Stores(rows, workflow, webhooks, faults, i)
    ensures Present(rows, webhooks, faults, n)
  {
    if faults[i].insertFails && KeyOf(webhooks[i]) !in rows {
      var j :| 0 <= j < i && KeyOf(webhooks[j]) == KeyOf(webhooks[i]) && !faults[j].insertFails;
      assert KeyOf(webhooks[j]) == KeyOf(webhooks[n]);
    }
  }

  /** One more webhook is worked off: its key gets its row if it stores one, and nothing else changes. */
  lemma OneMoreFor(rows: Rows, workflow: WorkflowId, webhooks: seq<Webhook>, faults: seq<Fault>, n: nat, now: Rows, after: Rows, key: Key)
    requires n < |webhooks| == |faults| && RowFor(rows, workflow, webhooks, faults, n, now, key)
    requires after == if Stores(rows, workflow, webhooks, faults, n)
                      then now[KeyOf(webhooks[n]) := Row(workflow, webhooks[n].node)] else now
    ensures RowFor(rows, workflow, webhooks, faults, n + 1, after, key)
  {
    LastForNext(rows, workflow, webhooks, faults, n, key);
  }

  lemma LastForNext(rows: Rows, workflow: WorkflowId, webhooks: seq<Webhook>, faults: seq<Fault>, n: nat, key: Key)
    requires n < |webhooks| == |faults|
    ensures LastFor(rows, workflow, webhooks, faults, n + 1, key) ==
      if StoresUnder(rows, workflow, webhooks, faults, n, key) then n + 1 else LastFor(rows, workflow, webhooks, faults, n, key)
  {
  }

  lemma NoneYet(rows: Rows, workflow: WorkflowId, webhooks: seq<Webhook>, activation: Activation, faults: seq<Fault>)
    requires |webhooks| == |faults|
    ensures Registered(rows, workflow, webhooks, faults, 0, rows) && SafeUpTo(rows, workflow, webhooks, activation, faults, 0)
  {
  }

  /** Nothing fatal happened to the first `n` webhooks. */
  ghost predicate SafeUpTo(rows: Rows, workflow: WorkflowId, webhooks: seq<Webhook>, activation: Activation, faults: seq<Fault>, n: nat)
    requires n <= |webhooks| == |faults|
  {
    forall i :: 0 <= i < n ==> !Fatal(rows, workflow, webhooks, activation, faults, i)
  }

  lemma OneMoreSafe(rows: Rows, workflow: WorkflowId, webhooks: seq<Webhook>, activation: Activation, faults: seq<Fault>, n: nat)
    requires n < |webhooks| == |faults| && SafeUpTo(rows, workflow, webhooks, activation, faults, n)
    ensures SafeUpTo(rows, workflow, webhooks, activation, faults, n + 1)
       <==> !Fatal(rows, workflow, webhooks, activation, faults, n)
  {
  }

  lemma OneMore(rows: Rows, workflow: WorkflowId, webhooks: seq<Webhook>, faults: seq<Fault>, n: nat, now: Rows, after: Rows)
    requires n < |webhooks| == |faults| && Registered(rows, workflow, webhooks, faults, n, now)
    requires after == if Stores(rows, workflow, webhooks, faults, n)
                      then now[KeyOf(webhooks[n]) := Row(workflow, webhooks[n].node)] else now
    ensures Registered(rows, workflow, webhooks, faults, n + 1, after)
  {
    var m := n + 1;
    forall key ensures RowFor(rows, workflow, webhooks, faults, m, after, key) {
      assert RowFor(rows, workflow, webhooks, faults, n, now, key);
      OneMoreFor(rows, workflow, webhooks, faults, n, now, after, key);
    }
  }

  lemma RegisteredKeepsOthers(rows: Rows, workflow: WorkflowId, webhooks: seq<Webhook>, faults: seq<Fault>, n: nat, now: Rows)
    requires n <= |webhooks| == |faults| && Registered(rows, workflow, webhooks, faults, n, now)
    ensures OthersIntact(workflow, rows, now)
  {
    forall key | (key in rows && rows[key].workflow != workflow) || (key in now && now[key].workflow != workflow)
      ensures key in rows && key in now && now[key] == rows[key]
    {
      assert RowFor(rows, workflow, webhooks, faults, n, now, key);
    }
  }

  /** The workflow owns the webhook's key, under the webhook's own node unless a later one repeats the key. */
  ghost predicate HasOwnRow(workflow: WorkflowId, webhooks: seq<Webhook>, rows: Rows, i: nat)
    requires i < |webhooks|
  {
    && Owns(rows, workflow, KeyOf(webhooks[i]))
    && ((forall j :: i < j < |webhooks| ==> KeyOf(webhooks[j]) != KeyOf(webhooks[i]))
        ==> rows[KeyOf(webhooks[i])] == Row(workflow, webhooks[i].node))
  }

  /** The error is that of the first webhook to which something fatal happens. */
  ghost predicate FromFirstFatal(rows: Rows, workflow: WorkflowId, webhooks: seq<Webhook>, activation: Activation,
                                 faults: seq<Fault>, error: ErrorKind)
    requires |webhooks| == |faults|
  {
    exists i ::
      && 0 <= i < |webhooks| && Fatal(rows, workflow, webhooks, activation, faults, i)
      && SafeUpTo(rows, workflow, webhooks, activation, faults, i)
      && error == Reported(ErrorAt(rows, workflow, webhooks, faults, i).value)
  }

  /** With nothing fatal outside start-up, every webhook that no later one repeats has exactly its own row. */
  lemma EveryWebhookHasItsRow(rows: Rows, workflow: WorkflowId, webhooks: seq<Webhook>, activation: Activation,
                              faults: seq<Fault>, after: Rows, i: nat)
    requires i < |webhooks| == |faults| && !AtStartUp(activation)
    requires Registered(rows, workflow, webhooks, faults, |webhooks|, after)
    requires SafeUpTo(rows, workflow, webhooks, activation, faults, |webhooks|)
    ensures HasOwnRow(workflow, webhooks, after, i) && faults[i].createFails.None?
  {
    assert RowFor(rows, workflow, webhooks, faults, |webhooks|, after, KeyOf(webhooks[i]));
    assert !Fatal(rows, workflow, webhooks, activation, faults, i);
    var last := LastFor(rows, workflow, webhooks, faults, |webhooks|, KeyOf(webhooks[i]));
    assert StoresUnder(rows, workflow, webhooks, faults, i, KeyOf(webhooks[i]));
    assert last > i;
  }

  class WebhookStore {
    var rows: Rows

    constructor ()
      ensures rows == map[]
    {
      rows := map[];
    }

    /** `storeWebhook`, undisturbed: insert, or refresh a row of one's own, or refuse. */
    method StoreWebhook(key: Key, row: Row, insertFails: bool) returns (error: Option<ErrorKind>)
      modifies this
      ensures OthersIntact(row.workflow, old(rows), rows)
      ensures error == if key !in old(rows) then (if insertFails then Some(QueryFailed) else None)
                       else if old(rows)[key].workflow != row.workflow then Some(PathTaken) else None
      ensures rows == if error.None? then old(rows)[key := row] else old(rows)
    {
      if !insertFails && key !in rows {
        rows := rows[key := row];
        return None;
      }
      if key !in rows {
        return Some(QueryFailed);
      }
      if rows[key].workflow != row.workflow {
        return Some(PathTaken);
      }
      rows := rows[key := row];
      return None;
    }

    /** `clearWebhooks`: either it throws before deleting, or every row of the workflow goes. */
    method ClearWebhooks(workflow: WorkflowId, fails: bool) returns (cleared: bool)
      modifies this
      ensures cleared == !fails && OthersIntact(workflow, old(rows), rows)
      ensures fails ==> rows == old(rows)
      ensures !fails ==> forall key :: !Owns(rows, workflow, key)
    {
      cleared := !fails;
      if cleared {
        rows := map key | key in rows && rows[key].workflow != workflow :: rows[key];
      }
    }

    /** One webhook: stored, and if that went well created with the external service. */
    method RegisterOne(workflow: WorkflowId, w: Webhook, fault: Fault,
                       ghost before: Rows, ghost webhooks: seq<Webhook>, ghost faults: seq<Fault>, ghost i: nat)
      returns (error: Option<ErrorKind>)
      requires i < |webhooks| == |faults| && w == webhooks[i] && fault == faults[i]
      requires Registered(before, workflow, webhooks, faults, i, rows)
      modifies this
      ensures error == ErrorAt(before, workflow, webhooks, faults, i)
      ensures Registered(before, workflow, webhooks, faults, i + 1, rows)
    {
      PresentExactly(before, workflow, webhooks, faults, i, rows);
      ghost var now := rows;
      error := StoreWebhook(KeyOf(w), Row(workflow, w.node), fault.insertFails);
      OneMore(before, workflow, webhooks, faults, i, now, rows);
      if error.None? {
        error := fault.createFails;
      }
    }

    /** The loop of `addWebhooks`, up to the first error that it does not skip. */
    method RegisterAll(workflow: WorkflowId, webhooks: seq<Webhook>, activation: Activation, faults: seq<Fault>)
      returns (error: Option<ErrorKind>, ghost done: nat)
      requires |faults| == |webhooks|
      modifies this
      ensures done <= |webhooks| && Registered(old(rows), workflow, webhooks, faults, done, rows)
      ensures error.None? ==> done == |webhooks|
      ensures error.None? ==> SafeUpTo(old(rows), workflow, webhooks, activation, faults, done)
      ensures error.Some? ==> 0 < done && Fatal(old(rows), workflow, webhooks, activation, faults, done - 1)
      ensures error.Some? ==> error == ErrorAt(old(rows), workflow, webhooks, faults, done - 1)
      ensures error.Some? ==> SafeUpTo(old(rows), workflow, webhooks, activation, faults, done - 1)
    {
      ghost var before := rows;
      NoneYet(before, workflow, webhooks, activation, faults);
      for i := 0 to |webhooks|
        invariant Registered(before, workflow, webhooks, faults, i, rows)
        invariant SafeUpTo(before, workflow, webhooks, activation, faults, i)
      {
        OneMoreSafe(before, workflow, webhooks, activation, faults, i);
        error := RegisterOne(workflow, webhooks[i], faults[i], before, webhooks, faults, i);
        if error.Some? && !(activation in {Init, LeadershipChange} && error.value == QueryFailed) {
          return error, i + 1;
        }
      }
      return None, |webhooks|;
    }

    /**
      `addWebhooks`: registers in order and, when one fails, takes back everything of the workflow. It fails if
      and only if something fatal happens to one of the webhooks, with the error of the first of them.
     */
    method AddWebhooks(workflow: WorkflowId, webhooks: seq<Webhook>, activation: Activation,
                       faults: seq<Fault>, clearFails: bool)
      returns (added: bool, error: Option<ErrorKind>)
      requires |faults| == |webhooks|
      modifies this
      ensures OthersIntact(workflow, old(rows), rows)
      ensures added <==> error.None? && webhooks != []
      ensures error.None? <==> SafeUpTo(old(rows), workflow, webhooks, activation, faults, |webhooks|)
      ensures error.None? ==> Registered(old(rows), workflow, webhooks, faults, |webhooks|, rows)
      ensures error.Some? ==> FromFirstFatal(old(rows), workflow, webhooks, activation, faults, error.value)
      ensures error.Some? && !clearFails ==> forall key :: !Owns(rows, workflow, key)
      ensures error.None? && !AtStartUp(activation) ==> forall i :: 0 <= i < |webhooks| ==>
        HasOwnRow(workflow, webhooks, rows, i) && faults[i].createFails.None?
    {
      if |webhooks| == 0 {
        return false, None;
      }
      ghost var before := rows;
      ghost var done;
      error, done := RegisterAll(workflow, webhooks, activation, faults);
      RegisteredKeepsOthers(before, workflow, webhooks, faults, done, rows);
      if error.Some? {
        var _ := ClearWebhooks(workflow, clearFails);
        return false, Some(if error.value == QueryFailed then PathTaken else error.value);
      }
      if !AtStartUp(activation) {
        forall i | 0 <= i < |webhooks| ensures HasOwnRow(workflow, webhooks, rows, i) && faults[i].createFails.None? {
          EveryWebhookHasItsRow(before, workflow, webhooks, activation, faults, rows, i);
        }
      }
      return true, None;
    }
  }
}
