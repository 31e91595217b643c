/**
  Credential overwrites: `setPlainData` resolves inheritance with a memo that
  marks a type resolved without always storing its result, and `get` merges the
  table again along the ancestors. Proved here: the partly merged table never shows.
 */
module CredentialsOverwrites {
  import opened Basics
  import opened CredentialTypes

  /** A credential field: `null`, a text (possibly empty), or any other JSON value. */
  datatype Value = Null | Text(text: string) | Json(code: int)

  type Fields = map<string, Value>
  type Table = map<string, Fields>

  function Own(table: Table, t: string): Fields {
    if t in table then table[t] else map[]
  }

  function Field(fields: Fields, k: string): Option<Value> {
    if k in fields then Some(fields[k]) else None
  }

  /** The reference answer: the first type in the list that sets field `k` decides it. */
  function Nearest(table: Table, types: seq<string>, k: string): Option<Value> {
    if types == [] then None
    else if k in Own(table, types[0]) then Some(Own(table, types[0])[k])
    else Nearest(table, types[1..], k)
  }

  lemma {:induction false} NearestConcat(table: Table, a: seq<string>, b: seq<string>, k: string)
    ensures Nearest(table, a + b, k) ==
      if Nearest(table, a, k).Some? then Nearest(table, a, k) else Nearest(table, b, k)
  {
    if a == [] {
      assert a + b == b;
    } else {
      assert (a + b)[1..] == a[1..] + b;
      NearestConcat(table, a[1..], b, k);
    }
  }

  lemma {:induction false} NearestDefined(table: Table, types: seq<string>, k: string)
    ensures Nearest(table, types, k).Some? <==> exists t :: t in types && k in Own(table, t)
  {
    if types != [] {
      NearestDefined(table, types[1..], k);
      assert forall t :: t in types <==> t == types[0] || t in types[1..];
    }
  }

  /** A type listed again later has no further say. */
  lemma {:induction false} FirstOccurrencesDecide(table: Table, types: seq<string>, k: string)
    ensures Nearest(table, FirstOccurrences(types), k) == Nearest(table, types, k)
    decreases |types|
  {
    if types != [] {
      var front, last := types[..|types| - 1], types[|types| - 1];
      FirstOccurrencesDecide(table, front, k);
      assert types == front + [last];
      NearestConcat(table, front, [last], k);
      NearestConcat(table, FirstOccurrences(front), [last], k);
      assert FirstOccurrences(front) + [] == FirstOccurrences(front);
      NearestDefined(table, front, k);
    }
  }

  // ---------------------------------------------------------------------
  // The merge done by `get`: reverse, map, filter, fold
  // ---------------------------------------------------------------------

  function Reverse(types: seq<string>): seq<string> {
    if types == [] then [] else Reverse(types[1..]) + [types[0]]
  }

  function Entries(table: Table, types: seq<string>): seq<Fields> {
    if types == [] then []
    else (if types[0] in table then [table[types[0]]] else []) + Entries(table, types[1..])
  }

  function AssignAll(acc: Fields, entries: seq<Fields>): Fields
    decreases entries
  {
    if entries == [] then acc else AssignAll(acc + entries[0], entries[1..])
  }

  lemma {:induction false} EntriesConcat(table: Table, a: seq<string>, b: seq<string>)
    ensures Entries(table, a + b) == Entries(table, a) + Entries(table, b)
  {
    if a == [] {
      assert a + b == b;
    } else {
      assert (a + b)[1..] == a[1..] + b;
      EntriesConcat(table, a[1..], b);
    }
  }

  lemma {:induction false} AssignAllConcat(acc: Fields, a: seq<Fields>, b: seq<Fields>)
    ensures AssignAll(acc, a + b) == AssignAll(AssignAll(acc, a), b)
    decreases a
  {
    if a == [] {
      assert a + b == b;
    } else {
      assert (a + b)[1..] == a[1..] + b;
      AssignAllConcat(acc + a[0], a[1..], b);
    }
  }

  /** Folding the reversed list lets the nearest type decide every field. */
  lemma {:induction false} FoldIsNearest(table: Table, types: seq<string>, k: string)
    ensures Field(AssignAll(map[], Entries(table, Reverse(types))), k) == Nearest(table, types, k)
    ensures |Entries(table, Reverse(types))| == 0 <==> forall t :: t in types ==> t !in table
  {
    if types != [] {
      FoldIsNearest(table, types[1..], k);
      var front, last := Reverse(types[1..]), [types[0]];
      EntriesConcat(table, front, last);
      AssignAllConcat(map[], Entries(table, front), Entries(table, last));
      assert forall t :: t in types <==> t == types[0] || t in types[1..];
    }
  }

  // ---------------------------------------------------------------------
  // What the memo leaves in the table
  // ---------------------------------------------------------------------

  /** `fields` merges an unbroken stretch of `line`, from its start upwards. */
  ghost predicate StretchTo(raw: Table, line: seq<string>, n: nat, fields: Fields)
    requires n <= |line|
  {
    forall k :: Field(fields, k) == Nearest(raw, line[..n], k)
  }

  ghost predicate Stretch(h: Hierarchy, rank: Rank, raw: Table, t: string, fields: Fields)
    requires Ranked(h, rank)
  {
    exists n: nat :: n <= |Line(h, rank, t)| && StretchTo(raw, Line(h, rank, t), n, fields)
  }

  /** Some type on the way up from `t` sets field `k`. */
  ghost predicate Reaches(h: Hierarchy, rank: Rank, table: Table, t: string, k: string)
    requires Ranked(h, rank)
  {
    exists u :: SelfOrAncestor(h, rank, u, t) && k in Own(table, u)
  }

  ghost predicate Inherited(h: Hierarchy, rank: Rank, raw: Table, t: string, fields: Fields)
    requires Ranked(h, rank)
  {
    forall k :: k in fields ==> Reaches(h, rank, raw, t, k)
  }

  ghost predicate Keeps(own: Fields, fields: Fields) {
    forall k :: k in own ==> k in fields && fields[k] == own[k]
  }

  /** A merge for `t`: own fields kept, the rest inherited, on a chain from an unbroken stretch. */
  ghost predicate MergeFor(h: Hierarchy, rank: Rank, raw: Table, t: string, fields: Fields)
    requires Ranked(h, rank)
  {
    && Keeps(Own(raw, t), fields)
    && Inherited(h, rank, raw, t, fields)
    && (SingleInheritance(h) ==> Stretch(h, rank, raw, t, fields))
  }

  ghost predicate PartlyMerged(h: Hierarchy, rank: Rank, raw: Table, data: Table)
    requires Ranked(h, rank)
  {
    && (forall t :: t in data <==> t in raw)
    && (forall t :: t in data ==> MergeFor(h, rank, raw, t, data[t]))
  }

  /** The memo: a partly merged table in which unresolved types still hold their raw entry. */
  ghost predicate Memo(h: Hierarchy, rank: Rank, raw: Table, data: Table, resolved: seq<string>)
    requires Ranked(h, rank)
  {
    && PartlyMerged(h, rank, raw, data)
    && forall t :: t in raw && t !in resolved ==> data[t] == raw[t]
  }

  lemma MemoStarts(h: Hierarchy, rank: Rank, table: Table)
    requires Ranked(h, rank)
    ensures Memo(h, rank, table, table, [])
  {
    forall t | t in table ensures MergeFor(h, rank, table, t, table[t]) {
      OwnEntryIsMerge(h, rank, table, t);
    }
  }

  lemma MemoMarks(h: Hierarchy, rank: Rank, raw: Table, data: Table, resolved: seq<string>, t: string)
    requires Ranked(h, rank) && Memo(h, rank, raw, data, resolved)
    ensures Memo(h, rank, raw, data, resolved + [t])
  {
  }

  lemma MemoStores(h: Hierarchy, rank: Rank, raw: Table, data: Table, resolved: seq<string>, t: string, fields: Fields)
    requires Ranked(h, rank) && Memo(h, rank, raw, data, resolved)
    requires t in raw && t in resolved && MergeFor(h, rank, raw, t, fields)
    ensures Memo(h, rank, raw, data[t := fields], resolved)
  {
    var stored := data[t := fields];
    forall u | u in stored ensures MergeFor(h, rank, raw, u, stored[u]) {
      if u != t {
        MemoAnswers(h, rank, raw, data, resolved, u);
      }
    }
  }

  /** What a memo hit returns. */
  lemma MemoAnswers(h: Hierarchy, rank: Rank, raw: Table, data: Table, resolved: seq<string>, t: string)
    requires Ranked(h, rank) && Memo(h, rank, raw, data, resolved)
    ensures t in data <==> t in raw
    ensures t in data ==> MergeFor(h, rank, raw, t, data[t])
    ensures t in data && t !in resolved ==> data[t] == raw[t]
  {
  }

  lemma StretchThenAbove(raw: Table, line: seq<string>, n: nat, fields: Fields, k: string)
    requires line != [] && n <= |line| && StretchTo(raw, line, n, fields)
    requires Keeps(Own(raw, line[0]), fields)
    ensures Nearest(raw, line, k) == if k in fields then Some(fields[k]) else Nearest(raw, line[1..], k)
  {
    assert line == line[..n] + line[n..];
    NearestConcat(raw, line[..n], line[n..], k);
    assert Field(fields, k) == Nearest(raw, line[..n], k);
  }

  /** A lookup over a partly merged table equals the lookup over the raw one. */
  lemma {:induction false} PartialMergesAgree(h: Hierarchy, rank: Rank, raw: Table, data: Table, t: string, k: string)
    requires Ranked(h, rank) && SingleInheritance(h) && PartlyMerged(h, rank, raw, data)
    ensures Nearest(data, Line(h, rank, t), k) == Nearest(raw, Line(h, rank, t), k)
    decreases rank(t)
  {
    var line := Line(h, rank, t);
    if Parents(h, t) != [] {
      var p := Parents(h, t)[0];
      assert line[1..] == Line(h, rank, p);
      PartialMergesAgree(h, rank, raw, data, p, k);
    }
    if t in data {
      assert MergeFor(h, rank, raw, t, data[t]);
      var n: nat :| n <= |line| && StretchTo(raw, line, n, data[t]);
      StretchThenAbove(raw, line, n, data[t], k);
    }
  }

  /**
    Saving the mutated table and resolving it again, in another process and in
    another key order, leaves every lookup unchanged.
   */
  lemma PersistAndReload(h: Hierarchy, rank: Rank, raw: Table, saved: Table, reloaded: Table, t: string, k: string)
    requires Ranked(h, rank) && SingleInheritance(h)
    requires PartlyMerged(h, rank, raw, saved) && PartlyMerged(h, rank, saved, reloaded)
    ensures Nearest(reloaded, Line(h, rank, t), k) == Nearest(raw, Line(h, rank, t), k)
    ensures t in reloaded <==> t in raw
  {
    PartialMergesAgree(h, rank, raw, saved, t, k);
    PartialMergesAgree(h, rank, saved, reloaded, t, k);
  }

  lemma MergedFieldsReach(h: Hierarchy, rank: Rank, raw: Table, data: Table, t: string, k: string)
    requires Ranked(h, rank) && PartlyMerged(h, rank, raw, data)
    ensures Reaches(h, rank, data, t, k) <==> Reaches(h, rank, raw, t, k)
  {
    if Reaches(h, rank, raw, t, k) {
      var u :| SelfOrAncestor(h, rank, u, t) && k in Own(raw, u);
      assert MergeFor(h, rank, raw, u, data[u]);
      assert k in Own(data, u);
    }
    if Reaches(h, rank, data, t, k) {
      var u :| SelfOrAncestor(h, rank, u, t) && k in Own(data, u);
      assert MergeFor(h, rank, raw, u, data[u]);
      var v :| SelfOrAncestor(h, rank, v, u) && k in Own(raw, v);
      SelfOrAncestorTransitive(h, rank, v, u, t);
    }
  }

  /** With several parents the reload still shows the same fields, and keeps each type's own. */
  lemma PersistAndReloadFields(h: Hierarchy, rank: Rank, raw: Table, saved: Table, reloaded: Table, t: string, k: string)
    requires Ranked(h, rank)
    requires PartlyMerged(h, rank, raw, saved) && PartlyMerged(h, rank, saved, reloaded)
    ensures Reaches(h, rank, reloaded, t, k) <==> Reaches(h, rank, raw, t, k)
    ensures t in raw && k in raw[t] ==> Field(Own(reloaded, t), k) == Some(raw[t][k])
  {
    MergedFieldsReach(h, rank, raw, saved, t, k);
    MergedFieldsReach(h, rank, saved, reloaded, t, k);
    if t in raw {
      assert MergeFor(h, rank, raw, t, saved[t]) && MergeFor(h, rank, saved, t, reloaded[t]);
    }
  }

  lemma OwnEntryIsMerge(h: Hierarchy, rank: Rank, raw: Table, t: string)
    requires Ranked(h, rank)
    ensures MergeFor(h, rank, raw, t, Own(raw, t))
  {
    var line := Line(h, rank, t);
    assert line[..1] == [t];
    assert StretchTo(raw, line, 1, Own(raw, t));
    forall k | k in Own(raw, t) ensures Reaches(h, rank, raw, t, k) {
      assert SelfOrAncestor(h, rank, t, t);
    }
  }

  /** Assigning a type's own fields over its parent's stretch lengthens the stretch. */
  lemma OwnOverParent(h: Hierarchy, rank: Rank, raw: Table, t: string, above: Fields)
    requires Ranked(h, rank) && SingleInheritance(h)
    requires if Parents(h, t) == [] then above == map[] else Stretch(h, rank, raw, Parents(h, t)[0], above)
    ensures Stretch(h, rank, raw, t, above + Own(raw, t))
  {
    var line := Line(h, rank, t);
    if Parents(h, t) == [] {
      OwnEntryIsMerge(h, rank, raw, t);
      assert above + Own(raw, t) == Own(raw, t);
    } else {
      var up := Line(h, rank, Parents(h, t)[0]);
      assert line == [t] + up;
      var n: nat :| n <= |up| && StretchTo(raw, up, n, above);
      assert line[..n + 1] == [t] + up[..n];
      forall k ensures Field(above + Own(raw, t), k) == Nearest(raw, line[..n + 1], k) {
        assert Field(above, k) == Nearest(raw, up[..n], k);
        assert line[..n + 1][1..] == up[..n];
      }
      assert StretchTo(raw, line, n + 1, above + Own(raw, t));
    }
  }

  /** What the first `i` parents of `t` contribute, before the type's own fields. */
  ghost predicate FromParents(h: Hierarchy, rank: Rank, raw: Table, t: string, i: nat, fields: Fields)
    requires Ranked(h, rank) && i <= |Parents(h, t)|
  {
    && Inherited(h, rank, raw, t, fields)
    && (i == 0 ==> fields == map[])
    && (SingleInheritance(h) && 0 < i ==> Stretch(h, rank, raw, Parents(h, t)[0], fields))
  }

  lemma FromOneMoreParent(h: Hierarchy, rank: Rank, raw: Table, t: string, i: nat, fields: Fields,
                          inherited: Option<Fields>)
    requires Ranked(h, rank) && i < |Parents(h, t)| && FromParents(h, rank, raw, t, i, fields)
    requires inherited.Some? ==> MergeFor(h, rank, raw, Parents(h, t)[i], inherited.value)
    ensures FromParents(h, rank, raw, t, i + 1, if inherited.Some? then fields + inherited.value else fields)
  {
    var p := Parents(h, t)[i];
    if inherited.Some? {
      forall k | k in inherited.value ensures Reaches(h, rank, raw, t, k) {
        var u :| SelfOrAncestor(h, rank, u, p) && k in Own(raw, u);
        ParentIsAncestor(h, rank, p, t);
        SelfOrAncestorTransitive(h, rank, u, p, t);
      }
    }
    if SingleInheritance(h) {
      assert |Parents(h, t)| <= 1;
      assert i == 0;
      if inherited.Some? {
        assert fields + inherited.value == inherited.value;
      } else {
        assert StretchTo(raw, Line(h, rank, p), 0, map[]);
      }
    }
  }

  lemma OwnOverParents(h: Hierarchy, rank: Rank, raw: Table, t: string, above: Fields)
    requires Ranked(h, rank) && FromParents(h, rank, raw, t, |Parents(h, t)|, above)
    ensures MergeFor(h, rank, raw, t, if t in raw then above + raw[t] else above)
  {
    assert above + Own(raw, t) == if t in raw then above + raw[t] else above;
    OwnEntryIsMerge(h, rank, raw, t);
    if SingleInheritance(h) {
      OwnOverParent(h, rank, raw, t, above);
    }
  }

  // ---------------------------------------------------------------------
  // When the memo holds the whole merge
  // ---------------------------------------------------------------------

  /** The answer merges the whole line of the type. */
  ghost predicate Whole(h: Hierarchy, rank: Rank, raw: Table, t: string, answer: Option<Fields>)
    requires Ranked(h, rank)
  {
    forall k :: (if answer.None? then None else Field(answer.value, k)) == Nearest(raw, Line(h, rank, t), k)
  }

  /** Every type on the line is known, and none was resolved before. */
  ghost predicate Clear(h: Hierarchy, rank: Rank, resolved: seq<string>, t: string)
    requires Ranked(h, rank)
  {
    forall u :: u in Line(h, rank, t) ==> u in h && u !in resolved
  }

  lemma ClearAbove(h: Hierarchy, rank: Rank, resolved: seq<string>, t: string)
    requires Ranked(h, rank) && Parents(h, t) != [] && Clear(h, rank, resolved, t)
    ensures Clear(h, rank, resolved, Parents(h, t)[0])
  {
    var p := Parents(h, t)[0];
    assert Line(h, rank, t) == [t] + Line(h, rank, p);
  }

  /** What the parents of a type contribute, if the line above it was clear: the whole merge of that line. */
  ghost predicate WholeAbove(h: Hierarchy, rank: Rank, raw: Table, t: string, above: Fields)
    requires Ranked(h, rank)
  {
    if Parents(h, t) == [] then above == map[] else Whole(h, rank, raw, Parents(h, t)[0], Some(above))
  }

  lemma WholeFromParent(h: Hierarchy, rank: Rank, raw: Table, t: string, answer: Option<Fields>)
    requires Ranked(h, rank) && Parents(h, t) != [] && Whole(h, rank, raw, Parents(h, t)[0], answer)
    ensures WholeAbove(h, rank, raw, t, if answer.Some? then map[] + answer.value else map[])
  {
    assert answer.Some? ==> map[] + answer.value == answer.value;
  }

  lemma OwnOverWhole(h: Hierarchy, rank: Rank, raw: Table, t: string, above: Fields)
    requires Ranked(h, rank) && WholeAbove(h, rank, raw, t, above)
    ensures Whole(h, rank, raw, t, Some(if t in raw then above + raw[t] else above))
  {
    var line := Line(h, rank, t);
    forall k ensures Field(if t in raw then above + raw[t] else above, k) == Nearest(raw, line, k) {
      if Parents(h, t) != [] {
        assert line[1..] == Line(h, rank, Parents(h, t)[0]);
      } else {
        assert line[1..] == [];
      }
    }
  }

  lemma RootIsWhole(h: Hierarchy, rank: Rank, raw: Table, t: string)
    requires Ranked(h, rank) && Parents(h, t) == []
    ensures Whole(h, rank, raw, t, if t in raw then Some(raw[t]) else None)
  {
    var line := Line(h, rank, t);
    assert line[1..] == [];
    forall k ensures (if t in raw then Field(raw[t], k) else None) == Nearest(raw, line, k) {
      assert Nearest(raw, line[1..], k).None?;
    }
  }

  /** Only types on the way up from `t` were marked. */
  ghost predicate MarksUpFrom(h: Hierarchy, rank: Rank, t: string, before: seq<string>, after: seq<string>)
    requires Ranked(h, rank)
  {
    forall u :: u in after ==> u in before || SelfOrAncestor(h, rank, u, t)
  }

  lemma MarksUpFromParent(h: Hierarchy, rank: Rank, t: string, p: string, before: seq<string>, mid: seq<string>, after: seq<string>)
    requires Ranked(h, rank) && p in Parents(h, t)
    requires (forall u :: u in mid ==> u in before || Ancestor(h, rank, u, t)) && MarksUpFrom(h, rank, p, mid, after)
    ensures forall u :: u in after ==> u in before || Ancestor(h, rank, u, t)
  {
    forall u | u in after ensures u in before || Ancestor(h, rank, u, t) {
      if u !in mid {
        ParentIsAncestor(h, rank, p, t);
        if u != p {
          AncestorTransitive(h, rank, u, p, t);
        }
      }
    }
  }

  /** The lines of the two types have nothing in common. */
  ghost predicate Unrelated(h: Hierarchy, rank: Rank, t: string, other: string)
    requires Ranked(h, rank)
  {
    forall u :: u in Line(h, rank, t) ==> !SelfOrAncestor(h, rank, u, other)
  }

  /** The i-th key comes before all keys whose lines meet its own, and its line is known. */
  ghost predicate ComesFirst(h: Hierarchy, rank: Rank, keys: seq<string>, i: nat)
    requires Ranked(h, rank) && i < |keys|
  {
    && (forall u :: u in Line(h, rank, keys[i]) ==> u in h)
    && (forall j :: 0 <= j < i ==> Unrelated(h, rank, keys[i], keys[j]))
  }

  /** Marks made for the first `n` keys. */
  ghost predicate MarkedFor(h: Hierarchy, rank: Rank, keys: seq<string>, n: nat, resolved: seq<string>)
    requires Ranked(h, rank) && n <= |keys|
  {
    forall u :: u in resolved ==> exists j :: 0 <= j < n && SelfOrAncestor(h, rank, u, keys[j])
  }

  lemma FirstIsClear(h: Hierarchy, rank: Rank, keys: seq<string>, i: nat, resolved: seq<string>)
    requires Ranked(h, rank) && i < |keys| && ComesFirst(h, rank, keys, i) && MarkedFor(h, rank, keys, i, resolved)
    ensures Clear(h, rank, resolved, keys[i])
  {
    forall u | u in Line(h, rank, keys[i]) ensures u !in resolved {
      assert forall j :: 0 <= j < i ==> Unrelated(h, rank, keys[i], keys[j]);
    }
  }

  lemma MarkedForNext(h: Hierarchy, rank: Rank, keys: seq<string>, i: nat, before: seq<string>, after: seq<string>)
    requires Ranked(h, rank) && i < |keys| && MarkedFor(h, rank, keys, i, before) && MarksUpFrom(h, rank, keys[i], before, after)
    ensures MarkedFor(h, rank, keys, i + 1, after)
  {
    forall u | u in after ensures exists j :: 0 <= j < i + 1 && SelfOrAncestor(h, rank, u, keys[j]) {
      if u in before {
        var j :| 0 <= j < i && SelfOrAncestor(h, rank, u, keys[j]);
      } else {
        assert SelfOrAncestor(h, rank, u, keys[i]);
      }
    }
  }

  /** The keys so far that came first have the whole merge in the table. */
  ghost predicate WholeSoFar(h: Hierarchy, rank: Rank, raw: Table, keys: seq<string>, n: nat, data: Table)
    requires Ranked(h, rank) && n <= |keys|
  {
    forall i :: 0 <= i < n && ComesFirst(h, rank, keys, i) ==> WholeFor(h, rank, raw, keys[i], data)
  }

  ghost predicate WholeFor(h: Hierarchy, rank: Rank, raw: Table, t: string, data: Table)
    requires Ranked(h, rank)
  {
    t in data && Whole(h, rank, raw, t, Some(data[t]))
  }

  /** A type whose answer is whole has the whole merge in the table, whether the answer was stored or was empty. */
  lemma StoredWhole(h: Hierarchy, rank: Rank, raw: Table, data: Table, t: string, answer: Option<Fields>, stored: Table)
    requires Ranked(h, rank) && t in raw && t in data && data[t] == raw[t] && Whole(h, rank, raw, t, answer) && answer.Some?
    requires Keeps(raw[t], answer.value)
    requires stored == if |answer.value| > 0 then data[t := answer.value] else data
    ensures WholeFor(h, rank, raw, t, stored)
  {
    if |answer.value| == 0 {
      assert forall k :: k !in answer.value;
      assert raw[t] == map[] && answer.value == map[];
    }
  }

  /** The table after a key's answer was stored, if there was anything to store. */
  function Storing(data: Table, t: string, answer: Option<Fields>): Table {
    if answer.Some? && |answer.value| > 0 then data[t := answer.value] else data
  }

  lemma WholeOneMore(h: Hierarchy, rank: Rank, raw: Table, keys: seq<string>, i: nat, data: Table, answer: Option<Fields>)
    requires Ranked(h, rank) && i < |keys| && Distinct(keys) && WholeSoFar(h, rank, raw, keys, i, data)
    requires ComesFirst(h, rank, keys, i) ==> FirstAnswer(h, rank, raw, keys[i], data, answer)
    ensures WholeSoFar(h, rank, raw, keys, i + 1, Storing(data, keys[i], answer))
  {
    var stored := Storing(data, keys[i], answer);
    forall j | 0 <= j < i + 1 && ComesFirst(h, rank, keys, j) ensures WholeFor(h, rank, raw, keys[j], stored) {
      if j == i {
        StoredWhole(h, rank, raw, data, keys[i], answer, stored);
      } else {
        assert WholeFor(h, rank, raw, keys[j], data) && keys[j] != keys[i];
      }
    }
  }

  /** The answer found for a key that comes before all it is related to. */
  ghost predicate FirstAnswer(h: Hierarchy, rank: Rank, raw: Table, t: string, data: Table, answer: Option<Fields>)
    requires Ranked(h, rank)
  {
    && t in raw && t in data && data[t] == raw[t]
    && answer.Some? && Whole(h, rank, raw, t, answer) && Keeps(raw[t], answer.value)
  }

  lemma MemoStoring(h: Hierarchy, rank: Rank, raw: Table, data: Table, resolved: seq<string>, t: string, answer: Option<Fields>)
    requires Ranked(h, rank) && Memo(h, rank, raw, data, resolved) && t in raw
    requires answer.Some? ==> t in resolved && MergeFor(h, rank, raw, t, answer.value)
    ensures Memo(h, rank, raw, Storing(data, t, answer), resolved)
  {
    if answer.Some? && |answer.value| > 0 {
      MemoStores(h, rank, raw, data, resolved, t, answer.value);
    }
  }

  /** The list built by `get` decides every field as the line of ancestors does. */
  lemma ListDecidesAsLine(h: Hierarchy, rank: Rank, table: Table, t: string, parents: seq<string>, k: string)
    requires Ranked(h, rank) && SingleInheritance(h) && ParentsOf(h, rank, t, parents)
    ensures Nearest(table, [t] + parents, k) == Nearest(table, Line(h, rank, t), k)
  {
    if t in parents {
      AncestorRanksLower(h, rank, t, t);
    }
    FirstOccurrencesOfCons(t, parents);
    FirstOccurrencesDecide(table, [t] + parents, k);
  }

  lemma ListReaches(h: Hierarchy, rank: Rank, table: Table, t: string, parents: seq<string>, k: string)
    requires Ranked(h, rank) && ParentsOf(h, rank, t, parents)
    ensures Nearest(table, [t] + parents, k).Some? <==> Reaches(h, rank, table, t, k)
    ensures k in Own(table, t) ==> Nearest(table, [t] + parents, k) == Some(table[t][k])
  {
    NearestDefined(table, [t] + parents, k);
    assert forall u :: u in [t] + parents <==> SelfOrAncestor(h, rank, u, t);
  }

  // ---------------------------------------------------------------------
  // Applying overwrites to stored credential data
  // ---------------------------------------------------------------------

  predicate Empty(v: Option<Value>) {
    v == None || v == Some(Null) || v == Some(Text(""))
  }

  predicate Customized(overwrites: Fields, data: Fields, k: string)
    requires k in overwrites
  {
    !Empty(Field(data, k)) && data[k] != overwrites[k]
  }

  /** Only empty fields are filled; a skip-listed type with a field of its own is left alone. */
  function Applied(overwrites: Option<Fields>, skipListed: bool, data: Fields): Fields {
    if overwrites.None? then data
    else
      var o := overwrites.value;
      if skipListed && exists k :: k in o && Customized(o, data, k) then data
      else data + map k | k in o && Empty(Field(data, k)) :: o[k]
  }

  /** A field that is absent, `null` or the empty text takes its overwrite; any other stored value stays. */
  lemma EmptyFieldsAreFilled(o: Fields, data: Fields, k: string)
    ensures var r := Applied(Some(o), false, data);
      && (k in o && (k !in data || data[k] == Null || data[k] == Text("")) ==> k in r && r[k] == o[k])
      && (k in data && data[k] != Null && data[k] != Text("") ==> k in r && r[k] == data[k])
      && (k !in o ==> (k in r <==> k in data) && (k in data ==> r[k] == data[k]))
  {
  }

  /** A skip-listed credential is left alone exactly if some overwritten field has a value of its own. */
  lemma SkipListedExactly(o: Fields, data: Fields)
    ensures (exists k :: k in o && k in data && data[k] != Null && data[k] != Text("") && data[k] != o[k])
      ==> Applied(Some(o), true, data) == data
    ensures !(exists k :: k in o && k in data && data[k] != Null && data[k] != Text("") && data[k] != o[k])
      ==> Applied(Some(o), true, data) == Applied(Some(o), false, data)
  {
    if k :| k in o && k in data && data[k] != Null && data[k] != Text("") && data[k] != o[k] {
      assert Customized(o, data, k);
    }
  }

  /** Applying the same overwrites again changes nothing, and no stored value is ever replaced. */
  lemma AppliedIsStable(overwrites: Option<Fields>, skipListed: bool, data: Fields)
    ensures Applied(overwrites, skipListed, Applied(overwrites, skipListed, data))
         == Applied(overwrites, skipListed, data)
    ensures forall k :: !Empty(Field(data, k)) ==>
      Field(Applied(overwrites, skipListed, data), k) == Field(data, k)
  {
  }

  /** A stored value that differs from the overwrite for its field. */
  predicate Differs(overwrite: Option<Value>, data: Fields, k: string) {
    overwrite.Some? && !Empty(Field(data, k)) && Field(data, k) != overwrite
  }

  /** The field after it was filled, if it was empty and there is an overwrite for it. */
  function Filled(overwrite: Option<Value>, data: Fields, k: string): Option<Value> {
    if overwrite.Some? && Empty(Field(data, k)) then overwrite else Field(data, k)
  }

  /** What applying overwrites means, field by field, for the overwrites that `decide` gives. */
  ghost predicate FilledFrom(decide: string -> Option<Value>, skipListed: bool, data: Fields, r: Fields) {
    if skipListed && exists k :: Differs(decide(k), data, k) then r == data
    else forall k :: Field(r, k) == Filled(decide(k), data, k)
  }

  lemma AppliedFillsEmpty(overwrites: Option<Fields>, skipListed: bool, data: Fields, decide: string -> Option<Value>)
    requires forall k :: decide(k) == if overwrites.None? then None else Field(overwrites.value, k)
    ensures FilledFrom(decide, skipListed, data, Applied(overwrites, skipListed, data))
  {
    if overwrites.Some? {
      var o := overwrites.value;
      assert forall k :: Differs(decide(k), data, k) <==> k in o && Customized(o, data, k);
    }
  }

  lemma NothingToApply(h: Hierarchy, rank: Rank, raw: Table, t: string, k: string)
    requires Ranked(h, rank) && SingleInheritance(h) && forall u :: SelfOrAncestor(h, rank, u, t) ==> u !in raw
    ensures Nearest(raw, Line(h, rank, t), k).None?
  {
    NearestDefined(raw, Line(h, rank, t), k);
    forall u | u in Line(h, rank, t) ensures u !in raw {
      ChainMembers(h, rank, t, u);
    }
  }

  class Overwrites {
    const types: Hierarchy
    ghost const rank: Rank
    var overwriteData: Table
    var resolvedTypes: seq<string>
    /** The table as it was handed in, before any entry was replaced by a merge. */
    ghost var raw: Table

    ghost predicate Valid()
      reads this
    {
      Ranked(types, rank) && Memo(types, rank, raw, overwriteData, resolvedTypes)
    }

    constructor (types: Hierarchy, ghost rank: Rank)
      requires Ranked(types, rank)
      ensures Valid() && this.types == types && this.rank == rank && raw == map[]
    {
      this.types, this.rank := types, rank;
      overwriteData, resolvedTypes, raw := map[], [], map[];
    }

    /** `getOverwrites`: resolves one type, trusting the memo for types already seen. */
    method GetOverwrites(t: string) returns (r: Option<Fields>)
      requires Valid()
      modifies this`resolvedTypes
      ensures Valid()
      ensures r.Some? ==> t in resolvedTypes && MergeFor(types, rank, raw, t, r.value)
      ensures r.None? && t in types ==> t !in raw
      ensures forall u :: u in old(resolvedTypes) ==> u in resolvedTypes
      ensures MarksUpFrom(types, rank, t, old(resolvedTypes), resolvedTypes)
      ensures SingleInheritance(types) && Clear(types, rank, old(resolvedTypes), t) ==> Whole(types, rank, raw, t, r)
      decreases rank(t), 1
    {
      MemoAnswers(types, rank, raw, overwriteData, resolvedTypes, t);
      if t in resolvedTypes {
        return if t in overwriteData then Some(overwriteData[t]) else None;
      }
      if t !in types {
        return None;
      }
      if types[t].None? {
        RootIsWhole(types, rank, raw, t);
        MemoMarks(types, rank, raw, overwriteData, resolvedTypes, t);
        resolvedTypes := resolvedTypes + [t];
        return if t in overwriteData then Some(overwriteData[t]) else None;
      }
      var overwrites := InheritOverwrites(t, types[t].value);
      OwnOverParents(types, rank, raw, t, overwrites);
      if WholeAbove(types, rank, raw, t, overwrites) {
        OwnOverWhole(types, rank, raw, t, overwrites);
      }
      if t in overwriteData {
        overwrites := overwrites + overwriteData[t];
      }
      MemoMarks(types, rank, raw, overwriteData, resolvedTypes, t);
      resolvedTypes := resolvedTypes + [t];
      return Some(overwrites);
    }

    /** The loop of `getOverwrites` over the extended types. */
    method InheritOverwrites(t: string, parents: seq<string>) returns (overwrites: Fields)
      requires Valid() && parents == Parents(types, t)
      modifies this`resolvedTypes
      ensures Valid()
      ensures forall u :: u in old(resolvedTypes) ==> u in resolvedTypes
      ensures FromParents(types, rank, raw, t, |parents|, overwrites)
      ensures forall u :: u in resolvedTypes ==> u in old(resolvedTypes) || Ancestor(types, rank, u, t)
      ensures SingleInheritance(types) && Clear(types, rank, old(resolvedTypes), t) ==> WholeAbove(types, rank, raw, t, overwrites)
      decreases rank(t), 0
    {
      overwrites := map[];
      ghost var start := resolvedTypes;
      for i := 0 to |parents|
        invariant Valid()
        invariant forall u :: u in old(resolvedTypes) ==> u in resolvedTypes
        invariant FromParents(types, rank, raw, t, i, overwrites)
        invariant forall u :: u in resolvedTypes ==> u in start || Ancestor(types, rank, u, t)
        invariant i == 0 ==> resolvedTypes == start
        invariant i > 0 && SingleInheritance(types) && Clear(types, rank, start, t) ==> WholeAbove(types, rank, raw, t, overwrites)
      {
        ghost var mid := resolvedTypes;
        if Clear(types, rank, start, t) {
          ClearAbove(types, rank, start, t);
        }
        var inherited := GetOverwrites(parents[i]);
        MarksUpFromParent(types, rank, t, parents[i], start, mid, resolvedTypes);
        if SingleInheritance(types) && Whole(types, rank, raw, parents[i], inherited) {
          WholeFromParent(types, rank, raw, t, inherited);
        }
        FromOneMoreParent(types, rank, raw, t, i, overwrites, inherited);
        if inherited.Some? {
          overwrites := overwrites + inherited.value;
        }
      }
    }

    /** `setPlainData`, over the keys of the table in any order. */
    method SetPlainData(table: Table, keys: seq<string>)
      requires Ranked(types, rank)
      requires forall t :: t in keys <==> t in table
      modifies this
      ensures Valid() && raw == table
      ensures SingleInheritance(types) && Distinct(keys) ==> WholeSoFar(types, rank, table, keys, |keys|, overwriteData)
    {
      resolvedTypes := [];
      overwriteData := table;
      raw := table;
      MemoStarts(types, rank, table);
      for i := 0 to |keys|
        invariant Valid() && raw == table && Resolved(keys, i)
      {
        StoreKey(keys, i, keys[i]);
      }
    }

    /** Where `setPlainData` stands after the first `n` keys. */
    ghost predicate Resolved(keys: seq<string>, n: nat)
      requires Ranked(types, rank) && n <= |keys|
      reads this
    {
      && MarkedFor(types, rank, keys, n, resolvedTypes)
      && (SingleInheritance(types) && Distinct(keys) ==> WholeSoFar(types, rank, raw, keys, n, overwriteData))
    }

    /** The body of the loop of `setPlainData`. */
    method StoreKey(ghost keys: seq<string>, ghost i: nat, key: string)
      requires Valid() && i < |keys| && key == keys[i] && key in raw && Resolved(keys, i)
      modifies this`overwriteData, this`resolvedTypes
      ensures Valid() && Resolved(keys, i + 1)
    {
      ghost var data := overwriteData;
      var overwrites := ResolveKey(keys, i, key);
      MemoStoring(types, rank, raw, data, resolvedTypes, key, overwrites);
      if SingleInheritance(types) && Distinct(keys) {
        WholeOneMore(types, rank, raw, keys, i, data, overwrites);
      }
      overwriteData := Storing(overwriteData, key, overwrites);
    }

    /** One key of `setPlainData`: the whole merge is found for one that comes before all it is related to. */
    method ResolveKey(ghost keys: seq<string>, ghost i: nat, key: string) returns (r: Option<Fields>)
      requires Valid() && i < |keys| && key == keys[i] && key in raw && MarkedFor(types, rank, keys, i, resolvedTypes)
      modifies this`resolvedTypes
      ensures Valid() && MarkedFor(types, rank, keys, i + 1, resolvedTypes)
      ensures r.Some? ==> key in resolvedTypes && MergeFor(types, rank, raw, key, r.value)
      ensures SingleInheritance(types) && ComesFirst(types, rank, keys, i) ==>
        FirstAnswer(types, rank, raw, key, overwriteData, r)
    {
      ghost var marked := resolvedTypes;
      if ComesFirst(types, rank, keys, i) {
        FirstIsClear(types, rank, keys, i, resolvedTypes);
        assert key in Line(types, rank, key);
      }
      r := GetOverwrites(key);
      MarkedForNext(types, rank, keys, i, marked, resolvedTypes);
    }

    /**
      `get`: whatever the memo stored, the answer is that of the raw table. On a chain the
      nearest ancestor decides each field; with several parents the fields are those that any
      ancestor sets, and the type's own values win.
     */
    method Get(name: string) returns (r: Option<Fields>)
      requires Valid()
      ensures r.None? <==> forall u :: SelfOrAncestor(types, rank, u, name) ==> u !in raw
      ensures r.Some? && SingleInheritance(types) ==>
        forall k :: Field(r.value, k) == Nearest(raw, Line(types, rank, name), k)
      ensures r.Some? ==> forall k :: k in r.value <==> Reaches(types, rank, raw, name, k)
      ensures r.Some? ==> Keeps(Own(raw, name), r.value)
    {
      var parentTypes := GetParentTypes(types, rank, name);
      var list := [name] + parentTypes;
      var entries := Entries(overwriteData, Reverse(list));
      FoldIsNearest(overwriteData, list, "");
      assert forall u :: u in list <==> SelfOrAncestor(types, rank, u, name);
      if |entries| == 0 {
        return None;
      }
      r := Some(AssignAll(map[], entries));
      forall k
        ensures SingleInheritance(types) ==> Field(r.value, k) == Nearest(raw, Line(types, rank, name), k)
        ensures k in r.value <==> Reaches(types, rank, raw, name, k)
        ensures k in Own(raw, name) ==> Field(r.value, k) == Some(raw[name][k])
      {
        FoldIsNearest(overwriteData, list, k);
        ListReaches(types, rank, overwriteData, name, parentTypes, k);
        MergedFieldsReach(types, rank, raw, overwriteData, name, k);
        if SingleInheritance(types) {
          ListDecidesAsLine(types, rank, overwriteData, name, parentTypes, k);
          PartialMergesAgree(types, rank, raw, overwriteData, name, k);
        }
        if name in raw {
          assert MergeFor(types, rank, raw, name, overwriteData[name]);
        }
      }
    }

    /**
      `applyOverwrite`: no stored value is replaced and every new field comes from the type or an ancestor. On
      a chain, a field without a stored value gets what the nearest ancestor sets in the raw table, unless the
      type is skip-listed and some field was customised.
     */
    method ApplyOverwrite(name: string, data: Fields, skipTypes: set<string>) returns (r: Fields)
      requires Valid()
      ensures forall k :: !Empty(Field(data, k)) ==> Field(r, k) == Field(data, k)
      ensures forall k :: k in r && k !in data ==> Reaches(types, rank, raw, name, k)
      ensures SingleInheritance(types) ==> FilledFrom(Decided(name), name in skipTypes, data, r)
    {
      var found := Get(name);
      r := data;
      if found.Some? && !(name in skipTypes && exists k :: k in found.value && Customized(found.value, data, k)) {
        r := FillEmpty(found.value, data);
      }
      assert r == Applied(found, name in skipTypes, data);
      AppliedIsStable(found, name in skipTypes, data);
      if SingleInheritance(types) {
        AgreesWithChain(name, found);
        AppliedFillsEmpty(found, name in skipTypes, data, Decided(name));
      }
    }

    /** What the nearest ancestor decides for each field of a type. */
    ghost function Decided(name: string): string -> Option<Value>
      requires Ranked(types, rank)
      reads this
    {
      var table, line := raw, Line(types, rank, name);
      k => Nearest(table, line, k)
    }

    lemma AgreesWithChain(name: string, found: Option<Fields>)
      requires Valid() && SingleInheritance(types)
      requires found.None? ==> forall u :: SelfOrAncestor(types, rank, u, name) ==> u !in raw
      requires found.Some? ==> forall k :: Field(found.value, k) == Nearest(raw, Line(types, rank, name), k)
      ensures forall k :: Decided(name)(k) == if found.None? then None else Field(found.value, k)
    {
      forall k ensures Decided(name)(k) == if found.None? then None else Field(found.value, k) {
        if found.None? {
          NothingToApply(types, rank, raw, name, k);
        }
      }
    }

    /** The loop of `applyOverwrite` over the overwritten fields. */
    static method FillEmpty(o: Fields, data: Fields) returns (r: Fields)
      ensures r == data + map k | k in o && Empty(Field(data, k)) :: o[k]
    {
      r := data;
      var todo := o.Keys;
      while todo != {}
        invariant todo <= o.Keys
        invariant forall k ::
          Field(r, k) == (if k in o && k !in todo && Empty(Field(data, k)) then Some(o[k]) else Field(data, k))
      {
        var k :| k in todo;
        if Empty(Field(r, k)) {
          r := r[k := o[k]];
        }
        todo := todo - {k};
      }
      var filled := data + map k | k in o && Empty(Field(data, k)) :: o[k];
      assert forall k :: Field(r, k) == Field(filled, k);
      assert forall k :: k in r <==> k in filled;
      assert forall k | k in r :: r[k] == filled[k] by {
        forall k | k in r ensures r[k] == filled[k] {
          assert Field(r, k) == Field(filled, k);
        }
      }
    }

    /** Loading the saved table into a second instance shows the same overwrites. */
    static method SaveAndLoad(first: Overwrites, second: Overwrites, table: Table,
                              keys: seq<string>, loadedKeys: seq<string>) returns (saved: Table)
      requires first != second && first.types == second.types && first.rank == second.rank
      requires Ranked(first.types, first.rank) && SingleInheritance(first.types)
      requires forall t :: t in keys <==> t in table
      requires forall t :: t in loadedKeys <==> t in table
      modifies first, second
      ensures first.Valid() && first.raw == table
      ensures saved == first.overwriteData && second.Valid() && second.raw == saved
      ensures forall t, k :: Nearest(second.overwriteData, Line(first.types, first.rank, t), k)
                          == Nearest(table, Line(first.types, first.rank, t), k)
    {
      first.SetPlainData(table, keys);
      saved := first.overwriteData;
      second.SetPlainData(saved, loadedKeys);
      forall t, k
        ensures Nearest(second.overwriteData, Line(first.types, first.rank, t), k)
             == Nearest(table, Line(first.types, first.rank, t), k)
      {
        PersistAndReload(first.types, first.rank, table, saved, second.overwriteData, t, k);
      }
    }
  }
}
