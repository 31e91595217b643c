/**
  The credential type hierarchy and `CredentialTypes.getParentTypes`, which
  appends to the very list it is iterating over.
 */
module CredentialTypes {
  import opened Basics

  /** Known credential types; `None` is an absent `extends`, as opposed to an empty one. */
  type Hierarchy = map<string, Option<seq<string>>>

  /** A witness that a hierarchy has no cycle: every parent ranks strictly below its child. */
  type Rank = string -> nat

  function Parents(h: Hierarchy, t: string): seq<string> {
    if t in h && h[t].Some? then h[t].value else []
  }

  ghost predicate Ranked(h: Hierarchy, rank: Rank) {
    forall t, p :: p in Parents(h, t) ==> rank(p) < rank(t)
  }

  ghost predicate SingleInheritance(h: Hierarchy) {
    forall t :: |Parents(h, t)| <= 1
  }

  /** `a` is a strict ancestor of `t`. */
  ghost predicate Ancestor(h: Hierarchy, rank: Rank, a: string, t: string)
    requires Ranked(h, rank)
    decreases rank(t)
  {
    exists p :: p in Parents(h, t) && (p == a || Ancestor(h, rank, a, p))
  }

  /** `t` and its strict ancestors. */
  ghost predicate SelfOrAncestor(h: Hierarchy, rank: Rank, a: string, t: string)
    requires Ranked(h, rank)
  {
    a == t || Ancestor(h, rank, a, t)
  }

  /** The ancestors of a type are the types it extends and theirs: of all of them, and of nothing else. */
  lemma AncestorsFromExtends(h: Hierarchy, rank: Rank, a: string, t: string)
    requires Ranked(h, rank)
    ensures Ancestor(h, rank, a, t) <==>
      t in h && h[t].Some? && exists p :: p in h[t].value && (p == a || Ancestor(h, rank, a, p))
  {
  }

  lemma ParentIsAncestor(h: Hierarchy, rank: Rank, p: string, t: string)
    requires Ranked(h, rank) && p in Parents(h, t)
    ensures Ancestor(h, rank, p, t)
  {
  }

  lemma {:induction false} AncestorTransitive(h: Hierarchy, rank: Rank, a: string, b: string, t: string)
    requires Ranked(h, rank) && Ancestor(h, rank, a, b) && Ancestor(h, rank, b, t)
    ensures Ancestor(h, rank, a, t)
    decreases rank(t)
  {
    var p :| p in Parents(h, t) && (p == b || Ancestor(h, rank, b, p));
    if p != b {
      AncestorTransitive(h, rank, a, b, p);
    }
  }

  lemma SelfOrAncestorTransitive(h: Hierarchy, rank: Rank, a: string, b: string, t: string)
    requires Ranked(h, rank) && SelfOrAncestor(h, rank, a, b) && SelfOrAncestor(h, rank, b, t)
    ensures SelfOrAncestor(h, rank, a, t)
  {
    if a != b && b != t {
      AncestorTransitive(h, rank, a, b, t);
    }
  }

  lemma {:induction false} AncestorRanksLower(h: Hierarchy, rank: Rank, a: string, t: string)
    requires Ranked(h, rank) && Ancestor(h, rank, a, t)
    ensures rank(a) < rank(t)
    decreases rank(t)
  {
    var p :| p in Parents(h, t) && (p == a || Ancestor(h, rank, a, p));
    if p != a {
      AncestorRanksLower(h, rank, a, p);
    }
  }

  /** Under single inheritance, the strict ancestors of `t`, nearest first. */
  ghost function AncestorChain(h: Hierarchy, rank: Rank, t: string): seq<string>
    requires Ranked(h, rank)
    decreases rank(t)
  {
    var ps := Parents(h, t);
    if ps == [] then [] else [ps[0]] + AncestorChain(h, rank, ps[0])
  }

  lemma {:induction false} ChainMembers(h: Hierarchy, rank: Rank, t: string, a: string)
    requires Ranked(h, rank) && SingleInheritance(h)
    ensures a in AncestorChain(h, rank, t) <==> Ancestor(h, rank, a, t)
    decreases rank(t)
  {
    var ps := Parents(h, t);
    if ps != [] {
      assert ps == [ps[0]];
      ChainMembers(h, rank, ps[0], a);
    }
  }

  /** `t` followed by its ancestors, nearest first. */
  ghost function Line(h: Hierarchy, rank: Rank, t: string): seq<string>
    requires Ranked(h, rank)
  {
    [t] + AncestorChain(h, rank, t)
  }

  // ---------------------------------------------------------------------
  // How far the list can grow
  // ---------------------------------------------------------------------

  ghost predicate Wide(h: Hierarchy, w: nat) {
    1 <= w && forall t :: |Parents(h, t)| <= w
  }

  lemma {:induction false} WidthExists(h: Hierarchy)
    ensures exists w: nat :: Wide(h, w)
    decreases |h|
  {
    if h == map[] {
      assert Wide(h, 1);
    } else {
      var t :| t in h;
      var rest := h - {t};
      assert |rest| < |h| by {
        assert rest.Keys == h.Keys - {t};
      }
      WidthExists(rest);
      var w: nat :| Wide(rest, w);
      var w' := w + |Parents(h, t)|;
      forall u ensures |Parents(h, u)| <= w' {
        assert u != t ==> Parents(h, u) == Parents(rest, u);
      }
      assert Wide(h, w');
    }
  }

  /** The most parents any type has. */
  ghost function Width(h: Hierarchy): (w: nat)
    ensures Wide(h, w)
  {
    WidthExists(h);
    var w: nat :| Wide(h, w);
    w
  }

  /** A bound on the iterations that one list entry of the given rank still causes, itself included. */
  ghost function Weight(w: nat, rank: nat): (n: nat)
    ensures 1 <= n
    decreases rank, 1
  {
    if rank == 0 then 1 else 1 + ListBound(w, rank) * Weight(w, rank - 1)
  }

  /** A bound on the length of the list returned for a type of the given rank. */
  ghost function ListBound(w: nat, rank: nat): nat
    decreases rank, 0
  {
    if rank == 0 then 0 else w * Weight(w, rank - 1)
  }

  lemma TimesMonotone(a: nat, b: nat, c: nat)
    requires a <= b
    ensures a * c <= b * c
  {
  }

  lemma OneTimesMore(n: nat, c: nat)
    ensures (n + 1) * c == c + n * c
  {
  }

  lemma {:induction false} WeightMonotone(w: nat, low: nat, high: nat)
    requires 1 <= w && low <= high
    ensures Weight(w, low) <= Weight(w, high)
    decreases high - low
  {
    if low < high {
      WeightMonotone(w, low, high - 1);
      var n := Weight(w, high - 1);
      TimesMonotone(1, w, n);
      TimesMonotone(1, w * n, n);
    }
  }

  /** The iterations that a list still causes. */
  ghost function Work(rank: Rank, w: nat, ts: seq<string>): nat {
    if ts == [] then 0 else Weight(w, rank(ts[0])) + Work(rank, w, ts[1..])
  }

  lemma {:induction false} WorkConcat(rank: Rank, w: nat, a: seq<string>, b: seq<string>)
    ensures Work(rank, w, a + b) == Work(rank, w, a) + Work(rank, w, b)
  {
    if a == [] {
      assert a + b == b;
    } else {
      assert (a + b)[1..] == a[1..] + b;
      WorkConcat(rank, w, a[1..], b);
    }
  }

  lemma {:induction false} WorkBound(rank: Rank, w: nat, ts: seq<string>, r: nat)
    requires 1 <= w && forall x :: x in ts ==> rank(x) < r
    ensures 0 < r ==> Work(rank, w, ts) <= |ts| * Weight(w, r - 1)
  {
    if ts != [] {
      assert ts[0] in ts;
      WeightMonotone(w, rank(ts[0]), r - 1);
      WorkBound(rank, w, ts[1..], r);
      OneTimesMore(|ts| - 1, Weight(w, r - 1));
    }
  }

  /** Working off an entry costs more than what it appends. */
  lemma WorkOff(rank: Rank, w: nat, current: string, more: seq<string>)
    requires 1 <= w && forall x :: x in more ==> rank(x) < rank(current)
    requires |more| <= ListBound(w, rank(current))
    ensures Work(rank, w, more) < Weight(w, rank(current))
  {
    var r := rank(current);
    WorkBound(rank, w, more, r);
    if r == 0 {
      assert more == [];
    } else {
      TimesMonotone(|more|, ListBound(w, r), Weight(w, r - 1));
    }
  }

  // ---------------------------------------------------------------------
  // First occurrences
  // ---------------------------------------------------------------------

  /** A list with every repeated entry dropped, keeping the first of each. */
  ghost function FirstOccurrences(s: seq<string>): seq<string> {
    if s == [] then []
    else
      var front, last := s[..|s| - 1], s[|s| - 1];
      FirstOccurrences(front) + (if last in front then [] else [last])
  }

  lemma {:induction false} FirstOccurrencesMembers(s: seq<string>, x: string)
    ensures x in FirstOccurrences(s) <==> x in s
    decreases |s|
  {
    if s != [] {
      var front := s[..|s| - 1];
      assert s == front + [s[|s| - 1]];
      FirstOccurrencesMembers(front, x);
    }
  }

  lemma {:induction false} FirstOccurrencesOfRepeats(a: seq<string>, b: seq<string>)
    requires forall x :: x in b ==> x in a
    ensures FirstOccurrences(a + b) == FirstOccurrences(a)
    decreases |b|
  {
    if b == [] {
      assert a + b == a;
    } else {
      var front := b[..|b| - 1];
      assert (a + b)[..|a + b| - 1] == a + front;
      assert b[|b| - 1] in b;
      FirstOccurrencesOfRepeats(a, front);
    }
  }

  lemma {:induction false} FirstOccurrencesOfCons(p: string, s: seq<string>)
    requires p !in s
    ensures FirstOccurrences([p] + s) == [p] + FirstOccurrences(s)
    decreases |s|
  {
    if s == [] {
      assert ([p] + s)[..0] == [];
    } else {
      var front := s[..|s| - 1];
      assert ([p] + s)[..|s|] == [p] + front;
      FirstOccurrencesOfCons(p, front);
    }
  }

  // ---------------------------------------------------------------------
  // The loop
  // ---------------------------------------------------------------------

  /** What holds each time the loop looks at entry `i` of the list grown so far. */
  ghost predicate Progress(h: Hierarchy, rank: Rank, t: string, types: seq<string>, i: nat)
    requires Ranked(h, rank)
  {
    && i <= |types|
    && Parents(h, t) <= types
    && (i == 0 ==> types == Parents(h, t))
    && (forall x :: x in types ==> Ancestor(h, rank, x, t))
    && (forall j, a :: 0 <= j < i && Ancestor(h, rank, a, types[j]) ==> a in types)
    && i + Work(rank, Width(h), types[i..]) <= ListBound(Width(h), rank(t))
    && (SingleInheritance(h) && 0 < i ==> FirstOccurrences(types) == AncestorChain(h, rank, t))
  }

  /** What `getParentTypes` returns: the strict ancestors, on a chain nearest first. */
  ghost predicate ParentsOf(h: Hierarchy, rank: Rank, t: string, types: seq<string>)
    requires Ranked(h, rank)
  {
    && (forall a :: a in types <==> Ancestor(h, rank, a, t))
    && |types| <= ListBound(Width(h), rank(t))
    && (SingleInheritance(h) ==> FirstOccurrences(types) == AncestorChain(h, rank, t))
  }

  lemma ProgressBegins(h: Hierarchy, rank: Rank, t: string)
    requires Ranked(h, rank) && Parents(h, t) != []
    ensures Progress(h, rank, t, Parents(h, t), 0)
  {
    var ps, w := Parents(h, t), Width(h);
    assert ps[0..] == ps;
    assert ps[0] in ps;
    assert forall p :: p in ps ==> Ancestor(h, rank, p, t);
    assert Work(rank, w, ps) <= ListBound(w, rank(t)) by {
      WorkBound(rank, w, ps, rank(t));
      TimesMonotone(|ps|, w, Weight(w, rank(t) - 1));
    }
  }

  lemma ProgressContinues(h: Hierarchy, rank: Rank, t: string, types: seq<string>, i: nat, more: seq<string>)
    requires Ranked(h, rank) && i < |types| && Progress(h, rank, t, types, i)
    requires ParentsOf(h, rank, types[i], more)
    ensures Progress(h, rank, t, types + more, i + 1)
    ensures Work(rank, Width(h), (types + more)[i + 1..]) < Work(rank, Width(h), types[i..])
  {
    var current, w := types[i], Width(h);
    forall x | x in more ensures rank(x) < rank(current) && Ancestor(h, rank, x, t) {
      AncestorRanksLower(h, rank, x, current);
      AncestorTransitive(h, rank, x, current, t);
    }
    WorkOff(rank, w, current, more);
    assert (types + more)[i + 1..] == types[i + 1..] + more;
    WorkConcat(rank, w, types[i + 1..], more);
    if SingleInheritance(h) {
      ChainOrder(h, rank, t, types, i, more);
    }
  }

  /** The nearest ancestor comes first and the rest of the chain follows it. */
  lemma ChainOrder(h: Hierarchy, rank: Rank, t: string, types: seq<string>, i: nat, more: seq<string>)
    requires Ranked(h, rank) && SingleInheritance(h) && i < |types|
    requires ParentsOf(h, rank, types[i], more)
    requires i == 0 ==> types == Parents(h, t)
    requires 0 < i ==> FirstOccurrences(types) == AncestorChain(h, rank, t)
    requires forall x :: x in more ==> Ancestor(h, rank, x, t)
    ensures FirstOccurrences(types + more) == AncestorChain(h, rank, t)
  {
    if i == 0 {
      assert types == [types[0]];
      if types[0] in more {
        AncestorRanksLower(h, rank, types[0], types[0]);
      }
      FirstOccurrencesOfCons(types[0], more);
    } else {
      forall x | x in more ensures x in types {
        FirstOccurrencesMembers(types, x);
        ChainMembers(h, rank, t, x);
      }
      FirstOccurrencesOfRepeats(types, more);
    }
  }

  lemma ProgressEnds(h: Hierarchy, rank: Rank, t: string, types: seq<string>)
    requires Ranked(h, rank) && types != [] && Progress(h, rank, t, types, |types|)
    ensures ParentsOf(h, rank, t, types)
  {
    forall a | Ancestor(h, rank, a, t) ensures a in types {
      var p :| p in Parents(h, t) && (p == a || Ancestor(h, rank, a, p));
      var j :| 0 <= j < |Parents(h, t)| && Parents(h, t)[j] == p;
      assert types[j] == p;
    }
  }

  /** `getParentTypes`: every strict ancestor, some repeatedly, nearest first on a chain. */
  method GetParentTypes(h: Hierarchy, ghost rank: Rank, typeName: string) returns (types: seq<string>)
    requires Ranked(h, rank)
    ensures ParentsOf(h, rank, typeName, types)
    decreases rank(typeName)
  {
    var extended := Parents(h, typeName);
    if |extended| == 0 {
      return [];
    }
    types := extended;
    var i := 0;
    ProgressBegins(h, rank, typeName);
    while i < |types|
      invariant 0 <= i <= |types| && types != []
      invariant Progress(h, rank, typeName, types, i)
      decreases Work(rank, Width(h), types[i..])
    {
      AncestorRanksLower(h, rank, types[i], typeName);
      var more := GetParentTypes(h, rank, types[i]);
      ProgressContinues(h, rank, typeName, types, i, more);
      types, i := types + more, i + 1;
    }
    ProgressEnds(h, rank, typeName, types);
  }
}
