/** Small notions shared by all parts of the model. */
module Basics {

  datatype Option<+T> = None | Some(value: T)

  function Min(a: int, b: int): int { if a < b then a else b }

  function Max(a: int, b: int): int { if a < b then b else a }

  function Pow2(n: nat): nat { if n == 0 then 1 else 2 * Pow2(n - 1) }

  /** A condition counted as a number. */
  function One(b: bool): nat { if b then 1 else 0 }

  ghost predicate Distinct<T>(s: seq<T>) {
    forall i, j :: 0 <= i < j < |s| ==> s[i] != s[j]
  }

  lemma Append<T>(a: seq<T>, b: seq<T>, x: T)
    ensures a + b + [x] == a + (b + [x])
  {
  }

  lemma TakeNext<T>(s: seq<T>, i: nat)
    requires i < |s|
    ensures s[..i] + [s[i]] == s[..i + 1]
  {
  }

  lemma {:induction false} UnusedId(ids: set<nat>) returns (id: nat)
    ensures id !in ids && forall x :: x in ids ==> x < id
    decreases |ids|
  {
    if ids == {} {
      id := 0;
    } else {
      var x :| x in ids;
      var rest := UnusedId(ids - {x});
      id := if x < rest then rest else x + 1;
      assert forall y :: y in ids ==> y == x || y in ids - {x};
    }
  }
}
