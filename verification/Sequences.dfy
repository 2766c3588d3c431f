/** Strictly ascending sequences. */
module Sequences {

  ghost predicate Ascending(a: seq<nat>) {
    forall j, k :: 0 <= j < k < |a| ==> a[j] < a[k]
  }

  lemma Prepended(i: nat, rest: seq<nat>)
    requires Ascending(rest) && forall x: nat :: x in rest ==> i < x
    ensures Ascending([i] + rest)
  {
    forall k | 0 <= k < |rest| ensures i < rest[k] { assert rest[k] in rest; }
  }

  lemma {:induction false} AscendingUnique(a: seq<nat>, b: seq<nat>)
    requires Ascending(a) && Ascending(b)
    requires forall x: nat :: x in a <==> x in b
    ensures a == b
    decreases |a|
  {
    assert a != [] ==> a[0] in a;
    assert b != [] ==> b[0] in b;
    if a != [] {
      var m, n := |a| - 1, |b| - 1;
      assert a[m] in b && b[n] in a;
      assert a[m] == b[n];
      forall x: nat ensures x in a[..m] <==> x in b[..n] {
        if x in a[..m] { assert x in a && x != a[m]; }
        if x in b[..n] { assert x in b && x != b[n]; }
      }
      AscendingUnique(a[..m], b[..n]);
    }
  }

  lemma {:induction false} AscendingIndex(a: seq<nat>, j: nat)
    requires Ascending(a) && j < |a|
    ensures j <= a[j]
  {
    if j > 0 { AscendingIndex(a, j - 1); }
  }
}
