/** Bottom-up merging with two alternating buffers, and the linked list sort that shares it. */
module Sorting {
  import opened Machine

  type Compare = (I64, I64) -> I64

  predicate Leq(compare: Compare, a: I64, b: I64) {
    compare(a, b) <= 0
  }

  /** On these values `<= 0` is a total preorder. */
  ghost predicate OrderedOn(compare: Compare, dom: set<I64>) {
    && (forall a, b :: a in dom && b in dom ==> Leq(compare, a, b) || Leq(compare, b, a))
    && (forall a, b, c :: a in dom && b in dom && c in dom && Leq(compare, a, b) && Leq(compare, b, c) ==>
      Leq(compare, a, c))
  }

  ghost predicate Within(s: seq<I64>, dom: set<I64>) {
    forall i :: 0 <= i < |s| ==> s[i] in dom
  }

  ghost predicate Sorted(compare: Compare, s: seq<I64>) {
    forall i, j :: 0 <= i < j < |s| ==> Leq(compare, s[i], s[j])
  }

  predicate Alike(compare: Compare, a: I64, b: I64) {
    Leq(compare, a, b) && Leq(compare, b, a)
  }

  /** The elements that compare equal to `x`, in order. */
  function Class(compare: Compare, x: I64, s: seq<I64>): seq<I64> {
    if s == [] then [] else (if Alike(compare, x, s[0]) then [s[0]] else []) + Class(compare, x, s[1..])
  }

  /** Elements that compare equal keep their order. */
  ghost predicate SameClasses(compare: Compare, dom: set<I64>, a: seq<I64>, b: seq<I64>) {
    forall x :: x in dom ==> Class(compare, x, a) == Class(compare, x, b)
  }

  /** A sorted, stable rearrangement. */
  ghost predicate StablySorts(compare: Compare, dom: set<I64>, a: seq<I64>, b: seq<I64>) {
    Sorted(compare, b) && Within(b, dom) && SameClasses(compare, dom, a, b)
  }

  // ----- what being a stable rearrangement determines -----

  lemma {:induction false} ClassConcat(compare: Compare, x: I64, a: seq<I64>, b: seq<I64>)
    ensures Class(compare, x, a + b) == Class(compare, x, a) + Class(compare, x, b)
  {
    if a == [] {
      assert a + b == b;
    } else {
      assert (a + b)[1..] == a[1..] + b && (a + b)[0] == a[0];
      ClassConcat(compare, x, a[1..], b);
      var first := if Alike(compare, x, a[0]) then [a[0]] else [];
      assert Class(compare, x, a) == first + Class(compare, x, a[1..]);
      assert Class(compare, x, a + b) == first + Class(compare, x, (a + b)[1..]);
      hide Class;
      Associate(first, Class(compare, x, a[1..]), Class(compare, x, b));
    }
  }

  lemma ClassCons(compare: Compare, x: I64, v: I64, s: seq<I64>)
    ensures Class(compare, x, [v] + s) == (if Alike(compare, x, v) then [v] else []) + Class(compare, x, s)
  {
    assert ([v] + s)[1..] == s;
  }

  lemma {:induction false} InClass(compare: Compare, x: I64, s: seq<I64>, v: I64)
    ensures v in Class(compare, x, s) <==> v in s && Alike(compare, x, v)
  {
    if s != [] {
      InClass(compare, x, s[1..], v);
      assert v in s <==> v == s[0] || v in s[1..];
    }
  }

  lemma {:induction false} ClassCount(compare: Compare, s: seq<I64>, v: I64)
    requires Alike(compare, v, v)
    ensures multiset(Class(compare, v, s))[v] == multiset(s)[v]
  {
    if s != [] {
      ClassCount(compare, s[1..], v);
      assert s == [s[0]] + s[1..];
    }
  }

  /** A stable rearrangement is a permutation. */
  lemma ClassesPermute(compare: Compare, dom: set<I64>, a: seq<I64>, b: seq<I64>)
    requires OrderedOn(compare, dom) && Within(a, dom) && Within(b, dom) && SameClasses(compare, dom, a, b)
    ensures multiset(a) == multiset(b)
  {
    forall v ensures multiset(a)[v] == multiset(b)[v] {
      if v in dom {
        ClassCount(compare, a, v);
        ClassCount(compare, b, v);
      } else {
        assert v !in a && v !in b;
      }
    }
  }

  lemma BothEmpty(compare: Compare, dom: set<I64>, a: seq<I64>, b: seq<I64>)
    requires OrderedOn(compare, dom) && Within(a, dom) && Within(b, dom) && SameClasses(compare, dom, a, b)
    ensures a == [] <==> b == []
  {
    if a != [] { InClass(compare, a[0], a, a[0]); }
    if b != [] { InClass(compare, b[0], b, b[0]); }
  }

  lemma HeadsSame(compare: Compare, dom: set<I64>, a: seq<I64>, b: seq<I64>)
    requires OrderedOn(compare, dom) && Within(a, dom) && Within(b, dom) && a != [] && b != []
    requires Sorted(compare, a) && Sorted(compare, b) && SameClasses(compare, dom, a, b)
    ensures a[0] == b[0]
  {
    InClass(compare, a[0], a, a[0]);
    InClass(compare, a[0], b, a[0]);
    InClass(compare, b[0], b, b[0]);
    InClass(compare, b[0], a, b[0]);
    assert a[0] in b && b[0] in a;
    assert Alike(compare, a[0], b[0]);
    assert Class(compare, a[0], a)[0] == a[0] && Class(compare, a[0], b)[0] == b[0];
  }

  lemma TailClasses(compare: Compare, dom: set<I64>, v: I64, a: seq<I64>, b: seq<I64>)
    requires SameClasses(compare, dom, [v] + a, [v] + b)
    ensures SameClasses(compare, dom, a, b)
  {
    forall x | x in dom ensures Class(compare, x, a) == Class(compare, x, b) {
      ClassCons(compare, x, v, a);
      ClassCons(compare, x, v, b);
      if Alike(compare, x, v) {
        assert ([v] + Class(compare, x, a))[1..] == Class(compare, x, a) &&
            ([v] + Class(compare, x, b))[1..] == Class(compare, x, b);
      } else {
        assert [] + Class(compare, x, a) == Class(compare, x, a) && [] + Class(compare, x, b) == Class(compare, x, b);
      }
    }
  }

  /** There is only one sorted, stable rearrangement. */
  lemma {:induction false} StableUnique(compare: Compare, dom: set<I64>, a: seq<I64>, b: seq<I64>)
    requires OrderedOn(compare, dom) && Within(a, dom) && Within(b, dom)
    requires Sorted(compare, a) && Sorted(compare, b) && SameClasses(compare, dom, a, b)
    ensures a == b
  {
    BothEmpty(compare, dom, a, b);
    if a != [] {
      HeadsSame(compare, dom, a, b);
      assert a == [a[0]] + a[1..] && b == [a[0]] + b[1..];
      TailClasses(compare, dom, a[0], a[1..], b[1..]);
      StableUnique(compare, dom, a[1..], b[1..]);
    }
  }

  // ----- merging -----

  /** A stable merge: the left element goes first when neither is greater. */
  function Merge(compare: Compare, l: seq<I64>, r: seq<I64>): (m: seq<I64>)
    ensures |m| == |l| + |r|
    decreases |l| + |r|
  {
    if l == [] then r
    else if r == [] then l
    else if Leq(compare, l[0], r[0]) then [l[0]] + Merge(compare, l[1..], r)
    else [r[0]] + Merge(compare, l, r[1..])
  }

  lemma {:induction false} InMerge(compare: Compare, l: seq<I64>, r: seq<I64>, i: nat)
    requires i < |l| + |r|
    ensures Merge(compare, l, r)[i] in l || Merge(compare, l, r)[i] in r
    decreases |l| + |r|
  {
    if l != [] && r != [] && i > 0 {
      if Leq(compare, l[0], r[0]) { InMerge(compare, l[1..], r, i - 1); } else { InMerge(compare, l, r[1..], i - 1); }
    }
  }

  lemma {:induction false} MergeSorts(compare: Compare, dom: set<I64>, l: seq<I64>, r: seq<I64>)
    requires OrderedOn(compare, dom) && Within(l, dom) && Within(r, dom) && Sorted(compare, l) && Sorted(compare, r)
    ensures Sorted(compare, Merge(compare, l, r)) && Within(Merge(compare, l, r), dom)
    decreases |l| + |r|
  {
    if l != [] && r != [] {
      var left := Leq(compare, l[0], r[0]);
      var v, l1, r1 := if left then l[0] else r[0], if left then l[1..] else l, if left then r else r[1..];
      MergeSorts(compare, dom, l1, r1);
      var rest := Merge(compare, l1, r1);
      assert Merge(compare, l, r) == [v] + rest;
      forall w | w in rest ensures Leq(compare, v, w) {
        var j :| 0 <= j < |rest| && rest[j] == w;
        InMerge(compare, l1, r1, j);
        LeastFirst(compare, dom, l, r, w);
      }
      hide *;
      SortedCons(compare, dom, v, rest);
    }
  }

  lemma LeastFirst(compare: Compare, dom: set<I64>, l: seq<I64>, r: seq<I64>, w: I64)
    requires OrderedOn(compare, dom) && Within(l, dom) && Within(r, dom) && Sorted(compare, l) && Sorted(compare, r)
    requires l != [] && r != [] && (w in l || w in r)
    ensures Leq(compare, if Leq(compare, l[0], r[0]) then l[0] else r[0], w)
  {
    var s := if w in l then l else r;
    var j :| 0 <= j < |s| && s[j] == w;
    assert Leq(compare, s[0], w);
  }

  lemma SortedCons(compare: Compare, dom: set<I64>, v: I64, s: seq<I64>)
    requires Sorted(compare, s) && Within(s, dom) && v in dom && forall w :: w in s ==> Leq(compare, v, w)
    ensures Sorted(compare, [v] + s) && Within([v] + s, dom)
  {
  }

  lemma {:induction false} NoneAlike(compare: Compare, dom: set<I64>, x: I64, s: seq<I64>, least: I64)
    requires OrderedOn(compare, dom) && x in dom && least in dom && Within(s, dom)
    requires Leq(compare, x, least) && !Leq(compare, least, x) && forall i :: 0 <= i < |s| ==> Leq(compare, least, s[i])
    ensures Class(compare, x, s) == []
  {
    if s != [] { NoneAlike(compare, dom, x, s[1..], least); }
  }

  lemma {:induction false} MergeStable(compare: Compare, dom: set<I64>, l: seq<I64>, r: seq<I64>, x: I64)
    requires OrderedOn(compare, dom) && Within(l, dom) && Within(r, dom) && x in dom && Sorted(compare, l)
    ensures Class(compare, x, Merge(compare, l, r)) == Class(compare, x, l) + Class(compare, x, r)
    decreases |l| + |r|
  {
    hide OrderedOn, Within, Sorted, Alike, Class;
    Tails(compare, dom, l);
    Tails(compare, dom, r);
    if l == [] {
      NoClass(compare, x);
    } else if r == [] {
      NoClass(compare, x);
    } else if Leq(compare, l[0], r[0]) {
      var rest := Merge(compare, l[1..], r);
      MergeStable(compare, dom, l[1..], r, x);
      ClassCons(compare, x, l[0], rest);
      ClassCons(compare, x, l[0], l[1..]);
      Associate(if Alike(compare, x, l[0]) then [l[0]] else [], Class(compare, x, l[1..]), Class(compare, x, r));
    } else {
      MergeStable(compare, dom, l, r[1..], x);
      ClassCons(compare, x, r[0], Merge(compare, l, r[1..]));
      ClassCons(compare, x, r[0], r[1..]);
      if Alike(compare, x, r[0]) { NoneBefore(compare, dom, x, l, r[0]); }
    }
  }

  lemma NoClass(compare: Compare, x: I64)
    ensures Class(compare, x, []) == []
  {
  }

  lemma Tails(compare: Compare, dom: set<I64>, s: seq<I64>)
    requires Within(s, dom)
    ensures s != [] ==> s == [s[0]] + s[1..] && s[0] in dom && Within(s[1..], dom)
    ensures s != [] && Sorted(compare, s) ==> Sorted(compare, s[1..])
  {
  }

  /** Elements after a greater one are not alike. */
  lemma NoneBefore(compare: Compare, dom: set<I64>, x: I64, l: seq<I64>, y: I64)
    requires OrderedOn(compare, dom) && Within(l, dom) && Sorted(compare, l) && l != [] && x in dom && y in dom
    requires Alike(compare, x, y) && !Leq(compare, l[0], y)
    ensures Class(compare, x, l) == []
  {
    assert Leq(compare, y, l[0]) && Leq(compare, x, l[0]) && !Leq(compare, l[0], x) && Leq(compare, l[0], l[0]);
    NoneAlike(compare, dom, x, l, l[0]);
  }

  /** Every aligned block of `width` elements is sorted. */
  ghost predicate Runs(compare: Compare, s: seq<I64>, width: nat)
    requires width > 0
    decreases |s|
  {
    if |s| <= width then Sorted(compare, s) else Sorted(compare, s[..width]) && Runs(compare, s[width..], width)
  }

  /** Neighbouring blocks merged. */
  function Pass(compare: Compare, s: seq<I64>, width: nat): (p: seq<I64>)
    requires width > 0
    ensures |p| == |s|
    decreases |s|
  {
    if s == [] then []
    else
      var middle, high := Min(width, |s|), Min(2 * width, |s|);
      Merge(compare, s[..middle], s[middle..high]) + Pass(compare, s[high..], width)
  }

  lemma {:induction false} PassRuns(compare: Compare, dom: set<I64>, s: seq<I64>, width: nat)
    requires width > 0 && OrderedOn(compare, dom) && Within(s, dom) && Runs(compare, s, width)
    ensures Runs(compare, Pass(compare, s, width), 2 * width) && Within(Pass(compare, s, width), dom)
    decreases |s|
  {
    if s != [] {
      var middle, high := Min(width, |s|), Min(2 * width, |s|);
      HeadRuns(compare, s, width);
      MergeSorts(compare, dom, s[..middle], s[middle..high]);
      PassRuns(compare, dom, s[high..], width);
      var first, rest := Merge(compare, s[..middle], s[middle..high]), Pass(compare, s[high..], width);
      if |s| <= 2 * width {
        assert first + rest == first;
      } else {
        assert (first + rest)[..2 * width] == first && (first + rest)[2 * width..] == rest;
      }
    }
  }

  lemma HeadRuns(compare: Compare, s: seq<I64>, width: nat)
    requires width > 0 && Runs(compare, s, width)
    ensures var middle, high := Min(width, |s|), Min(2 * width, |s|);
      Sorted(compare, s[..middle]) && Sorted(compare, s[middle..high]) && Runs(compare, s[high..], width)
  {
    if |s| <= width {
      assert s[..|s|] == s && s[|s|..|s|] == [] && s[|s|..] == [];
    } else if |s| <= 2 * width {
      assert s[width..|s|] == s[width..] && s[|s|..] == [];
    } else {
      var rest := s[width..];
      assert s[width..2 * width] == rest[..width] && s[2 * width..] == rest[width..];
    }
  }

  lemma PassNone(compare: Compare, dom: set<I64>, width: nat)
    requires width > 0
    ensures SameClasses(compare, dom, [], Pass(compare, [], width))
  {
  }

  lemma WithinParts(s: seq<I64>, dom: set<I64>, middle: nat, high: nat)
    requires Within(s, dom) && middle <= high <= |s|
    ensures Within(s[..middle], dom) && Within(s[middle..high], dom) && Within(s[high..], dom)
  {
  }

  lemma {:induction false} PassStable(compare: Compare, dom: set<I64>, s: seq<I64>, width: nat)
    requires width > 0 && OrderedOn(compare, dom) && Within(s, dom) && Runs(compare, s, width)
    ensures SameClasses(compare, dom, s, Pass(compare, s, width))
    decreases |s|
  {
    hide Merge, Class, Leq, Sorted, Runs, OrderedOn, Pass;
    if s == [] {
      PassNone(compare, dom, width);
    } else {
      var middle, high := Min(width, |s|), Min(2 * width, |s|);
      HeadRuns(compare, s, width);
      WithinParts(s, dom, middle, high);
      PassStable(compare, dom, s[high..], width);
      ThreeParts(s, middle, high);
      PassStep(compare, s, width);
      BlockStable(compare, dom, s, s[..middle], s[middle..high], s[high..], Pass(compare, s[high..], width));
    }
  }

  lemma ThreeParts(s: seq<I64>, middle: nat, high: nat)
    requires middle <= high <= |s|
    ensures s == s[..middle] + s[middle..high] + s[high..]
  {
  }

  lemma BlockStable(compare: Compare, dom: set<I64>, s: seq<I64>, l: seq<I64>, r: seq<I64>, rest: seq<I64>, p: seq<I64>)
    requires OrderedOn(compare, dom) && Within(l, dom) && Within(r, dom) && Sorted(compare, l)
    requires s == l + r + rest && SameClasses(compare, dom, rest, p)
    ensures SameClasses(compare, dom, s, Merge(compare, l, r) + p)
  {
    forall x | x in dom ensures Class(compare, x, s) == Class(compare, x, Merge(compare, l, r) + p) {
      hide Class, Merge, Sorted;
      MergeStable(compare, dom, l, r, x);
      ClassConcat(compare, x, Merge(compare, l, r), p);
      ClassConcat(compare, x, l, r);
      ClassConcat(compare, x, l + r, rest);
    }
  }

  lemma {:induction false} SingleRuns(compare: Compare, s: seq<I64>)
    ensures Runs(compare, s, 1)
    decreases |s|
  {
    if |s| > 1 { SingleRuns(compare, s[1..]); }
  }

  /** Passes of doubling width until one block is left. */
  function Passes(compare: Compare, s: seq<I64>, width: nat): seq<I64>
    requires width > 0
    decreases |s| - width
  {
    if width >= |s| then s
    else Passes(compare, Pass(compare, s, width), if width >= |s| - width then |s| else 2 * width)
  }

  lemma {:induction false} PassesStablySort(compare: Compare, dom: set<I64>, s: seq<I64>, width: nat)
    requires width > 0 && OrderedOn(compare, dom) && Within(s, dom) && Runs(compare, s, width)
    ensures StablySorts(compare, dom, s, Passes(compare, s, width))
    decreases |s| - width
  {
    if width < |s| {
      PassRuns(compare, dom, s, width);
      PassStable(compare, dom, s, width);
      PassesStablySort(compare, dom, Pass(compare, s, width), if width >= |s| - width then |s| else 2 * width);
    }
  }

  // ----- the two-buffer kernel -----

  /** What is placed, followed by the merge of what is left, is the whole merge. */
  ghost predicate Placed(compare: Compare, s: seq<I64>, done: seq<I64>, left: nat, middle: nat, right: nat,
      high: nat, goal: seq<I64>)
  {
    left <= middle <= right <= high <= |s| && done + Merge(compare, s[left..middle], s[right..high]) == goal
  }

  lemma PlaceLeft(compare: Compare, s: seq<I64>, done: seq<I64>, left: nat, middle: nat, right: nat, high: nat,
      goal: seq<I64>)
    requires Placed(compare, s, done, left, middle, right, high, goal) && left < middle
    requires right < high ==> Leq(compare, s[left], s[right])
    ensures Placed(compare, s, done + [s[left]], left + 1, middle, right, high, goal)
  {
    var l, r := s[left..middle], s[right..high];
    assert l[1..] == s[left + 1..middle];
    assert Merge(compare, l, r) == [l[0]] + Merge(compare, l[1..], r);
  }

  lemma PlaceRight(compare: Compare, s: seq<I64>, done: seq<I64>, left: nat, middle: nat, right: nat, high: nat,
      goal: seq<I64>)
    requires Placed(compare, s, done, left, middle, right, high, goal) && right < high
    requires left < middle ==> !Leq(compare, s[left], s[right])
    ensures Placed(compare, s, done + [s[right]], left, middle, right + 1, high, goal)
  {
    var l, r := s[left..middle], s[right..high];
    assert r[1..] == s[right + 1..high];
    assert Merge(compare, l, r) == [r[0]] + Merge(compare, l, r[1..]);
  }

  /** Merges one pair of neighbouring blocks of `source` into `destination`. */
  method MergeBlock(source: array<I64>, destination: array<I64>, compare: Compare, low: nat, middle: nat, high: nat)
    requires source != destination && low <= middle <= high <= source.Length == destination.Length
    modifies destination
    ensures destination[..high] == old(destination[..low]) + Merge(compare, source[low..middle], source[middle..high])
  {
    ghost var s, prefix := source[..], destination[..low];
    ghost var goal := Merge(compare, source[low..middle], source[middle..high]);
    assert source[low..middle] == s[low..middle] && source[middle..high] == s[middle..high];
    assert [] + goal == goal && prefix + [] == prefix;
    var left, right, out := low, middle, low;
    ghost var done: seq<I64> := [];
    assert Placed(compare, s, done, left, middle, right, high, goal);
    hide Merge, Placed;
    if left < middle && right < high {
      left, right, out, done := MergeHeads(source, destination, compare, low, middle, high, s, goal);
    }
    PlaceRest(compare, s, done, left, middle, right, high, goal);
    assert source[left..middle] == s[left..middle] && source[right..high] == s[right..high];
    out := Copy(source, destination, left, middle, out);
    out := Copy(source, destination, right, high, out);
    Associate(prefix, done, s[left..middle]);
    Associate(prefix, done + s[left..middle], s[right..high]);
  }

  /** Moves what is left of a block. */
  method Copy(source: array<I64>, destination: array<I64>, from: nat, to: nat, start: nat) returns (out: nat)
    requires source != destination && from <= to <= source.Length && start + (to - from) <= destination.Length
    modifies destination
    ensures out == start + (to - from) && destination[..out] == old(destination[..start]) + source[from..to]
  {
    var next := from;
    out := start;
    while next < to
      invariant from <= next <= to && out == start + (next - from)
      invariant destination[..out] == old(destination[..start]) + source[from..next]
    {
      Place(destination, out, source[next]);
      next, out := next + 1, out + 1;
    }
  }

  /** Takes the smaller head until one block is used up. */
  method MergeHeads(source: array<I64>, destination: array<I64>, compare: Compare, low: nat, middle: nat,
      high: nat, ghost s: seq<I64>, ghost goal: seq<I64>) returns (left: nat, right: nat, out: nat,
        ghost done: seq<I64>)
    requires source != destination && low < middle < high <= source.Length == destination.Length && s == source[..]
    requires Placed(compare, s, [], low, middle, middle, high, goal)
    modifies destination
    ensures low <= left <= middle <= right <= high && out == left + right - middle && (left == middle || right == high)
    ensures Placed(compare, s, done, left, middle, right, high, goal)
    ensures destination[..out] == old(destination[..low]) + done
  {
    hide Placed, Merge;
    ghost var prefix := destination[..low];
    left, right, out, done := low, middle, low, [];
    assert prefix + [] == prefix;
    var a, b := source[left], source[right];
    while true
      invariant low <= left < middle <= right < high && out == left + right - middle
      invariant a == s[left] && b == s[right]
      invariant Placed(compare, s, done, left, middle, right, high, goal)
      invariant destination[..out] == prefix + done
      decreases middle - left + high - right
    {
      if compare(a, b) <= 0 {
        PlaceLeft(compare, s, done, left, middle, right, high, goal);
        PlaceAfter(destination, out, a, prefix, done);
        left, out, done := left + 1, out + 1, done + [a];
        if left == middle { return; }
        a := source[left];
      } else {
        PlaceRight(compare, s, done, left, middle, right, high, goal);
        PlaceAfter(destination, out, b, prefix, done);
        right, out, done := right + 1, out + 1, done + [b];
        if right == high { return; }
        b := source[right];
      }
    }
  }

  method PlaceAfter(destination: array<I64>, out: nat, v: I64, ghost prefix: seq<I64>, ghost done: seq<I64>)
    requires out < destination.Length && destination[..out] == prefix + done
    modifies destination
    ensures destination[..out + 1] == prefix + (done + [v])
  {
    Place(destination, out, v);
    Associate(prefix, done, [v]);
  }

  /** With one block used up, the rest of the other completes the merge. */
  lemma PlaceRest(compare: Compare, s: seq<I64>, done: seq<I64>, left: nat, middle: nat, right: nat, high: nat,
      goal: seq<I64>)
    requires Placed(compare, s, done, left, middle, right, high, goal) && (left == middle || right == high)
    ensures done + s[left..middle] + s[right..high] == goal
  {
    assert done + (s[left..middle] + s[right..high]) == done + s[left..middle] + s[right..high];
    if left == middle {
      assert s[left..middle] + s[right..high] == s[right..high];
    } else {
      assert s[left..middle] + s[right..high] == s[left..middle];
    }
  }

  method Place(destination: array<I64>, out: nat, v: I64)
    requires out < destination.Length
    modifies destination
    ensures destination[..out + 1] == old(destination[..out]) + [v]
  {
    destination[out] := v;
  }

  /** What is merged, followed by the pass over the rest, is the whole pass. */
  ghost predicate Passed(compare: Compare, s: seq<I64>, width: nat, done: seq<I64>, low: nat)
    requires width > 0
  {
    low <= |s| && |done| == low && done + Pass(compare, s[low..], width) == Pass(compare, s, width)
  }

  lemma PassBlock(compare: Compare, s: seq<I64>, width: nat, done: seq<I64>, low: nat, middle: nat, high: nat)
    requires width > 0 && low < |s| && Passed(compare, s, width, done, low)
    requires middle == Min(low + width, |s|) && high == Min(middle + width, |s|)
    ensures Passed(compare, s, width, done + Merge(compare, s[low..middle], s[middle..high]), high)
  {
    hide Merge, Pass;
    assert Min(width, |s| - low) == middle - low && Min(2 * width, |s| - low) == high - low;
    hide Min;
    PassStep(compare, s[low..], width);
    Slices(s, low, middle, high);
    Associate(done, Merge(compare, s[low..middle], s[middle..high]), Pass(compare, s[high..], width));
  }

  lemma PassStep(compare: Compare, s: seq<I64>, width: nat)
    requires width > 0 && s != []
    ensures var m, h := Min(width, |s|), Min(2 * width, |s|);
      Pass(compare, s, width) == Merge(compare, s[..m], s[m..h]) + Pass(compare, s[h..], width)
  {
  }

  lemma Slices(s: seq<I64>, low: nat, middle: nat, high: nat)
    requires low <= middle <= high <= |s|
    ensures var rest, m, h := s[low..], middle - low, high - low;
      rest[..m] == s[low..middle] && rest[m..h] == s[middle..high] && rest[h..] == s[high..]
  {
  }

  lemma Associate(a: seq<I64>, b: seq<I64>, c: seq<I64>)
    ensures a + (b + c) == a + b + c
  {
  }

  /** Merges the block pair at `low`. */
  method MergeNext(source: array<I64>, destination: array<I64>, compare: Compare, width: nat, low: nat)
      returns (high: nat)
    requires source != destination && source.Length == destination.Length && width > 0 && low < source.Length
    requires Passed(compare, source[..], width, destination[..low], low)
    modifies destination
    ensures high == Min(low + width * 2, source.Length) && Passed(compare, source[..], width, destination[..high], high)
  {
    ghost var s, prefix := source[..], destination[..low];
    var middle := Min(low + width, source.Length);
    high := Min(middle + width, source.Length);
    PassBlock(compare, s, width, prefix, low, middle, high);
    hide Pass, Merge, Passed;
    MergeBlock(source, destination, compare, low, middle, high);
    assert source[low..middle] == s[low..middle] && source[middle..high] == s[middle..high];
  }

  /** One pass over all block pairs. */
  method MergePass(source: array<I64>, destination: array<I64>, compare: Compare, width: nat)
    requires source != destination && source.Length == destination.Length && width > 0
    modifies destination
    ensures destination[..] == Pass(compare, source[..], width)
  {
    ghost var s := source[..];
    var low := 0;
    ghost var done: nat := 0;
    assert s[0..] == s && [] + Pass(compare, s, width) == Pass(compare, s, width);
    assert Passed(compare, s, width, destination[..0], 0);
    hide Pass, Passed;
    while low < source.Length
      invariant source[..] == s && low >= 0 && done == Min(low, source.Length) && done <= source.Length
      invariant Passed(compare, s, width, destination[..done], done)
      decreases source.Length - low
    {
      done := MergeNext(source, destination, compare, width, low);
      low := low + width * 2;
    }
    PassEnds(compare, s, width, destination[..done]);
    assert destination[..done] == destination[..];
  }

  lemma PassEnds(compare: Compare, s: seq<I64>, width: nat, done: seq<I64>)
    requires width > 0 && Passed(compare, s, width, done, |s|)
    ensures done == Pass(compare, s, width)
  {
    assert s[|s|..] == [] && done + [] == done;
  }

  /** Whatever the second buffer held, the result is the sorted, stable rearrangement. */
  method MergeWithBuffer(source: array<I64>, destination: array<I64>, compare: Compare) returns (result: array<I64>)
    requires source != destination && source.Length == destination.Length
    modifies source, destination
    ensures result == source || result == destination
    ensures result[..] == Passes(compare, old(source[..]), 1)
  {
    var n := source.Length;
    var from, to := source, destination;
    var width := 1;
    while width < n
      invariant width > 0 && from != to && {from, to} == {source, destination}
      invariant from.Length == to.Length == n
      invariant Passes(compare, from[..], width) == Passes(compare, old(source[..]), 1)
      decreases n - width
    {
      MergePass(from, to, compare, width);
      from, to := to, from;
      width := if width >= n - width then n else width * 2;
    }
    result := from;
  }

  function Natural(a: I64, b: I64): I64 {
    if a < b then -1 else if a == b then 0 else 1
  }

  function Elements(s: seq<I64>): set<I64> {
    set v | v in s
  }

  /** For every comparator that orders the elements, two-buffer merging is a stable sort. */
  lemma MergeWithBufferSorts(compare: Compare, s: seq<I64>)
    requires OrderedOn(compare, Elements(s))
    ensures StablySorts(compare, Elements(s), s, Passes(compare, s, 1)) &&
      multiset(Passes(compare, s, 1)) == multiset(s)
  {
    SingleRuns(compare, s);
    PassesStablySort(compare, Elements(s), s, 1);
    ClassesPermute(compare, Elements(s), s, Passes(compare, s, 1));
  }

  lemma NaturalOrders(dom: set<I64>)
    ensures OrderedOn(Natural, dom)
  {
  }

  ghost predicate Ascending(s: seq<I64>) {
    forall i, j :: 0 <= i < j < |s| ==> s[i] <= s[j]
  }

  method MergeSort(values: array<I64>) returns (result: array<I64>)
    modifies values
    ensures Ascending(result[..]) && multiset(result[..]) == multiset(old(values[..]))
  {
    if values.Length < 2 {
      return values;
    }
    var scratch := new I64[values.Length](_ => 0);
    ghost var s := values[..];
    result := MergeWithBuffer(values, scratch, Natural);
    MergeWithBufferSorts(Natural, s);
    NaturalAscending(result[..]);
  }

  lemma NaturalAscending(s: seq<I64>)
    ensures Sorted(Natural, s) <==> Ascending(s)
  {
    if Sorted(Natural, s) {
      forall i, j | 0 <= i < j < |s| ensures s[i] <= s[j] { assert Leq(Natural, s[i], s[j]); }
    }
  }

  // ----- the list sort -----

  function Difference(a: I64, b: I64): I64 {
    Wrap(a - b)
  }

  /** Wrapping subtraction compares two values rightly exactly when their difference fits. */
  lemma DifferenceOrders(a: I64, b: I64)
    ensures (Leq(Difference, a, b) <==> a <= b) <==> FitsI64(a - b)
  {
    if a - b > I64_MAX {
      WrapResidue(a - b, a - b - TWO_64);
    } else if a - b < I64_MIN {
      WrapResidue(a - b, a - b + TWO_64);
    }
  }

  ghost predicate DifferencesFit(s: seq<I64>) {
    forall i, j :: 0 <= i < |s| && 0 <= j < |s| ==> FitsI64((s[i] as int) - (s[j] as int))
  }

  lemma DifferenceIsNatural(s: seq<I64>)
    requires DifferencesFit(s)
    ensures forall a, b :: a in Elements(s) && b in Elements(s) ==> (Leq(Difference, a, b) <==> Leq(Natural, a, b))
  {
    forall a, b | a in Elements(s) && b in Elements(s) ensures Leq(Difference, a, b) <==> Leq(Natural, a, b) {
      DifferenceOrders(a, b);
    }
  }

  /** Neighbouring runs merged. */
  function Pairs(runs: seq<seq<I64>>): (r: seq<seq<I64>>)
    ensures |r| == (|runs| + 1) / 2
    decreases |runs|
  {
    if |runs| <= 1 then runs else [Merge(Natural, runs[0], runs[1])] + Pairs(runs[2..])
  }

  function MergeRuns(runs: seq<seq<I64>>): seq<I64>
    decreases |runs|
  {
    if runs == [] then [] else if |runs| == 1 then runs[0] else MergeRuns(Pairs(runs))
  }

  function Singles(s: seq<I64>): (r: seq<seq<I64>>)
    ensures |r| == |s| && forall i :: 0 <= i < |s| ==> r[i] == [s[i]]
  {
    seq(|s|, i requires 0 <= i < |s| => [s[i]])
  }

  function Joined(runs: seq<seq<I64>>): seq<I64> {
    if runs == [] then [] else runs[0] + Joined(runs[1..])
  }

  /** Sorted runs over these values. */
  ghost predicate SortedRuns(dom: set<I64>, runs: seq<seq<I64>>) {
    forall i :: 0 <= i < |runs| ==> Sorted(Natural, runs[i]) && Within(runs[i], dom)
  }

  lemma PairsNone(dom: set<I64>, runs: seq<seq<I64>>)
    requires |runs| <= 1
    ensures Pairs(runs) == runs && SameClasses(Natural, dom, Joined(runs), Joined(runs))
  {
  }

  lemma RunsParts(dom: set<I64>, runs: seq<seq<I64>>)
    requires SortedRuns(dom, runs) && |runs| > 1
    ensures Sorted(Natural, runs[0]) && Within(runs[0], dom) && Sorted(Natural, runs[1]) && Within(runs[1], dom)
    ensures SortedRuns(dom, runs[2..])
  {
  }

  lemma RunsCons(dom: set<I64>, first: seq<I64>, runs: seq<seq<I64>>)
    requires SortedRuns(dom, runs) && Sorted(Natural, first) && Within(first, dom)
    ensures SortedRuns(dom, [first] + runs)
  {
  }

  lemma PairsHead(runs: seq<seq<I64>>)
    requires |runs| > 1
    ensures Pairs(runs) == [Merge(Natural, runs[0], runs[1])] + Pairs(runs[2..])
  {
  }

  lemma JoinedTwo(runs: seq<seq<I64>>)
    requires |runs| > 1
    ensures Joined(runs) == runs[0] + runs[1] + Joined(runs[2..])
  {
    assert runs[1..][1..] == runs[2..] && runs[1..][0] == runs[1];
    Associate(runs[0], runs[1], Joined(runs[2..]));
  }

  lemma {:induction false} PairsStable(dom: set<I64>, runs: seq<seq<I64>>)
    requires SortedRuns(dom, runs)
    ensures SortedRuns(dom, Pairs(runs)) && SameClasses(Natural, dom, Joined(runs), Joined(Pairs(runs)))
    decreases |runs|
  {
    hide OrderedOn, Sorted, Within, SameClasses, SortedRuns, Merge, Joined, Pairs;
    if |runs| <= 1 {
      PairsNone(dom, runs);
    } else {
      var l, r, rest := runs[0], runs[1], runs[2..];
      NaturalOrders(dom);
      RunsParts(dom, runs);
      PairsStable(dom, rest);
      MergeSorts(Natural, dom, l, r);
      RunsCons(dom, Merge(Natural, l, r), Pairs(rest));
      PairsHead(runs);
      JoinedTwo(runs);
      JoinedCons(Merge(Natural, l, r), Pairs(rest));
      BlockStable(Natural, dom, Joined(runs), l, r, Joined(rest), Joined(Pairs(rest)));
    }
  }

  lemma JoinedCons(first: seq<I64>, runs: seq<seq<I64>>)
    ensures Joined([first] + runs) == first + Joined(runs)
  {
    assert ([first] + runs)[1..] == runs;
  }

  lemma {:induction false} MergeRunsSorts(dom: set<I64>, runs: seq<seq<I64>>)
    requires SortedRuns(dom, runs)
    ensures StablySorts(Natural, dom, Joined(runs), MergeRuns(runs))
    decreases |runs|
  {
    if |runs| == 1 {
      assert runs[1..] == [] && Joined(runs) == runs[0] + [] == runs[0];
    } else if |runs| > 1 {
      PairsStable(dom, runs);
      MergeRunsSorts(dom, Pairs(runs));
    }
  }

  lemma {:induction false} JoinedSingles(s: seq<I64>)
    ensures Joined(Singles(s)) == s
  {
    if s != [] {
      assert Singles(s)[1..] == Singles(s[1..]);
      JoinedSingles(s[1..]);
      assert s == [s[0]] + s[1..];
    }
  }

  lemma {:induction false} ClassSame(c: Compare, e: Compare, dom: set<I64>, x: I64, s: seq<I64>)
    requires forall a, b :: a in dom && b in dom ==> (Leq(c, a, b) <==> Leq(e, a, b))
    requires x in dom && Within(s, dom)
    ensures Class(c, x, s) == Class(e, x, s)
  {
    if s != [] { ClassSame(c, e, dom, x, s[1..]); }
  }

  /** Merging linked runs and merging with two buffers agree wherever the differences the
      buffered comparator takes fit. */
  lemma PathsAgree(s: seq<I64>)
    requires DifferencesFit(s)
    ensures MergeRuns(Singles(s)) == Passes(Difference, s, 1)
  {
    var dom := Elements(s);
    DifferenceIsNatural(s);
    MergeRunsSorts(dom, Singles(s));
    JoinedSingles(s);
    MergeWithBufferSorts(Difference, s);
    var linked, buffered := MergeRuns(Singles(s)), Passes(Difference, s, 1);
    forall x | x in dom ensures Class(Natural, x, linked) == Class(Natural, x, buffered) {
      ClassSame(Difference, Natural, dom, x, s);
      ClassSame(Difference, Natural, dom, x, buffered);
    }
    StableUnique(Natural, dom, linked, buffered);
  }

  lemma LinkedSorts(s: seq<I64>)
    ensures Ascending(MergeRuns(Singles(s))) && multiset(MergeRuns(Singles(s))) == multiset(s)
  {
    MergeRunsSorts(Elements(s), Singles(s));
    JoinedSingles(s);
    ClassesPermute(Natural, Elements(s), s, MergeRuns(Singles(s)));
    NaturalAscending(MergeRuns(Singles(s)));
  }

  const LINKED_LIMIT: nat := 32

  /** Short lists merge linked runs, longer ones go through two buffers. */
  method SortList(list: seq<I64>) returns (result: seq<I64>)
    ensures result == if |list| <= LINKED_LIMIT then MergeRuns(Singles(list)) else Passes(Difference, list, 1)
    ensures |list| <= LINKED_LIMIT || DifferencesFit(list) ==> Ascending(result) && multiset(result) == multiset(list)
  {
    if |list| <= LINKED_LIMIT {
      var runs := Singles(list);
      while |runs| > 1
        invariant MergeRuns(runs) == MergeRuns(Singles(list))
        decreases |runs|
      {
        runs := Pairs(runs);
      }
      result := if runs == [] then [] else runs[0];
    } else {
      var source := new I64[|list|](i requires 0 <= i < |list| => list[i]);
      var destination := new I64[|list|](i requires 0 <= i < |list| => list[i]);
      assert source[..] == list;
      var sorted := MergeWithBuffer(source, destination, Difference);
      result := sorted[..];
      if DifferencesFit(list) { PathsAgree(list); }
    }
    LinkedSorts(list);
  }

  // ----- where the differences do not fit -----

  lemma {:induction false} MergeInOrder(compare: Compare, l: seq<I64>, r: seq<I64>)
    requires forall i, j :: 0 <= i < |l| && 0 <= j < |r| ==> Leq(compare, l[i], r[j])
    ensures Merge(compare, l, r) == l + r
    decreases |l|
  {
    if l != [] && r != [] {
      assert Leq(compare, l[0], r[0]);
      MergeInOrder(compare, l[1..], r);
    }
  }

  lemma {:induction false} PassInOrder(compare: Compare, s: seq<I64>, width: nat)
    requires width > 0 && Sorted(compare, s)
    ensures Pass(compare, s, width) == s
    decreases |s|
  {
    if s != [] {
      var middle, high := Min(width, |s|), Min(2 * width, |s|);
      var l, r, rest := s[..middle], s[middle..high], s[high..];
      assert s == l + r + rest;
      assert Pass(compare, s, width) == Merge(compare, l, r) + Pass(compare, rest, width);
      hide Pass, Merge;
      MergeInOrder(compare, l, r);
      PassInOrder(compare, rest, width);
    }
  }

  /** Nothing moves when every earlier element compares at most every later one, whether
      or not the comparator is an order. */
  lemma {:induction false} InOrderStays(compare: Compare, s: seq<I64>, width: nat)
    requires width > 0 && Sorted(compare, s)
    ensures Passes(compare, s, width) == s
    decreases |s| - width
  {
    if width < |s| {
      PassInOrder(compare, s, width);
      InOrderStays(compare, s, if width >= |s| - width then |s| else 2 * width);
    }
  }

  /** One arrangement may come back sorted although its differences do not all fit. */
  lemma ArrangementMaySortUnfitting()
    ensures var s := [I64_MIN] + seq(LINKED_LIMIT, _ => 0);
      |s| > LINKED_LIMIT && !DifferencesFit(s) && Ascending(Passes(Difference, s, 1))
  {
    var s: seq<I64> := [I64_MIN] + seq(LINKED_LIMIT, _ => 0);
    assert !FitsI64((s[1] as int) - (s[0] as int));
    forall i, j | 0 <= i < j < |s| ensures Leq(Difference, s[i], s[j]) {
      DifferenceOrders(s[i], s[j]);
    }
    InOrderStays(Difference, s, 1);
  }

  /** A list of 33 elements that comes back as it was, unsorted: the greatest value's
      difference from the least wraps to a negative number. */
  lemma WrappingDifferenceMisorders()
    ensures var s := [I64_MAX] + seq(LINKED_LIMIT, _ => I64_MIN);
      |s| > LINKED_LIMIT && Passes(Difference, s, 1) == s && !Ascending(s)
  {
    var s: seq<I64> := [I64_MAX] + seq(LINKED_LIMIT, _ => I64_MIN);
    DifferenceOrders(I64_MAX, I64_MIN);
    forall i, j | 0 <= i < j < |s| ensures Leq(Difference, s[i], s[j]) {
      DifferenceOrders(s[i], s[j]);
    }
    InOrderStays(Difference, s, 1);
    assert s[0] > s[1];
  }

  // ----- exactly when long lists sort -----

  ghost predicate Before(a: I64, b: I64, s: seq<I64>) {
    exists i, j :: 0 <= i < j < |s| && s[i] == a && s[j] == b
  }

  lemma BeforeShifted(a: I64, b: I64, p: seq<I64>, s: seq<I64>)
    requires Before(a, b, s)
    ensures Before(a, b, p + s)
  {
    var i, j :| 0 <= i < j < |s| && s[i] == a && s[j] == b;
    assert (p + s)[|p| + i] == a && (p + s)[|p| + j] == b;
  }

  lemma {:induction false} MergeHolds(compare: Compare, l: seq<I64>, r: seq<I64>, v: I64)
    requires v in l
    ensures v in Merge(compare, l, r)
    decreases |l| + |r|
  {
    if r != [] {
      if Leq(compare, l[0], r[0]) {
        if v != l[0] { MergeHolds(compare, l[1..], r, v); }
      } else {
        MergeHolds(compare, l, r[1..], v);
      }
    }
  }

  /** Merging never reorders two elements of one block. */
  lemma {:induction false} MergeKeepsOrder(compare: Compare, l: seq<I64>, r: seq<I64>, a: I64, b: I64)
    requires Before(a, b, l)
    ensures Before(a, b, Merge(compare, l, r))
    decreases |l| + |r|
  {
    if r != [] {
      if Leq(compare, l[0], r[0]) {
        var m := Merge(compare, l[1..], r);
        var i, j :| 0 <= i < j < |l| && l[i] == a && l[j] == b;
        if i > 0 {
          assert l[1..][i - 1] == a && l[1..][j - 1] == b;
          MergeKeepsOrder(compare, l[1..], r, a, b);
          BeforeShifted(a, b, [l[0]], m);
        } else {
          assert l[1..][j - 1] == b;
          MergeHolds(compare, l[1..], r, b);
          var k :| 0 <= k < |m| && m[k] == b;
          assert ([l[0]] + m)[0] == a && ([l[0]] + m)[k + 1] == b;
        }
      } else {
        MergeKeepsOrder(compare, l, r[1..], a, b);
        BeforeShifted(a, b, [r[0]], Merge(compare, l, r[1..]));
      }
    }
  }

  lemma PassKeepsOrder(compare: Compare, s: seq<I64>, width: nat, a: I64, b: I64)
    requires width > 0 && |s| > 1 && Before(a, b, s[..Min(width, |s|)])
    ensures Before(a, b, Pass(compare, s, width)[..Min(2 * width, |s|)])
  {
    var middle, high := Min(width, |s|), Min(2 * width, |s|);
    MergeKeepsOrder(compare, s[..middle], s[middle..high], a, b);
    assert Pass(compare, s, width)[..high] == Merge(compare, s[..middle], s[middle..high]);
  }

  lemma {:induction false} PassesKeepOrder(compare: Compare, s: seq<I64>, width: nat, a: I64, b: I64)
    requires width > 0 && |s| > 1 && Before(a, b, s[..Min(width, |s|)])
    ensures Before(a, b, Passes(compare, s, width))
    decreases |s| - width
  {
    if width >= |s| {
      assert s[..|s|] == s;
    } else {
      PassKeepsOrder(compare, s, width, a, b);
      var next := if width >= |s| - width then |s| else 2 * width;
      assert Min(next, |s|) == Min(2 * width, |s|);
      PassesKeepOrder(compare, Pass(compare, s, width), next, a, b);
    }
  }

  /** A pair at the front whose difference wraps ends up misordered. */
  lemma FrontPairMisorders(a: I64, b: I64, rest: seq<I64>)
    requires (a as int) - (b as int) > I64_MAX
    ensures !Ascending(Passes(Difference, [a, b] + rest, 1))
  {
    var s := [a, b] + rest;
    DifferenceOrders(a, b);
    assert s[..1] == [a] && s[1..2] == [b] && [a][1..] == [];
    assert Merge(Difference, [a], [b]) == [a] + Merge(Difference, [], [b]) == [a, b];
    var p := Pass(Difference, s, 1);
    assert p[..2] == [a, b];
    assert [a, b][0] == a && [a, b][1] == b && Before(a, b, p[..2]);
    var next := if 1 >= |s| - 1 then |s| else 2;
    assert Passes(Difference, s, 1) == Passes(Difference, p, next);
    PassesKeepOrder(Difference, p, next, a, b);
  }

  lemma {:induction false} Elsewhere(s: seq<I64>, i: nat, j: nat) returns (rest: seq<I64>)
    requires i < j < |s|
    ensures multiset([s[i], s[j]] + rest) == multiset(s) && multiset([s[j], s[i]] + rest) == multiset(s)
  {
    rest := s[..i] + s[i + 1..j] + s[j + 1..];
    assert s == s[..i] + [s[i]] + s[i + 1..j] + [s[j]] + s[j + 1..];
  }

  lemma FittingSorts(s: seq<I64>, t: seq<I64>)
    requires DifferencesFit(s) && multiset(t) == multiset(s)
    ensures Ascending(Passes(Difference, t, 1))
  {
    hide Passes, Ascending, DifferencesFit;
    FitsToo(s, t);
    PathsAgree(t);
    LinkedSorts(t);
  }

  lemma MisorderedArrangement(s: seq<I64>) returns (t: seq<I64>)
    requires !DifferencesFit(s)
    ensures multiset(t) == multiset(s) && !Ascending(Passes(Difference, t, 1))
  {
    var i, j :| 0 <= i < |s| && 0 <= j < |s| && !FitsI64((s[i] as int) - (s[j] as int));
    hide Passes, Ascending;
    var rest := Elsewhere(s, if i < j then i else j, if i < j then j else i);
    var high, low := if s[i] > s[j] then s[i] else s[j], if s[i] > s[j] then s[j] else s[i];
    FrontPairMisorders(high, low, rest);
    t := [high, low] + rest;
  }

  /** Every arrangement of a long list comes back sorted exactly when all differences fit.
      This is about all arrangements at once: one of them may sort without that. */
  lemma LongListsSortWhenDifferencesFit(s: seq<I64>)
    requires |s| > LINKED_LIMIT
    ensures (forall t: seq<I64> :: multiset(t) == multiset(s) ==> Ascending(Passes(Difference, t, 1))) <==>
      DifferencesFit(s)
  {
    hide Passes, Ascending, DifferencesFit;
    if DifferencesFit(s) {
      forall t: seq<I64> | multiset(t) == multiset(s) ensures Ascending(Passes(Difference, t, 1)) {
        FittingSorts(s, t);
      }
    } else {
      var t := MisorderedArrangement(s);
    }
  }

  lemma FitsToo(s: seq<I64>, t: seq<I64>)
    requires multiset(t) == multiset(s) && DifferencesFit(s)
    ensures DifferencesFit(t)
  {
    forall i, j | 0 <= i < |t| && 0 <= j < |t| ensures FitsI64((t[i] as int) - (t[j] as int)) {
      assert t[i] in multiset(t) && t[j] in multiset(t);
      assert t[i] in s && t[j] in s;
    }
  }
}
