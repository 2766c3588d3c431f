/** In-place quicksort that recurses only into the smaller side of each partition. */
module QuickSort {
  import opened Logarithm

  /** How deep calls may nest on a slice of `n` elements. */
  function DepthBound(n: nat): nat {
    if n == 0 then 1 else Log2(n) + 1
  }

  /** The bound of the smaller side of a partition, plus the call itself. */
  lemma SmallerSide(part: nat, n: nat)
    requires n > 1 && 2 * part < n
    ensures DepthBound(part) + 1 <= DepthBound(n)
  {
    if part > 0 {
      Log2Monotone(part, n / 2);
    }
  }

  /** Within `[lo, hi)`, everything is in order but for pairs inside `[low, high)`. */
  ghost predicate Ordered(v: seq<int>, lo: nat, hi: nat, low: nat, high: nat) {
    hi <= |v| && forall i, j :: lo <= i < j < hi && (i < low || high <= j) ==> v[i] <= v[j]
  }

  ghost predicate SortedIn(v: seq<int>, lo: nat, hi: nat) {
    hi <= |v| && forall i, j :: lo <= i < j < hi ==> v[i] <= v[j]
  }

  /** Only the window was rearranged. */
  ghost predicate Rearranged(a: seq<int>, b: seq<int>, low: nat, high: nat) {
    && low <= high <= |a| && |b| == |a| && a[..low] == b[..low] && a[high..] == b[high..]
    && multiset(a[low..high]) == multiset(b[low..high])
  }

  lemma RearrangedTrans(a: seq<int>, b: seq<int>, c: seq<int>, low: nat, high: nat)
    requires Rearranged(a, b, low, high) && Rearranged(b, c, low, high)
    ensures Rearranged(a, c, low, high)
  {
  }

  /** Rearranging a smaller window. */
  lemma RearrangedWider(a: seq<int>, b: seq<int>, low: nat, high: nat, l: nat, h: nat)
    requires Rearranged(a, b, l, h) && low <= l <= h <= high <= |a|
    ensures Rearranged(a, b, low, high)
  {
    assert a[low..high] == a[low..l] + a[l..h] + a[h..high] && b[low..high] == b[low..l] + b[l..h] + b[h..high];
    assert a[low..l] == a[..l][low..] && b[low..l] == b[..l][low..];
    assert a[h..high] == a[h..][..high - h] && b[h..high] == b[h..][..high - h];
    assert a[..low] == a[..l][..low] && b[..low] == b[..l][..low];
    assert a[high..] == a[h..][high - h..] && b[high..] == b[h..][high - h..];
  }

  lemma InWindow(a: seq<int>, b: seq<int>, low: nat, high: nat, i: nat) returns (j: nat)
    requires Rearranged(a, b, low, high) && low <= i < high
    ensures low <= j < high && a[j] == b[i]
  {
    assert b[i] == b[low..high][i - low];
    assert b[i] in multiset(b[low..high]);
    assert b[i] in a[low..high];
    var k :| 0 <= k < high - low && a[low..high][k] == b[i];
    j := low + k;
  }

  lemma Outside(a: seq<int>, b: seq<int>, low: nat, high: nat, i: nat)
    requires Rearranged(a, b, low, high) && i < |a| && (i < low || high <= i)
    ensures a[i] == b[i]
  {
    if i < low {
      assert a[i] == a[..low][i] && b[i] == b[..low][i];
    } else {
      assert a[i] == a[high..][i - high] && b[i] == b[high..][i - high];
    }
  }

  /** Rearranging the open window keeps everything outside it in order. */
  lemma OrderedKept(a: seq<int>, b: seq<int>, lo: nat, hi: nat, low: nat, high: nat)
    requires Rearranged(a, b, low, high) && Ordered(a, lo, hi, low, high) && lo <= low <= high <= hi
    ensures Ordered(b, lo, hi, low, high)
  {
    forall i, j | lo <= i < j < hi && (i < low || high <= j) ensures b[i] <= b[j] {
      var p, q := i, j;
      if low <= i < high { p := InWindow(a, b, low, high, i); } else { Outside(a, b, low, high, i); }
      if low <= j < high { q := InWindow(a, b, low, high, j); } else { Outside(a, b, low, high, j); }
      assert a[p] <= a[q];
    }
  }

  /** The window is split at `store`. */
  ghost predicate Partitioned(v: seq<int>, low: nat, high: nat, store: nat) {
    && low <= store < high <= |v|
    && (forall i :: low <= i < store ==> v[i] < v[store]) && (forall i :: store < i < high ==> v[store] <= v[i])
  }

  /** Rearranging one side keeps the split. */
  lemma PartitionedKept(a: seq<int>, b: seq<int>, low: nat, high: nat, store: nat, from: nat, to: nat)
    requires Partitioned(a, low, high, store) && Rearranged(a, b, from, to)
    requires (low == from <= to == store) || (store + 1 == from <= to == high)
    ensures Partitioned(b, low, high, store)
  {
    Outside(a, b, from, to, store);
    forall i | low <= i < high ensures i < store ==> b[i] < b[store] {
      if from <= i < to { var p := InWindow(a, b, from, to, i); } else { Outside(a, b, from, to, i); }
    }
    forall i | low <= i < high ensures store < i ==> b[store] <= b[i] {
      if from <= i < to { var p := InWindow(a, b, from, to, i); } else { Outside(a, b, from, to, i); }
    }
  }

  /** With the left side sorted, only the right side is open. */
  lemma LeftDone(a: seq<int>, b: seq<int>, lo: nat, hi: nat, low: nat, high: nat, store: nat)
    requires lo <= low < high <= hi && Ordered(a, lo, hi, low, high) && Partitioned(a, low, high, store)
    requires Rearranged(a, b, low, store) && SortedIn(b, low, store)
    ensures Ordered(b, lo, hi, store + 1, high)
  {
    PartitionedKept(a, b, low, high, store, low, store);
    RearrangedWider(a, b, low, high, low, store);
    OrderedKept(a, b, lo, hi, low, high);
    hide Rearranged;
    forall i, j | lo <= i < j < hi && (i < store + 1 || high <= j) ensures b[i] <= b[j] {
      if low <= i <= store < j < high { assert b[i] <= b[store] <= b[j]; }
    }
  }

  /** With the right side sorted, only the left side is open. */
  lemma RightDone(a: seq<int>, b: seq<int>, lo: nat, hi: nat, low: nat, high: nat, store: nat)
    requires lo <= low < high <= hi && Ordered(a, lo, hi, low, high) && Partitioned(a, low, high, store)
    requires Rearranged(a, b, store + 1, high) && SortedIn(b, store + 1, high)
    ensures Ordered(b, lo, hi, low, store)
  {
    PartitionedKept(a, b, low, high, store, store + 1, high);
    RearrangedWider(a, b, low, high, store + 1, high);
    OrderedKept(a, b, lo, hi, low, high);
    hide Rearranged;
    forall i, j | lo <= i < j < hi && (i < low || store <= j) ensures b[i] <= b[j] {
      if low <= i <= store <= j < high { assert b[i] <= b[store] <= b[j]; }
    }
  }

  lemma SwapRearranges(a: seq<int>, i: nat, j: nat, low: nat, high: nat)
    requires low <= i < high <= |a| && low <= j < high
    ensures Rearranged(a, a[i := a[j]][j := a[i]], low, high)
  {
    var w := a[low..high];
    assert a[i := a[j]][j := a[i]][low..high] == w[i - low := w[j - low]][j - low := w[i - low]];
  }

  method Swap(values: array<int>, i: nat, j: nat, ghost low: nat, ghost high: nat)
    requires low <= i < high <= values.Length && low <= j < high
    modifies values
    ensures values[..] == old(values[..])[i := old(values[j])][j := old(values[i])]
    ensures Rearranged(old(values[..]), values[..], low, high)
  {
    SwapRearranges(values[..], i, j, low, high);
    values[i], values[j] := values[j], values[i];
  }

  /** Seen so far: smaller than the pivot, then not smaller. */
  ghost predicate Splitting(v: seq<int>, low: nat, high: nat, store: nat, index: nat) {
    && low <= store <= index < high <= |v|
    && (forall i :: low <= i < store ==> v[i] < v[high - 1]) && (forall i :: store <= i < index ==> v[high - 1] <= v[i])
  }

  lemma SplitStart(v: seq<int>, low: nat, high: nat)
    requires low < high <= |v|
    ensures Splitting(v, low, high, low, low)
  {
  }

  lemma SplitOne(v: seq<int>, low: nat, high: nat, store: nat, index: nat)
    requires Splitting(v, low, high, store, index) && index < high - 1
    ensures if v[index] < v[high - 1]
            then Splitting(v[store := v[index]][index := v[store]], low, high, store + 1, index + 1)
            else Splitting(v, low, high, store, index + 1)
  {
  }

  lemma SplitLast(v: seq<int>, low: nat, high: nat, store: nat)
    requires low < high && Splitting(v, low, high, store, high - 1)
    ensures Partitioned(v[store := v[high - 1]][high - 1 := v[store]], low, high, store)
  {
  }

  lemma RearrangedSame(a: seq<int>, low: nat, high: nat)
    requires low <= high <= |a|
    ensures Rearranged(a, a, low, high)
  {
  }

  /** Lomuto partition around the last element. */
  method Partition(values: array<int>, low: nat, high: nat) returns (store: nat)
    requires low < high <= values.Length
    modifies values
    ensures Rearranged(old(values[..]), values[..], low, high) && Partitioned(values[..], low, high, store)
    ensures low <= store < high
  {
    hide *;
    ghost var start := values[..];
    store := low;
    RearrangedSame(start, low, high);
    SplitStart(start, low, high);
    for index := low to high - 1
      invariant low <= store <= index
      invariant Rearranged(start, values[..], low, high) && Splitting(values[..], low, high, store, index)
    {
      store := Classify(values, start, low, high, store, index);
    }
    ghost var before := values[..];
    SplitLast(before, low, high, store);
    Swap(values, store, high - 1, low, high);
    RearrangedTrans(start, before, values[..], low, high);
  }

  /** Moves the element at `index` to its side of the split. */
  method Classify(values: array<int>, ghost start: seq<int>, low: nat, high: nat, store: nat, index: nat)
      returns (next: nat)
    requires low <= store <= index < high - 1 < values.Length
    requires Rearranged(start, values[..], low, high) && Splitting(values[..], low, high, store, index)
    modifies values
    ensures store <= next <= index + 1
    ensures Rearranged(start, values[..], low, high) && Splitting(values[..], low, high, next, index + 1)
  {
    hide *;
    ghost var before := values[..];
    SplitOne(before, low, high, store, index);
    if values[index] < values[high - 1] {
      Swap(values, store, index, low, high);
      RearrangedTrans(start, before, values[..], low, high);
      next := store + 1;
    } else {
      next := store;
    }
  }

  lemma StepLeft(start: seq<int>, before: seq<int>, split: seq<int>, after: seq<int>, lo: nat, hi: nat, low: nat,
      high: nat, store: nat)
    requires lo <= low < high <= hi && Rearranged(start, before, lo, hi) && Ordered(before, lo, hi, low, high)
    requires Rearranged(before, split, low, high) && Partitioned(split, low, high, store)
    requires Rearranged(split, after, low, store) && SortedIn(after, low, store)
    ensures Rearranged(start, after, lo, hi) && Ordered(after, lo, hi, store + 1, high)
  {
    assert low <= store < high <= |before| && hi <= |start| && |before| == |start| && |split| == |before|;
    hide *;
    OrderedKept(before, split, lo, hi, low, high);
    LeftDone(split, after, lo, hi, low, high, store);
    RearrangedWider(before, split, lo, hi, low, high);
    RearrangedWider(split, after, lo, hi, low, store);
    RearrangedTrans(start, before, split, lo, hi);
    RearrangedTrans(start, split, after, lo, hi);
  }

  lemma StepRight(start: seq<int>, before: seq<int>, split: seq<int>, after: seq<int>, lo: nat, hi: nat, low: nat,
      high: nat, store: nat)
    requires lo <= low < high <= hi && Rearranged(start, before, lo, hi) && Ordered(before, lo, hi, low, high)
    requires Rearranged(before, split, low, high) && Partitioned(split, low, high, store)
    requires Rearranged(split, after, store + 1, high) && SortedIn(after, store + 1, high)
    ensures Rearranged(start, after, lo, hi) && Ordered(after, lo, hi, low, store)
  {
    assert low <= store < high <= |before| && hi <= |start| && |before| == |start| && |split| == |before|;
    hide *;
    OrderedKept(before, split, lo, hi, low, high);
    RightDone(split, after, lo, hi, low, high, store);
    RearrangedWider(before, split, lo, hi, low, high);
    RearrangedWider(split, after, lo, hi, store + 1, high);
    RearrangedTrans(start, before, split, lo, hi);
    RearrangedTrans(start, split, after, lo, hi);
  }

  /** Sorts the slice `[lo, hi)`; `depth` counts nested calls, this one included. */
  method Sort(values: array<int>, lo: nat, hi: nat) returns (ghost depth: nat)
    requires lo <= hi <= values.Length
    modifies values
    ensures Rearranged(old(values[..]), values[..], lo, hi) && SortedIn(values[..], lo, hi)
    ensures depth <= DepthBound(hi - lo)
    decreases hi - lo, 1
  {
    ghost var start := values[..];
    var low, high := lo, hi;
    depth := 1;
    RearrangedSame(start, lo, hi);
    assert Ordered(start, lo, hi, low, high) && 1 <= DepthBound(hi - lo);
    hide Rearranged, Ordered, SortedIn, Partitioned, Log2, DepthBound;
    while high - low > 1
      invariant lo <= low <= high <= hi && depth <= DepthBound(hi - lo)
      invariant Rearranged(start, values[..], lo, hi) && Ordered(values[..], lo, hi, low, high)
      decreases high - low
    {
      ghost var d;
      low, high, d := SortSmaller(values, start, lo, hi, low, high);
      depth := if d + 1 > depth then d + 1 else depth;
    }
    WindowClosed(values[..], lo, hi, low, high);
  }

  /** Partitions the window, sorts its smaller side and leaves the larger one. */
  method SortSmaller(values: array<int>, ghost start: seq<int>, lo: nat, hi: nat, low: nat, high: nat)
      returns (low1: nat, high1: nat, ghost depth: nat)
    requires lo <= low && low + 1 < high <= hi <= values.Length
    requires Rearranged(start, values[..], lo, hi) && Ordered(values[..], lo, hi, low, high)
    modifies values
    ensures lo <= low1 <= high1 <= hi && high1 - low1 < high - low && depth < DepthBound(hi - lo)
    ensures Rearranged(start, values[..], lo, hi) && Ordered(values[..], lo, hi, low1, high1)
    decreases hi - lo, 0
  {
    hide *;
    ghost var before := values[..];
    var store := Partition(values, low, high);
    ghost var split := values[..];
    if store - low < high - store - 1 {
      depth := Sort(values, low, store);
      SmallerSide(store - low, hi - lo);
      StepLeft(start, before, split, values[..], lo, hi, low, high, store);
      return store + 1, high, depth;
    } else {
      depth := Sort(values, store + 1, high);
      SmallerSide(high - (store + 1), hi - lo);
      StepRight(start, before, split, values[..], lo, hi, low, high, store);
      return low, store, depth;
    }
  }

  lemma WindowClosed(v: seq<int>, lo: nat, hi: nat, low: nat, high: nat)
    requires Ordered(v, lo, hi, low, high) && high - low <= 1
    ensures SortedIn(v, lo, hi)
  {
  }

  /** Quicksort of a whole vector: sorted, a permutation, and never nested deeper than the
      logarithm of its length, plus one. */
  method QuickSort(values: array<int>) returns (ghost depth: nat)
    modifies values
    ensures SortedIn(values[..], 0, values.Length) && multiset(values[..]) == multiset(old(values[..]))
    ensures values.Length >= 1 ==> depth <= Log2(values.Length) + 1
  {
    ghost var start := values[..];
    depth := Sort(values, 0, values.Length);
    assert start[0..values.Length] == start && values[..][0..values.Length] == values[..];
  }
}
