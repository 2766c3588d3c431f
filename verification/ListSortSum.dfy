/** The list sort's benchmark: a shuffled range is sorted and summed by position. */
module ListSortSum {
  import opened Machine
  import opened Sorting

  /** The first `n` numbers in order. */
  function UpTo(n: nat): (s: seq<I64>)
    requires n <= I64_MAX
    ensures |s| == n && forall i :: 0 <= i < n ==> s[i] == i
  {
    seq(n, i requires 0 <= i < n => i)
  }

  /** The program's input: the numbers below `n`, shuffled by a linear congruential source. */
  method Shuffled(n: nat) returns (values: array<I64>)
    requires n <= I64_MAX
    ensures fresh(values) && multiset(values[..]) == multiset(UpTo(n))
  {
    values := new I64[n](i requires 0 <= i < n => i);
    assert values[..] == UpTo(n);
    var state: nat := 1;
    var i := n;
    while i > 1
      invariant i <= n == values.Length && multiset(values[..]) == multiset(UpTo(n))
    {
      state := (state * 1664525 + 1013904223) % 0x8000_0000;
      var j := state % i;
      i := i - 1;
      values[i], values[j] := values[j], values[i];
    }
  }

  /** On such an input the comparator's differences fit. */
  lemma PermutationFits(s: seq<I64>, n: nat)
    requires n <= I64_MAX && multiset(s) == multiset(UpTo(n))
    ensures DifferencesFit(s)
  {
    forall i, j | 0 <= i < |s| && 0 <= j < |s| ensures FitsI64((s[i] as int) - (s[j] as int)) {
      assert s[i] in multiset(s) && s[j] in multiset(s);
      assert s[i] in UpTo(n) && s[j] in UpTo(n);
    }
  }

  lemma HeadLeast(a: seq<I64>, v: I64)
    requires Ascending(a) && v in multiset(a)
    ensures a != [] && a[0] <= v && a == [a[0]] + a[1..] && Ascending(a[1..])
  {
    assert v in a;
  }

  lemma TailMultiset(v: I64, s: seq<I64>, t: seq<I64>)
    requires multiset([v] + s) == multiset([v] + t)
    ensures multiset(s) == multiset(t)
  {
    assert multiset([v] + s) - multiset{v} == multiset(s);
    assert multiset([v] + t) - multiset{v} == multiset(t);
  }

  lemma HeadsEqual(a: seq<I64>, b: seq<I64>)
    requires Ascending(a) && Ascending(b) && multiset(a) == multiset(b)
    ensures if a == [] then b == []
      else b != [] && a == [a[0]] + a[1..] && b == [a[0]] + b[1..] && Ascending(a[1..]) && Ascending(b[1..])
  {
    assert |multiset(a)| == |a| && |multiset(b)| == |b|;
    if a != [] {
      assert a[0] in multiset(a) && b[0] in multiset(b);
      HeadLeast(a, b[0]);
      HeadLeast(b, a[0]);
    }
  }

  lemma {:induction false} AscendingUnique(a: seq<I64>, b: seq<I64>)
    requires Ascending(a) && Ascending(b) && multiset(a) == multiset(b)
    ensures a == b
  {
    hide Ascending;
    HeadsEqual(a, b);
    if a != [] {
      TailMultiset(a[0], a[1..], b[1..]);
      AscendingUnique(a[1..], b[1..]);
    }
  }

  function WeightedSum(s: seq<I64>): int {
    if s == [] then 0
    else var n := |s| - 1; WeightedSum(s[..n]) + n * s[n]
  }

  lemma {:induction false} SquareSum(n: nat)
    requires n <= I64_MAX
    ensures 6 * WeightedSum(UpTo(n)) == n * (n - 1) * (2 * n - 1)
  {
    if n > 0 {
      var m := n - 1;
      SquareSum(m);
      assert UpTo(n)[..m] == UpTo(m);
      Cubic(m);
    }
  }

  lemma Cubic(m: nat)
    ensures (m + 1) * m * (2 * m + 1) == m * (m - 1) * (2 * m - 1) + 6 * (m * m)
  {
    assert (m + 1) * m == m * m + m && m * (m - 1) == m * m - m;
    var q := m * m;
    assert (q + m) * (2 * m + 1) == 2 * (q * m) + q + 2 * q + m;
    assert (q - m) * (2 * m - 1) == 2 * (q * m) - q - 2 * q + m;
  }

  method Checksum(s: seq<I64>) returns (sum: int)
    ensures sum == WeightedSum(s)
  {
    sum := 0;
    for i := 0 to |s|
      invariant sum == WeightedSum(s[..i])
    {
      assert s[..i + 1][..i] == s[..i];
      sum := sum + i * s[i];
    }
    assert s[..|s|] == s;
  }

  /** The shuffled range comes back in order, whichever path sorts it. */
  method ListSortSum(n: I64) returns (sum: int)
    ensures var count := Max(n, 0); 6 * sum == count * (count - 1) * (2 * count - 1)
  {
    hide UpTo, Ascending, DifferencesFit, WeightedSum, MergeRuns, Passes;
    var count := Max(n, 0);
    var input := Shuffled(count);
    PermutationFits(input[..], count);
    var sorted := SortList(input[..]);
    AscendingUpTo(count);
    AscendingUnique(sorted, UpTo(count));
    sum := Checksum(sorted);
    SquareSum(count);
  }

  lemma AscendingUpTo(n: nat)
    requires n <= I64_MAX
    ensures Ascending(UpTo(n))
  {
  }
}
