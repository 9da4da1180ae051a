/**
 * The library's operations as they run. Every operation that returns a slice
 * allocates a fresh array, fills it in a loop and is proved to produce the
 * reference sequence of modules Transforms, Averages and Columns; MinMax and
 * Average return scalars and are proved against Extremes and Averages.
 * Slices are arrays of reals; the inputs are only read.
 */
module Dsp {
  import opened Transforms
  import opened Averages
  import opened Extremes
  import opened Columns

  /** A fresh array holding the same elements as `a`. */
  method Copy(a: array<real>) returns (c: array<real>)
    ensures fresh(c)
    ensures c[..] == a[..]
  {
    c := new real[a.Length];
    forall i | 0 <= i < a.Length {
      c[i] := a[i];
    }
  }

  /**
   * The index and value of the first minimum and of the first maximum of `a`,
   * or (-1, +Inf, -1, -Inf) when `a` is empty.
   */
  method MinMax(a: array<real>) returns (minIndex: int, minValue: Extended, maxIndex: int, maxValue: Extended)
    ensures a.Length == 0 ==> minIndex == -1 && minValue == PosInf && maxIndex == -1 && maxValue == NegInf
    ensures a.Length > 0 ==> IsFirstMin(a[..], minIndex) && minValue == Finite(a[minIndex])
    ensures a.Length > 0 ==> IsFirstMax(a[..], maxIndex) && maxValue == Finite(a[maxIndex])
    ensures MinMaxResult(minIndex, minValue, maxIndex, maxValue) == MinMaxOf(a[..])
  {
    if a.Length == 0 {
      return -1, PosInf, -1, NegInf;
    }
    minIndex, maxIndex := 0, 0;
    for i := 1 to a.Length
      invariant IsFirstMin(a[..i], minIndex)
      invariant IsFirstMax(a[..i], maxIndex)
    {
      if a[i] < a[minIndex] {
        minIndex := i;
      }
      if a[i] > a[maxIndex] {
        maxIndex := i;
      }
    }
    assert a[..a.Length] == a[..];
    minValue, maxValue := Finite(a[minIndex]), Finite(a[maxIndex]);
    FirstExtremesUnique(a[..], minIndex, MinMaxOf(a[..]).minIndex);
    FirstExtremesUnique(a[..], maxIndex, MinMaxOf(a[..]).maxIndex);
  }

  /**
   * The index of the first minimum of `a`, or -1 when `a` is empty. Like the
   * three projections below, it reads a component of MinMaxOf, which is what
   * the method MinMax returns (its last ensures), so it is that component of
   * MinMax's result.
   */
  function MinIndex(a: array<real>): (i: int)
    reads a
    ensures a.Length == 0 ==> i == -1
    ensures a.Length > 0 ==> IsFirstMin(a[..], i)
  {
    MinMaxOf(a[..]).minIndex
  }

  /** The minimum of `a` (the second component of MinMax), or +Inf when `a` is empty. */
  function MinValue(a: array<real>): (v: Extended)
    reads a
    ensures a.Length == 0 ==> v == PosInf
    ensures a.Length > 0 ==> v.Finite? && (forall j :: 0 <= j < a.Length ==> v.value <= a[j])
    ensures a.Length > 0 ==> exists j :: 0 <= j < a.Length && v.value == a[j]
  {
    MinMaxOf(a[..]).minValue
  }

  /** The index of the first maximum of `a` (the third component of MinMax), or -1 when `a` is empty. */
  function MaxIndex(a: array<real>): (i: int)
    reads a
    ensures a.Length == 0 ==> i == -1
    ensures a.Length > 0 ==> IsFirstMax(a[..], i)
  {
    MinMaxOf(a[..]).maxIndex
  }

  /** The maximum of `a` (the fourth component of MinMax), or -Inf when `a` is empty. */
  function MaxValue(a: array<real>): (v: Extended)
    reads a
    ensures a.Length == 0 ==> v == NegInf
    ensures a.Length > 0 ==> v.Finite? && (forall j :: 0 <= j < a.Length ==> v.value >= a[j])
    ensures a.Length > 0 ==> exists j :: 0 <= j < a.Length && v.value == a[j]
  {
    MinMaxOf(a[..]).maxValue
  }

  /**
   * The moving average of `a` over windows of `width` elements, kept as a
   * sliding sum that gains the entering element and loses the leaving one.
   */
  method AverageFilter(a: array<real>, width: int) returns (b: array<real>)
    ensures fresh(b)
    ensures b[..] == AverageFiltered(a[..], width)
  {
    if width >= a.Length {
      var m := Average(a);
      b := new real[1];
      b[0] := m;
      return;
    }
    if width <= 1 {
      b := Copy(a);
      return;
    }
    ghost var s := a[..];
    b := new real[a.Length - (width - 1)];
    var f := 1.0 / (width as real);
    var slidingSum := 0.0;
    for i := 0 to width
      invariant slidingSum == Sum(s[..i])
    {
      assert s[..i + 1][..i] == s[..i];
      slidingSum := slidingSum + a[i];
    }
    assert s[0..0 + width] == s[..width];
    WindowMean(s, 0, width, slidingSum, f);
    b[0] := slidingSum * f;
    for i := 1 to b.Length
      invariant slidingSum == Sum(s[i - 1..i - 1 + width])
      invariant forall k :: 0 <= k < i ==> b[k] == Mean(s[k..k + width])
    {
      SlideWindow(s, i - 1, width);
      slidingSum := slidingSum + (a[i + width - 1] - a[i - 1]);
      WindowMean(s, i, width, slidingSum, f);
      b[i] := slidingSum * f;
    }
    WindowMeansExtensional(b[..], s, width);
  }

  /** The mean of `a` as a left-to-right sum divided by the length; 0 when `a` is empty. */
  method Average(a: array<real>) returns (m: real)
    ensures m == Mean(a[..])
  {
    if a.Length == 0 {
      return 0.0;
    }
    var sum := 0.0;
    for i := 0 to a.Length
      invariant sum == Sum(a[..i])
    {
      assert a[..i + 1][..i] == a[..i];
      sum := sum + a[i];
    }
    assert a[..a.Length] == a[..];
    m := sum / (a.Length as real);
  }

  /** A fresh array of the negated elements of `a`. */
  method Negative(a: array<real>) returns (n: array<real>)
    ensures fresh(n)
    ensures n[..] == Negated(a[..])
  {
    n := new real[a.Length];
    for i := 0 to n.Length
      invariant forall k :: 0 <= k < i ==> n[k] == -a[k]
    {
      n[i] := -a[i];
    }
  }

  /**
   * A fresh array of the differences a[i+1] - a[i]; for fewer than two
   * elements, as many zeros as `a` has elements.
   */
  method Derivative(a: array<real>) returns (b: array<real>)
    ensures fresh(b)
    ensures b[..] == Differenced(a[..])
  {
    if a.Length <= 1 {
      b := new real[a.Length](_ => 0.0);
      assert forall k :: 0 <= k < b.Length ==> b[k] == Differenced(a[..])[k];
      return;
    }
    ghost var spec := Differenced(a[..]);
    b := new real[a.Length - 1];
    for i := 0 to b.Length
      invariant forall k :: 0 <= k < i ==> b[k] == spec[k]
    {
      assert spec[i] == a[..][i + 1] - a[..][i];
      b[i] := a[i + 1] - a[i];
    }
  }

  /** Derivative applied `n` times; a fresh copy of `a` when `n` is not positive. */
  method NthDerivative(a: array<real>, n: int) returns (d: array<real>)
    ensures fresh(d)
    ensures d[..] == NthDifferenced(a[..], n)
  {
    if n <= 0 {
      d := Copy(a);
      return;
    }
    d := a;
    var left := n;
    while left > 0
      invariant 0 <= left <= n
      invariant left < n ==> fresh(d)
      invariant d[..] == NthDifferenced(a[..], n - left)
    {
      d := Derivative(d);
      left := left - 1;
    }
  }

  /** The contents of the given arrays, in order. */
  ghost function Contents(a: seq<array<real>>): (ls: seq<seq<real>>)
    reads set j | 0 <= j < |a| :: a[j]
    ensures |ls| == |a| && forall j :: 0 <= j < |a| ==> ls[j] == a[j][..]
  {
    seq(|a|, j requires 0 <= j < |a| reads set k | 0 <= k < |a| :: a[k] => a[j][..])
  }

  /** The length of the shortest of the given arrays. */
  method CommonLength(a: seq<array<real>>, ghost ls: seq<seq<real>>) returns (n: nat)
    requires |ls| == |a| > 0 && forall j :: 0 <= j < |a| ==> |ls[j]| == a[j].Length
    ensures n == MinLength(ls)
  {
    n := a[0].Length;
    for j := 0 to |a|
      invariant j == 0 ==> n == a[0].Length
      invariant j > 0 ==> n == MinLength(ls[..j])
    {
      assert ls[..j + 1][..j] == ls[..j];
      if a[j].Length < n {
        n := a[j].Length;
      }
    }
    assert ls[..|a|] == ls;
  }

  /**
   * The element-wise sum of the given arrays over their common length; empty
   * when there are none.
   */
  method Add(a: seq<array<real>>) returns (sum: array<real>)
    ensures fresh(sum)
    ensures sum[..] == Summed(Contents(a))
  {
    if |a| == 0 {
      sum := new real[0];
      return;
    }
    ghost var ls := Contents(a);
    var n := CommonLength(a, ls);
    sum := new real[n](_ => 0.0);
    for i := 0 to n
      invariant forall k :: 0 <= k < i ==> InAll(ls, k) && sum[k] == ColumnSum(ls, k)
      invariant forall k :: i <= k < n ==> sum[k] == 0.0
    {
      AddColumn(a, ls, sum, i);
    }
    assert Contents(a) == ls;
    SummedExtensional(sum[..], ls);
  }

  /** The inner loop of Add: sum[i] += a[j][i] for every input j in order. */
  method AddColumn(a: seq<array<real>>, ghost ls: seq<seq<real>>, sum: array<real>, i: nat)
    requires |ls| == |a| > 0 && forall j :: 0 <= j < |a| ==> a[j][..] == ls[j] && a[j] != sum
    requires i < sum.Length <= MinLength(ls) && sum[i] == 0.0
    modifies sum
    ensures InAll(ls, i) && sum[i] == ColumnSum(ls, i)
    ensures forall k :: 0 <= k < sum.Length && k != i ==> sum[k] == old(sum[k])
  {
    assert ls[..0] == [];
    for j := 0 to |a|
      invariant InAll(ls[..j], i) && sum[i] == ColumnSum(ls[..j], i)
      invariant forall k :: 0 <= k < sum.Length && k != i ==> sum[k] == old(sum[k])
    {
      ColumnStep(ls, i, j);
      sum[i] := sum[i] + a[j][i];
    }
    assert ls[..|a|] == ls;
  }

  /**
   * The first of the given arrays minus all others, element-wise over their
   * common length; empty when there are none.
   */
  method Sub(a: seq<array<real>>) returns (diff: array<real>)
    ensures fresh(diff)
    ensures diff[..] == Subtracted(Contents(a))
  {
    if |a| == 0 {
      diff := new real[0];
      return;
    }
    ghost var ls := Contents(a);
    var n := CommonLength(a, ls);
    ghost var first := ls[0];
    diff := new real[n];
    forall k | 0 <= k < n {
      diff[k] := a[0][k];
    }
    for i := 0 to n
      invariant forall k :: 0 <= k < i ==> InAll(ls, k) && diff[k] == ColumnDiff(ls, k)
      invariant forall k :: i <= k < n ==> diff[k] == first[k]
    {
      SubtractColumn(a, ls, diff, i);
    }
    assert Contents(a) == ls;
    SubtractedExtensional(diff[..], ls);
  }

  /** The inner loop of Sub: diff[i] -= a[j][i] for every input j after the first, in order. */
  method SubtractColumn(a: seq<array<real>>, ghost ls: seq<seq<real>>, diff: array<real>, i: nat)
    requires |ls| == |a| > 0 && forall j :: 0 <= j < |a| ==> a[j][..] == ls[j] && a[j] != diff
    requires i < diff.Length <= MinLength(ls) && diff[i] == ls[0][i]
    modifies diff
    ensures InAll(ls, i) && diff[i] == ColumnDiff(ls, i)
    ensures forall k :: 0 <= k < diff.Length && k != i ==> diff[k] == old(diff[k])
  {
    ColumnStep(ls, i, 0);
    for j := 1 to |a|
      invariant InAll(ls[..j], i) && diff[i] == ColumnDiff(ls[..j], i)
      invariant forall k :: 0 <= k < diff.Length && k != i ==> diff[k] == old(diff[k])
    {
      ColumnStep(ls, i, j);
      diff[i] := diff[i] - a[j][i];
    }
    assert ls[..|a|] == ls;
  }

  /** A fresh array of the elements of `a` increased by `offset`. */
  method AddOffset(a: array<real>, offset: real) returns (b: array<real>)
    ensures fresh(b)
    ensures b[..] == Offset(a[..], offset)
  {
    b := new real[a.Length];
    for i := 0 to b.Length
      invariant forall k :: 0 <= k < i ==> b[k] == a[k] + offset
    {
      b[i] := a[i] + offset;
    }
  }

  /** A fresh array of a[0], a[n], a[2n], ...; empty when `n` is not positive. */
  method EveryNth(a: array<real>, n: int) returns (b: array<real>)
    ensures fresh(b)
    ensures b[..] == Decimated(a[..], n)
  {
    if n <= 0 {
      b := new real[0];
      return;
    }
    ghost var spec := Decimated(a[..], n);
    b := new real[(a.Length + n - 1) / n];
    for i := 0 to b.Length
      invariant forall k :: 0 <= k < i ==> b[k] == spec[k]
    {
      assert i * n < a.Length && spec[i] == a[i * n];
      b[i] := a[i * n];
    }
  }

  /** A fresh array of `n` copies of `x`; empty when `n` is not positive. */
  method Repeat(x: real, n: int) returns (v: array<real>)
    ensures fresh(v)
    ensures v[..] == Repeated(x, n)
  {
    if n <= 0 {
      v := new real[0];
      return;
    }
    v := new real[n];
    for i := 0 to v.Length
      invariant forall k :: 0 <= k < i ==> v[k] == x
    {
      v[i] := x;
    }
  }

  /** A fresh array of the elements of `x` in reverse order. */
  method Reverse(x: array<real>) returns (y: array<real>)
    ensures fresh(y)
    ensures y[..] == Reversed(x[..])
  {
    y := new real[x.Length];
    for i := 0 to y.Length
      invariant forall k :: 0 <= k < i ==> y[k] == x[x.Length - 1 - k]
    {
      y[i] := x[x.Length - 1 - i];
    }
  }

  /** A fresh array of the elements of `a` multiplied by `factor`. */
  method Scale(a: array<real>, factor: real) returns (b: array<real>)
    ensures fresh(b)
    ensures b[..] == Scaled(a[..], factor)
  {
    b := new real[a.Length];
    for i := 0 to b.Length
      invariant forall k :: 0 <= k < i ==> b[k] == a[k] * factor
    {
      b[i] := a[i] * factor;
    }
    assert forall k :: 0 <= k < b.Length ==> b[k] == Scaled(a[..], factor)[k];
  }
}
