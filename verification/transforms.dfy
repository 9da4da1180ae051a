/**
 * Reference definitions of the element-wise and shape-changing transformations
 * of the library, as pure functions over sequences of reals. Each one is
 * written structurally (head and tail), independently of the index-filling
 * loops in module Dsp, and its contract states the length law and the index
 * map that the loops are proved against.
 */
module Transforms {

  /** Applies `f` to every element. */
  function Map(f: real -> real, s: seq<real>): (r: seq<real>)
    ensures |r| == |s|
    ensures forall i :: 0 <= i < |s| ==> r[i] == f(s[i])
  {
    if |s| == 0 then [] else [f(s[0])] + Map(f, s[1..])
  }

  /** The element-wise negation (Negative). */
  function Negated(s: seq<real>): (r: seq<real>)
    ensures |r| == |s| && forall i :: 0 <= i < |s| ==> r[i] == -s[i]
  {
    Map(x => -x, s)
  }

  /** Every element increased by `offset` (AddOffset). */
  function Offset(s: seq<real>, offset: real): (r: seq<real>)
    ensures |r| == |s| && forall i :: 0 <= i < |s| ==> r[i] == s[i] + offset
  {
    Map(x => x + offset, s)
  }

  /** Every element multiplied by `factor` (Scale). */
  function Scaled(s: seq<real>, factor: real): (r: seq<real>)
    ensures |r| == |s| && forall i :: 0 <= i < |s| ==> r[i] == s[i] * factor
  {
    Map(x => x * factor, s)
  }

  /** `n` copies of `x`; nothing when `n` is not positive (Repeat). */
  function Repeated(x: real, n: int): (r: seq<real>)
    ensures |r| == if n <= 0 then 0 else n
    ensures forall i :: 0 <= i < |r| ==> r[i] == x
    decreases n
  {
    if n <= 0 then [] else [x] + Repeated(x, n - 1)
  }

  /** The elements in the opposite order (Reverse). */
  function Reversed(s: seq<real>): (r: seq<real>)
    ensures |r| == |s|
    ensures forall i :: 0 <= i < |s| ==> r[i] == s[|s| - 1 - i]
  {
    if |s| == 0 then [] else Reversed(s[1..]) + [s[0]]
  }

  /**
   * The elements at indices 0, n, 2n, ... (EveryNth); nothing when `n` is not
   * positive. The length is the ceiling of |s| / n.
   */
  function Decimated(s: seq<real>, n: int): (r: seq<real>)
    ensures n <= 0 ==> r == []
    ensures n >= 1 ==> |r| == (|s| + n - 1) / n
    ensures forall i :: 0 <= i < |r| ==> i * n < |s| && r[i] == s[i * n]
    decreases |s|
  {
    if n <= 0 || |s| == 0 then []
    else if |s| <= n then
      CeilingOfShort(|s|, n);
      [s[0]]
    else
      var rest := Decimated(s[n..], n);
      CeilingStep(|s| - n, n);
      DecimatedShift(s, n, rest);
      [s[0]] + rest
  }

  /** Index arithmetic for one recursive step of Decimated. */
  lemma DecimatedShift(s: seq<real>, n: int, rest: seq<real>)
    requires 1 <= n < |s|
    requires forall i :: 0 <= i < |rest| ==> i * n < |s| - n && rest[i] == s[n..][i * n]
    ensures forall i :: 0 <= i < 1 + |rest| ==> i * n < |s| && ([s[0]] + rest)[i] == s[i * n]
  {
    forall i | 0 <= i < 1 + |rest|
      ensures i * n < |s| && ([s[0]] + rest)[i] == s[i * n]
    {
      if i > 0 {
        var k := i - 1;
        assert k * n < |s| - n && rest[k] == s[n..][k * n];
        assert i * n == k * n + n;
      }
    }
  }

  /** For 1 <= len <= n, the ceiling of len / n is 1. */
  lemma CeilingOfShort(len: int, n: int)
    requires 1 <= len <= n
    ensures (len + n - 1) / n == 1
  {
    var x := len + n - 1;
    var q, m := x / n, x % n;
    assert x == q * n + m && 0 <= m < n;
    assert (q - 1) * n == x - n - m;
    MultipleBelowDivisor(q - 1, n);
  }

  /** Removing n elements lowers the ceiling of len / n by exactly one. */
  lemma CeilingStep(len: int, n: int)
    requires len >= 1 && n >= 1
    ensures (len + n + n - 1) / n == (len + n - 1) / n + 1
  {
    var x := len + n - 1;
    var q, m := x / n, x % n;
    var q', m' := (x + n) / n, (x + n) % n;
    assert x == q * n + m && 0 <= m < n;
    assert x + n == q' * n + m' && 0 <= m' < n;
    assert (q' - q - 1) * n == m - m';
    MultipleBelowDivisor(q' - q - 1, n);
  }

  /** The only multiple of n strictly between -n and n is 0. */
  lemma MultipleBelowDivisor(k: int, n: int)
    requires n >= 1 && -n < k * n < n
    ensures k == 0
  {
  }

  /** Consecutive differences s[i+1] - s[i]; empty for fewer than two elements. */
  function Diffs(s: seq<real>): (r: seq<real>)
    ensures |r| == if |s| < 2 then 0 else |s| - 1
    ensures forall i :: 0 <= i < |r| ==> r[i] == s[i + 1] - s[i]
  {
    if |s| < 2 then [] else [s[1] - s[0]] + Diffs(s[1..])
  }

  /**
   * The discrete derivative (Derivative): the consecutive differences, except
   * that a sequence of length 0 or 1 yields that many zeros.
   */
  function Differenced(s: seq<real>): (r: seq<real>)
    ensures |r| == if |s| <= 1 then |s| else |s| - 1
    ensures |s| <= 1 ==> forall i :: 0 <= i < |r| ==> r[i] == 0.0
    ensures |s| >= 2 ==> forall i :: 0 <= i < |r| ==> r[i] == s[i + 1] - s[i]
  {
    if |s| <= 1 then Repeated(0.0, |s|) else Diffs(s)
  }

  /** The larger of two integers. */
  function Max(x: int, y: int): int
  {
    if x >= y then x else y
  }

  /**
   * Differenced applied `n` times (NthDerivative); the input itself for n <= 0.
   * Each step shortens a sequence by one until a single element is left.
   */
  function NthDifferenced(s: seq<real>, n: int): (r: seq<real>)
    ensures |s| == 0 ==> r == []
    ensures |s| > 0 ==> |r| == Max(|s| - Max(n, 0), 1)
    decreases n
  {
    if n <= 0 then s else Differenced(NthDifferenced(s, n - 1))
  }

  /** Negating twice gives back the input. */
  lemma NegatedTwice(s: seq<real>)
    ensures Negated(Negated(s)) == s
  {
    assert forall i :: 0 <= i < |s| ==> Negated(Negated(s))[i] == s[i];
  }

  /** Adding an offset and then its opposite gives back the input. */
  lemma OffsetInverse(s: seq<real>, offset: real)
    ensures Offset(Offset(s, offset), -offset) == s
  {
    assert forall i :: 0 <= i < |s| ==> Offset(Offset(s, offset), -offset)[i] == s[i];
  }

  /** Scaling by one is the identity; scaling by zero gives zeros. */
  lemma ScaledByOneOrZero(s: seq<real>)
    ensures Scaled(s, 1.0) == s
    ensures Scaled(s, 0.0) == Repeated(0.0, |s|)
  {
    assert forall i :: 0 <= i < |s| ==> Scaled(s, 1.0)[i] == s[i];
    assert forall i :: 0 <= i < |s| ==> Scaled(s, 0.0)[i] == Repeated(0.0, |s|)[i];
  }

  /** Reversing twice gives back the input. */
  lemma ReversedTwice(s: seq<real>)
    ensures Reversed(Reversed(s)) == s
  {
    assert forall i :: 0 <= i < |s| ==> Reversed(Reversed(s))[i] == s[i];
  }

  /** Taking every element (n = 1) is a copy; the first element is always taken. */
  lemma DecimatedByOne(s: seq<real>, n: int)
    ensures Decimated(s, 1) == s
    ensures n >= 1 && |s| > 0 ==> |Decimated(s, n)| >= 1 && Decimated(s, n)[0] == s[0]
  {
    assert forall i :: 0 <= i < |s| ==> Decimated(s, 1)[i] == s[i];
  }

  /**
   * Repeated differencing saturates: once the length has reached one, the
   * only element is 0.
   */
  lemma NthDifferencedSaturates(s: seq<real>, n: int)
    ensures |s| > 0 && n >= |s| ==> NthDifferenced(s, n) == [0.0]
  {
    if |s| > 0 && n >= |s| {
      var d := NthDifferenced(s, n - 1);
      assert |d| == 1;
      assert Differenced(d) == [0.0];
    }
  }

  /**
   * Differencing n >= 1 times is differencing once and then n - 1 more times:
   * the steps may be counted from the input's end as well as from the result's.
   */
  lemma {:induction false} NthDifferencedFirstStep(s: seq<real>, n: int)
    requires n >= 1
    ensures NthDifferenced(s, n) == NthDifferenced(Differenced(s), n - 1)
    decreases n
  {
    if n > 1 {
      NthDifferencedFirstStep(s, n - 1);
    }
  }
}
