/**
 * Sums, means and the moving-average filter as pure functions over sequences
 * of reals. Sums are exact; the left-to-right order of the library's loops is
 * kept in the definition of Sum.
 */
module Averages {

  /** The left-to-right sum ((0 + s[0]) + s[1]) + ... */
  function Sum(s: seq<real>): real
  {
    if |s| == 0 then 0.0 else Sum(s[..|s| - 1]) + s[|s| - 1]
  }

  /** The arithmetic mean; 0 for the empty sequence (Average). */
  function Mean(s: seq<real>): real
  {
    if |s| == 0 then 0.0 else Sum(s) / (|s| as real)
  }

  /** The mean is the number that, taken |s| times, gives the sum; 0 for the empty sequence. */
  lemma MeanTimesLength(s: seq<real>)
    ensures |s| == 0 ==> Mean(s) == 0.0
    ensures Mean(s) * (|s| as real) == Sum(s)
  {
  }

  /** The means of all windows of `w` consecutive elements, in order. */
  function WindowMeans(s: seq<real>, w: int): (r: seq<real>)
    requires w >= 1
    ensures |r| == if |s| < w then 0 else |s| - w + 1
    ensures forall i :: 0 <= i < |r| ==> r[i] == Mean(s[i..i + w])
  {
    if |s| < w then []
    else
      var rest := WindowMeans(s[1..], w);
      forall i | 0 <= i < |rest|
        ensures rest[i] == Mean(s[i + 1..i + 1 + w])
      {
        assert s[1..][i..i + w] == s[i + 1..i + 1 + w];
      }
      [Mean(s[..w])] + rest
  }

  /**
   * The moving-average filter (AverageFilter): a one-element sequence holding
   * the mean of `s` when `width` is at least |s| (also for empty `s` and a
   * width of at least 0); `s` itself when width <= 1 and width < |s|, which for
   * an empty `s` and a negative width is the empty sequence; otherwise the
   * means of all windows of `width` consecutive elements.
   */
  function AverageFiltered(s: seq<real>, width: int): (r: seq<real>)
    ensures width >= |s| ==> r == [Mean(s)]
    ensures width < |s| && width <= 1 ==> r == s
    ensures |r| >= 1 <==> |s| > 0 || width >= 0
    ensures 1 < width < |s| ==> |r| == |s| - width + 1
    ensures 1 < width < |s| ==> forall i :: 0 <= i < |r| ==> r[i] == Mean(s[i..i + width])
  {
    if width >= |s| then [Mean(s)]
    else if width <= 1 then s
    else WindowMeans(s, width)
  }

  /** A sequence holding the mean of every window, in order, is what the filter returns for 1 < width < |s|. */
  lemma WindowMeansExtensional(r: seq<real>, s: seq<real>, width: int)
    requires 1 < width < |s| && |r| == |s| - width + 1
    requires forall k :: 0 <= k < |r| ==> r[k] == Mean(s[k..k + width])
    ensures r == AverageFiltered(s, width)
  {
  }

  /** Sum distributes over concatenation. */
  lemma {:induction false} SumAppend(s: seq<real>, t: seq<real>)
    ensures Sum(s + t) == Sum(s) + Sum(t)
    decreases |t|
  {
    if |t| == 0 {
      assert s + t == s;
    } else {
      var t' := t[..|t| - 1];
      assert (s + t)[..|s + t| - 1] == s + t';
      SumAppend(s, t');
    }
  }

  /**
   * Sliding a window of width `w` one step to the right changes its sum by the
   * element that enters minus the element that leaves.
   */
  lemma SlideWindow(s: seq<real>, i: nat, w: nat)
    requires i + w < |s|
    ensures Sum(s[i + 1..i + 1 + w]) == Sum(s[i..i + w]) + (s[i + w] - s[i])
  {
    var whole := s[i..i + w + 1];
    assert whole == s[i..i + w] + [s[i + w]];
    assert whole == [s[i]] + s[i + 1..i + 1 + w];
    SumAppend(s[i..i + w], [s[i + w]]);
    SumAppend([s[i]], s[i + 1..i + 1 + w]);
    assert Sum([s[i]]) == s[i] by { assert [s[i]][..0] == []; }
    assert Sum([s[i + w]]) == s[i + w] by { assert [s[i + w]][..0] == []; }
  }

  /** A window's sum times 1/width, the form the filter computes, is the window's mean. */
  lemma WindowMean(s: seq<real>, i: int, width: int, windowSum: real, f: real)
    requires 0 <= i && 1 < width && i + width <= |s|
    requires windowSum == Sum(s[i..i + width]) && f == 1.0 / (width as real)
    ensures windowSum * f == Mean(s[i..i + width])
  {
  }

  /** A sum of |s| elements, each between lo and hi, lies between |s|*lo and |s|*hi. */
  lemma {:induction false} SumBounds(s: seq<real>, lo: real, hi: real)
    requires forall i :: 0 <= i < |s| ==> lo <= s[i] <= hi
    ensures (|s| as real) * lo <= Sum(s) <= (|s| as real) * hi
    decreases |s|
  {
    if |s| > 0 {
      var init := s[..|s| - 1];
      SumBounds(init, lo, hi);
      var m := |init| as real;
      assert (|s| as real) * lo == m * lo + lo;
      assert (|s| as real) * hi == m * hi + hi;
    }
  }

  /** The mean of elements that all lie between lo and hi lies between lo and hi too. */
  lemma MeanBounds(s: seq<real>, lo: real, hi: real)
    requires |s| > 0
    requires forall i :: 0 <= i < |s| ==> lo <= s[i] <= hi
    ensures lo <= Mean(s) <= hi
  {
    SumBounds(s, lo, hi);
    var n := |s| as real;
    assert Sum(s) / n >= lo by { assert Sum(s) >= n * lo; }
    assert Sum(s) / n <= hi by { assert Sum(s) <= n * hi; }
  }
}
