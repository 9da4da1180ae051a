/**
 * The first-occurrence minimum and maximum of a sequence of reals, with the
 * infinite sentinels the library returns for an empty sequence.
 */
module Extremes {

  /** A real extended with the two infinities used as sentinels. */
  datatype Extended = NegInf | Finite(value: real) | PosInf

  /** The four results of MinMax: index and value of the minimum and of the maximum. */
  datatype MinMaxResult = MinMaxResult(minIndex: int, minValue: Extended, maxIndex: int, maxValue: Extended)

  /** `k` is the index of the first occurrence of the minimum of `s`. */
  ghost predicate IsFirstMin(s: seq<real>, k: int)
  {
    0 <= k < |s|
    && (forall j :: 0 <= j < |s| ==> s[k] <= s[j])
    && (forall j :: 0 <= j < k ==> s[k] < s[j])
  }

  /** `k` is the index of the first occurrence of the maximum of `s`. */
  ghost predicate IsFirstMax(s: seq<real>, k: int)
  {
    0 <= k < |s|
    && (forall j :: 0 <= j < |s| ==> s[k] >= s[j])
    && (forall j :: 0 <= j < k ==> s[k] > s[j])
  }

  /**
   * The index left by scanning `s` from left to right and moving to a new
   * index only on a strictly smaller element.
   */
  function ArgMin(s: seq<real>): (k: int)
    requires |s| > 0
    ensures IsFirstMin(s, k)
  {
    if |s| == 1 then 0
    else
      var k := ArgMin(s[..|s| - 1]);
      if s[|s| - 1] < s[k] then |s| - 1 else k
  }

  /** As ArgMin, moving only on a strictly greater element. */
  function ArgMax(s: seq<real>): (k: int)
    requires |s| > 0
    ensures IsFirstMax(s, k)
  {
    if |s| == 1 then 0
    else
      var k := ArgMax(s[..|s| - 1]);
      if s[|s| - 1] > s[k] then |s| - 1 else k
  }

  /**
   * The result of MinMax: (-1, +Inf, -1, -Inf) for the empty sequence, and the
   * first-occurrence minimum and maximum with their values otherwise.
   */
  function MinMaxOf(s: seq<real>): (r: MinMaxResult)
    ensures |s| == 0 ==> r == MinMaxResult(-1, PosInf, -1, NegInf)
    ensures |s| > 0 ==> IsFirstMin(s, r.minIndex) && r.minValue == Finite(s[r.minIndex])
    ensures |s| > 0 ==> IsFirstMax(s, r.maxIndex) && r.maxValue == Finite(s[r.maxIndex])
  {
    if |s| == 0 then MinMaxResult(-1, PosInf, -1, NegInf)
    else
      var lo, hi := ArgMin(s), ArgMax(s);
      MinMaxResult(lo, Finite(s[lo]), hi, Finite(s[hi]))
  }

  /** There is only one first-occurrence minimum and only one first-occurrence maximum. */
  lemma FirstExtremesUnique(s: seq<real>, k1: int, k2: int)
    ensures IsFirstMin(s, k1) && IsFirstMin(s, k2) ==> k1 == k2
    ensures IsFirstMax(s, k1) && IsFirstMax(s, k2) ==> k1 == k2
  {
    assert IsFirstMin(s, k2) && 0 <= k1 < k2 ==> s[k2] < s[k1];
    assert IsFirstMin(s, k1) && 0 <= k2 < k1 ==> s[k1] < s[k2];
  }

  /** Every element of a non-empty sequence lies between its minimum and its maximum. */
  lemma ValuesBetweenExtremes(s: seq<real>, i: int)
    requires 0 <= i < |s|
    ensures MinMaxOf(s).minValue.Finite? && MinMaxOf(s).maxValue.Finite?
    ensures MinMaxOf(s).minValue.value <= s[i] <= MinMaxOf(s).maxValue.value
  {
  }
}
