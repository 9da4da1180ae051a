/**
 * How the reductions relate: the average of a non-empty sequence, and every
 * value of its moving average, lie between its minimum and its maximum.
 */
module Bounds {
  import opened Averages
  import opened Extremes

  /** MinValue(s) <= Average(s) <= MaxValue(s) for non-empty `s`. */
  lemma MeanBetweenExtremes(s: seq<real>)
    requires |s| > 0
    ensures MinMaxOf(s).minValue.Finite? && MinMaxOf(s).maxValue.Finite?
    ensures MinMaxOf(s).minValue.value <= Mean(s) <= MinMaxOf(s).maxValue.value
  {
    var r := MinMaxOf(s);
    MeanBounds(s, r.minValue.value, r.maxValue.value);
  }

  /** Every value the moving-average filter produces lies between the input's extremes. */
  lemma FilteredBetweenExtremes(s: seq<real>, width: int, i: int)
    requires |s| > 0 && 0 <= i < |AverageFiltered(s, width)|
    ensures MinMaxOf(s).minValue.Finite? && MinMaxOf(s).maxValue.Finite?
    ensures MinMaxOf(s).minValue.value <= AverageFiltered(s, width)[i] <= MinMaxOf(s).maxValue.value
  {
    var r := MinMaxOf(s);
    var lo, hi := r.minValue.value, r.maxValue.value;
    if width >= |s| {
      MeanBounds(s, lo, hi);
    } else if width > 1 {
      var window := s[i..i + width];
      assert forall k :: 0 <= k < |window| ==> window[k] == s[i + k];
      MeanBounds(window, lo, hi);
    }
  }
}
