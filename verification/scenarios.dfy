/**
 * The library's documented scenarios, stated about the reference functions,
 * and two callers showing that results do not alias their inputs.
 */
module Scenarios {
  import opened Transforms
  import opened Averages
  import opened Extremes
  import opened Columns
  import Dsp

  /** MinMax of [3,2,1,3,1,4,4] is (2, 1, 5, 4): the first minimum and the first maximum. */
  lemma MinMaxScenario()
    ensures MinMaxOf([3.0, 2.0, 1.0, 3.0, 1.0, 4.0, 4.0]) == MinMaxResult(2, Finite(1.0), 5, Finite(4.0))
  {
    var s := [3.0, 2.0, 1.0, 3.0, 1.0, 4.0, 4.0];
    assert IsFirstMin(s, 2);
    assert IsFirstMax(s, 5);
    FirstExtremesUnique(s, 2, MinMaxOf(s).minIndex);
    FirstExtremesUnique(s, 5, MinMaxOf(s).maxIndex);
  }

  /** The moving average over [2,4,6,8] with width 2 is [3,5,7]. */
  lemma AverageFilterScenario()
    ensures AverageFiltered([2.0, 4.0, 6.0, 8.0], 2) == [3.0, 5.0, 7.0]
  {
    var s := [2.0, 4.0, 6.0, 8.0];
    assert s[0..2] == [2.0, 4.0] && s[1..3] == [4.0, 6.0] && s[2..4] == [6.0, 8.0];
    assert Sum([2.0, 4.0]) == 6.0 by { assert [2.0, 4.0][..1] == [2.0]; assert [2.0][..0] == []; }
    assert Sum([4.0, 6.0]) == 10.0 by { assert [4.0, 6.0][..1] == [4.0]; assert [4.0][..0] == []; }
    assert Sum([6.0, 8.0]) == 14.0 by { assert [6.0, 8.0][..1] == [6.0]; assert [6.0][..0] == []; }
  }

  /**
   * A width of at least the length gives the one-element average, also for an
   * empty input; an empty input with a negative width gives an empty result.
   */
  lemma WideFilterScenario()
    ensures AverageFiltered([1.0, 2.0, 3.0], 999) == [2.0]
    ensures AverageFiltered([], 2) == [0.0]
    ensures AverageFiltered([], -1) == []
  {
    var s := [1.0, 2.0, 3.0];
    assert s[..2] == [1.0, 2.0] && s[..2][..1] == [1.0] && s[..2][..1][..0] == [];
    assert Sum([1.0]) == 1.0;
    assert Sum([1.0, 2.0]) == 3.0;
    assert Sum(s) == 6.0;
  }

  /** Repeated derivatives of [1,3,4,2]: [2,1,-2], [-1,-3], [-2], [0], [0]. */
  lemma NthDerivativeScenario()
    ensures NthDifferenced([1.0, 3.0, 4.0, 2.0], 1) == [2.0, 1.0, -2.0]
    ensures NthDifferenced([1.0, 3.0, 4.0, 2.0], 2) == [-1.0, -3.0]
    ensures NthDifferenced([1.0, 3.0, 4.0, 2.0], 3) == [-2.0]
    ensures NthDifferenced([1.0, 3.0, 4.0, 2.0], 4) == [0.0]
    ensures NthDifferenced([1.0, 3.0, 4.0, 2.0], 5) == [0.0]
  {
    var s := [1.0, 3.0, 4.0, 2.0];
    var d1 := NthDifferenced(s, 1);
    assert d1 == [2.0, 1.0, -2.0];
    var d2 := NthDifferenced(s, 2);
    assert d2 == Differenced(d1) == [-1.0, -3.0];
    var d3 := NthDifferenced(s, 3);
    assert d3 == Differenced(d2) == [-2.0];
    NthDifferencedSaturates(s, 4);
    NthDifferencedSaturates(s, 5);
  }

  /** Add truncates to the shortest input: Add([1,2],[4,7,9]) = [5,9]. */
  lemma AddScenario()
    ensures Summed([[1.0, 2.0], [4.0, 7.0, 9.0]]) == [5.0, 9.0]
  {
    var ls: seq<seq<real>> := [[1.0, 2.0], [4.0, 7.0, 9.0]];
    assert ls[..1] == [[1.0, 2.0]] && ls[..1][..0] == [];
    assert MinLength(ls[..1]) == 2;
    assert MinLength(ls) == 2;
    assert ColumnSum(ls, 0) == (0.0 + 1.0) + 4.0;
    assert ColumnSum(ls, 1) == (0.0 + 2.0) + 7.0;
  }

  /** Sub subtracts in argument order: Sub([9,8,3],[4,7,9]) = [5,1,-6], Sub([5],[1],[2]) = [2]. */
  lemma SubScenario()
    ensures Subtracted([[9.0, 8.0, 3.0], [4.0, 7.0, 9.0]]) == [5.0, 1.0, -6.0]
    ensures Subtracted([[5.0], [1.0], [2.0]]) == [2.0]
  {
    var ms: seq<seq<real>> := [[9.0, 8.0, 3.0], [4.0, 7.0, 9.0]];
    assert Subtracted(ms) == [5.0, 1.0, -6.0] by {
      assert ms[..1] == [[9.0, 8.0, 3.0]];
    }
    var ns: seq<seq<real>> := [[5.0], [1.0], [2.0]];
    assert ns[..2] == [[5.0], [1.0]] && ns[..2][..1] == [[5.0]];
    assert MinLength(ns[..2][..1]) == 1 && MinLength(ns[..2]) == 1 && MinLength(ns) == 1;
    assert ColumnDiff(ns[..2], 0) == 5.0 - 1.0;
    assert ColumnDiff(ns, 0) == 5.0 - 1.0 - 2.0;
  }

  /** EveryNth([1..7], 3) = [1,4,7]; EveryNth with n <= 0 is empty. */
  lemma EveryNthScenario()
    ensures Decimated([1.0, 2.0, 3.0, 4.0, 5.0, 6.0, 7.0], 3) == [1.0, 4.0, 7.0]
    ensures Decimated([1.0, 2.0, 3.0], 0) == []
  {
    var s := [1.0, 2.0, 3.0, 4.0, 5.0, 6.0, 7.0];
    var r := Decimated(s, 3);
    assert |r| == 3;
    assert r[0] == s[0] && r[1] == s[3] && r[2] == s[6];
  }

  /** A copy keeps its contents when the input is changed afterwards. */
  method CopyOutlivesInput() returns (a: array<real>, c: array<real>)
    ensures a[..] == [1.0, 0.0, 3.0] && c[..] == [1.0, 2.0, 3.0]
  {
    a := new real[3];
    a[0], a[1], a[2] := 1.0, 2.0, 3.0;
    c := Dsp.Copy(a);
    a[1] := 0.0;
  }

  /** The moving average with width <= 1 is a copy that keeps its contents when the input changes. */
  method NarrowFilterOutlivesInput(width: int) returns (a: array<real>, avg: array<real>)
    requires width <= 1
    ensures a[..] == [1.0, 0.0, 3.0] && avg[..] == [1.0, 2.0, 3.0]
  {
    a := new real[3];
    a[0], a[1], a[2] := 1.0, 2.0, 3.0;
    avg := Dsp.AverageFilter(a, width);
    a[1] := 0.0;
  }
}
