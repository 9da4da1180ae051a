/**
 * Element-wise arithmetic across several sequences (Add and Sub): the inputs
 * are truncated to the shortest one, and element i of the result combines the
 * i-th elements of all inputs in argument order.
 */
module Columns {
  import opened Transforms
  import opened Averages

  /**
   * The common length of the inputs: the length of the shortest one, found by
   * a left-to-right scan that starts from the length of the first.
   */
  function MinLength(ls: seq<seq<real>>): (n: nat)
    requires |ls| > 0
    ensures forall j :: 0 <= j < |ls| ==> n <= |ls[j]|
    ensures exists j :: 0 <= j < |ls| && n == |ls[j]|
  {
    if |ls| == 1 then |ls[0]|
    else
      var m := MinLength(ls[..|ls| - 1]);
      var last := |ls[|ls| - 1]|;
      if last < m then last else m
  }

  /** Index `i` is in range of every input. */
  ghost predicate InAll(ls: seq<seq<real>>, i: int)
  {
    0 <= i && forall j :: 0 <= j < |ls| ==> i < |ls[j]|
  }

  /** Element `i` of every input, in argument order. */
  function Column(ls: seq<seq<real>>, i: int): (c: seq<real>)
    requires InAll(ls, i)
    ensures |c| == |ls| && forall j :: 0 <= j < |ls| ==> c[j] == ls[j][i]
  {
    seq(|ls|, j requires 0 <= j < |ls| => ls[j][i])
  }

  /** The left-to-right sum ((0 + ls[0][i]) + ls[1][i]) + ... of column `i`, as Add accumulates it. */
  function ColumnSum(ls: seq<seq<real>>, i: int): real
    requires InAll(ls, i)
  {
    if |ls| == 0 then 0.0 else ColumnSum(ls[..|ls| - 1], i) + ls[|ls| - 1][i]
  }

  /** Column `i` of the first input minus those of the others, in argument order, as Sub accumulates it. */
  function ColumnDiff(ls: seq<seq<real>>, i: int): real
    requires |ls| > 0 && InAll(ls, i)
  {
    if |ls| == 1 then ls[0][i] else ColumnDiff(ls[..|ls| - 1], i) - ls[|ls| - 1][i]
  }

  /** The running column sum of Add is the Sum of the column. */
  lemma {:induction false} ColumnSumIsSum(ls: seq<seq<real>>, i: int)
    requires InAll(ls, i)
    ensures ColumnSum(ls, i) == Sum(Column(ls, i))
    decreases |ls|
  {
    if |ls| > 0 {
      var init := ls[..|ls| - 1];
      ColumnSumIsSum(init, i);
      assert Column(ls, i)[..|ls| - 1] == Column(init, i);
    }
  }

  /**
   * The running column difference of Sub is the first input's element minus
   * the Sum of the other inputs' elements.
   */
  lemma {:induction false} ColumnDiffIsFirstMinusSum(ls: seq<seq<real>>, i: int)
    requires |ls| > 0 && InAll(ls, i)
    ensures ColumnDiff(ls, i) == ls[0][i] - Sum(Column(ls[1..], i))
    decreases |ls|
  {
    if |ls| == 1 {
      assert Column(ls[1..], i) == [];
    } else {
      var init := ls[..|ls| - 1];
      ColumnDiffIsFirstMinusSum(init, i);
      assert Column(ls[1..], i)[..|ls| - 2] == Column(init[1..], i);
    }
  }

  /** Add: empty for no inputs, otherwise the column sums over the common length. */
  function Summed(ls: seq<seq<real>>): (r: seq<real>)
    ensures |ls| == 0 ==> r == []
    ensures |ls| > 0 ==> |r| == MinLength(ls)
    ensures forall i :: 0 <= i < |r| ==> InAll(ls, i) && r[i] == ColumnSum(ls, i)
  {
    if |ls| == 0 then []
    else seq(MinLength(ls), i requires 0 <= i < MinLength(ls) => ColumnSum(ls, i))
  }

  /** Sub: empty for no inputs, otherwise the column differences over the common length. */
  function Subtracted(ls: seq<seq<real>>): (r: seq<real>)
    ensures |ls| == 0 ==> r == []
    ensures |ls| > 0 ==> |r| == MinLength(ls)
    ensures forall i :: 0 <= i < |r| ==> |ls| > 0 && InAll(ls, i) && r[i] == ColumnDiff(ls, i)
  {
    if |ls| == 0 then []
    else seq(MinLength(ls), i requires 0 <= i < MinLength(ls) => ColumnDiff(ls, i))
  }

  /** Extending the prefix ls[..j] by one input extends both column folds by one step. */
  lemma ColumnStep(ls: seq<seq<real>>, i: int, j: int)
    requires 0 <= j < |ls| && InAll(ls, i)
    ensures InAll(ls[..j], i) && InAll(ls[..j + 1], i)
    ensures ColumnSum(ls[..j + 1], i) == ColumnSum(ls[..j], i) + ls[j][i]
    ensures j > 0 ==> ColumnDiff(ls[..j + 1], i) == ColumnDiff(ls[..j], i) - ls[j][i]
    ensures j == 0 ==> ColumnDiff(ls[..1], i) == ls[0][i]
  {
    assert ls[..j + 1][..j] == ls[..j];
  }

  /** A sequence of the column sums over the common length is what Add returns. */
  lemma SummedExtensional(r: seq<real>, ls: seq<seq<real>>)
    requires |ls| > 0 && |r| == MinLength(ls)
    requires forall k :: 0 <= k < |r| ==> InAll(ls, k) && r[k] == ColumnSum(ls, k)
    ensures r == Summed(ls)
  {
  }

  /** A sequence of the column differences over the common length is what Sub returns. */
  lemma SubtractedExtensional(r: seq<real>, ls: seq<seq<real>>)
    requires |ls| > 0 && |r| == MinLength(ls)
    requires forall k :: 0 <= k < |r| ==> InAll(ls, k) && r[k] == ColumnDiff(ls, k)
    ensures r == Subtracted(ls)
  {
  }

  /** With a single input, Add returns (a copy of) that input. */
  lemma SummedSingle(s: seq<real>)
    ensures Summed([s]) == s
  {
    forall i | 0 <= i < |s|
      ensures ColumnSum([s], i) == s[i]
    {
      assert [s][..0] == [];
      assert ColumnSum([s], i) == ColumnSum([s][..0], i) + s[i];
    }
  }

  /** With a single input, Sub returns all of that input unchanged. */
  lemma SubtractedSingle(s: seq<real>)
    ensures Subtracted([s]) == s
  {
  }

  /** Subtracting one sequence is adding its negation. */
  lemma SubtractedIsSummedNegated(s: seq<real>, t: seq<real>)
    ensures Subtracted([s, t]) == Summed([s, Negated(t)])
  {
    var ls, ms := [s, t], [s, Negated(t)];
    assert ls[..1] == [s] && ms[..1] == [s] && [s][..0] == [];
    forall i | 0 <= i < |Subtracted(ls)|
      ensures Subtracted(ls)[i] == Summed(ms)[i]
    {
      assert ColumnDiff(ls, i) == s[i] - t[i];
      assert ColumnSum([s], i) == ColumnSum([s][..0], i) + s[i];
      assert ColumnSum(ms, i) == ColumnSum(ms[..1], i) + Negated(t)[i];
    }
  }
}
