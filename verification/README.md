# dsp — slice transformations, modelled in Dafny

The Go package `dsp` is a small signal-processing library of stateless
operations on slices of floating-point numbers. It provides:
- copying and repeating slices;
- first-occurrence minimum and maximum;
- averages and a moving-average filter;
- negation, offset and scaling;
- discrete derivatives;
- element-wise sums and differences of several slices;
- decimation and reversal.

The library is written once as a template over an element type `FLOAT`
(`dsp.go`). It is then instantiated textually for `float32`
(`dsp32/dsp/dsp.go`) and `float64` (`dsp64/dsp/dsp.go`). The three copies
have the same bodies but different sets of operations:
- `dsp.go` has Copy, MinMax and its four projections, AverageFilter,
  Average, Negative, Derivative, NthDerivative, Add and Sub.
- `dsp64/dsp/dsp.go` adds AddOffset, EveryNth and Repeat.
- `dsp32/dsp/dsp.go` also adds Reverse and Scale.

This project models the union of these operations once, with elements as
Dafny `real`.

The model has two layers:
- **Reference definitions** on `seq<real>`, in modules `Transforms`,
  `Averages`, `Extremes` and `Columns`. They fall into three groups.
  - Structural definitions, written independently of the library's loops:
    `Map`, `Repeated`, `Reversed`, `Decimated`, `Diffs`, `Differenced`,
    `WindowMeans`, `Summed` and `Subtracted`. Their contracts give the
    length law and the index map. The same holds for `Negated`, `Offset`
    and `Scaled`.
  - Definitions that follow the source's own order of evaluation:
    - `Sum`, `ColumnSum` and `ColumnDiff` are the library's left-to-right
      accumulation loops, written as left folds.
    - `ArgMin` and `ArgMax` are MinMax's strict `<` / `>` scan, written as
      recursion.
    - `NthDifferenced` applies `Differenced` n times.

    Their independent partners are stated separately:
    - `IsFirstMin` / `IsFirstMax`, the contracts of `ArgMin` and `ArgMax`;
    - the contract of `MinLength`;
    - the lemmas `SumAppend`, `MeanTimesLength`, `ColumnSumIsSum`,
      `ColumnDiffIsFirstMinusSum`, `NthDifferencedSaturates` and
      `NthDifferencedFirstStep`;
    - the length law in `NthDifferenced`'s own contract.
  - `Mean` divides `Sum` by the length; `MeanTimesLength` states what it
    means.
- **Imperative members** in module `Dsp`, which do what the Go code does.
  - Every method that returns a slice allocates a fresh array and fills it
    in the same loop as the source. It is proved to return exactly the
    reference sequence. These include AverageFilter's sliding sum,
    NthDerivative's count-down loop, and Add and Sub's nested accumulation.
  - `MinMax` and `Average` return scalars; they are proved against
    `MinMaxOf` and `Mean`.
  - `CommonLength`, `AddColumn` and `SubtractColumn` are the length scan and
    the inner loops of Add and Sub.
  - `MinIndex`, `MinValue`, `MaxIndex` and `MaxValue` are functions that
    project `MinMaxOf`, which `MinMax` is proved to return.

Lemmas state how the operations relate:
- Negation and reversal undo themselves, and an offset is undone by its
  opposite offset.
- Repeated differencing saturates at `[0]`.
- The mean and every filtered value lie between the extremes.
- Sub of two slices is Add of the first and the negated second.
- The library's documented examples hold.

Where the code and its doc comments disagree, the model follows the code:
- `MaxValue` returns the maximum, though its comment says "minimum".
- `AverageFilter` returns a one-element slice holding the average whenever
  `width >= len(a)`, including for an empty input with width 0 or more.
- An empty input with a negative width reaches the `width <= 1` branch. It
  returns a copy of the empty input, so the filter's result is empty
  exactly when the input is empty and the width is negative
  (`Averages.AverageFiltered`, third ensures).

## Model

Source cells cite the `float32` copy, which has every operation. Where the
template or the `float64` copy carries the same code at other lines, they
are cited in the rows that state their behaviour.

| member | source | states |
|---|---|---|
| Dsp.Copy | dsp32/dsp/dsp.go:6-10 | returns a freshly allocated array with exactly the input's elements |
| Dsp.MinMax | dsp32/dsp/dsp.go:15-31 | empty input gives (-1, +Inf, -1, -Inf); otherwise the indices are the first occurrences of the minimum and maximum (no earlier element is as small or as large), the values are the elements at those indices, and the result equals `MinMaxOf` |
| Dsp.MinIndex | dsp.go:35-38 | -1 for empty input, otherwise the first index of the minimum; like the other three projections it reads `MinMaxOf`, which `Dsp.MinMax` is proved to return |
| Dsp.MinValue | dsp.go:41-44 | +Inf for empty input, otherwise a value that is at most every element and is one of them |
| Dsp.MaxIndex | dsp.go:48-51 | -1 for empty input, otherwise the first index of the maximum |
| Dsp.MaxValue | dsp.go:54-57 | -Inf for empty input, otherwise a value that is at least every element and is one of them (the maximum, despite the comment) |
| Dsp.AverageFilter | dsp64/dsp/dsp.go:65-89 | returns a fresh array equal to `AverageFiltered`: the sliding sum equals the sum of the current window before each write, so each output is that window's mean |
| Dsp.Average | dsp64/dsp/dsp.go:92-102 | returns `Mean` of the input: 0 for empty input, otherwise the left-to-right `Sum` divided by the length |
| Dsp.Negative | dsp32/dsp/dsp.go:106-112 | returns a fresh array equal to `Negated` of the input |
| Dsp.Derivative | dsp32/dsp/dsp.go:116-126 | returns a fresh array equal to `Differenced` of the input |
| Dsp.NthDerivative | dsp64/dsp/dsp.go:129-139 | a fresh copy for n <= 0; otherwise Derivative applied n times, as `NthDifferenced` |
| Dsp.CommonLength | dsp.go:148-153 | the length scan of Add and Sub returns the shortest input's length |
| Dsp.Add | dsp64/dsp/dsp.go:144-161 | empty for no inputs; otherwise a fresh array equal to `Summed` of the inputs' contents, whose element i is `ColumnSum` |
| Dsp.AddColumn | dsp.go:155-159 | after the inner loop, element i is the column sum in argument order; every other element is unchanged |
| Dsp.Sub | dsp64/dsp/dsp.go:166-186 | empty for no inputs; otherwise a fresh array equal to `Subtracted` of the inputs' contents, whose element i is `ColumnDiff` |
| Dsp.SubtractColumn | dsp.go:180-184 | starting from a[0][i], after the inner loop element i is the first input minus the others in order; every other element is unchanged |
| Dsp.AddOffset | dsp32/dsp/dsp.go:190-196 | returns a fresh array equal to `Offset` of the input |
| Dsp.EveryNth | dsp32/dsp/dsp.go:200-210 | returns a fresh array equal to `Decimated` of the input |
| Dsp.Repeat | dsp32/dsp/dsp.go:214-223 | returns a fresh array equal to `Repeated(x, n)` |
| Dsp.Reverse | dsp32/dsp/dsp.go:227-233 | returns a fresh array equal to `Reversed` of the input |
| Dsp.Scale | dsp32/dsp/dsp.go:236-242 | returns a fresh array equal to `Scaled` of the input |
| Transforms.Map | dsp32/dsp/dsp.go:106-112 | same length, and element i is f applied to input element i |
| Transforms.Negated | dsp32/dsp/dsp.go:106-112 | same length, and element i is -a[i] |
| Transforms.Offset | dsp32/dsp/dsp.go:190-196 | same length, and element i is a[i] + offset |
| Transforms.Scaled | dsp32/dsp/dsp.go:236-242 | same length, and element i is a[i] * factor |
| Transforms.Repeated | dsp32/dsp/dsp.go:214-223 | length n (0 when n <= 0), every element equal to x |
| Transforms.Reversed | dsp32/dsp/dsp.go:227-233 | same length, and element i is input element len-1-i |
| Transforms.Decimated | dsp32/dsp/dsp.go:200-210 | empty for n <= 0; otherwise length (len+n-1)/n, and element i is input element i*n with i*n in range |
| Transforms.Diffs | dsp32/dsp/dsp.go:121-124 | length len-1 (0 below two elements), and element i is s[i+1]-s[i] |
| Transforms.Differenced | dsp32/dsp/dsp.go:116-126 | length 0 or 1 gives that many zeros; otherwise length shrinks by exactly one and element i is s[i+1]-s[i] |
| Transforms.NegatedTwice | dsp32/dsp/dsp.go:106-112 | Negative applied twice gives back the input |
| Transforms.OffsetInverse | dsp32/dsp/dsp.go:190-196 | adding an offset and then its opposite gives back the input |
| Transforms.ScaledByOneOrZero | dsp32/dsp/dsp.go:236-242 | scaling by 1 is the identity, scaling by 0 gives zeros |
| Transforms.ReversedTwice | dsp32/dsp/dsp.go:227-233 | Reverse applied twice gives back the input |
| Transforms.DecimatedByOne | dsp32/dsp/dsp.go:198-210 | EveryNth with n = 1 is a copy; the first element is always taken |
| Transforms.CeilingOfShort | dsp32/dsp/dsp.go:205 | the result length (len+n-1)/n is 1 for 1 <= len <= n |
| Transforms.CeilingStep | dsp32/dsp/dsp.go:205 | dropping n elements lowers the result length by exactly one |
| Transforms.NthDifferenced | dsp64/dsp/dsp.go:129-139 | Derivative applied n times (the input for n <= 0): empty stays empty, otherwise the length is max(len-max(n,0), 1) |
| Transforms.NthDifferencedSaturates | dsp64/dsp/dsp.go:129-139 | for non-empty input and n >= len the result is exactly [0] |
| Transforms.NthDifferencedFirstStep | dsp64/dsp/dsp.go:134-138 | applying Derivative n >= 1 times equals differencing once and then n-1 more times |
| Averages.MeanTimesLength | dsp64/dsp/dsp.go:92-102 | `Mean` (Average) is 0 for empty input, and the mean times the length is the `Sum` |
| Averages.WindowMeans | dsp64/dsp/dsp.go:74-86 | length len-w+1 (0 when shorter than w), and element i is the mean of the window s[i..i+w] |
| Averages.AverageFiltered | dsp64/dsp/dsp.go:65-89 | width >= len gives [mean]; width <= 1 < len gives the input; 1 < width < len gives len-width+1 window means; the result is non-empty exactly when the input is non-empty or the width is not negative |
| Averages.SumAppend | dsp64/dsp/dsp.go:97-100 | the sum of a concatenation is the sum of the sums |
| Averages.SlideWindow | dsp64/dsp/dsp.go:83-85 | moving the window one step changes its sum by the entering element minus the leaving one |
| Averages.WindowMean | dsp64/dsp/dsp.go:75-85 | a window's sum times 1/width is that window's mean |
| Averages.SumBounds | dsp64/dsp/dsp.go:97-100 | a sum of elements between lo and hi lies between len*lo and len*hi |
| Averages.MeanBounds | dsp64/dsp/dsp.go:92-102 | the average of elements between lo and hi lies between lo and hi |
| Extremes.ArgMin | dsp32/dsp/dsp.go:20-23 | the index kept by the strict-less-than scan is the first occurrence of the minimum |
| Extremes.ArgMax | dsp32/dsp/dsp.go:24-26 | the index kept by the strict-greater-than scan is the first occurrence of the maximum |
| Extremes.MinMaxOf | dsp32/dsp/dsp.go:15-31 | the sentinels for empty input; otherwise first-occurrence extremes with their values |
| Extremes.FirstExtremesUnique | dsp32/dsp/dsp.go:20-27 | there is at most one first-occurrence minimum and at most one first-occurrence maximum |
| Extremes.ValuesBetweenExtremes | dsp.go:20-29 | every element of a non-empty input lies between its minimum and its maximum |
| Columns.MinLength | dsp.go:148-153 | at most every input's length and equal to one of them, so every read a[j][i] with i below it is in bounds |
| Columns.Summed | dsp64/dsp/dsp.go:144-161 | empty for no inputs; otherwise the common length, and element i is the column sum in argument order |
| Columns.Subtracted | dsp64/dsp/dsp.go:166-186 | empty for no inputs; otherwise the common length, and element i is the first input minus the others in order |
| Columns.ColumnStep | dsp.go:155-159 | one more input extends the column sum by one addition and the column difference by one subtraction |
| Columns.ColumnSumIsSum | dsp.go:156-158 | the running column sum of Add (`ColumnSum`) is the `Sum` of element i of every input |
| Columns.ColumnDiffIsFirstMinusSum | dsp.go:181-183 | the running column difference of Sub (`ColumnDiff`) is a[0][i] minus the `Sum` of element i of the other inputs |
| Columns.SummedSingle | dsp64/dsp/dsp_test.go:105 | Add of a single input is that input |
| Columns.SubtractedSingle | dsp.go:177-185 | Sub of a single input is that input |
| Columns.SubtractedIsSummedNegated | dsp64/dsp/dsp.go:166-186 | subtracting one slice is adding its negation |
| Bounds.MeanBetweenExtremes | dsp.go:92-102 | the average of a non-empty input lies between its minimum and maximum |
| Bounds.FilteredBetweenExtremes | dsp.go:65-89 | every value of the moving average lies between the input's minimum and maximum |
| Scenarios.MinMaxScenario | dsp_test.go:22-29 | [3,2,1,3,1,4,4] gives (2, 1, 5, 4) |
| Scenarios.AverageFilterScenario | dsp_test.go:47-48 | [2,4,6,8] with width 2 gives [3,5,7] |
| Scenarios.WideFilterScenario | dsp_test.go:53-61 | [1,2,3] with width 999 gives [2]; an empty input with width 2 gives [0]; with width -1 it gives [] |
| Scenarios.NthDerivativeScenario | dsp_test.go:92-100 | [1,3,4,2] differenced 1 to 5 times gives [2,1,-2], [-1,-3], [-2], [0], [0] |
| Scenarios.AddScenario | dsp_test.go:102-110 | Add([1,2],[4,7,9]) = [5,9] |
| Scenarios.SubScenario | dsp_test.go:112-120 | Sub([9,8,3],[4,7,9]) = [5,1,-6]; Sub([5],[1],[2]) = [2] |
| Scenarios.EveryNthScenario | dsp_test.go:128-142 | every third element of [1..7] is [1,4,7]; n = 0 gives [] |
| Scenarios.CopyOutlivesInput | dsp_test.go:10-16 | changing the input after Copy leaves the copy unchanged |
| Scenarios.NarrowFilterOutlivesInput | dsp_test.go:63-71 | for width <= 1 the filter's result is a copy unaffected by later changes to the input |

## Left out

- The generator `gen.go` is not part of this model. It writes the `float32` and `float64` copies from the template by text substitution. The model covers all three copies at once.
- Floating-point behaviour is not modelled: rounding, float32 versus float64 precision, NaN in MinMax's comparisons, and arithmetic on infinities. Elements are exact reals, so sums and means are exact. The filter's multiply by `1/width` is exactly the mean here, but not in IEEE-754 arithmetic. Only the infinite sentinels of an empty MinMax are represented, as `Extended`.
- Go's `nil` versus empty-slice distinction is not modelled. A `nil` result (Add and Sub with no inputs, EveryNth with n <= 0, Repeat with n <= 0) is a fresh empty array.
- Go `int` overflow in `(len(a)+n-1)/n` and `len(a)-(width-1)` is not modelled: integers are unbounded.
- Variadic arguments of Add and Sub are a sequence of arrays. Add and Sub ensure that their result is fresh. The only aliasing condition is that no input is the result array (`a[j] != sum` in `Dsp.AddColumn`, `a[j] != diff` in `Dsp.SubtractColumn`). Inputs may alias one another.
- The inner loops of Add and Sub are separate methods (`Dsp.AddColumn`, `Dsp.SubtractColumn`) called once per element. The Go code writes them inline.
