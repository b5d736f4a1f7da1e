# Min-max normalisation, modelled and proved in Dafny

The repository's one piece of logic is `normalize` in
`python/src/example_module.py`: it takes a list of numbers and rescales it
linearly so that the smallest value becomes 0.0 and the largest becomes 1.0.
An empty list gives an empty list, and a list whose values are all identical
gives a list of zeros of the same length, so the function never divides by
zero.

This project models that function over Dafny's mathematical `real` numbers,
with lists as `seq<real>`, and proves its documented contract.

- `extrema.dfy`, module `Extrema`: `SeqMin` and `SeqMax`, the recursive
  minimum and maximum of a non-empty sequence (Python's `min` and `max`), the
  reference predicates `IsLeast` and `IsGreatest` they are proved against, and
  `AllEqual`, the "all values identical" case.
- `rescaling.dfy`, module `Rescaling`: `Scale`, the per-element division of
  the last line of `normalize`, and `RescaledBetween`, a description of the
  same rescaling without division (each output times the span equals the
  input's distance above the minimum). Lemmas here prove range, order,
  extreme-value and ratio facts for any sequence that satisfies
  `RescaledBetween`.
- `normalize.dfy`, module `Normalization`: `Normalize`, which follows the three
  branches of the source (empty input, equal minimum and maximum, scaling by
  the span), and the lemmas stating its contract. `NormalizeCharacterization`
  is the central one: given the least and greatest element, `Normalize` is the
  one and only sequence satisfying `RescaledBetween`. Most of the other
  properties are derived from it; `NormalizeEmpty` and `SpanPositive` follow
  from the branches and from `MinAtMostMax` directly.
- `scenarios.dfy`, module `NormalizeScenarios`: the three concrete cases from
  `python/tests/test_example_module.py`.

Python's built-in `min` returns the first of several equal minimal elements
and `max` the first of several equal maximal ones. Over reals, equal elements
are the same value, so this choice does not affect the result and is not
modelled.

## Model

| member | source | states |
|---|---|---|
| Extrema.SeqMin | python/src/example_module.py:19 | the result occurs in the input and no input element is smaller |
| Extrema.SeqMax | python/src/example_module.py:20 | the result occurs in the input and no input element is larger |
| Extrema.SeqMinIsTheLeast | python/src/example_module.py:19 | a value is the least element of the input exactly when it equals the computed minimum, so the minimum is unique |
| Extrema.SeqMaxIsTheGreatest | python/src/example_module.py:20 | a value is the greatest element of the input exactly when it equals the computed maximum |
| Extrema.MinAtMostMax | python/src/example_module.py:19-20 | the minimum of a non-empty input never exceeds its maximum |
| Extrema.MinEqualsMaxIffAllEqual | python/src/example_module.py:10-22 | the test `max_val == min_val` holds exactly when all input values are identical, the case the docstring singles out |
| Normalization.Normalize | python/src/example_module.py:6-24 | the output has the same length as the input in every branch |
| Normalization.NormalizeEmpty | python/src/example_module.py:17-18 | the output is empty exactly when the input is empty |
| Normalization.SpanPositive | python/src/example_module.py:21-24 | when the scaling branch is reached, the span divided by is strictly positive |
| Normalization.NormalizeCharacterization | python/src/example_module.py:19-24 | with `lo` the least and `hi` the greatest input element, a sequence equals the output exactly when it has the input's length and is all zeros if `lo == hi`, and otherwise each entry times `hi - lo` is its input's distance above `lo` |
| Normalization.NormalizeZerosIffAllEqual | python/src/example_module.py:11-22 | the output is all zeros exactly when all input values are identical |
| Normalization.NormalizeInUnitInterval | python/src/example_module.py:8-24 | every output value lies in the closed interval [0.0, 1.0] |
| Normalization.NormalizeExtremes | python/src/example_module.py:15-24 | for input that is not constant, an output entry is 0.0 exactly when its input is the minimum and 1.0 exactly when its input is the maximum |
| Normalization.NormalizeMonotone | python/src/example_module.py:15-24 | if one input is at most another, its output is at most the other's output |
| Normalization.NormalizeOrderIff | python/src/example_module.py:15-24 | for every input, two outputs compare exactly as their inputs do (for constant input both sides hold) |
| Normalization.NormalizeKeepsRatios | python/src/example_module.py:15-24 | intermediate values are scaled linearly: any two gaps between outputs stand in the same ratio as the corresponding input gaps |
| Normalization.NormalizeIdempotent | python/src/example_module.py:15-24 | normalising an already normalised sequence returns it unchanged |
| Normalization.NormalizeAffineInvariant | python/src/example_module.py:19-24 | shifting the input or stretching it by a positive factor does not change the output |
| Rescaling.Scale | python/src/example_module.py:24 | the per-element division yields one entry per input element |
| Rescaling.ScaleAt | python/src/example_module.py:23-24 | entry `i` of the division, multiplied back by the span, is the distance of input `i` above the minimum |
| Rescaling.ScaleRescales | python/src/example_module.py:23-24 | dividing every distance above `lo` by a non-zero span satisfies the division-free description of the rescaling |
| Rescaling.RescaledUnique | python/src/example_module.py:19-24 | for fixed bounds, at most one sequence satisfies the division-free description |
| Rescaling.RescaledInUnitInterval | python/src/example_module.py:8-24 | any rescaling between the least and greatest element stays within [0.0, 1.0] |
| Rescaling.RescaledExtremes | python/src/example_module.py:15-24 | with distinct bounds, a rescaled entry is 0.0 exactly at `lo` and 1.0 exactly at `hi` |
| Rescaling.RescaledOrder | python/src/example_module.py:15-24 | with `lo` below `hi`, rescaling preserves the order of two entries in both directions |
| Rescaling.RescaledRatios | python/src/example_module.py:15-24 | rescaling keeps the ratio between any two gaps |
| Rescaling.AffineBounds | python/src/example_module.py:19-20 | a positive stretch and a shift carry the least and greatest element along |
| Rescaling.AffineRescaled | python/src/example_module.py:19-24 | a rescaling of an input also rescales its positive affine image between the moved bounds |
| NormalizeScenarios.EmptyScenario | python/tests/test_example_module.py:6-8 | `normalize([])` is `[]` |
| NormalizeScenarios.SpreadScenario | python/tests/test_example_module.py:11-13 | `normalize([0, 5, 10])` is `[0.0, 0.5, 1.0]` |
| NormalizeScenarios.ConstantScenario | python/tests/test_example_module.py:16-18 | `normalize([3, 3, 3])` is `[0.0, 0.0, 0.0]` |

## Left out

- IEEE-754 floating point: numbers are exact reals, so rounding, NaN and infinities, and how Python's `min` and `max` order NaN, are not modelled. The docstring (python/src/example_module.py:15) states its promises without any rounding caveat. With binary64 floats the minimum maps to exactly 0.0 and the maximum to exactly 1.0 whenever `span` is finite, but a finite input can overflow `span`: `[-1e308, 1e308]` gives an infinite span and the output `[0.0, nan]`, breaking the maximum-to-1.0 promise, the [0.0, 1.0] range and order preservation (`0.0 <= nan` is false although `-1e308 <= 1e308`).
- Normalization.NormalizeInUnitInterval, Normalization.NormalizeExtremes (the maximum mapping to 1.0), Normalization.NormalizeMonotone, Normalization.NormalizeOrderIff (the forward direction), Normalization.NormalizeIdempotent: hold for floats only while `span` does not overflow, as above. With a finite span, subtraction and division by a positive number round monotonically, so order is kept. Once the first call yields entries in [0.0, 1.0] with 0.0 and 1.0 present, a second call divides by a span of exactly 1.0 and returns its input; `[-1e308, 1e308]` gives `[0.0, nan]` instead.
- Normalization.NormalizeExtremes (its "only if" half), Normalization.NormalizeOrderIff (the backward direction): hold over reals only. With floats an entry that is not the minimum can underflow to 0.0, as entry 1 of `[0.0, 5e-324, 1e308]` does. With a finite span, rounding in the subtraction can also send an entry that is not the maximum to 1.0: in `[-1.0, 9007199254740991.0, 9007199254740992.0]` the span 2^53+1 rounds to 2^53, and entry 1's distance `(2^53-1) - (-1.0)` is also exactly 2^53, so entry 1 maps to 1.0 and entries 1 and 2 tie although their inputs differ.
- Normalization.NormalizeKeepsRatios, Normalization.NormalizeAffineInvariant: hold over reals only; with floats they hold up to rounding, and only while `span` does not overflow. Stretching `[-1.0, 1.0]` by `1e308` gives `[-1e308, 1e308]`, which normalises to `[0.0, nan]` instead of `[0.0, 1.0]`; `[-1e308, 0.0, 1e308]` normalises to `[0.0, 0.0, nan]`, where the gap from entry 0 to entry 1 collapses to 0.0 and every gap to entry 2 is NaN.
- Python's mixed integer and float inputs (the tests pass `[0, 5, 10]`): integers are written as reals.
- Python's `min` and `max` picking the first of several equal extreme elements: over reals the chosen value is the same either way.
- `python/automation/example_task.py`: command-line parsing, reading the UTC wall clock, formatting the timestamp and writing it to a file. It is I/O only and has no logic to prove.
- `python/tests/test_example_task.py`: runs the script in a subprocess and inspects the file system; I/O only.
