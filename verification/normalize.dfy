/**
 Min-max normalisation of a list of numbers into the range 0.0 to 1.0
 (`normalize` in python/src/example_module.py).

 Numbers are modelled as mathematical reals, not binary64 floats. Over reals
 every promise of the docstring holds for every finite input. With floats,
 the maximum-to-1.0 promise, the [0.0, 1.0] range and order preservation
 hold only while the span stays finite: `[-1e308, 1e308]` overflows it and
 normalises to `[0.0, nan]`. An entry that is not the minimum can underflow
 to 0.0, as entry 1 of `[0.0, 5e-324, 1e308]` does, and rounding in the
 subtraction can send an entry that is not the maximum to 1.0, as entry 1 of
 `[-1.0, 9007199254740991.0, 9007199254740992.0]` does. Ratios of gaps and
 the invariance under shifting and stretching hold for floats only up to
 rounding, and only while the span does not overflow.
 */
module Normalization {
  import opened Extrema
  import opened Rescaling

  /**
   Rescales `values` so that the minimum maps to 0.0 and the maximum to 1.0.
   Empty input gives empty output; input whose values are all identical gives
   all zeros instead of dividing by a zero span.
   */
  function Normalize(values: seq<real>): (r: seq<real>)
    ensures |r| == |values|
  {
    if |values| == 0 then []
    else
      var lo := SeqMin(values);
      var hi := SeqMax(values);
      if hi == lo then seq(|values|, _ => 0.0)
      else
        var span := hi - lo;
        Scale(values, lo, span)
  }

  /** Empty input, and only empty input, gives empty output. */
  lemma NormalizeEmpty(values: seq<real>)
    ensures Normalize(values) == [] <==> values == []
  {
  }

  /**
   Whenever the scaling branch is taken (the maximum differs from the
   minimum) the span it divides by is strictly positive.
   */
  lemma SpanPositive(values: seq<real>)
    requires |values| > 0
    requires SeqMax(values) != SeqMin(values)
    ensures SeqMax(values) - SeqMin(values) > 0.0
  {
    MinAtMostMax(values);
  }

  /**
   Given the least element `lo` and the greatest element `hi` of `values`,
   `Normalize(values)` is the one and only rescaling of `values` between them.
   */
  lemma NormalizeCharacterization(values: seq<real>, lo: real, hi: real, r: seq<real>)
    requires IsLeast(lo, values) && IsGreatest(hi, values)
    ensures r == Normalize(values) <==> RescaledBetween(values, lo, hi, r)
  {
    var n := Normalize(values);
    assert RescaledBetween(values, lo, hi, n) by {
      SeqMinIsTheLeast(lo, values);
      SeqMaxIsTheGreatest(hi, values);
      if lo != hi {
        assert n == Scale(values, lo, hi - lo);
        ScaleRescales(values, lo, hi);
      }
    }
    if RescaledBetween(values, lo, hi, r) {
      RescaledUnique(values, lo, hi, r, n);
    }
  }

  /** The bounds of a non-empty input, with its normalisation described by `RescaledBetween`. */
  lemma Bounds(values: seq<real>) returns (lo: real, hi: real)
    requires |values| > 0
    ensures lo == SeqMin(values) && hi == SeqMax(values)
    ensures IsLeast(lo, values) && IsGreatest(hi, values) && lo <= hi
    ensures RescaledBetween(values, lo, hi, Normalize(values))
  {
    lo, hi := SeqMin(values), SeqMax(values);
    MinAtMostMax(values);
    NormalizeCharacterization(values, lo, hi, Normalize(values));
  }

  /**
   The output is all zeros exactly when every input value is the same
   (the empty input included, which has no entries at all).
   */
  lemma NormalizeZerosIffAllEqual(values: seq<real>)
    ensures AllEqual(values) <==> forall i :: 0 <= i < |values| ==> Normalize(values)[i] == 0.0
  {
    if |values| > 0 {
      var lo, hi := Bounds(values);
      MinEqualsMaxIffAllEqual(values);
      if lo != hi {
        var k :| 0 <= k < |values| && values[k] == hi;
        RescaledExtremes(values, lo, hi, Normalize(values), k);
      }
    }
  }

  /** Every output value lies in the closed interval [0.0, 1.0]. */
  lemma NormalizeInUnitInterval(values: seq<real>)
    ensures forall i :: 0 <= i < |values| ==> 0.0 <= Normalize(values)[i] <= 1.0
  {
    if |values| > 0 {
      var lo, hi := Bounds(values);
      RescaledInUnitInterval(values, lo, hi, Normalize(values));
    }
  }

  /**
   For input that is not constant, an entry becomes 0.0 exactly when its
   value is the minimum and 1.0 exactly when its value is the maximum.
   */
  lemma NormalizeExtremes(values: seq<real>)
    requires !AllEqual(values)
    ensures |values| > 0
    ensures forall i :: 0 <= i < |values| ==>
              (Normalize(values)[i] == 0.0 <==> values[i] == SeqMin(values))
    ensures forall i :: 0 <= i < |values| ==>
              (Normalize(values)[i] == 1.0 <==> values[i] == SeqMax(values))
  {
    var lo, hi := Bounds(values);
    MinEqualsMaxIffAllEqual(values);
    forall i | 0 <= i < |values|
      ensures Normalize(values)[i] == 0.0 <==> values[i] == lo
      ensures Normalize(values)[i] == 1.0 <==> values[i] == hi
    {
      RescaledExtremes(values, lo, hi, Normalize(values), i);
    }
  }

  /** Normalising never reverses the order of two entries. */
  lemma NormalizeMonotone(values: seq<real>, i: int, j: int)
    requires 0 <= i < |values| && 0 <= j < |values|
    requires values[i] <= values[j]
    ensures Normalize(values)[i] <= Normalize(values)[j]
  {
    NormalizeOrderIff(values, i, j);
  }

  /**
   Two outputs compare exactly as their inputs do, so ties and strict order
   survive as well. For constant input both sides hold trivially.
   */
  lemma NormalizeOrderIff(values: seq<real>, i: int, j: int)
    requires 0 <= i < |values| && 0 <= j < |values|
    ensures values[i] <= values[j] <==> Normalize(values)[i] <= Normalize(values)[j]
  {
    var lo, hi := Bounds(values);
    MinEqualsMaxIffAllEqual(values);
    if lo == hi {
      NormalizeZerosIffAllEqual(values);
      assert values[i] == values[j];
    } else {
      RescaledOrder(values, lo, hi, Normalize(values), i, j);
    }
  }

  /**
   Intermediate values are scaled linearly: the ratio between any two gaps of
   the input is the ratio between the same two gaps of the output.
   */
  lemma NormalizeKeepsRatios(values: seq<real>, i: int, j: int, k: int, l: int)
    requires 0 <= i < |values| && 0 <= j < |values|
    requires 0 <= k < |values| && 0 <= l < |values|
    ensures GapsProportional(values, Normalize(values), i, j, k, l)
  {
    var lo, hi := Bounds(values);
    RescaledRatios(values, lo, hi, Normalize(values), i, j, k, l);
  }

  /** Normalising an already normalised sequence changes nothing. */
  lemma NormalizeIdempotent(values: seq<real>)
    ensures Normalize(Normalize(values)) == Normalize(values)
  {
    var r := Normalize(values);
    if |values| > 0 {
      var lo, hi := Bounds(values);
      if lo == hi {
        assert IsLeast(0.0, r) && IsGreatest(0.0, r) by { assert r[0] == 0.0; }
        NormalizeCharacterization(r, 0.0, 0.0, r);
      } else {
        var k :| 0 <= k < |values| && values[k] == lo;
        var l :| 0 <= l < |values| && values[l] == hi;
        RescaledExtremes(values, lo, hi, r, k);
        RescaledExtremes(values, lo, hi, r, l);
        RescaledInUnitInterval(values, lo, hi, r);
        assert IsLeast(0.0, r) by { assert r[k] == 0.0; }
        assert IsGreatest(1.0, r) by { assert r[l] == 1.0; }
        NormalizeCharacterization(r, 0.0, 1.0, r);
      }
    }
  }

  /**
   Normalisation depends only on where each value sits between the minimum
   and the maximum: shifting the input, or stretching it by a positive
   factor, gives the same result.
   */
  lemma NormalizeAffineInvariant(values: seq<real>, a: real, b: real)
    requires a > 0.0
    ensures Normalize(Affine(values, a, b)) == Normalize(values)
  {
    if |values| > 0 {
      var lo, hi := SeqMin(values), SeqMax(values);
      var r := Normalize(values);
      var w := Affine(values, a, b);
      assert IsLeast(a * lo + b, w) && IsGreatest(a * hi + b, w)
          && RescaledBetween(w, a * lo + b, a * hi + b, r) by {
        NormalizeCharacterization(values, lo, hi, r);
        AffineBounds(values, lo, hi, a, b);
        AffineRescaled(values, lo, hi, r, a, b);
      }
      NormalizeCharacterization(w, a * lo + b, a * hi + b, r);
    }
  }
}
