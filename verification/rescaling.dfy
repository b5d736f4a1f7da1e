/**
 Linear rescaling of a sequence of reals between two given bounds `lo` and
 `hi`, the arithmetic half of `normalize` (python/src/example_module.py).

 `Scale` is the division the source performs on each element;
 `RescaledBetween` describes the same rescaling without division. The
 lemmas here work for any bounds and any candidate result, and never look
 at how the bounds were computed, which keeps the arithmetic separate from
 the minimum and maximum.
 */
module Rescaling {
  import opened Extrema

  /** Each value's distance above `lo`, divided by `span`, in input order. */
  function Scale(values: seq<real>, lo: real, span: real): (r: seq<real>)
    requires span != 0.0
    ensures |r| == |values|
  {
    if |values| == 0 then []
    else [(values[0] - lo) / span] + Scale(values[1..], lo, span)
  }

  /**
   Reference description of a min-max rescaling, free of division: `r` has
   one entry per input, all zero when `lo == hi`, and otherwise each entry
   times the span `hi - lo` is the input's distance above `lo`.
   */
  ghost predicate RescaledBetween(values: seq<real>, lo: real, hi: real, r: seq<real>) {
    && |r| == |values|
    && forall i :: 0 <= i < |values| ==>
         if lo == hi then r[i] == 0.0 else r[i] * (hi - lo) == values[i] - lo
  }

  /** Entry `i` of `Scale`, multiplied back by the span, is `values[i]`'s distance above `lo`. */
  lemma {:induction false} ScaleAt(values: seq<real>, lo: real, span: real, i: int)
    requires span != 0.0
    requires 0 <= i < |values|
    ensures Scale(values, lo, span)[i] * span == values[i] - lo
    decreases i
  {
    if i == 0 {
      DivTimes(values[0] - lo, span);
    } else {
      ScaleAt(values[1..], lo, span, i - 1);
      assert Scale(values, lo, span)[i] == Scale(values[1..], lo, span)[i - 1];
    }
  }

  /** Dividing by a non-zero span is a rescaling in the sense of `RescaledBetween`. */
  lemma ScaleRescales(values: seq<real>, lo: real, hi: real)
    requires lo != hi
    ensures RescaledBetween(values, lo, hi, Scale(values, lo, hi - lo))
  {
    forall i | 0 <= i < |values|
      ensures Scale(values, lo, hi - lo)[i] * (hi - lo) == values[i] - lo
    {
      ScaleAt(values, lo, hi - lo, i);
    }
  }

  /** For fixed bounds there is at most one rescaling of `values`. */
  lemma RescaledUnique(values: seq<real>, lo: real, hi: real, r: seq<real>, r': seq<real>)
    requires RescaledBetween(values, lo, hi, r)
    requires RescaledBetween(values, lo, hi, r')
    ensures r == r'
  {
    forall i | 0 <= i < |values|
      ensures r[i] == r'[i]
    {
      if lo == hi {
        assert r[i] == 0.0 && r'[i] == 0.0;
      } else {
        assert r[i] * (hi - lo) == values[i] - lo;
        assert r'[i] * (hi - lo) == values[i] - lo;
        CancelFactor(r[i], r'[i], hi - lo);
      }
    }
  }

  /** Between the least and the greatest element, every rescaled entry lies in [0.0, 1.0]. */
  lemma RescaledInUnitInterval(values: seq<real>, lo: real, hi: real, r: seq<real>)
    requires IsLeast(lo, values) && IsGreatest(hi, values)
    requires RescaledBetween(values, lo, hi, r)
    ensures forall i :: 0 <= i < |r| ==> 0.0 <= r[i] <= 1.0
  {
    forall i | 0 <= i < |r|
      ensures 0.0 <= r[i] <= 1.0
    {
      if lo != hi {
        UnitFraction(r[i], hi - lo, values[i] - lo);
      }
    }
  }

  /**
   With distinct bounds, an entry is 0.0 exactly when its value is `lo` and
   1.0 exactly when its value is `hi`.
   */
  lemma RescaledExtremes(values: seq<real>, lo: real, hi: real, r: seq<real>, i: int)
    requires lo != hi
    requires RescaledBetween(values, lo, hi, r)
    requires 0 <= i < |values|
    ensures r[i] == 0.0 <==> values[i] == lo
    ensures r[i] == 1.0 <==> values[i] == hi
  {
    CancelFactor(r[i], 0.0, hi - lo);
    CancelFactor(r[i], 1.0, hi - lo);
    assert 1.0 * (hi - lo) == hi - lo;
  }

  /** With `lo` below `hi`, rescaling keeps the order of two entries, in both directions. */
  lemma RescaledOrder(values: seq<real>, lo: real, hi: real, r: seq<real>, i: int, j: int)
    requires lo < hi
    requires RescaledBetween(values, lo, hi, r)
    requires 0 <= i < |values| && 0 <= j < |values|
    ensures values[i] <= values[j] <==> r[i] <= r[j]
  {
    assert r[i] * (hi - lo) == values[i] - lo;
    assert r[j] * (hi - lo) == values[j] - lo;
    ScaledOrder(r[i], r[j], hi - lo);
  }

  /**
   The gap from entry `i` to entry `j` relates to the gap from `k` to `l` in
   `r` exactly as it does in `values`.
   */
  ghost predicate GapsProportional(values: seq<real>, r: seq<real>, i: int, j: int, k: int, l: int)
    requires |r| == |values|
    requires 0 <= i < |values| && 0 <= j < |values|
    requires 0 <= k < |values| && 0 <= l < |values|
  {
    (r[j] - r[i]) * (values[l] - values[k]) == (r[l] - r[k]) * (values[j] - values[i])
  }

  /** Rescaling keeps the ratio between any two gaps. */
  lemma RescaledRatios(values: seq<real>, lo: real, hi: real, r: seq<real>, i: int, j: int, k: int, l: int)
    requires RescaledBetween(values, lo, hi, r)
    requires 0 <= i < |values| && 0 <= j < |values|
    requires 0 <= k < |values| && 0 <= l < |values|
    ensures GapsProportional(values, r, i, j, k, l)
  {
    if lo != hi {
      GapRatios(r[i], r[j], r[k], r[l], hi - lo);
    }
  }

  /** The input shifted by `b` and stretched by the factor `a`. */
  function Affine(values: seq<real>, a: real, b: real): (w: seq<real>)
    ensures |w| == |values|
  {
    seq(|values|, i requires 0 <= i < |values| => a * values[i] + b)
  }

  /** A positive stretch and a shift move the least and greatest element along with the rest. */
  lemma AffineBounds(values: seq<real>, lo: real, hi: real, a: real, b: real)
    requires a > 0.0
    requires IsLeast(lo, values) && IsGreatest(hi, values)
    ensures IsLeast(a * lo + b, Affine(values, a, b))
    ensures IsGreatest(a * hi + b, Affine(values, a, b))
  {
    AffineLeast(values, lo, a, b);
    AffineGreatest(values, hi, a, b);
  }

  lemma AffineLeast(values: seq<real>, lo: real, a: real, b: real)
    requires a > 0.0
    requires IsLeast(lo, values)
    ensures IsLeast(a * lo + b, Affine(values, a, b))
  {
    var w := Affine(values, a, b);
    forall i | 0 <= i < |values|
      ensures a * lo + b <= w[i]
    {
      AffineOrder(a, b, lo, values[i]);
    }
    var k :| 0 <= k < |values| && values[k] == lo;
    assert w[k] == a * lo + b;
  }

  lemma AffineGreatest(values: seq<real>, hi: real, a: real, b: real)
    requires a > 0.0
    requires IsGreatest(hi, values)
    ensures IsGreatest(a * hi + b, Affine(values, a, b))
  {
    var w := Affine(values, a, b);
    forall i | 0 <= i < |values|
      ensures w[i] <= a * hi + b
    {
      AffineOrder(a, b, values[i], hi);
    }
    var k :| 0 <= k < |values| && values[k] == hi;
    assert w[k] == a * hi + b;
  }

  /** A rescaling of `values` is also a rescaling of its positive affine image. */
  lemma AffineRescaled(values: seq<real>, lo: real, hi: real, r: seq<real>, a: real, b: real)
    requires a > 0.0
    requires RescaledBetween(values, lo, hi, r)
    ensures RescaledBetween(Affine(values, a, b), a * lo + b, a * hi + b, r)
  {
    var w := Affine(values, a, b);
    if lo == hi {
      assert a * lo + b == a * hi + b;
    } else {
      NonZeroProduct(a, hi - lo);
      assert a * hi + b != a * lo + b;
      forall i | 0 <= i < |values|
        ensures r[i] * ((a * hi + b) - (a * lo + b)) == w[i] - (a * lo + b)
      {
        AffineEntry(r[i], values[i], lo, hi, a, b);
      }
    }
  }

  // Facts of real arithmetic used above, each kept apart from the sequences.

  lemma DivTimes(x: real, d: real)
    requires d != 0.0
    ensures (x / d) * d == x
  {
  }

  lemma CancelFactor(y: real, z: real, d: real)
    requires d != 0.0
    ensures y * d == z * d <==> y == z
  {
  }

  lemma NonZeroProduct(a: real, d: real)
    requires a != 0.0 && d != 0.0
    ensures a * d != 0.0
  {
  }

  lemma UnitFraction(y: real, d: real, x: real)
    requires d > 0.0 && 0.0 <= x <= d
    requires y * d == x
    ensures 0.0 <= y <= 1.0
  {
  }

  lemma ScaledOrder(y: real, z: real, d: real)
    requires d > 0.0
    ensures y <= z <==> y * d <= z * d
  {
  }

  lemma AffineOrder(a: real, b: real, x: real, y: real)
    requires a > 0.0 && x <= y
    ensures a * x + b <= a * y + b
  {
  }

  lemma GapRatios(ri: real, rj: real, rk: real, rl: real, d: real)
    ensures (rj - ri) * ((rl * d) - (rk * d)) == (rl - rk) * ((rj * d) - (ri * d))
  {
  }

  lemma AffineEntry(y: real, v: real, lo: real, hi: real, a: real, b: real)
    requires y * (hi - lo) == v - lo
    ensures y * ((a * hi + b) - (a * lo + b)) == (a * v + b) - (a * lo + b)
  {
  }
}
