/**
 Minimum and maximum of a non-empty sequence of reals, the two values that
 `normalize` computes with Python's built-in `min` and `max` before rescaling.

 `SeqMin` and `SeqMax` compute the extrema by recursion; `IsLeast` and
 `IsGreatest` say independently what an extremum is, and the lemmas here
 connect the two descriptions.
 */
module Extrema {

  /** `m` occurs in `s` and no element of `s` is smaller. */
  ghost predicate IsLeast(m: real, s: seq<real>) {
    m in s && forall i :: 0 <= i < |s| ==> m <= s[i]
  }

  /** `m` occurs in `s` and no element of `s` is larger. */
  ghost predicate IsGreatest(m: real, s: seq<real>) {
    m in s && forall i :: 0 <= i < |s| ==> s[i] <= m
  }

  /** Every element of `s` has the same value. */
  predicate AllEqual(s: seq<real>) {
    forall i, j :: 0 <= i < |s| && 0 <= j < |s| ==> s[i] == s[j]
  }

  /** The smallest element of a non-empty sequence (Python's `min`). */
  function SeqMin(s: seq<real>): (m: real)
    requires |s| > 0
    ensures IsLeast(m, s)
  {
    if |s| == 1 then s[0]
    else
      var rest := SeqMin(s[1..]);
      if s[0] <= rest then s[0] else rest
  }

  /** The largest element of a non-empty sequence (Python's `max`). */
  function SeqMax(s: seq<real>): (m: real)
    requires |s| > 0
    ensures IsGreatest(m, s)
  {
    if |s| == 1 then s[0]
    else
      var rest := SeqMax(s[1..]);
      if s[0] >= rest then s[0] else rest
  }

  /** A sequence has exactly one least element, and `SeqMin` returns it. */
  lemma SeqMinIsTheLeast(m: real, s: seq<real>)
    requires |s| > 0
    ensures IsLeast(m, s) <==> m == SeqMin(s)
  {
    if IsLeast(m, s) {
      var k :| 0 <= k < |s| && s[k] == m;
      var n := SeqMin(s);
      var j :| 0 <= j < |s| && s[j] == n;
      assert m <= s[j] && n <= s[k];
    }
  }

  /** A sequence has exactly one greatest element, and `SeqMax` returns it. */
  lemma SeqMaxIsTheGreatest(m: real, s: seq<real>)
    requires |s| > 0
    ensures IsGreatest(m, s) <==> m == SeqMax(s)
  {
    if IsGreatest(m, s) {
      var k :| 0 <= k < |s| && s[k] == m;
      var n := SeqMax(s);
      var j :| 0 <= j < |s| && s[j] == n;
      assert s[j] <= m && s[k] <= n;
    }
  }

  /** The minimum never exceeds the maximum. */
  lemma MinAtMostMax(s: seq<real>)
    requires |s| > 0
    ensures SeqMin(s) <= SeqMax(s)
  {
    assert SeqMin(s) <= s[0] <= SeqMax(s);
  }

  /**
   The minimum equals the maximum exactly when all elements are identical:
   the test `max_val == min_val` is the "all values identical" case.
   */
  lemma MinEqualsMaxIffAllEqual(s: seq<real>)
    requires |s| > 0
    ensures SeqMin(s) == SeqMax(s) <==> AllEqual(s)
  {
    var lo, hi := SeqMin(s), SeqMax(s);
    if lo == hi {
      forall i, j | 0 <= i < |s| && 0 <= j < |s|
        ensures s[i] == s[j]
      {
        assert lo <= s[i] <= hi && lo <= s[j] <= hi;
      }
    }
    if AllEqual(s) {
      var k :| 0 <= k < |s| && s[k] == lo;
      var l :| 0 <= l < |s| && s[l] == hi;
      assert s[k] == s[l];
    }
  }
}
