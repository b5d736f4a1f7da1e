/**
 The three concrete cases pinned down for `normalize` in
 python/tests/test_example_module.py, with the integer inputs written as reals.
 */
module NormalizeScenarios {
  import opened Extrema
  import opened Normalization

  /** `normalize([])` is `[]`. */
  lemma EmptyScenario()
    ensures Normalize([]) == []
  {
  }

  /** `normalize([0, 5, 10])` is `[0.0, 0.5, 1.0]`. */
  lemma SpreadScenario()
    ensures Normalize([0.0, 5.0, 10.0]) == [0.0, 0.5, 1.0]
  {
    var values := [0.0, 5.0, 10.0];
    assert IsLeast(0.0, values) by { assert values[0] == 0.0; }
    assert IsGreatest(10.0, values) by { assert values[2] == 10.0; }
    NormalizeCharacterization(values, 0.0, 10.0, [0.0, 0.5, 1.0]);
  }

  /** `normalize([3, 3, 3])` is `[0.0, 0.0, 0.0]`. */
  lemma ConstantScenario()
    ensures Normalize([3.0, 3.0, 3.0]) == [0.0, 0.0, 0.0]
  {
    var values := [3.0, 3.0, 3.0];
    assert IsLeast(3.0, values) && IsGreatest(3.0, values) by { assert values[0] == 3.0; }
    NormalizeCharacterization(values, 3.0, 3.0, [0.0, 0.0, 0.0]);
  }
}
