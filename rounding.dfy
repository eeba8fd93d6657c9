/**
  Rounding to three decimal places, as the calculator applies it to every
  intermediate result before later stages consume it.
 */
module Rounding {

  /** Rounds `x` to the nearest multiple of 0.001 (ties go up). */
  function Round3(x: real): (r: real)
    ensures x - 0.0005 < r <= x + 0.0005
    ensures (r * 1000.0).Floor as real == r * 1000.0
  {
    (x * 1000.0 + 0.5).Floor as real / 1000.0
  }

  /** A value already on the 0.001 grid is left unchanged. */
  lemma Round3OnGrid(k: int)
    ensures Round3(k as real / 1000.0) == k as real / 1000.0
  {
    var y := k as real / 1000.0 * 1000.0 + 0.5;
    assert y == k as real + 0.5;
    FloorOfHalf(k);
  }

  lemma FloorOfHalf(k: int)
    ensures (k as real + 0.5).Floor == k
  {
  }

  /** The rounded value of `x` is k / 1000 exactly when x · 1000 + 0.5 lies in [k, k + 1). */
  lemma Round3Is(x: real, k: int)
    requires k as real <= x * 1000.0 + 0.5 < k as real + 1.0
    ensures Round3(x) == k as real / 1000.0
  {
    FloorIs(x * 1000.0 + 0.5, k);
  }

  lemma FloorIs(y: real, k: int)
    requires k as real <= y < k as real + 1.0
    ensures y.Floor == k
  {
  }

  /** Rounding twice is rounding once: re-rounding a stored result is a no-op. */
  lemma Round3Idempotent(x: real)
    ensures Round3(Round3(x)) == Round3(x)
  {
    var k := (x * 1000.0 + 0.5).Floor;
    assert Round3(x) == k as real / 1000.0;
    Round3OnGrid(k);
  }

  /** Rounding preserves order. */
  lemma Round3Monotone(x: real, y: real)
    requires x <= y
    ensures Round3(x) <= Round3(y)
  {
    var i, j := (x * 1000.0 + 0.5).Floor, (y * 1000.0 + 0.5).Floor;
    assert i as real <= x * 1000.0 + 0.5;
    assert y * 1000.0 + 0.5 < j as real + 1.0;
    assert i <= j;
    assert Round3(x) == i as real / 1000.0 && Round3(y) == j as real / 1000.0;
  }

  /** Rounding a nonnegative value gives a nonnegative value. */
  lemma Round3NonNegative(x: real)
    requires 0.0 <= x
    ensures 0.0 <= Round3(x)
  {
    Round3Monotone(0.0, x);
    Round3OnGrid(0);
  }
}
