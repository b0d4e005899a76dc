/** The share `part / whole` of a non-negative part of a positive whole. */
module Ratios {
  /** A part no larger than its positive whole is a share in [0, 1]. */
  lemma ShareInUnit(part: int, whole: int)
    requires 0 <= part <= whole && whole > 0
    ensures 0.0 <= part as real / whole as real <= 1.0
  {
    var q := part as real / whole as real;
    assert q * whole as real == part as real;
  }
}
