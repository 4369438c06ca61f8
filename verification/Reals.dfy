/** Comparing shares, as real numbers. */
module Reals {
  /** Multiplying both sides by something positive; the products are passed in. */
  lemma Scales(a: real, b: real, y: real, ay: real, by_: real)
    requires y > 0.0 && ay == a * y && by_ == b * y
    ensures a < b <==> ay < by_
  {
    if a < b {
      assert (b - a) * y > 0.0;
    } else {
      assert (a - b) * y >= 0.0;
    }
  }
}
