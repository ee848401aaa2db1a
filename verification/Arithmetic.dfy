/** Products of integers. */
module Arithmetic {
  lemma ProductSign(a: int, b: int)
    requires a > 0
    ensures b >= 1 ==> a * b >= a
    ensures b <= -1 ==> a * b <= -a
    ensures b == 0 ==> a * b == 0
  {
    if b >= 1 {
      assert a * (b - 1) >= 0;
    } else if b <= -1 {
      assert a * (b + 1) <= 0;
    }
  }

  lemma CancelFactor(g: int, a: int, b: int)
    requires g != 0 && g * a == g * b
    ensures a == b
  {
    assert g * (a - b) == 0;
  }

  lemma MonotoneProduct(a: int, b: int, c: int)
    requires a <= b && c >= 0
    ensures a * c <= b * c
  {
    assert (b - a) * c >= 0;
    assert (b - a) * c == b * c - a * c;
  }
}
