/** Products and quotients of reals. */
module Reals {

  lemma MulLe(a: real, b: real, c: real)
    requires a <= b && c >= 0.0
    ensures a * c <= b * c
  {
    assert b * c - a * c == (b - a) * c;
  }

  lemma MulCancel(a: real, b: real, c: real)
    requires c > 0.0 && a * c <= b * c
    ensures a <= b
  {
    assert (b - a) * c == b * c - a * c;
  }

  lemma DivideBetween(lo: real, sum: real, weight: real, hi: real)
    requires weight > 0.0 && lo * weight <= sum <= hi * weight
    ensures lo <= sum / weight <= hi
  {
    var q := sum / weight;
    assert q * weight == sum;
    MulCancel(lo, q, weight);
    MulCancel(q, hi, weight);
  }
}
