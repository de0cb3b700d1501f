/** Quotients of counts, and the real arithmetic their comparisons need. */
module Ratios {

  /** Total: a zero denominator gives zero. */
  function Ratio(numerator: nat, denominator: nat): real {
    if denominator == 0 then 0.0 else numerator as real / denominator as real
  }

  lemma Quotient(n: real, d: real)
    requires d > 0.0
    ensures (n / d) * d == n
    ensures n / d == 1.0 <==> n == d
    ensures n / d > 0.0 <==> n > 0.0
    ensures n <= d ==> n / d <= 1.0
  {
    var q := n / d;
    Unscaled(1.0, q, d);
    Unscaled(q, 1.0, d);
    Unscaled(q, 0.0, d);
  }

  lemma Unscaled(x: real, y: real, d: real)
    requires d > 0.0
    ensures x * d <= y * d <==> x <= y
  {
  }

  lemma Scaled(x: real, y: real, d: real)
    requires d > 0.0 && x <= y
    ensures x / d <= y / d
  {
    var a, b := x / d, y / d;
    assert a * d == x && b * d == y;
    Unscaled(a, b, d);
  }

  lemma RatioIsAProportion(numerator: nat, denominator: nat)
    requires numerator <= denominator
    ensures Ratio(numerator, denominator) * denominator as real == numerator as real
    ensures 0.0 <= Ratio(numerator, denominator) <= 1.0
    ensures Ratio(numerator, denominator) > 0.0 <==> numerator > 0
    ensures denominator > 0 ==> (Ratio(numerator, denominator) == 1.0 <==> numerator == denominator)
  {
    if denominator > 0 {
      Quotient(numerator as real, denominator as real);
    }
  }

  /** The same count of more is a smaller share. */
  lemma RatioFalls(numerator: nat, fewer: nat, more: nat)
    requires 0 < numerator <= fewer <= more
    ensures Ratio(numerator, more) <= Ratio(numerator, fewer)
  {
    var n, f, m := numerator as real, fewer as real, more as real;
    Quotient(n, f);
    Quotient(n, m);
    assert (n / m) * f <= (n / m) * m;
    Unscaled(n / m, n / f, f);
  }

  /** More of the same beside as much of the other is a larger share. */
  lemma RatioRises(fewer: nat, more: nat, other: nat)
    requires fewer <= more
    ensures Ratio(fewer, fewer + other) <= Ratio(more, more + other)
    ensures fewer < more && other > 0 ==> Ratio(fewer, fewer + other) < Ratio(more, more + other)
  {
    if fewer + other > 0 && fewer < more {
      var f, m, o := fewer as real, more as real, other as real;
      Quotient(f, f + o);
      Quotient(m, m + o);
      var p, q := f / (f + o), m / (m + o);
      assert f * (m + o) <= m * (f + o);
      assert (p * (f + o)) * (m + o) <= (q * (m + o)) * (f + o);
      var d := (f + o) * (m + o);
      assert p * d <= q * d;
      Unscaled(p, q, d);
      Unscaled(q, p, d);
    }
  }

  lemma InverseFalls(x: real, a: real, y: real, b: real)
    requires x * a == 1.0 && y * b == 1.0 && 0.0 < a <= b
    ensures y <= x && (a < b ==> y < x)
  {
    assert y > 0.0;
    assert y * a <= y * b == x * a;
    assert a < b ==> y * a < y * b;
    Unscaled(y, x, a);
    Unscaled(x, y, a);
  }
}
