/** Rounding to a number of decimals, as far as any caller relies on it.

    How a tie is broken is left open: the result is on the grid, at most half a unit away, and larger
    numbers do not round lower. */
module Rounding {
  import opened Ratios

  ghost predicate Whole(x: real) {
    x.Floor as real == x
  }

  /** One over the unit of the last place kept. */
  const SIX := 1000000.0
  const NINE := 1000000000.0

  ghost predicate WholeMillionths(x: real) {
    Whole(x * SIX)
  }

  /** On the grid, and at most half a unit away. */
  ghost predicate Lands(rounded: real, x: real, scale: real) {
    Whole(rounded * scale) && -0.5 <= (rounded - x) * scale <= 0.5
  }

  ghost predicate Rounds(round: real -> real, scale: real) {
    && (forall x :: Lands(round(x), x, scale))
    && (forall x, y :: x <= y ==> round(x) <= round(y))
  }

  lemma WholeApart(a: real, b: real)
    requires Whole(a) && Whole(b) && -1.0 < a - b < 1.0
    ensures a == b
  {
    var i, j := a.Floor, b.Floor;
    assert (i - j) as real == a - b;
  }

  lemma FixedAtSix(round: real -> real, x: real)
    requires Rounds(round, SIX) && Whole(x * SIX)
    ensures round(x) == x
  {
    assert Whole(round(x) * SIX) && -0.5 <= (round(x) - x) * SIX <= 0.5;
    WholeApart(round(x) * SIX, x * SIX);
  }

  lemma FixedAtNine(round: real -> real, x: real)
    requires Rounds(round, NINE) && Whole(x * NINE)
    ensures round(x) == x
  {
    assert Whole(round(x) * NINE) && -0.5 <= (round(x) - x) * NINE <= 0.5;
    WholeApart(round(x) * NINE, x * NINE);
  }

  /** A proportion rounds to a proportion. */
  lemma ProportionsStay(round: real -> real, x: real)
    requires Rounds(round, SIX) && 0.0 <= x <= 1.0
    ensures 0.0 <= round(x) <= 1.0
  {
    FixedAtSix(round, 0.0);
    FixedAtSix(round, 1.0);
  }

  /** One way of rounding, so that what is said of every way is said of some. */
  function Nearest(x: real, scale: real): real
    requires scale > 0.0
  {
    (x * scale + 0.5).Floor as real / scale
  }

  function HalfUp(scale: real): real -> real
    requires scale > 0.0
  {
    (x: real) => Nearest(x, scale)
  }

  lemma HalfUpRounds(scale: real)
    requires scale > 0.0
    ensures Rounds(HalfUp(scale), scale)
  {
    hide Nearest, Lands;
    var round := HalfUp(scale);
    forall x ensures Lands(round(x), x, scale) {
      NearestAt(x, scale);
    }
    forall x, y | x <= y ensures round(x) <= round(y) {
      NearestKeepsOrder(x, y, scale);
    }
  }

  lemma NearestAt(x: real, scale: real)
    requires scale > 0.0
    ensures Lands(Nearest(x, scale), x, scale)
  {
    var n := (x * scale + 0.5).Floor;
    Quotient(n as real, scale);
    assert (n as real).Floor == n;
    assert (Nearest(x, scale) - x) * scale == n as real - x * scale;
  }

  lemma NearestKeepsOrder(x: real, y: real, scale: real)
    requires scale > 0.0 && x <= y
    ensures Nearest(x, scale) <= Nearest(y, scale)
  {
    Unscaled(x, y, scale);
    FloorKeepsOrder(x * scale + 0.5, y * scale + 0.5);
    Scaled((x * scale + 0.5).Floor as real, (y * scale + 0.5).Floor as real, scale);
  }

  lemma FloorKeepsOrder(a: real, b: real)
    requires a <= b
    ensures a.Floor <= b.Floor
  {
    assert a.Floor as real < b.Floor as real + 1.0 == (b.Floor + 1) as real;
  }
}
