/** The two pieces of JavaScript number arithmetic the page relies on, over exact
    reals: `Math.round` and the `%` operator. */
module JsMath {

  /** `Math.round(x)`: the nearest integer, a half rounded up (towards +infinity). */
  function Round(x: real): (k: int)
    ensures k as real <= x + 0.5 < k as real + 1.0
  {
    (x + 0.5).Floor
  }

  /** `Math.trunc(x)`: the integer part, rounded towards zero. */
  function Trunc(x: real): (k: int)
    ensures 0.0 <= x ==> 0 <= k && k as real <= x < k as real + 1.0
    ensures x < 0.0 ==> k <= 0 && k as real - 1.0 < x <= k as real
  {
    if 0.0 <= x then x.Floor else -((-x).Floor)
  }

  /** The real `x` is a whole number. */
  predicate IsIntegral(x: real)
  {
    x.Floor as real == x
  }

  /** `x` is a whole multiple of the positive unit `u`. */
  predicate IsMultipleOf(x: real, u: real)
    requires u > 0.0
  {
    IsIntegral(x / u)
  }

  /** A whole number of units is a multiple of the unit. */
  lemma ScaledIntegerIsMultiple(k: int, u: real)
    requires u > 0.0
    ensures IsMultipleOf(k as real * u, u)
  {
    Cancel(k as real, u);
    assert (k as real).Floor == k;
  }

  /** `a % b` on numbers: the remainder of the division truncated towards zero,
      so it takes the sign of the dividend (unlike Dafny's Euclidean `%`). */
  function Rem(a: real, b: real): (r: real)
    requires b > 0.0
    ensures 0.0 <= a ==> 0.0 <= r < b
    ensures a < 0.0 ==> -b < r <= 0.0
    ensures IsMultipleOf(a - r, b)
  {
    var q := Trunc(a / b);
    RemParts(a, b, q);
    a - q as real * b
  }

  /** A multiple of `b` leaves no remainder, and a remainder of zero means a multiple. */
  lemma RemZeroIffMultiple(a: real, b: real)
    requires b > 0.0
    ensures Rem(a, b) == 0.0 <==> IsMultipleOf(a, b)
  {
    var q := Trunc(a / b);
    assert Rem(a, b) == a - q as real * b;
    if IsMultipleOf(a, b) {
      var n := (a / b).Floor;
      assert a / b == n as real;
      assert q == n;
      assert a == n as real * b;
    }
    if Rem(a, b) == 0.0 {
      assert a == q as real * b;
      assert a / b == q as real;
    }
  }

  /** The remainder is the fractional part of `a / b` scaled back by `b`. */
  lemma RemParts(a: real, b: real, q: int)
    requires b > 0.0 && q == Trunc(a / b)
    ensures 0.0 <= a ==> 0.0 <= a - q as real * b < b
    ensures a < 0.0 ==> -b < a - q as real * b <= 0.0
    ensures (a - (a - q as real * b)) / b == q as real
  {
    var x := a / b;
    assert a == x * b;
    if 0.0 <= a {
      if x < 0.0 {
        ScaleLt(x, 0.0, b);
      }
      FractionScaledUp(a, b, x, q as real);
    } else {
      if 0.0 <= x {
        ScaleLe(0.0, x, b);
      }
      FractionScaledDown(a, b, x, q as real);
    }
    Cancel(q as real, b);
  }

  /** With `a == x * b` and `x` in `[q, q + 1)`, `a` lies in `[q * b, q * b + b)`. */
  lemma FractionScaledUp(a: real, b: real, x: real, q: real)
    requires b > 0.0 && a == x * b
    requires q <= x && x < q + 1.0
    ensures 0.0 <= a - q * b && a - q * b < b
  {
    var d := x - q;
    assert a - q * b == d * b;
    ScaleLe(0.0, d, b);
    ScaleLt(d, 1.0, b);
    assert d * b < b;
  }

  /** With `a == x * b` and `x` in `(q - 1, q]`, `a` lies in `(q * b - b, q * b]`. */
  lemma FractionScaledDown(a: real, b: real, x: real, q: real)
    requires b > 0.0 && a == x * b
    requires q - 1.0 < x && x <= q
    ensures -b < a - q * b && a - q * b <= 0.0
  {
    var d := x - q;
    assert a - q * b == d * b;
    ScaleLt(-1.0, d, b);
    ScaleLe(d, 0.0, b);
    assert -b < d * b;
  }

  /** Scaling by a positive factor keeps a non-strict order. */
  lemma ScaleLe(x: real, y: real, b: real)
    requires b > 0.0 && x <= y
    ensures x * b <= y * b
  {
    assert (y - x) * b == y * b - x * b;
  }

  /** Scaling by a positive factor keeps a strict order. */
  lemma ScaleLt(x: real, y: real, b: real)
    requires b > 0.0 && x < y
    ensures x * b < y * b
  {
    assert (y - x) * b == y * b - x * b;
  }

  lemma Cancel(q: real, b: real)
    requires b > 0.0
    ensures (q * b) / b == q
  {
  }
}
