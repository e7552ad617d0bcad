/**
 * The JavaScript numeric operations the widget relies on, stated over
 * mathematical reals and integers.  `Math.sin`, `Math.cos` and `Math.sqrt`
 * are not computable here; they are passed around as a `MathLib` value whose
 * laws (`Bounded`, `Pythagorean`, `ExactRoot`, `RootNonNegative`) are the
 * only facts the model uses about them.
 */
module JsMath {

  /** `Math.PI`, as the double literal JavaScript uses. */
  const PI: real := 3.141592653589793

  /** The transcendental functions the source calls, supplied by the host. */
  datatype MathLib = MathLib(sin: real -> real, cos: real -> real, sqrt: real -> real)

  /** `Math.sin` and `Math.cos` stay within [-1, 1]. */
  ghost predicate Bounded(m: MathLib) {
    (forall t :: -1.0 <= m.sin(t) <= 1.0) &&
    (forall t :: -1.0 <= m.cos(t) <= 1.0)
  }

  /** `Math.cos` and `Math.sin` of one angle give a point on the unit circle. */
  ghost predicate Pythagorean(m: MathLib) {
    forall t :: m.sin(t) * m.sin(t) + m.cos(t) * m.cos(t) == 1.0
  }

  /** `Math.sqrt` of a non-negative number is its non-negative square root. */
  ghost predicate ExactRoot(m: MathLib) {
    forall v :: 0.0 <= v ==> 0.0 <= m.sqrt(v) && m.sqrt(v) * m.sqrt(v) == v
  }

  /** `Math.sqrt` of a non-negative number is non-negative (implied by `ExactRoot`). */
  ghost predicate RootNonNegative(m: MathLib) {
    forall v :: 0.0 <= v ==> 0.0 <= m.sqrt(v)
  }

  /** `Math.min` and `Math.max` on numbers. */
  function Min(a: real, b: real): (r: real)
    ensures r <= a && r <= b && (r == a || r == b)
  {
    if a <= b then a else b
  }

  function Max(a: real, b: real): (r: real)
    ensures a <= r && b <= r && (r == a || r == b)
  {
    if a >= b then a else b
  }

  /** `Math.min` and `Math.max` on the integral pixel coordinates and counts. */
  function MinInt(a: int, b: int): (r: int)
    ensures r <= a && r <= b && (r == a || r == b)
  {
    if a <= b then a else b
  }

  function MaxInt(a: int, b: int): (r: int)
    ensures a <= r && b <= r && (r == a || r == b)
  {
    if a >= b then a else b
  }

  /** `Math.abs`. */
  function Abs(a: real): (r: real)
    ensures 0.0 <= r && (r == a || r == -a)
  {
    if a < 0.0 then -a else a
  }

  /** `Math.floor`. */
  function Floor(x: real): (n: int)
    ensures n as real <= x < n as real + 1.0
  {
    x.Floor
  }

  /** `Math.ceil`. */
  function Ceil(x: real): (n: int)
    ensures x <= n as real < x + 1.0
  {
    -((-x).Floor)
  }

  /** `Math.round`: the nearest integer, halves rounded towards +infinity. */
  function Round(x: real): (n: int)
    ensures n as real - 0.5 <= x < n as real + 0.5
  {
    (x + 0.5).Floor
  }

  /** Truncation towards zero, as in JavaScript's `%` and integer conversions. */
  function Trunc(x: real): (n: int)
    ensures 0.0 <= x ==> n as real <= x < n as real + 1.0
    ensures x < 0.0 ==> n as real - 1.0 < x <= n as real
  {
    if 0.0 <= x then x.Floor else -((-x).Floor)
  }

  /**
   * JavaScript's `x % m` on numbers, for a positive modulus: the remainder
   * of truncating division, whose sign follows the dividend.
   */
  function Rem(x: real, m: real): (r: real)
    requires 0.0 < m
    ensures 0.0 <= x ==> 0.0 <= r < m
    ensures x < 0.0 ==> -m < r <= 0.0
  {
    var q := Trunc(x / m);
    RemBounds(x, m, q);
    x - q as real * m
  }

  lemma RemBounds(x: real, m: real, q: int)
    requires 0.0 < m && q == Trunc(x / m)
    ensures 0.0 <= x ==> 0.0 <= x - q as real * m < m
    ensures x < 0.0 ==> -m < x - q as real * m <= 0.0
  {
    var t := x / m;
    var f := t - q as real;
    assert x - q as real * m == f * m by {
      assert x == t * m;
    }
    if 0.0 <= x {
      ScaleUnit(x - q as real * m, f, m);
    } else {
      ScaleUnit(q as real * m - x, -f, m);
    }
  }

  /** A fraction of a positive quantity stays below it. */
  lemma ScaleUnit(y: real, f: real, m: real)
    requires 0.0 < m && 0.0 <= f < 1.0 && y == f * m
    ensures 0.0 <= y < m
  {
    assert 0.0 < (1.0 - f) * m;
    assert m - f * m == (1.0 - f) * m;
  }

  /** JavaScript's `a % m` on integral numbers, for a positive modulus. */
  function RemInt(a: int, m: int): (r: int)
    requires 0 < m
    ensures 0 <= a ==> r == a % m
    ensures a < 0 ==> -m < r <= 0
  {
    if 0 <= a then a % m else -((-a) % m)
  }

  /** A square is never negative and vanishes only at zero. */
  lemma Square(a: real)
    ensures 0.0 <= a * a
    ensures a != 0.0 ==> 0.0 < a * a
  {
    if a < 0.0 {
      assert 0.0 < (-a) * (-a) == a * a;
    } else if 0.0 < a {
      assert 0.0 < a * a;
    }
  }

  /** The range of `Math.random()`: [0, 1). */
  predicate IsUnit(r: real) {
    0.0 <= r < 1.0
  }

  /** Multiplying by a non-negative factor keeps an order. */
  lemma MulLeft(c: real, a: real, b: real)
    requires 0.0 <= c && a <= b
    ensures c * a <= c * b
  {
    assert c * b - c * a == c * (b - a);
  }

  /** Multiplying by a positive factor keeps a strict order. */
  lemma MulLeftStrict(c: real, a: real, b: real)
    requires 0.0 < c && a < b
    ensures a * c < b * c
  {
    assert b * c - a * c == (b - a) * c;
  }

  /** Squaring is monotone on non-negative numbers. */
  lemma SquareMonotone(a: real, b: real)
    requires 0.0 <= a <= b
    ensures a * a <= b * b
  {
    MulLeft(a, a, b);
    MulLeft(b, a, b);
    assert a * b == b * a;
  }

  /** Squaring is strictly monotone on non-negative numbers. */
  lemma SquareMonotoneStrict(a: real, b: real)
    requires 0.0 <= a < b
    ensures a * a < b * b
  {
    MulLeftStrict(b + a, 0.0, b - a);
    assert b * b - a * a == (b - a) * (b + a);
  }
}
