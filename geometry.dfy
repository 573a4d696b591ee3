/** The floating-point library functions the integrators call (`Math.hypot`,
    `Math.atan2`, `Math.PI`), JavaScript's remainder operator and the
    floored remainder.
    The library functions are parameters: a `Geo` value carries them, and
    `Valid` states the only facts the integrators rely on. */
module Geometry {

  datatype Geo = Geo(
    hypot2: (real, real) -> real,
    hypot3: (real, real, real) -> real,
    atan2: (real, real) -> real,
    pi: real)

  /** `Math.hypot` is never negative, `Math.PI` is positive and
      `Math.atan2` lies in [-pi, pi] (the lower end is reached at `atan2(-0, -1)`). */
  ghost predicate Valid(g: Geo) {
    && g.pi > 0.0
    && (forall a, b :: g.hypot2(a, b) >= 0.0)
    && (forall a, b, c :: g.hypot3(a, b, c) >= 0.0)
    && (forall y, x :: -g.pi <= g.atan2(y, x) <= g.pi)
  }

  function Abs(x: real): (r: real)
    ensures r >= 0.0 && (r == x || r == -x)
  {
    if x < 0.0 then -x else x
  }

  /** The integer part of `q`, rounded toward zero. */
  function Trunc(q: real): (n: int)
    ensures q >= 0.0 ==> n as real <= q < n as real + 1.0
    ensures q < 0.0 ==> n as real - 1.0 < q <= n as real
  {
    if q >= 0.0 then q.Floor else -((-q).Floor)
  }

  /** `n % d` on JavaScript numbers: the remainder of the quotient
      truncated toward zero, so it takes the sign of `n`. */
  function Rem(n: real, d: real): (r: real)
    requires d > 0.0
    ensures n - r == d * Trunc(n / d) as real
    ensures n >= 0.0 ==> 0.0 <= r < d
    ensures n < 0.0 ==> -d < r <= 0.0
  {
    TruncBounds(n, d);
    n - d * Trunc(n / d) as real
  }

  /** The floored remainder: `n` less the largest multiple of `d` not
      above it, so it never takes the sign of a negative `n`. */
  function Mod(n: real, d: real): (r: real)
    requires d > 0.0
    ensures n - r == d * (n / d).Floor as real
    ensures 0.0 <= r < d
  {
    FloorBounds(n, d);
    n - d * (n / d).Floor as real
  }

  lemma FloorBounds(n: real, d: real)
    requires d > 0.0
    ensures var q := (n / d).Floor as real; q * d <= n < (q + 1.0) * d
  {
    var x := n / d;
    var q := x.Floor as real;
    Quotient(n, d);
    ScaleLe(q, x, d, n);
    ScaleLt(x, q + 1.0, d, n);
  }

  /** For a number that is not negative the two remainders agree. */
  lemma RemIsMod(n: real, d: real)
    requires d > 0.0 && n >= 0.0
    ensures Rem(n, d) == Mod(n, d)
  {
    DivSign(n, d);
  }

  /** `n / d` times `d` is `n`. */
  lemma Quotient(n: real, d: real)
    requires d > 0.0
    ensures (n / d) * d == n
  {
  }

  lemma PositiveProduct(e: real, d: real)
    requires e > 0.0 && d > 0.0
    ensures e * d > 0.0
  {
  }

  /** `a <= b` scaled by a positive `d`, where `b * d` is known as `n`. */
  lemma ScaleLe(a: real, b: real, d: real, n: real)
    requires a <= b && d > 0.0 && b * d == n
    ensures a * d <= n
  {
    if a < b {
      PositiveProduct(b - a, d);
    }
    assert b * d - a * d == (b - a) * d;
  }

  /** `a < b` scaled by a positive `d`, where `a * d` is known as `n`. */
  lemma ScaleLt(a: real, b: real, d: real, n: real)
    requires a < b && d > 0.0 && a * d == n
    ensures n < b * d
  {
    PositiveProduct(b - a, d);
    assert b * d - a * d == (b - a) * d;
  }

  /** `a <= b` scaled by a positive `d`, where `a * d` is known as `n`. */
  lemma ScaleGe(a: real, b: real, d: real, n: real)
    requires a <= b && d > 0.0 && a * d == n
    ensures n <= b * d
  {
    if a < b {
      PositiveProduct(b - a, d);
    }
    assert b * d - a * d == (b - a) * d;
  }

  /** `a < b` scaled by a positive `d`, where `b * d` is known as `n`. */
  lemma ScaleGt(a: real, b: real, d: real, n: real)
    requires a < b && d > 0.0 && b * d == n
    ensures a * d < n
  {
    PositiveProduct(b - a, d);
    assert b * d - a * d == (b - a) * d;
  }

  lemma DivSign(n: real, d: real)
    requires d > 0.0
    ensures n >= 0.0 ==> n / d >= 0.0
    ensures n < 0.0 ==> n / d < 0.0
  {
    var x := n / d;
    Quotient(n, d);
    if x < 0.0 {
      ScaleGt(x, 0.0, d, 0.0);
    }
    if n < 0.0 && x >= 0.0 {
      ScaleGe(0.0, x, d, 0.0);
    }
  }

  lemma TruncBounds(n: real, d: real)
    requires d > 0.0
    ensures var q := Trunc(n / d) as real;
      && (n >= 0.0 ==> q * d <= n < (q + 1.0) * d)
      && (n < 0.0 ==> (q - 1.0) * d < n <= q * d)
  {
    var x := n / d;
    var q := Trunc(x) as real;
    Quotient(n, d);
    DivSign(n, d);
    if n >= 0.0 {
      ScaleLe(q, x, d, n);
      ScaleLt(x, q + 1.0, d, n);
    } else {
      ScaleGt(q - 1.0, x, d, n);
      ScaleGe(x, q, d, n);
    }
  }
}
