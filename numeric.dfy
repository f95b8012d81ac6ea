/**
  Numbers as the simulation sees them. Every `f32` of the program is a `real`
  here; the handful of library routines the core calls (`exp`, `sqrt`, `cos`,
  `sin`, `atan2`) are supplied by the caller as a `MathLib` value, of which only
  the laws in `MathLib.Lawful` are assumed.
*/
module Numeric {

  /** `std::f32::consts::PI`, the exact value of the `f32` nearest to pi. */
  const PI: real := 3.1415927410125732421875
  /** `std::f32::consts::TAU`; in `f32` it is exactly twice `PI`. */
  const TAU: real := 2.0 * PI
  /** `f32::MAX`, used by the raycast as "no wall in that direction". */
  const F32_MAX: real := 340282346638528859811704183484516925440.0

  /** The range of Rust's `u32`. */
  type U32 = x: int | 0 <= x < 0x1_0000_0000

  /**
    The floating-point library routines the core calls. `atan2(y, x)` is the
    angle of the vector `(x, y)`, as `Vec2::to_angle` computes it.
  */
  datatype MathLib = MathLib(
    exp: real -> real,
    sqrt: real -> real,
    cos: real -> real,
    sin: real -> real,
    atan2: (real, real) -> real)
  {
    /** The only facts about the library routines that the model relies on. */
    ghost predicate Lawful() {
      && (forall x :: 0.0 < exp(x))
      && (forall x :: x <= 0.0 ==> exp(x) <= 1.0)
      && (forall x :: 0.0 <= x ==> 0.0 <= sqrt(x) && sqrt(x) * sqrt(x) == x)
    }
  }

  function Abs(x: real): (r: real)
    ensures 0.0 <= r && (r == x || r == -x)
  {
    if x < 0.0 then -x else x
  }

  function Min(a: real, b: real): (r: real)
    ensures r <= a && r <= b && (r == a || r == b)
  {
    if a <= b then a else b
  }

  function Max(a: real, b: real): (r: real)
    ensures a <= r && b <= r && (r == a || r == b)
  {
    if a <= b then b else a
  }

  /** A product of two positive reals is positive. */
  lemma MulPositive(a: real, b: real)
    requires 0.0 < a && 0.0 < b
    ensures 0.0 < a * b
  {
  }

  /** A product of two non-negative reals is non-negative. */
  lemma MulNonNegative(a: real, b: real)
    requires 0.0 <= a && 0.0 <= b
    ensures 0.0 <= a * b
  {
    if 0.0 < a && 0.0 < b {
      MulPositive(a, b);
    }
  }

  /** A square is never negative. */
  lemma SquareNonNegative(a: real)
    ensures 0.0 <= a * a
  {
    if a < 0.0 {
      MulPositive(-a, -a);
      assert (-a) * (-a) == a * a;
    } else {
      MulNonNegative(a, a);
    }
  }

  /** The square of a product is the product of the squares. */
  lemma SquareOfProduct(a: real, b: real)
    ensures (a * b) * (a * b) == (a * a) * (b * b)
  {
  }

  /** Rewriting a square inside a scaled product. */
  lemma ScaledSquare(k: real, s: real, len: real)
    requires s == len * len
    ensures (k * k) * s == (k * len) * (k * len)
  {
  }

  /** Equal factors give equal products. */
  lemma MulEqual(p: real, q: real, p': real, q': real)
    requires p == p' && q == q'
    ensures p * q == p' * q'
  {
  }

  /** Lagrange's identity for two pairs of reals. */
  lemma Lagrange(a: real, b: real, c: real, d: real)
    ensures (a * a + b * b) * (c * c + d * d)
         == (a * c + b * d) * (a * c + b * d) + (a * d - b * c) * (a * d - b * c)
  {
    assert (a * a + b * b) * (c * c + d * d)
        == a * a * (c * c) + a * a * (d * d) + b * b * (c * c) + b * b * (d * d);
    assert (a * c + b * d) * (a * c + b * d)
        == (a * c) * (a * c) + 2.0 * (a * c) * (b * d) + (b * d) * (b * d);
    assert (a * d - b * c) * (a * d - b * c)
        == (a * d) * (a * d) - 2.0 * (a * d) * (b * c) + (b * c) * (b * c);
  }

  /** Multiplying by the inverse and back. */
  lemma MulInverse(x: real, m: real)
    requires m != 0.0
    ensures (x * (1.0 / m)) * m == x
  {
  }

  /** Multiplying both sides of `a <= b` by a positive factor. */
  lemma MulMonotone(a: real, b: real, c: real)
    requires a <= b && 0.0 < c
    ensures a * c <= b * c
  {
    assert b * c - a * c == (b - a) * c;
  }

  /** Multiplying both sides of `a < b` by a positive factor. */
  lemma MulMonotoneStrict(a: real, b: real, c: real)
    requires a < b && 0.0 < c
    ensures a * c < b * c
  {
    MulPositive(b - a, c);
    assert b * c - a * c == (b - a) * c;
  }

  /** Squaring is strictly monotone on the non-negative reals. */
  lemma SquareStrictMonotone(a: real, b: real)
    requires 0.0 <= a < b
    ensures a * a < b * b
  {
    MulPositive(b - a, b + a);
    assert b * b - a * a == (b - a) * (b + a);
  }

  /** A square bounded through a bounded base. */
  lemma SquareAtMost(a: real, b: real, s: real)
    requires 0.0 <= a <= b && b * b == s
    ensures a * a <= s
  {
    if a < b {
      SquareStrictMonotone(a, b);
    }
  }

  /** Division is multiplication by the inverse. */
  lemma DivAsMul(a: real, b: real)
    requires b != 0.0
    ensures a / b == a * (1.0 / b)
  {
  }

  /** Real division undone by multiplication. */
  lemma DivMul(x: real, m: real)
    requires m != 0.0
    ensures (x / m) * m == x
  {
  }

  /** A non-positive number over a positive product is non-positive. */
  lemma QuotientNonPositive(n: real, d: real, a: real, b: real)
    requires n <= 0.0 && d == a * b && 0.0 < a * b
    ensures n / d <= 0.0
  {
  }

  /** A quotient of two numbers of the same strict sign is positive. */
  lemma QuotientOfSameSign(n: real, d: real)
    requires (n < 0.0 && d < 0.0) || (0.0 < n && 0.0 < d)
    ensures 0.0 < n / d
  {
  }

  /** Dividing by something larger lands in the unit interval. */
  lemma DivUnitInterval(r: real, m: real)
    requires 0.0 <= r < m
    ensures 0.0 <= r / m < 1.0
  {
  }

  /** Division distributes over a sum whose second term is a multiple of the divisor. */
  lemma DivSum(r: real, k: real, m: real)
    requires m != 0.0
    ensures (r + k * m) / m == r / m + k
  {
  }

  /** `d` is a whole number of `m`s. */
  ghost predicate WholeMultiple(d: real, m: real)
    requires m > 0.0
  {
    (d / m).Floor as real == d / m
  }

  lemma FloorShift(y: real)
    ensures (y + 1.0).Floor == y.Floor + 1
  {
  }

  /** One more `m` keeps a whole multiple of `m` whole. */
  lemma WholeMultipleShift(d: real, m: real)
    requires m > 0.0 && WholeMultiple(d, m)
    ensures WholeMultiple(d + m, m)
  {
    var y := d / m;
    DivSum(d, 1.0, m);
    assert (d + m) / m == y + 1.0;
    FloorShift(y);
  }

  /** The difference of two whole multiples of `m` is a whole multiple of `m`. */
  lemma WholeMultipleDifference(d1: real, d2: real, m: real)
    requires m > 0.0 && WholeMultiple(d1, m) && WholeMultiple(d2, m)
    ensures WholeMultiple(d1 - d2, m)
  {
    var k1, k2 := (d1 / m).Floor, (d2 / m).Floor;
    assert (d1 - d2) / m == (k1 - k2) as real;
  }

  /** Negating the dividend negates the quotient. */
  lemma DivNegate(d: real, m: real)
    requires m != 0.0
    ensures (-d) / m == -(d / m)
  {
  }

  /** The only whole multiple of `m` strictly between `-m` and `m` is zero. */
  lemma WholeMultipleSmall(d: real, m: real)
    requires m > 0.0 && WholeMultiple(d, m) && -m < d < m
    ensures d == 0.0
  {
    DivMul(d, m);
    if d < 0.0 {
      DivNegate(d, m);
      DivUnitInterval(-d, m);
      assert false;
    }
    DivUnitInterval(d, m);
  }

  /**
    `f32::rem_euclid` for a positive modulus: the representative of `x` modulo
    `m` that lies in `[0, m)`.
  */
  function RemEuclid(x: real, m: real): (r: real)
    requires m > 0.0
    ensures 0.0 <= r < m
    ensures WholeMultiple(x - r, m)
  {
    var y := x / m;
    var q := y.Floor as real;
    var r := x - q * m;
    assert 0.0 <= r < m by {
      var f := y - q;
      assert 0.0 <= f < 1.0;
      DivMul(x, m);
      assert r == f * m;
      MulMonotone(0.0, f, m);
      MulPositive(1.0 - f, m);
      assert (1.0 - f) * m == m - f * m;
    }
    assert (x - r) / m == q by {
      DivSum(0.0, q, m);
      assert x - r == q * m;
    }
    r
  }

  /**
    `RemEuclid` is the only value in `[0, m)` that differs from `x` by a whole
    number of `m`s.
  */
  lemma RemEuclidUnique(x: real, m: real, k: int, r: real)
    requires m > 0.0
    requires 0.0 <= r < m
    requires x == r + (k as real) * m
    ensures RemEuclid(x, m) == r
  {
    DivSum(r, k as real, m);
    DivUnitInterval(r, m);
    assert (x / m).Floor == k;
  }

  /** The square root of a square is the base, for a non-negative base. */
  lemma SqrtOfSquare(lib: MathLib, s: real, a: real)
    requires lib.Lawful()
    requires 0.0 <= a && s == a * a
    ensures lib.sqrt(s) == a
  {
    SquareNonNegative(a);
    var r := lib.sqrt(s);
    assert 0.0 <= r && r * r == a * a;
    if r < a {
      SquareStrictMonotone(r, a);
    } else if a < r {
      SquareStrictMonotone(a, r);
    }
  }

  /** `sqrt` is monotone on the non-negative reals. */
  lemma SqrtMonotone(lib: MathLib, a: real, b: real)
    requires lib.Lawful()
    requires 0.0 <= a <= b
    ensures lib.sqrt(a) <= lib.sqrt(b)
  {
    var ra, rb := lib.sqrt(a), lib.sqrt(b);
    assert 0.0 <= ra && ra * ra == a;
    assert 0.0 <= rb && rb * rb == b;
    if rb < ra {
      SquareStrictMonotone(rb, ra);
    }
  }

  /** A root squared back equals the number, so a zero root means a zero number. */
  lemma SqrtPositive(lib: MathLib, a: real)
    requires lib.Lawful()
    requires 0.0 < a
    ensures 0.0 < lib.sqrt(a)
  {
    var r := lib.sqrt(a);
    assert r * r == a;
  }
}
