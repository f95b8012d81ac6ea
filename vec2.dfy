/**
  The part of glam's `Vec2` that the core uses, over reals. `length`,
  `normalize` and `clamp_length_max` go through the caller's `sqrt`.
*/
module Vectors {
  import opened Numeric

  datatype Vec2 = Vec2(x: real, y: real)
  {
    function Plus(v: Vec2): Vec2 { Vec2(x + v.x, y + v.y) }

    function Minus(v: Vec2): Vec2 { Vec2(x - v.x, y - v.y) }

    function Neg(): Vec2 { Vec2(-x, -y) }

    /** `self * k` */
    function Scale(k: real): Vec2 { Vec2(x * k, y * k) }

    function LengthSquared(): real { x * x + y * y }

    function Length(lib: MathLib): (r: real)
      requires lib.Lawful()
      ensures 0.0 <= r && r * r == LengthSquared()
    {
      LengthSquaredNonNegative(this);
      lib.sqrt(LengthSquared())
    }

    /**
      `normalize`: the unit vector pointing the same way (`self * (1 / len)`);
      glam leaves it undefined for the zero vector, hence the precondition.
    */
    function Normalize(lib: MathLib): (r: Vec2)
      requires lib.Lawful() && 0.0 < Length(lib)
      ensures r.LengthSquared() == 1.0
      ensures r.Scale(Length(lib)) == this
    {
      var len := Length(lib);
      var r := Scale(1.0 / len);
      ScaleLengthSquared(this, 1.0 / len);
      assert (1.0 / len) * (1.0 / len) * (len * len) == 1.0 by {
        MulInverse(1.0, len);
        SquareOfProduct(1.0 / len, len);
      }
      MulInverse(x, len);
      MulInverse(y, len);
      r
    }

    /**
      `clamp_length_max`: the vector itself if no longer than `max`, otherwise
      `max * (self / len)`, the vector of length `max` pointing the same way.
    */
    function ClampLengthMax(lib: MathLib, max: real): (r: Vec2)
      requires lib.Lawful() && 0.0 <= max
      ensures LengthSquared() <= max * max ==> r == this
      ensures max * max < LengthSquared() ==> r.LengthSquared() == max * max
    {
      var lengthSq := LengthSquared();
      if lengthSq > max * max then
        ClampedLength(lib, this, max);
        Scale(max / lib.sqrt(lengthSq))
      else
        this
    }
  }

  const ZERO: Vec2 := Vec2(0.0, 0.0)

  /** `Vec2::from_angle`: the unit vector at `angle` radians. */
  function FromAngle(lib: MathLib, angle: real): Vec2 {
    Vec2(lib.cos(angle), lib.sin(angle))
  }

  /** `Vec2::to_angle`: the angle of `v`, as `atan2(y, x)`. */
  function ToAngle(lib: MathLib, v: Vec2): real {
    lib.atan2(v.y, v.x)
  }

  /** A squared length is never negative. */
  lemma LengthSquaredNonNegative(v: Vec2)
    ensures 0.0 <= v.LengthSquared()
  {
    SquareNonNegative(v.x);
    SquareNonNegative(v.y);
  }

  /** Scaling multiplies the squared length by the square of the factor. */
  lemma ScaleLengthSquared(v: Vec2, k: real)
    ensures v.Scale(k).LengthSquared() == (k * k) * v.LengthSquared()
  {
    SquareOfProduct(v.x, k);
    SquareOfProduct(v.y, k);
  }

  /** What `clamp_length_max` returns when it shortens has length exactly `max`. */
  lemma ClampedLength(lib: MathLib, v: Vec2, max: real)
    requires lib.Lawful() && 0.0 <= max && max * max < v.LengthSquared()
    ensures 0.0 < lib.sqrt(v.LengthSquared())
    ensures v.Scale(max / lib.sqrt(v.LengthSquared())).LengthSquared() == max * max
  {
    SquareNonNegative(max);
    SqrtPositive(lib, v.LengthSquared());
    var len := v.Length(lib);
    var k := max / len;
    DivMul(max, len);
    ScaleLengthSquared(v, k);
    SquareOfProduct(k, len);
  }

  /** Scaling by a non-negative factor scales the length by that factor. */
  lemma LengthScale(lib: MathLib, v: Vec2, k: real)
    requires lib.Lawful() && 0.0 <= k
    ensures v.Scale(k).Length(lib) == k * v.Length(lib)
  {
    var len := v.Length(lib);
    var w := v.Scale(k);
    assert w.LengthSquared() == (k * len) * (k * len) by {
      ScaleLengthSquared(v, k);
      ScaledSquare(k, v.LengthSquared(), len);
    }
    MulNonNegative(k, len);
    SqrtOfSquare(lib, w.LengthSquared(), k * len);
  }

  /** A unit vector has length one. */
  lemma UnitLength(lib: MathLib, v: Vec2)
    requires lib.Lawful() && v.LengthSquared() == 1.0
    ensures v.Length(lib) == 1.0
  {
    SqrtOfSquare(lib, v.LengthSquared(), 1.0);
  }

  /** Cauchy-Schwarz on components, through Lagrange's identity. */
  lemma DotAtMostProduct(a: real, b: real, c: real, d: real, lu: real, lv: real)
    requires 0.0 <= lu && lu * lu == a * a + b * b
    requires 0.0 <= lv && lv * lv == c * c + d * d
    ensures a * c + b * d <= lu * lv
  {
    var dot := a * c + b * d;
    var cross := a * d - b * c;
    assert (lu * lv) * (lu * lv) == dot * dot + cross * cross by {
      SquareOfProduct(lu, lv);
      MulEqual(lu * lu, lv * lv, a * a + b * b, c * c + d * d);
      Lagrange(a, b, c, d);
    }
    SquareNonNegative(cross);
    MulNonNegative(lu, lv);
    if lu * lv < dot {
      SquareStrictMonotone(lu * lv, dot);
    }
  }

  /** A squared length bounded by `max * max` gives a length bounded by `max`. */
  lemma LengthAtMost(lib: MathLib, v: Vec2, max: real)
    requires lib.Lawful() && 0.0 <= max
    requires v.LengthSquared() <= max * max
    ensures v.Length(lib) <= max
  {
    LengthSquaredNonNegative(v);
    SqrtMonotone(lib, v.LengthSquared(), max * max);
    SqrtOfSquare(lib, max * max, max);
  }

  /** `normalize` multiplies by the reciprocal of the length. */
  lemma NormalizeIsScale(lib: MathLib, v: Vec2)
    requires lib.Lawful() && 0.0 < v.Length(lib)
    ensures v.Normalize(lib) == v.Scale(1.0 / v.Length(lib))
  {
  }

  /** A vector longer than `max` is clamped by the factor `max / len`. */
  lemma ClampIsScale(lib: MathLib, v: Vec2, max: real)
    requires lib.Lawful() && 0.0 <= max && max * max < v.LengthSquared()
    ensures v.ClampLengthMax(lib, max) == v.Scale(max / lib.sqrt(v.LengthSquared()))
  {
  }

  /** A vector whose squared length is at most `max * max` is not clamped. */
  lemma ClampWithinMax(lib: MathLib, v: Vec2, max: real)
    requires lib.Lawful() && 0.0 <= max && v.LengthSquared() <= max * max
    ensures v.ClampLengthMax(lib, max) == v
  {
  }

  /** The triangle inequality. */
  lemma LengthOfSum(lib: MathLib, u: Vec2, v: Vec2)
    requires lib.Lawful()
    ensures u.Plus(v).Length(lib) <= u.Length(lib) + v.Length(lib)
  {
    PlusLengthSquared(u, v);
    TriangleOnComponents(u.x, u.y, v.x, v.y, u.Length(lib), v.Length(lib), u.Plus(v).Length(lib));
  }

  /** The triangle inequality on components, for lengths given by their squares. */
  lemma TriangleOnComponents(a: real, b: real, c: real, d: real, lu: real, lv: real, lw: real)
    requires 0.0 <= lu && lu * lu == a * a + b * b
    requires 0.0 <= lv && lv * lv == c * c + d * d
    requires 0.0 <= lw && lw * lw == (a + c) * (a + c) + (b + d) * (b + d)
    ensures lw <= lu + lv
  {
    DotAtMostProduct(a, b, c, d, lu, lv);
    SumSquareAtMost(a, b, c, d, lu, lv);
    if lu + lv < lw {
      SquareStrictMonotone(lu + lv, lw);
    }
  }

  /** The squared length of a sum, written out on components. */
  lemma PlusLengthSquared(u: Vec2, v: Vec2)
    ensures u.Plus(v).LengthSquared() == (u.x + v.x) * (u.x + v.x) + (u.y + v.y) * (u.y + v.y)
  {
  }

  /** The squared length of a sum, bounded on components. */
  lemma SumSquareAtMost(a: real, b: real, c: real, d: real, lu: real, lv: real)
    requires lu * lu == a * a + b * b
    requires lv * lv == c * c + d * d
    requires a * c + b * d <= lu * lv
    ensures (a + c) * (a + c) + (b + d) * (b + d) <= (lu + lv) * (lu + lv)
  {
    assert (a + c) * (a + c) + (b + d) * (b + d)
        == (a * a + b * b) + 2.0 * (a * c + b * d) + (c * c + d * d);
    assert (lu + lv) * (lu + lv) == lu * lu + 2.0 * (lu * lv) + lv * lv;
  }
}
