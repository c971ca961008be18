/** Plane vectors and the clamp operation the physics uses. */
module Geometry {

  /** A vector in the plane: a force, an offset between particles or a velocity increment. */
  datatype Vec2 = Vec2(x: real, y: real) {

    /** The opposite vector. */
    function Neg(): Vec2 {
      Vec2(-x, -y)
    }

    /** The componentwise sum. */
    function Add(w: Vec2): Vec2 {
      Vec2(x + w.x, y + w.y)
    }

    /** The vector multiplied componentwise by `c`. */
    function Scale(c: real): Vec2 {
      Vec2(c * x, c * y)
    }
  }

  const Zero: Vec2 := Vec2(0.0, 0.0)

  lemma AddAssociative(u: Vec2, v: Vec2, w: Vec2)
    ensures u.Add(v).Add(w) == u.Add(v.Add(w))
  {
  }

  lemma AddZero(v: Vec2)
    ensures v.Add(Zero) == v
  {
  }

  lemma ZeroAdd(v: Vec2)
    ensures Zero.Add(v) == v
  {
  }

  function Dot(u: Vec2, v: Vec2): real {
    u.x * v.x + u.y * v.y
  }

  function Abs(v: real): real {
    if v < 0.0 then -v else v
  }

  /** Distance between two reals on the line. */
  function Dist(a: real, b: real): real {
    Abs(a - b)
  }

  /** `r` is the point of the closed interval [lo, hi] nearest to `v`. */
  ghost predicate NearestIn(r: real, v: real, lo: real, hi: real) {
    && lo <= r <= hi
    && forall w :: lo <= w <= hi ==> Dist(r, v) <= Dist(w, v)
  }

  /**
   * The float clamp of the source: it insists on `lo <= hi` (it panics
   * otherwise), then sends values below `lo` to `lo` and above `hi` to `hi`.
   */
  function Clamp(v: real, lo: real, hi: real): (r: real)
    requires lo <= hi
    ensures lo <= r <= hi
    ensures lo <= v <= hi ==> r == v
  {
    if v < lo then lo else if v > hi then hi else v
  }

  /** The clamp is the point of the interval nearest to the value. */
  lemma ClampNearest(v: real, lo: real, hi: real)
    requires lo <= hi
    ensures NearestIn(Clamp(v, lo, hi), v, lo, hi)
  {
  }

  /** Clamping to an interval symmetric about zero commutes with negation. */
  lemma ClampOdd(v: real, c: real)
    requires 0.0 <= c
    ensures Clamp(-v, -c, c) == -Clamp(v, -c, c)
  {
  }

  lemma MulPositive(a: real, b: real)
    requires 0.0 < a && 0.0 < b
    ensures 0.0 < a * b
  {
  }

  /** The squared length of a vector: its dot product with itself. */
  function SquaredLength(v: Vec2): real {
    Dot(v, v)
  }

  lemma MulNegative(a: real, b: real)
    requires a < 0.0 && b < 0.0
    ensures 0.0 < a * b
  {
  }

  /** The product of a number with itself, written with two names for it, is a square. */
  lemma SelfProductSign(a: real, b: real)
    requires a == b
    ensures a * b >= 0.0
    ensures a != 0.0 ==> a * b > 0.0
  {
    if a > 0.0 {
      MulPositive(a, b);
    } else if a < 0.0 {
      MulNegative(a, b);
    }
  }

  /** A sum of two squares is never negative, and is zero exactly when both numbers are. */
  lemma SumOfSquaresSign(a: real, b: real, c: real, d: real, s: real)
    requires a == b && c == d
    requires s == a * b + c * d
    ensures s >= 0.0
    ensures s == 0.0 <==> a == 0.0 && c == 0.0
  {
    SelfProductSign(a, b);
    SelfProductSign(c, d);
  }

  /** A vector's dot product with itself is never negative, and is zero exactly for the zero vector. */
  lemma DotSelfSign(u: Vec2, v: Vec2)
    requires u == v
    ensures Dot(u, v) >= 0.0
    ensures Dot(u, v) == 0.0 <==> u == Zero
  {
    SumOfSquaresSign(u.x, v.x, u.y, v.y, Dot(u, v));
  }

  /** The squared length is never negative, and is zero exactly for the zero vector. */
  lemma SquaredLengthSign(v: Vec2)
    ensures SquaredLength(v) >= 0.0
    ensures SquaredLength(v) == 0.0 <==> v == Zero
  {
    DotSelfSign(v, v);
  }

  /** Reversing a vector keeps its squared length. */
  lemma SquaredLengthNeg(v: Vec2)
    ensures SquaredLength(v.Neg()) == SquaredLength(v)
  {
  }

  /** Dividing a product by `d` is scaling by the quotient. */
  lemma DivideProduct(q: real, v: real, d: real)
    requires d != 0.0
    ensures q * v / d == (q / d) * v
  {
  }

  /** A quotient by a positive number keeps the sign of the numerator. */
  lemma QuotientSign(q: real, d: real)
    requires d > 0.0
    ensures q > 0.0 ==> q / d > 0.0
    ensures q < 0.0 ==> q / d < 0.0
    ensures q == 0.0 ==> q / d == 0.0
  {
  }

  /** `u` and `v` lie on one line through the origin. */
  predicate Parallel(u: Vec2, v: Vec2) {
    u.x * v.y == u.y * v.x
  }

  /** A scaled vector is parallel to the original. */
  lemma ScaleParallel(v: Vec2, c: real)
    ensures Parallel(v.Scale(c), v)
  {
    assert (c * v.x) * v.y == (c * v.y) * v.x;
  }

  /** Scaling commutes with negation. */
  lemma ScaleNeg(v: Vec2, c: real)
    ensures v.Neg().Scale(c) == v.Scale(c).Neg()
  {
    assert c * (-v.x) == -(c * v.x);
    assert c * (-v.y) == -(c * v.y);
  }

  /** A scaled non-zero vector is zero exactly when the factor is. */
  lemma ScaleZero(v: Vec2, c: real)
    requires v.x != 0.0 || v.y != 0.0
    ensures v.Scale(c) == Zero <==> c == 0.0
  {
    if c != 0.0 && v.x != 0.0 {
      assert c * v.x != 0.0;
    }
    if c != 0.0 && v.y != 0.0 {
      assert c * v.y != 0.0;
    }
  }

  /** The scaled vector's component along the original has the sign of the factor. */
  lemma DotScaled(v: Vec2, c: real)
    requires v.x != 0.0 || v.y != 0.0
    ensures c > 0.0 ==> Dot(v.Scale(c), v) > 0.0
    ensures c < 0.0 ==> Dot(v.Scale(c), v) < 0.0
  {
    var s := SquaredLength(v);
    SquaredLengthSign(v);
    assert Dot(v.Scale(c), v) == c * s;
    if c > 0.0 {
      MulPositive(c, s);
    } else if c < 0.0 {
      MulPositive(-c, s);
    }
  }

  /** Clamping to [-1, 1] keeps the sign of the value, and keeps zero. */
  lemma ClampUnitKeepsSign(v: real)
    ensures v > 0.0 ==> Clamp(v, -1.0, 1.0) > 0.0
    ensures v < 0.0 ==> Clamp(v, -1.0, 1.0) < 0.0
    ensures v == 0.0 ==> Clamp(v, -1.0, 1.0) == 0.0
  {
  }

  /** A factor of magnitude at most one does not increase the magnitude. */
  lemma ShrinkingFactor(c: real, v: real)
    requires -1.0 <= c <= 1.0
    ensures Abs(c * v) <= Abs(v)
  {
    if v >= 0.0 {
      ShrinkingFactorNonNegative(c, v);
    } else {
      ShrinkingFactorNegative(c, v);
    }
  }

  lemma ShrinkingFactorNonNegative(c: real, v: real)
    requires -1.0 <= c <= 1.0
    requires v >= 0.0
    ensures -v <= c * v <= v
  {
    var cv := c * v;
    assert (1.0 - c) * v >= 0.0 by {
      MulNonNegative(1.0 - c, v);
    }
    assert (1.0 + c) * v >= 0.0 by {
      MulNonNegative(1.0 + c, v);
    }
    assert (1.0 - c) * v == v - cv;
    assert (1.0 + c) * v == v + cv;
  }

  lemma ShrinkingFactorNegative(c: real, v: real)
    requires -1.0 <= c <= 1.0
    requires v < 0.0
    ensures v <= c * v <= -v
  {
    var cv := c * v;
    assert (1.0 - c) * (-v) >= 0.0 by {
      MulNonNegative(1.0 - c, -v);
    }
    assert (1.0 + c) * (-v) >= 0.0 by {
      MulNonNegative(1.0 + c, -v);
    }
    assert (1.0 - c) * (-v) == cv - v;
    assert (1.0 + c) * (-v) == -v - cv;
  }

  lemma MulNonNegative(a: real, b: real)
    requires 0.0 <= a && 0.0 <= b
    ensures 0.0 <= a * b
  {
    if a > 0.0 && b > 0.0 {
      MulPositive(a, b);
    }
  }

  /** Scaling twice is scaling once by the product of the factors. */
  lemma ScaleScale(v: Vec2, a: real, b: real)
    ensures v.Scale(a).Scale(b) == v.Scale(b * a)
  {
    assert b * (a * v.x) == (b * a) * v.x;
    assert b * (a * v.y) == (b * a) * v.y;
  }

  /** A product is positive exactly when its factors share a sign, negative exactly when their signs differ. */
  lemma ProductSign(a: real, b: real)
    ensures a * b > 0.0 <==> (a > 0.0 && b > 0.0) || (a < 0.0 && b < 0.0)
    ensures a * b < 0.0 <==> (a > 0.0 && b < 0.0) || (a < 0.0 && b > 0.0)
  {
    if a > 0.0 && b > 0.0 {
      MulPositive(a, b);
    } else if a < 0.0 && b < 0.0 {
      MulPositive(-a, -b);
      assert (-a) * (-b) == a * b;
    } else if a > 0.0 && b < 0.0 {
      MulPositive(a, -b);
      assert a * (-b) == -(a * b);
    } else if a < 0.0 && b > 0.0 {
      MulPositive(-a, b);
      assert (-a) * b == -(a * b);
    } else {
      assert a == 0.0 || b == 0.0;
    }
  }

  /** Each component of `v` has the sign of the matching component of `d`: positive, negative or zero alike. */
  predicate SameSigns(v: Vec2, d: Vec2) {
    && (v.x > 0.0 <==> d.x > 0.0) && (v.x < 0.0 <==> d.x < 0.0)
    && (v.y > 0.0 <==> d.y > 0.0) && (v.y < 0.0 <==> d.y < 0.0)
  }

  /**
   * A change `v` produced by an interaction of signed strength `q` along
   * `toward`: it has the componentwise signs of `toward` when `q` is
   * positive, those of the opposite direction when `q` is negative, and
   * vanishes when `q` is zero.
   */
  predicate Along(v: Vec2, q: real, toward: Vec2) {
    && (q > 0.0 ==> SameSigns(v, toward))
    && (q < 0.0 ==> SameSigns(v, toward.Neg()))
    && (q == 0.0 ==> v == Zero)
  }
}
