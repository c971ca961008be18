/**
 * A single charged particle: the pairwise force it feels from another
 * particle and its clamped velocity update (the `Particle` type of
 * src/particle/lib.rs).
 */
module Particles {
  import opened Geometry

  /** A display colour: red, green, blue and alpha channels. The physics carries it along but never reads it. */
  datatype Color = Color(r: real, g: real, b: real, a: real)

  /** A point mass and charge with a velocity, a colour, and a flag that pins it in place. */
  datatype Particle = Particle(
    x: real, y: real,
    vx: real, vy: real,
    mass: real,
    charge: real,
    color: Color,
    stationary: bool)

  /**
   * The laws the model assumes of `pow15(s)`, the float power `s.powf(1.5)`
   * that turns the squared distance into the cube of the distance: on a
   * non-negative argument it is never negative, and it is zero exactly at
   * zero. Its exact values are left open, so every physics function takes
   * it as the argument `pow15`.
   */
  ghost predicate IsPow15(pow15: real -> real) {
    forall s: real :: 0.0 <= s ==> 0.0 <= pow15(s) && (pow15(s) == 0.0 <==> s == 0.0)
  }

  /** `q` is `p` with at most its velocity changed. */
  ghost predicate SameBody(p: Particle, q: Particle) {
    q == p.(vx := q.vx, vy := q.vy)
  }

  /** The two particles occupy the same point. */
  predicate Coincident(a: Particle, b: Particle) {
    a.x == b.x && a.y == b.y
  }

  /** The offset from `a` to `b`. */
  function Offset(a: Particle, b: Particle): Vec2 {
    Vec2(b.x - a.x, b.y - a.y)
  }

  /** The square of the distance from `a` to `b`: the sum of the squared coordinate offsets. */
  function SquaredDistance(a: Particle, b: Particle): real {
    SquaredLength(Offset(a, b))
  }

  /** The cube of the distance from `a` to `b`: the power 1.5 of the squared distance. */
  function DistanceCubed(a: Particle, b: Particle, pow15: real -> real): real {
    pow15(SquaredDistance(a, b))
  }

  /** Swapping the particles flips the sign of each offset, which the squares undo. */
  lemma SquaredDistanceSymmetric(a: Particle, b: Particle)
    ensures SquaredDistance(b, a) == SquaredDistance(a, b)
  {
    assert Offset(b, a) == Offset(a, b).Neg();
    SquaredLengthNeg(Offset(a, b));
  }

  /** The squared distance is never negative, and is zero exactly when the particles coincide. */
  lemma SquaredDistanceSign(a: Particle, b: Particle)
    ensures SquaredDistance(a, b) >= 0.0
    ensures SquaredDistance(a, b) == 0.0 <==> Coincident(a, b)
  {
    SquaredLengthSign(Offset(a, b));
    OffsetZero(a, b);
  }

  /** The offset is zero exactly when the particles coincide. */
  lemma OffsetZero(a: Particle, b: Particle)
    ensures Offset(a, b) == Zero <==> Coincident(a, b)
  {
  }

  /** The cube of the distance does not depend on the order of the particles, whatever the power function. */
  lemma DistanceCubedSymmetric(a: Particle, b: Particle, pow15: real -> real)
    ensures DistanceCubed(b, a, pow15) == DistanceCubed(a, b, pow15)
  {
    SquaredDistanceSymmetric(a, b);
  }

  /** Under the laws of the power, the cube of the distance is zero exactly for coincident particles and positive otherwise. */
  lemma DistanceCubedPositive(a: Particle, b: Particle, pow15: real -> real)
    requires IsPow15(pow15)
    ensures DistanceCubed(a, b, pow15) >= 0.0
    ensures DistanceCubed(a, b, pow15) == 0.0 <==> Coincident(a, b)
  {
    SquaredDistanceSign(a, b);
  }

  /**
   * The charge product over the cube of the distance, or zero when that cube
   * is zero: the factor by which the force scales the offset between the two
   * particles.
   */
  function Strength(a: Particle, b: Particle, pow15: real -> real): real {
    var dCubed := DistanceCubed(a, b, pow15);
    if dCubed == 0.0 then 0.0 else a.charge * b.charge / dCubed
  }

  /**
   * The unscaled force on `a` exerted by `b`: the product of the charges
   * times the offset divided by the distance cubed, or zero when the cube of
   * the distance is zero (the guard against an infinite force). Coincident
   * particles exert no force on each other, whatever the distance cube
   * (either the guard fires or the offset in the numerator is zero), and
   * neither does an uncharged particle.
   */
  function Force(a: Particle, b: Particle, pow15: real -> real): (f: Vec2)
    ensures Coincident(a, b) ==> f == Zero
    ensures a.charge * b.charge == 0.0 ==> f == Zero
  {
    var d := Offset(a, b);
    var dCubed := DistanceCubed(a, b, pow15);
    if dCubed == 0.0 then Zero
    else Vec2(a.charge * b.charge * d.x / dCubed, a.charge * b.charge * d.y / dCubed)
  }

  /** The force is the offset to the other particle scaled by the strength. */
  lemma ForceIsScaledOffset(a: Particle, b: Particle, pow15: real -> real)
    ensures Force(a, b, pow15) == Offset(a, b).Scale(Strength(a, b, pow15))
  {
    var d := Offset(a, b);
    var dCubed := DistanceCubed(a, b, pow15);
    if dCubed != 0.0 {
      var q := a.charge * b.charge;
      DivideProduct(q, d.x, dCubed);
      DivideProduct(q, d.y, dCubed);
    }
  }

  /**
   * The force reads nothing of the particles but their positions and
   * charges: velocity, mass, colour and flag do not affect it.
   */
  lemma ForceFrame(a: Particle, b: Particle, a2: Particle, b2: Particle, pow15: real -> real)
    requires a2.x == a.x && a2.y == a.y && a2.charge == a.charge
    requires b2.x == b.x && b2.y == b.y && b2.charge == b.charge
    ensures Force(a2, b2, pow15) == Force(a, b, pow15)
  {
    assert Offset(a2, b2) == Offset(a, b);
    assert SquaredDistance(a2, b2) == SquaredDistance(a, b);
  }

  /** The force lies on the line through the two particles. */
  lemma ForceAlongOffset(a: Particle, b: Particle, pow15: real -> real)
    ensures Parallel(Force(a, b, pow15), Offset(a, b))
  {
    ForceIsScaledOffset(a, b, pow15);
    ScaleParallel(Offset(a, b), Strength(a, b, pow15));
  }

  /** Swapping the two particles leaves the strength unchanged. */
  lemma StrengthSymmetric(a: Particle, b: Particle, pow15: real -> real)
    ensures Strength(b, a, pow15) == Strength(a, b, pow15)
  {
    DistanceCubedSymmetric(a, b, pow15);
  }

  /** Swapping the two particles negates the force: the offset flips, the distance and charge product do not. */
  lemma ForceAntisymmetric(a: Particle, b: Particle, pow15: real -> real)
    ensures Force(b, a, pow15) == Force(a, b, pow15).Neg()
  {
    StrengthSymmetric(a, b, pow15);
    ForceIsScaledOffset(a, b, pow15);
    ForceIsScaledOffset(b, a, pow15);
    assert Offset(b, a) == Offset(a, b).Neg();
    ScaleNeg(Offset(a, b), Strength(a, b, pow15));
  }

  /**
   * Under the laws of the power, the strength between distinct
   * particles has the sign of the charge product.
   */
  lemma StrengthSign(a: Particle, b: Particle, pow15: real -> real)
    requires IsPow15(pow15)
    requires !Coincident(a, b)
    ensures a.charge * b.charge > 0.0 ==> Strength(a, b, pow15) > 0.0
    ensures a.charge * b.charge < 0.0 ==> Strength(a, b, pow15) < 0.0
    ensures a.charge * b.charge == 0.0 ==> Strength(a, b, pow15) == 0.0
  {
    DistanceCubedPositive(a, b, pow15);
    QuotientSign(a.charge * b.charge, DistanceCubed(a, b, pow15));
  }

  /**
   * Under the laws of the power, the force vanishes exactly when the
   * particles coincide or one of them is uncharged.
   */
  lemma ForceVanishesIff(a: Particle, b: Particle, pow15: real -> real)
    requires IsPow15(pow15)
    ensures Force(a, b, pow15) == Zero <==> Coincident(a, b) || a.charge * b.charge == 0.0
  {
    if !Coincident(a, b) {
      StrengthSign(a, b, pow15);
      ForceIsScaledOffset(a, b, pow15);
      OffsetZero(a, b);
      ScaleZero(Offset(a, b), Strength(a, b, pow15));
    }
  }

  /**
   * Under the laws of the power, a force between distinct particles
   * points towards the other particle when the charges have the same sign and
   * away from it when they differ (before the system-wide coefficient).
   */
  lemma ForceDirection(a: Particle, b: Particle, pow15: real -> real)
    requires IsPow15(pow15)
    requires !Coincident(a, b)
    ensures a.charge * b.charge > 0.0 ==> Dot(Force(a, b, pow15), Offset(a, b)) > 0.0
    ensures a.charge * b.charge < 0.0 ==> Dot(Force(a, b, pow15), Offset(a, b)) < 0.0
  {
    StrengthSign(a, b, pow15);
    ForceIsScaledOffset(a, b, pow15);
    OffsetZero(a, b);
    DotScaled(Offset(a, b), Strength(a, b, pow15));
  }

  /**
   * The velocity increment of one force application: `fx / mass` clamped to
   * [-1, 1] is added to `vx`, and likewise for `y`. Division by the mass is
   * why the mass may not be zero.
   */
  function UpdateVel(p: Particle, fx: real, fy: real): (r: Particle)
    requires p.mass != 0.0
    ensures r == p.(vx := r.vx, vy := r.vy)
    ensures -1.0 <= r.vx - p.vx <= 1.0 && -1.0 <= r.vy - p.vy <= 1.0
    ensures -1.0 <= fx / p.mass <= 1.0 ==> r.vx == p.vx + fx / p.mass
    ensures -1.0 <= fy / p.mass <= 1.0 ==> r.vy == p.vy + fy / p.mass
  {
    p.(vx := p.vx + Clamp(fx / p.mass, -1.0, 1.0),
       vy := p.vy + Clamp(fy / p.mass, -1.0, 1.0))
  }

  /** Each velocity increment is the point of [-1, 1] nearest to the force component over the mass. */
  lemma UpdateVelNearest(p: Particle, fx: real, fy: real)
    requires p.mass != 0.0
    ensures NearestIn(UpdateVel(p, fx, fy).vx - p.vx, fx / p.mass, -1.0, 1.0)
    ensures NearestIn(UpdateVel(p, fx, fy).vy - p.vy, fy / p.mass, -1.0, 1.0)
  {
    ClampNearest(fx / p.mass, -1.0, 1.0);
    ClampNearest(fy / p.mass, -1.0, 1.0);
    var r := UpdateVel(p, fx, fy);
    assert r.vx - p.vx == Clamp(fx / p.mass, -1.0, 1.0);
    assert r.vy - p.vy == Clamp(fy / p.mass, -1.0, 1.0);
  }

  /** A zero force leaves the particle exactly as it was. */
  lemma UpdateVelZero(p: Particle)
    requires p.mass != 0.0
    ensures UpdateVel(p, 0.0, 0.0) == p
  {
  }

  /**
   * The velocity increment a force gives a particle: the force over the
   * mass, each component clamped to [-1, 1].
   */
  function Kick(p: Particle, f: Vec2): (dv: Vec2)
    requires p.mass != 0.0
    ensures -1.0 <= dv.x <= 1.0 && -1.0 <= dv.y <= 1.0
  {
    Vec2(Clamp(f.x / p.mass, -1.0, 1.0), Clamp(f.y / p.mass, -1.0, 1.0))
  }

  /** A zero force gives no kick. */
  lemma KickZero(p: Particle)
    requires p.mass != 0.0
    ensures Kick(p, Zero) == Zero
  {
    assert 0.0 / p.mass == 0.0;
  }

  /** The opposite force gives the opposite kick. */
  lemma KickOdd(p: Particle, f: Vec2)
    requires p.mass != 0.0
    ensures Kick(p, f.Neg()) == Kick(p, f).Neg()
  {
    assert (-f.x) / p.mass == -(f.x / p.mass);
    assert (-f.y) / p.mass == -(f.y / p.mass);
    ClampOdd(f.x / p.mass, 1.0);
    ClampOdd(f.y / p.mass, 1.0);
  }

  /** Applying a force adds its kick to the velocity. */
  lemma UpdateVelAddsKick(p: Particle, f: Vec2)
    requires p.mass != 0.0
    ensures UpdateVel(p, f.x, f.y) == p.(vx := p.vx + Kick(p, f).x, vy := p.vy + Kick(p, f).y)
  {
  }

  /**
   * One component `u` of the kick from a force component `fx == c * x` on a
   * positive mass: it has the sign of `x` when `c` is positive, the opposite
   * sign when `c` is negative, and is zero when `c` is.
   */
  lemma ClampedComponentAlong(c: real, x: real, fx: real, mass: real, u: real)
    requires mass > 0.0
    requires fx == c * x
    requires u == Clamp(fx / mass, -1.0, 1.0)
    ensures c > 0.0 ==> (u > 0.0 <==> x > 0.0) && (u < 0.0 <==> x < 0.0)
    ensures c < 0.0 ==> (u > 0.0 <==> x < 0.0) && (u < 0.0 <==> x > 0.0)
    ensures c == 0.0 ==> u == 0.0
  {
    var t := fx / mass;
    assert t > 0.0 <==> fx > 0.0 by {
      QuotientSign(fx, mass);
    }
    assert t < 0.0 <==> fx < 0.0 by {
      QuotientSign(fx, mass);
    }
    ProductSign(c, x);
    ClampUnitKeepsSign(t);
  }

  /**
   * A force `c` times a direction `d` gives a particle of positive mass a
   * kick with the signs of `d` when `c` is positive, with the signs of the
   * opposite direction when `c` is negative, and no kick when `c` is zero.
   */
  lemma KickAlong(p: Particle, d: Vec2, c: real)
    requires p.mass > 0.0
    ensures Along(Kick(p, d.Scale(c)), c, d)
  {
    var f := d.Scale(c);
    var k := Kick(p, f);
    ClampedComponentAlong(c, d.x, f.x, p.mass, k.x);
    ClampedComponentAlong(c, d.y, f.y, p.mass, k.y);
  }
}
