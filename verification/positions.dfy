/**
 * The position pass of a particle system (`update_pos` in
 * src/particle/lib.rs): every particle that is not pinned moves by its
 * velocity, its velocity is scaled by the friction coefficient, and a
 * particle that has left the box is put back on its edge with its velocity
 * damped and, along the axis of the wall it hit, reversed.
 */
module Positions {
  import opened Geometry
  import opened Particles
  import opened ParticleSystems

  /** The box the particles live in: the horizontal and vertical ranges given to the pass. */
  datatype Bounds = Bounds(xmin: real, xmax: real, ymin: real, ymax: real)

  /** The float clamp panics on a reversed range, so the pass needs both ranges in order. */
  predicate Ordered(b: Bounds) {
    b.xmin <= b.xmax && b.ymin <= b.ymax
  }

  predicate InBox(p: Particle, b: Bounds) {
    b.xmin <= p.x <= b.xmax && b.ymin <= p.y <= b.ymax
  }

  /** `q` is `p` with at most its position and velocity changed. */
  predicate OnlyMotion(p: Particle, q: Particle) {
    q == p.(x := q.x, y := q.y, vx := q.vx, vy := q.vy)
  }

  /** Euler step, then friction: move by the velocity, then scale the velocity. */
  function Drift(p: Particle, friction: real): (q: Particle)
    ensures OnlyMotion(p, q)
    ensures friction == 1.0 ==> q.vx == p.vx && q.vy == p.vy
  {
    p.(x := p.x + p.vx, y := p.y + p.vy, vx := p.vx * friction, vy := p.vy * friction)
  }

  /**
   * The horizontal wall check: a particle left or right of the box is put
   * on the nearer edge, its horizontal velocity reversed and halved and its
   * vertical velocity halved.
   */
  function WallX(p: Particle, b: Bounds): (q: Particle)
    requires b.xmin <= b.xmax
    ensures OnlyMotion(p, q) && q.y == p.y
    ensures b.xmin <= q.x <= b.xmax
    ensures b.xmin <= p.x <= b.xmax ==> q == p
  {
    if p.x < b.xmin || p.x > b.xmax then
      p.(x := Clamp(p.x, b.xmin, b.xmax), vx := p.vx * -0.5, vy := p.vy * 0.5)
    else p
  }

  /** The vertical wall check, the same with the axes exchanged. */
  function WallY(p: Particle, b: Bounds): (q: Particle)
    requires b.ymin <= b.ymax
    ensures OnlyMotion(p, q) && q.x == p.x
    ensures b.ymin <= q.y <= b.ymax
    ensures b.ymin <= p.y <= b.ymax ==> q == p
  {
    if p.y < b.ymin || p.y > b.ymax then
      p.(y := Clamp(p.y, b.ymin, b.ymax), vy := p.vy * -0.5, vx := p.vx * 0.5)
    else p
  }

  /**
   * One particle's share of the position pass: a pinned particle is skipped;
   * any other is drifted, then checked against the horizontal walls, then
   * against the vertical ones. The bounds need to be in order only when the
   * particle moves, as only then is the clamp reached.
   */
  function Step(p: Particle, friction: real, b: Bounds): (r: Particle)
    requires !p.stationary ==> Ordered(b)
    ensures p.stationary ==> r == p
    ensures OnlyMotion(p, r)
    ensures !p.stationary ==> InBox(r, b)
  {
    if p.stationary then p else WallY(WallX(Drift(p, friction), b), b)
  }

  /** `v` reversed and halved when `hit` holds: the factor along the axis of a wall that was hit. */
  function Rebounded(v: real, hit: bool): real {
    if hit then v * -0.5 else v
  }

  /** `v` halved when `hit` holds: the factor across the axis of a wall that was hit. */
  function Damped(v: real, hit: bool): real {
    if hit then v * 0.5 else v
  }

  /**
   * The step in closed form. With `x1, y1` the drifted position and `vx1,
   * vy1` the velocity after friction, and `hitX`, `hitY` whether the drifted
   * position lies outside the horizontal and vertical ranges: the new
   * position is the drifted one clamped into the box, and each velocity
   * component is reversed and halved for a hit on its own axis and halved
   * for a hit on the other axis, independently of which check ran first.
   * The vertical check looks at the drifted `y`, which the horizontal check
   * leaves alone.
   */
  lemma StepClosedForm(p: Particle, friction: real, b: Bounds)
    requires !p.stationary
    requires Ordered(b)
    ensures var r := Step(p, friction, b);
            var x1, y1 := p.x + p.vx, p.y + p.vy;
            var vx1, vy1 := p.vx * friction, p.vy * friction;
            var hitX, hitY := x1 < b.xmin || x1 > b.xmax, y1 < b.ymin || y1 > b.ymax;
            && r.x == Clamp(x1, b.xmin, b.xmax)
            && r.y == Clamp(y1, b.ymin, b.ymax)
            && r.vx == Damped(Rebounded(vx1, hitX), hitY)
            && r.vy == Rebounded(Damped(vy1, hitX), hitY)
  {
  }

  /** A moving particle whose drifted position is inside the box keeps it, and keeps the velocity after friction. */
  lemma StepInside(p: Particle, friction: real, b: Bounds)
    requires !p.stationary
    requires Ordered(b)
    requires InBox(Drift(p, friction), b)
    ensures Step(p, friction, b) == Drift(p, friction)
  {
  }

  /**
   * Each coordinate of a moving particle ends at the point of its range
   * nearest to where the drift took it: the walls move a particle no
   * further than needed.
   */
  lemma StepNearest(p: Particle, friction: real, b: Bounds)
    requires !p.stationary
    requires Ordered(b)
    ensures NearestIn(Step(p, friction, b).x, p.x + p.vx, b.xmin, b.xmax)
    ensures NearestIn(Step(p, friction, b).y, p.y + p.vy, b.ymin, b.ymax)
  {
    StepClosedForm(p, friction, b);
    ClampNearest(p.x + p.vx, b.xmin, b.xmax);
    ClampNearest(p.y + p.vy, b.ymin, b.ymax);
  }

  /**
   * A particle that drifts past a vertical wall ends on that wall and, if it
   * was still moving across it after friction, now moves back into the box.
   */
  lemma WallSendsBackX(p: Particle, friction: real, b: Bounds)
    requires !p.stationary
    requires Ordered(b)
    ensures var r, x1, vx1 := Step(p, friction, b), p.x + p.vx, p.vx * friction;
            && (x1 < b.xmin ==> r.x == b.xmin && (vx1 < 0.0 ==> r.vx > 0.0))
            && (x1 > b.xmax ==> r.x == b.xmax && (vx1 > 0.0 ==> r.vx < 0.0))
  {
    StepClosedForm(p, friction, b);
    var vx1 := p.vx * friction;
    ReboundReverses(vx1, p.y + p.vy < b.ymin || p.y + p.vy > b.ymax);
  }

  /** The same for the horizontal walls. */
  lemma WallSendsBackY(p: Particle, friction: real, b: Bounds)
    requires !p.stationary
    requires Ordered(b)
    ensures var r, y1, vy1 := Step(p, friction, b), p.y + p.vy, p.vy * friction;
            && (y1 < b.ymin ==> r.y == b.ymin && (vy1 < 0.0 ==> r.vy > 0.0))
            && (y1 > b.ymax ==> r.y == b.ymax && (vy1 > 0.0 ==> r.vy < 0.0))
  {
    StepClosedForm(p, friction, b);
    var vy1 := p.vy * friction;
    var hitX := p.x + p.vx < b.xmin || p.x + p.vx > b.xmax;
    DampedKeepsSign(vy1, hitX);
    ReboundReverses(Damped(vy1, hitX), true);
  }

  /** A rebound on a component's own axis reverses its sign, whatever the other axis does. */
  lemma ReboundReverses(v: real, hitOther: bool)
    ensures v < 0.0 ==> Damped(Rebounded(v, true), hitOther) > 0.0
    ensures v > 0.0 ==> Damped(Rebounded(v, true), hitOther) < 0.0
  {
  }

  lemma DampedKeepsSign(v: real, hit: bool)
    ensures v < 0.0 ==> Damped(v, hit) < 0.0
    ensures v > 0.0 ==> Damped(v, hit) > 0.0
  {
  }

  /**
   * With a friction coefficient between 0 and 1 (the default is 1) the step
   * never speeds a particle up along either axis.
   */
  lemma StepNeverSpeedsUp(p: Particle, friction: real, b: Bounds)
    requires !p.stationary ==> Ordered(b)
    requires 0.0 <= friction <= 1.0
    ensures Abs(Step(p, friction, b).vx) <= Abs(p.vx)
    ensures Abs(Step(p, friction, b).vy) <= Abs(p.vy)
  {
    if !p.stationary {
      var q := Drift(p, friction);
      assert Step(p, friction, b) == WallY(WallX(q, b), b);
      DriftNeverSpeedsUp(p, friction);
      WallsNeverSpeedUp(q, b);
    }
  }

  /** Friction between 0 and 1 does not enlarge a velocity component. */
  lemma DriftNeverSpeedsUp(p: Particle, friction: real)
    requires 0.0 <= friction <= 1.0
    ensures Abs(Drift(p, friction).vx) <= Abs(p.vx)
    ensures Abs(Drift(p, friction).vy) <= Abs(p.vy)
  {
    ShrinkingFactor(friction, p.vx);
    ShrinkingFactor(friction, p.vy);
    assert p.vx * friction == friction * p.vx;
    assert p.vy * friction == friction * p.vy;
  }

  /** The wall checks do not enlarge a velocity component. */
  lemma WallsNeverSpeedUp(q: Particle, b: Bounds)
    requires Ordered(b)
    ensures Abs(WallY(WallX(q, b), b).vx) <= Abs(q.vx)
    ensures Abs(WallY(WallX(q, b), b).vy) <= Abs(q.vy)
  {
  }

  /** The bounds are in order, or every particle is pinned and the clamp is never reached. */
  predicate UsableBounds(s: System, b: Bounds) {
    forall n :: 0 <= n < |s.particles| ==> !s.particles[n].stationary ==> Ordered(b)
  }

  /** The position pass: every particle takes its step, with the system's friction coefficient. */
  function UpdatePos(s: System, b: Bounds): (r: System)
    requires UsableBounds(s, b)
    ensures r.k == s.k && r.friction == s.friction
    ensures |r.particles| == |s.particles|
    ensures forall n :: 0 <= n < |s.particles| ==> OnlyMotion(s.particles[n], r.particles[n])
    ensures forall n :: 0 <= n < |s.particles| && s.particles[n].stationary ==> r.particles[n] == s.particles[n]
    ensures forall n :: 0 <= n < |s.particles| && !s.particles[n].stationary ==> InBox(r.particles[n], b)
  {
    s.(particles := seq(|s.particles|, n requires 0 <= n < |s.particles| => Step(s.particles[n], s.friction, b)))
  }

  /** A system whose particles are all pinned is left as it is. */
  lemma UpdatePosAllPinned(s: System, b: Bounds)
    requires forall n :: 0 <= n < |s.particles| ==> s.particles[n].stationary
    ensures UpdatePos(s, b) == s
  {
    assert UpdatePos(s, b).particles == s.particles;
  }

  /**
   * The position pass as the source runs it: one loop over the particles,
   * skipping the pinned ones and updating the others in place.
   */
  method UpdatePosLoop(s: System, b: Bounds) returns (r: System)
    requires UsableBounds(s, b)
    ensures r == UpdatePos(s, b)
  {
    r := s;
    var len := |r.particles|;
    var i := 0;
    while i < len
      invariant 0 <= i <= len
      invariant r.k == s.k && r.friction == s.friction
      invariant |r.particles| == len
      invariant forall n :: 0 <= n < i ==> r.particles[n] == Step(s.particles[n], s.friction, b)
      invariant forall n :: i <= n < len ==> r.particles[n] == s.particles[n]
    {
      var p := r.particles[i];
      if p.stationary {
        i := i + 1;
        continue;
      }
      p := p.(x := p.x + p.vx, y := p.y + p.vy);
      p := p.(vx := p.vx * r.friction, vy := p.vy * r.friction);
      assert p == Drift(s.particles[i], s.friction);
      if p.x < b.xmin || p.x > b.xmax {
        p := p.(x := Clamp(p.x, b.xmin, b.xmax), vx := p.vx * -0.5, vy := p.vy * 0.5);
      }
      assert p == WallX(Drift(s.particles[i], s.friction), b);
      if p.y < b.ymin || p.y > b.ymax {
        p := p.(y := Clamp(p.y, b.ymin, b.ymax), vy := p.vy * -0.5, vx := p.vx * 0.5);
      }
      assert p == Step(s.particles[i], s.friction, b);
      r := r.(particles := r.particles[i := p]);
      i := i + 1;
    }
  }
}
