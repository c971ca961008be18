/**
 * A system of particles (the `ParticleSystem` type of src/particle/lib.rs):
 * the pairwise force scaled by the system's coefficient and the velocity
 * pass over the pair schedule.
 *
 * The velocity pass is stated for any pairwise force `force`. The loop
 * proof needs only that velocities do not affect the force
 * (`IgnoresVelocities`); that a self pair is harmless needs only that a
 * particle exerts nothing on itself (`NoSelfForce`). The source's own force,
 * `Particles.Force` for a power function, is `ForceLaw(pow15)`, and
 * `SourceForceIsForceLaw` proves it has both properties (`IsForceLaw`).
 */
module ParticleSystems {
  import opened Geometry
  import opened Particles
  import opened PairSchedule

  /** The coefficient a new system scales every force by; negative, so like charges repel. */
  const DefaultK: real := -10.0

  /** The friction coefficient of a new system: velocities are kept in full. */
  const DefaultFriction: real := 1.0

  datatype System = System(particles: seq<Particle>, k: real, friction: real)

  /** An empty system with the default coefficients. */
  function New(): (r: System)
    ensures r.particles == []
    ensures r.k < 0.0
    ensures r.friction == 1.0
  {
    System([], DefaultK, DefaultFriction)
  }

  /** The source's pairwise force, for a given power function. */
  function ForceLaw(pow15: real -> real): (Particle, Particle) -> Vec2 {
    (a: Particle, b: Particle) => Force(a, b, pow15)
  }

  /** A pairwise force that exerts nothing on a particle from itself. */
  ghost predicate NoSelfForce(force: (Particle, Particle) -> Vec2) {
    forall a: Particle :: force(a, a) == Zero
  }

  /** A pairwise force that does not read velocities. */
  ghost predicate IgnoresVelocities(force: (Particle, Particle) -> Vec2) {
    forall a: Particle, b: Particle, a2: Particle, b2: Particle
      :: SameBody(a, a2) && SameBody(b, b2) ==> force(a2, b2) == force(a, b)
  }

  /** Both: the two facts the source's force has that the velocity pass relies on. */
  ghost predicate IsForceLaw(force: (Particle, Particle) -> Vec2) {
    NoSelfForce(force) && IgnoresVelocities(force)
  }

  /** The source's force exerts nothing on a particle from itself and ignores velocities, whatever the power function. */
  lemma SourceForceIsForceLaw(pow15: real -> real)
    ensures IsForceLaw(ForceLaw(pow15))
  {
    forall a: Particle
      ensures ForceLaw(pow15)(a, a) == Zero
    {
      assert Coincident(a, a);
    }
    forall a: Particle, b: Particle, a2: Particle, b2: Particle | SameBody(a, a2) && SameBody(b, b2)
      ensures ForceLaw(pow15)(a2, b2) == ForceLaw(pow15)(a, b)
    {
      ForceFrame(a, b, a2, b2, pow15);
    }
  }

  /** `t` is `s` with at most the velocities of its particles changed. */
  ghost predicate SameExceptVelocities(s: System, t: System) {
    && t.k == s.k
    && t.friction == s.friction
    && |t.particles| == |s.particles|
    && forall n :: 0 <= n < |s.particles| ==> SameBody(s.particles[n], t.particles[n])
  }

  predicate MassesNonZero(s: System) {
    forall n :: 0 <= n < |s.particles| ==> s.particles[n].mass != 0.0
  }

  /** Both indices of the pair name particles of `s`, and both particles have a mass to divide by. */
  predicate ValidPair(s: System, p: Pair) {
    && p.0 < |s.particles| && p.1 < |s.particles|
    && s.particles[p.0].mass != 0.0 && s.particles[p.1].mass != 0.0
  }

  predicate ValidPairs(s: System, ps: seq<Pair>) {
    forall n :: 0 <= n < |ps| ==> ValidPair(s, ps[n])
  }

  /** Every pair of `ps` is one the velocity pass over `n` particles visits. */
  predicate InSchedule(ps: seq<Pair>, n: nat) {
    forall k :: 0 <= k < |ps| ==> ps[k].0 + 1 < n && 1 <= ps[k].1 < n
  }

  /** The force on particle `i` exerted by particle `j`, scaled by the system's coefficient `k`. */
  function PairForce(s: System, i: nat, j: nat, force: (Particle, Particle) -> Vec2): (f: Vec2)
    requires i < |s.particles| && j < |s.particles|
    ensures force(s.particles[i], s.particles[j]) == Zero ==> f == Zero
  {
    force(s.particles[i], s.particles[j]).Scale(s.k)
  }

  /**
   * With the source's force, the pair force lies on the line through the two
   * particles, scaled by `k` times the strength.
   */
  lemma PairForceAlongOffset(s: System, i: nat, j: nat, pow15: real -> real)
    requires i < |s.particles| && j < |s.particles|
    ensures PairForce(s, i, j, ForceLaw(pow15))
         == Offset(s.particles[i], s.particles[j]).Scale(s.k * Strength(s.particles[i], s.particles[j], pow15))
  {
    ForceIsScaledOffset(s.particles[i], s.particles[j], pow15);
    ScaleScale(Offset(s.particles[i], s.particles[j]), Strength(s.particles[i], s.particles[j], pow15), s.k);
  }

  /**
   * With the source's force, whatever the power function, the force on
   * `j` from `i` is the opposite of the force on `i` from `j`.
   */
  lemma PairForceAntisymmetric(s: System, i: nat, j: nat, pow15: real -> real)
    requires i < |s.particles| && j < |s.particles|
    ensures PairForce(s, j, i, ForceLaw(pow15)) == PairForce(s, i, j, ForceLaw(pow15)).Neg()
  {
    ForceAntisymmetric(s.particles[i], s.particles[j], pow15);
    ScaleNeg(Force(s.particles[i], s.particles[j], pow15), s.k);
  }

  /** With the source's force, the pair force vanishes when the coefficient is zero or the particles coincide. */
  lemma PairForceVanishes(s: System, i: nat, j: nat, pow15: real -> real)
    requires i < |s.particles| && j < |s.particles|
    requires s.k == 0.0 || Coincident(s.particles[i], s.particles[j])
    ensures PairForce(s, i, j, ForceLaw(pow15)) == Zero
  {
    var f := Force(s.particles[i], s.particles[j], pow15);
    if s.k == 0.0 {
      assert 0.0 * f.x == 0.0 && 0.0 * f.y == 0.0;
    }
  }

  /**
   * The velocity change a pair whose force is `f` gives particle `m`: the
   * kick of `f` if `m` is the first index, the kick of its opposite if `m` is
   * the second, both when the pair is a self pair.
   */
  function PairKick(s: System, p: Pair, m: nat, f: Vec2): Vec2
    requires ValidPair(s, p)
  {
    (if m == p.0 then Kick(s.particles[p.0], f) else Zero)
      .Add(if m == p.1 then Kick(s.particles[p.1], f.Neg()) else Zero)
  }

  /** Each kick is at most one per component, so a pair changes a velocity component by at most the times it touches it. */
  lemma PairKickBound(s: System, p: Pair, m: nat, f: Vec2)
    requires ValidPair(s, p)
    ensures Abs(PairKick(s, p, m, f).x) <= Touches(p, m) as real
    ensures Abs(PairKick(s, p, m, f).y) <= Touches(p, m) as real
  {
  }

  /**
   * A self pair changes nothing, whatever its force: the particle receives
   * the kick of the force and the kick of its opposite, which cancel.
   */
  lemma PairKickSelf(s: System, i: nat, m: nat, f: Vec2)
    requires ValidPair(s, (i, i))
    ensures PairKick(s, (i, i), m, f) == Zero
  {
    if m == i {
      KickOdd(s.particles[i], f);
    }
  }

  /** Only the pairs of two different indices count towards the bound on a velocity change. */
  lemma PairKickCrossBound(s: System, p: Pair, m: nat, f: Vec2)
    requires ValidPair(s, p)
    ensures Abs(PairKick(s, p, m, f).x) <= CrossTouches(p, m) as real
    ensures Abs(PairKick(s, p, m, f).y) <= CrossTouches(p, m) as real
  {
    if p.0 == p.1 {
      PairKickSelf(s, p.0, m, f);
    } else {
      PairKickBound(s, p, m, f);
    }
  }

  /** The velocity change pair `p` gives particle `m`. */
  function Delta(s: System, p: Pair, m: nat, force: (Particle, Particle) -> Vec2): Vec2
    requires ValidPair(s, p)
  {
    PairKick(s, p, m, PairForce(s, p.0, p.1, force))
  }

  /** The total velocity change the pairs `ps` give particle `m`, each pair's change computed in `s`. */
  function SumDelta(s: System, ps: seq<Pair>, m: nat, force: (Particle, Particle) -> Vec2): Vec2
    requires ValidPairs(s, ps)
    decreases |ps|
  {
    if ps == [] then Zero
    else Delta(s, ps[0], m, force).Add(SumDelta(s, ps[1..], m, force))
  }

  /** Magnitudes add up at most: the triangle inequality, per component. */
  lemma AddBound(u: Vec2, v: Vec2, a: nat, b: nat)
    requires Abs(u.x) <= a as real && Abs(u.y) <= a as real
    requires Abs(v.x) <= b as real && Abs(v.y) <= b as real
    ensures Abs(u.Add(v).x) <= (a + b) as real && Abs(u.Add(v).y) <= (a + b) as real
  {
  }

  /**
   * Each pair of two different indices changes a velocity component by at
   * most one per time it touches the particle, and a self pair changes
   * nothing, so a sequence of pairs changes it by at most the number of
   * visits by pairs of two different indices.
   */
  lemma {:induction false} SumDeltaBound(s: System, ps: seq<Pair>, m: nat, force: (Particle, Particle) -> Vec2)
    requires ValidPairs(s, ps)
    ensures Abs(SumDelta(s, ps, m, force).x) <= CrossVisits(ps, m) as real
    ensures Abs(SumDelta(s, ps, m, force).y) <= CrossVisits(ps, m) as real
    decreases |ps|
  {
    if ps != [] {
      var p, rest := ps[0], ps[1..];
      var d := Delta(s, p, m, force);
      var sum := SumDelta(s, rest, m, force);
      assert SumDelta(s, ps, m, force) == d.Add(sum);
      assert CrossVisits(ps, m) == CrossTouches(p, m) + CrossVisits(rest, m);
      assert d == PairKick(s, p, m, PairForce(s, p.0, p.1, force));
      PairKickCrossBound(s, p, m, PairForce(s, p.0, p.1, force));
      SumDeltaBound(s, rest, m, force);
      AddBound(d, sum, CrossTouches(p, m), CrossVisits(rest, m));
    }
  }

  /** A non-empty sum is its first pair's change plus the sum of the rest. */
  lemma SumDeltaCons(s: System, ps: seq<Pair>, m: nat, force: (Particle, Particle) -> Vec2)
    requires ValidPairs(s, ps)
    requires ps != []
    ensures SumDelta(s, ps, m, force) == Delta(s, ps[0], m, force).Add(SumDelta(s, ps[1..], m, force))
  {
  }

  /** The pairs of a pass are valid once every particle has a mass, which only matters when there are pairs at all. */
  lemma ScheduleValid(s: System, ps: seq<Pair>)
    requires InSchedule(ps, |s.particles|)
    requires |s.particles| >= 2 ==> MassesNonZero(s)
    ensures ValidPairs(s, ps)
  {
    forall n | 0 <= n < |ps|
      ensures ValidPair(s, ps[n])
    {
      assert ps[n].0 + 1 < |s.particles|;
    }
  }

  lemma PairsInSchedule(n: nat)
    ensures InSchedule(Pairs(n), n)
  {
    forall k | 0 <= k < |Pairs(n)|
      ensures Pairs(n)[k].0 + 1 < n && 1 <= Pairs(n)[k].1 < n
    {
      PairsMembers(n, Pairs(n)[k]);
    }
  }

  /** The velocities of the particles, in order. */
  function Velocities(s: System): (vs: seq<Vec2>)
    ensures |vs| == |s.particles|
  {
    seq(|s.particles|, n requires 0 <= n < |s.particles| => Vec2(s.particles[n].vx, s.particles[n].vy))
  }

  /** The system `s` with the velocities `vs` in place of its own. */
  function WithVelocities(s: System, vs: seq<Vec2>): (r: System)
    requires |vs| == |s.particles|
    ensures SameExceptVelocities(s, r)
    ensures Velocities(r) == vs
  {
    var r := s.(particles := seq(|s.particles|, n requires 0 <= n < |s.particles|
                                   => s.particles[n].(vx := vs[n].x, vy := vs[n].y)));
    assert Velocities(r) == vs by {
      forall n | 0 <= n < |vs|
        ensures Velocities(r)[n] == vs[n]
      {
      }
    }
    r
  }

  /** A system is determined by its velocities together with everything the velocity pass keeps. */
  lemma Reassemble(s: System, t: System)
    requires SameExceptVelocities(s, t)
    ensures WithVelocities(s, Velocities(t)) == t
  {
    var r := WithVelocities(s, Velocities(t));
    forall n | 0 <= n < |t.particles|
      ensures r.particles[n] == t.particles[n]
    {
      assert SameBody(s.particles[n], t.particles[n]);
      assert SameBody(s.particles[n], r.particles[n]);
    }
  }

  /**
   * One step of the inner loop, on the velocities `vs` of a system that
   * otherwise agrees with `s`: the pair force is computed once, the kick of
   * it is added to velocity `i` and then the kick of its opposite to velocity
   * `j` (the same velocity twice when `i == j`).
   */
  function ApplyPair(s: System, vs: seq<Vec2>, p: Pair, force: (Particle, Particle) -> Vec2): (ws: seq<Vec2>)
    requires ValidPair(s, p) && |vs| == |s.particles|
    ensures |ws| == |vs|
  {
    var f := PairForce(s, p.0, p.1, force);
    var afterI := vs[p.0 := vs[p.0].Add(Kick(s.particles[p.0], f))];
    afterI[p.1 := afterI[p.1].Add(Kick(s.particles[p.1], f.Neg()))]
  }

  /** Runs the inner-loop step over the pairs `ps` in order. */
  function ApplyPairs(s: System, vs: seq<Vec2>, ps: seq<Pair>, force: (Particle, Particle) -> Vec2): (ws: seq<Vec2>)
    requires ValidPairs(s, ps) && |vs| == |s.particles|
    ensures |ws| == |vs|
    decreases |ps|
  {
    if ps == [] then vs
    else ApplyPairs(s, ApplyPair(s, vs, ps[0], force), ps[1..], force)
  }

  /** Running a pair and then the rest is running the sequence that starts with the pair. */
  lemma ApplyPairsCons(s: System, vs: seq<Vec2>, p: Pair, rest: seq<Pair>, force: (Particle, Particle) -> Vec2)
    requires ValidPair(s, p) && ValidPairs(s, rest) && |vs| == |s.particles|
    ensures ValidPairs(s, [p] + rest)
    ensures ApplyPairs(s, vs, [p] + rest, force) == ApplyPairs(s, ApplyPair(s, vs, p, force), rest, force)
  {
    var ps := [p] + rest;
    assert ps[0] == p && ps[1..] == rest;
    assert ValidPairs(s, ps) by {
      forall n | 0 <= n < |ps|
        ensures ValidPair(s, ps[n])
      {
        if n > 0 {
          assert ps[n] == rest[n - 1];
        }
      }
    }
  }

  /**
   * The velocity pass: an empty system is returned as it is; otherwise the
   * inner-loop step runs over the pair schedule and the velocities it yields
   * replace the old ones. Only when there are pairs, that is with two
   * particles or more, must every mass be non-zero.
   */
  function UpdateVel(s: System, force: (Particle, Particle) -> Vec2): (r: System)
    requires |s.particles| >= 2 ==> MassesNonZero(s)
    ensures SameExceptVelocities(s, r)
    ensures |s.particles| <= 1 ==> r == s
  {
    if |s.particles| == 0 then s
    else
      PairsInSchedule(|s.particles|);
      ScheduleValid(s, Pairs(|s.particles|));
      PairsSmall(|s.particles|);
      Reassemble(s, s);
      WithVelocities(s, ApplyPairs(s, Velocities(s), Pairs(|s.particles|), force))
  }

  /** One inner-loop step adds the pair's change to every velocity. */
  lemma ApplyPairEffect(s: System, vs: seq<Vec2>, p: Pair, m: nat, force: (Particle, Particle) -> Vec2)
    requires ValidPair(s, p) && |vs| == |s.particles|
    requires m < |vs|
    ensures ApplyPair(s, vs, p, force)[m] == vs[m].Add(Delta(s, p, m, force))
  {
    var f := PairForce(s, p.0, p.1, force);
    var k0, k1 := Kick(s.particles[p.0], f), Kick(s.particles[p.1], f.Neg());
    var afterI := vs[p.0 := vs[p.0].Add(k0)];
    assert ApplyPair(s, vs, p, force) == afterI[p.1 := afterI[p.1].Add(k1)];
    assert Delta(s, p, m, force) == (if m == p.0 then k0 else Zero).Add(if m == p.1 then k1 else Zero);
  }

  /**
   * Running the pairs in order adds, to each velocity, the sum of the
   * changes of the pairs.
   */
  lemma {:induction false} ApplyPairsEffect(s: System, vs: seq<Vec2>, ps: seq<Pair>, m: nat, force: (Particle, Particle) -> Vec2)
    requires ValidPairs(s, ps) && |vs| == |s.particles|
    requires m < |vs|
    ensures ApplyPairs(s, vs, ps, force)[m] == vs[m].Add(SumDelta(s, ps, m, force))
    decreases |ps|
  {
    if ps != [] {
      var p, rest := ps[0], ps[1..];
      var ws := ApplyPair(s, vs, p, force);
      var d, sum := Delta(s, p, m, force), SumDelta(s, rest, m, force);
      assert ApplyPairs(s, vs, ps, force) == ApplyPairs(s, ws, rest, force);
      assert SumDelta(s, ps, m, force) == d.Add(sum);
      assert ws[m] == vs[m].Add(d) by {
        ApplyPairEffect(s, vs, p, m, force);
      }
      assert ApplyPairs(s, ws, rest, force)[m] == ws[m].Add(sum) by {
        ApplyPairsEffect(s, ws, rest, m, force);
      }
      AddAssociative(vs[m], d, sum);
    }
  }

  /**
   * The body of the source's inner loop on the current system `r`: the pair
   * force is computed from `r`, particle `i` takes it and then particle `j`
   * takes its opposite.
   */
  function InnerStep(r: System, i: nat, j: nat, force: (Particle, Particle) -> Vec2): (t: System)
    requires ValidPair(r, (i, j))
    ensures SameExceptVelocities(r, t)
    ensures forall n :: 0 <= n < |r.particles| && n != i && n != j ==> t.particles[n] == r.particles[n]
  {
    var f := PairForce(r, i, j, force);
    var afterI := r.particles[i := Particles.UpdateVel(r.particles[i], f.x, f.y)];
    r.(particles := afterI[j := Particles.UpdateVel(afterI[j], -f.x, -f.y)])
  }

  /**
   * On a system that differs from `s` only in velocities, the inner-loop
   * body computes the pair force of `s` (the force does not read
   * velocities) and so changes the velocities as `ApplyPair` does, and
   * nothing else.
   */
  lemma InnerStepEffect(s: System, r: System, i: nat, j: nat, force: (Particle, Particle) -> Vec2)
    requires IgnoresVelocities(force)
    requires SameExceptVelocities(s, r)
    requires ValidPair(s, (i, j))
    ensures ValidPair(r, (i, j))
    ensures SameExceptVelocities(s, InnerStep(r, i, j, force))
    ensures Velocities(InnerStep(r, i, j, force)) == ApplyPair(s, Velocities(r), (i, j), force)
  {
    assert SameBody(s.particles[i], r.particles[i]);
    assert SameBody(s.particles[j], r.particles[j]);
    assert PairForce(r, i, j, force) == PairForce(s, i, j, force);
    InnerStepVelocities(r, i, j, force);
    var next := InnerStep(r, i, j, force);
    forall n | 0 <= n < |s.particles|
      ensures SameBody(s.particles[n], next.particles[n])
    {
      assert SameBody(s.particles[n], r.particles[n]);
      assert SameBody(r.particles[n], next.particles[n]);
    }
  }

  /** The velocity half of `InnerStepEffect`, on the current system alone: the inner-loop body adds the two kicks. */
  lemma InnerStepVelocities(r: System, i: nat, j: nat, force: (Particle, Particle) -> Vec2)
    requires ValidPair(r, (i, j))
    ensures Velocities(InnerStep(r, i, j, force)) == ApplyPair(r, Velocities(r), (i, j), force)
  {
    var f := PairForce(r, i, j, force);
    var k0, k1 := Kick(r.particles[i], f), Kick(r.particles[j], f.Neg());
    var vs := Velocities(r);
    var qi := Particles.UpdateVel(r.particles[i], f.x, f.y);
    var mid := r.(particles := r.particles[i := qi]);
    UpdateVelAddsKick(r.particles[i], f);
    VelocitiesUpdate(r, i, qi);
    assert Velocities(mid) == vs[i := vs[i].Add(k0)];
    var qj := Particles.UpdateVel(mid.particles[j], -f.x, -f.y);
    assert InnerStep(r, i, j, force) == mid.(particles := mid.particles[j := qj]);
    assert mid.particles[j].mass == r.particles[j].mass;
    UpdateVelAddsKick(mid.particles[j], f.Neg());
    VelocitiesUpdate(mid, j, qj);
    assert Vec2(qj.vx, qj.vy) == Velocities(mid)[j].Add(k1);
  }

  /** Replacing one particle replaces its velocity and no other. */
  lemma VelocitiesUpdate(r: System, i: nat, q: Particle)
    requires i < |r.particles|
    ensures Velocities(r.(particles := r.particles[i := q])) == Velocities(r)[i := Vec2(q.vx, q.vy)]
  {
    var t := r.(particles := r.particles[i := q]);
    forall n | 0 <= n < |r.particles|
      ensures Velocities(t)[n] == Velocities(r)[i := Vec2(q.vx, q.vy)][n]
    {
    }
  }

  /** Once the inner loop of row `i` is at column `j < n`, its next pair is `(i, j)`. */
  lemma RemainderCons(i: nat, j: nat, n: nat)
    requires j < n
    ensures Row(i, j, n) + PairsFrom(i + 1, n) == [(i, j)] + (Row(i, j + 1, n) + PairsFrom(i + 1, n))
  {
  }

  lemma ValidPairsCons(s: System, p: Pair, rest: seq<Pair>)
    requires ValidPairs(s, [p] + rest)
    ensures ValidPair(s, p) && ValidPairs(s, rest)
  {
    assert ([p] + rest)[0] == p;
    forall n | 0 <= n < |rest|
      ensures ValidPair(s, rest[n])
    {
      assert ([p] + rest)[n + 1] == rest[n];
    }
  }

  /**
   * The velocity pass as the source runs it: an empty system is left alone;
   * otherwise the outer loop runs `i` from 0 to n - 2 and the inner loop `j`
   * from 1 to n - 1, updating the particles in place. It computes
   * `UpdateVel`, although each pair force is taken from the partly updated
   * system: the force does not read the velocities, which are all the
   * loops change.
   */
  method UpdateVelLoops(s: System, force: (Particle, Particle) -> Vec2) returns (r: System)
    requires IgnoresVelocities(force)
    requires |s.particles| >= 2 ==> MassesNonZero(s)
    ensures r == UpdateVel(s, force)
  {
    r := s;
    var len := |r.particles|;
    if len == 0 {
      return;
    }
    PairsInSchedule(len);
    ScheduleValid(s, Pairs(len));
    ghost var final := ApplyPairs(s, Velocities(s), Pairs(len), force);
    ghost var todo := PairsFrom(0, len);
    var i := 0;
    while i < len - 1
      invariant 0 <= i <= len - 1
      invariant SameExceptVelocities(s, r)
      invariant todo == PairsFrom(i, len)
      invariant ValidPairs(s, todo)
      invariant ApplyPairs(s, Velocities(r), todo, force) == final
    {
      assert todo == Row(i, 1, len) + PairsFrom(i + 1, len);
      var j := 1;
      while j < len
        invariant 1 <= j <= len
        invariant SameExceptVelocities(s, r)
        invariant todo == Row(i, j, len) + PairsFrom(i + 1, len)
        invariant ValidPairs(s, todo)
        invariant ApplyPairs(s, Velocities(r), todo, force) == final
      {
        ghost var rest := Row(i, j + 1, len) + PairsFrom(i + 1, len);
        RemainderCons(i, j, len);
        ValidPairsCons(s, (i, j), rest);
        ApplyPairsCons(s, Velocities(r), (i, j), rest, force);
        InnerStepEffect(s, r, i, j, force);
        r := InnerStep(r, i, j, force);
        todo := rest;
        j := j + 1;
      }
      assert todo == PairsFrom(i + 1, len);
      i := i + 1;
    }
    assert Velocities(r) == final;
    Reassemble(s, r);
  }

  /**
   * The total change the velocity pass makes to particle `m`'s velocity:
   * the sum of the changes of every scheduled pair, each computed in the
   * starting system.
   */
  function PassDelta(s: System, m: nat, force: (Particle, Particle) -> Vec2): Vec2
    requires |s.particles| >= 2 ==> MassesNonZero(s)
  {
    PairsInSchedule(|s.particles|);
    ScheduleValid(s, Pairs(|s.particles|));
    SumDelta(s, Pairs(|s.particles|), m, force)
  }

  /**
   * After the velocity pass, each particle's velocity is its old velocity
   * plus its pass change; its position, mass, charge, colour and flag are
   * kept.
   */
  lemma UpdateVelSum(s: System, m: nat, force: (Particle, Particle) -> Vec2)
    requires |s.particles| >= 2 ==> MassesNonZero(s)
    requires m < |s.particles|
    ensures UpdateVel(s, force).particles[m]
         == s.particles[m].(vx := s.particles[m].vx + PassDelta(s, m, force).x,
                            vy := s.particles[m].vy + PassDelta(s, m, force).y)
  {
    var n := |s.particles|;
    PairsInSchedule(n);
    ScheduleValid(s, Pairs(n));
    RunEffect(s, Pairs(n), m, force);
  }

  /** Running pairs from the starting velocities adds each particle's sum of changes to its velocity. */
  lemma RunEffect(s: System, ps: seq<Pair>, m: nat, force: (Particle, Particle) -> Vec2)
    requires ValidPairs(s, ps)
    requires m < |s.particles|
    ensures WithVelocities(s, ApplyPairs(s, Velocities(s), ps, force)).particles[m]
         == s.particles[m].(vx := s.particles[m].vx + SumDelta(s, ps, m, force).x,
                            vy := s.particles[m].vy + SumDelta(s, ps, m, force).y)
  {
    var vs := Velocities(s);
    var ws := ApplyPairs(s, vs, ps, force);
    var d := SumDelta(s, ps, m, force);
    assert ws[m] == vs[m].Add(d) by {
      ApplyPairsEffect(s, vs, ps, m, force);
    }
  }

  /**
   * In one velocity pass each velocity component of particle `m` changes by
   * at most the number of times the schedule touches `m` through a pair of
   * two different indices: n - 1 for the first and the last particle,
   * 2 (n - 2) for the others. The self pair `(m, m)` of an inner particle
   * is visited too but its two kicks cancel.
   */
  lemma UpdateVelDrift(s: System, m: nat, force: (Particle, Particle) -> Vec2)
    requires |s.particles| >= 2 ==> MassesNonZero(s)
    requires m < |s.particles|
    ensures Abs(UpdateVel(s, force).particles[m].vx - s.particles[m].vx) <= CrossBound(|s.particles|, m) as real
    ensures Abs(UpdateVel(s, force).particles[m].vy - s.particles[m].vy) <= CrossBound(|s.particles|, m) as real
  {
    PassDeltaBound(s, m, force);
    UpdateVelSum(s, m, force);
  }

  /** The pass change of particle `m` is at most its number of visits by pairs of two different indices, per component. */
  lemma PassDeltaBound(s: System, m: nat, force: (Particle, Particle) -> Vec2)
    requires |s.particles| >= 2 ==> MassesNonZero(s)
    ensures Abs(PassDelta(s, m, force).x) <= CrossBound(|s.particles|, m) as real
    ensures Abs(PassDelta(s, m, force).y) <= CrossBound(|s.particles|, m) as real
  {
    var n := |s.particles|;
    PairsInSchedule(n);
    ScheduleValid(s, Pairs(n));
    CrossVisitsPairs(n, m);
    SumDeltaBound(s, Pairs(n), m, force);
  }

  /** A pair whose force is zero changes no velocity. */
  lemma DeltaNoForce(s: System, p: Pair, m: nat, force: (Particle, Particle) -> Vec2)
    requires ValidPair(s, p)
    requires PairForce(s, p.0, p.1, force) == Zero
    ensures Delta(s, p, m, force) == Zero
  {
    KickZero(s.particles[p.0]);
    KickZero(s.particles[p.1]);
    assert Zero.Neg() == Zero;
  }

  /** A self pair changes nothing under a force that exerts nothing on a particle from itself. */
  lemma SelfPairHarmless(s: System, m: nat, n: nat, force: (Particle, Particle) -> Vec2)
    requires NoSelfForce(force)
    requires ValidPair(s, (m, m))
    ensures Delta(s, (m, m), n, force) == Zero
  {
    assert force(s.particles[m], s.particles[m]) == Zero;
    assert Zero.Scale(s.k) == Zero;
    DeltaNoForce(s, (m, m), n, force);
  }

  lemma {:induction false} SumDeltaNoCoefficient(s: System, ps: seq<Pair>, m: nat, force: (Particle, Particle) -> Vec2)
    requires ValidPairs(s, ps)
    requires s.k == 0.0
    ensures SumDelta(s, ps, m, force) == Zero
    decreases |ps|
  {
    if ps != [] {
      assert Delta(s, ps[0], m, force) == Zero by {
        var f := force(s.particles[ps[0].0], s.particles[ps[0].1]);
        assert 0.0 * f.x == 0.0 && 0.0 * f.y == 0.0;
        DeltaNoForce(s, ps[0], m, force);
      }
      assert SumDelta(s, ps[1..], m, force) == Zero by {
        SumDeltaNoCoefficient(s, ps[1..], m, force);
      }
      SumDeltaCons(s, ps, m, force);
    }
  }

  /** With a zero coefficient there are no forces, and the velocity pass changes nothing. */
  lemma UpdateVelNoCoefficient(s: System, force: (Particle, Particle) -> Vec2)
    requires |s.particles| >= 2 ==> MassesNonZero(s)
    requires s.k == 0.0
    ensures UpdateVel(s, force) == s
  {
    var r := UpdateVel(s, force);
    forall m | 0 <= m < |s.particles|
      ensures r.particles[m] == s.particles[m]
    {
      UpdateVelSum(s, m, force);
      PairsInSchedule(|s.particles|);
      ScheduleValid(s, Pairs(|s.particles|));
      SumDeltaNoCoefficient(s, Pairs(|s.particles|), m, force);
    }
  }

  /** The change in particle `m`'s velocity from `s` to `r`. */
  function VelocityChange(s: System, r: System, m: nat): Vec2
    requires m < |s.particles| && m < |r.particles|
  {
    Vec2(r.particles[m].vx - s.particles[m].vx, r.particles[m].vy - s.particles[m].vy)
  }

  /** The first particle of a pair of distinct indices gets the kick of the pair's force. */
  lemma PairKickFirst(s: System, i: nat, j: nat, f: Vec2)
    requires i != j && i < |s.particles| && j < |s.particles|
    requires s.particles[i].mass != 0.0 && s.particles[j].mass != 0.0
    ensures PairKick(s, (i, j), i, f) == Kick(s.particles[i], f)
  {
    AddZero(Kick(s.particles[i], f));
  }

  /** The second particle of a pair of distinct indices gets the kick of the opposite force. */
  lemma PairKickSecond(s: System, i: nat, j: nat, d: Vec2, c: real)
    requires i != j && i < |s.particles| && j < |s.particles|
    requires s.particles[i].mass != 0.0 && s.particles[j].mass != 0.0
    ensures PairKick(s, (i, j), j, d.Scale(c)) == Kick(s.particles[j], d.Neg().Scale(c))
  {
    ScaleNeg(d, c);
    ZeroAdd(Kick(s.particles[j], d.Scale(c).Neg()));
  }

  /**
   * A pair of distinct particles of positive mass whose force is `c` times
   * `d` changes its first particle's velocity along `d` with strength `c`.
   */
  lemma PairKickAlongFirst(s: System, i: nat, j: nat, d: Vec2, c: real)
    requires i != j && i < |s.particles| && j < |s.particles|
    requires s.particles[i].mass > 0.0 && s.particles[j].mass > 0.0
    ensures Along(PairKick(s, (i, j), i, d.Scale(c)), c, d)
  {
    PairKickFirst(s, i, j, d.Scale(c));
    KickAlong(s.particles[i], d, c);
  }

  /** ... and its second particle's velocity along the opposite direction. */
  lemma PairKickAlongSecond(s: System, i: nat, j: nat, d: Vec2, c: real)
    requires i != j && i < |s.particles| && j < |s.particles|
    requires s.particles[i].mass > 0.0 && s.particles[j].mass > 0.0
    ensures Along(PairKick(s, (i, j), j, d.Scale(c)), c, d.Neg())
  {
    PairKickSecond(s, i, j, d, c);
    KickAlong(s.particles[j], d.Neg(), c);
  }

  /** A force law that is `w` times the offset gives a pair force of `k * w` times the offset. */
  lemma PairForceScaled(s: System, i: nat, j: nat, force: (Particle, Particle) -> Vec2, w: real)
    requires i < |s.particles| && j < |s.particles|
    requires force(s.particles[i], s.particles[j]) == Offset(s.particles[i], s.particles[j]).Scale(w)
    ensures PairForce(s, i, j, force) == Offset(s.particles[i], s.particles[j]).Scale(s.k * w)
  {
    var d := Offset(s.particles[i], s.particles[j]);
    assert PairForce(s, i, j, force) == d.Scale(w).Scale(s.k);
    ScaleScale(d, w, s.k);
  }

  /**
   * For a force that is `w` times the offset between two distinct particles
   * of positive mass (as the source's force is, with `w` the strength), the
   * pair changes the velocity of its first particle along the offset to the
   * second with strength `k * w`: towards the second particle when `k * w` is
   * positive, away from it when negative, not at all when zero.
   */
  lemma PairDirectionFirst(s: System, i: nat, j: nat, force: (Particle, Particle) -> Vec2, w: real)
    requires i != j && i < |s.particles| && j < |s.particles|
    requires s.particles[i].mass > 0.0 && s.particles[j].mass > 0.0
    requires force(s.particles[i], s.particles[j]) == Offset(s.particles[i], s.particles[j]).Scale(w)
    ensures Along(Delta(s, (i, j), i, force), s.k * w, Offset(s.particles[i], s.particles[j]))
  {
    PairForceScaled(s, i, j, force, w);
    PairKickAlongFirst(s, i, j, Offset(s.particles[i], s.particles[j]), s.k * w);
  }

  /** The same for the pair's second particle, along the offset to the first. */
  lemma PairDirectionSecond(s: System, i: nat, j: nat, force: (Particle, Particle) -> Vec2, w: real)
    requires i != j && i < |s.particles| && j < |s.particles|
    requires s.particles[i].mass > 0.0 && s.particles[j].mass > 0.0
    requires force(s.particles[i], s.particles[j]) == Offset(s.particles[i], s.particles[j]).Scale(w)
    ensures Along(Delta(s, (i, j), j, force), s.k * w, Offset(s.particles[j], s.particles[i]))
  {
    var d := Offset(s.particles[i], s.particles[j]);
    PairForceScaled(s, i, j, force, w);
    assert Offset(s.particles[j], s.particles[i]) == d.Neg();
    PairKickAlongSecond(s, i, j, d, s.k * w);
  }

  /** `k` times the strength has the sign of `k` times the charge product. */
  lemma ScaledStrengthSign(a: Particle, b: Particle, k: real, pow15: real -> real)
    requires IsPow15(pow15)
    requires !Coincident(a, b)
    ensures k * Strength(a, b, pow15) > 0.0 <==> k * (a.charge * b.charge) > 0.0
    ensures k * Strength(a, b, pow15) < 0.0 <==> k * (a.charge * b.charge) < 0.0
  {
    StrengthSign(a, b, pow15);
    ProductSign(k, Strength(a, b, pow15));
    ProductSign(k, a.charge * b.charge);
  }

  /** With two particles the pass runs the single pair (0, 1). */
  lemma PassDeltaTwo(s: System, m: nat, force: (Particle, Particle) -> Vec2)
    requires |s.particles| == 2 && MassesNonZero(s)
    ensures ValidPair(s, (0, 1))
    ensures PassDelta(s, m, force) == Delta(s, (0, 1), m, force)
  {
    TwoParticlePairs();
    var ps := Pairs(2);
    assert ps[1..] == [];
    assert SumDelta(s, ps, m, force) == Delta(s, (0, 1), m, force).Add(Zero);
  }

  /** In a system of two particles, each velocity changes by what the single pair (0, 1) gives it. */
  lemma TwoBodyChange(s: System, m: nat, force: (Particle, Particle) -> Vec2)
    requires |s.particles| == 2 && MassesNonZero(s) && m < 2
    ensures ValidPair(s, (0, 1))
    ensures VelocityChange(s, UpdateVel(s, force), m) == Delta(s, (0, 1), m, force)
  {
    UpdateVelSum(s, m, force);
    PassDeltaTwo(s, m, force);
  }

  /**
   * In a system of two particles of positive mass under a force that is `w`
   * times their offset, one velocity pass changes each velocity along the
   * offset to the other particle with strength `k * w`.
   */
  lemma TwoBodyDirection(s: System, force: (Particle, Particle) -> Vec2, w: real)
    requires |s.particles| == 2
    requires s.particles[0].mass > 0.0 && s.particles[1].mass > 0.0
    requires force(s.particles[0], s.particles[1]) == Offset(s.particles[0], s.particles[1]).Scale(w)
    ensures var r := UpdateVel(s, force);
            && Along(VelocityChange(s, r, 0), s.k * w, Offset(s.particles[0], s.particles[1]))
            && Along(VelocityChange(s, r, 1), s.k * w, Offset(s.particles[1], s.particles[0]))
  {
    TwoBodyChange(s, 0, force);
    TwoBodyChange(s, 1, force);
    PairDirectionFirst(s, 0, 1, force, w);
    PairDirectionSecond(s, 0, 1, force, w);
  }

  /**
   * With the source's force, two particles of positive mass move along
   * their offset with strength `k` times the force strength, whose sign is
   * that of `k` times the charge product when they do not coincide
   * (`ScaledStrengthSign`): with the default, negative `k`, like charges
   * push apart and opposite charges pull together.
   */
  lemma TwoBodySourceDirection(s: System, pow15: real -> real)
    requires |s.particles| == 2
    requires s.particles[0].mass > 0.0 && s.particles[1].mass > 0.0
    ensures var r := UpdateVel(s, ForceLaw(pow15));
            var w := Strength(s.particles[0], s.particles[1], pow15);
            && Along(VelocityChange(s, r, 0), s.k * w, Offset(s.particles[0], s.particles[1]))
            && Along(VelocityChange(s, r, 1), s.k * w, Offset(s.particles[1], s.particles[0]))
  {
    ForceIsScaledOffset(s.particles[0], s.particles[1], pow15);
    TwoBodyDirection(s, ForceLaw(pow15), Strength(s.particles[0], s.particles[1], pow15));
  }

  /**
   * With the source's force and a negative coefficient, as the default
   * `k` is, two distinct particles of positive mass with like charges push
   * apart: each velocity changes with the signs of the offset away from the
   * other particle. With opposite charges they pull together, and when one
   * of them is uncharged neither velocity changes.
   */
  lemma TwoBodyCharges(s: System, pow15: real -> real)
    requires IsPow15(pow15)
    requires |s.particles| == 2
    requires s.particles[0].mass > 0.0 && s.particles[1].mass > 0.0
    requires !Coincident(s.particles[0], s.particles[1])
    requires s.k < 0.0
    ensures var r := UpdateVel(s, ForceLaw(pow15));
            var a, b := s.particles[0], s.particles[1];
            && (a.charge * b.charge > 0.0 ==>
                  SameSigns(VelocityChange(s, r, 0), Offset(b, a)) && SameSigns(VelocityChange(s, r, 1), Offset(a, b)))
            && (a.charge * b.charge < 0.0 ==>
                  SameSigns(VelocityChange(s, r, 0), Offset(a, b)) && SameSigns(VelocityChange(s, r, 1), Offset(b, a)))
            && (a.charge * b.charge == 0.0 ==>
                  VelocityChange(s, r, 0) == Zero && VelocityChange(s, r, 1) == Zero)
  {
    var a, b := s.particles[0], s.particles[1];
    var w := Strength(a, b, pow15);
    TwoBodySourceDirection(s, pow15);
    ScaledStrengthSign(a, b, s.k, pow15);
    StrengthSign(a, b, pow15);
    ProductSign(s.k, a.charge * b.charge);
    assert Offset(a, b).Neg() == Offset(b, a);
    assert Offset(b, a).Neg() == Offset(a, b);
  }
}
