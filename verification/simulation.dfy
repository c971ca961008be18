/**
 * One frame of the simulation as the driver of src/main.rs runs it: the
 * velocity pass with the source's force, then the position pass over the
 * screen, from (0, 0) to the screen's width and height. Drawing, input and
 * the frame counter are not modelled.
 */
module Simulation {
  import opened Particles
  import opened ParticleSystems
  import opened Positions

  /** The box of the position pass: the whole screen. */
  function Screen(width: real, height: real): Bounds {
    Bounds(0.0, width, 0.0, height)
  }

  /**
   * `t` has the particles of `s`, in the same order, with the same masses,
   * charges, colours and flags, the pinned ones at the same place, and the
   * same coefficients.
   */
  predicate KeepsBodies(s: System, t: System) {
    && t.k == s.k
    && t.friction == s.friction
    && |t.particles| == |s.particles|
    && forall n :: 0 <= n < |s.particles| ==> Kept(s.particles[n], t.particles[n])
  }

  predicate Kept(p: Particle, q: Particle) {
    && q.mass == p.mass && q.charge == p.charge && q.color == p.color && q.stationary == p.stationary
    && (p.stationary ==> q.x == p.x && q.y == p.y)
  }

  /** Every particle that is not pinned lies inside the screen. */
  predicate MovingOnScreen(s: System, width: real, height: real) {
    forall n :: 0 <= n < |s.particles| ==> !s.particles[n].stationary ==> InBox(s.particles[n], Screen(width, height))
  }

  /** What a frame needs: masses to divide by when there are pairs, and a screen box the clamp accepts. */
  predicate Runnable(s: System, width: real, height: real) {
    && (|s.particles| >= 2 ==> MassesNonZero(s))
    && UsableBounds(s, Screen(width, height))
  }

  /**
   * One frame: the velocity pass, then the position pass over the screen.
   * It keeps every particle's mass, charge, colour and flag, leaves pinned
   * particles where they are, and ends with every other particle on the
   * screen.
   */
  function Frame(s: System, pow15: real -> real, width: real, height: real): (r: System)
    requires Runnable(s, width, height)
    ensures KeepsBodies(s, r)
    ensures MovingOnScreen(r, width, height)
  {
    var v := ParticleSystems.UpdateVel(s, ForceLaw(pow15));
    assert UsableBounds(v, Screen(width, height)) by {
      forall n | 0 <= n < |v.particles|
        ensures !v.particles[n].stationary ==> Ordered(Screen(width, height))
      {
        assert SameBody(s.particles[n], v.particles[n]);
      }
    }
    var r := UpdatePos(v, Screen(width, height));
    assert KeepsBodies(s, r) by {
      forall n | 0 <= n < |s.particles|
        ensures Kept(s.particles[n], r.particles[n])
      {
        assert SameBody(s.particles[n], v.particles[n]);
        assert OnlyMotion(v.particles[n], r.particles[n]);
      }
    }
    r
  }

  lemma KeptTransitive(p: Particle, q: Particle, r: Particle)
    requires Kept(p, q) && Kept(q, r)
    ensures Kept(p, r)
  {
  }

  /** A system that keeps the bodies of a runnable one is runnable too. */
  lemma KeepsRunnable(s: System, t: System, width: real, height: real)
    requires Runnable(s, width, height)
    requires KeepsBodies(s, t)
    ensures Runnable(t, width, height)
  {
    forall n | 0 <= n < |t.particles|
      ensures t.particles[n].mass == s.particles[n].mass && t.particles[n].stationary == s.particles[n].stationary
    {
      assert Kept(s.particles[n], t.particles[n]);
    }
  }

  /**
   * `count` frames in a row on a screen of fixed size: every particle keeps
   * its mass, charge, colour and flag, pinned particles never move, and after
   * at least one frame every other particle is on the screen.
   */
  function Frames(s: System, pow15: real -> real, width: real, height: real, count: nat): (r: System)
    requires Runnable(s, width, height)
    ensures KeepsBodies(s, r)
    ensures count >= 1 ==> MovingOnScreen(r, width, height)
    decreases count
  {
    if count == 0 then s
    else
      var f := Frame(s, pow15, width, height);
      KeepsRunnable(s, f, width, height);
      var r := Frames(f, pow15, width, height, count - 1);
      assert KeepsBodies(s, r) by {
        forall n | 0 <= n < |s.particles|
          ensures Kept(s.particles[n], r.particles[n])
        {
          KeptTransitive(s.particles[n], f.particles[n], r.particles[n]);
        }
      }
      r
  }

  /** A new system stays empty, frame after frame. */
  lemma NewStaysEmpty(pow15: real -> real, width: real, height: real, count: nat)
    ensures Runnable(New(), width, height)
    ensures Frames(New(), pow15, width, height, count).particles == []
  {
  }
}
