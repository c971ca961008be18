# particle-simulator, the physics core in Dafny

This project models the physics of a 2-D charged-particle simulator. The
system holds a list of particles. Each particle has a position, a velocity,
a mass, a charge, a colour and a flag that pins it in place. The system
also has a force coefficient `k` (default -10) and a friction coefficient
(default 1). One frame of the driver runs two passes:

- **The velocity pass** visits index pairs `(i, j)` with `i` in `0 .. n-2`
  and `j` in `1 .. n-1`, self pairs included. For each pair it computes
  `k` times the Coulomb-like force that particle `j` exerts on particle `i`.
  It adds that force over the mass of `i` to the velocity of `i`, and the
  opposite force over the mass of `j` to the velocity of `j`. Each
  component of these increments is clamped to [-1, 1].
- **The position pass** handles every particle that is not pinned. It
  moves the particle by its velocity and scales the velocity by the
  friction coefficient. A particle that has left the screen is clamped
  back onto its edge, first horizontally and then vertically. On each wall
  hit, the velocity component along that axis is multiplied by -0.5 and
  the other component by 0.5.

Modules, one per file:

- `Geometry` (geometry.dfy): 2-D vectors, the float clamp, sign predicates
  and small real-arithmetic facts.
- `Particles` (particle.dfy): the particle record, the pairwise force and
  the velocity update of one particle (`Particle::force`,
  `Particle::update_vel`).
- `PairSchedule` (pair_schedule.dfy): the sequence of index pairs that the
  two nested loops of the velocity pass visit.
- `ParticleSystems` (particle_system.dfy): the system, its scaled pair
  force and the velocity pass (`ParticleSystem::new`, `force(i, j)`,
  `update_vel`).
  - The pass is written as a function over the pair schedule. A method with
    the source's nested loops updates the particles in place and is proved
    to compute the same thing.
  - The pass is generic in the pairwise force. `ForceLaw(pow15)` is the
    source's force. The loop proof needs only `IgnoresVelocities`: velocities
    do not affect the force. `SelfPairHarmless` needs only `NoSelfForce`: a
    particle exerts no force on itself. `IsForceLaw` is the two together, and
    `SourceForceIsForceLaw` proves that the source's force has both.
- `Positions` (positions.dfy): the position pass (`update_pos`), as a
  function and as the source's loop with `continue`.
- `Simulation` (simulation.dfy): one frame and repeated frames, as the
  driver in src/main.rs runs them, on a screen from (0, 0) to (w, h).

The source computes the cube of the distance as `(dx*dx + dy*dy).powf(1.5)`.
The squared distance `dx*dx + dy*dy` is modelled as written
(`Particles.SquaredDistance`); its symmetry and its sign are proved. Only
the power `powf(1.5)` is a parameter `pow15: real -> real` of the force.
Lemmas that need its properties require `IsPow15`: on non-negative
arguments it is non-negative, and zero exactly at zero.

The guard against a zero distance is modelled as written, so it holds for
any `pow15`.

## Model

| member | source | states |
|---|---|---|
| Particles.Force | src/particle/lib.rs:22-31 | Two particles at the same point exert no force on each other, for any power function: either the guard fires or the offset in the numerator is zero. If either particle is uncharged there is no force either. |
| Particles.ForceIsScaledOffset | src/particle/lib.rs:22-31 | The force on a particle is the offset to the other particle scaled by one factor: the charge product over the distance cube, or 0 when the guard fires. |
| Particles.ForceFrame | src/particle/lib.rs:22-31 | The force reads only positions and charges: particles that agree on position and charge feel the same force, whatever their velocity, mass, colour or flag. |
| Particles.ForceAlongOffset | src/particle/lib.rs:28-29 | The force is parallel to the line through the two particles. |
| Particles.SquaredDistanceSymmetric | src/particle/lib.rs:23-25 | `dx*dx + dy*dy` is the same for both orders of the particles: swapping them negates both offsets, and the squares undo the sign. |
| Particles.SquaredDistanceSign | src/particle/lib.rs:23-25 | `dx*dx + dy*dy` is never negative, and is zero exactly when the two particles are at the same point. |
| Particles.DistanceCubedSymmetric | src/particle/lib.rs:23-25 | The distance cube does not depend on the order of the two particles, for any power function. |
| Particles.DistanceCubedPositive | src/particle/lib.rs:25-27 | Under the laws of the power, distinct particles are at a positive distance cube, so the guard fires only for coincident particles. |
| Particles.StrengthSymmetric | src/particle/lib.rs:23-29 | The force factor is the same in both directions, for any power function. |
| Particles.ForceAntisymmetric | src/particle/lib.rs:22-31 | Swapping the particles negates the force (Newton's third law), for any power function. |
| Particles.StrengthSign | src/particle/lib.rs:25-29 | For distinct particles, the force factor has the sign of the charge product, and is zero exactly when the product is. |
| Particles.ForceVanishesIff | src/particle/lib.rs:22-31 | The force is zero if and only if the particles coincide or one of them is uncharged. |
| Particles.ForceDirection | src/particle/lib.rs:22-31 | For distinct particles, like charges give a force towards the other particle and opposite charges a force away from it (positive or negative dot product with the offset). |
| Particles.UpdateVel | src/particle/lib.rs:32-35 | Only the velocity changes. Each component changes by at most 1 in either direction, and by exactly force over mass when that ratio lies in [-1, 1]. |
| Particles.UpdateVelNearest | src/particle/lib.rs:33-34 | Each velocity increment is the point of [-1, 1] nearest to the force component over the mass. |
| Particles.UpdateVelZero | src/particle/lib.rs:32-35 | A zero force leaves the particle unchanged. |
| Particles.Kick | src/particle/lib.rs:33-34 | The increment a force gives a particle lies in [-1, 1] in each component. |
| Particles.KickZero | src/particle/lib.rs:33-34 | A zero force gives a zero increment. |
| Particles.KickOdd | src/particle/lib.rs:33-34 | The opposite force gives the opposite increment: dividing by the mass and clamping to [-1, 1] both commute with negation. |
| Particles.ClampedComponentAlong | src/particle/lib.rs:33-34 | For a positive mass, the clamped increment from a force component `c * x` has the sign of `x` when `c > 0`, the opposite sign when `c < 0`, and is zero when `c = 0`. |
| Particles.KickAlong | src/particle/lib.rs:32-35 | For a positive mass, a force `c` times a direction gives a velocity increment along that direction when `c > 0`, against it when `c < 0`, and none when `c = 0`. |
| Geometry.Clamp | src/particle/lib.rs:33-34 | The clamped value lies in the range, and a value already in the range is returned unchanged. |
| PairSchedule.Row | src/particle/lib.rs:58 | The inner loop of row `i` from column `j` runs `n - j` pairs, the `k`-th being `(i, j + k)`. |
| PairSchedule.PairsFrom | src/particle/lib.rs:57-58 | The outer loop from row `i` on runs `n - 1 - i` rows of `n - 1` pairs each. |
| PairSchedule.Pairs | src/particle/lib.rs:55-58 | A pass over `n > 0` particles visits `(n - 1)^2` pairs; an empty system visits none. |
| PairSchedule.RowMembers | src/particle/lib.rs:58 | The inner loop of row `i`, from column `j` on, visits exactly the pairs `(i, j')` with `j <= j' < n`. |
| PairSchedule.PairsFromMembers | src/particle/lib.rs:57-58 | The outer loop from row `i` on visits exactly the pairs with first index from `i` to `n-2` and second index from 1 to `n-1`. |
| PairSchedule.PairsMembers | src/particle/lib.rs:55-58 | The whole pass visits exactly the pairs `(i, j)` with `i + 1 < n` and `1 <= j < n`. |
| PairSchedule.PairsSmall | src/particle/lib.rs:55-58 | There are no pairs at all exactly when there are fewer than two particles. |
| PairSchedule.SelfPairs | src/particle/lib.rs:57-58 | The self pair `(m, m)` is visited exactly when `1 <= m` and `m + 1 < n`. |
| PairSchedule.BothOrders | src/particle/lib.rs:57-58 | Two distinct indices are visited in both orders exactly when both lie strictly inside `0 .. n-1`. Two distinct particles one of which is the first or the last are visited in exactly one order. |
| PairSchedule.RowOrdered | src/particle/lib.rs:58 | The inner loop visits its pairs in strictly increasing order. |
| PairSchedule.PairsFromOrdered | src/particle/lib.rs:57-58 | The rows from `i` on are visited in strictly increasing row-major order. |
| PairSchedule.PairsOrdered | src/particle/lib.rs:57-58 | The whole pass runs in strictly increasing row-major order, so no pair is visited twice. |
| PairSchedule.VisitsRow | src/particle/lib.rs:58 | How often one row touches index `m`: `n - j` times as the row's own index, plus once as a column. |
| PairSchedule.VisitsPairsFrom | src/particle/lib.rs:57-58 | How often the rows from `i` on touch index `m`: a full row as an outer index, plus once per remaining row as an inner index. |
| PairSchedule.VisitsPairs | src/particle/lib.rs:57-63 | Over one pass, particle `m` receives exactly `VisitBound(n, m)` increments: `n - 1` for the first and last particle, `2 (n - 1)` for the others. |
| PairSchedule.CrossVisitsRow | src/particle/lib.rs:58 | How often one row touches index `m` through pairs of two different indices: the row's own index counts once per column other than itself, any other index once if it is a column. |
| PairSchedule.CrossVisitsPairsFrom | src/particle/lib.rs:57-58 | The same count for the rows from `i` on. |
| PairSchedule.CrossVisitsPairs | src/particle/lib.rs:57-58 | Over one pass, the pairs of two different indices touch particle `m` exactly `CrossBound(n, m)` times: `n - 1` times for the first and the last particle, `2 (n - 2)` times for the others. |
| PairSchedule.TwoParticlePairs | src/particle/lib.rs:57-58 | Two particles make the single pair (0, 1). |
| ParticleSystems.New | src/particle/lib.rs:51-53 | A new system has no particles, a negative force coefficient (so like charges repel, see `TwoBodyCharges`) and friction 1, which keeps velocities in full. |
| ParticleSystems.PairForce | src/particle/lib.rs:93-96 | Scaling by `k` never makes a force out of nothing: a pair whose force law gives zero has zero pair force. |
| ParticleSystems.SourceForceIsForceLaw | src/particle/lib.rs:22-31 | The source's force exerts nothing on a particle from itself and does not read velocities. |
| ParticleSystems.PairForceAlongOffset | src/particle/lib.rs:93-96 | The system's pair force is the offset between the two particles scaled by `k` times the force factor. |
| ParticleSystems.PairForceAntisymmetric | src/particle/lib.rs:93-96 | The system's force on `j` from `i` is the opposite of its force on `i` from `j`. |
| ParticleSystems.PairForceVanishes | src/particle/lib.rs:93-96 | The pair force is zero when `k` is zero or the two particles coincide. |
| ParticleSystems.PairForceScaled | src/particle/lib.rs:93-96 | A force that is `w` times the offset becomes a pair force of `k * w` times the offset. |
| ParticleSystems.ScaledStrengthSign | src/particle/lib.rs:93-96 | For distinct particles, `k` times the force factor has the sign of `k` times the charge product. |
| ParticleSystems.PairKickBound | src/particle/lib.rs:62-63 | A pair changes a velocity component of particle `m` by at most the number of times it touches `m`. |
| ParticleSystems.PairKickSelf | src/particle/lib.rs:59-63 | A self pair changes nothing, whatever its force: the particle takes the increment of the force and then that of its opposite, which cancel. |
| ParticleSystems.PairKickCrossBound | src/particle/lib.rs:59-63 | A pair changes a velocity component of particle `m` by at most the number of times it touches `m` while joining two different particles. |
| ParticleSystems.PairKickAlongFirst | src/particle/lib.rs:62 | The first particle's increment points along the force direction, or against it, according to the sign of the force's factor. |
| ParticleSystems.PairKickAlongSecond | src/particle/lib.rs:63 | The second particle's increment follows the opposite direction. |
| ParticleSystems.SumDeltaBound | src/particle/lib.rs:57-63 | A sequence of pairs changes a velocity component by at most the number of times its pairs of two different indices touch the particle. |
| ParticleSystems.ScheduleValid | src/particle/lib.rs:55-63 | Every scheduled pair names two existing particles with non-zero masses, given non-zero masses whenever there are two particles or more. |
| ParticleSystems.ApplyPairEffect | src/particle/lib.rs:59-63 | One inner-loop step adds that pair's change to each velocity: the force increment to `i`, the opposite increment to `j`, both to a self pair. |
| ParticleSystems.ApplyPairsEffect | src/particle/lib.rs:57-64 | Running pairs in order adds to each velocity the sum of the pairs' changes. |
| ParticleSystems.UpdateVel | src/particle/lib.rs:54-66 | The velocity pass changes nothing but velocities, and leaves a system of fewer than two particles exactly as it was. |
| ParticleSystems.InnerStep | src/particle/lib.rs:59-63 | The inner-loop body changes only velocities, and only those of particles `i` and `j`. |
| ParticleSystems.InnerStepVelocities | src/particle/lib.rs:59-63 | The inner-loop body adds the increment of the pair force to velocity `i` and then that of the opposite force to velocity `j`. |
| ParticleSystems.InnerStepEffect | src/particle/lib.rs:59-63 | On the partly updated system, the inner-loop body computes the same pair force as on the starting system. It changes only the velocities, and changes them as the functional step does. |
| ParticleSystems.UpdateVelLoops | src/particle/lib.rs:54-66 | The source's two nested loops, updating particles in place with forces taken from the partly updated system, give the same result as the velocity pass. |
| ParticleSystems.UpdateVelSum | src/particle/lib.rs:54-66 | After the pass, each particle is as it was except that its velocity has grown by its total change, the sum over all scheduled pairs. |
| ParticleSystems.PassDeltaBound | src/particle/lib.rs:54-66 | A particle's total pass change is at most `CrossBound(n, m)` per component. |
| ParticleSystems.UpdateVelDrift | src/particle/lib.rs:54-66 | In one pass, each velocity component of particle `m` changes by at most `CrossBound(n, m)`: `n - 1` for the first and the last particle, `2 (n - 2)` for the others. The self pair of an inner particle is visited but cancels. |
| ParticleSystems.DeltaNoForce | src/particle/lib.rs:59-63 | A pair whose force is zero changes no velocity. |
| ParticleSystems.SelfPairHarmless | src/particle/lib.rs:57-63 | A self pair changes no velocity, since a particle exerts no force on itself. |
| ParticleSystems.SumDeltaNoCoefficient | src/particle/lib.rs:57-63 | With `k = 0`, no sequence of pairs changes any velocity. |
| ParticleSystems.UpdateVelNoCoefficient | src/particle/lib.rs:54-66 | With `k = 0`, the velocity pass leaves the system unchanged. |
| ParticleSystems.PairDirectionFirst | src/particle/lib.rs:59-63 | If the force is `w` times the offset, the first particle of a pair of distinct, positive masses moves towards the second when `k * w > 0`, away when `k * w < 0`, and not at all when `k * w = 0`. |
| ParticleSystems.PairDirectionSecond | src/particle/lib.rs:59-63 | The same for the second particle, relative to the first. |
| ParticleSystems.PassDeltaTwo | src/particle/lib.rs:54-66 | With two particles, a particle's total pass change is the change from the single pair (0, 1). |
| ParticleSystems.TwoBodyChange | src/particle/lib.rs:54-66 | In a two-particle system, each velocity changes by exactly what pair (0, 1) gives it. |
| ParticleSystems.TwoBodyDirection | src/particle/lib.rs:54-66 | Two particles of positive mass, under a force `w` times their offset: in one pass, each velocity changes along the offset to the other particle, with the sign of `k * w`. |
| ParticleSystems.TwoBodySourceDirection | src/particle/lib.rs:54-66 | With the source's force, two particles of positive mass each change velocity along the line to the other, with the sign of `k` times the force factor. |
| ParticleSystems.TwoBodyCharges | src/particle/lib.rs:54-66 | With the source's force and a negative `k` (the default), two distinct particles of positive mass with like charges move apart: each velocity changes with the signs of the offset away from the other. With opposite charges they move together, and if one is uncharged neither velocity changes. |
| Positions.Drift | src/particle/lib.rs:72-75 | Moving and applying friction change only position and velocity; friction 1 keeps the velocity. |
| Positions.WallX | src/particle/lib.rs:76-80 | The horizontal wall check leaves the particle inside the horizontal range, keeps its vertical position and changes only motion; a particle already inside the range is left alone. |
| Positions.WallY | src/particle/lib.rs:81-85 | The same for the vertical range, keeping the horizontal position. |
| Positions.Step | src/particle/lib.rs:70-85 | A pinned particle is left exactly as it is. A moving one changes only position and velocity, and ends inside the box. |
| Positions.StepClosedForm | src/particle/lib.rs:72-85 | The new position is the drifted position clamped into the box. Each velocity component, after friction, is multiplied by -0.5 for a hit on its own axis and by 0.5 for a hit on the other. |
| Positions.StepInside | src/particle/lib.rs:72-85 | A particle that drifts to a point inside the box keeps that position and the velocity after friction. |
| Positions.StepNearest | src/particle/lib.rs:76-85 | Each coordinate ends at the point of its range nearest to where the drift took it. |
| Positions.WallSendsBackX | src/particle/lib.rs:76-80 | A particle that drifts past a vertical wall ends on it. If it was still moving outwards after friction, it now moves back inwards. |
| Positions.WallSendsBackY | src/particle/lib.rs:81-85 | The same for the horizontal walls. |
| Positions.ReboundReverses | src/particle/lib.rs:78-84 | A hit on a component's own axis reverses its sign, whether or not the other axis was hit. |
| Positions.DampedKeepsSign | src/particle/lib.rs:79-84 | A hit on the other axis keeps a component's sign. |
| Positions.StepNeverSpeedsUp | src/particle/lib.rs:72-85 | With a friction coefficient in [0, 1], a step never increases the magnitude of a velocity component. |
| Positions.DriftNeverSpeedsUp | src/particle/lib.rs:74-75 | Friction in [0, 1] never increases the magnitude of a velocity component. |
| Positions.WallsNeverSpeedUp | src/particle/lib.rs:76-85 | The wall checks never increase the magnitude of a velocity component. |
| Positions.UpdatePos | src/particle/lib.rs:67-87 | The position pass keeps the coefficients and the number of particles, and changes only positions and velocities. It leaves pinned particles exactly as they were and puts every other particle inside the box. |
| Positions.UpdatePosAllPinned | src/particle/lib.rs:69-71 | A system whose particles are all pinned is left unchanged. |
| Positions.UpdatePosLoop | src/particle/lib.rs:67-87 | The source's loop, with `continue` on pinned particles and in-place updates, gives the same result as the position pass. |
| Simulation.Frame | src/main.rs:78-79 | A frame keeps every particle's mass, charge, colour and flag, never moves a pinned particle, and ends with every other particle on screen. |
| Simulation.Frames | src/main.rs:36-95 | Any number of frames on a fixed screen keeps every particle's mass, charge, colour and flag and never moves a pinned particle. After at least one frame, every other particle is on screen. |
| Simulation.NewStaysEmpty | src/particle/lib.rs:51-53 | A new system can run frames and stays empty through any number of them. |

## Left out

- Drawing (`Particle::draw`, `ParticleSystem::draw`, `draw_field`, `draw_potential`): it only renders, and the physics does not depend on it.
- `get_field` and `get_potential` (src/particle/lib.rs:97-107 and 123-132): they compute display quantities and no pass uses them.
- The `Player` type at the end of src/particle/lib.rs: it is unused by the simulation.
- The rest of the driver in src/main.rs:
  - mouse and keyboard input;
  - adding a particle on a click;
  - flipping `k`, popping and clearing particles;
  - the proton and electron counters, the FPS counter, the text.

  Adding or removing particles and flipping `k` are plain edits of the system's fields, and the model already covers systems of any size and any `k`.
- The screen size: `Simulation.Frames` keeps it fixed. The driver reads it every frame, and a window resize is input.
- Floating point: the model computes on mathematical reals. It ignores `f32` rounding, overflow, NaN and infinities. This includes a distance cube that underflows to 0 for particles that are very close but distinct, where the guard would fire.
- `powf(1.5)`: the power is the parameter `pow15`, and lemmas that need its properties require `IsPow15`. Its exact values are not modelled.
- Zero masses: in the source, a non-zero force component over a zero mass is an infinity, which `f32::clamp` turns into 1 or -1. A zero component over a zero mass is 0/0, a NaN, which the clamp passes on into the velocity. This happens on every self pair, whose force is (0, 0). The model requires non-zero masses whenever the velocity pass has pairs, that is with two particles or more.
- Reversed wall ranges: `f32::clamp` panics when the minimum exceeds the maximum. `Positions.UpdatePos` requires ordered ranges whenever some particle is not pinned, which is exactly when the clamp can be reached.
- `Particle::x` (src/particle/lib.rs:18): its body is empty.
- `Particle::new` (src/particle/lib.rs:19-21): the datatype constructor `Particle` stands for it.
- Colour: `Particles.Color` is carried as four reals. No operation reads it.
- ParticleSystems.TwoBodyDirection: the direction of the velocity change is proved for two-particle systems only. With more particles the pairs' changes add up, and their directions can cancel.
- ParticleSystems.UpdateVel: its own contract states only what the pass keeps. The velocities it computes are stated by `ParticleSystems.UpdateVelSum`, and `ParticleSystems.UpdateVelLoops` proves that the source's loops compute them.
