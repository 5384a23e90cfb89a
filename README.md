# PyPhysics particle step, in Dafny

This project models the simulation step of `Particle.py`. That is the code
that moves circular particles under gravity and drag, reflects them off the
walls of a rectangular environment, and resolves elastic collisions between
pairs of particles. It models the following:

- `vectors.dfy` (module `Vectors`): `add_vectors`. Polar vectors use the
  system's own convention: angle 0 points up, x is `sin(angle) * length`,
  y is `cos(angle) * length`, and the result angle is `pi/2 - atan2(y, x)`.
  `math.sin`, `math.cos`, `math.atan2` and `math.hypot` are fields of a
  `Trig` value passed in, so they stay uninterpreted. The model itself
  assumes only that `hypot` is never negative. One lemma,
  `Kinematics.CollideEqualMassesSecondAtRest`, also takes
  `hypot(0, 0) = 0` as a hypothesis.
- `kinematics.dfy` (module `Kinematics`): what `Particle.move`,
  `Environment.bounce` and `collide` do to a particle's fields, written as
  functions on a `Body` value. The lemmas about them state the properties.
- `update_order.dfy` (module `UpdateOrder`): the order in which
  `Environment.update` works through the list, as an explicit schedule of
  events:
  - `Advance(i)`: move and bounce particle i;
  - `Pair(i, j)`: collide particles i and j.

  The lemmas prove that the schedule is strictly ordered by (i, j) and holds
  every move and every unordered pair exactly once.
- `simulation.dfy` (module `Simulation`): one `update` on particle values,
  as the schedule run event by event. Its lemmas cover invariants of a whole
  update and small worked cases.
- `particles.dfy` (module `Particles`): the classes `Particle` and
  `Environment`, and the function `collide`, as imperative code over
  objects whose fields are updated in place.
  - Each mutating method is proved to leave the object in the state the
    corresponding `Kinematics` function describes.
  - `update` is proved equal to the whole schedule. It keeps the source's
    nested loops, with loop invariants.
  - `find_particle` is proved to return the first particle, in list order,
    that contains the point, or `null` when there is none.

`collide` reads `p1.speed` on line 146, after line 145 has already replaced
it. So the second particle's push is computed from the first particle's
new speed, not its speed before the collision. This is not the textbook
one-dimensional elastic collision, under which two equal masses exchange
speeds. The model follows the code as written, and states the consequence
in three lemmas:

- `Kinematics.CollideUsesUpdatedSpeed`;
- `Kinematics.CollideEqualMassesIgnoreFirstVelocity`: with equal masses,
  the second particle's outcome does not depend on the first particle's
  velocity at all;
- `Kinematics.CollideEqualMassesSecondAtRest`: with equal masses and the
  second particle at rest, both particles end at rest.

Floats are modelled as `real`.

## Model

| member | source | states |
|---|---|---|
| `Vectors.AddVectors` | Particle.py:114-126 | the composed vector's length is a hypotenuse, so never negative |
| `Vectors.AddVectorsCommutes` | Particle.py:114-126 | composing two vectors does not depend on their order |
| `Vectors.AddVectorsBySum` | Particle.py:119-126 | the composition depends on its inputs only through the summed x and y components |
| `Vectors.AddZeroVector` | Particle.py:119-126 | adding a vector of length zero, at any angle, just converts the other vector to components and back |
| `Kinematics.MoveBody` | Particle.py:19-23 | move changes only position and velocity; the new angle is that of the velocity composed with gravity; a non-negative drag leaves a non-negative speed |
| `Kinematics.MoveDragAppliedLast` | Particle.py:20-23 | drag is applied after the move: position and angle are those of a drag-free particle, and only the speed is scaled by the drag |
| `Kinematics.MoveShiftInvariant` | Particle.py:19-23 | a particle's position has no bearing on how it moves: moving a shifted particle gives the same velocity and the same result, shifted alike |
| `Particles.Particle.constructor` | Particle.py:4-13 | a new particle is at the given position, at rest, with angle 0, drag 1, elasticity 0.85 and mass 1 unless given |
| `Particles.Particle.Move` | Particle.py:19-23 | the particle's new state is `MoveBody` of its old state, with gravity (pi, 0.002) by default |
| `Particles.Particle.Mouse` | Particle.py:25-30 | the velocity points from the particle to the given position (angle pi/2 + atan2), the speed is a tenth of the distance and not negative, and nothing else changes |
| `Kinematics.BounceBody` | Particle.py:74-102 | bounce changes only position and velocity; a coordinate not past either of its walls is unchanged |
| `Kinematics.BounceRightWall` | Particle.py:80-83 | past the right wall, x is mirrored in x = width - size and ends strictly inside it |
| `Kinematics.BounceLeftWall` | Particle.py:86-89 | past the left wall only, x is mirrored in x = size and ends strictly inside it |
| `Kinematics.BounceRightWallFirst` | Particle.py:80-89 | when x is past both side walls (a box narrower than the particle), only the right-wall branch runs |
| `Kinematics.BounceBottomWall` | Particle.py:93-96 | past the bottom wall, y is mirrored in y = height - size and ends strictly inside it |
| `Kinematics.BounceTopWall` | Particle.py:99-102 | past the top wall only, y is mirrored in y = size and ends strictly inside it |
| `Kinematics.BounceAxesIndependent` | Particle.py:80-102 | the new x depends only on x (for a given size and width), and the new y only on y |
| `Kinematics.BounceVelocity` | Particle.py:80-102 | the new angle is -a after a side wall, pi - a after a floor or ceiling, pi + a in a corner; the speed loses one elasticity factor per axis that fired |
| `Kinematics.BounceInsideUnchanged` | Particle.py:80-102 | a particle inside the box is left exactly as it was |
| `Kinematics.BounceSpeedBounded` | Particle.py:80-102 | with a non-negative wall elasticity, a bounce never makes a non-negative speed negative; with an elasticity of at most 1, never larger |
| `Kinematics.BounceXSpeed` | Particle.py:80-89 | the same bound for the side walls alone |
| `Kinematics.BounceYSpeed` | Particle.py:93-102 | the same bound for the floor and ceiling alone |
| `Particles.Environment.constructor` | Particle.py:34-41 | a new environment has the given size and no particles |
| `Particles.Environment.Bounce` | Particle.py:74-102 | the particle's new state is `BounceBody` of its old state, with the environment's walls and elasticity 0.75 |
| `Particles.Environment.FindParticle` | Particle.py:104-109 | returns null exactly when no particle contains the point; otherwise returns the first particle, in list order, whose centre is within its radius of the point |
| `Kinematics.Rebound` | Particle.py:145-146 | one of the two `add_vectors` calls of collide: a velocity recomposed from the particle's own share and the share it takes from the other; its speed is a hypotenuse, so never negative |
| `Kinematics.CollideBodies` | Particle.py:132-156 | collide changes only positions and velocities; it changes nothing when the particles do not touch; the two position changes are equal and opposite; with a non-negative elasticity product both new speeds are non-negative. The total mass must be non-zero only for touching particles, as only they reach the division |
| `Kinematics.OverlapExceedsHalf` | Particle.py:141-152 | when the particles touch, each is pushed by more than half a unit |
| `Kinematics.CollidePositionsByGeometry` | Particle.py:132-156 | where collide puts the particles depends only on their positions and radii: two pairs that agree on those end at the same positions, whatever their speeds, angles, masses and elasticities |
| `Kinematics.CollideElasticityScalesSpeeds` | Particle.py:148-150 | elasticity is applied after both velocities are recomposed: the result is the perfectly elastic result with both speeds scaled by e1 * e2 |
| `Kinematics.CollideUsesUpdatedSpeed` | Particle.py:145-146 | the second particle's velocity is recomposed from the first particle's new speed, not its old one |
| `Kinematics.SameCollisionGeometry` | Particle.py:132-146 | pairs of particles that differ only in elasticity touch alike and get the same collision angle, overlap and recomposed velocities |
| `Kinematics.CollideEqualMassesIgnoreFirstVelocity` | Particle.py:145-146 | for equal masses, the second particle's result does not depend on the first particle's speed or angle |
| `Kinematics.CollideEqualMassesSecondAtRest` | Particle.py:145-150 | for equal masses with the second particle at rest, both particles end at rest, whatever the first particle's speed |
| `Particles.Collide` | Particle.py:132-156 | the two particles' new states are exactly `CollideBodies` of their old states |
| `Particles.Recompose` | Particle.py:145-146 | p1's velocity is recomposed first, and p2's from p1's updated speed; the other fields are unchanged |
| `Particles.Separate` | Particle.py:152-156 | the particles are pushed apart along the collision angle by `overlap` each, in opposite directions; the other fields are unchanged |
| `UpdateOrder.PairsFrom` | Particle.py:66-67 | the inner loop collides i with exactly j, j + 1, ..., n - 1, in that order |
| `UpdateOrder.StepsFrom` | Particle.py:60-67 | the outer loop from index i on performs only due events, all naming particles from i on, and (n - i)(n - i + 1) / 2 of them |
| `UpdateOrder.Schedule` | Particle.py:59-67 | an update of n particles performs n (n + 1) / 2 events, each a move of some particle or a collision of a pair i < j |
| `UpdateOrder.ScheduleSorted` | Particle.py:59-67 | the events of an update are strictly increasing in (first index, second index) |
| `UpdateOrder.ScheduleExactly` | Particle.py:59-67 | an update performs an event exactly when it is a move of some i < n or a collision of a pair i < j < n |
| `UpdateOrder.ScheduledOnce` | Particle.py:59-67 | no event is performed twice |
| `UpdateOrder.PairBetweenMoves` | Particle.py:59-67 | for i < j, particle i moves before colliding with j, and that collision comes before j moves |
| `Simulation.Advanced` | Particle.py:61-64 | moving and then bouncing a particle keeps its mass, radius, drag and elasticity, and leaves a non-negative speed when drag and wall elasticity are non-negative |
| `Simulation.Apply` | Particle.py:60-67 | an event changes only positions and velocities, and only of the particles it names |
| `Simulation.ApplyKeepsSane` | Particle.py:60-67 | with no negative speed, drag or elasticity before, a single event leaves no negative speed |
| `Simulation.RunKeepsSane` | Particle.py:59-67 | the same holds for any sequence of events |
| `Simulation.Tick` | Particle.py:59-67 | `update` on particle values: the whole schedule run on the list; it keeps the list's length and every particle's mass, radius, drag and elasticity |
| `Simulation.TickKeepsSane` | Particle.py:59-67 | an update keeps every mass, size, drag and elasticity, and leaves no negative speed when none of those constants is negative |
| `Simulation.TickOne` | Particle.py:59-64 | a particle alone is only moved and bounced |
| `Simulation.TickTwo` | Particle.py:59-67 | with two particles, the first is moved and bounced, then collided with the second, which has not moved yet; only then is the second moved and bounced |
| `Particles.Environment.Update` | Particle.py:59-67 | after an update, the particles' states are exactly the whole schedule run on their states before it; the list stays valid |
| `Particles.Environment.MoveAndBounce` | Particle.py:60-64 | the outer loop's first step: particle i's new state is its old state moved and bounced; the others are unchanged |
| `Particles.Environment.CollideWithLater` | Particle.py:66-67 | the inner loop: the states reached are those of running the collisions of i with every later particle, in order |
| `Particles.Environment.CollideLater` | Particle.py:66-67 | one turn of the inner loop: particles i and j get the result of `CollideBodies`; the others are unchanged |

## Left out

- `Environment.add_particles` (Particle.py:43-56) draws sizes, masses, positions and velocities at random. It is not modelled; particles are built with the constructor.
- The `accelerate` branch of `update` (Particle.py:62-63) is not modelled. `acceleration` is always `None`, and `Particle` defines no `accelerate` method.
- Colour, `thickness`, `Environment.color` and `mass_air` are not modelled. They matter only for drawing and for `add_particles`.
- `main.py` is not part of this model. It only opens a window, fills it, shows it and waits for the window to be closed. It does not use `Particle.py`.
- Conservation of momentum and the exchange of speeds between equal masses are not proved, because they do not hold for `collide` as written. Line 146 reads the speed that line 145 has just replaced. `Kinematics.CollideEqualMassesSecondAtRest` shows that when equal masses collide and the second is at rest, both end at rest: the speeds are not swapped and the momentum is lost.
- The model leans on no facts about the trigonometric functions beyond `hypot` being non-negative. So geometric claims are not proved, such as the particles no longer overlapping after `collide`. They would need identities such as sin² + cos² = 1.
- IEEE floating-point rounding, NaN and infinities are not modelled: floats are reals. Python's mixing of `int` and `float` in the initial values makes no difference to a model over the reals.
- Particles.Collide: requires two distinct particles, and a non-zero total mass when they touch. `collide(p, p)` is not modelled, nor is the `ZeroDivisionError` that line 145 raises for touching particles whose masses sum to zero.
- Particles.Environment.Update: requires a valid environment: no particle in the list twice, and every mass positive. The source runs on any list and fails only when a colliding pair's masses sum to zero.
- Particles.Environment.Update: follows the loops over the list by index. The list is not changed during an update, so `self.particles[i + 1:]` being a copy makes no difference.
