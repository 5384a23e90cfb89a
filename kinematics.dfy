/** The physics of Particle.py on particle values: what `Particle.move`,
    `Environment.bounce` and `collide` do to the fields of the particles they
    are given. The classes in particles.dfy are proved to behave like these
    functions. */
module Kinematics {
  import opened Vectors

  /// The default gravity of `Particle.move`: straight down, length 0.002.
  const GRAVITY: Vec := Vec(PI, 0.002)

  /// The factor `Particle.mouse` applies to the distance to the pointer.
  const MOUSE_SCALE: real := 0.1

  /// The physical state of one particle (colour and thickness are not modelled).
  datatype Body = Body(
    x: real, y: real,
    size: real,
    speed: real, angle: real,
    mass: real, drag: real, elasticity: real)

  /// The environment's walls and the fraction of speed a wall bounce keeps.
  datatype Walls = Walls(width: real, height: real, elasticity: real)

  /// `r` has the radius, mass, drag and elasticity of `b`: only position and velocity may differ.
  predicate Keeps(b: Body, r: Body) {
    r.size == b.size && r.mass == b.mass && r.drag == b.drag && r.elasticity == b.elasticity
  }

  function Velocity(b: Body): Vec {
    Vec(b.angle, b.speed)
  }

  // ---------------------------------------------------------------- move

  /** Particle.move: compose the velocity with gravity, move by the composed
      velocity, then damp the new speed by the drag factor. */
  function MoveBody(t: Trig, gravity: Vec, b: Body): (r: Body)
    ensures Keeps(b, r)
    ensures 0.0 <= b.drag ==> 0.0 <= r.speed
    ensures r.angle == AddVectors(t, Velocity(b), gravity).angle
  {
    var v := AddVectors(t, Velocity(b), gravity);
    b.(angle := v.angle,
       x := b.x + t.sin(v.angle) * v.length,
       y := b.y - t.cos(v.angle) * v.length,
       speed := v.length * b.drag)
  }

  /** Drag is applied last: the displacement of this tick is that of a body
      without drag, and the drag factor only scales the speed left for the
      next tick. */
  lemma MoveDragAppliedLast(t: Trig, gravity: Vec, b: Body)
    ensures var r, u := MoveBody(t, gravity, b), MoveBody(t, gravity, b.(drag := 1.0));
      r.x == u.x && r.y == u.y && r.angle == u.angle && r.speed == u.speed * b.drag
  {
  }

  /** Where a body is has no bearing on how it moves: moving a shifted body
      gives the same velocity and the same displacement, shifted alike. */
  lemma MoveShiftInvariant(t: Trig, gravity: Vec, b: Body, dx: real, dy: real)
    ensures var r, u := MoveBody(t, gravity, b), MoveBody(t, gravity, b.(x := b.x + dx, y := b.y + dy));
      u == r.(x := r.x + dx, y := r.y + dy)
  {
    var c := b.(x := b.x + dx, y := b.y + dy);
    var v := AddVectors(t, Velocity(b), gravity);
    assert Velocity(c) == Velocity(b);
    var dxMove, dyMove := t.sin(v.angle) * v.length, t.cos(v.angle) * v.length;
    assert MoveBody(t, gravity, b) == b.(angle := v.angle, x := b.x + dxMove, y := b.y - dyMove, speed := v.length * b.drag);
    assert MoveBody(t, gravity, c) == c.(angle := v.angle, x := c.x + dxMove, y := c.y - dyMove, speed := v.length * b.drag);
  }

  // ---------------------------------------------------------------- bounce

  /// The first test of bounce: past the right wall.
  predicate HitsRight(w: Walls, b: Body) { b.x > w.width - b.size }
  /// The `elif` of the x axis: past the left wall, and not past the right one.
  predicate HitsLeft(w: Walls, b: Body) { !HitsRight(w, b) && b.x < b.size }
  /// The first test of the y axis: past the bottom wall.
  predicate HitsBottom(w: Walls, b: Body) { b.y > w.height - b.size }
  /// The `elif` of the y axis: past the top wall, and not past the bottom one.
  predicate HitsTop(w: Walls, b: Body) { !HitsBottom(w, b) && b.y < b.size }

  predicate HitsX(w: Walls, b: Body) { HitsRight(w, b) || HitsLeft(w, b) }
  predicate HitsY(w: Walls, b: Body) { HitsBottom(w, b) || HitsTop(w, b) }

  /// The x half of bounce: reflect x in the wall it passed, negate the angle, lose speed.
  function BounceX(w: Walls, b: Body): Body {
    if b.x > w.width - b.size then
      b.(x := 2.0 * (w.width - b.size) - b.x, angle := -b.angle, speed := b.speed * w.elasticity)
    else if b.x < b.size then
      b.(x := 2.0 * b.size - b.x, angle := -b.angle, speed := b.speed * w.elasticity)
    else
      b
  }

  /// The y half of bounce: reflect y in the wall it passed, angle becomes pi minus angle, lose speed.
  function BounceY(w: Walls, b: Body): Body {
    if b.y > w.height - b.size then
      b.(y := 2.0 * (w.height - b.size) - b.y, angle := PI - b.angle, speed := b.speed * w.elasticity)
    else if b.y < b.size then
      b.(y := 2.0 * b.size - b.y, angle := PI - b.angle, speed := b.speed * w.elasticity)
    else
      b
  }

  /// Environment.bounce: the x axis first, then the y axis, independently.
  function BounceBody(w: Walls, b: Body): (r: Body)
    ensures Keeps(b, r)
    ensures !HitsX(w, b) ==> r.x == b.x
    ensures !HitsY(w, b) ==> r.y == b.y
  {
    BounceY(w, BounceX(w, b))
  }

  /** Past the right wall, x is mirrored in the line x = width - size and ends
      strictly inside it. */
  lemma BounceRightWall(w: Walls, b: Body)
    requires HitsRight(w, b)
    ensures var r := BounceBody(w, b);
      r.x + b.x == 2.0 * (w.width - b.size) && r.x < w.width - b.size
  {
  }

  /** Past the left wall (and not the right one), x is mirrored in the line
      x = size and ends strictly inside it. */
  lemma BounceLeftWall(w: Walls, b: Body)
    requires HitsLeft(w, b)
    ensures var r := BounceBody(w, b);
      r.x + b.x == 2.0 * b.size && r.x > b.size
  {
  }

  /** The two x branches are exclusive: in a box narrower than the particle,
      where x is past both walls at once, only the right-wall reflection is
      applied, and the angle is negated only once. */
  lemma BounceRightWallFirst(w: Walls, b: Body)
    requires b.x > w.width - b.size && b.x < b.size
    ensures var r := BounceBody(w, b);
      r.x + b.x == 2.0 * (w.width - b.size) && !HitsLeft(w, b)
  {
  }

  /// Past the bottom wall, y is mirrored in the line y = height - size and ends strictly inside it.
  lemma BounceBottomWall(w: Walls, b: Body)
    requires HitsBottom(w, b)
    ensures var r := BounceBody(w, b);
      r.y + b.y == 2.0 * (w.height - b.size) && r.y < w.height - b.size
  {
  }

  /// Past the top wall (and not the bottom one), y is mirrored in the line y = size and ends strictly inside it.
  lemma BounceTopWall(w: Walls, b: Body)
    requires HitsTop(w, b)
    ensures var r := BounceBody(w, b);
      r.y + b.y == 2.0 * b.size && r.y > b.size
  {
  }

  /** The axes are independent: the new x depends only on x, size and width,
      and the new y only on y, size and height. */
  lemma BounceAxesIndependent(w: Walls, b1: Body, b2: Body)
    requires b1.size == b2.size
    ensures b1.x == b2.x ==> BounceBody(w, b1).x == BounceBody(w, b2).x
    ensures b1.y == b2.y ==> BounceBody(w, b1).y == BounceBody(w, b2).y
  {
  }

  /** The velocity after a bounce, by the axes that fired: the angle is
      negated for x, replaced by pi minus itself for y, so pi plus itself in a
      corner; the speed is scaled once per axis that fired. */
  lemma BounceVelocity(w: Walls, b: Body)
    ensures var r, e := BounceBody(w, b), w.elasticity;
      (HitsX(w, b) && HitsY(w, b) ==> r.angle == PI + b.angle && r.speed == b.speed * e * e) &&
      (HitsX(w, b) && !HitsY(w, b) ==> r.angle == -b.angle && r.speed == b.speed * e) &&
      (!HitsX(w, b) && HitsY(w, b) ==> r.angle == PI - b.angle && r.speed == b.speed * e) &&
      (!HitsX(w, b) && !HitsY(w, b) ==> r.angle == b.angle && r.speed == b.speed)
  {
  }

  /// A particle inside the box is left exactly as it was.
  lemma BounceInsideUnchanged(w: Walls, b: Body)
    requires b.size <= b.x <= w.width - b.size
    requires b.size <= b.y <= w.height - b.size
    ensures BounceBody(w, b) == b
  {
  }

  /** With a non-negative elasticity a bounce never makes a non-negative speed
      negative; with an elasticity of at most 1 it never makes it larger. */
  lemma BounceSpeedBounded(w: Walls, b: Body)
    requires 0.0 <= w.elasticity && 0.0 <= b.speed
    ensures 0.0 <= BounceBody(w, b).speed
    ensures w.elasticity <= 1.0 ==> BounceBody(w, b).speed <= b.speed
  {
    BounceXSpeed(w, b);
    BounceYSpeed(w, BounceX(w, b));
  }

  /// The x half of bounce loses speed as BounceSpeedBounded says.
  lemma BounceXSpeed(w: Walls, b: Body)
    requires 0.0 <= w.elasticity && 0.0 <= b.speed
    ensures 0.0 <= BounceX(w, b).speed
    ensures w.elasticity <= 1.0 ==> BounceX(w, b).speed <= b.speed
  {
    var s := BounceX(w, b).speed;
    Damp(b.speed, w.elasticity);
    assert s == b.speed * w.elasticity || s == b.speed;
  }

  /// The y half of bounce loses speed as BounceSpeedBounded says.
  lemma BounceYSpeed(w: Walls, b: Body)
    requires 0.0 <= w.elasticity && 0.0 <= b.speed
    ensures 0.0 <= BounceY(w, b).speed
    ensures w.elasticity <= 1.0 ==> BounceY(w, b).speed <= b.speed
  {
    var s := BounceY(w, b).speed;
    Damp(b.speed, w.elasticity);
    assert s == b.speed * w.elasticity || s == b.speed;
  }

  /** Scaling a non-negative number by a non-negative factor keeps it
      non-negative, and by a factor of at most 1 makes it no larger. */
  lemma Damp(a: real, e: real)
    requires 0.0 <= a && 0.0 <= e
    ensures 0.0 <= a * e
    ensures e <= 1.0 ==> a * e <= a
  {
    if e <= 1.0 {
      assert a * e <= a * 1.0;
    }
  }

  // ---------------------------------------------------------------- collide

  /// The distance between the two centres, as collide measures it.
  function Distance(t: Trig, b1: Body, b2: Body): real {
    t.hypot(b1.x - b2.x, b1.y - b2.y)
  }

  /// collide acts only when the centres are closer than the sum of the radii.
  predicate Touching(t: Trig, b1: Body, b2: Body) {
    Distance(t, b1, b2) < b1.size + b2.size
  }

  /// The direction of the collision: from the second centre towards the first, in the system's convention.
  function CollisionAngle(t: Trig, b1: Body, b2: Body): real {
    t.atan2(b1.y - b2.y, b1.x - b2.x) + 0.5 * PI
  }

  /// How far collide pushes each body apart (half the overlap plus one).
  function Overlap(t: Trig, b1: Body, b2: Body): real {
    0.5 * (b1.size + b2.size - Distance(t, b1, b2) + 1.0)
  }

  /// A body's own share of its speed after a collision: scaled by the mass difference over the total mass.
  function OwnShare(speed: real, ownMass: real, otherMass: real): real
    requires ownMass + otherMass != 0.0
  {
    speed * (ownMass - otherMass) / (ownMass + otherMass)
  }

  /// The speed a body receives from the other one: twice the other's speed times its share of the total mass.
  function Transfer(otherSpeed: real, ownMass: real, otherMass: real): real
    requires ownMass + otherMass != 0.0
  {
    2.0 * otherSpeed * otherMass / (ownMass + otherMass)
  }

  /** The velocity `b1` gets from a collision with `b2`, before elasticity:
      its own velocity scaled by the mass difference, plus a push along
      `angle` proportional to `otherSpeed` and the other's mass. */
  function Rebound(t: Trig, b1: Body, b2: Body, angle: real, otherSpeed: real): (v: Vec)
    requires b1.mass + b2.mass != 0.0
    ensures 0.0 <= v.length
  {
    AddVectors(t, Vec(b1.angle, OwnShare(b1.speed, b1.mass, b2.mass)),
                  Vec(angle, Transfer(otherSpeed, b1.mass, b2.mass)))
  }

  /** collide: when the bodies touch, both velocities are recomposed (the
      second from the first's already recomposed speed), both speeds are
      scaled by the product of the elasticities, and the bodies are pushed
      apart along the collision angle by equal and opposite displacements. */
  function CollideBodies(t: Trig, b1: Body, b2: Body): (r: (Body, Body))
    requires Touching(t, b1, b2) ==> b1.mass + b2.mass != 0.0
    ensures Keeps(b1, r.0) && Keeps(b2, r.1)
    ensures !Touching(t, b1, b2) ==> r == (b1, b2)
    ensures r.0.x - b1.x == -(r.1.x - b2.x) && r.0.y - b1.y == -(r.1.y - b2.y)
    ensures Touching(t, b1, b2) && 0.0 <= b1.elasticity * b2.elasticity ==>
      0.0 <= r.0.speed && 0.0 <= r.1.speed
  {
    if Touching(t, b1, b2) then
      var angle := CollisionAngle(t, b1, b2);
      var v1 := Rebound(t, b1, b2, angle, b2.speed);
      var v2 := Rebound(t, b2, b1, angle + PI, v1.length);
      var e := b1.elasticity * b2.elasticity;
      var overlap := Overlap(t, b1, b2);
      (b1.(angle := v1.angle, speed := v1.length * e,
           x := b1.x + t.sin(angle) * overlap, y := b1.y - t.cos(angle) * overlap),
       b2.(angle := v2.angle, speed := v2.length * e,
           x := b2.x - t.sin(angle) * overlap, y := b2.y + t.cos(angle) * overlap))
    else
      (b1, b2)
  }

  /// CollideBodies in the touching case, spelled out step by step.
  lemma CollideWhenTouching(t: Trig, b1: Body, b2: Body,
                            angle: real, v1: Vec, v2: Vec, e: real, overlap: real)
    requires b1.mass + b2.mass != 0.0
    requires Touching(t, b1, b2)
    requires angle == CollisionAngle(t, b1, b2) && overlap == Overlap(t, b1, b2)
    requires v1 == Rebound(t, b1, b2, angle, b2.speed)
    requires v2 == Rebound(t, b2, b1, angle + PI, v1.length)
    requires e == b1.elasticity * b2.elasticity
    ensures CollideBodies(t, b1, b2).0 ==
      b1.(angle := v1.angle, speed := v1.length * e,
          x := b1.x + t.sin(angle) * overlap, y := b1.y - t.cos(angle) * overlap)
    ensures CollideBodies(t, b1, b2).1 ==
      b2.(angle := v2.angle, speed := v2.length * e,
          x := b2.x - t.sin(angle) * overlap, y := b2.y + t.cos(angle) * overlap)
  {
    var r := CollideBodies(t, b1, b2);
    assert r.0.angle == v1.angle && r.0.speed == v1.length * e;
    assert r.0.x == b1.x + t.sin(angle) * overlap && r.0.y == b1.y - t.cos(angle) * overlap;
    assert r.1.angle == v2.angle && r.1.speed == v2.length * e;
    assert r.1.x == b2.x - t.sin(angle) * overlap && r.1.y == b2.y + t.cos(angle) * overlap;
  }

  /// When collide acts, each body is pushed apart by more than half a unit.
  lemma OverlapExceedsHalf(t: Trig, b1: Body, b2: Body)
    requires Touching(t, b1, b2)
    ensures Overlap(t, b1, b2) > 0.5
  {
  }

  /** Where collide puts the bodies depends only on where they were and how
      big they are: two pairs with the same positions and radii end at the
      same positions, whatever their speeds, angles, masses and elasticities. */
  lemma CollidePositionsByGeometry(t: Trig, b1: Body, b2: Body, c1: Body, c2: Body)
    requires Touching(t, b1, b2) ==> b1.mass + b2.mass != 0.0
    requires Touching(t, c1, c2) ==> c1.mass + c2.mass != 0.0
    requires c1.x == b1.x && c1.y == b1.y && c1.size == b1.size
    requires c2.x == b2.x && c2.y == b2.y && c2.size == b2.size
    ensures var r, u := CollideBodies(t, b1, b2), CollideBodies(t, c1, c2);
      u.0.x == r.0.x && u.0.y == r.0.y && u.1.x == r.1.x && u.1.y == r.1.y
  {
  }

  /** Elasticity is applied after both velocities are recomposed: it scales
      the two speeds by the same factor and changes nothing else. */
  lemma CollideElasticityScalesSpeeds(t: Trig, b1: Body, b2: Body)
    requires b1.mass + b2.mass != 0.0
    requires Touching(t, b1, b2)
    ensures var r, u := CollideBodies(t, b1, b2),
                        CollideBodies(t, b1.(elasticity := 1.0), b2.(elasticity := 1.0));
      var e := b1.elasticity * b2.elasticity;
      r.0 == u.0.(speed := u.0.speed * e, elasticity := b1.elasticity) &&
      r.1 == u.1.(speed := u.1.speed * e, elasticity := b2.elasticity)
  {
    var c1, c2 := b1.(elasticity := 1.0), b2.(elasticity := 1.0);
    SameCollisionGeometry(t, b1, b2, c1, c2);
    var angle := CollisionAngle(t, b1, b2);
    var v1 := Rebound(t, b1, b2, angle, b2.speed);
    var v2 := Rebound(t, b2, b1, angle + PI, v1.length);
    var u := CollideBodies(t, c1, c2);
    assert c1.elasticity * c2.elasticity == 1.0;
    assert u.0.speed == v1.length && u.1.speed == v2.length;
  }

  /** The second body's velocity is recomposed from the first body's NEW
      speed (before elasticity), not its speed before the collision. */
  lemma CollideUsesUpdatedSpeed(t: Trig, b1: Body, b2: Body)
    requires b1.mass + b2.mass != 0.0
    requires Touching(t, b1, b2)
    ensures var u := CollideBodies(t, b1.(elasticity := 1.0), b2.(elasticity := 1.0));
      Velocity(u.1) == Rebound(t, b2, b1, CollisionAngle(t, b1, b2) + PI, u.0.speed)
  {
    var c1, c2 := b1.(elasticity := 1.0), b2.(elasticity := 1.0);
    SameCollisionGeometry(t, b1, b2, c1, c2);
  }

  /// Two pairs of bodies that differ at most in elasticity are recomposed alike.
  lemma SameCollisionGeometry(t: Trig, b1: Body, b2: Body, c1: Body, c2: Body)
    requires b1.mass + b2.mass != 0.0
    requires c1 == b1.(elasticity := c1.elasticity) && c2 == b2.(elasticity := c2.elasticity)
    ensures Touching(t, c1, c2) == Touching(t, b1, b2)
    ensures CollisionAngle(t, c1, c2) == CollisionAngle(t, b1, b2)
    ensures Overlap(t, c1, c2) == Overlap(t, b1, b2)
    ensures forall a, s :: Rebound(t, c1, c2, a, s) == Rebound(t, b1, b2, a, s)
    ensures forall a, s :: Rebound(t, c2, c1, a, s) == Rebound(t, b2, b1, a, s)
  {
  }

  /** A consequence of reading the updated speed: for equal masses, what
      happens to the second body does not depend on the first body's velocity
      at all (the first body's own contribution is scaled by a zero mass
      difference). */
  lemma CollideEqualMassesIgnoreFirstVelocity(t: Trig, b1: Body, b2: Body, speed: real, angle: real)
    requires b1.mass == b2.mass && 0.0 < b1.mass
    ensures CollideBodies(t, b1, b2).1 == CollideBodies(t, b1.(speed := speed, angle := angle), b2).1
  {
    var c := b1.(speed := speed, angle := angle);
    if Touching(t, b1, b2) {
      var a := CollisionAngle(t, b1, b2);
      assert CollisionAngle(t, c, b2) == a && Touching(t, c, b2);
      assert OwnShare(b1.speed, b1.mass, b2.mass) == 0.0;
      assert OwnShare(c.speed, c.mass, b2.mass) == 0.0;
      var push := Vec(a, Transfer(b2.speed, b1.mass, b2.mass));
      AddZeroVector(t, push, b1.angle);
      AddZeroVector(t, push, c.angle);
      AddVectorsCommutes(t, Vec(b1.angle, 0.0), push);
      AddVectorsCommutes(t, Vec(c.angle, 0.0), push);
      assert Rebound(t, b1, b2, a, b2.speed) == Rebound(t, c, b2, a, b2.speed);
      assert Rebound(t, b2, b1, a + PI, Rebound(t, b1, b2, a, b2.speed).length)
          == Rebound(t, b2, c, a + PI, Rebound(t, c, b2, a, b2.speed).length);
    }
  }

  /** The plainest case of the above: for equal masses with the second body at
      rest, both bodies end at rest, whatever the first body's speed, because
      the first body hands over its new speed (zero) rather than its old one.
      Only hypot(0, 0) = 0 is assumed of the trigonometry. */
  lemma CollideEqualMassesSecondAtRest(t: Trig, b1: Body, b2: Body)
    requires b1.mass == b2.mass && 0.0 < b1.mass
    requires b2.speed == 0.0 && Touching(t, b1, b2)
    requires t.hypot(0.0, 0.0) == 0.0
    ensures CollideBodies(t, b1, b2).0.speed == 0.0 && CollideBodies(t, b1, b2).1.speed == 0.0
  {
    var a := CollisionAngle(t, b1, b2);
    assert OwnShare(b1.speed, b1.mass, b2.mass) == 0.0;
    assert Transfer(b2.speed, b1.mass, b2.mass) == 0.0;
    var v1 := Rebound(t, b1, b2, a, b2.speed);
    assert v1.length == 0.0;
    assert OwnShare(b2.speed, b2.mass, b1.mass) == 0.0;
    assert Transfer(v1.length, b2.mass, b1.mass) == 0.0;
    var v2 := Rebound(t, b2, b1, a + PI, v1.length);
    assert v2.length == 0.0;
    CollideWhenTouching(t, b1, b2, a, v1, v2, b1.elasticity * b2.elasticity, Overlap(t, b1, b2));
  }
}
