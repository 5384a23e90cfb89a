/** The objects of Particle.py: particles whose fields are updated in place,
    the environment that owns the list of particles, and `collide`. Each
    mutating method is proved to do to the fields what the functions of
    Kinematics and Tick say. */
module Particles {
  import opened Vectors
  import opened Kinematics
  import opened UpdateOrder
  import opened Simulation

  class Particle {
    var x: real
    var y: real
    var size: real
    var speed: real
    var angle: real
    var mass: real
    var drag: real
    var elasticity: real

    /// The particle's current physical state as a value.
    function Snapshot(): Body
      reads this
    {
      Body(x, y, size, speed, angle, mass, drag, elasticity)
    }

    /// A particle at rest at `position`, with no drag, elasticity 0.85 and mass 1 unless given.
    constructor (position: (real, real), size: real, mass: real := 1.0)
      ensures Snapshot() == Body(position.0, position.1, size, 0.0, 0.0, mass, 1.0, 0.85)
    {
      x, y := position.0, position.1;
      this.size := size;
      speed := 0.0;
      angle := 0.0;
      this.mass := mass;
      drag := 1.0;
      elasticity := 0.85;
    }

    /// Compose the velocity with gravity, move, then apply drag.
    method Move(t: Trig, gravity: Vec := GRAVITY)
      modifies this
      ensures Snapshot() == MoveBody(t, gravity, old(Snapshot()))
    {
      var v := AddVectors(t, Vec(angle, speed), gravity);
      angle, speed := v.angle, v.length;
      x := x + t.sin(angle) * speed;
      y := y - t.cos(angle) * speed;
      speed := speed * drag;
    }

    /** Point the velocity at `position`, with a speed of a tenth of the
        distance to it; nothing else changes. */
    method Mouse(t: Trig, position: (real, real))
      modifies this
      ensures angle == 0.5 * PI + t.atan2(position.1 - old(y), position.0 - old(x))
      ensures speed == t.hypot(position.0 - old(x), position.1 - old(y)) * MOUSE_SCALE
      ensures 0.0 <= speed
      ensures Snapshot() == old(Snapshot()).(angle := angle, speed := speed)
    {
      var dx := position.0 - x;
      var dy := position.1 - y;
      angle := 0.5 * PI + t.atan2(dy, dx);
      speed := t.hypot(dx, dy) * MOUSE_SCALE;
    }
  }

  /** collide: when the two particles overlap, recompose both velocities,
      damp them by both elasticities and push the particles apart. */
  method Collide(t: Trig, p1: Particle, p2: Particle)
    requires p1 != p2
    requires Touching(t, p1.Snapshot(), p2.Snapshot()) ==> p1.mass + p2.mass != 0.0
    modifies p1, p2
    ensures p1.Snapshot() == CollideBodies(t, old(p1.Snapshot()), old(p2.Snapshot())).0
    ensures p2.Snapshot() == CollideBodies(t, old(p1.Snapshot()), old(p2.Snapshot())).1
  {
    var b1, b2 := p1.Snapshot(), p2.Snapshot();
    var dx := b1.x - b2.x;
    var dy := b1.y - b2.y;
    var distance := t.hypot(dx, dy);
    if distance < b1.size + b2.size {
      assert Touching(t, b1, b2) && b1.mass + b2.mass != 0.0;
      var angle := t.atan2(dy, dx) + 0.5 * PI;
      var v1, v2 := Recompose(t, p1, p2, angle);
      var elasticity := b1.elasticity * b2.elasticity;
      p1.speed := p1.speed * elasticity;
      p2.speed := p2.speed * elasticity;
      assert p1.Snapshot() == b1.(angle := v1.angle, speed := v1.length * elasticity);
      assert p2.Snapshot() == b2.(angle := v2.angle, speed := v2.length * elasticity);
      var overlap := 0.5 * (b1.size + b2.size - distance + 1.0);
      Separate(t, p1, p2, angle, overlap);
      CollideWhenTouching(t, b1, b2, angle, v1, v2, elasticity, overlap);
      assert p1.Snapshot() == b1.(angle := v1.angle, speed := v1.length * elasticity,
          x := b1.x + t.sin(angle) * overlap, y := b1.y - t.cos(angle) * overlap);
      assert p2.Snapshot() == b2.(angle := v2.angle, speed := v2.length * elasticity,
          x := b2.x - t.sin(angle) * overlap, y := b2.y + t.cos(angle) * overlap);
    } else {
      assert !Touching(t, b1, b2);
    }
  }

  /** The first step of collide: recompose p1's velocity, then p2's from p1's
      speed as just updated; the new velocities are also returned. */
  method Recompose(t: Trig, p1: Particle, p2: Particle, angle: real) returns (v1: Vec, v2: Vec)
    requires p1 != p2
    requires p1.mass + p2.mass != 0.0
    modifies p1, p2
    ensures v1 == Rebound(t, old(p1.Snapshot()), old(p2.Snapshot()), angle, old(p2.speed))
    ensures v2 == Rebound(t, old(p2.Snapshot()), old(p1.Snapshot()), angle + PI, v1.length)
    ensures p1.Snapshot() == old(p1.Snapshot()).(angle := v1.angle, speed := v1.length)
    ensures p2.Snapshot() == old(p2.Snapshot()).(angle := v2.angle, speed := v2.length)
  {
    ghost var b1, b2 := p1.Snapshot(), p2.Snapshot();
    v1 := AddVectors(t, Vec(p1.angle, OwnShare(p1.speed, p1.mass, p2.mass)),
                        Vec(angle, Transfer(p2.speed, p1.mass, p2.mass)));
    p1.angle, p1.speed := v1.angle, v1.length;
    v2 := AddVectors(t, Vec(p2.angle, OwnShare(p2.speed, p2.mass, p1.mass)),
                        Vec(angle + PI, Transfer(p1.speed, p2.mass, p1.mass)));
    p2.angle, p2.speed := v2.angle, v2.length;
  }

  /// The last step of collide: push the two particles apart along `angle`, by `overlap` each.
  method Separate(t: Trig, p1: Particle, p2: Particle, angle: real, overlap: real)
    requires p1 != p2
    modifies p1, p2
    ensures p1.Snapshot() == old(p1.Snapshot()).(x := old(p1.x) + t.sin(angle) * overlap,
                                                y := old(p1.y) - t.cos(angle) * overlap)
    ensures p2.Snapshot() == old(p2.Snapshot()).(x := old(p2.x) - t.sin(angle) * overlap,
                                                y := old(p2.y) + t.cos(angle) * overlap)
  {
    p1.x := p1.x + t.sin(angle) * overlap;
    p1.y := p1.y - t.cos(angle) * overlap;
    p2.x := p2.x - t.sin(angle) * overlap;
    p2.y := p2.y + t.cos(angle) * overlap;
  }

  class Environment {
    const width: real
    const height: real
    /// The fraction of speed a wall bounce keeps.
    const elasticity: real := 0.75
    var particles: seq<Particle>

    /// An empty environment of the given size.
    constructor (width: real, height: real)
      ensures this.width == width && this.height == height && particles == []
    {
      this.width := width;
      this.height := height;
      particles := [];
    }

    function Bounds(): Walls {
      Walls(width, height, elasticity)
    }

    /// The physical states of the particles, in list order.
    function Bodies(): (r: seq<Body>)
      reads this, particles
      ensures |r| == |particles|
    {
      seq(|particles|, k requires 0 <= k < |particles| reads this, particles => particles[k].Snapshot())
    }

    /// No particle is in the list twice, and every mass is positive.
    predicate Valid()
      reads this, particles
    {
      (forall a, b :: 0 <= a < b < |particles| ==> particles[a] != particles[b]) &&
      Massive(Bodies())
    }

    /// Reflect a particle that has passed a wall back inside it, one axis at a time.
    method Bounce(particle: Particle)
      modifies particle
      ensures particle.Snapshot() == BounceBody(Bounds(), old(particle.Snapshot()))
    {
      if particle.x > width - particle.size {
        particle.x := 2.0 * (width - particle.size) - particle.x;
        particle.angle := -particle.angle;
        particle.speed := particle.speed * elasticity;
      } else if particle.x < particle.size {
        particle.x := 2.0 * particle.size - particle.x;
        particle.angle := -particle.angle;
        particle.speed := particle.speed * elasticity;
      }
      if particle.y > height - particle.size {
        particle.y := 2.0 * (height - particle.size) - particle.y;
        particle.angle := PI - particle.angle;
        particle.speed := particle.speed * elasticity;
      } else if particle.y < particle.size {
        particle.y := 2.0 * particle.size - particle.y;
        particle.angle := PI - particle.angle;
        particle.speed := particle.speed * elasticity;
      }
    }

    /** The first particle, in list order, whose centre lies within its own
        radius of `position`; null when there is none. Nothing is modified. */
    method FindParticle(t: Trig, position: (real, real)) returns (found: Particle?)
      ensures found == null <==>
        forall k :: 0 <= k < |particles| ==> !Grabs(t, particles[k].Snapshot(), position)
      ensures found != null ==>
        exists k :: 0 <= k < |particles| && found == particles[k] &&
          Grabs(t, particles[k].Snapshot(), position) &&
          forall m :: 0 <= m < k ==> !Grabs(t, particles[m].Snapshot(), position)
    {
      var i := 0;
      while i < |particles|
        invariant 0 <= i <= |particles|
        invariant forall m :: 0 <= m < i ==> !Grabs(t, particles[m].Snapshot(), position)
      {
        var p := particles[i];
        if t.hypot(p.x - position.0, p.y - position.1) <= p.size {
          return p;
        }
        i := i + 1;
      }
      return null;
    }

    /** One tick: for each particle in list order, move it and bounce it,
        then collide it with every later particle, in list order. */
    method Update(t: Trig)
      requires Valid()
      modifies particles
      ensures Valid()
      ensures Bodies() == Tick(t, Bounds(), old(Bodies()))
    {
      var n := |particles|;
      var i := 0;
      while i < n
        invariant 0 <= i <= n
        invariant Valid()
        invariant Run(t, Bounds(), Bodies(), StepsFrom(n, i)) == Tick(t, Bounds(), old(Bodies()))
      {
        ghost var before := Bodies();
        MoveAndBounce(t, i);
        RunStepsFrom(t, Bounds(), before, n, i);
        CollideWithLater(t, i, StepsFrom(n, i + 1));
        assert Run(t, Bounds(), before, StepsFrom(n, i))
            == Run(t, Bounds(), Bodies(), StepsFrom(n, i + 1));
        i := i + 1;
      }
    }

    /// The first half of update's loop body: move particle `i`, then bounce it.
    method MoveAndBounce(t: Trig, i: nat)
      requires Valid() && i < |particles|
      modifies particles[i]
      ensures Valid()
      ensures Bodies() == Apply(t, Bounds(), old(Bodies()), Advance(i))
    {
      var p := particles[i];
      p.Move(t);
      Bounce(p);
      ghost var expected := old(Bodies())[i := Advanced(t, Bounds(), old(Bodies())[i])];
      forall k | 0 <= k < |particles| ensures Bodies()[k] == expected[k] {
        if k != i { assert particles[k] != p; }
      }
    }

    /** The rest of update's loop body: collide particle `i` with every later
        particle, in list order; `rest` is the work still due after that. */
    method CollideWithLater(t: Trig, i: nat, ghost rest: seq<Event>)
      requires Valid() && i < |particles|
      modifies particles
      ensures Valid()
      ensures Run(t, Bounds(), Bodies(), rest)
           == Run(t, Bounds(), old(Bodies()), PairsFrom(|particles|, i, i + 1) + rest)
    {
      var n := |particles|;
      ghost var goal := Run(t, Bounds(), Bodies(), PairsFrom(n, i, i + 1) + rest);
      var j := i + 1;
      while j < n
        invariant i + 1 <= j <= n
        invariant Valid()
        invariant Run(t, Bounds(), Bodies(), PairsFrom(n, i, j) + rest) == goal
      {
        ghost var prior := Bodies();
        CollideLater(t, i, j);
        RunPairsFrom(t, Bounds(), prior, Bodies(), n, i, j, rest);
        j := j + 1;
      }
      assert PairsFrom(n, i, n) + rest == rest;
    }

    /// The inner loop's body: collide particle `i` with the later particle `j`.
    method CollideLater(t: Trig, i: nat, j: nat)
      requires Valid() && i < j < |particles|
      modifies particles[i], particles[j]
      ensures Valid()
      ensures Bodies() == Apply(t, Bounds(), old(Bodies()), Pair(i, j))
    {
      var p, q := particles[i], particles[j];
      assert old(Bodies())[i] == p.Snapshot() && old(Bodies())[j] == q.Snapshot();
      Collide(t, p, q);
      ghost var c := CollideBodies(t, old(Bodies())[i], old(Bodies())[j]);
      ghost var expected := old(Bodies())[i := c.0][j := c.1];
      forall k | 0 <= k < |particles| ensures Bodies()[k] == expected[k] {
        if k != i && k != j { assert particles[k] != p && particles[k] != q; }
      }
    }
  }

  /// find_particle's test: the point is within the particle's radius of its centre.
  predicate Grabs(t: Trig, b: Body, position: (real, real)) {
    t.hypot(b.x - position.0, b.y - position.1) <= b.size
  }
}
