/// Polar vectors and their composition, as `add_vectors` in Particle.py does it.
module Vectors {

  /// Python's `math.pi`.
  const PI: real := 3.141592653589793

  type NonNeg = r: real | 0.0 <= r

  /** The four functions of Python's `math` module that the simulation calls.
      They are left uninterpreted: the model assumes nothing about them except
      that `hypot` never returns a negative number (its codomain says so). */
  datatype Trig = Trig(
    sin: real -> real,
    cos: real -> real,
    atan2: (real, real) -> real,
    hypot: (real, real) -> NonNeg)

  /** A polar vector: `angle` in radians, measured clockwise from "up"
      (negative y), and a `length`. The lengths fed into a composition may be
      negative (collide scales a speed by a mass difference). */
  datatype Vec = Vec(angle: real, length: real)

  /// The x component of `v` in the system's convention (sine for x).
  function Horizontal(t: Trig, v: Vec): real {
    t.sin(v.angle) * v.length
  }

  /// The y component of `v` in the system's convention (cosine for y).
  function Vertical(t: Trig, v: Vec): real {
    t.cos(v.angle) * v.length
  }

  /// Back from components to a polar vector: the angle is offset by pi/2.
  function Polar(t: Trig, x: real, y: real): (r: Vec)
    ensures 0.0 <= r.length
  {
    Vec(0.5 * PI - t.atan2(y, x), t.hypot(x, y))
  }

  /// add_vectors: sum the two vectors' components and convert back.
  function AddVectors(t: Trig, v1: Vec, v2: Vec): (r: Vec)
    ensures 0.0 <= r.length
  {
    Polar(t, Horizontal(t, v1) + Horizontal(t, v2), Vertical(t, v1) + Vertical(t, v2))
  }

  /// Composition is symmetric in its two arguments.
  lemma AddVectorsCommutes(t: Trig, v1: Vec, v2: Vec)
    ensures AddVectors(t, v1, v2) == AddVectors(t, v2, v1)
  {
  }

  /** The composition depends on its arguments only through the sum of their
      components: two pairs with the same component sums compose alike. */
  lemma AddVectorsBySum(t: Trig, v1: Vec, v2: Vec, w1: Vec, w2: Vec)
    requires Horizontal(t, v1) + Horizontal(t, v2) == Horizontal(t, w1) + Horizontal(t, w2)
    requires Vertical(t, v1) + Vertical(t, v2) == Vertical(t, w1) + Vertical(t, w2)
    ensures AddVectors(t, v1, v2) == AddVectors(t, w1, w2)
  {
  }

  /** Adding a vector of length zero gives the polar re-conversion of the other
      vector, whatever the zero vector's angle. */
  lemma AddZeroVector(t: Trig, v: Vec, a: real)
    ensures AddVectors(t, v, Vec(a, 0.0)) == Polar(t, Horizontal(t, v), Vertical(t, v))
  {
  }
}
