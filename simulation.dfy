/** One call of `Environment.update` (Particle.py) on particle values: the
    events of the schedule applied in order to the list of particles. */
module Simulation {
  import opened Vectors
  import opened Kinematics
  import opened UpdateOrder

  /// Every particle has a positive mass, so collide never divides by zero.
  predicate Massive(s: seq<Body>) {
    forall k :: 0 <= k < |s| ==> 0.0 < s[k].mass
  }

  /// `r` is `s` with only positions and velocities changed.
  predicate Conserved(s: seq<Body>, r: seq<Body>) {
    |r| == |s| && forall k :: 0 <= k < |s| ==> Keeps(s[k], r[k])
  }

  /// The event touches particle `k`.
  predicate Involves(e: Event, k: nat) {
    e.i == k || (e.Pair? && e.j == k)
  }

  /** What update does to particle i before its collisions: move under
      gravity, then bounce. With no negative drag or wall elasticity the new
      speed is not negative, whatever the speed was before. */
  function Advanced(t: Trig, w: Walls, b: Body): (r: Body)
    ensures Keeps(b, r)
    ensures 0.0 <= b.drag && 0.0 <= w.elasticity ==> 0.0 <= r.speed
  {
    var m := MoveBody(t, GRAVITY, b);
    assert 0.0 <= b.drag && 0.0 <= w.elasticity ==> 0.0 <= BounceBody(w, m).speed by {
      if 0.0 <= b.drag && 0.0 <= w.elasticity {
        BounceSpeedBounded(w, m);
      }
    }
    BounceBody(w, m)
  }

  /// Perform one event on the list, in place; events naming missing indices change nothing.
  function Apply(t: Trig, w: Walls, s: seq<Body>, e: Event): (r: seq<Body>)
    requires Massive(s)
    ensures Conserved(s, r)
    ensures forall k :: 0 <= k < |s| && !Involves(e, k) ==> r[k] == s[k]
  {
    match e
    case Advance(i) =>
      if i < |s| then s[i := Advanced(t, w, s[i])] else s
    case Pair(i, j) =>
      if i < |s| && j < |s| && i != j then
        var c := CollideBodies(t, s[i], s[j]);
        s[i := c.0][j := c.1]
      else s
  }

  /// Perform the events in order, each on the result of the previous one.
  function Run(t: Trig, w: Walls, s: seq<Body>, events: seq<Event>): (r: seq<Body>)
    requires Massive(s)
    ensures Conserved(s, r)
    decreases |events|
  {
    if events == [] then s else Run(t, w, Apply(t, w, s, events[0]), events[1..])
  }

  /// Environment.update on particle values: the whole schedule for the list's length.
  function Tick(t: Trig, w: Walls, s: seq<Body>): (r: seq<Body>)
    requires Massive(s)
    ensures Conserved(s, r)
  {
    Run(t, w, s, Schedule(|s|))
  }

  /// Running a non-empty event list is performing its first event, then the rest.
  lemma RunFirst(t: Trig, w: Walls, s: seq<Body>, e: Event, rest: seq<Event>)
    requires Massive(s)
    ensures Run(t, w, s, [e] + rest) == Run(t, w, Apply(t, w, s, e), rest)
  {
    assert ([e] + rest)[0] == e && ([e] + rest)[1..] == rest;
  }

  /// One turn of update's outer loop: particle `i` advances, then the rest of the schedule runs.
  lemma RunStepsFrom(t: Trig, w: Walls, s: seq<Body>, n: nat, i: nat)
    requires Massive(s) && i < n
    ensures Run(t, w, s, StepsFrom(n, i))
         == Run(t, w, Apply(t, w, s, Advance(i)), PairsFrom(n, i, i + 1) + StepsFrom(n, i + 1))
  {
    StepsFromFirst(n, i);
    RunFirst(t, w, s, Advance(i), PairsFrom(n, i, i + 1) + StepsFrom(n, i + 1));
  }

  /** One turn of update's inner loop: once `i` has collided with `j`, the
      rest of the work leads to the same result as before. */
  lemma RunPairsFrom(t: Trig, w: Walls, s: seq<Body>, r: seq<Body>, n: nat, i: nat, j: nat,
                     rest: seq<Event>)
    requires Massive(s) && j < n
    requires r == Apply(t, w, s, Pair(i, j))
    ensures Run(t, w, r, PairsFrom(n, i, j + 1) + rest) == Run(t, w, s, PairsFrom(n, i, j) + rest)
  {
    PairsFromFirst(n, i, j, rest);
    RunFirst(t, w, s, Pair(i, j), PairsFrom(n, i, j + 1) + rest);
  }

  /// The physical constants of the run are sensible: no negative speed, drag or elasticity.
  predicate Sane(w: Walls, s: seq<Body>) {
    0.0 <= w.elasticity &&
    forall k :: 0 <= k < |s| ==>
      0.0 < s[k].mass && 0.0 <= s[k].speed && 0.0 <= s[k].drag && 0.0 <= s[k].elasticity
  }

  /// A single event keeps every speed non-negative.
  lemma ApplyKeepsSane(t: Trig, w: Walls, s: seq<Body>, e: Event)
    requires Sane(w, s)
    ensures Sane(w, Apply(t, w, s, e))
  {
    var r := Apply(t, w, s, e);
    forall k | 0 <= k < |s| && Involves(e, k)
      ensures 0.0 <= r[k].speed
    {
      match e
      case Advance(i) =>
      case Pair(i, j) =>
        if i < |s| && j < |s| && i != j {
          var c := CollideBodies(t, s[i], s[j]);
          if !Touching(t, s[i], s[j]) {
            assert c == (s[i], s[j]);
          } else {
            assert 0.0 <= s[i].elasticity * s[j].elasticity;
          }
        }
    }
  }

  /// Running any event list keeps every speed non-negative.
  lemma {:induction false} RunKeepsSane(t: Trig, w: Walls, s: seq<Body>, events: seq<Event>)
    requires Sane(w, s)
    ensures Sane(w, Run(t, w, s, events))
    decreases |events|
  {
    if events != [] {
      ApplyKeepsSane(t, w, s, events[0]);
      RunKeepsSane(t, w, Apply(t, w, s, events[0]), events[1..]);
    }
  }

  /** An update keeps every particle's mass, size, drag and elasticity, and,
      when none of them is negative, keeps every speed non-negative. */
  lemma TickKeepsSane(t: Trig, w: Walls, s: seq<Body>)
    requires Sane(w, s)
    ensures Conserved(s, Tick(t, w, s)) && Sane(w, Tick(t, w, s))
  {
    RunKeepsSane(t, w, s, Schedule(|s|));
  }

  /// Alone in the environment, a particle is only moved and bounced.
  lemma TickOne(t: Trig, w: Walls, b: Body)
    requires 0.0 < b.mass
    ensures Tick(t, w, [b]) == [Advanced(t, w, b)]
  {
    assert Schedule(1) == [Advance(0)] + [] + [];
    RunFirst(t, w, [b], Advance(0), []);
  }

  /** Two particles: the first is moved and bounced, then collided with the
      second, which has not moved yet; only then is the second moved and
      bounced. */
  lemma TickTwo(t: Trig, w: Walls, b1: Body, b2: Body)
    requires 0.0 < b1.mass && 0.0 < b2.mass
    ensures var c := CollideBodies(t, Advanced(t, w, b1), b2);
      Tick(t, w, [b1, b2]) == [c.0, Advanced(t, w, c.1)]
  {
    assert PairsFrom(2, 0, 1) == [Pair(0, 1)] + PairsFrom(2, 0, 2);
    assert StepsFrom(2, 1) == [Advance(1)] + PairsFrom(2, 1, 2) + StepsFrom(2, 2);
    var events := [Advance(0), Pair(0, 1), Advance(1)];
    assert Schedule(2) == events;
    var s0 := [b1, b2];
    var s1 := Apply(t, w, s0, Advance(0));
    var s2 := Apply(t, w, s1, Pair(0, 1));
    RunFirst(t, w, s0, Advance(0), events[1..]);
    RunFirst(t, w, s1, Pair(0, 1), events[2..]);
    RunFirst(t, w, s2, Advance(1), []);
  }
}
