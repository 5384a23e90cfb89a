/** The order in which `Environment.update` (Particle.py) works through the
    particle list: for each index i in turn, move and bounce particle i, then
    collide it with every later particle j, in increasing j. */
module UpdateOrder {

  /// One step of an update: move-and-bounce particle `i`, or collide particles `i` and `j`.
  datatype Event = Advance(i: nat) | Pair(i: nat, j: nat)

  /// The second index of an event; an `Advance(i)` sorts as the pair (i, i).
  function Second(e: Event): nat {
    match e
    case Advance(i) => i
    case Pair(_, j) => j
  }

  /// `e` comes strictly before `f` in the order of (first index, second index).
  predicate Before(e: Event, f: Event) {
    e.i < f.i || (e.i == f.i && Second(e) < Second(f))
  }

  /// The events an update of `n` particles must perform: every move, and every unordered pair once.
  predicate Due(n: nat, e: Event) {
    match e
    case Advance(i) => i < n
    case Pair(i, j) => i < j < n
  }

  /// The inner loop: collide particle `i` with particles `j`, `j + 1`, ..., `n - 1`, in that order.
  function PairsFrom(n: nat, i: nat, j: nat): (r: seq<Event>)
    ensures |r| == if j < n then n - j else 0
    ensures forall k :: 0 <= k < |r| ==> r[k] == Pair(i, j + k)
    decreases n - j
  {
    if j < n then [Pair(i, j)] + PairsFrom(n, i, j + 1) else []
  }

  /** The outer loop from index `i` on: move particle `i`, collide it with the
      later ones, go on. Every event is due and names particles from `i` on,
      and there are (n - i)(n - i + 1) / 2 of them: one move per particle and
      one collision per pair. */
  function StepsFrom(n: nat, i: nat): (r: seq<Event>)
    ensures 2 * |r| == if i < n then (n - i) * (n - i + 1) else 0
    ensures forall k :: 0 <= k < |r| ==> Due(n, r[k]) && i <= r[k].i
    decreases n - i
  {
    if i < n then
      var head := [Advance(i)] + PairsFrom(n, i, i + 1);
      var rest := StepsFrom(n, i + 1);
      assert forall k :: 0 <= k < |head| ==> Due(n, head[k]) && head[k].i == i by {
        forall k | 0 <= k < |head| ensures Due(n, head[k]) && head[k].i == i {
          if k > 0 { assert head[k] == PairsFrom(n, i, i + 1)[k - 1]; }
        }
      }
      assert (n - i) * (n - i + 1) == 2 * (n - i) + (n - i - 1) * (n - i);
      head + rest
    else []
  }

  /// Everything one update of `n` particles does, in order: n (n + 1) / 2 events, each of them due.
  function Schedule(n: nat): (r: seq<Event>)
    ensures 2 * |r| == n * (n + 1)
    ensures forall k :: 0 <= k < |r| ==> Due(n, r[k])
  {
    StepsFrom(n, 0)
  }

  /// One turn of the outer loop, followed by the rest of the work.
  lemma StepsFromFirst(n: nat, i: nat)
    requires i < n
    ensures StepsFrom(n, i) == [Advance(i)] + (PairsFrom(n, i, i + 1) + StepsFrom(n, i + 1))
  {
  }

  /// One turn of the inner loop, followed by the rest of the work.
  lemma PairsFromFirst(n: nat, i: nat, j: nat, rest: seq<Event>)
    requires j < n
    ensures PairsFrom(n, i, j) + rest == [Pair(i, j)] + (PairsFrom(n, i, j + 1) + rest)
  {
  }

  /// The outer loop from `i` on is strictly ordered.
  lemma {:induction false} StepsFromSorted(n: nat, i: nat)
    ensures forall a, b :: 0 <= a < b < |StepsFrom(n, i)| ==> Before(StepsFrom(n, i)[a], StepsFrom(n, i)[b])
    decreases n - i
  {
    if i < n {
      StepsFromSorted(n, i + 1);
      var head := [Advance(i)] + PairsFrom(n, i, i + 1);
      var rest := StepsFrom(n, i + 1);
      assert StepsFrom(n, i) == head + rest;
      assert forall k :: 0 <= k < |head| ==> head[k].i == i && Second(head[k]) == i + k;
      forall a, b | 0 <= a < b < |head + rest|
        ensures Before((head + rest)[a], (head + rest)[b])
      {
        if b < |head| {
          assert (head + rest)[a] == head[a] && (head + rest)[b] == head[b];
        } else if a < |head| {
          assert (head + rest)[a] == head[a] && (head + rest)[b] == rest[b - |head|];
        } else {
          assert (head + rest)[a] == rest[a - |head|] && (head + rest)[b] == rest[b - |head|];
        }
      }
    }
  }

  /// The outer loop from `i` on performs exactly the due events whose first index is at least `i`.
  lemma {:induction false} StepsFromExactly(n: nat, i: nat, e: Event)
    ensures e in StepsFrom(n, i) <==> Due(n, e) && i <= e.i
    decreases n - i
  {
    if i < n {
      StepsFromExactly(n, i + 1, e);
      var head := [Advance(i)] + PairsFrom(n, i, i + 1);
      assert StepsFrom(n, i) == head + StepsFrom(n, i + 1);
      if e.i == i && e.Pair? && Due(n, e) {
        assert PairsFrom(n, i, i + 1)[e.j - (i + 1)] == e;
        assert head[e.j - i] == e;
      }
      if e in head {
        var k :| 0 <= k < |head| && head[k] == e;
        if k > 0 {
          assert head[k] == PairsFrom(n, i, i + 1)[k - 1];
        }
      }
    }
  }

  /** The schedule is strictly increasing in (first index, second index), so
      no event happens twice and particle i moves after its collisions with
      earlier particles and before its collisions with later ones. */
  lemma ScheduleSorted(n: nat)
    ensures forall a, b :: 0 <= a < b < |Schedule(n)| ==> Before(Schedule(n)[a], Schedule(n)[b])
  {
    StepsFromSorted(n, 0);
  }

  /// The schedule holds exactly the due events: each move, and each unordered pair (i, j), i < j.
  lemma ScheduleExactly(n: nat, e: Event)
    ensures e in Schedule(n) <==> Due(n, e)
  {
    StepsFromExactly(n, 0, e);
  }

  /// Each event occurs at most once in the schedule.
  lemma ScheduledOnce(n: nat, a: nat, b: nat)
    requires a < |Schedule(n)| && b < |Schedule(n)|
    requires Schedule(n)[a] == Schedule(n)[b]
    ensures a == b
  {
    ScheduleSorted(n);
  }

  /** For i < j: particle i moves before it collides with j, and that
      collision happens before particle j moves. */
  lemma PairBetweenMoves(n: nat, i: nat, j: nat, a: nat, p: nat, b: nat)
    requires a < |Schedule(n)| && p < |Schedule(n)| && b < |Schedule(n)|
    requires Schedule(n)[a] == Advance(i)
    requires Schedule(n)[p] == Pair(i, j)
    requires Schedule(n)[b] == Advance(j)
    requires i < j
    ensures a < p < b
  {
    ScheduleSorted(n);
  }
}
