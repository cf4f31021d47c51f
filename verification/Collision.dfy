// Overlap of moving boxes and the response of simple colliders (src/game/collidercomponent.cpp), over real numbers.
module Collision {

  datatype Vector = Vector(x: real, y: real)

  /** A box collider: the components it finds in its entity, its flags, and how its collisions are answered (simple)
      or not at all. at is the centre; a box without a movement component has velocity zero. */
  datatype Body = Body(
    at: Vector, width: real, height: real, mobile: bool, velocity: Vector,
    active: bool, simple: bool, lockX: bool, lockY: bool, bullet: bool, resolution: int)

  predicate Sound(b: Body)
  {
    !b.mobile ==> b.velocity == Vector(0.0, 0.0)
  }

  function Advance(speed: real, d: real): real
  {
    speed * d
  }

  function Simulated(b: Body, d: real): Vector
  {
    Vector(b.at.x + Advance(b.velocity.x, d), b.at.y + Advance(b.velocity.y, d))
  }

  /** How far one box reaches into another from each side. */
  datatype Sides = Sides(left: real, right: real, top: real, bottom: real)

  /** The reach of box a, standing at p, into box b, standing at q. */
  function ReachAt(a: Body, p: Vector, b: Body, q: Vector): Sides
  {
    Sides(p.x + a.width / 2.0 - (q.x - b.width / 2.0),
          q.x + b.width / 2.0 - (p.x - a.width / 2.0),
          q.y + b.height / 2.0 - (p.y - a.height / 2.0),
          p.y + a.height / 2.0 - (q.y - b.height / 2.0))
  }

  function Reach(a: Body, b: Body, d: real): Sides
  {
    ReachAt(a, Simulated(a, d), b, Simulated(b, d))
  }

  predicate Inside(s: Sides)
  {
    s.left > 0.0 && s.right > 0.0 && s.top > 0.0 && s.bottom > 0.0
  }

  /** The test a box makes against another; a box that cannot move never collides with anything. */
  predicate Colliding(a: Body, b: Body, d: real)
  {
    a.mobile && Inside(Reach(a, b, d))
  }

  /** The test is the overlap of the open rectangles at the simulated positions, for a box that can move. */
  lemma CollidingIsOverlap(a: Body, b: Body, d: real)
    ensures Colliding(a, b, d) <==>
      var p, q := Simulated(a, d), Simulated(b, d);
      && a.mobile
      && q.x - b.width / 2.0 < p.x + a.width / 2.0 && p.x - a.width / 2.0 < q.x + b.width / 2.0
      && q.y - b.height / 2.0 < p.y + a.height / 2.0 && p.y - a.height / 2.0 < q.y + b.height / 2.0
  {
  }

  // ---------- The response ----------

  /** The side a simple box leaves by, if any: the strictly smallest, in the direction it came from. */
  datatype Exit = Stay | Leftwards | Rightwards | Downwards | Upwards

  predicate Smallest(n: real, a: real, b: real, c: real)
  {
    n < a && n < b && n < c
  }

  function ExitOf(b: Body, s: Sides): Exit
  {
    var v := b.velocity;
    if !b.simple || !b.active || !b.mobile || (v.x == 0.0 && v.y == 0.0) then Stay
    else if v.x > 0.0 && !b.lockX && Smallest(s.left, s.right, s.top, s.bottom) then Leftwards
    else if v.x < 0.0 && !b.lockX && Smallest(s.right, s.left, s.top, s.bottom) then Rightwards
    else if v.y > 0.0 && !b.lockY && Smallest(s.bottom, s.top, s.left, s.right) then Downwards
    else if v.y < 0.0 && !b.lockY && Smallest(s.top, s.bottom, s.left, s.right) then Upwards
    else Stay
  }

  /** How far the box is moved. */
  function Shift(x: Exit, s: Sides): Vector
  {
    match x
    case Stay => Vector(0.0, 0.0)
    case Leftwards => Vector(-s.left, 0.0)
    case Rightwards => Vector(s.right, 0.0)
    case Downwards => Vector(0.0, -s.bottom)
    case Upwards => Vector(0.0, s.top)
  }

  function Reflected(x: Exit, v: Vector): Vector
  {
    match x
    case Stay => v
    case Leftwards => Vector(-v.x, v.y)
    case Rightwards => Vector(-v.x, v.y)
    case Downwards => Vector(v.x, -v.y)
    case Upwards => Vector(v.x, -v.y)
  }

  function Answered(b: Body, s: Sides): Body
  {
    var x := ExitOf(b, s);
    var u := Shift(x, s);
    b.(at := Vector(b.at.x + u.x, b.at.y + u.y), velocity := Reflected(x, b.velocity))
  }

  const NO_SIDES := Sides(0.0, 0.0, 0.0, 0.0)

  /** A collision at time d: each box answers the sides it saw itself; one that cannot move sees none. */
  function Collided(a: Body, b: Body, d: real): (Body, Body)
  {
    (Answered(a, Reach(a, b, d)), Answered(b, if b.mobile then Reach(b, a, d) else NO_SIDES))
  }

  /** The same velocity, but for the signs of its components. */
  predicate SameSpeed(u: Vector, v: Vector)
  {
    (u.x == v.x || u.x == -v.x) && (u.y == v.y || u.y == -v.y)
  }

  /** The sides the second box sees when it takes part. */
  function Seen(a: Body, b: Body, d: real): Sides
  {
    if b.mobile then Reach(b, a, d) else NO_SIDES
  }

  predicate Stays(a: Body, b: Body, d: real)
  {
    ExitOf(a, Reach(a, b, d)) == Stay && ExitOf(b, Seen(a, b, d)) == Stay
  }

  /** A displacement that takes back at least the reach from the side of the exit, and nothing on the other axis. */
  predicate LeavesBy(x: Exit, s: Sides, u: Vector)
  {
    match x
    case Stay => u.x == 0.0 && u.y == 0.0
    case Leftwards => u.x <= -s.left && u.y == 0.0
    case Rightwards => u.x >= s.right && u.y == 0.0
    case Downwards => u.x == 0.0 && u.y <= -s.bottom
    case Upwards => u.x == 0.0 && u.y >= s.top
  }

  function Swapped(s: Sides): Sides
  {
    Sides(s.right, s.left, s.bottom, s.top)
  }

  /** The reach once the boxes have been moved by u and v. */
  function After(s: Sides, u: Vector, v: Vector): Sides
  {
    Sides(s.left + u.x - v.x, s.right - u.x + v.x, s.top - u.y + v.y, s.bottom + u.y - v.y)
  }

  predicate Opposite(x: Exit, y: Exit)
  {
    match x
    case Stay => true
    case Leftwards => y.Stay? || y.Rightwards?
    case Rightwards => y.Stay? || y.Leftwards?
    case Downwards => y.Stay? || y.Upwards?
    case Upwards => y.Stay? || y.Downwards?
  }

  /** When both boxes answer, they leave by opposite sides. */
  lemma ExitsAgree(a: Body, b: Body, s: Sides)
    ensures Opposite(ExitOf(a, s), ExitOf(b, Swapped(s)))
  {
  }

  /** Boxes that reach into each other and leave by opposite exits are apart, unless neither leaves. */
  lemma LeavingParts(x: Exit, y: Exit, s: Sides, u: Vector, v: Vector)
    requires Inside(s) && Opposite(x, y) && LeavesBy(x, s, u) && LeavesBy(y, Swapped(s), v)
    ensures Inside(After(s, u, v)) <==> x.Stay? && y.Stay?
  {
  }

  lemma ShiftLeaves(x: Exit, s: Sides)
    ensures LeavesBy(x, s, Shift(x, s))
  {
  }

  predicate MovedBy(q: Vector, p: Vector, u: Vector)
  {
    q.x == p.x + u.x && q.y == p.y + u.y
  }

  /** Moving the boxes moves the reach along. */
  lemma ReachMoves(a: Body, p: Vector, p': Vector, u: Vector, b: Body, q: Vector, q': Vector, v: Vector)
    requires MovedBy(p', p, u) && MovedBy(q', q, v)
    ensures ReachAt(a, p', b, q') == After(ReachAt(a, p, b, q), u, v)
  {
  }

  lemma SimulatedMoves(b: Body, to: Vector, u: Vector, d: real)
    requires MovedBy(to, b.at, u)
    ensures MovedBy(Simulated(b.(at := to), d), Simulated(b, d), u)
  {
  }

  lemma SwappedReach(a: Body, p: Vector, b: Body, q: Vector)
    ensures ReachAt(b, q, a, p) == Swapped(ReachAt(a, p, b, q))
  {
  }

  /** Left and right, top and bottom change places when the boxes do; so two mobile boxes agree on colliding. */
  lemma Mirrored(a: Body, b: Body, d: real)
    ensures Reach(b, a, d) == Swapped(Reach(a, b, d))
    ensures a.mobile && b.mobile ==> (Colliding(a, b, d) <==> Colliding(b, a, d))
  {
    SwappedReach(a, Simulated(a, d), b, Simulated(b, d));
  }

  lemma SeenIsSwapped(a: Body, b: Body, d: real)
    ensures b.mobile ==> Seen(a, b, d) == Swapped(Reach(a, b, d))
    ensures !b.mobile ==> ExitOf(b, Seen(a, b, d)) == Stay == ExitOf(b, Swapped(Reach(a, b, d)))
  {
    Mirrored(a, b, d);
  }

  /** With the velocities from before a collision, the boxes are apart at the simulated time exactly when at least one
      of them answered. */
  lemma ApartIffAnswered(a: Body, b: Body, d: real)
    requires Colliding(a, b, d)
    ensures
      var (p, q) := Collided(a, b, d);
      Inside(Reach(p.(velocity := a.velocity), q.(velocity := b.velocity), d)) <==> Stays(a, b, d)
  {
    var s, t := Reach(a, b, d), Seen(a, b, d);
    var x, y := ExitOf(a, s), ExitOf(b, t);
    var u, v := Shift(x, s), Shift(y, Swapped(s));
    SeenIsSwapped(a, b, d);
    ExitsAgree(a, b, s);
    ShiftLeaves(x, s);
    ShiftLeaves(y, Swapped(s));
    LeavingParts(x, y, s, u, v);
    ShiftedReach(a, Answered(a, s).at, u, b, Answered(b, t).at, v, d);
  }

  lemma ShiftedReach(a: Body, p: Vector, u: Vector, b: Body, q: Vector, v: Vector, d: real)
    requires MovedBy(p, a.at, u) && MovedBy(q, b.at, v)
    ensures Reach(a.(at := p), b.(at := q), d) == After(Reach(a, b, d), u, v)
  {
    SimulatedMoves(a, p, u, d);
    SimulatedMoves(b, q, v, d);
    ReachMoves(a, Simulated(a, d), Simulated(a.(at := p), d), u, b, Simulated(b, d), Simulated(b.(at := q), d), v);
  }

  // ---------- The new velocities ----------

  /** How far a box that answers ends up, at the simulated time, from where it would have been. */
  function TurnedShift(x: Exit, s: Sides, v: Vector, d: real): Vector
  {
    match x
    case Stay => Vector(0.0, 0.0)
    case Leftwards => Vector(-s.left - 2.0 * Advance(v.x, d), 0.0)
    case Rightwards => Vector(s.right - 2.0 * Advance(v.x, d), 0.0)
    case Downwards => Vector(0.0, -s.bottom - 2.0 * Advance(v.y, d))
    case Upwards => Vector(0.0, s.top - 2.0 * Advance(v.y, d))
  }

  lemma Backwards(v: real, d: real)
    ensures Advance(-v, d) == -Advance(v, d)
  {
  }

  lemma AnsweredSimulated(b: Body, s: Sides, d: real)
    ensures MovedBy(Simulated(Answered(b, s), d), Simulated(b, d), TurnedShift(ExitOf(b, s), s, b.velocity, d))
  {
    Backwards(b.velocity.x, d);
    Backwards(b.velocity.y, d);
  }

  lemma AnsweredReach(a: Body, b: Body, s: Sides, t: Sides, d: real)
    ensures
      var u, v := TurnedShift(ExitOf(a, s), s, a.velocity, d), TurnedShift(ExitOf(b, t), t, b.velocity, d);
      Reach(Answered(a, s), Answered(b, t), d) == After(Reach(a, b, d), u, v)
  {
    var u, v := TurnedShift(ExitOf(a, s), s, a.velocity, d), TurnedShift(ExitOf(b, t), t, b.velocity, d);
    AnsweredSimulated(a, s, d);
    AnsweredSimulated(b, t, d);
    ReachMoves(a, Simulated(a, d), Simulated(Answered(a, s), d), u,
               b, Simulated(b, d), Simulated(Answered(b, t), d), v);
  }

  lemma Product(x: real, d: real)
    requires d >= 0.0
    ensures x >= 0.0 ==> Advance(x, d) >= 0.0
    ensures x <= 0.0 ==> Advance(x, d) <= 0.0
  {
    if x < 0.0 { assert -x * d >= 0.0; }
  }

  /** A box leaves against its velocity, so the reflected velocity takes it further out. */
  lemma TurnBackLeaves(b: Body, s: Sides, d: real)
    requires d >= 0.0
    ensures LeavesBy(ExitOf(b, s), s, TurnedShift(ExitOf(b, s), s, b.velocity, d))
  {
    Product(b.velocity.x, d);
    Product(b.velocity.y, d);
  }

  /** With their new velocities too, the boxes are apart at the simulated time exactly when at least one of them
      answered. */
  lemma ApartWithNewVelocities(a: Body, b: Body, d: real)
    requires Colliding(a, b, d) && d >= 0.0
    ensures
      var (p, q) := Collided(a, b, d);
      Inside(Reach(p, q, d)) <==> Stays(a, b, d)
  {
    var s, t := Reach(a, b, d), Seen(a, b, d);
    var x, y := ExitOf(a, s), ExitOf(b, t);
    var u, v := TurnedShift(x, s, a.velocity, d), TurnedShift(y, Swapped(s), b.velocity, d);
    SeenIsSwapped(a, b, d);
    assert TurnedShift(y, t, b.velocity, d) == v;
    ExitsAgree(a, b, s);
    TurnBackLeaves(a, s, d);
    TurnBackLeaves(b, Swapped(s), d);
    LeavingParts(x, y, s, u, v);
    AnsweredReach(a, b, s, t, d);
  }

  /** A collision keeps sizes, flags and speeds; a box that answers moves, on one axis and never on a locked one. */
  lemma AnswerKeeps(b: Body, s: Sides)
    ensures
      var r := Answered(b, s);
      && (b.lockX || r.at.y != b.at.y ==> r.at.x == b.at.x && r.velocity.x == b.velocity.x)
      && (b.lockY || r.at.x != b.at.x ==> r.at.y == b.at.y && r.velocity.y == b.velocity.y)
      && r == b.(at := r.at, velocity := r.velocity) && SameSpeed(r.velocity, b.velocity)
      && (Inside(s) ==> (r.at == b.at <==> ExitOf(b, s).Stay?))
      && (ExitOf(b, s).Stay? ==> r == b)
  {
  }

  // ---------- Bullets and updates ----------

  /** The times a bullet is tested at: the delta is divided in resolution steps, and all but the last are tested. */
  function HitFrom(a: Body, b: Body, step: real, i: int, at: real): Hit
    decreases a.resolution - i
  {
    if i >= a.resolution then Miss
    else if Colliding(a, b, at + step) then Hit(at + step)
    else HitFrom(a, b, step, i + 1, at + step)
  }

  datatype Hit = Miss | Hit(time: real)

  function Tested(a: Body, b: Body, d: real): Hit
  {
    if !a.bullet then (if Colliding(a, b, d) then Hit(d) else Miss)
    else if a.resolution <= 1 then Miss
    else HitFrom(a, b, d / a.resolution as real, 1, 0.0)
  }

  lemma {:induction false} HitFromIsFirst(a: Body, b: Body, step: real, i: int, at: real)
    requires at == Times(i - 1, step)
    ensures
      match HitFrom(a, b, step, i, at)
      case Miss => forall k :: i <= k < a.resolution ==> !Colliding(a, b, Times(k, step))
      case Hit(t) =>
        exists k :: i <= k < a.resolution && t == Times(k, step) && Colliding(a, b, t)
                    && forall j :: i <= j < k ==> !Colliding(a, b, Times(j, step))
    decreases a.resolution - i
  {
    if i < a.resolution {
      NextTime(i, step);
      assert at + step == Times(i, step);
      if !Colliding(a, b, at + step) {
        HitFromIsFirst(a, b, step, i + 1, at + step);
      }
    }
  }

  function Times(k: int, step: real): real
  {
    k as real * step
  }

  lemma NextTime(k: int, step: real)
    ensures Times(k, step) == Times(k - 1, step) + step
  {
    assert k as real == (k - 1) as real + 1.0;
    Spread((k - 1) as real, step);
  }

  lemma Spread(x: real, step: real)
    ensures (x + 1.0) * step == x * step + step
  {
  }

  /** A bullet hits at the first of the inner steps of the delta at which the boxes overlap; the end of the delta is
      never tested, so a resolution of one or less never hits. */
  lemma BulletHitsFirst(a: Body, b: Body, d: real)
    requires a.bullet
    ensures a.resolution <= 1 ==> Tested(a, b, d) == Miss
    ensures a.resolution > 1 ==>
      var step := d / a.resolution as real;
      match Tested(a, b, d)
      case Miss => forall k :: 1 <= k < a.resolution ==> !Colliding(a, b, Times(k, step))
      case Hit(t) =>
        exists k :: 1 <= k < a.resolution && t == Times(k, step) && Colliding(a, b, t)
                    && forall j :: 1 <= j < k ==> !Colliding(a, b, Times(j, step))
  {
    if a.resolution > 1 {
      HitFromIsFirst(a, b, d / a.resolution as real, 1, 0.0);
    }
  }

  /** A box that is no bullet is tested at the end of the delta, and only there. */
  lemma OthersHitAtTheEnd(a: Body, b: Body, d: real)
    requires !a.bullet
    ensures Tested(a, b, d).Hit? <==> Colliding(a, b, d)
    ensures Tested(a, b, d).Hit? ==> Tested(a, b, d).time == d
  {
  }

  /** A box meets another in its update. */
  function Met(a: Body, b: Body, d: real): (Body, Body)
  {
    match Tested(a, b, d)
    case Miss => (a, b)
    case Hit(t) => Collided(a, b, t)
  }

  /** An active box meets the others in order, each once. */
  function MetAll(a: Body, others: seq<Body>, d: real): (Body, seq<Body>)
    decreases |others|
  {
    if others == [] then (a, [])
    else
      var (a1, b1) := Met(a, others[0], d);
      var (a2, rest) := MetAll(a1, others[1..], d);
      (a2, [b1] + rest)
  }

  /** The same box, but for its place and the direction it moves in. */
  predicate SameBox(p: Body, q: Body)
  {
    p == q.(at := p.at, velocity := p.velocity) && SameSpeed(p.velocity, q.velocity)
  }

  lemma MetKeeps(a: Body, b: Body, d: real)
    ensures SameBox(Met(a, b, d).0, a) && SameBox(Met(a, b, d).1, b)
  {
    match Tested(a, b, d)
    case Miss =>
    case Hit(t) =>
      AnswerKeeps(a, Reach(a, b, t));
      AnswerKeeps(b, Seen(a, b, t));
  }

  /** An update changes nothing of any box but its place and the signs of its velocity. */
  lemma {:induction false} MetAllKeeps(a: Body, others: seq<Body>, d: real)
    ensures
      var (p, q) := MetAll(a, others, d);
      && SameBox(p, a) && |q| == |others|
      && (forall i :: 0 <= i < |q| ==> SameBox(q[i], others[i]))
    decreases |others|
  {
    if others != [] {
      var (a1, b1) := Met(a, others[0], d);
      MetKeeps(a, others[0], d);
      MetAllKeeps(a1, others[1..], d);
      var (a2, rest) := MetAll(a1, others[1..], d);
      assert SameBox(a2, a1) && SameBox(a1, a);
    }
  }
}
