// Laws of the response of simple colliders: it treats left and right, and the two axes, alike; when it answers, and
// what an answer leaves of the contact; and how meetings follow one another.
module CollisionLaws {
  import opened Collision
  import opened Sequences

  // ---------- Mirrored and turned ----------

  /** Left and right exchanged. */
  function FlippedVector(v: Vector): Vector
  {
    Vector(-v.x, v.y)
  }

  function Flipped(b: Body): Body
  {
    b.(at := FlippedVector(b.at), velocity := FlippedVector(b.velocity))
  }

  function FlippedSides(s: Sides): Sides
  {
    Sides(s.right, s.left, s.top, s.bottom)
  }

  function FlippedHit(h: (Body, Body)): (Body, Body)
  {
    (Flipped(h.0), Flipped(h.1))
  }

  function AllFlipped(q: seq<Body>): (r: seq<Body>)
    ensures |r| == |q| && forall i :: 0 <= i < |q| ==> r[i] == Flipped(q[i])
  {
    if q == [] then [] else [Flipped(q[0])] + AllFlipped(q[1..])
  }

  /** The two axes exchanged. */
  function TurnedVector(v: Vector): Vector
  {
    Vector(v.y, v.x)
  }

  function Turned(b: Body): Body
  {
    b.(at := TurnedVector(b.at), velocity := TurnedVector(b.velocity),
       width := b.height, height := b.width, lockX := b.lockY, lockY := b.lockX)
  }

  function TurnedSides(s: Sides): Sides
  {
    Sides(s.bottom, s.top, s.right, s.left)
  }

  function TurnedHit(h: (Body, Body)): (Body, Body)
  {
    (Turned(h.0), Turned(h.1))
  }

  function AllTurned(q: seq<Body>): (r: seq<Body>)
    ensures |r| == |q| && forall i :: 0 <= i < |q| ==> r[i] == Turned(q[i])
  {
    if q == [] then [] else [Turned(q[0])] + AllTurned(q[1..])
  }

  lemma FlippedReach(a: Body, b: Body, d: real)
    ensures Reach(Flipped(a), Flipped(b), d) == FlippedSides(Reach(a, b, d))
  {
    Backwards(a.velocity.x, d);
    Backwards(b.velocity.x, d);
  }

  lemma TurnedReach(a: Body, b: Body, d: real)
    ensures Reach(Turned(a), Turned(b), d) == TurnedSides(Reach(a, b, d))
  {
  }

  function FlippedExit(x: Exit): Exit
  {
    if x.Leftwards? then Rightwards else if x.Rightwards? then Leftwards else x
  }

  lemma ExitFlips(b: Body, s: Sides)
    ensures ExitOf(Flipped(b), FlippedSides(s)) == FlippedExit(ExitOf(b, s))
  {
    assert Flipped(b).velocity.x == -b.velocity.x && Flipped(b).velocity.y == b.velocity.y;
  }

  lemma FlippedAnswer(b: Body, s: Sides)
    ensures Answered(Flipped(b), FlippedSides(s)) == Flipped(Answered(b, s))
  {
    ExitFlips(b, s);
    AnswerByExit(b, s, ExitOf(b, s));
    AnswerByExit(Flipped(b), FlippedSides(s), FlippedExit(ExitOf(b, s)));
  }

  lemma AnswerByExit(b: Body, s: Sides, x: Exit)
    requires x == ExitOf(b, s)
    ensures
      var u := Shift(x, s);
      Answered(b, s) == b.(at := Vector(b.at.x + u.x, b.at.y + u.y), velocity := Reflected(x, b.velocity))
  {
  }

  lemma TurnedAnswer(b: Body, s: Sides)
    ensures Answered(Turned(b), TurnedSides(s)) == Turned(Answered(b, s))
  {
  }

  lemma FlippedCollision(a: Body, b: Body, d: real)
    ensures Collided(Flipped(a), Flipped(b), d) == FlippedHit(Collided(a, b, d))
  {
    FlippedReach(a, b, d);
    FlippedReach(b, a, d);
    FlippedAnswer(a, Reach(a, b, d));
    FlippedAnswer(b, Seen(a, b, d));
  }

  lemma TurnedCollision(a: Body, b: Body, d: real)
    ensures Collided(Turned(a), Turned(b), d) == TurnedHit(Collided(a, b, d))
  {
    TurnedReach(a, b, d);
    TurnedReach(b, a, d);
    TurnedAnswer(a, Reach(a, b, d));
    TurnedAnswer(b, Seen(a, b, d));
  }

  lemma CollidingAlike(a: Body, b: Body, d: real)
    ensures Colliding(Flipped(a), Flipped(b), d) <==> Colliding(a, b, d)
    ensures Colliding(Turned(a), Turned(b), d) <==> Colliding(a, b, d)
  {
    FlippedReach(a, b, d);
    TurnedReach(a, b, d);
  }

  lemma {:induction false} AlikeFrom(a: Body, b: Body, p: Body, q: Body, step: real, i: int, at: real)
    requires p.resolution == a.resolution && ((p, q) == FlippedHit((a, b)) || (p, q) == TurnedHit((a, b)))
    ensures HitFrom(p, q, step, i, at) == HitFrom(a, b, step, i, at)
    decreases a.resolution - i
  {
    if i < a.resolution {
      CollidingAlike(a, b, at + step);
      AlikeFrom(a, b, p, q, step, i + 1, at + step);
    }
  }

  lemma TestedAlike(a: Body, b: Body, d: real)
    ensures Tested(Flipped(a), Flipped(b), d) == Tested(a, b, d)
    ensures Tested(Turned(a), Turned(b), d) == Tested(a, b, d)
  {
    CollidingAlike(a, b, d);
    if a.resolution > 1 {
      AlikeFrom(a, b, Flipped(a), Flipped(b), d / a.resolution as real, 1, 0.0);
      AlikeFrom(a, b, Turned(a), Turned(b), d / a.resolution as real, 1, 0.0);
    }
  }

  lemma MetAlike(a: Body, b: Body, d: real)
    ensures Met(Flipped(a), Flipped(b), d) == FlippedHit(Met(a, b, d))
    ensures Met(Turned(a), Turned(b), d) == TurnedHit(Met(a, b, d))
  {
    TestedAlike(a, b, d);
    match Tested(a, b, d)
    case Miss =>
    case Hit(t) =>
      FlippedCollision(a, b, t);
      TurnedCollision(a, b, t);
  }

  /** A whole update is the same with left and right exchanged. */
  lemma {:induction false} UpdateFlips(a: Body, others: seq<Body>, d: real)
    ensures
      var (p, q) := MetAll(a, others, d);
      MetAll(Flipped(a), AllFlipped(others), d) == (Flipped(p), AllFlipped(q))
    decreases |others|
  {
    if others != [] {
      var (a1, b1) := Met(a, others[0], d);
      var (a2, rest) := MetAll(a1, others[1..], d);
      MetAlike(a, others[0], d);
      UpdateFlips(a1, others[1..], d);
      assert ([b1] + rest)[1..] == rest;
    }
  }

  /** And with the two axes exchanged. So what holds of one side holds of all four. */
  lemma {:induction false} UpdateTurns(a: Body, others: seq<Body>, d: real)
    ensures
      var (p, q) := MetAll(a, others, d);
      MetAll(Turned(a), AllTurned(others), d) == (Turned(p), AllTurned(q))
    decreases |others|
  {
    if others != [] {
      var (a1, b1) := Met(a, others[0], d);
      var (a2, rest) := MetAll(a1, others[1..], d);
      MetAlike(a, others[0], d);
      UpdateTurns(a1, others[1..], d);
      assert ([b1] + rest)[1..] == rest;
    }
  }

  // ---------- When a box answers ----------

  /** An active simple box that moves right, is not locked on that axis, and reaches least deep from its left. */
  predicate Bumps(b: Body, s: Sides)
  {
    && b.active && b.simple && b.mobile && !b.lockX && b.velocity.x > 0.0
    && s.left < s.right && s.left < s.top && s.left < s.bottom
  }

  /** The same for each of the four sides: moving right, left, up or down. */
  predicate BumpsSomewhere(b: Body, s: Sides)
  {
    || Bumps(b, s)
    || Bumps(Flipped(b), FlippedSides(s))
    || Bumps(Turned(b), TurnedSides(s))
    || Bumps(Flipped(Turned(b)), FlippedSides(TurnedSides(s)))
  }

  lemma BumpsRight(b: Body, s: Sides)
    ensures Bumps(b, s) <==> ExitOf(b, s) == Leftwards
  {
  }

  lemma BumpsLeft(b: Body, s: Sides)
    ensures Bumps(Flipped(b), FlippedSides(s)) <==> ExitOf(b, s) == Rightwards
  {
    ExitFlips(b, s);
    BumpsRight(Flipped(b), FlippedSides(s));
  }

  lemma BumpsUp(b: Body, s: Sides)
    ensures Bumps(Turned(b), TurnedSides(s)) <==> ExitOf(b, s) == Downwards
  {
  }

  lemma BumpsDown(b: Body, s: Sides)
    ensures Bumps(Flipped(Turned(b)), FlippedSides(TurnedSides(s))) <==> ExitOf(b, s) == Upwards
  {
    BumpsLeft(Turned(b), TurnedSides(s));
  }

  lemma StayIffNoBump(b: Body, s: Sides)
    ensures ExitOf(b, s) == Stay <==> !BumpsSomewhere(b, s)
  {
    BumpsRight(b, s);
    BumpsLeft(b, s);
    BumpsUp(b, s);
    BumpsDown(b, s);
  }

  lemma StayIsNoAnswer(b: Body, s: Sides)
    ensures ExitOf(b, s) == Stay <==> Answered(b, s) == b
  {
    var v := Answered(b, s).velocity;
    match ExitOf(b, s)
    case Stay =>
    case Leftwards => assert v.x == -b.velocity.x;
    case Rightwards => assert v.x == -b.velocity.x;
    case Downwards => assert v.y == -b.velocity.y;
    case Upwards => assert v.y == -b.velocity.y;
  }

  /** A box answers exactly when it bumps into one of the sides; otherwise nothing about it changes. */
  lemma AnswersIffBumps(b: Body, s: Sides)
    ensures Answered(b, s) == b <==> !BumpsSomewhere(b, s)
  {
    StayIffNoBump(b, s);
    StayIsNoAnswer(b, s);
  }

  /** A box that bumps into something moving right is put back by its reach and turned round; the other three sides
      follow by exchanging left and right, and the axes. */
  lemma BumpIsAnswered(b: Body, s: Sides)
    requires Bumps(b, s)
    ensures Answered(b, s) == b.(at := Vector(b.at.x - s.left, b.at.y), velocity := FlippedVector(b.velocity))
    ensures Answered(Flipped(b), FlippedSides(s)) == Flipped(Answered(b, s))
    ensures Answered(Turned(b), TurnedSides(s)) == Turned(Answered(b, s))
  {
    FlippedAnswer(b, s);
    TurnedAnswer(b, s);
  }

  /** Put back like this, and with the velocity it had, it just touches the other box at the time of the collision, if
      that one stays. */
  lemma BumpEndsInTouch(a: Body, b: Body, d: real)
    requires Bumps(a, Reach(a, b, d))
    ensures Reach(Answered(a, Reach(a, b, d)).(velocity := a.velocity), b, d).left == 0.0
  {
    var s := Reach(a, b, d);
    ShiftedReach(a, Answered(a, s).at, Vector(-s.left, 0.0), b, b.at, Vector(0.0, 0.0), d);
    assert b.(at := b.at) == b;
    assert a.(at := Answered(a, s).at) == Answered(a, s).(velocity := a.velocity);
  }

  /** Neither box answers a collision exactly when neither bumps into a side of the other. */
  lemma StaysIffNoBump(a: Body, b: Body, d: real)
    ensures Stays(a, b, d) <==> !BumpsSomewhere(a, Reach(a, b, d)) && !BumpsSomewhere(b, Reach(b, a, d))
  {
    StayIffNoBump(a, Reach(a, b, d));
    StayIffNoBump(b, Seen(a, b, d));
  }

  // ---------- Meetings ----------

  /** A meeting without a hit changes nothing; after one with a hit the boxes are apart at the time of the hit, with
      their old velocities and with their new ones, exactly when one of them bumped into the other. */
  lemma MeetingParts(a: Body, b: Body, d: real)
    requires d >= 0.0
    ensures
      var (p, q) := Met(a, b, d);
      match Tested(a, b, d)
      case Miss => p == a && q == b
      case Hit(t) =>
        var bump := BumpsSomewhere(a, Reach(a, b, t)) || BumpsSomewhere(b, Reach(b, a, t));
        && (Inside(Reach(p.(velocity := a.velocity), q.(velocity := b.velocity), t)) <==> !bump)
        && (Inside(Reach(p, q, t)) <==> !bump)
  {
    match Tested(a, b, d)
    case Miss =>
    case Hit(t) =>
      HitIsCollision(a, b, d);
      StaysIffNoBump(a, b, t);
      ApartIffAnswered(a, b, t);
      ApartWithNewVelocities(a, b, t);
  }

  lemma {:induction false} LaterHit(a: Body, b: Body, step: real, i: int, at: real)
    requires step >= 0.0 && at >= 0.0 && HitFrom(a, b, step, i, at).Hit?
    ensures HitFrom(a, b, step, i, at).time >= 0.0 && Colliding(a, b, HitFrom(a, b, step, i, at).time)
    decreases a.resolution - i
  {
    if !Colliding(a, b, at + step) { LaterHit(a, b, step, i + 1, at + step); }
  }

  lemma StepNotNegative(d: real, n: int)
    requires d >= 0.0 && n > 0
    ensures d / n as real >= 0.0
  {
  }

  lemma HitIsCollision(a: Body, b: Body, d: real)
    requires d >= 0.0 && Tested(a, b, d).Hit?
    ensures Tested(a, b, d).time >= 0.0 && Colliding(a, b, Tested(a, b, d).time)
  {
    if a.bullet {
      StepNotNegative(d, a.resolution);
      LaterHit(a, b, d / a.resolution as real, 1, 0.0);
    }
  }

  /** An update that meets one box is that meeting; one that meets more is the meetings one after the other, each with
      the box as the ones before have left it. */
  lemma {:induction false} MeetingsFollow(a: Body, p: seq<Body>, q: seq<Body>, d: real)
    ensures
      var (a1, p1) := MetAll(a, p, d);
      var (a2, q1) := MetAll(a1, q, d);
      MetAll(a, p + q, d) == (a2, p1 + q1)
    decreases |p|
  {
    if p == [] {
      assert p + q == q && [] + MetAll(a, q, d).1 == MetAll(a, q, d).1;
    } else {
      var (a1, b1) := Met(a, p[0], d);
      MeetingsFollow(a1, p[1..], q, d);
      assert (p + q)[0] == p[0] && (p + q)[1..] == p[1..] + q;
      var (a2, rest) := MetAll(a1, p[1..], d);
      Assoc([b1], rest, MetAll(a2, q, d).1);
    }
  }

  lemma OneMeeting(a: Body, b: Body, d: real)
    ensures MetAll(a, [b], d) == (Met(a, b, d).0, [Met(a, b, d).1])
  {
    var (p, q) := Met(a, b, d);
    assert [b][1..] == [] && MetAll(p, [], d) == (p, []) && [q] + [] == [q];
  }
}
