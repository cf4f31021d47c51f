// The collider component of src/game/collidercomponent.cpp as it runs, for box bodies. Its position and velocity stand
// for the position and movement components of its entity.
module ColliderComponent {
  import opened Collision
  import opened Sequences

  class ColliderComponent {
    var at: Vector
    var velocity: Vector
    var width: real
    var height: real
    var mobile: bool
    var active: bool
    var bullet: bool
    var lockX: bool
    var lockY: bool
    var resolution: int
    const simple: bool

    constructor (isSimple: bool)
      ensures simple == isSimple && active && !bullet && resolution == 8
    {
      simple := isSimple;
      at, velocity := Vector(0.0, 0.0), Vector(0.0, 0.0);
      width, height := 0.0, 0.0;
      mobile, active, bullet, lockX, lockY, resolution := false, true, false, false, false, 8;
    }

    ghost function State(): Body
      reads this
    {
      Body(at, width, height, mobile, velocity, active, simple, lockX, lockY, bullet, resolution)
    }

    method Simulate(d: real) returns (p: Vector)
      ensures p == Simulated(State(), d)
    {
      p := Vector(at.x + Advance(velocity.x, d), at.y + Advance(velocity.y, d));
    }

    /** Whether the boxes overlap at time d; then also how far they reach into each other. */
    method IsColliding(c: ColliderComponent, d: real) returns (hit: bool, sides: Sides)
      ensures hit == Colliding(State(), c.State(), d)
      ensures sides == if hit then Reach(State(), c.State(), d) else NO_SIDES
    {
      hit, sides := false, NO_SIDES;
      if !mobile { return; }
      var p := Simulate(d);
      var q := c.Simulate(d);
      var l := p.x + width / 2.0 - (q.x - c.width / 2.0);
      if l <= 0.0 { return; }
      var r := q.x + c.width / 2.0 - (p.x - width / 2.0);
      if r <= 0.0 { return; }
      var t := q.y + c.height / 2.0 - (p.y - height / 2.0);
      if t <= 0.0 { return; }
      var b := p.y + height / 2.0 - (q.y - c.height / 2.0);
      if b <= 0.0 { return; }
      hit, sides := true, Sides(l, r, t, b);
    }

    method TranslateX(dx: real)
      modifies this`at
      ensures at == Vector(old(at).x + dx, old(at).y)
    {
      at := Vector(at.x + dx, at.y);
    }

    method TranslateY(dy: real)
      modifies this`at
      ensures at == Vector(old(at).x, old(at).y + dy)
    {
      at := Vector(at.x, at.y + dy);
    }

    /** The response: a simple collider leaves by its strictly smallest side and turns back on that axis. */
    method Collision(s: Sides) returns (handled: bool)
      modifies this`at, this`velocity
      ensures State() == Answered(old(State()), s)
      ensures handled == (simple && active && mobile)
    {
      if !simple || !active || !mobile { return false; }
      var v := velocity;
      if v.x == 0.0 && v.y == 0.0 {
        return true;
      } else if v.x > 0.0 && !lockX && s.left < s.right && s.left < s.top && s.left < s.bottom {
        v := Vector(v.x * -1.0, v.y);
        TranslateX(-s.left);
      } else if v.x < 0.0 && !lockX && s.right < s.left && s.right < s.top && s.right < s.bottom {
        v := Vector(v.x * -1.0, v.y);
        TranslateX(s.right);
      } else if v.y > 0.0 && !lockY && s.bottom < s.top && s.bottom < s.left && s.bottom < s.right {
        v := Vector(v.x, v.y * -1.0);
        TranslateY(-s.bottom);
      } else if v.y < 0.0 && !lockY && s.top < s.bottom && s.top < s.left && s.top < s.right {
        v := Vector(v.x, v.y * -1.0);
        TranslateY(s.top);
      } else {
        return true;
      }
      velocity := v;
      return true;
    }

    /** Both boxes see the collision before either answers; the other one answers first. */
    method Collide(c: ColliderComponent, d: real, sides: Sides)
      requires c != this && Colliding(State(), c.State(), d) && sides == Reach(State(), c.State(), d)
      modifies this`at, this`velocity, c`at, c`velocity
      ensures (State(), c.State()) == Collided(old(State()), old(c.State()), d)
    {
      Mirrored(State(), c.State(), d);
      var seen, back := c.IsColliding(this, d);
      var _ := c.Collision(back);
      var _ := Collision(sides);
    }

    /** The test of a bullet: at every inner step of the delta, until one hits. */
    method Fly(c: ColliderComponent, d: real) returns (hit: Hit, sides: Sides)
      requires bullet
      ensures hit == Tested(State(), c.State(), d)
      ensures hit.Hit? ==> Colliding(State(), c.State(), hit.time) && sides == Reach(State(), c.State(), hit.time)
    {
      hit, sides := Miss, NO_SIDES;
      if resolution <= 1 { return; }
      var step := d / resolution as real;
      var time := 0.0;
      var i := 1;
      while i < resolution
        invariant HitFrom(State(), c.State(), step, i, time) == Tested(State(), c.State(), d)
      {
        time := time + step;
        var now: bool;
        now, sides := IsColliding(c, time);
        if now { return Hit(time), sides; }
        i := i + 1;
      }
    }

    method Meet(c: ColliderComponent, d: real)
      requires c != this
      modifies this`at, this`velocity, c`at, c`velocity
      ensures (State(), c.State()) == Met(old(State()), old(c.State()), d)
    {
      if bullet {
        var hit, sides := Fly(c, d);
        if hit.Hit? { Collide(c, hit.time, sides); }
      } else {
        var hit, sides := IsColliding(c, d);
        if hit { Collide(c, d, sides); }
      }
    }

    /** One meeting in the walk over the layer's colliders: those met before and those to come keep their state. */
    method MeetNext(c: ColliderComponent, d: real, ghost done: seq<ColliderComponent>,
        ghost rest: seq<ColliderComponent>)
      requires c != this && Outside(c, done) && Outside(c, rest) && Outside(this, done) && Outside(this, rest)
      modifies this`at, this`velocity, c`at, c`velocity
      ensures
        var (p, q) := Met(old(State()), old(c.State()), d);
        State() == p && States(done + [c]) == old(States(done)) + [q]
      ensures States(rest) == old(States(rest))
    {
      Meet(c, d);
      StatesJoin(done, [c]);
    }

    /** An active collider meets every other collider of its layer, in the order of their registration. */
    method Update(d: real, colliders: seq<ColliderComponent>)
      requires Distinct(colliders)
      modifies this`at, this`velocity, colliders`at, colliders`velocity
      ensures
        var others := Others(colliders, this);
        (State(), States(others)) == if active then MetAll(old(State()), old(States(others)), d)
                                     else (old(State()), old(States(others)))
    {
      if !active { return; }
      ghost var all := MetAll(State(), States(Others(colliders, this)), d);
      var todo := colliders;
      ghost var done: seq<ColliderComponent> := [];
      assert [] + all.1 == all.1 && [] + Others(colliders, this) == Others(colliders, this);
      while todo != []
        invariant Walk(colliders, done, todo, this)
        invariant Joined(States(done), MetAll(State(), States(Others(todo, this)), d)) == all
      {
        var c := todo[0];
        assert c in todo;
        ghost var rest := Others(todo[1..], this);
        WalkOn(colliders, done, todo, this);
        if c != this {
          ghost var a, b, more := State(), c.State(), States(rest);
          assert States(Others(todo, this)) == [b] + more;
          JoinNext(States(done), a, b, more, d);
          MeetNext(c, d, done, rest);
          done := done + [c];
        } else {
          assert Others(todo, this) == rest;
        }
        todo := todo[1..];
      }
      assert done + [] == done && States(done) + [] == States(done);
    }
  }

  /** What was done before a walk goes on, joined to what the walk will do. */
  function Joined(done: seq<Body>, r: (Body, seq<Body>)): (Body, seq<Body>)
  {
    (r.0, done + r.1)
  }

  lemma JoinNext(done: seq<Body>, a: Body, b: Body, more: seq<Body>, d: real)
    ensures
      var (p, q) := Met(a, b, d);
      Joined(done, MetAll(a, [b] + more, d)) == Joined(done + [q], MetAll(p, more, d))
  {
    assert ([b] + more)[1..] == more;
    var (p, q) := Met(a, b, d);
    var rest := MetAll(p, more, d).1;
    assert done + ([q] + rest) == (done + [q]) + rest;
  }

  predicate Outside(c: ColliderComponent, q: seq<ColliderComponent>)
  {
    forall i :: 0 <= i < |q| ==> q[i] != c
  }

  /** The walk stands between the colliders it has met and those to come. */
  predicate Walk(all: seq<ColliderComponent>, done: seq<ColliderComponent>, todo: seq<ColliderComponent>,
                 self: ColliderComponent)
  {
    && Distinct(todo) && (forall c :: c in todo ==> c in all) && Outside(self, done)
    && (forall i :: 0 <= i < |todo| ==> Outside(todo[i], done))
    && done + Others(todo, self) == Others(all, self)
  }

  lemma WalkOn(all: seq<ColliderComponent>, done: seq<ColliderComponent>, todo: seq<ColliderComponent>,
               self: ColliderComponent)
    requires Walk(all, done, todo, self) && todo != []
    ensures Outside(todo[0], Others(todo[1..], self)) && Outside(self, Others(todo[1..], self))
    ensures Walk(all, if todo[0] == self then done else done + [todo[0]], todo[1..], self)
  {
    var c, rest := todo[0], Others(todo[1..], self);
    forall i | 0 <= i < |rest|
      ensures rest[i] != c && rest[i] != self
    {
      assert rest[i] in rest;
      var j :| 0 <= j < |todo[1..]| && todo[1..][j] == rest[i];
      assert todo[j + 1] == rest[i];
    }
    if c != self {
      assert done + ([c] + rest) == (done + [c]) + rest;
    }
  }

  function Others(q: seq<ColliderComponent>, self: ColliderComponent): (r: seq<ColliderComponent>)
    ensures forall c :: c in r ==> c in q && c != self
  {
    if q == [] then [] else (if q[0] == self then [] else [q[0]]) + Others(q[1..], self)
  }

  ghost function States(q: seq<ColliderComponent>): seq<Body>
    reads q
  {
    if q == [] then [] else [q[0].State()] + States(q[1..])
  }

  lemma {:induction false} StatesJoin(p: seq<ColliderComponent>, q: seq<ColliderComponent>)
    ensures States(p + q) == States(p) + States(q)
  {
    if p == [] {
      assert p + q == q;
    } else {
      assert (p + q)[1..] == p[1..] + q;
      StatesJoin(p[1..], q);
    }
  }
}
