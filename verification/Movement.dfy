// The fixed-step movement of src/game/movementcomponent.cpp, over real numbers.
module Movement {

  const STEP: real := 1.0 / 60.0

  /** Limits on the speed against and along an axis; a limit of -1 or less is switched off. */
  datatype Limit = Limit(first: real, second: real)

  /** Position and velocity along one axis. */
  datatype Axis = Axis(at: real, speed: real)

  datatype Motion = Motion(x: Axis, y: Axis)

  datatype Forces = Forces(ax: real, ay: real, limitX: Limit, limitY: Limit)

  // ---------- One step ----------

  function Limited(v: real, l: Limit): real
  {
    var u := if l.first > -1.0 && v < -l.first then -l.first else v;
    if l.second > -1.0 && u > l.second then l.second else u
  }

  predicate Within(v: real, l: Limit)
  {
    (l.first > -1.0 ==> v >= -l.first) && (l.second > -1.0 ==> v <= l.second)
  }

  predicate Compatible(l: Limit)
  {
    l.first > -1.0 && l.second > -1.0 ==> -l.first <= l.second
  }

  function Distance(v: real, w: real): real
  {
    if v < w then w - v else v - w
  }

  /** A limited speed is within both limits exactly when the limits leave room for one, and is then the nearest one
      within them; otherwise the second limit has the last word. */
  lemma LimitsHold(v: real, l: Limit)
    ensures Within(Limited(v, l), l) <==> Compatible(l)
    ensures !Compatible(l) ==> Limited(v, l) == l.second
    ensures Within(v, l) ==> Limited(v, l) == v
    ensures Compatible(l) ==> forall w :: Within(w, l) ==> Distance(v, Limited(v, l)) <= Distance(v, w)
  {
  }

  function AxisStep(m: Axis, a: real, l: Limit): Axis
  {
    var v := Limited(m.speed + a * STEP, l);
    Axis(m.at + v * STEP, v)
  }

  function MotionStep(m: Motion, f: Forces): Motion
  {
    Motion(AxisStep(m.x, f.ax, f.limitX), AxisStep(m.y, f.ay, f.limitY))
  }

  function Steps(m: Motion, f: Forces, n: nat): Motion
    decreases n
  {
    if n == 0 then m else Steps(MotionStep(m, f), f, n - 1)
  }

  // ---------- The accumulator ----------

  datatype Moved = Moved(accumulator: real, motion: Motion)

  /** Whole steps are taken out of the accumulated time until less than one is left. */
  function Drained(accumulator: real, m: Motion, f: Forces): Moved
    decreases accumulator * 60.0
  {
    if accumulator < STEP then Moved(accumulator, m) else Drained(accumulator - STEP, MotionStep(m, f), f)
  }

  function Updated(s: Moved, d: real, f: Forces): Moved
  {
    Drained(s.accumulator + d, s.motion, f)
  }

  lemma {:induction false} DrainedSteps(accumulator: real, m: Motion, f: Forces) returns (n: nat)
    ensures accumulator < STEP ==> n == 0
    ensures Drained(accumulator, m, f) == Moved(accumulator - n as real * STEP, Steps(m, f, n))
    decreases accumulator * 60.0
  {
    if accumulator < STEP {
      n := 0;
    } else {
      n := DrainedSteps(accumulator - STEP, MotionStep(m, f), f);
      n := n + 1;
    }
  }

  /** After an update less than one step of time is left over, and none is owed. */
  lemma {:induction false} Leftover(accumulator: real, m: Motion, f: Forces)
    requires accumulator >= 0.0
    ensures 0.0 <= Drained(accumulator, m, f).accumulator < STEP
    decreases accumulator * 60.0
  {
    if accumulator >= STEP { Leftover(accumulator - STEP, MotionStep(m, f), f); }
  }

  lemma SixtySteps(time: real, n: nat)
    requires 0.0 <= time - n as real * STEP < STEP
    ensures (time * 60.0).Floor == n
  {
    var steps := n as real * STEP;
    assert steps * 60.0 == n as real;
    assert (time - steps) * 60.0 < 1.0;
  }

  /** An update takes the whole sixtieths of a second out of the accumulated time, one step for each. */
  lemma WholeSteps(accumulator: real, m: Motion, f: Forces)
    requires accumulator >= 0.0
    ensures
      var n := (accumulator * 60.0).Floor;
      n >= 0 && Drained(accumulator, m, f) == Moved(accumulator - n as real * STEP, Steps(m, f, n))
  {
    var n := DrainedSteps(accumulator, m, f);
    Leftover(accumulator, m, f);
    SixtySteps(accumulator, n);
  }

  lemma {:induction false} DrainedTwice(accumulator: real, m: Motion, f: Forces, d: real)
    requires d >= 0.0
    ensures Updated(Drained(accumulator, m, f), d, f) == Drained(accumulator + d, m, f)
    decreases accumulator * 60.0
  {
    if accumulator >= STEP {
      DrainedTwice(accumulator - STEP, MotionStep(m, f), f, d);
      assert accumulator - STEP + d == accumulator + d - STEP;
    }
  }

  /** Two updates move as one update by the sum of their times: the same position, velocity and time left over. */
  lemma FrameRateIndependence(s: Moved, d1: real, d2: real, f: Forces)
    requires d2 >= 0.0
    ensures Updated(Updated(s, d1, f), d2, f) == Updated(s, d1 + d2, f)
  {
    DrainedTwice(s.accumulator + d1, s.motion, f, d2);
    assert s.accumulator + d1 + d2 == s.accumulator + (d1 + d2);
  }

  function Total(ds: seq<real>): real
  {
    if ds == [] then 0.0 else ds[0] + Total(ds[1..])
  }

  function UpdatedAll(s: Moved, ds: seq<real>, f: Forces): Moved
    decreases |ds|
  {
    if ds == [] then s else UpdatedAll(Updated(s, ds[0], f), ds[1..], f)
  }

  /** However a stretch of time is cut into frames, a body whose accumulator holds less than a step ends up in the same
      place with the same velocity. */
  lemma {:induction false} AnyFrames(s: Moved, ds: seq<real>, f: Forces)
    requires s.accumulator < STEP && forall i :: 0 <= i < |ds| ==> ds[i] >= 0.0
    ensures UpdatedAll(s, ds, f) == Updated(s, Total(ds), f)
    decreases |ds|
  {
    if ds != [] {
      var t := Updated(s, ds[0], f);
      var n := DrainedSteps(s.accumulator + ds[0], s.motion, f);
      BelowStep(s.accumulator + ds[0], s.motion, f);
      AnyFrames(t, ds[1..], f);
      NotNegative(ds[1..]);
      FrameRateIndependence(s, ds[0], Total(ds[1..]), f);
    }
  }

  lemma {:induction false} BelowStep(accumulator: real, m: Motion, f: Forces)
    ensures Drained(accumulator, m, f).accumulator < STEP
    decreases accumulator * 60.0
  {
    if accumulator >= STEP { BelowStep(accumulator - STEP, MotionStep(m, f), f); }
  }

  lemma {:induction false} NotNegative(ds: seq<real>)
    requires forall i :: 0 <= i < |ds| ==> ds[i] >= 0.0
    ensures Total(ds) >= 0.0
  {
    if ds != [] { NotNegative(ds[1..]); }
  }

  /** Velocities stay within compatible limits, once they are. */
  lemma {:induction false} StaysWithin(m: Motion, f: Forces, n: nat)
    requires Compatible(f.limitX) && Compatible(f.limitY)
    requires n > 0 || (Within(m.x.speed, f.limitX) && Within(m.y.speed, f.limitY))
    ensures Within(Steps(m, f, n).x.speed, f.limitX) && Within(Steps(m, f, n).y.speed, f.limitY)
    decreases n
  {
    if n > 0 {
      LimitsHold(m.x.speed + f.ax * STEP, f.limitX);
      LimitsHold(m.y.speed + f.ay * STEP, f.limitY);
      StaysWithin(MotionStep(m, f), f, n - 1);
    }
  }

  // ---------- The closed form ----------

  const FREE := Limit(-1.0, -1.0)

  function AxisSteps(m: Axis, a: real, n: nat): Axis
    decreases n
  {
    if n == 0 then m else AxisSteps(AxisStep(m, a, FREE), a, n - 1)
  }

  /** Without limits n steps give the sum of an arithmetic series. */
  lemma {:induction false} ClosedForm(m: Axis, a: real, n: nat)
    ensures
      var r, k := AxisSteps(m, a, n), n as real;
      && r.speed == m.speed + k * (a * STEP)
      && r.at == m.at + k * (m.speed * STEP) + k * (k + 1.0) / 2.0 * (a * STEP * STEP)
    decreases n
  {
    if n > 0 {
      ClosedForm(AxisStep(m, a, FREE), a, n - 1);
      Series(m.at, m.speed, a * STEP, STEP, n as real);
    }
  }

  /** One step and k - 1 more make k. */
  lemma Series(p: real, v: real, g: real, s: real, k: real)
    ensures v + g + (k - 1.0) * g == v + k * g
    ensures p + (v + g) * s + (k - 1.0) * ((v + g) * s) + (k - 1.0) * k / 2.0 * (g * s)
            == p + k * (v * s) + k * (k + 1.0) / 2.0 * (g * s)
  {
    var w, h := v * s, g * s;
    assert (v + g) * s == w + h;
    assert (k - 1.0) * (w + h) == k * w + k * h - w - h;
    assert (k - 1.0) * k / 2.0 * h + k * h == k * (k + 1.0) / 2.0 * h by {
      assert (k - 1.0) * k / 2.0 + k == k * (k + 1.0) / 2.0;
    }
  }

  lemma {:induction false} FreeSteps(m: Motion, f: Forces, n: nat)
    requires f.limitX == FREE && f.limitY == FREE
    ensures Steps(m, f, n) == Motion(AxisSteps(m.x, f.ax, n), AxisSteps(m.y, f.ay, n))
    decreases n
  {
    if n > 0 { FreeSteps(MotionStep(m, f), f, n - 1); }
  }

  // ---------- The component ----------

  class Position {
    var x: real
    var y: real

    constructor (x0: real, y0: real)
      ensures x == x0 && y == y0
    {
      x, y := x0, y0;
    }

    method Translate(dx: real, dy: real)
      modifies this
      ensures x == old(x) + dx && y == old(y) + dy
    {
      x, y := x + dx, y + dy;
    }
  }

  class MovementComponent {
    var accelerationX: real
    var accelerationY: real
    var velocityX: real
    var velocityY: real
    var limitX: Limit
    var limitY: Limit
    var position: Position?
    var accumulator: real

    constructor ()
      ensures position == null && accumulator == 0.0 && limitX == FREE && limitY == FREE
      ensures velocityX == velocityY == accelerationX == accelerationY == 0.0
    {
      accelerationX, accelerationY, velocityX, velocityY := 0.0, 0.0, 0.0, 0.0;
      limitX, limitY, position, accumulator := FREE, FREE, null, 0.0;
    }

    function Applied(): Forces
      reads this
    {
      Forces(accelerationX, accelerationY, limitX, limitY)
    }

    function State(): Moved
      requires position != null
      reads this, position
    {
      Moved(accumulator, Motion(Axis(position.x, velocityX), Axis(position.y, velocityY)))
    }

    /** A component without a position neither moves nor accumulates time. */
    method Update(d: real)
      modifies this`accumulator, this`velocityX, this`velocityY, position
      ensures position == null ==>
        accumulator == old(accumulator) && velocityX == old(velocityX) && velocityY == old(velocityY)
      ensures position != null ==>
        State() == Updated(old(State()), d, Forces(accelerationX, accelerationY, limitX, limitY))
    {
      if position == null { return; }
      accumulator := accumulator + d;
      while accumulator >= STEP
        invariant Drained(accumulator, State().motion, Applied())
                  == Drained(old(accumulator) + d, old(State()).motion, Applied())
        decreases accumulator * 60.0
      {
        accumulator := accumulator - STEP;
        StepOnce();
      }
    }

    method StepOnce()
      requires position != null
      modifies this`velocityX, this`velocityY, position
      ensures State() == Moved(accumulator, MotionStep(old(State()).motion, Applied()))
    {
      Accelerate();
      position.Translate(velocityX * STEP, velocityY * STEP);
    }

    method Accelerate()
      modifies this`velocityX, this`velocityY
      ensures velocityX == Limited(old(velocityX) + accelerationX * STEP, limitX)
      ensures velocityY == Limited(old(velocityY) + accelerationY * STEP, limitY)
    {
      velocityX, velocityY := velocityX + accelerationX * STEP, velocityY + accelerationY * STEP;
      if limitX.first > -1.0 && velocityX < -limitX.first { velocityX := -limitX.first; }
      if limitX.second > -1.0 && velocityX > limitX.second { velocityX := limitX.second; }
      if limitY.first > -1.0 && velocityY < -limitY.first { velocityY := -limitY.first; }
      if limitY.second > -1.0 && velocityY > limitY.second { velocityY := limitY.second; }
    }
  }
}
