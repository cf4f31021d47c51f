// The game loop's time accumulators (src/game/engine.cpp), over real numbers.
module FramePacing {
  import opened Sequences

  const LONG_WAIT: real := 0.125
  const COUNTER := 0x10000

  /** The frame rate asked for (none when 0), and whether the display waits for its own refresh. */
  datatype Config = Config(frameRateMax: nat, vsync: bool)

  /** One turn of the loop: the clock, and whether the display is active. */
  datatype Frame = Frame(now: real, active: bool)

  function Target(c: Config): (t: real)
    ensures 0.0 < t <= 1.0
  {
    var rate := if c.frameRateMax > 0 then c.frameRateMax as real else 60.0;
    Inverse(rate);
    1.0 / rate
  }

  lemma Inverse(rate: real)
    requires rate >= 1.0
    ensures 0.0 < 1.0 / rate <= 1.0
  {
    var t := 1.0 / rate;
    assert t * rate == 1.0;
  }

  /** Whether rendering is held to the frame rate asked for. */
  predicate Throttled(c: Config)
  {
    !c.vsync && c.frameRateMax > 0
  }

  /** The loop's variables, with what it has done so far: the time it has counted, the part of it counted towards
      rendering, the seconds, the renders and the rates reported. */
  datatype Pace = Pace(
    tick: real, render: real, second: real, frameRate: nat,
    counted: real, towardsRender: real, seconds: nat, renders: nat, skipped: nat, reported: seq<nat>)

  function Delta(c: Config, tick: real, now: real): real
  {
    if now - tick > LONG_WAIT then Target(c) else now - tick
  }

  function Started(c: Config, now: real): Pace
  {
    Pace(now - Target(c), 0.0, 0.0, 0, 0.0, 0.0, 0, 0, 0, [])
  }

  /** What is left of an accumulator, and how often the target was taken out of it. */
  datatype Flush = Flush(rest: real, times: nat)

  /** The time n renders stand for. */
  function Share(n: nat, target: real): real
  {
    if n == 0 then 0.0 else target + Share(n - 1, target)
  }

  lemma {:induction false} ShareIsProduct(n: nat, target: real)
    ensures Share(n, target) == n as real * target
  {
    if n > 0 {
      ShareIsProduct(n - 1, target);
      assert n as real == (n - 1) as real + 1.0;
      PlusOne((n - 1) as real, target);
    }
  }

  lemma PlusOne(x: real, t: real)
    ensures (x + 1.0) * t == t + x * t
  {
  }

  lemma {:induction false} MoreShares(n: nat, m: nat, target: real)
    ensures Share(n + m, target) == Share(n, target) + Share(m, target)
    decreases m
  {
    if m > 0 {
      MoreShares(n, m - 1, target);
      assert n + m - 1 == n + (m - 1);
    }
  }

  lemma {:induction false} ShareNotNegative(n: nat, target: real)
    requires target >= 0.0
    ensures Share(n, target) >= 0.0
  {
    if n > 0 { ShareNotNegative(n - 1, target); }
  }

  /** More targets than an accumulator holds. */
  function Enough(render: real, target: real): (n: nat)
    requires target > 0.0 && render >= 0.0
    ensures render < Share(n, target)
  {
    Above(render, target);
    ShareIsProduct((render / target).Floor + 1, target);
    (render / target).Floor + 1
  }

  lemma Above(render: real, target: real)
    requires target > 0.0 && render >= 0.0
    ensures (render / target).Floor >= 0
    ensures render < ((render / target).Floor + 1) as real * target
  {
    var q := render / target;
    var n := q.Floor + 1;
    assert q * target == render;
    assert q >= 0.0;
    assert (n as real - q) * target > 0.0;
  }

  /** What the flush leaves of the accumulator, and how often it takes the target out; bound only limits the loop. */
  function Flushed(render: real, target: real, bound: nat): Flush
    requires target > 0.0 && 0.0 <= render < Share(bound, target)
    decreases bound
  {
    if render < target then Flush(render, 0)
    else
      var f := Flushed(render - target, target, bound - 1);
      Flush(f.rest, f.times + 1)
  }

  function Seconded(p: Pace, d: real): Pace
  {
    var second := p.second + d;
    var q := p.(second := second, counted := p.counted + d);
    if second >= 1.0 then
      q.(second := second - second.Floor as real, seconds := p.seconds + 1,
          reported := p.reported + [p.frameRate], frameRate := 0)
    else q
  }

  function Rendered(p: Pace): Pace
  {
    p.(frameRate := (p.frameRate + 1) % COUNTER, renders := p.renders + 1)
  }

  function Paced(c: Config, p: Pace, d: real): Pace
    requires p.render + d >= 0.0
  {
    if Throttled(c) then
      var render := p.render + d;
      var q := p.(render := render, towardsRender := p.towardsRender + d);
      if render >= Target(c) then
        var f := Flushed(render, Target(c), Enough(render, Target(c)));
        Rendered(q).(render := f.rest, skipped := p.skipped + f.times - 1)
      else q
    else Rendered(p)
  }

  predicate InStep(p: Pace)
  {
    p.render >= 0.0
  }

  function Turn(c: Config, p: Pace, f: Frame): Pace
    requires InStep(p) && f.now >= p.tick
  {
    var d := Delta(c, p.tick, f.now);
    var q := Seconded(p.(tick := f.now), d);
    if f.active then Paced(c, q, d) else q
  }

  // ---------- What one turn keeps ----------

  /** The accumulator is split into whole targets and a rest; there is one of them when it held less than two. */
  predicate Splits(render: real, target: real, f: Flush)
  {
    && 0.0 <= f.rest < target
    && render == f.rest + Share(f.times, target)
    && (f.times >= 1 <==> render >= target)
    && (render < target + target ==> f.times <= 1)
  }

  lemma OneMore(render: real, target: real, f: Flush)
    requires target > 0.0 && render >= target && Splits(render - target, target, f)
    ensures Splits(render, target, Flush(f.rest, f.times + 1))
  {
  }

  lemma {:induction false} FlushedSplits(render: real, target: real, bound: nat)
    requires target > 0.0 && 0.0 <= render < Share(bound, target)
    ensures Splits(render, target, Flushed(render, target, bound))
    decreases bound
  {
    if render >= target {
      FlushedSplits(render - target, target, bound - 1);
      OneMore(render, target, Flushed(render - target, target, bound - 1));
    }
  }

  lemma {:induction false} SumMore(q: seq<nat>, n: nat)
    ensures Sum(q + [n]) == Sum(q) + n
  {
    if q == [] {
      assert q + [n] == [n];
    } else {
      assert (q + [n])[1..] == q[1..] + [n];
      SumMore(q[1..], n);
    }
  }

  /** The seconds fired are the whole seconds counted. */
  predicate SecondsRight(p: Pace)
  {
    0.0 <= p.second < 1.0 && p.counted == p.second + p.seconds as real
  }

  /** Every target's worth of time counted towards rendering was either rendered or skipped; what is left over is less
      than one target. Without a frame rate to hold to, nothing is accumulated. */
  predicate RendersRight(c: Config, p: Pace)
  {
    && 0.0 <= p.render < Target(c)
    && (Throttled(c) ==> p.towardsRender == p.render + Share(p.renders + p.skipped, Target(c)))
  }

  /** No render is missing from the rates reported, but for the 16 bits of the counter. */
  predicate RatesRight(p: Pace)
  {
    p.frameRate < 0x10000 && (Sum(p.reported) + p.frameRate) % 0x10000 == p.renders % 0x10000
  }

  predicate Right(c: Config, p: Pace)
  {
    SecondsRight(p) && RendersRight(c, p) && RatesRight(p)
  }

  lemma SecondedKeeps(c: Config, p: Pace, d: real)
    requires Right(c, p) && 0.0 <= d <= 1.0
    ensures Right(c, Seconded(p, d))
  {
    SumMore(p.reported, p.frameRate);
    assert (p.second + d).Floor == if p.second + d >= 1.0 then 1 else 0;
  }

  lemma RenderedKeepsRates(p: Pace)
    requires RatesRight(p)
    ensures RatesRight(Rendered(p))
  {
    var rates := Sum(p.reported) + p.frameRate;
    NextModulo(rates, p.renders);
    if p.frameRate + 1 == COUNTER { OnceRound(Sum(p.reported)); }
  }

  lemma NextModulo(a: nat, b: nat)
    requires a % COUNTER == b % COUNTER
    ensures (a + 1) % COUNTER == (b + 1) % COUNTER
  {
  }

  lemma OnceRound(a: nat)
    ensures (a + COUNTER) % COUNTER == a % COUNTER
  {
  }

  lemma PacedKeeps(c: Config, p: Pace, d: real)
    requires Right(c, p) && d >= 0.0
    ensures Right(c, Paced(c, p, d))
    ensures d <= Target(c) && p.skipped == 0 ==> Paced(c, p, d).skipped == 0
  {
    RenderedKeepsRates(p);
    if Throttled(c) {
      var t := Target(c);
      var f := Flushed(p.render + d, t, Enough(p.render + d, t));
      FlushedSplits(p.render + d, t, Enough(p.render + d, t));
      MoreShares(p.renders + p.skipped, f.times, t);
    }
  }

  lemma DeltaFits(c: Config, tick: real, now: real)
    requires now >= tick
    ensures 0.0 <= Delta(c, tick, now) <= 1.0
  {
  }

  lemma TurnKeeps(c: Config, p: Pace, f: Frame)
    requires Right(c, p) && f.now >= p.tick
    ensures Right(c, Turn(c, p, f))
    ensures Delta(c, p.tick, f.now) <= Target(c) && p.skipped == 0 ==> Turn(c, p, f).skipped == 0
  {
    var d := Delta(c, p.tick, f.now);
    var q := p.(tick := f.now);
    DeltaFits(c, p.tick, f.now);
    SecondedKeeps(c, q, d);
    if f.active { PacedKeeps(c, Seconded(q, d), d); }
  }

  // ---------- Whole runs ----------

  /** The clock does not go back. */
  predicate Steady(tick: real, frames: seq<Frame>)
    decreases |frames|
  {
    frames != [] ==> frames[0].now >= tick && Steady(frames[0].now, frames[1..])
  }

  /** Every frame takes at most the target. */
  predicate Prompt(c: Config, tick: real, frames: seq<Frame>)
    decreases |frames|
  {
    frames != [] ==> Delta(c, tick, frames[0].now) <= Target(c) && Prompt(c, frames[0].now, frames[1..])
  }

  function Run(c: Config, p: Pace, frames: seq<Frame>): Pace
    requires Right(c, p) && Steady(p.tick, frames)
    decreases |frames|
  {
    if frames == [] then p
    else
      TurnKeeps(c, p, frames[0]);
      Run(c, Turn(c, p, frames[0]), frames[1..])
  }

  lemma {:induction false} RunKeeps(c: Config, p: Pace, frames: seq<Frame>)
    requires Right(c, p) && Steady(p.tick, frames)
    ensures Right(c, Run(c, p, frames))
    ensures Prompt(c, p.tick, frames) && p.skipped == 0 ==> Run(c, p, frames).skipped == 0
    decreases |frames|
  {
    if frames != [] {
      TurnKeeps(c, p, frames[0]);
      RunKeeps(c, Turn(c, p, frames[0]), frames[1..]);
    }
  }

  // ---------- When nothing is skipped ----------

  /** The number of whole targets in a stretch of time. */
  function Whole(total: real, target: real): nat
    requires target > 0.0 && total >= 0.0
  {
    Flushed(total, target, Enough(total, target)).times
  }

  lemma {:induction false} ShareGrows(n: nat, m: nat, target: real)
    requires target >= 0.0 && n < m
    ensures Share(n, target) + target <= Share(m, target)
    decreases m
  {
    if n + 1 < m { ShareGrows(n, m - 1, target); }
  }

  lemma WholeIs(total: real, target: real, n: nat)
    requires target > 0.0 && total >= 0.0 && Share(n, target) <= total < Share(n, target) + target
    ensures Whole(total, target) == n
  {
    var m := Whole(total, target);
    FlushedSplits(total, target, Enough(total, target));
    if n < m {
      ShareGrows(n, m, target);
    } else if m < n {
      ShareGrows(m, n, target);
    }
  }

  /** Counting total towards rendering already, every active frame completes at most one more target. */
  predicate OneTargetPerFrame(c: Config, tick: real, total: real, frames: seq<Frame>)
    requires Steady(tick, frames) && total >= 0.0
    decreases |frames|
  {
    frames != [] ==>
      var d := Delta(c, tick, frames[0].now);
      var sum := if frames[0].active then total + d else total;
      Whole(sum, Target(c)) <= Whole(total, Target(c)) + 1 && OneTargetPerFrame(c, frames[0].now, sum, frames[1..])
  }

  lemma WholeOf(c: Config, p: Pace)
    requires Right(c, p) && Throttled(c)
    ensures p.towardsRender >= 0.0 && Whole(p.towardsRender, Target(c)) == p.renders + p.skipped
  {
    ShareNotNegative(p.renders + p.skipped, Target(c));
    WholeIs(p.towardsRender, Target(c), p.renders + p.skipped);
  }

  lemma TurnSkips(c: Config, p: Pace, f: Frame)
    requires Right(c, p) && Throttled(c) && f.now >= p.tick
    ensures
      var q, d := Turn(c, p, f), Delta(c, p.tick, f.now);
      && q.tick == f.now && q.towardsRender == (if f.active then p.towardsRender + d else p.towardsRender)
      && q.skipped >= p.skipped && p.towardsRender >= 0.0 && q.towardsRender >= 0.0
      && (q.skipped == p.skipped <==> Whole(q.towardsRender, Target(c)) <= Whole(p.towardsRender, Target(c)) + 1)
  {
    var d := Delta(c, p.tick, f.now);
    var q := Turn(c, p, f);
    TurnKeeps(c, p, f);
    WholeOf(c, p);
    WholeOf(c, q);
    if f.active && p.render + d >= Target(c) {
      FlushedSplits(p.render + d, Target(c), Enough(p.render + d, Target(c)));
    }
  }

  lemma {:induction false} RunSkips(c: Config, p: Pace, frames: seq<Frame>)
    requires Right(c, p) && Throttled(c) && Steady(p.tick, frames)
    ensures p.towardsRender >= 0.0 && Run(c, p, frames).skipped >= p.skipped
    ensures Run(c, p, frames).skipped == p.skipped <==> OneTargetPerFrame(c, p.tick, p.towardsRender, frames)
    decreases |frames|
  {
    WholeOf(c, p);
    if frames != [] {
      TurnKeeps(c, p, frames[0]);
      TurnSkips(c, p, frames[0]);
      RunSkips(c, Turn(c, p, frames[0]), frames[1..]);
    }
  }

  /** Over a whole run: one second event for every whole second counted; never more renders than targets' worth of
      time; and exactly as many as the time allows if and only if no active frame completed two targets at once, as no
      frame does that takes at most the target. */
  lemma PacingOfRun(c: Config, start: real, frames: seq<Frame>)
    requires Steady(start, frames)
    ensures Right(c, Started(c, start)) && Steady(start - Target(c), frames)
    ensures
      var p := Run(c, Started(c, start), frames);
      && p.seconds == p.counted.Floor
      && 0.0 <= p.render < Target(c)
      && (Throttled(c) ==> Share(p.renders, Target(c)) <= p.towardsRender)
      && (Throttled(c) && Prompt(c, start - Target(c), frames) ==>
            Share(p.renders, Target(c)) <= p.towardsRender < Share(p.renders + 1, Target(c)))
      && (Throttled(c) ==>
            (Share(p.renders, Target(c)) <= p.towardsRender < Share(p.renders + 1, Target(c))
             <==> OneTargetPerFrame(c, start - Target(c), 0.0, frames)))
  {
    var p := Started(c, start);
    RunKeeps(c, p, frames);
    var q := Run(c, p, frames);
    MoreShares(q.renders, q.skipped, Target(c));
    ShareNotNegative(q.skipped, Target(c));
    if q.skipped > 0 { ShareNotNegative(q.skipped - 1, Target(c)); }
    MoreShares(q.renders, 1, Target(c));
    if Throttled(c) { RunSkips(c, p, frames); }
    assert q.counted.Floor == q.seconds;
  }

  // ---------- The loop ----------

  class Engine {
    const config: Config
    var renderTarget: real
    var deltaTime: real
    var frameRate: nat

    // History.
    ghost var renders: nat
    ghost var reported: seq<nat>

    constructor (c: Config)
      ensures config == c && frameRate == 0 && renders == 0 && reported == []
    {
      config := c;
      renderTarget, deltaTime, frameRate := 0.0, 0.0, 0;
      renders, reported := 0, [];
    }

    /** What the engine has in common with a pace. */
    ghost predicate At(p: Pace)
      reads this
    {
      renderTarget == Target(config) && frameRate == p.frameRate && renders == p.renders && reported == p.reported
    }

    method RecalculateRenderTarget()
      modifies this`renderTarget
      ensures renderTarget == Target(config)
    {
      renderTarget := 1.0 / (if config.frameRateMax > 0 then config.frameRateMax as real else 60.0);
    }

    method Render()
      modifies this`frameRate, this`renders
      ensures frameRate == (old(frameRate) + 1) % COUNTER && renders == old(renders) + 1
    {
      renders := renders + 1;
      frameRate := (frameRate + 1) % COUNTER;
    }

    method Second()
      modifies this`frameRate, this`reported
      ensures frameRate == 0 && reported == old(reported) + [old(frameRate)]
    {
      reported := reported + [frameRate];
      frameRate := 0;
    }

    method CountSecond(second: real, ghost p: Pace) returns (rest: real)
      requires At(p) && second == p.second && 0.0 <= deltaTime && 0.0 <= second
      modifies this`frameRate, this`reported
      ensures At(Seconded(p, deltaTime)) && rest == Seconded(p, deltaTime).second
    {
      rest := second + deltaTime;
      if rest >= 1.0 {
        Second();
        rest := rest - rest.Floor as real;
      }
    }

    method PaceRender(render: real, ghost p: Pace) returns (rest: real)
      requires At(p) && render == p.render && 0.0 <= deltaTime && 0.0 <= render
      modifies this`frameRate, this`renders
      ensures At(Paced(config, p, deltaTime)) && rest == Paced(config, p, deltaTime).render
    {
      rest := render;
      if !config.vsync && config.frameRateMax > 0 {
        rest := rest + deltaTime;
        if rest >= renderTarget {
          Render();
          rest := FlushRender(rest);
        }
      } else {
        Render();
      }
    }

    method FlushRender(render: real) returns (rest: real)
      requires renderTarget > 0.0 && render >= renderTarget
      ensures rest == Flushed(render, renderTarget, Enough(render, renderTarget)).rest
    {
      ghost var bound := Enough(render, renderTarget);
      ghost var goal := Flushed(render, renderTarget, bound).rest;
      rest := render - renderTarget;
      bound := bound - 1;
      while rest >= renderTarget
        invariant 0.0 <= rest < Share(bound, renderTarget) && Flushed(rest, renderTarget, bound).rest == goal
        decreases bound
      {
        rest := rest - renderTarget;
        bound := bound - 1;
      }
    }

    /** The game loop, over the turns it takes before it is told to stop; start is the clock just before. */
    method Loop(start: real, frames: seq<Frame>)
      requires Steady(start, frames) && frameRate == 0 && renders == 0 && reported == []
      modifies this
      ensures Right(config, Started(config, start)) && Steady(start - Target(config), frames)
      ensures At(Run(config, Started(config, start), frames))
    {
      PacingOfRun(config, start, frames);
      var render, second := 0.0, 0.0;
      RecalculateRenderTarget();
      var tick := start - renderTarget;
      var todo := frames;
      ghost var p := Started(config, start);
      while todo != []
        invariant Right(config, p) && At(p) && tick == p.tick && render == p.render && second == p.second
        invariant Steady(tick, todo) && Run(config, p, todo) == Run(config, Started(config, start), frames)
        decreases |todo|
      {
        TurnKeeps(config, p, todo[0]);
        p, tick, render, second := TakeTurn(todo[0], tick, render, second, p);
        todo := todo[1..];
      }
    }

    method TakeTurn(f: Frame, tick: real, render: real, second: real, ghost p: Pace)
      returns (ghost q: Pace, tick': real, render': real, second': real)
      requires Right(config, p) && At(p) && tick == p.tick && render == p.render && second == p.second && f.now >= tick
      modifies this`deltaTime, this`frameRate, this`renders, this`reported
      ensures q == Turn(config, p, f)
      ensures At(q) && tick' == q.tick && render' == q.render && second' == q.second
    {
      deltaTime := f.now - tick;
      tick' := f.now;
      if deltaTime > LONG_WAIT {
        deltaTime := renderTarget;
      }
      DeltaFits(config, tick, f.now);
      q := p.(tick := f.now);
      second' := CountSecond(second, q);
      q := Seconded(q, deltaTime);
      render' := render;
      if f.active {
        render' := PaceRender(render, q);
        q := Paced(config, q, deltaTime);
      }
    }
  }
}
