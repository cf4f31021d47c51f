// The game loop against the clock: what its accumulators count, and the seconds and renders that come of it.
module PacingClock {
  import opened FramePacing
  import opened Sequences

  /** The target is the inverse of the frame rate asked for, or of 60 when none is. */
  lemma TargetIsInverse(c: Config)
    ensures Target(c) * (if c.frameRateMax > 0 then c.frameRateMax as real else 60.0) == 1.0
  {
    var rate := if c.frameRateMax > 0 then c.frameRateMax as real else 60.0;
    Quotient(rate);
  }

  lemma Quotient(rate: real)
    requires rate >= 1.0
    ensures 1.0 / rate * rate == 1.0
  {
  }

  // ---------- The clock ----------

  /** The last reading of the clock. */
  function Last(tick: real, frames: seq<Frame>): real
  {
    if frames == [] then tick else frames[|frames| - 1].now
  }

  /** No frame comes later than an eighth of a second after the one before it. */
  predicate NoLongWait(tick: real, frames: seq<Frame>)
    decreases |frames|
  {
    frames != [] ==> frames[0].now - tick <= 0.125 && NoLongWait(frames[0].now, frames[1..])
  }

  /** How much longer than one target the waits of more than an eighth of a second were: time that is not counted. */
  function Lost(target: real, tick: real, frames: seq<Frame>): real
    decreases |frames|
  {
    if frames == [] then 0.0
    else
      var wait := frames[0].now - tick;
      (if wait > 0.125 then wait - target else 0.0) + Lost(target, frames[0].now, frames[1..])
  }

  /** The time between each active frame and the reading before it, a wait of more than an eighth of a second standing
      for one target. */
  function ActiveTime(target: real, tick: real, frames: seq<Frame>): real
    decreases |frames|
  {
    if frames == [] then 0.0
    else
      var wait := frames[0].now - tick;
      (if !frames[0].active then 0.0 else if wait > 0.125 then target else wait)
      + ActiveTime(target, frames[0].now, frames[1..])
  }

  function ActiveFrames(frames: seq<Frame>): nat
  {
    if frames == [] then 0 else (if frames[0].active then 1 else 0) + ActiveFrames(frames[1..])
  }

  lemma {:induction false} NothingLost(target: real, tick: real, frames: seq<Frame>)
    requires NoLongWait(tick, frames)
    ensures Lost(target, tick, frames) == 0.0
    decreases |frames|
  {
    if frames != [] { NothingLost(target, frames[0].now, frames[1..]); }
  }

  lemma {:induction false} AllActive(target: real, tick: real, frames: seq<Frame>)
    requires ActiveFrames(frames) == |frames|
    ensures ActiveTime(target, tick, frames) == Last(tick, frames) - tick - Lost(target, tick, frames)
    decreases |frames|
  {
    if frames != [] {
      FewActive(frames[1..]);
      AllActive(target, frames[0].now, frames[1..]);
    }
  }

  lemma {:induction false} FewActive(frames: seq<Frame>)
    ensures ActiveFrames(frames) <= |frames|
  {
    if frames != [] { FewActive(frames[1..]); }
  }

  // ---------- What a run counts ----------

  lemma TurnCounts(c: Config, p: Pace, f: Frame)
    requires Right(c, p) && f.now >= p.tick
    ensures
      var q, wait := Turn(c, p, f), f.now - p.tick;
      var d := if wait > 0.125 then Target(c) else wait;
      && q.tick == f.now && q.counted == p.counted + d
      && (!c.vsync && c.frameRateMax > 0 ==> q.towardsRender == p.towardsRender + if f.active then d else 0.0)
      && (c.vsync || c.frameRateMax == 0 ==> q.renders == p.renders + if f.active then 1 else 0)
  {
  }

  /** Over any run the time counted is the advance of the clock, but that a wait of more than an eighth of a second
      counts as one target; towards rendering the same is counted of the active frames. Without a frame rate to hold
      to, or when the display waits for its own refresh, every active frame is rendered. */
  lemma {:induction false} RunCounts(c: Config, p: Pace, frames: seq<Frame>)
    requires Right(c, p) && Steady(p.tick, frames)
    ensures
      var q, t := Run(c, p, frames), Target(c);
      && q.tick == Last(p.tick, frames)
      && q.counted == p.counted + (Last(p.tick, frames) - p.tick) - Lost(t, p.tick, frames)
      && (!c.vsync && c.frameRateMax > 0 ==> q.towardsRender == p.towardsRender + ActiveTime(t, p.tick, frames))
      && (c.vsync || c.frameRateMax == 0 ==> q.renders == p.renders + ActiveFrames(frames))
    decreases |frames|
  {
    if frames != [] {
      TurnKeeps(c, p, frames[0]);
      TurnCounts(c, p, frames[0]);
      RunCounts(c, Turn(c, p, frames[0]), frames[1..]);
    }
  }

  /** From the start of the loop on: one second event for every whole second between the clock's reading at the start,
      less one target, and its last reading, as far as no wait was longer than an eighth of a second; of a longer wait
      all but one target is lost. */
  lemma SecondsByClock(c: Config, start: real, frames: seq<Frame>)
    requires Steady(start, frames)
    ensures Right(c, Started(c, start)) && Steady(start - Target(c), frames)
    ensures
      var p, t := Run(c, Started(c, start), frames), Target(c);
      var passed := Last(start - t, frames) - (start - t);
      && p.seconds == (passed - Lost(t, start - t, frames)).Floor
      && (NoLongWait(start - t, frames) ==> p.counted == passed && p.seconds == passed.Floor)
  {
    PacingOfRun(c, start, frames);
    RunCounts(c, Started(c, start), frames);
    if NoLongWait(start - Target(c), frames) { NothingLost(Target(c), start - Target(c), frames); }
  }

  /** With a frame rate to hold to, the renders are the whole targets in the time of the active frames exactly when no
      active frame completes two targets at once. */
  lemma RendersByClock(c: Config, start: real, frames: seq<Frame>)
    requires Steady(start, frames) && !c.vsync && c.frameRateMax > 0
    ensures Right(c, Started(c, start)) && Steady(start - Target(c), frames)
    ensures
      var t, n := Target(c), Run(c, Started(c, start), frames).renders;
      Share(n, t) <= ActiveTime(t, start - t, frames) < Share(n + 1, t)
      <==> OneTargetPerFrame(c, start - t, 0.0, frames)
  {
    PacingOfRun(c, start, frames);
    RunCounts(c, Started(c, start), frames);
  }

  /** With all frames active and no long wait that is the time passed. */
  lemma ActiveIsPassed(c: Config, start: real, frames: seq<Frame>)
    requires ActiveFrames(frames) == |frames| && NoLongWait(start - Target(c), frames)
    ensures
      var t := Target(c);
      ActiveTime(t, start - t, frames) == Last(start - t, frames) - (start - t)
  {
    AllActive(Target(c), start - Target(c), frames);
    NothingLost(Target(c), start - Target(c), frames);
  }
}
