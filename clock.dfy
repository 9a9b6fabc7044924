/** The frame clock: it turns wall-clock timestamps into game steps that never
    exceed MaxStep and accumulates them into the game time. */
module Clock {

  /** The largest game step, in seconds. */
  const MaxStep: real := 0.05

  /** The game step for a tick at wall time `now` after one at `last`, both in
      milliseconds as the browser clock gives them: the wall gap in seconds, capped
      at MaxStep. The step is negative when the wall clock went backwards. */
  function TickDelta(last: int, now: int): (d: real)
    ensures d <= MaxStep && d <= (now - last) as real / 1000.0
    ensures d == MaxStep || d == (now - last) as real / 1000.0
    ensures 0.0 <= d <==> last <= now
  {
    var wallDelta := (now - last) as real / 1000.0;
    if wallDelta < MaxStep then wallDelta else MaxStep
  }

  class Timer {
    var gameTime: real
    const maxStep: real := MaxStep
    var wallLastTimestamp: int

    constructor ()
      ensures gameTime == 0.0 && wallLastTimestamp == 0
    {
      gameTime := 0.0;
      wallLastTimestamp := 0;
    }

    /** Advances the clock to wall time `now` and returns the game step taken. */
    method Tick(now: int) returns (gameDelta: real)
      modifies this
      ensures gameDelta == TickDelta(old(wallLastTimestamp), now)
      ensures gameDelta <= maxStep
      ensures gameTime == old(gameTime) + gameDelta
      ensures wallLastTimestamp == now
    {
      var wallDelta := (now - wallLastTimestamp) as real / 1000.0;
      wallLastTimestamp := now;
      gameDelta := if wallDelta < maxStep then wallDelta else maxStep;
      gameTime := gameTime + gameDelta;
    }
  }

  /** The game time after ticking at each wall time of `nows` in turn, starting
      from game time `gameTime` and last wall time `last`. Each step is one call of
      Timer.Tick: its ensures add TickDelta(last, now) to the game time and make
      `now` the last wall time, exactly as one unfolding here does, so the lemmas
      below describe the timer over the engine's frames. */
  function GameTimeAfter(gameTime: real, last: int, nows: seq<int>): real
    decreases |nows|
  {
    if nows == [] then gameTime
    else GameTimeAfter(gameTime + TickDelta(last, nows[0]), nows[0], nows[1..])
  }

  /** The game steps of that run of ticks. */
  function Steps(last: int, nows: seq<int>): (ds: seq<real>)
    ensures |ds| == |nows|
    ensures forall k :: 0 <= k < |ds| ==> ds[k] <= MaxStep
    decreases |nows|
  {
    if nows == [] then [] else [TickDelta(last, nows[0])] + Steps(nows[0], nows[1..])
  }

  function Sum(ds: seq<real>): real
    decreases |ds|
  {
    if ds == [] then 0.0 else ds[0] + Sum(ds[1..])
  }

  /** Game time is the exact sum of the steps handed out, with no drift. */
  lemma {:induction false} GameTimeIsSumOfSteps(gameTime: real, last: int, nows: seq<int>)
    ensures GameTimeAfter(gameTime, last, nows) == gameTime + Sum(Steps(last, nows))
    decreases |nows|
  {
    if nows != [] {
      GameTimeIsSumOfSteps(gameTime + TickDelta(last, nows[0]), nows[0], nows[1..]);
    }
  }

  /** However long the wall gaps, n ticks advance game time by at most n * MaxStep. */
  lemma {:induction false} GameTimeBounded(gameTime: real, last: int, nows: seq<int>)
    ensures GameTimeAfter(gameTime, last, nows) <= gameTime + |nows| as real * MaxStep
    decreases |nows|
  {
    if nows != [] {
      GameTimeBounded(gameTime + TickDelta(last, nows[0]), nows[0], nows[1..]);
    }
  }

  /** While the wall clock does not go backwards, game time never decreases. */
  lemma {:induction false} GameTimeMonotone(gameTime: real, last: int, nows: seq<int>)
    requires nows != [] ==> last <= nows[0]
    requires forall k :: 0 < k < |nows| ==> nows[k - 1] <= nows[k]
    ensures gameTime <= GameTimeAfter(gameTime, last, nows)
    decreases |nows|
  {
    if nows != [] {
      var next := gameTime + TickDelta(last, nows[0]);
      if 1 < |nows| {
        assert nows[0] <= nows[1];
      }
      GameTimeMonotone(next, nows[0], nows[1..]);
    }
  }

  /** A wall clock set back by one second gives a step of -1 second: the step has
      no lower bound. */
  lemma BackwardsClockStep()
    ensures TickDelta(1000, 0) == -1.0
  {
  }

  /** The timer starts with a last wall time of 0, so the first tick after any
      realistic timestamp is capped at MaxStep. */
  lemma FirstTickCapped(now: int)
    requires 50 <= now
    ensures TickDelta(0, now) == MaxStep
  {
  }
}
