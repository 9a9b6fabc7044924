/** The spawn-interval policy: a new cat whenever no cat has been added yet or
    more than SpawnInterval game seconds have passed since the last one. */
module Spawning {
  import opened Entities

  /** Game seconds that must pass, strictly, between two cats. */
  const SpawnInterval: real := 2.0

  predicate SpawnDue(gameTime: real, lastCatAddedAt: Option<real>) {
    lastCatAddedAt.None? || gameTime - lastCatAddedAt.value > SpawnInterval
  }

  /** The game times at which cats are added over frames at game times `times`,
      starting from `lastCatAddedAt`. Each frame is one call of
      CatWrangler.Update, whose ensures add a cat and set `lastCatAddedAt` to the
      game time exactly when SpawnDue holds, as one unfolding here does; so the
      lemmas below describe the engine's frames. */
  function SpawnTimes(lastCatAddedAt: Option<real>, times: seq<real>): seq<real>
    decreases |times|
  {
    if times == [] then []
    else if SpawnDue(times[0], lastCatAddedAt) then [times[0]] + SpawnTimes(Some(times[0]), times[1..])
    else SpawnTimes(lastCatAddedAt, times[1..])
  }

  /** The time of the last cat added after those frames: one unfolding is the
      update of `lastCatAddedAt` that CatWrangler.Update's ensures state. */
  function LastSpawn(lastCatAddedAt: Option<real>, times: seq<real>): Option<real>
    decreases |times|
  {
    if times == [] then lastCatAddedAt
    else LastSpawn(if SpawnDue(times[0], lastCatAddedAt) then Some(times[0]) else lastCatAddedAt, times[1..])
  }

  /** Cats are added more than SpawnInterval apart, whatever the frame rate. */
  lemma {:induction false} SpawnsSpaced(lastCatAddedAt: Option<real>, times: seq<real>)
    ensures var s := SpawnTimes(lastCatAddedAt, times);
            (lastCatAddedAt.Some? && s != [] ==> s[0] - lastCatAddedAt.value > SpawnInterval) &&
            forall k :: 0 < k < |s| ==> s[k] - s[k - 1] > SpawnInterval
    decreases |times|
  {
    if times != [] {
      if SpawnDue(times[0], lastCatAddedAt) {
        SpawnsSpaced(Some(times[0]), times[1..]);
        var rest := SpawnTimes(Some(times[0]), times[1..]);
        var s := [times[0]] + rest;
        forall k | 0 < k < |s|
          ensures s[k] - s[k - 1] > SpawnInterval
        {
          if k > 1 {
            assert s[k] == rest[k - 1] && s[k - 1] == rest[k - 2];
          }
        }
      } else {
        SpawnsSpaced(lastCatAddedAt, times[1..]);
      }
    }
  }

  /** No frame passes with the newest cat more than SpawnInterval old: after any
      nonempty run of frames a cat has been added, at most SpawnInterval before
      the last frame. */
  lemma {:induction false} NewestCatRecent(lastCatAddedAt: Option<real>, times: seq<real>)
    requires times != []
    ensures LastSpawn(lastCatAddedAt, times).Some?
    ensures times[|times| - 1] - LastSpawn(lastCatAddedAt, times).value <= SpawnInterval
    decreases |times|
  {
    var next := if SpawnDue(times[0], lastCatAddedAt) then Some(times[0]) else lastCatAddedAt;
    if |times| > 1 {
      NewestCatRecent(next, times[1..]);
      assert times[1..][|times[1..]| - 1] == times[|times| - 1];
    }
  }

  /** The last spawn recorded is the last of the spawn times. */
  lemma {:induction false} LastSpawnIsLastTime(lastCatAddedAt: Option<real>, times: seq<real>)
    ensures var s := SpawnTimes(lastCatAddedAt, times);
            LastSpawn(lastCatAddedAt, times) == if s == [] then lastCatAddedAt else Some(s[|s| - 1])
    decreases |times|
  {
    if times != [] {
      var next := if SpawnDue(times[0], lastCatAddedAt) then Some(times[0]) else lastCatAddedAt;
      LastSpawnIsLastTime(next, times[1..]);
    }
  }
}
