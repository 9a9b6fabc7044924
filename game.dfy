/** The Cat Wrangler engine: the entity registry, the frame clock, the score and
    the spawn policy, driven one frame at a time by Loop. */
module Game {
  import opened Entities
  import opened Clock
  import opened Scoring
  import opened Registry
  import opened Collision
  import opened Spawning

  class CatWrangler {
    /** The registry, in insertion order. */
    var entities: seq<Entity>
    /** The one-shot click latch; cleared at the end of every frame. */
    var click: Option<Point>
    /** The game step of the current frame. */
    var clockTick: real
    /** Game time at which the last cat was added; none before the first. */
    var lastCatAddedAt: Option<real>
    const timer: Timer
    const score: Score
    const surfaceWidth: real
    const surfaceHeight: real
    const halfSurfaceWidth: real
    const halfSurfaceHeight: real
    const sprites: Sprites

    /** After start: the background, the pen and the cowboy hold the first three
        entries; the pen never changes and none of the three is ever flagged. */
    ghost predicate Valid()
      reads this
    {
      |entities| >= 3 &&
      entities[0] == NewBackground() &&
      entities[1] == NewPen(sprites.penWidth) &&
      entities[2].kind == Cowboy && !entities[2].removeFromWorld && !entities[2].collides &&
      entities[2].radius == Some(sprites.cowboyHeight / 2.0)
    }

    /** The engine as constructed and then bound to a canvas of the given size;
        `sprites` are the sizes of the loaded images. */
    constructor (width: real, height: real, sprites: Sprites)
      ensures entities == [] && click == None && lastCatAddedAt == None
      ensures surfaceWidth == width && surfaceHeight == height
      ensures halfSurfaceWidth == width / 2.0 && halfSurfaceHeight == height / 2.0
      ensures this.sprites == sprites
      ensures fresh(timer) && fresh(score)
      ensures timer.gameTime == 0.0 && timer.wallLastTimestamp == 0
      ensures score.kills == 0 && score.saves == 0
    {
      entities := [];
      click := None;
      clockTick := 0.0;
      lastCatAddedAt := None;
      timer := new Timer();
      score := new Score();
      surfaceWidth := width;
      surfaceHeight := height;
      halfSurfaceWidth := width / 2.0;
      halfSurfaceHeight := height / 2.0;
      this.sprites := sprites;
    }

    /** Registers the reference entities in their fixed order. */
    method Start()
      requires entities == []
      modifies this`entities
      ensures entities == [NewBackground(), NewPen(sprites.penWidth),
                           NewCowboy(halfSurfaceWidth, halfSurfaceHeight, sprites.cowboyHeight)]
      ensures Valid()
    {
      AddEntity(NewBackground());
      AddEntity(NewPen(sprites.penWidth));
      AddEntity(NewCowboy(halfSurfaceWidth, halfSurfaceHeight, sprites.cowboyHeight));
    }

    method AddEntity(e: Entity)
      modifies this`entities
      ensures entities == old(entities) + [e]
    {
      entities := entities + [e];
    }

    /** The engine's update: every entity present at the start and not flagged
        runs its update, then the flagged ones are spliced out from the back. */
    method EngineUpdate(motion: nat -> Vec)
      modifies this`entities
      ensures entities == Survivors(Moved(old(entities), motion))
      ensures old(Valid()) ==> Valid()
    {
      ghost var before := entities;
      ghost var target := Moved(before, motion);
      var entitiesCount := |entities|;
      var i := 0;
      while i < entitiesCount
        invariant 0 <= i <= entitiesCount == |entities| == |target|
        invariant forall k :: 0 <= k < i ==> entities[k] == target[k]
        invariant forall k :: i <= k < entitiesCount ==> entities[k] == before[k]
      {
        MovedAt(before, motion, i);
        var entity := entities[i];
        if !entity.removeFromWorld {
          entities := entities[i := Stepped(entity, motion(i))];
        }
        i := i + 1;
      }
      ghost var moved := entities;
      assert moved == target;
      var n := |entities|;
      while n > 0
        invariant 0 <= n <= |moved|
        invariant entities == moved[..n] + Survivors(moved[n..])
      {
        CompactStep(moved, n);
        if entities[n - 1].removeFromWorld {
          entities := entities[..n - 1] + entities[n..];
        }
        n := n - 1;
      }
      assert moved[..0] == [] && moved[0..] == moved;
      if |before| >= 3 && !before[0].removeFromWorld && !before[1].removeFromWorld && !before[2].removeFromWorld {
        CompactionKeepsFront(moved);
      }
    }

    /** The collision pass: from index 3 up to the registry's current length,
        so that Bloods appended on the way are scanned too. */
    method DoCollision()
      requires Valid()
      modifies this`entities, score
      ensures Valid()
      ensures var out := CollisionPass(old(entities), surfaceWidth, surfaceHeight, sprites.bloodWidth);
              entities == out.entities &&
              score.kills == old(score.kills) + out.kills &&
              score.saves == old(score.saves) + out.saves
    {
      ghost var es := entities;
      ghost var sc := SceneOf(es, surfaceWidth, surfaceHeight, sprites.bloodWidth);
      ghost var refs := es[..3];
      ghost var scanned := es[3..];
      ghost var q := Queue(scanned, sc);
      ghost var kills0, saves0 := score.kills, score.saves;
      PartialStart(refs, scanned, sc);
      assert es == refs + scanned;
      var i := 3;
      ghost var j: nat := 0;
      while i < |entities|
        invariant Valid()
        invariant i == 3 + j && j <= |q|
        invariant j <= |scanned| + |Bloods(q[..j], sc)|
        invariant entities == Partial(refs, scanned, sc, j)
        invariant score.kills == kills0 + |Bloods(q[..j], sc)|
        invariant score.saves == saves0 + SavedCount(q[..j], sc)
        decreases |q| - j
      {
        ghost var cur := entities;
        LoopStep(refs, scanned, sc, j);
        assert cur[1] == refs[1] && cur[2] == refs[2];
        assert SceneOf(cur, surfaceWidth, surfaceHeight, sprites.bloodWidth) == sc;
        CollideAt(i);
        i, j := i + 1, j + 1;
      }
      PartialEnd(refs, scanned, sc, j);
    }

    /** One iteration of the collision loop, at index i: the cowboy test, the pen
        test, then the bound clamp, all on the entity as it was when the iteration
        began. */
    method CollideAt(i: nat)
      requires Valid() && 3 <= i < |entities|
      modifies this`entities, score
      ensures Valid()
      ensures var sc := SceneOf(old(entities), surfaceWidth, surfaceHeight, sprites.bloodWidth);
              var e := old(entities)[i];
              entities == old(entities)[i := Resolve(e, sc)] + SpawnedBy(e, sc) &&
              score.kills == old(score.kills) + |SpawnedBy(e, sc)| &&
              score.saves == old(score.saves) + (if Saved(e, sc) then 1 else 0)
    {
      ghost var p := entities;
      ghost var e := entities[i];
      ghost var sc := SceneOf(p, surfaceWidth, surfaceHeight, sprites.bloodWidth);
      CatchAt(i);
      SaveAt(i);
      ClampAt(i);
      assert entities == (p[i := e.(removeFromWorld := e.removeFromWorld || Caught(e, sc))] + SpawnedBy(e, sc))
                           [i := Resolve(e, sc)];
    }

    /** The cowboy test: an entity that can collide and is within reach of the
        cowboy is flagged, a Blood is appended at its position and a kill counted. */
    method CatchAt(i: nat)
      requires Valid() && 3 <= i < |entities|
      modifies this`entities, score
      ensures Valid() && entities[..3] == old(entities)[..3]
      ensures var sc := SceneOf(old(entities), surfaceWidth, surfaceHeight, sprites.bloodWidth);
              var e := old(entities)[i];
              entities == old(entities)[i := e.(removeFromWorld := e.removeFromWorld || Caught(e, sc))] + SpawnedBy(e, sc) &&
              score.kills == old(score.kills) + |SpawnedBy(e, sc)| &&
              score.saves == old(score.saves)
    {
      var entity := entities[i];
      if entity.collides && Overlaps(entity, entities[2]) {
        entities := entities[i := entity.(removeFromWorld := true)];
        AddEntity(NewBlood(entity.x, entity.y, sprites.bloodWidth));
        score.kills := score.kills + 1;
      }
    }

    /** The pen test: an entity within reach of the pen, whether it can collide or
        not, is flagged and a save counted. */
    method SaveAt(i: nat)
      requires Valid() && 3 <= i < |entities|
      modifies this`entities, score
      ensures Valid() && entities[..3] == old(entities)[..3]
      ensures var e := old(entities)[i];
              entities == old(entities)[i := e.(removeFromWorld := e.removeFromWorld || Overlaps(e, old(entities)[1]))] &&
              score.kills == old(score.kills) &&
              score.saves == old(score.saves) + (if Overlaps(e, old(entities)[1]) then 1 else 0)
    {
      var entity := entities[i];
      if Overlaps(entity, entities[1]) {
        entities := entities[i := entity.(removeFromWorld := true)];
        score.saves := score.saves + 1;
      }
    }

    /** The bound clamp: a coordinate past the far edge is set one unit inside it,
        a negative one to 1. */
    method ClampAt(i: nat)
      requires Valid() && 3 <= i < |entities|
      modifies this`entities
      ensures Valid() && entities[..3] == old(entities)[..3]
      ensures var e := old(entities)[i];
              entities == old(entities)[i := e.(x := Clamp(e.x, surfaceWidth), y := Clamp(e.y, surfaceHeight))]
    {
      var entity := entities[i];
      if entity.x > surfaceWidth {
        entities := entities[i := entities[i].(x := surfaceWidth - 1.0)];
      } else if entity.x < 0.0 {
        entities := entities[i := entities[i].(x := 1.0)];
      }
      if entity.y > surfaceHeight {
        entities := entities[i := entities[i].(y := surfaceHeight - 1.0)];
      } else if entity.y < 0.0 {
        entities := entities[i := entities[i].(y := 1.0)];
      }
    }

    /** The spawn policy, then the engine's update: a cat is added at a random
        spot when no cat was added yet or more than SpawnInterval game seconds
        have passed since the last one. `rx` and `ry` are the two random draws. */
    method Update(rx: real, ry: real, motion: nat -> Vec)
      requires 0.0 <= rx < 1.0 && 0.0 <= ry < 1.0
      modifies this`entities, this`lastCatAddedAt
      ensures var due := SpawnDue(timer.gameTime, old(lastCatAddedAt));
              var grown := if due then old(entities) + [NewCat(rx * surfaceWidth, ry * surfaceHeight, sprites.catHeight)]
                           else old(entities);
              entities == Survivors(Moved(grown, motion)) &&
              lastCatAddedAt == (if due then Some(timer.gameTime) else old(lastCatAddedAt))
      ensures old(Valid()) ==> Valid()
    {
      if lastCatAddedAt.None? || timer.gameTime - lastCatAddedAt.value > SpawnInterval {
        AddEntity(NewCat(rx * surfaceWidth, ry * surfaceHeight, sprites.catHeight));
        lastCatAddedAt := Some(timer.gameTime);
      }
      EngineUpdate(motion);
    }

    /** One frame: tick the clock, spawn and update (compacting the entities
        flagged in the previous frame), resolve collisions, draw, clear the click.
        Entities flagged by this frame's collisions stay in the registry until
        the next frame's compaction. */
    method Loop(now: int, rx: real, ry: real, motion: nat -> Vec)
      requires Valid()
      requires 0.0 <= rx < 1.0 && 0.0 <= ry < 1.0
      modifies this, timer, score
      ensures Valid()
      ensures clockTick == TickDelta(old(timer.wallLastTimestamp), now)
      ensures timer.gameTime == old(timer.gameTime) + clockTick
      ensures timer.wallLastTimestamp == now
      ensures var due := SpawnDue(timer.gameTime, old(lastCatAddedAt));
              var grown := if due then old(entities) + [NewCat(rx * surfaceWidth, ry * surfaceHeight, sprites.catHeight)]
                           else old(entities);
              3 <= |Survivors(Moved(grown, motion))| &&
              var out := CollisionPass(Survivors(Moved(grown, motion)), surfaceWidth, surfaceHeight, sprites.bloodWidth);
              lastCatAddedAt == (if due then Some(timer.gameTime) else old(lastCatAddedAt)) &&
              entities == out.entities &&
              score.kills == old(score.kills) + out.kills &&
              score.saves == old(score.saves) + out.saves &&
              score.GetScore() == old(score.GetScore()) + out.saves - out.kills
      ensures old(score.kills) <= score.kills && old(score.saves) <= score.saves
      ensures click == None
    {
      clockTick := timer.Tick(now);
      Update(rx, ry, motion);
      DoCollision();
      click := None;
    }
  }
}
