# Cat Wrangler engine model

A Dafny model of the per-frame bookkeeping of Cat Wrangler, a small browser game
in which a cowboy chases cats around a canvas. Cats that reach the pen are saved;
cats the cowboy touches are killed and leave a Blood stain behind. The model
covers:

- the frame clock (`Timer.tick`): a wall-clock timestamp becomes a game step
  capped at `maxStep` = 0.05 s, which is added to the game time;
- the score (`Score`): the `kills` and `saves` counters and the net score
  `saves - kills`;
- the entity registry of `GameEngine`:
  - `addEntity` appends an entity;
  - `update` runs the update of every entity not flagged with `removeFromWorld`,
    then splices the flagged ones out in a reverse-index loop;
- the collision pass (`GameEngine.collision`), which scans every entry from index
  3 upwards:
  - the cowboy test (flag, append a Blood, count a kill);
  - the pen test (flag, count a save);
  - the playfield clamp;
  - its loop bound is the registry's current length, so Bloods appended during
    the pass are scanned by the same pass;
- `CatWrangler.start`, which registers the background, the pen and the cowboy
  at indices 0, 1 and 2;
- `CatWrangler.update`, which adds a cat when none has been added yet or more
  than 2 game seconds have passed since the last one;
- `GameEngine.loop`: tick, spawn and update, collide, clear the click.

Layout:

| file | module | content |
|---|---|---|
| entities.dfy | `Entities` | entity records, the proximity test, the clamp |
| clock.dfy | `Clock` | class `Timer` and the game time over many ticks |
| score.dfy | `Scoring` | class `Score` |
| registry.dfy | `Registry` | the update pass (`Moved`) and compaction (`Survivors`) |
| collision.dfy | `Collision` | the collision pass as a function (`CollisionPass`), with the lemmas that drive the loop proof |
| spawning.dfy | `Spawning` | the spawn-interval policy over many frames |
| game.dfy | `Game` | class `CatWrangler`, with the engine's methods and their loops |

In the game, entities are JavaScript objects kept in `entities`. `this.pen` and
`this.cowboy` are further references to two of them. Here each entity is a
datatype value in `entities: seq<Entity>`. The class invariant
`CatWrangler.Valid()` records what the aliasing guarantees in the game:
- entry 1 is the pen and entry 2 is the cowboy;
- neither of them, nor the background at entry 0, is ever flagged.

The collision loop is proved against `Collision.CollisionPass`:
- the reference entries stay as they are;
- every original entry after them, and every Blood the pass spawns, is resolved
  with `Resolve`;
- the number of kills is the number of Bloods;
- the number of saves is the number of entries that reach the pen.

The loop invariant is `Collision.Partial`: the registry after `j` queue entries
have been scanned.

Two consequences of the clock code that the model states:
- `tick` takes `Math.min(wallDelta, maxStep)` with no lower bound (game.js:62-65),
  so a wall clock that goes backwards gives a negative step. `Clock.TickDelta`
  is nonnegative exactly when the timestamps do not decrease, and
  `Clock.BackwardsClockStep` exhibits a step of -1 second.
- `wallLastTimestamp` starts at 0 (game.js:57), so the first tick of a real
  session measures the gap since the epoch and is capped at `maxStep`
  (`Clock.FirstTickCapped`).

## Model

| member | source | states |
|---|---|---|
| Clock.TickDelta | game.js:60-68 | The step is at most `maxStep` and at most the wall gap in seconds, and equals one of the two, i.e. their minimum. It is nonnegative exactly when the wall clock did not go backwards. |
| Clock.Timer.constructor | game.js:54-58 | A new timer has game time 0 and last wall time 0. |
| Clock.Timer.Tick | game.js:60-68 | The returned step is `TickDelta(old last, now)` and never exceeds `maxStep`. Game time grows by exactly that step, and the last wall time becomes `now`. |
| Clock.Steps | game.js:62-66 | Every step of a run of ticks is at most `MaxStep`. |
| Clock.GameTimeIsSumOfSteps | game.js:60-68 | After any run of ticks, game time is the starting game time plus the sum of the steps returned. |
| Clock.GameTimeBounded | game.js:65-66 | n ticks advance game time by at most n * `MaxStep`, however long the wall gaps. |
| Clock.GameTimeMonotone | game.js:62-66 | While the timestamps do not decrease, game time never decreases. |
| Clock.FirstTickCapped | game.js:57 | With the initial last wall time of 0, the first tick at any timestamp of 50 ms or later is exactly `MaxStep`. |
| Clock.BackwardsClockStep | game.js:62-65 | A tick one second before the last one returns a step of -1 second, since `Math.min` gives the step no lower bound. |
| Scoring.Score.constructor | game.js:70-73 | Both counters start at 0. |
| Entities.OverlapsIsDistanceTest | game.js:13-15 | The squared-distance test `Overlaps` holds exactly when both radii exist and the Euclidean distance is below their sum, as in `distance(...) < a.radius + b.radius` at lines 167 and 174. |
| Entities.SquaresCompare | game.js:13-15 | For a nonnegative distance, comparing squares is the same as comparing the numbers, which is why the square root can be dropped. |
| Entities.Clamp | game.js:178-187 | A coordinate is left unchanged exactly when it lies in [0, limit]. On a playfield at least one unit wide, the clamped value always lies in [0, limit]. |
| Entities.ClampIdempotent | game.js:178-187 | On a playfield at least one unit wide, clamping a clamped coordinate changes nothing, so a second pass over unchanged positions is a no-op. |
| Registry.Stepped | game.js:207-208 | An entity's update never changes its kind, radius, `collides` or removal flag. Background, pen and blood keep the base update, which does nothing. |
| Registry.Moved | game.js:149-155 | The update pass keeps the length. Flagged entries are untouched. Every entry keeps its kind, flag, radius and `collides`. Only cats and the cowboy move. |
| Registry.SurvivorsMembership | game.js:156-160 | After compaction, an entity is present exactly when it was present and not flagged. No flagged entity remains, and every unflagged one is kept. |
| Registry.SurvivorAt | game.js:156-160 | An unflagged entry at index i lands at the index given by the number of unflagged entries before it. |
| Registry.SurvivorsKeepOrder | game.js:156-160 | Of two unflagged entries, the earlier one lands strictly before the later one: survivors keep their relative order. |
| Registry.SurvivorsAppend | game.js:156-160 | Compacting a concatenation is concatenating the compactions. |
| Registry.SurvivorsKeepUnflaggedPrefix | game.js:156-160 | A prefix with no flagged entry is kept as it is. |
| Registry.CompactionKeepsFront | game.js:156-160 | When none of the first three entries is flagged, they stay at indices 0-2 after compaction. |
| Registry.CompactStep | game.js:156-159 | One step of the reverse splice: with the tail from n already compacted, splicing out entry n - 1 if it is flagged compacts the tail from n - 1. |
| Registry.CompactionExample | game.js:156-160 | [A, B, C, D] with B and D flagged compacts to [A, C]. |
| Collision.BloodsAppend | game.js:167-170 | The Bloods spawned while scanning a concatenation are those of each part, in order. |
| Collision.SavedCountAppend | game.js:174-176 | The saves counted while scanning a concatenation are the sum of those of each part. |
| Collision.BloodsInert | game.js:266-272 | Every Blood a pass appends is an unflagged Blood that cannot collide. |
| Collision.NothingCaught | game.js:167 | Entries that cannot collide spawn no Blood. |
| Collision.BloodsSpawnNothing | game.js:164-170 | Scanning the Bloods spawns nothing more, so the pass ends although its bound grows while it runs. |
| Collision.BloodsMarkCatches | game.js:167-170 | Exactly one Blood per catch: the number of Bloods equals the number of caught entries, every caught entry leaves a Blood at its own (x, y), and every Blood lies where some caught entry was. |
| Collision.SpawnedSoFar | game.js:164-170 | While the pass runs, the Bloods spawned so far are a prefix of all it spawns. Once the original entries are behind it, all of them have been spawned. |
| Collision.ScanOneMore | game.js:167-177 | Scanning one more entry adds its Blood, if any, and its save, if any. |
| Collision.NextBloodInQueue | game.js:169 | The Blood spawned by the j-th scanned entry lands exactly after the Bloods spawned before it, so it is itself reached by the scan later. |
| Collision.PartialStep | game.js:165-187 | One iteration: the entry at index 3 + j is the j-th queue entry. Resolving it in place and appending its Blood gives the registry after j + 1 entries. |
| Collision.LoopStep | game.js:164-188 | One iteration as the loop needs it: the registry, the kills and the saves after j + 1 entries. |
| Collision.PartialEnd | game.js:164 | When the loop condition fails, the whole queue has been scanned, and the registry, kills and saves are those of `CollisionPass`. |
| Collision.PassKeepsEntries | game.js:164-189 | The pass never changes indices 0-2 and removes nothing; each entry keeps its kind, and it appends exactly one entry per kill, every one of them a Blood. |
| Collision.ScannedOutcome | game.js:165-187 | For each original entry from index 3 on, both tests use its position at the start of the iteration and are independent. It is flagged exactly when it was already flagged, or it can collide and is within reach of the cowboy, or it is within reach of the pen (whether or not it can collide). It is clamped in x and y even when flagged. |
| Collision.SpawnedBloodsScanned | game.js:164-187 | The Bloods appended during a pass are scanned by the same pass: each is resolved (clamped, and flagged at the pen), and those at the pen add to the saves. |
| Collision.CaughtAtThePen | game.js:167-177 | A cat caught right at the pen is flagged, counts one kill and one save, and its Blood at the same spot is flagged and saved too: one kill and two saves in one pass. |
| Spawning.SpawnsSpaced | game.js:356-358 | Over any run of frames, cats are added strictly more than 2 game seconds apart, including from the last cat before the run. |
| Spawning.NewestCatRecent | game.js:356-358 | After any nonempty run of frames a cat has been added, and the newest one is at most 2 game seconds older than the last frame. |
| Spawning.LastSpawnIsLastTime | game.js:358 | `lastCatAddedAt` after a run of frames is the time of the last cat added during the run, or the earlier value if none was. |
| Game.CatWrangler.constructor | game.js:79-100 | A new engine bound to a canvas has an empty registry, no click, no cat added, fresh timer and score at zero, and the canvas size and its halves. |
| Game.CatWrangler.Start | game.js:345-353 | The registry becomes [background, pen, cowboy] in that order, which establishes `Valid()`. |
| Game.CatWrangler.AddEntity | game.js:130-132 | The entity is appended and every earlier entry is unchanged. |
| Game.CatWrangler.EngineUpdate | game.js:148-161 | The registry becomes `Survivors(Moved(old registry, motion))`: only entries present at the start and not flagged run their update, and every flagged entry is spliced out with the survivors kept in order. The pen, cowboy and background stay at indices 0-2. |
| Game.CatWrangler.DoCollision | game.js:163-189 | The registry becomes `CollisionPass(old registry).entities`, and kills and saves grow by the pass's kills and saves. |
| Game.CatWrangler.CollideAt | game.js:165-187 | One iteration at index i: the entry becomes `Resolve(entry)`, its Blood, if caught, is appended, a kill is counted per catch and a save per pen contact. |
| Game.CatWrangler.CatchAt | game.js:166-172 | The cowboy test: an entry that can collide and is within reach of the cowboy is flagged, one Blood is appended at its (x, y) and kills rise by 1. Otherwise nothing changes. |
| Game.CatWrangler.SaveAt | game.js:173-177 | The pen test, without looking at `collides`: an entry within reach of the pen is flagged and saves rise by 1. Otherwise nothing changes. |
| Game.CatWrangler.ClampAt | game.js:178-187 | The clamp: x beyond the width becomes width - 1, negative x becomes 1, and the same for y against the height. Nothing else changes. |
| Game.CatWrangler.Update | game.js:355-362 | A cat at (rx * width, ry * height) is appended exactly when `lastCatAddedAt` is unset or game time exceeds it by strictly more than 2, and then `lastCatAddedAt` becomes the game time. Otherwise neither is touched. The engine update follows. |
| Game.CatWrangler.Loop | game.js:192-198 | One frame in order: tick, spawn and update (compacting what the previous frame flagged), collide, clear the click. Entries flagged by this frame's collisions stay until the next frame. Kills and saves never decrease, and the net score moves by the pass's saves minus its kills. |

## Left out

- Drawing, the score's `innerHTML` write and the kill sound (`draw`, `drawSpriteCentered`, `kill.play()`): canvas, DOM and audio side effects.
- `AssetManager` and image loading: sprite sizes enter the model as the `Sprites` value, so the radii are given reals.
- `startInput` and the mouse listener: the model keeps the `click` latch that `loop` clears, but not the listeners that set it or the `mouse` field.
- `GameEngine.start` and the `requestAnimFrame` shim: host scheduling of a loop that never ends. `Loop` models a single frame.
- `Cat.update` and `Cowboy.update` motion (trigonometry, `Math.random`, the mouse position, the undeclared `dx`/`dy` globals): each frame's displacement of entry k is a parameter `motion(k)`. Only cats and the cowboy apply it.
- `Date.now()` and the two `Math.random()` draws of the spawn: they are parameters `now`, `rx` and `ry`.
- IEEE-754 doubles: positions, radii and times are exact reals, and `Math.sqrt` is replaced by an equivalent squared comparison (`Entities.OverlapsIsDistanceTest`). A missing radius gives NaN in the game, which makes every comparison false; `Overlaps` is false then too.
- The top-level bootstrap and `console.log`.
- Object identity: entities are values. A change to an entity is written back into its registry entry, and `this.pen` / `this.cowboy` are entries 1 and 2 by the invariant `Valid()`.
- Game.CatWrangler.Start: requires an empty registry, as on a fresh engine; it is not specified for a registry that already holds entities.
- Scoring.Score.GetScore: the net score `saves - kills` has no contract of its own. What it means over a frame is stated by `Game.CatWrangler.Loop`.
