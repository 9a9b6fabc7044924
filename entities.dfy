/** The entities of Cat Wrangler as the engine sees them, the proximity test that
    drives collisions, and the playfield bound clamp. */
module Entities {

  datatype Option<T> = None | Some(value: T)

  /** A point in canvas coordinates, such as the latched click position. */
  datatype Point = Point(x: real, y: real)

  /** The displacement an entity's own update computes for one frame. */
  datatype Vec = Vec(dx: real, dy: real)

  /** The entity variants of the game. */
  datatype Kind = Background | Pen | Cowboy | Cat | Blood

  /** An entity record: its variant, its position, its collision radius (the
      background has none), whether the cowboy can catch it, and the removal flag. */
  datatype Entity = Entity(kind: Kind, x: real, y: real, radius: Option<real>,
                           collides: bool, removeFromWorld: bool)

  /** The sprite dimensions the radii are derived from, as loaded by the asset cache. */
  datatype Sprites = Sprites(catHeight: real, bloodWidth: real, penWidth: real, cowboyHeight: real)

  /** The background sits at (0, 0) and has no radius (game.js:281-284). */
  function NewBackground(): Entity {
    Entity(Background, 0.0, 0.0, None, false, false)
  }

  /** The pen sits at (400, 300) (game.js:293) with half its sprite's width as
      radius (game.js:295). */
  function NewPen(penWidth: real): Entity {
    Entity(Pen, 400.0, 300.0, Some(penWidth / 2.0), false, false)
  }

  /** The cowboy starts at the centre of the playfield (game.js:308-309), with half
      its sprite's height as radius (game.js:312). */
  function NewCowboy(halfWidth: real, halfHeight: real, cowboyHeight: real): Entity {
    Entity(Cowboy, halfWidth, halfHeight, Some(cowboyHeight / 2.0), false, false)
  }

  /** Cats are the only entities the cowboy can catch (game.js:233); the radius is
      half the sprite's height (game.js:236). */
  function NewCat(x: real, y: real, catHeight: real): Entity {
    Entity(Cat, x, y, Some(catHeight / 2.0), true, false)
  }

  /** The effect left where a cat was caught; it never collides with the cowboy,
      since `collides` is never set (game.js:266-272), and its radius is half the
      sprite's width (game.js:271). */
  function NewBlood(x: real, y: real, bloodWidth: real): Entity {
    Entity(Blood, x, y, Some(bloodWidth / 2.0), false, false)
  }

  /** The test `distance(a, b) < a.radius + b.radius`, with the square root taken
      out: the distance is below a sum exactly when the sum is nonnegative and the
      squared distance is below its square. A missing radius makes the sum NaN in
      the game, and every comparison with NaN is false. */
  predicate Overlaps(a: Entity, b: Entity) {
    a.radius.Some? && b.radius.Some? &&
    var reach := a.radius.value + b.radius.value;
    var dx := a.x - b.x;
    var dy := a.y - b.y;
    0.0 <= reach && dx * dx + dy * dy < reach * reach
  }

  /** For a nonnegative d, comparing squares is comparing the numbers. */
  lemma SquaresCompare(d: real, s: real)
    requires 0.0 <= d
    ensures (0.0 <= s && d * d < s * s) <==> d < s
  {
    if d < s {
      assert s * s - d * d == (s - d) * (s + d);
      PositiveProduct(s - d, s + d);
    }
    if 0.0 <= s && s <= d {
      assert d * d - s * s == (d - s) * (d + s);
      if s < d { PositiveProduct(d - s, d + s); }
    }
  }

  lemma PositiveProduct(a: real, b: real)
    requires 0.0 < a && 0.0 < b
    ensures 0.0 < a * b
  {
  }

  /** Overlaps is the game's distance test: whatever nonnegative number squares to
      the squared distance, the entities overlap exactly when both have a radius and
      that distance is below the sum of the radii. */
  lemma OverlapsIsDistanceTest(a: Entity, b: Entity, dist: real)
    requires 0.0 <= dist
    requires dist * dist == (a.x - b.x) * (a.x - b.x) + (a.y - b.y) * (a.y - b.y)
    ensures Overlaps(a, b) <==>
              a.radius.Some? && b.radius.Some? && dist < a.radius.value + b.radius.value
  {
    if a.radius.Some? && b.radius.Some? {
      SquaresCompare(dist, a.radius.value + b.radius.value);
    }
  }

  /** One axis of the bound clamp: beyond the far edge an entity is put one unit
      inside it, below zero it is put at 1, otherwise it stays. */
  function Clamp(v: real, limit: real): (r: real)
    ensures r == v <==> 0.0 <= v <= limit
    ensures 1.0 <= limit ==> 0.0 <= r <= limit
  {
    if v > limit then limit - 1.0 else if v < 0.0 then 1.0 else v
  }

  /** On a playfield at least one unit wide, clamping a clamped coordinate changes
      nothing, so a second pass over unchanged positions is a no-op. */
  lemma ClampIdempotent(v: real, limit: real)
    requires 1.0 <= limit
    ensures Clamp(Clamp(v, limit), limit) == Clamp(v, limit)
  {
  }
}
