/** The collision pass: every registry entry after the three reference entities
    (background, pen, cowboy) is tested against the cowboy and against the pen,
    and then clamped to the playfield. The loop bound is the registry's current
    length, so the Bloods that catches append are scanned by the same pass. */
module Collision {
  import opened Entities

  /** What the pass reads besides the scanned entity: the cowboy and the pen, the
      playfield size and the width of the blood sprite. */
  datatype Scene = Scene(cowboy: Entity, pen: Entity, width: real, height: real, bloodWidth: real)

  /** The cowboy catches an entity that can collide and is within reach. */
  predicate Caught(e: Entity, sc: Scene) {
    e.collides && Overlaps(e, sc.cowboy)
  }

  /** Any entity within reach of the pen is saved; `collides` is not consulted. */
  predicate Saved(e: Entity, sc: Scene) {
    Overlaps(e, sc.pen)
  }

  /** A scanned entity after its iteration: flagged if caught or saved, and clamped
      to the playfield whether flagged or not. */
  function Resolve(e: Entity, sc: Scene): Entity {
    e.(removeFromWorld := e.removeFromWorld || Caught(e, sc) || Saved(e, sc),
       x := Clamp(e.x, sc.width), y := Clamp(e.y, sc.height))
  }

  /** The Blood a catch appends, at the caught entity's position before clamping. */
  function SpawnedBy(e: Entity, sc: Scene): seq<Entity> {
    if Caught(e, sc) then [NewBlood(e.x, e.y, sc.bloodWidth)] else []
  }

  /** The Bloods appended while scanning `s`, in order. */
  function Bloods(s: seq<Entity>, sc: Scene): seq<Entity>
    decreases |s|
  {
    if s == [] then [] else Bloods(s[..|s| - 1], sc) + SpawnedBy(s[|s| - 1], sc)
  }

  /** How many entities of `s` reach the pen. */
  function SavedCount(s: seq<Entity>, sc: Scene): nat
    decreases |s|
  {
    if s == [] then 0
    else SavedCount(s[..|s| - 1], sc) + (if Saved(s[|s| - 1], sc) then 1 else 0)
  }

  /** How many entities of `s` the cowboy catches. */
  function CaughtCount(s: seq<Entity>, sc: Scene): nat
    decreases |s|
  {
    if s == [] then 0
    else CaughtCount(s[..|s| - 1], sc) + (if Caught(s[|s| - 1], sc) then 1 else 0)
  }

  function ResolveAll(s: seq<Entity>, sc: Scene): (r: seq<Entity>)
    ensures |r| == |s|
  {
    seq(|s|, k requires 0 <= k < |s| => Resolve(s[k], sc))
  }

  /** The registry after a pass, and how much the pass adds to kills and saves. */
  datatype Outcome = Outcome(entities: seq<Entity>, kills: nat, saves: nat)

  /** The scene of a registry whose entries 1 and 2 are the pen and the cowboy. */
  function SceneOf(es: seq<Entity>, width: real, height: real, bloodWidth: real): Scene
    requires 3 <= |es|
  {
    Scene(es[2], es[1], width, height, bloodWidth)
  }

  /** Everything a pass scans: the entries after the reference entities, then the
      Bloods their catches append. */
  function Queue(scanned: seq<Entity>, sc: Scene): seq<Entity> {
    scanned + Bloods(scanned, sc)
  }

  /** One collision pass over registry `es`: the reference entities are left alone,
      every other entry and every Blood spawned is resolved, each catch adds a kill
      and each entity reaching the pen a save. */
  function CollisionPass(es: seq<Entity>, width: real, height: real, bloodWidth: real): Outcome
    requires 3 <= |es|
  {
    var sc := SceneOf(es, width, height, bloodWidth);
    var spawned := Bloods(es[3..], sc);
    Outcome(es[..3] + ResolveAll(es[3..] + spawned, sc), |spawned|,
            SavedCount(es[3..] + spawned, sc))
  }

  // ---------------------------------------------------------------------------
  // Bloods

  lemma {:induction false} BloodsAppend(a: seq<Entity>, b: seq<Entity>, sc: Scene)
    ensures Bloods(a + b, sc) == Bloods(a, sc) + Bloods(b, sc)
    decreases |b|
  {
    if b == [] {
      assert a + b == a;
    } else {
      assert (a + b)[..|a + b| - 1] == a + b[..|b| - 1];
      assert (a + b)[|a + b| - 1] == b[|b| - 1];
      BloodsAppend(a, b[..|b| - 1], sc);
    }
  }

  /** Every appended entity is a fresh, unflagged Blood that cannot be caught. */
  lemma {:induction false} BloodsInert(s: seq<Entity>, sc: Scene)
    ensures forall b :: b in Bloods(s, sc) ==>
              b.kind == Blood && !b.collides && !b.removeFromWorld
    decreases |s|
  {
    if s != [] {
      BloodsInert(s[..|s| - 1], sc);
    }
  }

  lemma {:induction false} NothingCaught(t: seq<Entity>, sc: Scene)
    requires forall k :: 0 <= k < |t| ==> !t[k].collides
    ensures Bloods(t, sc) == []
    decreases |t|
  {
    if t != [] {
      NothingCaught(t[..|t| - 1], sc);
    }
  }

  /** Scanning the Bloods spawns nothing more: this is why the pass ends although
      its bound grows while it runs. */
  lemma BloodsSpawnNothing(s: seq<Entity>, sc: Scene)
    ensures Bloods(Bloods(s, sc), sc) == []
  {
    var b := Bloods(s, sc);
    BloodsInert(s, sc);
    assert forall k :: 0 <= k < |b| ==> b[k] in b;
    NothingCaught(b, sc);
  }

  /** Exactly one Blood per catch: there are as many Bloods as catches, each caught
      entity leaves a Blood at its position, and each Blood sits where some caught
      entity was. */
  lemma {:induction false} BloodsMarkCatches(s: seq<Entity>, sc: Scene)
    ensures |Bloods(s, sc)| == CaughtCount(s, sc)
    ensures forall j :: 0 <= j < |s| && Caught(s[j], sc) ==>
              NewBlood(s[j].x, s[j].y, sc.bloodWidth) in Bloods(s, sc)
    ensures forall b :: b in Bloods(s, sc) ==>
              exists j :: 0 <= j < |s| && Caught(s[j], sc) &&
                          b == NewBlood(s[j].x, s[j].y, sc.bloodWidth)
    decreases |s|
  {
    if s != [] {
      var init := s[..|s| - 1];
      BloodsMarkCatches(init, sc);
      forall b | b in Bloods(s, sc)
        ensures exists j :: 0 <= j < |s| && Caught(s[j], sc) &&
                            b == NewBlood(s[j].x, s[j].y, sc.bloodWidth)
      {
        if b in Bloods(init, sc) {
          var j :| 0 <= j < |init| && Caught(init[j], sc) &&
                   b == NewBlood(init[j].x, init[j].y, sc.bloodWidth);
          assert s[j] == init[j];
        } else {
          assert Caught(s[|s| - 1], sc);
        }
      }
      forall j | 0 <= j < |s| && Caught(s[j], sc)
        ensures NewBlood(s[j].x, s[j].y, sc.bloodWidth) in Bloods(s, sc)
      {
        if j < |s| - 1 {
          assert s[j] == init[j];
        }
      }
    }
  }

  // ---------------------------------------------------------------------------
  // The loop of the pass, one iteration at a time

  /** While the pass runs, the Bloods spawned so far are a prefix of all it spawns;
      once the original entries are behind it, all of them have been spawned. */
  lemma SpawnedSoFar(scanned: seq<Entity>, sc: Scene, j: nat)
    requires j <= |Queue(scanned, sc)|
    ensures Bloods(Queue(scanned, sc)[..j], sc) <= Bloods(scanned, sc)
    ensures |scanned| <= j ==> Bloods(Queue(scanned, sc)[..j], sc) == Bloods(scanned, sc)
  {
    var q := Queue(scanned, sc);
    var all := Bloods(scanned, sc);
    if j <= |scanned| {
      assert q[..j] == scanned[..j];
      assert scanned == scanned[..j] + scanned[j..];
      BloodsAppend(scanned[..j], scanned[j..], sc);
    } else {
      var later := all[..j - |scanned|];
      assert q[..j] == scanned + later;
      BloodsAppend(scanned, later, sc);
      BloodsInert(scanned, sc);
      assert forall k :: 0 <= k < |later| ==> later[k] in all;
      NothingCaught(later, sc);
      assert Bloods(later, sc) == [];
      assert Bloods(q[..j], sc) == all + [];
    }
  }

  /** The registry after the pass has scanned `j` queue entries: the reference
      entities, the `j` resolved entries, then what is still pending (the original
      entries not reached yet, followed by the Bloods spawned so far). */
  ghost function Partial(refs: seq<Entity>, scanned: seq<Entity>, sc: Scene, j: nat): (p: seq<Entity>)
    requires j <= |Queue(scanned, sc)|
    requires j <= |scanned| + |Bloods(Queue(scanned, sc)[..j], sc)|
    ensures |p| == |refs| + |scanned| + |Bloods(Queue(scanned, sc)[..j], sc)|
  {
    var q := Queue(scanned, sc);
    SpawnedSoFar(scanned, sc, j);
    refs + ResolveAll(q[..j], sc) + q[j..|scanned| + |Bloods(q[..j], sc)|]
  }

  lemma PartialStart(refs: seq<Entity>, scanned: seq<Entity>, sc: Scene)
    ensures Partial(refs, scanned, sc, 0) == refs + scanned
  {
  }

  /** Scanning one more queue entry adds its Blood, if any, and its save, if any. */
  lemma ScanOneMore(q: seq<Entity>, sc: Scene, j: nat)
    requires j < |q|
    ensures Bloods(q[..j + 1], sc) == Bloods(q[..j], sc) + SpawnedBy(q[j], sc)
    ensures SavedCount(q[..j + 1], sc) == SavedCount(q[..j], sc) + (if Saved(q[j], sc) then 1 else 0)
  {
    assert q[..j + 1][..j] == q[..j];
    assert q[..j + 1][j] == q[j];
  }

  /** The Blood spawned by the j-th queue entry, if any, is the queue entry right
      after the Bloods spawned before it. */
  lemma NextBloodInQueue(scanned: seq<Entity>, sc: Scene, j: nat)
    requires j < |Queue(scanned, sc)|
    ensures var q := Queue(scanned, sc);
            var c0 := |Bloods(q[..j], sc)|;
            var c1 := |Bloods(q[..j + 1], sc)|;
            |scanned| + c1 <= |q| &&
            c1 == c0 + |SpawnedBy(q[j], sc)| &&
            q[|scanned| + c0..|scanned| + c1] == SpawnedBy(q[j], sc)
  {
    var q := Queue(scanned, sc);
    var all := Bloods(scanned, sc);
    var n := |scanned|;
    ScanOneMore(q, sc, j);
    var c0 := Bloods(q[..j], sc);
    var c1 := Bloods(q[..j + 1], sc);
    SpawnedSoFar(scanned, sc, j + 1);
    assert c1 <= all;
    forall k | 0 <= k < |c1| - |c0|
      ensures q[n + |c0|..n + |c1|][k] == SpawnedBy(q[j], sc)[k]
    {
      assert q[n + |c0| + k] == all[|c0| + k];
      assert all[|c0| + k] == c1[|c0| + k];
    }
  }

  /** One iteration: the entry at index 3 + j is the j-th queue entry; resolving it
      and appending its Blood gives the registry after j + 1 entries. */
  lemma PartialStep(refs: seq<Entity>, scanned: seq<Entity>, sc: Scene, j: nat)
    requires |refs| == 3
    requires j < |Queue(scanned, sc)|
    requires j < |scanned| + |Bloods(Queue(scanned, sc)[..j], sc)|
    ensures var q := Queue(scanned, sc);
            var p := Partial(refs, scanned, sc, j);
            3 + j < |p| && p[3 + j] == q[j] && p[..3] == refs &&
            j + 1 <= |scanned| + |Bloods(q[..j + 1], sc)| &&
            Partial(refs, scanned, sc, j + 1) == p[3 + j := Resolve(q[j], sc)] + SpawnedBy(q[j], sc)
  {
    var q := Queue(scanned, sc);
    var n := |scanned|;
    NextBloodInQueue(scanned, sc, j);
    var m0 := n + |Bloods(q[..j], sc)|;
    var m1 := n + |Bloods(q[..j + 1], sc)|;
    PartialIs(refs, scanned, sc, j);
    PartialIs(refs, scanned, sc, j + 1);
    ResolveOneMore(q, sc, j);
    SpliceQueue(refs, ResolveAll(q[..j], sc), q, j, m0, m1, Resolve(q[j], sc));
  }

  /** Partial unfolded, with the bound of the pending part named. */
  lemma PartialIs(refs: seq<Entity>, scanned: seq<Entity>, sc: Scene, j: nat)
    requires j <= |Queue(scanned, sc)|
    requires j <= |scanned| + |Bloods(Queue(scanned, sc)[..j], sc)|
    ensures var q := Queue(scanned, sc);
            var m := |scanned| + |Bloods(q[..j], sc)|;
            m <= |q| &&
            Partial(refs, scanned, sc, j) == refs + ResolveAll(q[..j], sc) + q[j..m]
  {
    SpawnedSoFar(scanned, sc, j);
  }

  /** Resolving the first pending queue entry and appending the queue entries from
      m0 to m1. */
  lemma SpliceQueue(refs: seq<Entity>, done: seq<Entity>, q: seq<Entity>, j: nat, m0: nat, m1: nat, y: Entity)
    requires |refs| == 3 && |done| == j
    requires j < m0 <= m1 <= |q|
    ensures var p := refs + done + q[j..m0];
            3 + j < |p| && p[3 + j] == q[j] && p[..3] == refs &&
            p[3 + j := y] + q[m0..m1] == refs + (done + [y]) + q[j + 1..m1]
  {
  }

  /** One iteration of the loop, as the loop needs it: everything PartialStep
      says, plus the kills and saves the entry adds and that the queue is not
      exhausted. */
  lemma LoopStep(refs: seq<Entity>, scanned: seq<Entity>, sc: Scene, j: nat)
    requires |refs| == 3
    requires j <= |Queue(scanned, sc)|
    requires j < |scanned| + |Bloods(Queue(scanned, sc)[..j], sc)|
    ensures var q := Queue(scanned, sc);
            var p := Partial(refs, scanned, sc, j);
            j < |q| && 3 + j < |p| && p[3 + j] == q[j] && p[..3] == refs &&
            j + 1 <= |scanned| + |Bloods(q[..j + 1], sc)| &&
            Partial(refs, scanned, sc, j + 1) == p[3 + j := Resolve(q[j], sc)] + SpawnedBy(q[j], sc) &&
            Bloods(q[..j + 1], sc) == Bloods(q[..j], sc) + SpawnedBy(q[j], sc) &&
            SavedCount(q[..j + 1], sc) == SavedCount(q[..j], sc) + (if Saved(q[j], sc) then 1 else 0)
  {
    var q := Queue(scanned, sc);
    SpawnedSoFar(scanned, sc, j);
    PartialStep(refs, scanned, sc, j);
    ScanOneMore(q, sc, j);
  }

  lemma ResolveOneMore(q: seq<Entity>, sc: Scene, j: nat)
    requires j < |q|
    ensures ResolveAll(q[..j + 1], sc) == ResolveAll(q[..j], sc) + [Resolve(q[j], sc)]
  {
  }

  /** When the pass stops, it has scanned the whole queue. */
  lemma PartialEnd(refs: seq<Entity>, scanned: seq<Entity>, sc: Scene, j: nat)
    requires j <= |Queue(scanned, sc)|
    requires j == |scanned| + |Bloods(Queue(scanned, sc)[..j], sc)|
    ensures j == |Queue(scanned, sc)|
    ensures Partial(refs, scanned, sc, j) == refs + ResolveAll(Queue(scanned, sc), sc)
    ensures |Bloods(Queue(scanned, sc)[..j], sc)| == |Bloods(scanned, sc)|
    ensures SavedCount(Queue(scanned, sc)[..j], sc) == SavedCount(Queue(scanned, sc), sc)
  {
    var q := Queue(scanned, sc);
    SpawnedSoFar(scanned, sc, j);
    assert q[..j] == q;
  }

  // ---------------------------------------------------------------------------
  // What a pass does

  /** The pass never touches the background, the pen or the cowboy, and removes
      nothing: it only appends one Blood per kill. Entities it flags stay in the
      registry until the next compaction. */
  lemma PassKeepsEntries(es: seq<Entity>, width: real, height: real, bloodWidth: real)
    requires 3 <= |es|
    ensures var out := CollisionPass(es, width, height, bloodWidth);
            out.entities[..3] == es[..3] &&
            |out.entities| == |es| + out.kills &&
            (forall k :: 0 <= k < |es| ==> out.entities[k].kind == es[k].kind) &&
            forall k :: |es| <= k < |out.entities| ==> out.entities[k].kind == Blood
  {
    var sc := SceneOf(es, width, height, bloodWidth);
    var spawned := Bloods(es[3..], sc);
    BloodsInert(es[3..], sc);
    SpawnedBloodsScanned(es, width, height, bloodWidth);
    forall k | |es| <= k < |CollisionPass(es, width, height, bloodWidth).entities|
      ensures CollisionPass(es, width, height, bloodWidth).entities[k].kind == Blood
    {
      assert spawned[k - |es|] in spawned;
    }
  }

  /** The outcome for each entry after the reference entities: both proximity tests
      are made on its position at the start of the pass and are independent, it is
      flagged when either fires, and it is clamped to the playfield even when
      flagged. */
  lemma ScannedOutcome(es: seq<Entity>, width: real, height: real, bloodWidth: real, i: nat)
    requires 3 <= i < |es|
    ensures var sc := SceneOf(es, width, height, bloodWidth);
            var out := CollisionPass(es, width, height, bloodWidth);
            var e := out.entities[i];
            i < |out.entities| &&
            e.kind == es[i].kind && e.collides == es[i].collides && e.radius == es[i].radius &&
            (e.removeFromWorld <==>
               es[i].removeFromWorld || (es[i].collides && Overlaps(es[i], es[2])) || Overlaps(es[i], es[1])) &&
            e.x == Clamp(es[i].x, width) && e.y == Clamp(es[i].y, height)
  {
  }

  lemma {:induction false} SavedCountAppend(a: seq<Entity>, b: seq<Entity>, sc: Scene)
    ensures SavedCount(a + b, sc) == SavedCount(a, sc) + SavedCount(b, sc)
    decreases |b|
  {
    if b == [] {
      assert a + b == a;
    } else {
      assert (a + b)[..|a + b| - 1] == a + b[..|b| - 1];
      assert (a + b)[|a + b| - 1] == b[|b| - 1];
      SavedCountAppend(a, b[..|b| - 1], sc);
    }
  }

  /** Because the loop bound is the registry's current length, the Bloods a pass
      appends are scanned by the same pass: each is clamped like any other entry,
      and one that reaches the pen counts as a save. */
  lemma SpawnedBloodsScanned(es: seq<Entity>, width: real, height: real, bloodWidth: real)
    requires 3 <= |es|
    ensures var sc := SceneOf(es, width, height, bloodWidth);
            var spawned := Bloods(es[3..], sc);
            var out := CollisionPass(es, width, height, bloodWidth);
            |out.entities| == |es| + |spawned| &&
            (forall k :: 0 <= k < |spawned| ==> out.entities[|es| + k] == Resolve(spawned[k], sc)) &&
            out.saves == SavedCount(es[3..], sc) + SavedCount(spawned, sc)
  {
    var sc := SceneOf(es, width, height, bloodWidth);
    var spawned := Bloods(es[3..], sc);
    var q := es[3..] + spawned;
    forall k | 0 <= k < |spawned|
      ensures CollisionPass(es, width, height, bloodWidth).entities[|es| + k] == Resolve(spawned[k], sc)
    {
      assert q[|es| - 3 + k] == spawned[k];
    }
    SavedCountAppend(es[3..], spawned, sc);
  }

  /** A cat caught right at the pen counts both ways in one pass: it is flagged,
      one kill is counted, and it is saved; the Blood it leaves lies at the pen too
      and is flagged and saved by the same pass, so the pass adds two saves. */
  lemma CaughtAtThePen(sprites: Sprites)
    requires 0.0 < sprites.catHeight && 0.0 < sprites.bloodWidth
    requires 0.0 < sprites.penWidth && 0.0 < sprites.cowboyHeight
    ensures var cowboy := NewCowboy(400.0, 300.0, sprites.cowboyHeight);
            var es := [NewBackground(), NewPen(sprites.penWidth), cowboy, NewCat(400.0, 300.0, sprites.catHeight)];
            var out := CollisionPass(es, 800.0, 600.0, sprites.bloodWidth);
            out.kills == 1 && out.saves == 2 &&
            out.entities == es[..3] + [NewCat(400.0, 300.0, sprites.catHeight).(removeFromWorld := true),
                                       NewBlood(400.0, 300.0, sprites.bloodWidth).(removeFromWorld := true)]
  {
    var cowboy := NewCowboy(400.0, 300.0, sprites.cowboyHeight);
    var cat := NewCat(400.0, 300.0, sprites.catHeight);
    var blood := NewBlood(400.0, 300.0, sprites.bloodWidth);
    var es := [NewBackground(), NewPen(sprites.penWidth), cowboy, cat];
    var sc := SceneOf(es, 800.0, 600.0, sprites.bloodWidth);
    assert es[3..] == [cat];
    assert Caught(cat, sc) && Saved(cat, sc) && Saved(blood, sc);
    assert [cat][..0] == [];
    assert Bloods([cat], sc) == [blood];
    var q := [cat, blood];
    assert q[..1] == [cat] && q[..1][..0] == [];
    assert SavedCount([cat], sc) == 1;
    assert SavedCount(q, sc) == 2;
    assert es[3..] + Bloods(es[3..], sc) == q;
    assert ResolveAll(q, sc) == [Resolve(cat, sc), Resolve(blood, sc)];
  }
}
