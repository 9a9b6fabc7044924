/** The entity registry's per-frame bookkeeping: the forward update pass over the
    entities not flagged for removal, and the compaction that drops flagged ones. */
module Registry {
  import opened Entities

  /** An entity's own update: cats and the cowboy move by the displacement their
      motion computed; background, pen and blood keep the base update, which does
      nothing. */
  function Stepped(e: Entity, d: Vec): (r: Entity)
    ensures r.kind == e.kind && r.radius == e.radius
    ensures r.collides == e.collides && r.removeFromWorld == e.removeFromWorld
    ensures e.kind !in {Cat, Cowboy} ==> r == e
  {
    if e.kind == Cat || e.kind == Cowboy then e.(x := e.x + d.dx, y := e.y + d.dy) else e
  }

  /** The registry after the forward update pass: the entity at index k is updated
      with displacement motion(k) unless it is flagged for removal. */
  function Moved(es: seq<Entity>, motion: nat -> Vec): (r: seq<Entity>)
    ensures |r| == |es|
    ensures forall k :: 0 <= k < |es| && es[k].removeFromWorld ==> r[k] == es[k]
    ensures forall k :: 0 <= k < |es| ==>
              r[k].kind == es[k].kind && r[k].removeFromWorld == es[k].removeFromWorld &&
              r[k].radius == es[k].radius && r[k].collides == es[k].collides
    ensures forall k :: 0 <= k < |es| && es[k].kind !in {Cat, Cowboy} ==> r[k] == es[k]
  {
    var r := seq(|es|, k requires 0 <= k < |es| =>
      if es[k].removeFromWorld then es[k] else Stepped(es[k], motion(k)));
    assert forall k :: 0 <= k < |es| ==>
      r[k] == if es[k].removeFromWorld then es[k] else Stepped(es[k], motion(k));
    r
  }

  /** The entry at index k of the updated registry. */
  lemma MovedAt(es: seq<Entity>, motion: nat -> Vec, k: nat)
    requires k < |es|
    ensures Moved(es, motion)[k] == if es[k].removeFromWorld then es[k] else Stepped(es[k], motion(k))
  {
  }

  /** The entities not flagged for removal, in registry order. */
  function Survivors(es: seq<Entity>): (r: seq<Entity>)
    ensures |r| <= |es|
    decreases |es|
  {
    if es == [] then []
    else (if es[0].removeFromWorld then [] else [es[0]]) + Survivors(es[1..])
  }

  lemma {:induction false} SurvivorsAppend(a: seq<Entity>, b: seq<Entity>)
    ensures Survivors(a + b) == Survivors(a) + Survivors(b)
    decreases |a|
  {
    if a == [] {
      assert a + b == b;
    } else {
      assert (a + b)[1..] == a[1..] + b;
      SurvivorsAppend(a[1..], b);
    }
  }

  /** An entity survives compaction exactly when it was in the registry and not
      flagged: no flagged entity remains and every unflagged one is kept. */
  lemma {:induction false} SurvivorsMembership(es: seq<Entity>, e: Entity)
    ensures e in Survivors(es) <==> e in es && !e.removeFromWorld
    decreases |es|
  {
    if es != [] {
      SurvivorsMembership(es[1..], e);
      assert es == [es[0]] + es[1..];
    }
  }

  /** An unflagged entity at index i lands at index |Survivors(es[..i])|: the
      number of survivors before it. */
  lemma {:induction false} SurvivorAt(es: seq<Entity>, i: nat)
    requires i < |es| && !es[i].removeFromWorld
    ensures |Survivors(es[..i])| < |Survivors(es)|
    ensures Survivors(es)[|Survivors(es[..i])|] == es[i]
  {
    assert es == es[..i] + es[i..];
    SurvivorsAppend(es[..i], es[i..]);
    assert Survivors(es[i..]) == [es[i]] + Survivors(es[i + 1..]) by {
      assert es[i..][1..] == es[i + 1..];
    }
  }

  /** Survivors keep their relative order: of two unflagged entities, the earlier
      one lands strictly before the later one. */
  lemma SurvivorsKeepOrder(es: seq<Entity>, i: nat, j: nat)
    requires i < j < |es|
    requires !es[i].removeFromWorld && !es[j].removeFromWorld
    ensures |Survivors(es[..i])| < |Survivors(es[..j])| < |Survivors(es)|
    ensures Survivors(es)[|Survivors(es[..i])|] == es[i]
    ensures Survivors(es)[|Survivors(es[..j])|] == es[j]
  {
    SurvivorAt(es, i);
    SurvivorAt(es, j);
    SurvivorAt(es[..j], i);
    assert es[..j][..i] == es[..i];
  }

  /** A prefix of unflagged entities is kept as it is. */
  lemma {:induction false} SurvivorsKeepUnflaggedPrefix(a: seq<Entity>, b: seq<Entity>)
    requires forall k :: 0 <= k < |a| ==> !a[k].removeFromWorld
    ensures Survivors(a + b) == a + Survivors(b)
    decreases |a|
  {
    if a == [] {
      assert a + b == b;
    } else {
      assert (a + b)[1..] == a[1..] + b;
      SurvivorsKeepUnflaggedPrefix(a[1..], b);
      assert a == [a[0]] + a[1..];
    }
  }

  /** Compaction keeps the reference entities at the front when none is flagged. */
  lemma CompactionKeepsFront(es: seq<Entity>)
    requires 3 <= |es|
    requires !es[0].removeFromWorld && !es[1].removeFromWorld && !es[2].removeFromWorld
    ensures 3 <= |Survivors(es)| && Survivors(es)[..3] == es[..3]
  {
    assert es == es[..3] + es[3..];
    SurvivorsKeepUnflaggedPrefix(es[..3], es[3..]);
  }

  /** One step of the reverse splice loop: with the entries from n on already
      compacted, splicing out entry n - 1 if it is flagged compacts from n - 1 on. */
  lemma CompactStep(moved: seq<Entity>, n: nat)
    requires 0 < n <= |moved|
    ensures var cur := moved[..n] + Survivors(moved[n..]);
            n <= |cur| && cur[n - 1] == moved[n - 1] &&
            (if cur[n - 1].removeFromWorld then cur[..n - 1] + cur[n..] else cur) ==
              moved[..n - 1] + Survivors(moved[n - 1..])
  {
  }

  /** Registry [A, B, C, D] with B and D flagged compacts to [A, C]. */
  lemma CompactionExample(a: Entity, b: Entity, c: Entity, d: Entity)
    requires !a.removeFromWorld && b.removeFromWorld && !c.removeFromWorld && d.removeFromWorld
    ensures Survivors([a, b, c, d]) == [a, c]
  {
    assert [d][1..] == [];
    assert Survivors([d]) == [];
    assert [c, d][1..] == [d];
    assert Survivors([c, d]) == [c];
    assert [b, c, d][1..] == [c, d];
    assert Survivors([b, c, d]) == [c];
    assert [a, b, c, d][1..] == [b, c, d];
  }
}
