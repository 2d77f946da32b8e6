/** The two collision passes of a tick, written to follow the game's loops step by step.

    The bullet-alien pass removes entries with `splice` inside two nested `forEach`
    loops. `forEach` fixes the number of visits when it starts, skips an index that no
    longer exists, and otherwise visits whatever element now sits at that index. So
    after a removal the element that slides into the freed index is not visited; the
    bullet being visited keeps testing the remaining aliens; and each further hit runs
    `splice(bi, 1)` on the bullets again, removing whichever bullet now sits at `bi`
    (or nothing, once `bi` is past the end). */
module Combat {
  import opened Geometry
  import opened Sequences

  /** The bullets and aliens during the bullet-alien pass, and the hits counted so far. */
  datatype Volley = Volley(bullets: seq<Bullet>, aliens: seq<Rect>, hits: nat)

  /** The inner `forEach` over the aliens for the bullet b visited at index bi,
      from alien index ai up to the len visits fixed when that loop started. */
  function AlienScan(b: Bullet, bi: nat, ai: nat, len: nat, v: Volley): Volley
    decreases len - ai
  {
    if ai >= len then v
    else if ai < |v.aliens| && Collide(Probe(b), v.aliens[ai]) then
      AlienScan(b, bi, ai + 1, len, Volley(Splice(v.bullets, bi), RemoveAt(v.aliens, ai), v.hits + 1))
    else
      AlienScan(b, bi, ai + 1, len, v)
  }

  /** The outer `forEach` over the bullets, from bullet index bi up to the len visits
      fixed when the pass started. */
  function BulletScan(bi: nat, len: nat, v: Volley): Volley
    decreases len - bi
  {
    if bi >= len then v
    else if bi < |v.bullets| then
      BulletScan(bi + 1, len, AlienScan(v.bullets[bi], bi, 0, |v.aliens|, v))
    else
      BulletScan(bi + 1, len, v)
  }

  /** The whole bullet-alien pass. */
  function HitPass(bullets: seq<Bullet>, aliens: seq<Rect>): Volley {
    BulletScan(0, |bullets|, Volley(bullets, aliens, 0))
  }

  /** w is a later stage of the pass that started from v: each hit removed exactly one
      alien, at most one bullet went per hit, and the survivors of both lists kept
      their order. */
  ghost predicate Consumes(v: Volley, w: Volley) {
    && w.hits >= v.hits
    && |w.aliens| + w.hits == |v.aliens| + v.hits
    && |w.bullets| <= |v.bullets|
    && |v.bullets| - |w.bullets| <= w.hits - v.hits
    && IsSubseq(w.aliens, v.aliens)
    && IsSubseq(w.bullets, v.bullets)
  }

  lemma ConsumesRefl(v: Volley)
    ensures Consumes(v, v)
  {
    SubseqRefl(v.aliens);
    SubseqRefl(v.bullets);
  }

  lemma ConsumesTrans(u: Volley, v: Volley, w: Volley)
    requires Consumes(u, v) && Consumes(v, w)
    ensures Consumes(u, w)
  {
    SubseqTrans(w.aliens, v.aliens, u.aliens);
    SubseqTrans(w.bullets, v.bullets, u.bullets);
  }

  /** A single hit removes the alien at ai and splices the bullets at bi. */
  lemma HitConsumes(v: Volley, bi: nat, ai: nat)
    requires ai < |v.aliens|
    ensures Consumes(v, Volley(Splice(v.bullets, bi), RemoveAt(v.aliens, ai), v.hits + 1))
  {
    SubseqSplice(v.bullets, bi);
    SubseqRemoveAt(v.aliens, ai);
  }

  lemma {:induction false} AlienScanConsumes(b: Bullet, bi: nat, ai: nat, len: nat, v: Volley)
    ensures Consumes(v, AlienScan(b, bi, ai, len, v))
    decreases len - ai
  {
    if ai >= len {
      ConsumesRefl(v);
    } else if ai < |v.aliens| && Collide(Probe(b), v.aliens[ai]) {
      var v' := Volley(Splice(v.bullets, bi), RemoveAt(v.aliens, ai), v.hits + 1);
      HitConsumes(v, bi, ai);
      AlienScanConsumes(b, bi, ai + 1, len, v');
      ConsumesTrans(v, v', AlienScan(b, bi, ai + 1, len, v'));
    } else {
      AlienScanConsumes(b, bi, ai + 1, len, v);
    }
  }

  lemma {:induction false} BulletScanConsumes(bi: nat, len: nat, v: Volley)
    ensures Consumes(v, BulletScan(bi, len, v))
    decreases len - bi
  {
    if bi >= len {
      ConsumesRefl(v);
    } else if bi < |v.bullets| {
      var v' := AlienScan(v.bullets[bi], bi, 0, |v.aliens|, v);
      AlienScanConsumes(v.bullets[bi], bi, 0, |v.aliens|, v);
      BulletScanConsumes(bi + 1, len, v');
      ConsumesTrans(v, v', BulletScan(bi + 1, len, v'));
    } else {
      BulletScanConsumes(bi + 1, len, v);
    }
  }

  /** The counting facts of the pass as written: each hit removes exactly one alien,
      no more bullets are removed than there are hits, neither list grows, and the
      surviving bullets and aliens keep their relative order. */
  lemma HitPassCounts(bullets: seq<Bullet>, aliens: seq<Rect>)
    ensures var w := HitPass(bullets, aliens);
      && |w.aliens| == |aliens| - w.hits
      && |w.bullets| <= |bullets|
      && |bullets| - |w.bullets| <= w.hits
      && IsSubseq(w.aliens, aliens)
      && IsSubseq(w.bullets, bullets)
  {
    BulletScanConsumes(0, |bullets|, Volley(bullets, aliens, 0));
  }

  /** A pass with no bullets, or no aliens, changes nothing. */
  lemma {:induction false} HitPassIdle(bullets: seq<Bullet>, aliens: seq<Rect>)
    requires bullets == [] || aliens == []
    ensures HitPass(bullets, aliens) == Volley(bullets, aliens, 0)
  {
    if aliens == [] {
      BulletScanNoAliens(0, |bullets|, Volley(bullets, aliens, 0));
    }
  }

  lemma {:induction false} BulletScanNoAliens(bi: nat, len: nat, v: Volley)
    requires v.aliens == []
    ensures BulletScan(bi, len, v) == v
    decreases len - bi
  {
    if bi < len {
      if bi < |v.bullets| {
        assert AlienScan(v.bullets[bi], bi, 0, 0, v) == v;
      }
      BulletScanNoAliens(bi + 1, len, v);
    }
  }

  /** A bullet whose square meets no alien leaves the inner loop's state untouched. */
  lemma {:induction false} AlienScanMiss(b: Bullet, bi: nat, ai: nat, len: nat, v: Volley)
    requires forall a :: a in v.aliens ==> !Collide(Probe(b), a)
    ensures AlienScan(b, bi, ai, len, v) == v
    decreases len - ai
  {
    if ai < len {
      if ai < |v.aliens| {
        assert v.aliens[ai] in v.aliens;
      }
      AlienScanMiss(b, bi, ai + 1, len, v);
    }
  }

  lemma {:induction false} BulletScanMiss(bi: nat, len: nat, v: Volley)
    requires forall b, a :: b in v.bullets && a in v.aliens ==> !Collide(Probe(b), a)
    ensures BulletScan(bi, len, v) == v
    decreases len - bi
  {
    if bi < len {
      if bi < |v.bullets| {
        assert v.bullets[bi] in v.bullets;
        AlienScanMiss(v.bullets[bi], bi, 0, |v.aliens|, v);
      }
      BulletScanMiss(bi + 1, len, v);
    }
  }

  /** Hits come only from `collide`: when no bullet's square overlaps any alien, the pass
      removes nothing from either list and counts no hit. */
  lemma HitPassMiss(bullets: seq<Bullet>, aliens: seq<Rect>)
    requires forall b, a :: b in bullets && a in aliens ==> !Collide(Probe(b), a)
    ensures HitPass(bullets, aliens) == Volley(bullets, aliens, 0)
  {
    BulletScanMiss(0, |bullets|, Volley(bullets, aliens, 0));
  }

  /** One pass where a single bullet destroys two aliens, the alien that slides into the
      freed index is skipped, and a second bullet that touches nothing disappears as well:
      "one bullet, one alien" does not hold for the pass as written. */
  lemma OneBulletTwoAliens()
    ensures HitPass([Bullet(150, 100, 40), Bullet(4000, 5000, 40)],
                    [Rect(0, 0, 300, 200), Rect(10, 0, 300, 200), Rect(20, 0, 300, 200)])
            == Volley([], [Rect(10, 0, 300, 200)], 2)
  {
    var a0, a1, a2 := Rect(0, 0, 300, 200), Rect(10, 0, 300, 200), Rect(20, 0, 300, 200);
    var b0, b1 := Bullet(150, 100, 40), Bullet(4000, 5000, 40);
    var v0 := Volley([b0, b1], [a0, a1, a2], 0);
    var v1 := Volley([b1], [a1, a2], 1);
    var v2 := Volley([], [a1], 2);
    assert Collide(Probe(b0), a0) && Collide(Probe(b0), a2);
    assert AlienScan(b0, 0, 2, 3, v2) == v2;
    assert AlienScan(b0, 0, 1, 3, v1) == v2;
    assert AlienScan(b0, 0, 0, 3, v0) == v2;
    assert BulletScan(1, 2, v2) == v2;
  }

  /** The alien-player pass: a fixed `forEach` over the aliens. An alien touching the
      player costs one life and is moved to y = height + 100; then any alien whose bottom
      edge is at or below the field's bottom sets lives to 0, and the alien just moved
      is always such an alien. */
  datatype Crash = Crash(aliens: seq<Rect>, lives: int)

  /** Where an alien that touched the player is moved (100 pixels below the field). */
  const Sunk: int := Height + 1000

  function CrashScan(i: nat, player: Rect, c: Crash): Crash
    decreases |c.aliens| - i
  {
    if i >= |c.aliens| then c
    else
      var a := c.aliens[i];
      var hit := Collide(Box(a), player);
      var a' := if hit then a.(y := Sunk) else a;
      var lives := if hit then c.lives - 1 else c.lives;
      var lives' := if a'.y + a'.h >= Height then 0 else lives;
      CrashScan(i + 1, player, Crash(c.aliens[i := a'], lives'))
  }

  function CrashPass(aliens: seq<Rect>, player: Rect, lives: int): Crash {
    CrashScan(0, player, Crash(aliens, lives))
  }

  /** An alien after the pass: moved below the field if it touched the player, else untouched. */
  function AfterCrash(a: Rect, player: Rect): Rect {
    if Collide(Box(a), player) then a.(y := Sunk) else a
  }

  /** The alien ends the game this tick: it touches the player or reaches the bottom. */
  predicate Fatal(a: Rect, player: Rect) {
    Collide(Box(a), player) || a.y + a.h >= Height
  }

  lemma {:induction false} CrashScanSpec(i: nat, player: Rect, c: Crash)
    requires forall k :: i <= k < |c.aliens| ==> c.aliens[k].h >= 0
    ensures var r := CrashScan(i, player, c);
      && |r.aliens| == |c.aliens|
      && (forall k :: 0 <= k < i && k < |c.aliens| ==> r.aliens[k] == c.aliens[k])
      && (forall k :: i <= k < |c.aliens| ==> r.aliens[k] == AfterCrash(c.aliens[k], player))
      && ((exists k :: i <= k < |c.aliens| && Fatal(c.aliens[k], player)) ==> r.lives == 0)
      && ((forall k :: i <= k < |c.aliens| ==> !Fatal(c.aliens[k], player)) ==> r.lives == c.lives)
    decreases |c.aliens| - i
  {
    if i < |c.aliens| {
      var a := c.aliens[i];
      var a' := AfterCrash(a, player);
      var hit := Collide(Box(a), player);
      var lives := if hit then c.lives - 1 else c.lives;
      var lives' := if a'.y + a'.h >= Height then 0 else lives;
      var c' := Crash(c.aliens[i := a'], lives');
      assert CrashScan(i, player, c) == CrashScan(i + 1, player, c');
      assert Fatal(a, player) ==> lives' == 0;
      assert !Fatal(a, player) ==> lives' == c.lives;
      CrashScanSpec(i + 1, player, c');
    }
  }

  /** The alien-player pass: an alien is moved below the field exactly when it touches
      the player. If no alien touches the player or reaches the bottom, lives are
      unchanged; otherwise lives end at exactly 0, whatever they were. */
  lemma CrashPassSpec(aliens: seq<Rect>, player: Rect, lives: int)
    requires forall a :: a in aliens ==> a.h >= 0
    ensures var r := CrashPass(aliens, player, lives);
      && |r.aliens| == |aliens|
      && (forall k :: 0 <= k < |aliens| ==> r.aliens[k] == AfterCrash(aliens[k], player))
      && ((exists k :: 0 <= k < |aliens| && Fatal(aliens[k], player)) ==> r.lives == 0)
      && ((forall k :: 0 <= k < |aliens| ==> !Fatal(aliens[k], player)) ==> r.lives == lives)
  {
    CrashScanSpec(0, player, Crash(aliens, lives));
  }
}
