/**
 * Collision and scoring: the player's inset hitbox tested against every
 * obstacle of the field, and the one-shot `passed` flag that scores a point.
 */
module Collision {
  import opened Config
  import opened ObstacleField

  /** Horizontal inset of the hitbox inside the player sprite. */
  const HitInsetX: int := 25
  /** Vertical inset of the hitbox inside the player sprite. */
  const HitInsetY: int := 15
  /** Horizontal inset of an obstacle's walls for the overlap test. */
  const WallInset: int := 10

  datatype Box = Box(left: int, right: int, top: int, bottom: int)

  /** The hitbox of a player whose sprite's top-left corner is at `p`. */
  function PlayerBox(p: Vec): Box
  {
    Box(p.x + HitInsetX, p.x + PlayerWidth - HitInsetX,
        p.y + HitInsetY, p.y + PlayerHeight - HitInsetY)
  }

  /** The hitbox's horizontal span meets the obstacle's inset span. */
  predicate Overlaps(b: Box, o: Obstacle)
  {
    b.right > o.x + WallInset && b.left < o.x + ObstacleWidth - WallInset
  }

  /** The hitbox reaches above the gap's top or below the gap's bottom. */
  predicate OutsideGap(b: Box, o: Obstacle)
  {
    (b.top as real) < o.topHeight || (b.bottom as real) > o.topHeight + ObstacleGap as real
  }

  /** The player at `p` strikes a wall of `o`. */
  predicate Hits(p: Vec, o: Obstacle)
  {
    Overlaps(PlayerBox(p), o) && OutsideGap(PlayerBox(p), o)
  }

  /** Some obstacle of the field is struck. */
  predicate AnyHit(p: Vec, s: seq<Obstacle>)
  {
    exists i :: 0 <= i < |s| && Hits(p, s[i])
  }

  /**
   * A hit means the hitbox and the inset obstacle span overlap strictly and
   * the hitbox is not contained in the gap; touching an inset edge, or a
   * hitbox inside the gap, is safe.
   */
  lemma HitsMeansOverlapOutsideGap(p: Vec, o: Obstacle)
    ensures Hits(p, o) <==>
      p.x + 85 > o.x + 10 && p.x + 25 < o.x + 90
      && !(o.topHeight <= (p.y + 15) as real && ((p.y + 50) as real) <= o.topHeight + 220.0)
    ensures NewlyPassed(p, o) ==> !Hits(p, o)
  {
  }

  /** The player at `p` has cleared `o` and `o` has not been counted yet. */
  predicate NewlyPassed(p: Vec, o: Obstacle)
  {
    !o.passed && o.x + ObstacleWidth < PlayerBox(p).left
  }

  /** `o` after the scan: its flag set if the player has just cleared it. */
  function Mark(p: Vec, o: Obstacle): (r: Obstacle)
    ensures r.id == o.id && r.x == o.x && r.topHeight == o.topHeight
    ensures r.passed <==> o.passed || NewlyPassed(p, o)
  {
    if NewlyPassed(p, o) then o.(passed := true) else o
  }

  /** Every obstacle of the field after the scan. */
  function MarkAll(p: Vec, s: seq<Obstacle>): (r: seq<Obstacle>)
    ensures |r| == |s|
    ensures forall i :: 0 <= i < |s| ==>
      r[i].id == s[i].id && r[i].x == s[i].x && r[i].topHeight == s[i].topHeight
    ensures forall i :: 0 <= i < |s| ==> (s[i].passed ==> r[i].passed)
    ensures forall i :: 0 <= i < |s| ==> (r[i].passed && !s[i].passed <==> NewlyPassed(p, s[i]))
  {
    seq(|s|, i requires 0 <= i < |s| => Mark(p, s[i]))
  }

  /** Points the scan awards: one per obstacle the player has just cleared. */
  function CountNewlyPassed(p: Vec, s: seq<Obstacle>): (n: nat)
    ensures n + PassedCount(s) <= |s|
  {
    if s == [] then 0
    else (if NewlyPassed(p, s[0]) then 1 else 0) + CountNewlyPassed(p, s[1..])
  }

  lemma {:induction false} CountNewlyPassedSnoc(p: Vec, s: seq<Obstacle>, o: Obstacle)
    ensures CountNewlyPassed(p, s + [o]) == CountNewlyPassed(p, s) + (if NewlyPassed(p, o) then 1 else 0)
  {
    if s == [] {
      assert s + [o] == [o];
    } else {
      assert (s + [o])[1..] == s[1..] + [o];
      CountNewlyPassedSnoc(p, s[1..], o);
    }
  }

  /**
   * The scan loop of the tick: every obstacle of `next` is tested for a hit
   * and for a pass, a pass sets the obstacle's flag and awards one point.
   */
  method ScanObstacles(p: Vec, next: seq<Obstacle>) returns (marked: seq<Obstacle>, hit: bool, gained: nat)
    ensures marked == MarkAll(p, next)
    ensures hit <==> AnyHit(p, next)
    ensures gained == CountNewlyPassed(p, next)
  {
    var box := PlayerBox(p);
    marked, hit, gained := next, false, 0;
    for i := 0 to |next|
      invariant |marked| == |next|
      invariant forall k :: 0 <= k < i ==> marked[k] == Mark(p, next[k])
      invariant forall k :: i <= k < |next| ==> marked[k] == next[k]
      invariant hit <==> exists k :: 0 <= k < i && Hits(p, next[k])
      invariant gained == CountNewlyPassed(p, next[..i])
    {
      var obs := marked[i];
      if Overlaps(box, obs) {
        if OutsideGap(box, obs) {
          hit := true;
        }
      }
      assert next[..i + 1] == next[..i] + [next[i]];
      CountNewlyPassedSnoc(p, next[..i], next[i]);
      if !obs.passed && obs.x + ObstacleWidth < box.left {
        marked := marked[i := obs.(passed := true)];
        gained := gained + 1;
      }
    }
    assert next[..|next|] == next;
  }

  /** The flags the scan sets are exactly the points it awards. */
  lemma {:induction false} PassedCountAfterMark(p: Vec, s: seq<Obstacle>)
    ensures PassedCount(MarkAll(p, s)) == PassedCount(s) + CountNewlyPassed(p, s)
  {
    if s != [] {
      assert MarkAll(p, s)[1..] == MarkAll(p, s[1..]);
      PassedCountAfterMark(p, s[1..]);
    }
  }

  /** Scanning a field that has just been scanned from the same position awards nothing. */
  lemma {:induction false} RescanAwardsNothing(p: Vec, s: seq<Obstacle>)
    ensures CountNewlyPassed(p, MarkAll(p, s)) == 0
  {
    if s != [] {
      assert MarkAll(p, s)[1..] == MarkAll(p, s[1..]);
      RescanAwardsNothing(p, s[1..]);
    }
  }

  /** The host inputs of one frame: the pre-move player position, the clock, the random sample, the viewport. */
  datatype Frame = Frame(p: Vec, now: int, r: real, width: int, height: int)

  /** The obstacle field after the obstacle half of each frame of `fs` in turn. */
  function RunField(fs: seq<Frame>, s: seq<Obstacle>, last: int): seq<Obstacle>
  {
    if fs == [] then s
    else
      var f := fs[0];
      RunField(fs[1..], MarkAll(f.p, FieldAfter(s, f.now, last, f.r, f.width, f.height)), LastSpawnAfter(f.now, last))
  }

  /** The points those frames award in total. */
  function RunPoints(fs: seq<Frame>, s: seq<Obstacle>, last: int): nat
  {
    if fs == [] then 0
    else
      var f := fs[0];
      var next := FieldAfter(s, f.now, last, f.r, f.width, f.height);
      CountNewlyPassed(f.p, next) + RunPoints(fs[1..], MarkAll(f.p, next), LastSpawnAfter(f.now, last))
  }

  /** The number of obstacles those frames spawn. */
  function RunSpawns(fs: seq<Frame>, last: int): nat
  {
    if fs == [] then 0
    else (if SpawnDue(fs[0].now, last) then 1 else 0) + RunSpawns(fs[1..], LastSpawnAfter(fs[0].now, last))
  }

  /**
   * One frame: the points awarded plus the obstacles still unpassed afterwards
   * are at most the unpassed obstacles before plus the one spawned, if any.
   */
  lemma StepKeepsUnpassed(p: Vec, s: seq<Obstacle>, now: int, last: int, r: real, width: int, height: int)
    ensures
      var next := FieldAfter(s, now, last, r, width, height);
      CountNewlyPassed(p, next) + Unpassed(MarkAll(p, next)) <= Unpassed(s) + (if SpawnDue(now, last) then 1 else 0)
  {
    var kept := ScrollAndCull(s);
    var next := FieldAfter(s, now, last, r, width, height);
    PassedCountAfterMark(p, next);
    PassedCountScrolled(s);
    UnpassedCulled(Scrolled(s));
    if SpawnDue(now, last) {
      var o := Spawned(now, r, width, height);
      assert next == kept + [o];
      PassedCountAppend(kept, [o]);
      assert PassedCount([o]) == 0;
    }
  }

  /**
   * Over any run of frames, each scrolling, culling, perhaps spawning and
   * then scanning from any position: the points awarded never exceed the
   * obstacles unpassed at the start plus the obstacles spawned, so no
   * obstacle is worth more than one point.
   */
  lemma {:induction false} EachObstacleScoresOnce(fs: seq<Frame>, s: seq<Obstacle>, last: int)
    ensures RunPoints(fs, s, last) + Unpassed(RunField(fs, s, last)) <= Unpassed(s) + RunSpawns(fs, last)
    ensures RunPoints(fs, s, last) <= Unpassed(s) + RunSpawns(fs, last)
  {
    if fs != [] {
      var f := fs[0];
      var next := FieldAfter(s, f.now, last, f.r, f.width, f.height);
      StepKeepsUnpassed(f.p, s, f.now, last, f.r, f.width, f.height);
      EachObstacleScoresOnce(fs[1..], MarkAll(f.p, next), LastSpawnAfter(f.now, last));
    }
  }
}
