/**
 * Obstacle field: the ordered sequence of obstacle pairs, scrolled to the
 * left and culled every tick, with at most one new obstacle spawned.
 */
module ObstacleField {
  import opened Config

  /** An obstacle pair: its creation time as id, its left edge, the height of its top wall. */
  datatype Obstacle = Obstacle(id: int, x: int, topHeight: real, passed: bool)

  /** Vertical room the spawn formula keeps free besides the gap. */
  const SpawnMargin: int := 150
  /** Smallest top-wall height the spawn formula produces. */
  const MinTop: int := 75

  /** Every obstacle moved ScrollSpeed pixels to the left (the `map` of the tick). */
  function Scrolled(s: seq<Obstacle>): (r: seq<Obstacle>)
    ensures |r| == |s|
    ensures forall i :: 0 <= i < |s| ==>
      r[i].x == s[i].x - ScrollSpeed && r[i].id == s[i].id
      && r[i].topHeight == s[i].topHeight && r[i].passed == s[i].passed
  {
    seq(|s|, i requires 0 <= i < |s| => s[i].(x := s[i].x - ScrollSpeed))
  }

  /** An obstacle whose right edge has not yet left the viewport. */
  predicate OnScreen(o: Obstacle) { o.x > -ObstacleWidth }

  /** The obstacles still on screen, in their order (the `filter` of the tick). */
  function Culled(s: seq<Obstacle>): (r: seq<Obstacle>)
    ensures |r| <= |s|
    ensures forall k :: 0 <= k < |r| ==> OnScreen(r[k])
    ensures (forall i :: 0 <= i < |s| ==> OnScreen(s[i])) ==> r == s
  {
    if s == [] then []
    else if OnScreen(s[0]) then [s[0]] + Culled(s[1..])
    else Culled(s[1..])
  }

  /** The positions, counted from `base`, of the obstacles Culled keeps. */
  function KeptFrom(s: seq<Obstacle>, base: int): seq<int>
  {
    if s == [] then []
    else (if OnScreen(s[0]) then [base] else []) + KeptFrom(s[1..], base + 1)
  }

  /** The positions in `s` of the obstacles Culled keeps. */
  function Kept(s: seq<Obstacle>): seq<int>
  {
    KeptFrom(s, 0)
  }

  lemma {:induction false} KeptFromLength(s: seq<Obstacle>, base: int)
    ensures |KeptFrom(s, base)| == |Culled(s)|
  {
    if s != [] {
      KeptFromLength(s[1..], base + 1);
    }
  }
  lemma {:induction false} KeptFromAt(s: seq<Obstacle>, base: int, k: int)
    requires 0 <= k < |KeptFrom(s, base)|
    ensures base <= KeptFrom(s, base)[k] < base + |s|
    ensures k < |Culled(s)| && Culled(s)[k] == s[KeptFrom(s, base)[k] - base]
  {
    KeptFromLength(s, base);
    var t := s[1..];
    if OnScreen(s[0]) {
      assert KeptFrom(s, base) == [base] + KeptFrom(t, base + 1);
      assert Culled(s) == [s[0]] + Culled(t);
      if k > 0 {
        KeptFromAt(t, base + 1, k - 1);
      }
    } else {
      KeptFromAt(t, base + 1, k);
    }
  }
  lemma {:induction false} KeptFromBelow(s: seq<Obstacle>, base: int, k: int, l: int)
    requires 0 <= k < l < |KeptFrom(s, base)|
    ensures KeptFrom(s, base)[k] < KeptFrom(s, base)[l]
  {
    var t := s[1..];
    if OnScreen(s[0]) {
      assert KeptFrom(s, base) == [base] + KeptFrom(t, base + 1);
      KeptFromAt(t, base + 1, l - 1);
      if k > 0 {
        KeptFromBelow(t, base + 1, k - 1, l - 1);
      }
    } else {
      KeptFromBelow(t, base + 1, k, l);
    }
  }
  lemma {:induction false} KeptFromComplete(s: seq<Obstacle>, base: int, i: int)
    requires 0 <= i < |s|
    ensures OnScreen(s[i]) <==> base + i in KeptFrom(s, base)
  {
    var t := s[1..];
    var rest := KeptFrom(t, base + 1);
    assert KeptFrom(s, base) == (if OnScreen(s[0]) then [base] else []) + rest;
    if i > 0 {
      KeptFromComplete(t, base + 1, i - 1);
      assert s[i] == t[i - 1];
    }
    if base in rest {
      var k :| 0 <= k < |rest| && rest[k] == base;
      KeptFromAt(t, base + 1, k);
    }
  }

  /**
   * Culling keeps exactly the on-screen obstacles and keeps their relative
   * order: the k-th survivor is the obstacle at the k-th kept position, the
   * kept positions increase, and a position is kept iff its obstacle is on screen.
   */
  lemma CulledKeepsOrder(s: seq<Obstacle>)
    ensures |Kept(s)| == |Culled(s)|
    ensures forall k :: 0 <= k < |Kept(s)| ==> 0 <= Kept(s)[k] < |s| && Culled(s)[k] == s[Kept(s)[k]]
    ensures forall k, l :: 0 <= k < l < |Kept(s)| ==> Kept(s)[k] < Kept(s)[l]
    ensures forall i :: 0 <= i < |s| ==> (OnScreen(s[i]) <==> i in Kept(s))
  {
    KeptFromLength(s, 0);
    forall k | 0 <= k < |Kept(s)| ensures 0 <= Kept(s)[k] < |s| && Culled(s)[k] == s[Kept(s)[k]] {
      KeptFromAt(s, 0, k);
    }
    forall k, l | 0 <= k < l < |Kept(s)| ensures Kept(s)[k] < Kept(s)[l] {
      KeptFromBelow(s, 0, k, l);
    }
    forall i | 0 <= i < |s| ensures OnScreen(s[i]) <==> i in Kept(s) {
      KeptFromComplete(s, 0, i);
    }
  }

  /** The source's spawn cadence: strictly more than SpawnRate ms since the last spawn. */
  predicate SpawnDue(now: int, last: int) { now - last > SpawnRate }

  /**
   * Height of a new obstacle's top wall from a random sample `r` in [0, 1).
   * On a viewport taller than 370 px the gap fits with at least MinTop px of
   * wall above and below it; on a shorter one the range is inverted and no
   * clamp is applied.
   */
  function SpawnHeight(r: real, height: int): (t: real)
    ensures 0.0 <= r < 1.0 && height > ObstacleGap + SpawnMargin ==>
      75.0 <= t && t + 220.0 < height as real - 75.0
    ensures 0.0 <= r < 1.0 && height == ObstacleGap + SpawnMargin ==> t == 75.0
    ensures 0.0 <= r < 1.0 && height < ObstacleGap + SpawnMargin ==>
      height as real - 295.0 < t <= 75.0
  {
    SpawnHeightRange(r, height);
    r * (height as real - 370.0) + 75.0
  }

  lemma SpawnHeightRange(r: real, height: int)
    ensures 0.0 <= r < 1.0 && height > ObstacleGap + SpawnMargin ==>
      75.0 <= r * (height as real - 370.0) + 75.0
      && r * (height as real - 370.0) + 75.0 + 220.0 < height as real - 75.0
    ensures 0.0 <= r < 1.0 && height == ObstacleGap + SpawnMargin ==>
      r * (height as real - 370.0) + 75.0 == 75.0
    ensures 0.0 <= r < 1.0 && height < ObstacleGap + SpawnMargin ==>
      height as real - 295.0 < r * (height as real - 370.0) + 75.0 <= 75.0
  {
    var span := height as real - 370.0;
    var p := r * span;
    if 0.0 <= r < 1.0 {
      if height > 370 {
        ProductSigns(r, span);
        ProductSigns(1.0 - r, span);
        assert (1.0 - r) * span == span - p;
        assert 0.0 <= p < span;
      } else if height < 370 {
        ProductSigns(r, -span);
        ProductSigns(1.0 - r, -span);
        assert r * -span == -p;
        assert (1.0 - r) * -span == p - span;
        assert span < p <= 0.0;
      } else {
        assert span == 0.0;
      }
    }
  }

  lemma ProductSigns(a: real, b: real)
    requires 0.0 <= a && 0.0 < b
    ensures 0.0 <= a * b
    ensures 0.0 < a ==> 0.0 < a * b
  {
  }

  /** The time of the last spawn after a frame at `now`. */
  function LastSpawnAfter(now: int, last: int): int
  {
    if SpawnDue(now, last) then now else last
  }

  /** The field after the scroll-and-cull step, before any spawn. */
  function ScrollAndCull(prev: seq<Obstacle>): seq<Obstacle>
  {
    Culled(Scrolled(prev))
  }

  /** The obstacle spawned at time `now` on a `width` x `height` viewport. */
  function Spawned(now: int, r: real, width: int, height: int): Obstacle
  {
    Obstacle(now, width, SpawnHeight(r, height), false)
  }

  /**
   * The field the collision scan sees: scrolled and culled, then the new
   * obstacle, if one is due, appended last.
   */
  function FieldAfter(prev: seq<Obstacle>, now: int, last: int, r: real, width: int, height: int)
    : (next: seq<Obstacle>)
    ensures |next| <= |prev| + 1
    ensures |next| == |ScrollAndCull(prev)| + (if SpawnDue(now, last) then 1 else 0)
    ensures next[..|ScrollAndCull(prev)|] == ScrollAndCull(prev)
    ensures SpawnDue(now, last) ==>
      var o := next[|next| - 1];
      o.id == now && o.x == width && !o.passed && o.topHeight == SpawnHeight(r, height)
  {
    var kept := ScrollAndCull(prev);
    if SpawnDue(now, last) then kept + [Spawned(now, r, width, height)] else kept
  }

  /** Number of obstacles whose `passed` flag is set. */
  function PassedCount(s: seq<Obstacle>): (n: nat)
    ensures n <= |s|
  {
    if s == [] then 0 else (if s[0].passed then 1 else 0) + PassedCount(s[1..])
  }

  /** Number of obstacles not yet passed. */
  function Unpassed(s: seq<Obstacle>): nat
  {
    |s| - PassedCount(s)
  }

  /** Culling never adds an unpassed obstacle. */
  lemma {:induction false} UnpassedCulled(s: seq<Obstacle>)
    ensures Unpassed(Culled(s)) <= Unpassed(s)
  {
    if s != [] {
      UnpassedCulled(s[1..]);
      if OnScreen(s[0]) {
        assert ([s[0]] + Culled(s[1..]))[1..] == Culled(s[1..]);
      }
    }
  }

  lemma {:induction false} PassedCountAppend(a: seq<Obstacle>, b: seq<Obstacle>)
    ensures PassedCount(a + b) == PassedCount(a) + PassedCount(b)
  {
    if a == [] {
      assert a + b == b;
    } else {
      assert (a + b)[1..] == a[1..] + b;
      PassedCountAppend(a[1..], b);
    }
  }

  /** Scrolling touches no `passed` flag. */
  lemma {:induction false} PassedCountScrolled(s: seq<Obstacle>)
    ensures PassedCount(Scrolled(s)) == PassedCount(s)
  {
    if s != [] {
      assert Scrolled(s)[1..] == Scrolled(s[1..]);
      PassedCountScrolled(s[1..]);
    }
  }

  /** Culling never sets a flag; it can only drop obstacles that carry one. */
  lemma {:induction false} PassedCountCulled(s: seq<Obstacle>)
    ensures PassedCount(Culled(s)) <= PassedCount(s)
  {
    if s != [] {
      PassedCountCulled(s[1..]);
      if OnScreen(s[0]) {
        assert ([s[0]] + Culled(s[1..]))[1..] == Culled(s[1..]);
      }
    }
  }
}
