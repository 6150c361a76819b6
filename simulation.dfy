/**
 * The game loop's state and the operations that change it: the key
 * handlers, the start/restart reset, one tick of the simulation, and the
 * two effects that follow a change of score.
 */
module Simulation {
  import opened Config
  import opened Input
  import opened Kinematics
  import opened ObstacleField
  import opened Collision
  import opened ScoreSignals

  datatype GameState = Start | Playing | GameOver

  /** Where the player stands before the first game. */
  const InitialPos: Vec := Vec(100, 300)
  /** Where every game (re)starts the player. */
  const SpawnPos: Vec := Vec(150, 300)

  class Game {
    var state: GameState
    var score: nat
    var highScore: nat
    var pos: Vec
    var vel: Vec
    var bgIndex: nat
    var obstacles: seq<Obstacle>
    /** Time of the last spawn, or of the last (re)start. */
    var lastObstacleTime: int
    var keys: KeySet
    /** Points earned from obstacles that have since been culled from the field. */
    ghost var Retired: nat

    /**
     * The player is inside the lower bounds, the theme index selects a palette
     * entry, and every point of the score is a `passed` flag set exactly once:
     * on a live obstacle or on one already culled.
     */
    ghost predicate Valid()
      reads this
    {
      pos.x >= MinPos && pos.y >= MinPos
      && bgIndex < ThemeCount
      && score == Retired + PassedCount(obstacles)
    }

    constructor ()
      ensures Valid()
      ensures state == Start && score == 0 && highScore == 0 && bgIndex == 0
      ensures pos == InitialPos && vel == Vec(0, 0)
      ensures obstacles == [] && lastObstacleTime == 0 && keys == {}
    {
      state, score, highScore, bgIndex := Start, 0, 0, 0;
      pos, vel := InitialPos, Vec(0, 0);
      obstacles, lastObstacleTime, keys := [], 0, {};
      Retired := 0;
    }

    /** A key press adds the lower-cased key name to the held set. */
    method KeyDown(key: string)
      requires Valid()
      modifies this`keys
      ensures Valid()
      ensures keys == old(keys) + {Lower(key)}
    {
      keys := keys + {Lower(key)};
    }

    /** A key release removes the lower-cased key name from the held set. */
    method KeyUp(key: string)
      requires Valid()
      modifies this`keys
      ensures Valid()
      ensures keys == old(keys) - {Lower(key)}
    {
      keys := keys - {Lower(key)};
    }

    /** The begin trigger, from START and from GAMEOVER alike: a full reset of the round. */
    method StartGame(now: int)
      modifies this`state, this`score, this`bgIndex, this`pos, this`vel,
        this`obstacles, this`lastObstacleTime, this`Retired
      ensures Valid()
      ensures state == Playing && score == 0 && bgIndex == 0
      ensures pos == SpawnPos && vel == Vec(0, 0)
      ensures obstacles == [] && lastObstacleTime == now
    {
      state := Playing;
      score := 0;
      bgIndex := 0;
      pos := SpawnPos;
      vel := Vec(0, 0);
      obstacles := [];
      lastObstacleTime := now;
      Retired := 0;
    }

    /**
     * One frame of the loop at time `now`, with random sample `r` and a
     * `width` x `height` viewport. Outside PLAYING nothing happens. Otherwise
     * the velocity is sampled, the player moved and clamped, the field
     * scrolled, culled and perhaps given a new obstacle, and the field then
     * scanned against the hitbox at the position the player had BEFORE this
     * frame's move.
     */
    method Tick(now: int, r: real, width: int, height: int)
      requires Valid()
      modifies this
      ensures Valid()
      ensures old(state) != Playing ==> unchanged(this)
      ensures old(state) == Playing ==> vel == Velocity(old(keys))
      ensures old(state) == Playing ==> pos == Move(old(pos), vel, width, height)
      ensures old(state) == Playing ==>
        obstacles == MarkAll(old(pos), FieldAfter(old(obstacles), now, old(lastObstacleTime), r, width, height))
      ensures old(state) == Playing ==>
        lastObstacleTime == LastSpawnAfter(now, old(lastObstacleTime))
      ensures old(state) == Playing ==>
        Retired == old(Retired) + PassedCount(Scrolled(old(obstacles))) - PassedCount(ScrollAndCull(old(obstacles)))
      ensures old(state) == Playing ==>
        score == old(score) + CountNewlyPassed(old(pos), FieldAfter(old(obstacles), now, old(lastObstacleTime), r, width, height))
      ensures old(state) == Playing ==>
        state == (if AnyHit(old(pos), FieldAfter(old(obstacles), now, old(lastObstacleTime), r, width, height)) then GameOver else Playing)
      ensures keys == old(keys) && highScore == old(highScore) && bgIndex == old(bgIndex)
    {
      if state == Playing {
        Advance(now, r, width, height);
      }
    }

    /** The body of a tick in PLAYING. */
    method Advance(now: int, r: real, width: int, height: int)
      requires Valid() && state == Playing
      modifies this`vel, this`pos, this`obstacles, this`lastObstacleTime, this`Retired, this`state, this`score
      ensures Valid()
      ensures vel == Velocity(keys)
      ensures pos == Move(old(pos), vel, width, height)
      ensures obstacles == MarkAll(old(pos), FieldAfter(old(obstacles), now, old(lastObstacleTime), r, width, height))
      ensures lastObstacleTime == LastSpawnAfter(now, old(lastObstacleTime))
      ensures Retired == old(Retired) + PassedCount(Scrolled(old(obstacles))) - PassedCount(ScrollAndCull(old(obstacles)))
      ensures score == old(score) + CountNewlyPassed(old(pos), FieldAfter(old(obstacles), now, old(lastObstacleTime), r, width, height))
      ensures state == (if AnyHit(old(pos), FieldAfter(old(obstacles), now, old(lastObstacleTime), r, width, height)) then GameOver else Playing)
    {
      var before := pos;
      vel := Velocity(keys);
      pos := Move(pos, vel, width, height);
      var hit, gained := UpdateObstacles(before, now, r, width, height);
      state := if hit then GameOver else Playing;
      score := score + gained;
    }

    /**
     * The obstacle half of the tick: scroll and cull the field, spawn when
     * due, then scan it against the hitbox at `before`. Returns whether a wall
     * was struck and how many points were earned; the points are exactly the
     * flags set, so the retired points plus the live flags grow by `gained`.
     * The flags of the culled obstacles move into `Retired`.
     */
    method UpdateObstacles(before: Vec, now: int, r: real, width: int, height: int)
      returns (hit: bool, gained: nat)
      modifies this`obstacles, this`lastObstacleTime, this`Retired
      ensures obstacles == MarkAll(before, FieldAfter(old(obstacles), now, old(lastObstacleTime), r, width, height))
      ensures hit == AnyHit(before, FieldAfter(old(obstacles), now, old(lastObstacleTime), r, width, height))
      ensures gained == CountNewlyPassed(before, FieldAfter(old(obstacles), now, old(lastObstacleTime), r, width, height))
      ensures lastObstacleTime == LastSpawnAfter(now, old(lastObstacleTime))
      ensures Retired == old(Retired) + PassedCount(Scrolled(old(obstacles))) - PassedCount(ScrollAndCull(old(obstacles)))
      ensures Retired + PassedCount(obstacles) == old(Retired) + PassedCount(old(obstacles)) + gained
    {
      var scrolled := Scrolled(obstacles);
      var next := Culled(scrolled);
      PassedCountScrolled(obstacles);
      PassedCountCulled(scrolled);
      Retired := Retired + (PassedCount(scrolled) - PassedCount(next));
      if SpawnDue(now, lastObstacleTime) {
        var o := Spawned(now, r, width, height);
        PassedCountAppend(next, [o]);
        assert PassedCount([o]) == 0;
        next := next + [o];
        lastObstacleTime := now;
      }
      assert next == FieldAfter(old(obstacles), now, old(lastObstacleTime), r, width, height);

      var marked;
      marked, hit, gained := ScanObstacles(before, next);
      PassedCountAfterMark(before, next);
      obstacles := marked;
    }

    /** The theme effect, run after a render in which the score changed. */
    method ThemeEffect()
      requires Valid()
      modifies this`bgIndex
      ensures Valid()
      ensures bgIndex == NextTheme(score, old(bgIndex))
    {
      bgIndex := NextTheme(score, bgIndex);
    }

    /** The high-score effect, run after a render in which the score changed. */
    method HighScoreEffect()
      requires Valid()
      modifies this`highScore
      ensures Valid()
      ensures highScore >= old(highScore) && highScore >= score
      ensures highScore == NextHighScore(score, old(highScore))
    {
      highScore := NextHighScore(score, highScore);
    }
  }

  /**
   * A short round on an 800 x 600 viewport with no key held: the player stays
   * put, one obstacle appears per elapsed spawn interval at the right edge,
   * and the high score survives a restart.
   */
  method Round()
  {
    var g := new Game();
    g.StartGame(0);
    g.Tick(16, 0.5, 800, 600);
    assert g.pos == SpawnPos && g.obstacles == [] && g.state == Playing;
    g.Tick(1334, 0.5, 800, 600);
    assert g.pos == SpawnPos && g.lastObstacleTime == 1334;
    assert g.obstacles == [Obstacle(1334, 800, 190.0, false)];
    assert g.state == Playing && g.score == 0;
    g.Tick(1350, 0.5, 800, 600);
    assert g.obstacles == [Obstacle(1334, 794, 190.0, false)];
    g.HighScoreEffect();
    var high := g.highScore;
    g.StartGame(2000);
    assert g.highScore == high && g.obstacles == [];
  }
}
