# Iron Man obstacle game: the per-frame simulation step

This project models the game loop of a single-screen arcade game. The player
steers a sprite with the arrow keys or WASD and dodges obstacle pairs: each pair
is a top wall and a bottom wall with a gap of fixed height between them. The
obstacles scroll in from the right edge of the screen.

The model covers:

- the held-key set and its add/delete handlers;
- the velocity sampled from the held keys;
- movement, clamped on each axis;
- the obstacle field: scroll, cull, then spawn at most one obstacle;
- the inset-hitbox collision test and the one-shot `passed` flag that scores a point;
- the start/restart reset;
- the two effects that follow a change of score: the theme index and the high score.

Modules, leaves first:

- `Config` (config.dfy): the game's constants (move speed 9, scroll speed 6,
  obstacle width 100, gap 220, spawn rate 1333 ms, player 110 x 65, lower
  bound 20, five themes) and the vector type `Vec`.
- `Input` (input.dfy): ASCII lower-casing of key names and the velocity sampler.
- `Kinematics` (kinematics.dfy): `Clamp`, which is `Math.max(lo, Math.min(hi, v))`,
  and the per-axis move.
- `ObstacleField` (obstacle_field.dfy): the `Obstacle` record, scroll (`map`),
  cull (`filter`), the spawn formula and the field the collision scan sees.
- `Collision` (collision.dfy): the hitbox predicates, the scan loop
  `ScanObstacles` (in place over the field, setting `passed` flags), and the
  lemmas that every obstacle scores at most once.
- `ScoreSignals` (score_signals.dfy): the theme effect and the high-score effect,
  as functions.
- `Simulation` (simulation.dfy): the `Game` class. It holds `state`, `score`,
  `highScore`, `pos`, `vel`, `bgIndex`, `obstacles`, `lastObstacleTime` and
  `keys`, and has the methods `KeyDown`, `KeyUp`, `StartGame`, `Tick`,
  `ThemeEffect` and `HighScoreEffect`.

The class invariant `Valid` says three things:

- the player is at or beyond the lower bound 20 on both axes;
- the theme index selects a palette entry;
- `score == Retired + PassedCount(obstacles)`.

`Retired` is a ghost field that holds the points earned from obstacles that have
since been culled. So every point of the score is one `passed` flag, set once.

Host inputs are parameters:

- `Date.now()` becomes `now: int`;
- `Math.random()` becomes `r: real`;
- `window.innerWidth` and `window.innerHeight` become `width` and `height`.

One call of `Tick` is one animation frame. The tick is a single atomic update.
As in the source, the collision and pass tests use the position the player had
before this frame's move. That position is the one the tick's closure captured.
The obstacle spawned in this frame is already in the field when the scan runs.

Two edge cases of the code are modelled as written:

- The spawn formula `r * (height - 370) + 75` is not clamped. On a viewport
  shorter than 370 px the range is inverted, to (height - 295, 75].
  `SpawnHeight` states both cases.
- The clamp's upper bound is `width - 110` and `height - 65`, with no further
  inset. When that bound is below 20, the lower bound 20 wins.

## Model

| member | source | states |
|---|---|---|
| `Input.Lower` | src/App.jsx:95-96 | a normalised key name has the same length, contains no upper-case ASCII letter, and keeps every other character |
| `Input.LowerIdempotent` | src/App.jsx:95-96 | normalising an already normalised key name changes nothing |
| `Input.SameKeyIffSameIgnoringCase` | src/App.jsx:95-96 | two key names map to the same entry of the held set iff they differ only in ASCII case, so releasing "W" releases a held "w" |
| `Input.Velocity` | src/App.jsx:127-131 | each axis is -9 iff only the negative direction is held (by either binding), +9 iff only the positive one is, and 0 iff both or neither are: opposing keys cancel and two bindings of one direction do not add up |
| `Kinematics.Clamp` | src/App.jsx:135-136 | the result is at least the lower bound and at most the upper bound when the bounds are ordered; a value inside is kept; the lower bound wins when the bounds cross |
| `Kinematics.Move` | src/App.jsx:134-137 | the new x and y are at least 20; x is at most width-110 when that is at least 20, and y at most height-65 when that is at least 20; an in-bounds target is reached exactly |
| `Kinematics.AxesIndependent` | src/App.jsx:135-136 | the new x depends only on the old x, the x velocity and the width |
| `ObstacleField.Scrolled` | src/App.jsx:143 | same length; every obstacle's x is exactly 6 less, with id, topHeight and passed unchanged |
| `ObstacleField.Culled` | src/App.jsx:144 | no longer than its input; every survivor is on screen (x > -100); a field that is all on screen is kept whole |
| `ObstacleField.CulledKeepsOrder` | src/App.jsx:143-144 | the survivors are the input's obstacles at strictly increasing positions, and a position is kept iff its obstacle is on screen, so relative order is preserved |
| `ObstacleField.SpawnHeight` | src/App.jsx:147 | for r in [0, 1): on a viewport taller than 370 the top wall is at least 75 and the gap ends more than 75 px above the bottom; at 370 it is exactly 75; below 370 it lies in (height-295, 75], not clamped |
| `ObstacleField.FieldAfter` | src/App.jsx:141-150 | the field is the scrolled-and-culled field, plus exactly one obstacle appended last iff more than 1333 ms have passed since the last spawn; that obstacle has id now, x = width, passed false and the spawn height; at most one more obstacle than before |
| `ObstacleField.PassedCountScrolled` | src/App.jsx:143 | scrolling sets and clears no `passed` flag |
| `ObstacleField.PassedCountCulled` | src/App.jsx:144 | culling never adds a `passed` flag |
| `ObstacleField.UnpassedCulled` | src/App.jsx:144 | culling never adds an obstacle not yet passed |
| `Collision.HitsMeansOverlapOutsideGap` | src/App.jsx:152-161 | a hit is a strict overlap of the hitbox [x+25, x+85] with the inset span [o.x+10, o.x+90], with the hitbox [y+15, y+50] not inside the gap [top, top+220]; touching an inset edge is not a hit; an obstacle just passed is never struck in the same scan |
| `Collision.Mark` | src/App.jsx:165-166 | marking changes only the flag, which is set iff it was set or the obstacle's right edge is left of the hitbox's left edge |
| `Collision.MarkAll` | src/App.jsx:159-168 | same length and geometry; a flag is never cleared; a flag turns from false to true exactly for the obstacles just passed |
| `Collision.CountNewlyPassed` | src/App.jsx:165-167 | the points of one scan plus the flags already set never exceed the number of obstacles |
| `Collision.ScanObstacles` | src/App.jsx:159-169 | the loop leaves the field marked as MarkAll says, reports a hit iff some obstacle of the field is struck, and awards exactly one point per obstacle just passed |
| `Collision.PassedCountAfterMark` | src/App.jsx:165-167 | the flags a scan sets are exactly the points it awards |
| `Collision.RescanAwardsNothing` | src/App.jsx:165 | a second scan from the same position awards no point |
| `Collision.StepKeepsUnpassed` | src/App.jsx:141-169 | in one frame (scroll, cull, spawn if due, scan) the points awarded plus the obstacles still unpassed afterwards are at most the unpassed obstacles before plus the one spawned |
| `Collision.EachObstacleScoresOnce` | src/App.jsx:141-169 | over any run of frames (scroll, cull, spawn if due, scan) at any positions, clocks, samples and viewports, the points awarded never exceed the obstacles unpassed at the start plus the obstacles spawned during the run |
| `ScoreSignals.NextTheme` | src/App.jsx:106-111 | at a positive multiple of 5 the index becomes (score/5) mod 5, otherwise it is unchanged; it stays in [0, 5) |
| `ScoreSignals.ThemeTracksScore` | src/App.jsx:106-111 | when the score rises one point at a time from 0, the theme index is always (score/5) mod 5 |
| `ScoreSignals.ThemeAtTwelve` | src/App.jsx:108 | reaching score 12 one point at a time selects theme 2 |
| `ScoreSignals.NextHighScore` | src/App.jsx:186-188 | the high score never falls, is at least the score, and is either its old value or the score |
| `ScoreSignals.HighScoreIsRunningMax` | src/App.jsx:186-188 | over any run of scores the high score never falls, ends at least every score seen, and is its start value or one of those scores |
| `Simulation.Game.constructor` | src/App.jsx:77-90 | the initial state: START, scores 0, theme 0, player at (100, 300), no velocity, no obstacles, last spawn time 0, no key held |
| `Simulation.Game.KeyDown` | src/App.jsx:95 | a key press adds the lower-cased key name to the held set and changes nothing else |
| `Simulation.Game.KeyUp` | src/App.jsx:96 | a key release removes the lower-cased key name from the held set and changes nothing else |
| `Simulation.Game.StartGame` | src/App.jsx:113-121 | start and restart alike: PLAYING, score 0, theme 0, player at (150, 300), velocity 0, no obstacles, last spawn time now; the high score and held keys are kept |
| `Simulation.Game.Tick` | src/App.jsx:123-175 | outside PLAYING nothing changes; otherwise the velocity is sampled, the player moved, the field advanced and scanned from the pre-move position, the score rises by the points awarded, and the state becomes GAMEOVER iff a wall is struck; the flags of culled obstacles move into the retired points; the invariant is kept |
| `Simulation.Game.Advance` | src/App.jsx:126-171 | a tick in PLAYING: the same new state as `Tick` states, without the guard |
| `Simulation.Game.UpdateObstacles` | src/App.jsx:141-171 | the field is FieldAfter marked by the scan, the last spawn time moves to now iff a spawn was due, the retired points grow by exactly the flags of the culled obstacles, and the retired points plus the live flags grow by exactly the points awarded |
| `Simulation.Game.ThemeEffect` | src/App.jsx:106-111 | the theme index follows NextTheme and stays a palette index |
| `Simulation.Game.HighScoreEffect` | src/App.jsx:186-188 | the high score never falls and is at least the score afterwards |

## Left out

- Rendering is not modelled: the JSX, the `IronManCharacter` and `Asteroid`
  components, the star field, the HUD and the overlays. They are presentation.
- The palette's names and colours are not modelled. Only its size (5) matters to the simulation.
- `requestAnimationFrame` and `cancelAnimationFrame` scheduling is host
  scheduling. One call of `Tick` stands for one scheduled frame. Cancelling on
  game over appears only as "a tick outside PLAYING changes nothing".
- Registering and removing the window event listeners is I/O plumbing. Only the
  add/delete semantics of the handlers are modelled.
- `Date.now()`, `Math.random()` and the window size are foreign calls. They
  are parameters of `Tick` and `StartGame`.
- `bgOffset`, the background scroll, is presentation only.
- React's state batching and effect scheduling are not modelled. A tick is one
  atomic update. The theme and high-score effects are separate methods that a
  caller runs after a tick, as React runs them after the render.
- Floating point: `topHeight` is a Dafny `real`. IEEE rounding of the spawn
  formula and of the collision comparisons is not modelled.
- Input.Lower: models only ASCII case mapping. JavaScript's full Unicode
  `toLowerCase` is not modelled, since key names such as "ArrowUp" or "W"
  are ASCII.
- ScoreSignals.ThemeTracksScore: it covers a score that rises one point per
  render. When one tick passes two obstacles and the score jumps over a
  multiple of 5, the effect does not fire at that tier. `NextTheme` states that
  behaviour, but no lemma describes the theme index along such a run.
- `highScore >= score` is not part of the class invariant. It holds only after
  `HighScoreEffect`, not between a tick and that effect.
