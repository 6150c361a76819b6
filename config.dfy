/** Tuning constants of the game loop and the vector type shared by its components. */
module Config {
  /** Pixels per tick the player moves along an axis while a direction is held. */
  const MoveSpeed: int := 9
  /** Pixels per tick every obstacle moves to the left. */
  const ScrollSpeed: int := 6
  const ObstacleWidth: int := 100
  /** Height of the opening between the top and the bottom wall of an obstacle. */
  const ObstacleGap: int := 220
  /** Milliseconds that must pass, strictly, between two spawns. */
  const SpawnRate: int := 1333
  const PlayerWidth: int := 110
  const PlayerHeight: int := 65
  /** Smallest coordinate the player may take on either axis. */
  const MinPos: int := 20
  /** Number of entries in the background palette. */
  const ThemeCount: int := 5

  /** A position or a velocity in screen pixels; y grows downwards. */
  datatype Vec = Vec(x: int, y: int)
}
