/** Constants and lane geometry shared by the player and the walls of the hexagon arena. */
module Lanes {

  /** Degrees the player turns, and units a wall advances, on one fast tick. */
  const SPEED: int := 2

  /** Radial distance at which every wall of a wave is spawned. */
  const SPAWN_DISTANCE: int := 450

  /** A wall whose advanced distance falls below this is despawned. */
  const DESPAWN_DISTANCE: int := 28

  /** A full turn, in degrees. */
  const FULL_TURN: int := 360

  /** Width of one lane (one edge of the hexagon), in degrees. */
  const LANE_WIDTH: int := 60

  /** Number of lanes of the arena. */
  const LANES: int := 6

  /**
   * Angle (degrees, clockwise from the top) at which a wall in lane `direction`
   * is placed: the middle of that lane's 60-degree sector, from which the
   * lane is recovered by integer division.
   */
  function PlacementAngle(direction: int): (a: int)
    ensures LANE_WIDTH * direction < a < LANE_WIDTH * (direction + 1)
    ensures a - LANE_WIDTH * direction == LANE_WIDTH * (direction + 1) - a
    ensures 0 <= direction < LANES ==> 0 < a < FULL_TURN
    ensures a / LANE_WIDTH == direction
  {
    30 + LANE_WIDTH * direction
  }
}
