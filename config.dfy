/** The game's tuning constants and its three phases, as declared at the top of index.js. */
module Config {

  const BIRD_SPAWN_POS_Y: real := 5.0
  const BIRD_FLOAT_STRENGTH: real := 0.3
  const GRAVITY: real := -0.01
  const JUMP_STRENGTH: real := 0.2
  const BIRD_SIZE: real := 1.0
  const PIPE_RADIUS: real := 1.5
  const PIPE_SPAWN_POS_X: real := 25.0
  const SPEED: real := 2.0
  const PIPE_SPAWN_TIME: nat := 100
  const PIPE_TOTAL_HEIGHT: real := 14.0
  const PIPE_GAP_SIZE: real := 0.3
  const PIPE_MIN_SIZE: real := 0.2
  const CLOUD_COUNT: nat := 8
  const SMOKE_PARTICLE_COUNT: nat := 10

  /** Horizontal distance everything scrolls per frame (`objectMoveSpeed` in animate). */
  const OBJECT_MOVE_SPEED: real := 0.05 * SPEED

  /** The bird's x coordinate is never written, so it stays at the origin. */
  const BIRD_X: real := 0.0

  /** Key code of the space bar, the only key that makes the bird jump. */
  const SPACE_KEY: int := 32

  /** The `states` enumeration: MENU = 0, PLAY = 1, SCORE = 2. */
  datatype Phase = Menu | Play | Score
}
