/** Constants of `params.hpp`, with doubles read as reals. */
module Params {

  // M_PI to double precision.
  const PI: real := 3.141592653589793

  const RATE_HZ: nat := 400

  const COMMAND_DELAY_SEC: real := 0.5
  const COMMAND_REPEAT_SEC: real := 1.0
  const MESSAGE_TIMEOUT_SEC: real := 1.0

  const HANDOFF_RUNTIME: real := 8.0

  const INITIAL_X: real := 0.0
  const INITIAL_Y: real := -1.0
  const INITIAL_Z: real := -1.0
  const INITIAL_ROLL: real := 0.0
  const INITIAL_PITCH: real := 0.0
  const INITIAL_YAW: real := 0.0

  const POS_TOL: real := 0.15
  const YAW_TOL: real := 5.0 * PI / 180.0
  const ATT_TOL: real := 5.0 * PI / 180.0
  const PITCH_MAX: real := 60.0 * PI / 180.0

  const BETA_LIMIT_RAD: real := PI
  const ALPHA_LIMIT_RAD: real := PI / 6.0

  const DDS_RECEIVE_TIMEOUT_SEC: real := 0.5
  const SERVO_RETURN_TIME_SEC: real := 5.0

  const PPR_PER_RAD: real := 4096.0 / (2.0 * PI)
}
