/** Types and constants that several modules share. */
module Basics {
  type byte = x: int | 0 <= x < 256

  datatype Option<+T> = None | Some(value: T)

  /** `Uptime::Start()` is 0; `Uptime::Max()` is the largest 64-bit time, and stands for "never". */
  const UPTIME_MAX := 0x7FFF_FFFF_FFFF_FFFF

  /** The largest random draw. */
  const RANDOM_MAX := 0xFFFF_FFFF

  /** The states of a transmitter or a receiver. */
  datatype LinkState = Idle | Connecting | Connected | Broken
}
