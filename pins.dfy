/** Values read from the board's digital pins. */
module Pins {

  /** The level a digital pin reports: 0 (low) or 1 (high). */
  type Level = x: int | 0 <= x <= 1
}
