/**
 * The `RGB8` colour of the smart_leds crate. Its arithmetic comes from a crate
 * whose code is not part of this model; channel addition is isolated in AddChannel.
 */
module Rgb {
  import opened Prelude

  datatype Rgb8 = Rgb8(r: u8, g: u8, b: u8)

  /** `RGB8::default()`: every channel off. */
  const Black := Rgb8(0, 0, 0)

  /**
   * Assumption: `RGB8 + RGB8` adds the channels as plain `u8` additions, which
   * wrap modulo 256 in a build without overflow checks. Below 256 it is the exact sum.
   */
  function AddChannel(a: u8, b: u8): (c: u8)
    ensures a + b < 0x100 ==> c == a + b
    ensures a + b >= 0x100 ==> c == a + b - 0x100
  {
    (a + b) % 0x100
  }

  /** `RGB8 + RGB8` and `+=`, channel by channel. */
  function Add(x: Rgb8, y: Rgb8): Rgb8 {
    Rgb8(AddChannel(x.r, y.r), AddChannel(x.g, y.g), AddChannel(x.b, y.b))
  }

  /** `RGB8 / u8`, channel by channel. */
  function DivScalar(x: Rgb8, d: u8): (y: Rgb8)
    requires d > 0
    ensures d == 1 ==> y == x
  {
    Rgb8(x.r / d, x.g / d, x.b / d)
  }
}
