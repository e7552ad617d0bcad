/**
 * The particle record of the reveal widget.  One particle stands for one
 * sampled pixel of the rendered text; the simulator rewrites its mutable
 * fields every tick and never touches `originalX`, `originalY`, `color`
 * or `originalAlpha`.
 */
module Particles {
  import opened JsMath

  /** One byte of an RGBA raster, as in a `Uint8ClampedArray`. */
  newtype byte = b: int | 0 <= b < 256

  /** A colour with 0..255 channels and an alpha, as in a CSS `rgba(...)` string. */
  datatype Rgba = Rgba(r: int, g: int, b: int, a: real)

  /** A pixel position on the canvas raster. */
  datatype Point = Point(x: nat, y: nat)

  /**
   * The `Particle` interface.  `velocityX`, `velocityY`, `angle`, `speed`
   * and the two `floatingOffset` fields are set at creation and never read.
   */
  datatype Particle = Particle(
    x: real,
    y: real,
    originalX: real,
    originalY: real,
    color: Rgba,
    opacity: real,
    originalAlpha: real,
    velocityX: real,
    velocityY: real,
    angle: real,
    speed: real,
    floatingOffsetX: real,
    floatingOffsetY: real,
    floatingSpeed: real,
    floatingAngle: real,
    targetOpacity: real,
    sparkleSpeed: real,
    hue: real,
    saturation: real,
    lightness: real)

  /** The squared distance of a particle from the pixel it was sampled from. */
  function HomeDistance2(p: Particle): (d2: real)
    ensures 0.0 <= d2
    ensures AtHome(p) ==> d2 == 0.0
  {
    var dx := p.x - p.originalX;
    var dy := p.y - p.originalY;
    Square(dx);
    Square(dy);
    dx * dx + dy * dy
  }

  /** True when the particle sits exactly on its sampled pixel. */
  predicate AtHome(p: Particle) {
    p.x == p.originalX && p.y == p.originalY
  }

  /** The fields the simulator must never change. */
  predicate SameIdentity(p: Particle, q: Particle) {
    p.originalX == q.originalX && p.originalY == q.originalY &&
    p.color == q.color && p.originalAlpha == q.originalAlpha
  }
}
