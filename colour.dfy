/**
 * The two colour helpers of the particle widget: the rainbow colour cycle
 * (`generateRainbowColor`) and the HSL to RGB conversion used when drawing.
 */
module Colour {
  import opened JsMath

  /** Hue in degrees, saturation and lightness in percent. */
  datatype Hsl = Hsl(hue: real, saturation: real, lightness: real)

  /** One colour channel in 0..255 for each of red, green and blue. */
  datatype Rgb = Rgb(r: int, g: int, b: int)

  /**
   * The rainbow colour of particle `particleIndex` at time `time` (seconds),
   * advanced from `baseHue`.  The hue turns 30 degrees per second and is
   * staggered by 8 degrees per particle; saturation and lightness swing by
   * 15 points around 70 and 55.
   */
  function GenerateRainbowColor(m: MathLib, baseHue: real, time: real, particleIndex: int): (c: Hsl)
    requires Bounded(m)
    ensures 0.0 <= baseHue + time * 30.0 + particleIndex as real * 8.0 ==> 0.0 <= c.hue < 360.0
    ensures -360.0 < c.hue < 360.0
    ensures 55.0 <= c.saturation <= 85.0
    ensures 40.0 <= c.lightness <= 70.0
  {
    var hue := Rem(baseHue + time * 30.0 + particleIndex as real * 8.0, 360.0);
    var saturation := 70.0 + m.sin(time + particleIndex as real) * 15.0;
    var lightness := 55.0 + m.sin(time * 2.0 + particleIndex as real * 0.3) * 15.0;
    Hsl(hue, saturation, lightness)
  }

  /**
   * The helper `f(n)` inside `hslToRgb`, with hue, saturation and lightness
   * already scaled to fractions and `a = s * min(l, 1 - l)`.
   */
  function Channel(n: real, h: real, l: real, a: real): real {
    var k := Rem(n + h * 12.0, 12.0);
    l - a * Max(Min(Min(k - 3.0, 9.0 - k), 1.0), -1.0)
  }

  /** `hslToRgb`: the channels taken at offsets 0, 8 and 4, rounded. */
  function HslToRgb(h: real, s: real, l: real): Rgb {
    Rounded(h / 360.0, l / 100.0, Amplitude(s, l))
  }

  /** The `a = s * min(l, 1 - l)` of `hslToRgb`, on percentages. */
  function Amplitude(s: real, l: real): real {
    s / 100.0 * Min(l / 100.0, 1.0 - l / 100.0)
  }

  /** The three rounded channels of `hslToRgb`, in red, green, blue order. */
  function Rounded(h: real, l: real, a: real): Rgb {
    Rgb(Round(Channel(0.0, h, l, a) * 255.0), Round(Channel(8.0, h, l, a) * 255.0), Round(Channel(4.0, h, l, a) * 255.0))
  }

  /**
   * For saturation and lightness in [0, 100] percent every channel
   * `hslToRgb` gives is in 0..255, whatever the hue.
   */
  lemma HslToRgbChannels(h: real, s: real, l: real)
    requires 0.0 <= s <= 100.0 && 0.0 <= l <= 100.0
    ensures var c := HslToRgb(h, s, l); IsChannel(c.r) && IsChannel(c.g) && IsChannel(c.b)
  {
    var lf := l / 100.0;
    var mn := Min(lf, 1.0 - lf);
    assert 0.0 <= Amplitude(s, l) <= mn by {
      ScaleDown(s / 100.0, mn);
    }
    RoundedChannels(h / 360.0, lf, Amplitude(s, l));
  }

  /** The rounded channels are valid channels when `a` is at most min(l, 1 - l). */
  lemma RoundedChannels(h: real, l: real, a: real)
    requires 0.0 <= a <= Min(l, 1.0 - l)
    ensures var c := Rounded(h, l, a); IsChannel(c.r) && IsChannel(c.g) && IsChannel(c.b)
  {
    ChannelDrawable(0.0, h, l, a);
    ChannelDrawable(8.0, h, l, a);
    ChannelDrawable(4.0, h, l, a);
  }

  predicate IsChannel(v: int) {
    0 <= v <= 255
  }

  /** The channel helper never leaves [l - a, l + a]. */
  lemma ChannelNear(n: real, h: real, l: real, a: real)
    requires 0.0 <= a
    ensures l - a <= Channel(n, h, l, a) <= l + a
  {
    var k := Rem(n + h * 12.0, 12.0);
    var c := Max(Min(Min(k - 3.0, 9.0 - k), 1.0), -1.0);
    assert -1.0 <= c <= 1.0;
    assert -a <= a * c <= a by {
      assert 0.0 <= a * (1.0 - c);
      assert 0.0 <= a * (c + 1.0);
    }
  }

  /** A fraction in [0, 1] scaled to 255 and rounded is a valid channel. */
  lemma RoundedChannel(v: real)
    requires 0.0 <= v <= 1.0
    ensures IsChannel(Round(v * 255.0))
  {
    assert 0.0 <= v * 255.0 <= 255.0;
  }

  /** A fraction of a non-negative quantity lies between zero and it. */
  lemma ScaleDown(f: real, v: real)
    requires 0.0 <= f <= 1.0 && 0.0 <= v
    ensures 0.0 <= f * v <= v
  {
    assert 0.0 <= (1.0 - f) * v;
  }

  /** A channel of a colour whose `a` respects the lightness is a valid channel. */
  lemma ChannelDrawable(n: real, h: real, l: real, a: real)
    requires 0.0 <= a <= Min(l, 1.0 - l)
    ensures IsChannel(Round(Channel(n, h, l, a) * 255.0))
  {
    ChannelNear(n, h, l, a);
    RoundedChannel(Channel(n, h, l, a));
  }

  /** With zero saturation the colour is a grey: all three channels agree. */
  lemma GreyWithoutSaturation(h: real, l: real)
    ensures var c := HslToRgb(h, 0.0, l); c.r == c.g == c.b
  {
    assert Amplitude(0.0, l) == 0.0;
  }
}
