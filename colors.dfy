/** RGB colours with components in [0, 1] (color/Color.java). */
module Colors {
  import opened Wrappers
  import opened RealMath

  /** A colour; red(), green() and blue() are the datatype's destructors. */
  datatype Color = Color(r: real, g: real, b: real)

  /** What the constructor guarantees of every colour. */
  predicate InGamut(c: Color) {
    0.0 <= c.r <= 1.0 && 0.0 <= c.g <= 1.0 && 0.0 <= c.b <= 1.0
  }

  /** The constructor: fails when a component lies outside [0, 1]. */
  function NewColor(r: real, g: real, b: real): (res: Result<Color>)
    ensures res.Ok? <==> InGamut(Color(r, g, b))
    ensures res.Ok? ==> res.value.r == r && res.value.g == g && res.value.b == b
    ensures res.Err? ==> res.error == IllegalArgument
  {
    if r > 1.0 || r < 0.0 || g > 1.0 || g < 0.0 || b > 1.0 || b < 0.0 then Err(IllegalArgument)
    else Ok(Color(r, g, b))
  }

  const BLACK: Color := Color(0.0, 0.0, 0.0)
  const WHITE: Color := Color(1.0, 1.0, 1.0)
  const RED: Color := Color(1.0, 0.0, 0.0)
  const BLUE: Color := Color(0.0, 0.0, 1.0)
  const GREEN: Color := Color(0.0, 1.0, 0.0)

  /** One component of a mix: the proportion p of a and 1 - p of b. */
  function Blend(p: real, a: real, b: real): (v: real)
    requires 0.0 <= p <= 1.0 && 0.0 <= a <= 1.0 && 0.0 <= b <= 1.0
    ensures 0.0 <= v <= 1.0
    ensures (a <= b ==> a <= v <= b) && (b <= a ==> b <= v <= a)
  {
    BlendBounds(p, a, b);
    Times(p, a) + Times(1.0 - p, b)
  }

  lemma BlendBounds(p: real, a: real, b: real)
    requires 0.0 <= p <= 1.0 && 0.0 <= a <= 1.0 && 0.0 <= b <= 1.0
    ensures a <= b ==> a <= Times(p, a) + Times(1.0 - p, b) <= b
    ensures b <= a ==> b <= Times(p, a) + Times(1.0 - p, b) <= a
  {
    assert Times(p, a) + Times(1.0 - p, b) == b + Times(p, a - b);
    TimesProportion(p, a - b);
  }

  /**
   * mixWith: fails when the proportion lies outside [0, 1]; otherwise each
   * component is p of this colour and 1 - p of that one, which stays in gamut.
   */
  function MixWith(c: Color, that: Color, p: real): (res: Result<Color>)
    requires InGamut(c) && InGamut(that)
    ensures res.Ok? <==> 0.0 <= p <= 1.0
    ensures res.Err? ==> res.error == IllegalArgument
    ensures res.Ok? ==> InGamut(res.value)
    ensures res.Ok? ==> res.value == Color(Blend(p, c.r, that.r), Blend(p, c.g, that.g), Blend(p, c.b, that.b))
  {
    if p > 1.0 || p < 0.0 then Err(IllegalArgument)
    else NewColor(Blend(p, c.r, that.r), Blend(p, c.g, that.g), Blend(p, c.b, that.b))
  }

  /** The whole of this colour is this colour, none of it is the other one. */
  lemma MixEndpoints(c: Color, that: Color)
    requires InGamut(c) && InGamut(that)
    ensures MixWith(c, that, 1.0) == Ok(c)
    ensures MixWith(c, that, 0.0) == Ok(that)
  {
  }

  /**
   * The transfer function of IEC 61966-2-1: linear with slope 12.92 up to
   * 0.0031308, then 1.055 * v^(1/2.4) - 0.055.
   */
  function GammaEncode(m: Transcendental, v: real): real {
    if v <= 0.0031308 then 12.92 * v else 1.055 * m.pow(v, SRGB_EXPONENT) - 0.055
  }

  /** The curve maps [0, 1] into [0, 1]. */
  lemma GammaEncodeInUnit(m: Transcendental, v: real)
    requires PowLaw(m.pow)
    requires 0.0 <= v <= 1.0
    ensures 0.0 <= GammaEncode(m, v) <= 1.0
  {
    if v > 0.0031308 {
      assert m.pow(0.0031308, SRGB_EXPONENT) <= m.pow(v, SRGB_EXPONENT) <= m.pow(1.0, SRGB_EXPONENT);
    }
  }

  /** sRGBEncode: the transfer function scaled to [0, max] and truncated. */
  function SRGBEncode(m: Transcendental, v: real, max: int): int {
    Trunc(Times(GammaEncode(m, v), max as real))
  }

  /** For a component in [0, 1] the encoding lies in [0, max]. */
  lemma SRGBEncodeInRange(m: Transcendental, v: real, max: int)
    requires PowLaw(m.pow)
    requires 0.0 <= v <= 1.0 && 0 <= max
    ensures 0 <= SRGBEncode(m, v, max) <= max
  {
    GammaEncodeInUnit(m, v);
    TimesProportion(GammaEncode(m, v), max as real);
  }

  /**
   * Within each branch the curve is nondecreasing. Across the threshold it is
   * not: the power branch starts slightly below 12.92 * 0.0031308.
   */
  lemma GammaEncodeMonotoneOnBranches(m: Transcendental, u: real, v: real)
    requires PowLaw(m.pow)
    requires 0.0 <= u <= v
    requires v <= 0.0031308 || 0.0031308 < u
    ensures GammaEncode(m, u) <= GammaEncode(m, v)
  {
    if 0.0031308 < u {
      assert m.pow(u, SRGB_EXPONENT) <= m.pow(v, SRGB_EXPONENT);
    }
  }

  /** Two components on the same side of the threshold encode in order. */
  lemma SRGBEncodeMonotoneOnBranches(m: Transcendental, u: real, v: real, max: int)
    requires PowLaw(m.pow)
    requires 0.0 <= u <= v <= 1.0 && 0 <= max
    requires v <= 0.0031308 || 0.0031308 < u
    ensures SRGBEncode(m, u, max) <= SRGBEncode(m, v, max)
  {
    GammaEncodeMonotoneOnBranches(m, u, v);
    GammaEncodeInUnit(m, u);
    var e1, e2 := GammaEncode(m, u), GammaEncode(m, v);
    assert Times(e2, max as real) - Times(e1, max as real) == Times(e2 - e1, max as real);
    TimesNonNegative(e2 - e1, max as real);
    TimesNonNegative(e1, max as real);
  }

  /** The 8-bit channels of a colour. */
  function Channels(m: Transcendental, c: Color): (ch: (int, int, int))
    requires PowLaw(m.pow) && InGamut(c)
    ensures 0 <= ch.0 < 256 && 0 <= ch.1 < 256 && 0 <= ch.2 < 256
  {
    SRGBEncodeInRange(m, c.r, 255);
    SRGBEncodeInRange(m, c.g, 255);
    SRGBEncodeInRange(m, c.b, 255);
    (SRGBEncode(m, c.r, 255), SRGBEncode(m, c.g, 255), SRGBEncode(m, c.b, 255))
  }

  /**
   * asPackedRGB: red << 16 | green << 8 | blue. The encoded channels lie in
   * [0, 255], so the shifted fields do not overlap and the bitwise or is a sum.
   */
  function AsPackedRGB(m: Transcendental, c: Color): (packed: int)
    requires PowLaw(m.pow) && InGamut(c)
    ensures 0 <= packed < 0x100_0000
    ensures packed / 0x1_0000 == Channels(m, c).0
    ensures (packed / 0x100) % 0x100 == Channels(m, c).1
    ensures packed % 0x100 == Channels(m, c).2
  {
    var ch := Channels(m, c);
    Unpack(ch.0, ch.1, ch.2);
    ch.0 * 0x1_0000 + ch.1 * 0x100 + ch.2
  }

  /** Three bytes packed into 24 bits unpack to themselves. */
  lemma Unpack(r: int, g: int, b: int)
    requires 0 <= r < 256 && 0 <= g < 256 && 0 <= b < 256
    ensures 0 <= r * 0x1_0000 + g * 0x100 + b < 0x100_0000
    ensures (r * 0x1_0000 + g * 0x100 + b) / 0x1_0000 == r
    ensures ((r * 0x1_0000 + g * 0x100 + b) / 0x100) % 0x100 == g
    ensures (r * 0x1_0000 + g * 0x100 + b) % 0x100 == b
  {
    assert r * 0x1_0000 + g * 0x100 + b == (r * 0x100 + g) * 0x100 + b;
    assert (r * 0x1_0000 + g * 0x100 + b) / 0x100 == r * 0x100 + g;
  }
}
