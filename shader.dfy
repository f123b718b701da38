/**
 * The artwork plane's fragment shader: per pixel, the bounds check, the
 * choice of texture, the Doppler hue rotation and brightness boost, and
 * the zoom-dependent colour correction. The RGB/HSV conversions are
 * parameters of the model (`ColorSpace`), and so is `log(doppler)`.
 */
module Shader {
  import opened Options
  import opened Transform

  datatype Vec3 = Vec3(x: real, y: real, z: real)

  datatype Vec4 = Vec4(r: real, g: real, b: real, a: real)

  function Rgb(c: Vec4): Vec3 {
    Vec3(c.r, c.g, c.b)
  }

  /** The shader's `rgb2hsv` and `hsv2rgb`; HSV is (hue in turns, saturation, value). */
  datatype ColorSpace = ColorSpace(toHsv: Vec3 -> Vec3, toRgb: Vec3 -> Vec3)

  /** A loaded image, identified by the address it was loaded from. */
  datatype Texture = Texture(src: string)

  /** The shader's uniforms. `baseMap` is the uniform the program calls `map`. */
  datatype Uniforms = Uniforms(
    baseMap: Option<Texture>,
    velocityX: real,
    velocityY: real,
    gamma: real,
    doppler: real,
    directionX: real,
    directionY: real,
    zoomLevel: real,
    highResMap: Option<Texture>,
    useHighRes: bool)

  /** The values the material is created with. */
  const InitialUniforms: Uniforms :=
    Uniforms(None, 0.0, 0.0, 1.0, 1.0, 0.0, 0.0, 1.0, None, false)

  /** The zoom level above which the high-resolution texture is used. */
  const HighResZoom: real := 2.0

  /** A texture coordinate outside the unit square on either axis. */
  predicate OutOfBounds(uv: Vec2) {
    uv.x < 0.0 || uv.x > 1.0 || uv.y < 0.0 || uv.y > 1.0
  }

  predicate SamplesHighRes(u: Uniforms) {
    u.useHighRes && u.zoomLevel > HighResZoom
  }

  /** The texel the shader works on, given what each sampler returns at `uv`. */
  function Sample(u: Uniforms, baseTexel: Vec4, highResTexel: Vec4): Vec4 {
    if SamplesHighRes(u) then highResTexel else baseTexel
  }

  predicate IsInteger(x: real) {
    x == x.Floor as real
  }

  /** GLSL `mod(x, 1.0)`, that is `x - floor(x)`: in [0, 1) and an integer away from `x`. */
  function Fract(x: real): (r: real)
    ensures 0.0 <= r < 1.0
    ensures IsInteger(x - r)
  {
    x - x.Floor as real
  }

  /** Only one value in [0, 1) lies an integer away from `x`. */
  lemma FractUnique(x: real, r: real)
    requires 0.0 <= r < 1.0 && IsInteger(x - r)
    ensures r == Fract(x)
  {
    var n := (x - r).Floor;
    assert n as real <= x < n as real + 1.0;
    assert x.Floor == n;
  }

  /** Hue wraps around: whole turns do not change it. */
  lemma FractPeriodic(x: real, n: int)
    ensures Fract(x + n as real) == Fract(x)
  {
    var r := Fract(x);
    assert (x + n as real) - r == (x - r) + n as real;
    assert ((x - r) + n as real).Floor == (x - r).Floor + n;
    FractUnique(x + n as real, r);
  }

  /** A hue already in [0, 1) is left as it is. */
  lemma FractKeepsUnitInterval(x: real)
    requires 0.0 <= x < 1.0
    ensures Fract(x) == x
  {
    FractUnique(x, x);
  }

  /** `10 * log(doppler) / 360`, as a fraction of a turn. */
  function HueShift(lnDoppler: real): real {
    10.0 * lnDoppler / 360.0
  }

  /** `min(value * doppler, 1.0)`: never above full brightness, exact below it. */
  function Beaming(value: real, doppler: real): (r: real)
    ensures r <= 1.0 && r <= value * doppler
    ensures r == value * doppler || r == 1.0
  {
    if value * doppler < 1.0 then value * doppler else 1.0
  }

  /** A non-negative value stays non-negative, and does not dim when `doppler >= 1`. */
  lemma BeamingBounds(value: real, doppler: real)
    requires 0.0 <= value <= 1.0 && doppler > 0.0
    ensures 0.0 <= Beaming(value, doppler) <= 1.0
    ensures doppler >= 1.0 ==> value <= Beaming(value, doppler)
  {
    var p := value * doppler;
    assert p >= 0.0;
    if doppler >= 1.0 {
      assert value * doppler >= value * 1.0;
    }
  }

  /**
   * The Doppler step on an HSV colour: the hue is rotated by the shift and
   * wrapped into [0, 1), the saturation is kept, the value is boosted.
   */
  function DopplerHsv(hsv: Vec3, doppler: real, lnDoppler: real): (r: Vec3)
    ensures 0.0 <= r.x < 1.0 && IsInteger(hsv.x + HueShift(lnDoppler) - r.x)
    ensures r.y == hsv.y
    ensures r.z <= 1.0
    ensures hsv.z * doppler <= 1.0 ==> r.z == hsv.z * doppler
    ensures hsv.z * doppler > 1.0 ==> r.z == 1.0
  {
    Vec3(Fract(hsv.x + HueShift(lnDoppler)), hsv.y, Beaming(hsv.z, doppler))
  }

  /** GLSL `clamp(x, 0.0, 1.0)`. */
  function ClampUnit(x: real): (r: real)
    ensures 0.0 <= r <= 1.0
    ensures 0.0 <= x <= 1.0 ==> r == x
    ensures x < 0.0 ==> r == 0.0
    ensures x > 1.0 ==> r == 1.0
  {
    if x < 0.0 then 0.0 else if x > 1.0 then 1.0 else x
  }

  function SaturationBoost(zoom: real): real {
    1.0 + (zoom - 1.0) * 0.2
  }

  function ContrastBoost(zoom: real): real {
    1.0 + (zoom - 1.0) * 0.1
  }

  /** `(x - 0.5) * contrastBoost + 0.5` on one channel. */
  function ContrastChannel(x: real, zoom: real): real {
    (x - 0.5) * ContrastBoost(zoom) + 0.5
  }

  function Contrast(color: Vec3, zoom: real): Vec3 {
    Vec3(ContrastChannel(color.x, zoom), ContrastChannel(color.y, zoom), ContrastChannel(color.z, zoom))
  }

  function Abs(x: real): real {
    if x < 0.0 then -x else x
  }

  /**
   * Mid grey is the pivot of the contrast step; zooming in (zoom >= 1)
   * pushes a channel away from it, zooming out (zoom in (0, 1]) pulls it in,
   * and zoom 1 changes nothing.
   */
  lemma ContrastAroundMidGrey(x: real, zoom: real)
    requires zoom > 0.0
    ensures ContrastChannel(0.5, zoom) == 0.5
    ensures zoom == 1.0 ==> ContrastChannel(x, zoom) == x
    ensures zoom >= 1.0 ==> Abs(ContrastChannel(x, zoom) - 0.5) >= Abs(x - 0.5)
    ensures zoom <= 1.0 ==> Abs(ContrastChannel(x, zoom) - 0.5) <= Abs(x - 0.5)
  {
    var k := ContrastBoost(zoom);
    var e := x - 0.5;
    assert ContrastChannel(x, zoom) - 0.5 == e * k;
    assert k > 0.0;
    assert Abs(e * k) == Abs(e) * k by {
      if e < 0.0 { assert e * k < 0.0; }
      else { assert e * k >= 0.0; }
    }
    if zoom >= 1.0 {
      assert Abs(e) * k >= Abs(e) * 1.0;
    } else {
      assert Abs(e) * k <= Abs(e) * 1.0;
    }
  }

  /**
   * The HSV colour `colorCorrect` converts back: hue and value of the
   * contrast-adjusted colour, saturation boosted and clamped to [0, 1]
   * whatever the zoom level.
   */
  function CorrectedHsv(color: Vec3, zoom: real, cs: ColorSpace): (h: Vec3)
    ensures 0.0 <= h.y <= 1.0
    ensures h.x == cs.toHsv(Contrast(color, zoom)).x && h.z == cs.toHsv(Contrast(color, zoom)).z
    ensures 0.0 <= cs.toHsv(Contrast(color, zoom)).y * SaturationBoost(zoom) <= 1.0 ==>
              h.y == cs.toHsv(Contrast(color, zoom)).y * SaturationBoost(zoom)
    ensures cs.toHsv(Contrast(color, zoom)).y * SaturationBoost(zoom) < 0.0 ==> h.y == 0.0
    ensures cs.toHsv(Contrast(color, zoom)).y * SaturationBoost(zoom) > 1.0 ==> h.y == 1.0
  {
    var hsv := cs.toHsv(Contrast(color, zoom));
    hsv.(y := ClampUnit(hsv.y * SaturationBoost(zoom)))
  }

  /** The shader's `colorCorrect(color, zoom)`. */
  function ColorCorrect(color: Vec3, zoom: real, cs: ColorSpace): Vec3 {
    cs.toRgb(CorrectedHsv(color, zoom, cs))
  }

  /** At zoom 1 the correction is a bare round trip through HSV (for a saturation in [0, 1]). */
  lemma ColorCorrectNeutralAtUnitZoom(color: Vec3, cs: ColorSpace)
    requires 0.0 <= cs.toHsv(color).y <= 1.0
    ensures ColorCorrect(color, 1.0, cs) == cs.toRgb(cs.toHsv(color))
  {
    assert Contrast(color, 1.0) == color;
  }

  /**
   * The shader's `main` for the fragment at `uv`, given the texels the two
   * samplers return there: transparent black outside the unit square,
   * otherwise the corrected colour with the sampled texel's alpha.
   */
  function Fragment(uv: Vec2, u: Uniforms, baseTexel: Vec4, highResTexel: Vec4,
                    lnDoppler: real, cs: ColorSpace): (out: Vec4)
    ensures OutOfBounds(uv) ==> out == Vec4(0.0, 0.0, 0.0, 0.0)
    ensures !OutOfBounds(uv) ==> out.a == Sample(u, baseTexel, highResTexel).a
  {
    if OutOfBounds(uv) then Vec4(0.0, 0.0, 0.0, 0.0)
    else
      var texColor := Sample(u, baseTexel, highResTexel);
      var hsv := DopplerHsv(cs.toHsv(Rgb(texColor)), u.doppler, lnDoppler);
      var finalColor := ColorCorrect(cs.toRgb(hsv), u.zoomLevel, cs);
      Vec4(finalColor.x, finalColor.y, finalColor.z, texColor.a)
  }

  /**
   * Only the texel of the sampled tier matters: the high-resolution one
   * when the high-resolution map is in use, the base one otherwise.
   */
  lemma FragmentUsesSampledTier(uv: Vec2, u: Uniforms, base1: Vec4, base2: Vec4,
                                high1: Vec4, high2: Vec4, lnDoppler: real, cs: ColorSpace)
    ensures SamplesHighRes(u) ==>
      Fragment(uv, u, base1, high1, lnDoppler, cs) == Fragment(uv, u, base2, high1, lnDoppler, cs)
    ensures !SamplesHighRes(u) ==>
      Fragment(uv, u, base1, high1, lnDoppler, cs) == Fragment(uv, u, base1, high2, lnDoppler, cs)
  {
  }
}
