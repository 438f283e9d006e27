/**
 * The conversion helpers of script.js:1-47: the sRGB transfer curves, the two fixed
 * 3x3 maps with a cube root between them (sRGB -> OKLab), and the way back with a plain
 * cube and a final clamp of every channel to [0,1] (OKLab -> sRGB).
 */
module ColorSpace {

  /**
   * The two operations of script.js whose real values the model leaves open:
   * `x ** y` for the non-integer exponents 2.4 and 1/2.4 (script.js:3, script.js:5),
   * and Math.cbrt (script.js:17-19). Every result below holds whatever they are,
   * unless a lemma states an assumption about them in its requires.
   */
  datatype MathFns = MathFns(pow: (real, real) -> real, cbrt: real -> real)

  /** Gamma-encoded (or, after SrgbToLinear, linear) red, green and blue. */
  datatype Rgb = Rgb(r: real, g: real, b: real)

  /** An OKLab colour: lightness L and the two chromatic axes a, b. */
  datatype Lab = Lab(L: real, a: real, b: real)

  /** The cone-like intermediate (l, m, s) triple, before or after its cube root. */
  datatype Lms = Lms(l: real, m: real, s: real)

  predicate InUnit(x: real) {
    0.0 <= x <= 1.0
  }

  predicate InUnitCube(c: Rgb) {
    InUnit(c.r) && InUnit(c.g) && InUnit(c.b)
  }

  /** srgbToLinear (script.js:3). */
  function SrgbToLinear(fns: MathFns, c: real): real {
    if c <= 0.04045 then c / 12.92 else fns.pow((c + 0.055) / 1.055, 2.4)
  }

  /** linearToSrgb (script.js:5); `**` binds tighter than `*`, so only c is raised. */
  function LinearToSrgb(fns: MathFns, c: real): real {
    if c <= 0.0031308 then 12.92 * c else 1.055 * fns.pow(c, 1.0 / 2.4) - 0.055
  }

  /** Math.max and Math.min on two numbers. */
  function Max(x: real, y: real): real {
    if x < y then y else x
  }

  function Min(x: real, y: real): real {
    if y < x then y else x
  }

  /** Math.min(Math.max(x, 0), 1), as on script.js:43-45. */
  function Clamp01(x: real): (r: real)
    ensures InUnit(r)
    ensures InUnit(x) ==> r == x
    ensures x < 0.0 ==> r == 0.0
    ensures x > 1.0 ==> r == 1.0
  {
    Min(Max(x, 0.0), 1.0)
  }

  /** The first map of rgbToOklab, linear RGB to (l, m, s) (script.js:13-15). */
  function LinearToLms(c: Rgb): Lms {
    Lms(0.4122214708 * c.r + 0.5363325363 * c.g + 0.0514459929 * c.b,
        0.2119034982 * c.r + 0.6806995451 * c.g + 0.1073969566 * c.b,
        0.0883024619 * c.r + 0.2817188376 * c.g + 0.6299787005 * c.b)
  }

  /** The second map of rgbToOklab, cube-rooted (l, m, s) to (L, a, b) (script.js:22-24). */
  function LmsToLab(c: Lms): Lab {
    Lab(0.2104542553 * c.l + 0.7936177850 * c.m - 0.0040720468 * c.s,
        1.9779984951 * c.l - 2.4285922050 * c.m + 0.4505937099 * c.s,
        0.0259040371 * c.l + 0.7827717662 * c.m - 0.8086757660 * c.s)
  }

  /** The first map of oklabToRgb, (L, a, b) back to cube-rooted (l, m, s) (script.js:30-32). */
  function LabToLms(c: Lab): Lms {
    Lms(c.L + 0.3963377774 * c.a + 0.2158037573 * c.b,
        c.L - 0.1055613458 * c.a - 0.0638541728 * c.b,
        c.L - 0.0894841775 * c.a - 1.2914855480 * c.b)
  }

  /** The last map of oklabToRgb, (l, m, s) back to linear RGB (script.js:38-40). */
  function LmsToLinear(c: Lms): Rgb {
    Rgb( 4.0767416621 * c.l - 3.3077115913 * c.m + 0.2309699292 * c.s,
        -1.2684380046 * c.l + 2.6097574011 * c.m - 0.3413193965 * c.s,
        -0.0041960863 * c.l - 0.7034186147 * c.m + 1.7076147010 * c.s)
  }

  /** `x ** 3` with the integer exponent 3 (script.js:34-36): an exact cube. */
  function Cube(x: real): real {
    x * x * x
  }

  /** rgbToOklab (script.js:8-26). */
  function RgbToOklab(fns: MathFns, c: Rgb): Lab {
    var lin := Rgb(SrgbToLinear(fns, c.r), SrgbToLinear(fns, c.g), SrgbToLinear(fns, c.b));
    var lms := LinearToLms(lin);
    LmsToLab(Lms(fns.cbrt(lms.l), fns.cbrt(lms.m), fns.cbrt(lms.s)))
  }

  /** The three linearToSrgb values oklabToRgb computes before it clamps them (script.js:30-45). */
  function OklabToUnclampedRgb(fns: MathFns, c: Lab): Rgb {
    var lms := LabToLms(c);
    var lin := LmsToLinear(Lms(Cube(lms.l), Cube(lms.m), Cube(lms.s)));
    Rgb(LinearToSrgb(fns, lin.r), LinearToSrgb(fns, lin.g), LinearToSrgb(fns, lin.b))
  }

  /**
   * oklabToRgb (script.js:29-47): whatever L, a and b are, and whatever the
   * transcendental functions return, every channel it hands back lies in [0,1].
   * This holds over exact reals. With doubles, a large enough input overflows the cube
   * to Infinity, the second map then yields NaN, and the clamp lets NaN through.
   */
  function OklabToRgb(fns: MathFns, c: Lab): (rgb: Rgb)
    ensures InUnitCube(rgb)
  {
    var e := OklabToUnclampedRgb(fns, c);
    Rgb(Clamp01(e.r), Clamp01(e.g), Clamp01(e.b))
  }

  /** The clamp only acts on out-of-gamut channels: an in-gamut result passes unchanged. */
  lemma OklabToRgbKeepsInGamut(fns: MathFns, c: Lab)
    requires InUnitCube(OklabToUnclampedRgb(fns, c))
    ensures OklabToRgb(fns, c) == OklabToUnclampedRgb(fns, c)
  {
  }

  /** The clamp never reorders two channel values, and clamping twice is clamping once. */
  lemma ClampMonotone(x: real, y: real)
    requires x <= y
    ensures Clamp01(x) <= Clamp01(y)
    ensures Clamp01(Clamp01(x)) == Clamp01(x)
  {
  }

  /** Both curves map 0 to 0. */
  lemma TransferCurvesFixZero(fns: MathFns)
    ensures SrgbToLinear(fns, 0.0) == 0.0 && LinearToSrgb(fns, 0.0) == 0.0
  {
  }

  /**
   * On the part of the curve where both branches are linear the two curves invert each
   * other exactly: decoding a value up to 12.92 * 0.0031308 and encoding the result
   * gives the value back, and so does encoding a value up to 0.0031308 and decoding.
   */
  lemma LinearSegmentsInvert(fns: MathFns, c: real)
    ensures c <= 12.92 * 0.0031308 ==> LinearToSrgb(fns, SrgbToLinear(fns, c)) == c
    ensures c <= 0.0031308 ==> SrgbToLinear(fns, LinearToSrgb(fns, c)) == c
  {
    if c <= 12.92 * 0.0031308 {
      assert c / 12.92 <= 0.0031308;
    }
  }

  /**
   * The two thresholds do not meet exactly: 0.04045 still decodes on the linear branch,
   * but its image lies above 0.0031308, so encoding it back takes the power branch.
   */
  lemma ThresholdsDoNotMeet(fns: MathFns)
    ensures SrgbToLinear(fns, 0.04045) == 0.04045 / 12.92 > 0.0031308
    ensures LinearToSrgb(fns, SrgbToLinear(fns, 0.04045))
         == 1.055 * fns.pow(0.04045 / 12.92, 1.0 / 2.4) - 0.055
  {
  }

  /**
   * 8-bit channels never fall in that gap: a channel k/255 is on the linear branch
   * for k <= 10, where encoding undoes decoding exactly, and on the power branch above.
   */
  lemma ByteChannelsOnLinearSegment(fns: MathFns, k: nat)
    requires k < 256
    ensures k <= 10 ==> SrgbToLinear(fns, k as real / 255.0) == k as real / 255.0 / 12.92
    ensures k <= 10 ==> LinearToSrgb(fns, SrgbToLinear(fns, k as real / 255.0)) == k as real / 255.0
    ensures k > 10 ==>
      SrgbToLinear(fns, k as real / 255.0) == fns.pow((k as real / 255.0 + 0.055) / 1.055, 2.4)
  {
    if k <= 10 {
      assert k as real / 255.0 <= 12.92 * 0.0031308;
      LinearSegmentsInvert(fns, k as real / 255.0);
    } else {
      assert k as real / 255.0 > 0.04045;
    }
  }

  /** Linear light at or below zero always comes out as a 0 channel. */
  lemma NonPositiveLightIsZeroChannel(fns: MathFns, c: real)
    requires c <= 0.0
    ensures Clamp01(LinearToSrgb(fns, c)) == 0.0
  {
  }

  /** Black goes to the OKLab origin, given only that the cube root of 0 is 0. */
  lemma BlackToOrigin(fns: MathFns)
    requires fns.cbrt(0.0) == 0.0
    ensures RgbToOklab(fns, Rgb(0.0, 0.0, 0.0)) == Lab(0.0, 0.0, 0.0)
  {
    TransferCurvesFixZero(fns);
    LinearToLmsFixesZero();
    LmsToLabFixesZero();
  }

  /** The OKLab origin goes back to black, whatever the transcendental functions are. */
  lemma OriginToBlack(fns: MathFns)
    ensures OklabToRgb(fns, Lab(0.0, 0.0, 0.0)) == Rgb(0.0, 0.0, 0.0)
  {
    var zero := Lms(0.0, 0.0, 0.0);
    assert OklabToUnclampedRgb(fns, Lab(0.0, 0.0, 0.0)) == Rgb(0.0, 0.0, 0.0) by {
      LabToLmsFixesZero();
      assert Lms(Cube(0.0), Cube(0.0), Cube(0.0)) == zero;
      LmsToLinearFixesZero();
      TransferCurvesFixZero(fns);
    }
  }

  // Each fixed map is linear, so it sends the zero triple to the zero triple.

  lemma LinearToLmsFixesZero()
    ensures LinearToLms(Rgb(0.0, 0.0, 0.0)) == Lms(0.0, 0.0, 0.0)
  {
  }

  lemma LmsToLabFixesZero()
    ensures LmsToLab(Lms(0.0, 0.0, 0.0)) == Lab(0.0, 0.0, 0.0)
  {
  }

  lemma LabToLmsFixesZero()
    ensures LabToLms(Lab(0.0, 0.0, 0.0)) == Lms(0.0, 0.0, 0.0)
  {
  }

  lemma LmsToLinearFixesZero()
    ensures LmsToLinear(Lms(0.0, 0.0, 0.0)) == Rgb(0.0, 0.0, 0.0)
  {
  }
}
