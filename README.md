# OKLab colour blend of script.js, modelled in Dafny

`script.js` blends two colours written as `#rrggbb` in the OKLab colour space. This
function is `lerpOklabColor`, and the page uses it to fade a counter's background from
red to green. The blend has four steps:

1. Each colour is read into three channels in [0,1] with `parseInt(slice, 16) / 255`.
2. The channels go through the piecewise sRGB transfer curve, a fixed 3×3 map, a cube
   root and a second 3×3 map, which gives OKLab (L, a, b).
3. L, a and b are interpolated separately, `c1 + (c2 - c1) * t`.
4. The result goes back through the inverse maps, a plain cube and the inverse transfer
   curve. Each channel is clamped to [0,1] and written with `toHex`:
   `Math.round(x * 255).toString(16).padStart(2, '0')`.

The model has three modules, one file each:

- `HexCodec` (`hex_codec.dfy`) models the number/text steps: `parseInt(_, 16)` on digit
  strings (`HexValue`), `toString(16)` for any integer (`NatToHex`, `IntToHex`),
  `padStart` (`PadStart`), `Math.round` (`Round`) and the `toHex` arrow (`ToHex`).
- `ColorSpace` (`color_space.dfy`) models `srgbToLinear`, `linearToSrgb`, `rgbToOklab`
  and `oklabToRgb`. Each of the four fixed maps is a function with the source's
  coefficients, written as exact real arithmetic.
- `Interpolation` (`interpolation.dfy`) models reading the two colours, the per-component
  lerp, writing the result, and `lerpOklabColor` itself.

Channels are `real`. The source also uses `x ** 2.4`, `x ** (1/2.4)` and `Math.cbrt`,
whose values the model leaves open. They are passed in as the fields `pow` and `cbrt` of a
`MathFns` value. Every result holds for every choice of them, except where a lemma
requires `cbrt(0) == 0`. `l_ ** 3` has an integer exponent and is modelled exactly as a
cube.

The code does not validate its input, and the model follows the code. The only demand
on an input is `HasHexChannels`. Characters 1 to 6 must be hex digits, because those
are the characters the three slices read. The code never looks at character 0, so the
leading `#` is not checked. Character 0 only has to be one UTF-16 code unit (below
U+10000). `slice` counts code units, and a character outside the Basic Multilingual
Plane would shift all three slices by one.

## Model

| member | source | states |
|---|---|---|
| `HexCodec.DigitValue` | script.js:53-60 | parseInt reads each of 0-9, a-f, A-F as a digit value below 16 |
| `HexCodec.DigitChar` | script.js:71 | toString(16) writes every value below 16 as a lower-case digit that reads back as that value |
| `HexCodec.HexValue` | script.js:53-60 | a string of k hex digits denotes a number below 16^k |
| `HexCodec.NatToHex` | script.js:71 | toString(16) of n >= 0 is non-empty lower-case hex with no leading zero; it has one digit exactly when n < 16 and at most two when n < 256 |
| `HexCodec.IntToHex` | script.js:71 | toString(16) starts with '-' exactly when the number is negative |
| `HexCodec.PadStart` | script.js:71 | padStart gives a string of length max(length of s, width) that ends with s and has only fill characters before it |
| `HexCodec.Round` | script.js:71 | Math.round(x) is the integer n with x - 1/2 < n <= x + 1/2 (halves round up) |
| `HexCodec.HexValueOfNatToHex` | script.js:53-71 | parseInt(n.toString(16), 16) == n for every n >= 0 |
| `HexCodec.ByteToHex` | script.js:71 | for 0 <= n < 256, toString(16) then padStart(2, '0') gives exactly the high digit then the low digit of n |
| `HexCodec.ToHexOfByte` | script.js:71 | toHex(n/255) is the two digits of n for every 8-bit n |
| `HexCodec.ToHexOfUnitChannel` | script.js:71 | for a channel x in [0,1], toHex yields exactly two lower-case hex digits ("00".."ff") denoting round(255·x), which lies in 0..255 |
| `HexCodec.NatToHexLong` | script.js:71 | toString(16) of n >= 256 has at least three digits |
| `HexCodec.ToHexShape` | script.js:71 | for every x, toHex(x) is two lower-case hex digits exactly when -1/510 <= x < 511/510 (255·x rounds into 0..255); it starts with '-' exactly when x < -1/510, and has three or more digits when x >= 511/510 |
| `HexCodec.ToHexOutsideUnit` | script.js:71 | two sample inputs: toHex(-1) = "-ff" and toHex(2) = "1fe" |
| `HexCodec.ChannelRoundTrip` | script.js:53-71 | for every pair p of hex digits and its value n = parseInt(p, 16), writing the channel n/255 with toHex gives p back, lower-cased |
| `HexCodec.ChannelQuantization` | script.js:53-71 | writing a channel in [0,1] with toHex and reading it back moves it by at most 1/510 |
| `ColorSpace.Clamp01` | script.js:42-46 | min(max(x, 0), 1) lies in [0,1], is x when x is in [0,1], 0 below and 1 above |
| `ColorSpace.OklabToRgb` | script.js:29-47 | every channel oklabToRgb returns lies in [0,1], for all L, a, b and all values of pow |
| `ColorSpace.OklabToRgbKeepsInGamut` | script.js:42-46 | when all three encoded channels are already in [0,1] the clamp returns them unchanged |
| `ColorSpace.ClampMonotone` | script.js:42-46 | the clamp keeps the order of two values, and clamping twice equals clamping once |
| `ColorSpace.TransferCurvesFixZero` | script.js:3-5 | both transfer curves map 0 to 0 |
| `ColorSpace.LinearSegmentsInvert` | script.js:3-5 | on the range where both curves take the linear branch, each curve exactly undoes the other |
| `ColorSpace.ThresholdsDoNotMeet` | script.js:3-5 | 0.04045 decodes on the linear branch to a value above 0.0031308, so encoding it back takes the power branch |
| `ColorSpace.ByteChannelsOnLinearSegment` | script.js:3-5 | an 8-bit channel k/255 decodes on the linear branch for k <= 10, where encoding gives it back exactly, and on the power branch for k >= 11 |
| `ColorSpace.NonPositiveLightIsZeroChannel` | script.js:42-46 | a linear value <= 0 always comes out of oklabToRgb's encode-and-clamp as channel 0 |
| `ColorSpace.BlackToOrigin` | script.js:8-26 | rgbToOklab(0, 0, 0) = (0, 0, 0), given only cbrt(0) = 0 |
| `ColorSpace.OriginToBlack` | script.js:29-47 | oklabToRgb(0, 0, 0) = [0, 0, 0], whatever pow and cbrt are |
| `Interpolation.ParseChannel` | script.js:53-60 | each parsed channel lies in [0,1], and 255 times it, rounded, is the integer the two digits denote |
| `Interpolation.ParseRgb` | script.js:52-61 | all three parsed channels lie in [0,1] |
| `Interpolation.LerpProperties` | script.js:66-68 | the lerp is c1 exactly at t = 0 and c2 exactly at t = 1 (at no other t when c1 ≠ c2), is constant when c1 = c2, and lies between c1 and c2 for t in [0,1] |
| `Interpolation.LerpLabEndpoints` | script.js:66-68 | the interpolated (L, a, b) equals c1 at t = 0 and c2 at t = 1 |
| `Interpolation.LerpLabOfSame` | script.js:66-68 | interpolating a point with itself gives that point at every t |
| `Interpolation.LerpLabComponentwise` | script.js:66-68 | each of L, a, b of the result depends only on the same component of c1 and c2 |
| `Interpolation.LerpLabBetween` | script.js:66-68 | for t in [0,1] each component lies between the endpoints' values; two neutral endpoints (a = 0 or b = 0 on both) give a neutral result on that axis |
| `Interpolation.LerpLabSymmetric` | script.js:66-68 | over the reals, interpolating c1→c2 by t equals interpolating c2→c1 by 1 - t |
| `Interpolation.LerpOklabColor` | script.js:51-73 | for every t and every pow/cbrt, the result has length 7, starts with '#' and is otherwise lower-case hex digits |
| `Interpolation.FormatUnitRgb` | script.js:71-72 | a colour with channels in [0,1] is written as '#' and six lower-case hex digits |
| `Interpolation.FormatParseRoundTrip` | script.js:52-72 | reading `#rrggbb` and writing it straight back gives the input, lower-cased |
| `Interpolation.ParseFormatQuantization` | script.js:52-72 | writing a colour in the unit cube and reading it back moves each channel by at most 1/510 |
| `Interpolation.ParseRgbIgnoresCase` | script.js:53-60 | upper- and lower-case digits parse alike: lower-casing the input leaves the parsed colour unchanged |
| `Interpolation.LerpOklabColorEndpoints` | script.js:51-73 | the result at t = 0 depends on hex1 alone (it equals blending hex1 with itself at any t), and at t = 1 on hex2 alone |
| `Interpolation.LerpOklabColorSymmetric` | script.js:51-73 | over the reals, swapping the colours and replacing t by 1 - t gives the same string |
| `Interpolation.BlackBlendIsBlack` | script.js:51-73 | lerpOklabColor("#000000", "#000000", t) = "#000000" for every t, given only cbrt(0) = 0 |
| `Interpolation.ParseRgbOfPageColors` | script.js:80 | the page's end colours "#ff5f5f" and "#5fff5f" are read as (1, 95/255, 95/255) and (95/255, 1, 95/255) |

## Left out

- The counter, the DOM updates, `setInterval`, `setTimeout` and `console.log`
  (script.js:75-89) are UI and timer plumbing with no logic to state.
- IEEE-754 arithmetic is not modelled: every number is an exact real. Over doubles,
  `c1 + (c2 - c1) * 1` need not equal `c2`. So the t = 1 half of
  `LerpOklabColorEndpoints`, and also `LerpLabSymmetric` and `LerpOklabColorSymmetric`,
  hold for the real-number model only. The t = 0 half also holds over doubles for every
  finite t; an infinite or NaN t gives NaN channels (0 · Infinity at script.js:66).
- `OklabToRgb` and `LerpOklabColor` also hold for the real-number model only. Their
  "every channel in [0,1]" and "`#` and six hex digits for every t" fail over doubles once
  an input is large enough. For a large enough `t`, `l_ ** 3` (script.js:34-36) overflows
  to Infinity. Infinity minus Infinity at script.js:38-40 gives NaN, `Math.max` and
  `Math.min` pass NaN through (script.js:43-45), and `toHex` writes "NaN" (script.js:71).
- The real values of `x ** 2.4`, `x ** (1/2.4)` and `Math.cbrt` are left open and passed
  in as `MathFns`. No accuracy, monotonicity or continuity of the curves is claimed.
- "t = 0 returns hex1" is not claimed, because the model leaves `pow` and `cbrt` open.
  The identity needs `(x ** 2.4) ** (1/2.4) == x` and `cbrt(x)` cubed `== x`, and the
  model makes no assumption about either. With the true functions it would hold after
  `Math.round`. The source's matrices are rounded to 10 decimals, so each inverse pair
  is off from the identity, but only a little. script.js:30-32 against script.js:22-24 is
  off by at most 6.3e-8, and script.js:38-40 against script.js:13-15 by at most 2.4e-10.
  Through the cube and `linearToSrgb` that moves a channel by far less than half an
  8-bit step. 8-bit channels also never fall between the two thresholds
  (`ByteChannelsOnLinearSegment`).
- The OKLab→sRGB→OKLab round trip and "grey stays grey" are not claimed. Since the
  matrices are only approximate inverses, these hold only within a tolerance, even over
  the reals. For example, the row at script.js:14 sums to 0.9999999999, and the `b` row
  at script.js:24 sums to 3.73e-8.
- Malformed input is not modelled. The code does no validation, and on bad slices
  `parseInt` partially parses or returns NaN (script.js:53-60). Such inputs are excluded
  by the precondition `HasHexChannels`.
- `parseInt`'s handling of whitespace, signs and the `0x` prefix is not modelled. The
  precondition excludes all of them.
- NaN and infinities in `Math.max`/`Math.min` are not modelled (see the bullet on
  `OklabToRgb` and `LerpOklabColor` above).

