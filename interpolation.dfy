/**
 * lerpOklabColor (script.js:51-73): read two colours written as `#rrggbb`, take both to
 * OKLab, interpolate each of L, a and b separately, come back to sRGB, and write the
 * result as `#rrggbb` again.
 */
module Interpolation {
  import opened HexCodec
  import opened ColorSpace

  /**
   * What the three slices of script.js:53-60 need so that each parseInt reads a full pair
   * of digits: characters 1 to 6 are hex digits. Character 0 is never looked at, but it
   * must be one UTF-16 code unit (below U+10000), because slice counts code units: a
   * surrogate pair there would move every slice by one. Anything after character 6 is
   * never looked at.
   */
  predicate HasHexChannels(hex: string) {
    |hex| >= 7 && hex[0] as int < 0x1_0000 && forall i :: 1 <= i < 7 ==> IsHexDigit(hex[i])
  }

  /** A colour written `#` and six hex digits, in either case. */
  predicate IsHexColor(s: string) {
    |s| == 7 && s[0] == '#' && HasHexChannels(s)
  }

  /** A colour as lerpOklabColor writes it: `#` and six lower-case hex digits. */
  predicate IsLowerHexColor(s: string) {
    IsHexColor(s) && AllLowerHexDigits(s[1..])
  }

  /** `parseInt(hex.slice(i, i + 2), 16) / 255`: one channel, an 8-bit value scaled to [0,1]. */
  function ParseChannel(hex: string, i: nat): (c: real)
    requires HasHexChannels(hex) && 1 <= i <= 5
    ensures 0.0 <= c <= 1.0
    ensures Round(c * 255.0) == HexValue(hex[i..i + 2])
  {
    var n := HexValue(hex[i..i + 2]);
    assert n < 256 by {
      TwoDigitValue(hex[i..i + 2]);
    }
    assert n as real / 255.0 * 255.0 == n as real;
    n as real / 255.0
  }

  /** The arrays rgb1 and rgb2 of script.js:52-61. */
  function ParseRgb(hex: string): (c: Rgb)
    requires HasHexChannels(hex)
    ensures InUnitCube(c)
  {
    Rgb(ParseChannel(hex, 1), ParseChannel(hex, 3), ParseChannel(hex, 5))
  }

  /** The template literal of script.js:72: `#`, then toHex of each channel. */
  function FormatRgb(c: Rgb): string {
    "#" + ToHex(c.r) + ToHex(c.g) + ToHex(c.b)
  }

  /** One component of the blend, `c1 + (c2 - c1) * t` (script.js:66-68). */
  function Lerp(x: real, y: real, t: real): real {
    x + (y - x) * t
  }

  /**
   * The blend of x and y is x exactly at t = 0 and y exactly at t = 1 (when x and y
   * differ, at no other t), it is x throughout when y is x, and for t in [0,1] it lies
   * between x and y.
   */
  lemma LerpProperties(x: real, y: real, t: real)
    ensures t == 0.0 ==> Lerp(x, y, t) == x
    ensures t == 1.0 ==> Lerp(x, y, t) == y
    ensures x == y ==> Lerp(x, y, t) == x
    ensures x != y ==> (Lerp(x, y, t) == x <==> t == 0.0) && (Lerp(x, y, t) == y <==> t == 1.0)
    ensures 0.0 <= t <= 1.0 ==> (x <= Lerp(x, y, t) <= y || y <= Lerp(x, y, t) <= x)
  {
    var r := Lerp(x, y, t);
    if 0.0 <= t <= 1.0 {
      LerpBetween(x, y, t);
    }
    if x != y && r == x {
      ProductZero(y - x, t);
    }
    if x != y && r == y {
      assert (y - x) * (t - 1.0) == 0.0;
      ProductZero(y - x, t - 1.0);
    }
  }

  lemma ProductZero(u: real, v: real)
    requires u != 0.0 && u * v == 0.0
    ensures v == 0.0
  {
  }

  lemma LerpBetween(x: real, y: real, t: real)
    requires 0.0 <= t <= 1.0
    ensures x <= Lerp(x, y, t) <= y || y <= Lerp(x, y, t) <= x
  {
    if x <= y {
      var d := y - x;
      ScaledBelow(d, t);
      assert Lerp(x, y, t) == x + d * t;
    } else {
      var d := x - y;
      ScaledBelow(d, 1.0 - t);
      assert Lerp(x, y, t) == y + d * (1.0 - t);
    }
  }

  /** A non-negative amount scaled by a factor in [0,1] stays between 0 and itself. */
  lemma ScaledBelow(u: real, t: real)
    requires u >= 0.0 && 0.0 <= t <= 1.0
    ensures 0.0 <= u * t <= u
  {
    assert u * (1.0 - t) >= 0.0;
  }

  /** The interpolated OKLab point (L, a, b) of script.js:66-68. */
  function LerpLab(c1: Lab, c2: Lab, t: real): Lab {
    Lab(Lerp(c1.L, c2.L, t), Lerp(c1.a, c2.a, t), Lerp(c1.b, c2.b, t))
  }

  /**
   * lerpOklabColor (script.js:51-73). Whatever t is, and whatever values the
   * transcendental functions take, the result is `#` and six lower-case hex digits,
   * because oklabToRgb clamps every channel into [0,1] before toHex sees it. This holds
   * over exact reals. With doubles, a large enough t makes the clamp see NaN (see
   * OklabToRgb), and toHex then writes "NaN".
   */
  function LerpOklabColor(fns: MathFns, hex1: string, hex2: string, t: real): (s: string)
    requires HasHexChannels(hex1) && HasHexChannels(hex2)
    ensures IsLowerHexColor(s)
  {
    var c1 := RgbToOklab(fns, ParseRgb(hex1));
    var c2 := RgbToOklab(fns, ParseRgb(hex2));
    var rgb := OklabToRgb(fns, LerpLab(c1, c2, t));
    FormatUnitRgb(rgb);
    FormatRgb(rgb)
  }

  /** A colour whose channels are in [0,1] is written as `#` and six lower-case digits. */
  lemma FormatUnitRgb(c: Rgb)
    requires InUnitCube(c)
    ensures IsLowerHexColor(FormatRgb(c))
  {
    ToHexOfUnitChannel(c.r);
    ToHexOfUnitChannel(c.g);
    ToHexOfUnitChannel(c.b);
    ColorOfPairs(ToHex(c.r), ToHex(c.g), ToHex(c.b));
  }

  /** `#` followed by three pairs of digits: where each pair sits in the string. */
  lemma ColorOfPairs(p1: string, p2: string, p3: string)
    requires |p1| == 2 && |p2| == 2 && |p3| == 2
    ensures var s := "#" + p1 + p2 + p3;
      && |s| == 7 && s[0] == '#' && s[1..3] == p1 && s[3..5] == p2 && s[5..7] == p3
      && s[1..] == p1 + p2 + p3
    ensures AllLowerHexDigits(p1) && AllLowerHexDigits(p2) && AllLowerHexDigits(p3) ==>
      IsLowerHexColor("#" + p1 + p2 + p3)
  {
    var s := "#" + p1 + p2 + p3;
    assert s[1..3] == p1 && s[3..5] == p2 && s[5..7] == p3;
  }

  lemma LowerAppend(s: string, t: string)
    ensures Lower(s + t) == Lower(s) + Lower(t)
  {
  }

  /**
   * Reading a colour and writing it straight back gives the same text, lower-cased:
   * the 8-bit channels survive the trip through [0,1] exactly.
   */
  lemma FormatParseRoundTrip(hex: string)
    requires IsHexColor(hex)
    ensures FormatRgb(ParseRgb(hex)) == Lower(hex)
  {
    FormatParsedChannel(hex, 1);
    FormatParsedChannel(hex, 3);
    FormatParsedChannel(hex, 5);
    LowerOfPairs(hex);
  }

  lemma LowerOfPairs(hex: string)
    requires |hex| == 7 && hex[0] == '#'
    ensures Lower(hex) == "#" + Lower(hex[1..3]) + Lower(hex[3..5]) + Lower(hex[5..7])
  {
    var p1, p2, p3 := hex[1..3], hex[3..5], hex[5..7];
    SplitPairs(hex);
    LowerAppend("#", p1);
    LowerAppend("#" + p1, p2);
    LowerAppend("#" + p1 + p2, p3);
  }

  lemma SplitPairs(s: string)
    requires |s| == 7
    ensures s == [s[0]] + s[1..3] + s[3..5] + s[5..7]
  {
    assert s == s[..1] + s[1..];
    assert s[1..] == s[1..3] + s[3..];
    assert s[3..] == s[3..5] + s[5..];
    assert s[..1] == [s[0]];
  }

  lemma FormatParsedChannel(hex: string, i: nat)
    requires HasHexChannels(hex) && 1 <= i <= 5
    ensures ToHex(ParseChannel(hex, i)) == Lower(hex[i..i + 2])
  {
    var n := HexValue(hex[i..i + 2]);
    assert ParseChannel(hex, i) == n as real / 255.0;
    ChannelRoundTrip(hex[i..i + 2], n);
  }

  /**
   * Writing a colour in the unit cube and reading it back moves every channel by at
   * most half an 8-bit step.
   */
  lemma ParseFormatQuantization(c: Rgb)
    requires InUnitCube(c)
    ensures HasHexChannels(FormatRgb(c))
    ensures var d := ParseRgb(FormatRgb(c));
      && -1.0 / 510.0 <= d.r - c.r <= 1.0 / 510.0
      && -1.0 / 510.0 <= d.g - c.g <= 1.0 / 510.0
      && -1.0 / 510.0 <= d.b - c.b <= 1.0 / 510.0
  {
    FormatUnitRgb(c);
    var p1, p2, p3 := ToHex(c.r), ToHex(c.g), ToHex(c.b);
    ToHexOfUnitChannel(c.r);
    ToHexOfUnitChannel(c.g);
    ToHexOfUnitChannel(c.b);
    ColorOfPairs(p1, p2, p3);
    ChannelQuantization(c.r);
    ChannelQuantization(c.g);
    ChannelQuantization(c.b);
  }

  /** parseInt reads upper- and lower-case digits alike, so the case of the input is irrelevant. */
  lemma ParseRgbIgnoresCase(hex: string)
    requires HasHexChannels(hex)
    ensures HasHexChannels(Lower(hex)) && ParseRgb(Lower(hex)) == ParseRgb(hex)
  {
    var lo := Lower(hex);
    LowerKeepsHexChannels(hex);
    PairIgnoresCase(hex, lo, 1);
    PairIgnoresCase(hex, lo, 3);
    PairIgnoresCase(hex, lo, 5);
  }

  lemma LowerKeepsHexChannels(hex: string)
    requires HasHexChannels(hex)
    ensures HasHexChannels(Lower(hex))
  {
    forall i | 1 <= i < 7
      ensures IsHexDigit(Lower(hex)[i])
    {
      DigitCharOfValue(hex[i]);
    }
  }

  lemma PairIgnoresCase(hex: string, lo: string, i: nat)
    requires HasHexChannels(hex) && HasHexChannels(lo) && lo == Lower(hex) && 1 <= i <= 5
    ensures HexValue(lo[i..i + 2]) == HexValue(hex[i..i + 2])
  {
    DigitCharOfValue(hex[i]);
    DigitCharOfValue(hex[i + 1]);
    TwoDigitValue(lo[i..i + 2]);
    TwoDigitValue(hex[i..i + 2]);
  }

  /** The blend at t = 0 is c1 and at t = 1 is c2, exactly. */
  lemma LerpLabEndpoints(c1: Lab, c2: Lab)
    ensures LerpLab(c1, c2, 0.0) == c1 && LerpLab(c1, c2, 1.0) == c2
  {
  }

  /** Blending a point with itself gives that point, at every t. */
  lemma LerpLabOfSame(c: Lab, t: real)
    ensures LerpLab(c, c, t) == c
  {
  }

  /**
   * Each component of the blend depends on the same component of c1 and c2 and on
   * nothing else: endpoints that agree in one component give blends that agree in it.
   */
  lemma LerpLabComponentwise(c1: Lab, c2: Lab, d1: Lab, d2: Lab, t: real)
    ensures c1.L == d1.L && c2.L == d2.L ==> LerpLab(c1, c2, t).L == LerpLab(d1, d2, t).L
    ensures c1.a == d1.a && c2.a == d2.a ==> LerpLab(c1, c2, t).a == LerpLab(d1, d2, t).a
    ensures c1.b == d1.b && c2.b == d2.b ==> LerpLab(c1, c2, t).b == LerpLab(d1, d2, t).b
  {
  }

  /**
   * For t in [0,1] every component of the blend lies between the endpoints' values;
   * in particular two neutral endpoints (a = b = 0) give a neutral blend.
   */
  lemma LerpLabBetween(c1: Lab, c2: Lab, t: real)
    requires 0.0 <= t <= 1.0
    ensures var c := LerpLab(c1, c2, t);
      && (c1.L <= c.L <= c2.L || c2.L <= c.L <= c1.L)
      && (c1.a <= c.a <= c2.a || c2.a <= c.a <= c1.a)
      && (c1.b <= c.b <= c2.b || c2.b <= c.b <= c1.b)
    ensures c1.a == 0.0 && c2.a == 0.0 ==> LerpLab(c1, c2, t).a == 0.0
    ensures c1.b == 0.0 && c2.b == 0.0 ==> LerpLab(c1, c2, t).b == 0.0
  {
    LerpProperties(c1.L, c2.L, t);
    LerpProperties(c1.a, c2.a, t);
    LerpProperties(c1.b, c2.b, t);
  }

  /** Over the reals, blending c1 towards c2 by t is blending c2 towards c1 by 1 - t. */
  lemma LerpLabSymmetric(c1: Lab, c2: Lab, t: real)
    ensures LerpLab(c1, c2, t) == LerpLab(c2, c1, 1.0 - t)
  {
    LerpSymmetric(c1.L, c2.L, t);
    LerpSymmetric(c1.a, c2.a, t);
    LerpSymmetric(c1.b, c2.b, t);
  }

  lemma LerpSymmetric(x: real, y: real, t: real)
    ensures Lerp(x, y, t) == Lerp(y, x, 1.0 - t)
  {
    assert x + (y - x) * t == y + (x - y) * (1.0 - t);
  }

  /**
   * At t = 0 the result depends on hex1 alone: it is what blending hex1 with itself
   * gives at any t. At t = 1 the same holds of hex2.
   */
  lemma LerpOklabColorEndpoints(fns: MathFns, hex1: string, hex2: string, u: real)
    requires HasHexChannels(hex1) && HasHexChannels(hex2)
    ensures LerpOklabColor(fns, hex1, hex2, 0.0) == LerpOklabColor(fns, hex1, hex1, u)
    ensures LerpOklabColor(fns, hex1, hex2, 1.0) == LerpOklabColor(fns, hex2, hex2, u)
  {
    var c1 := RgbToOklab(fns, ParseRgb(hex1));
    var c2 := RgbToOklab(fns, ParseRgb(hex2));
    LerpLabEndpoints(c1, c2);
    LerpLabOfSame(c1, u);
    LerpLabOfSame(c2, u);
  }

  /** Over the reals, swapping the two colours and replacing t by 1 - t changes nothing. */
  lemma LerpOklabColorSymmetric(fns: MathFns, hex1: string, hex2: string, t: real)
    requires HasHexChannels(hex1) && HasHexChannels(hex2)
    ensures LerpOklabColor(fns, hex1, hex2, t) == LerpOklabColor(fns, hex2, hex1, 1.0 - t)
  {
    LerpLabSymmetric(RgbToOklab(fns, ParseRgb(hex1)), RgbToOklab(fns, ParseRgb(hex2)), t);
  }

  /** Black blended with black is black at every t, given only that the cube root of 0 is 0. */
  lemma BlackBlendIsBlack(fns: MathFns, t: real)
    requires fns.cbrt(0.0) == 0.0
    ensures LerpOklabColor(fns, "#000000", "#000000", t) == "#000000"
  {
    var black, origin := Rgb(0.0, 0.0, 0.0), Lab(0.0, 0.0, 0.0);
    var c := RgbToOklab(fns, ParseRgb("#000000"));
    assert c == origin by {
      BlackText();
      BlackToOrigin(fns);
    }
    assert OklabToRgb(fns, LerpLab(c, c, t)) == black by {
      LerpLabOfSame(origin, t);
      OriginToBlack(fns);
    }
    assert FormatRgb(black) == "#000000" by {
      BlackText();
    }
  }

  /** "#000000" is read as black, and black is written as "#000000". */
  lemma BlackText()
    ensures ParseRgb("#000000") == Rgb(0.0, 0.0, 0.0)
    ensures FormatRgb(Rgb(0.0, 0.0, 0.0)) == "#000000"
  {
    var text := "#000000";
    assert text[1..3] == "00" && text[3..5] == "00" && text[5..7] == "00";
    TwoDigitValue("00");
    assert ToHex(0.0) == "00" by {
      ToHexOfByte(0);
    }
  }

  /** The two end colours the page passes in (script.js:80) are read as these channels. */
  lemma ParseRgbOfPageColors()
    ensures ParseRgb("#ff5f5f") == Rgb(1.0, 95.0 / 255.0, 95.0 / 255.0)
    ensures ParseRgb("#5fff5f") == Rgb(95.0 / 255.0, 1.0, 95.0 / 255.0)
  {
    TwoDigitValue("ff");
    TwoDigitValue("5f");
    assert "#ff5f5f"[1..3] == "ff" && "#ff5f5f"[3..5] == "5f" && "#ff5f5f"[5..7] == "5f";
    assert "#5fff5f"[1..3] == "5f" && "#5fff5f"[3..5] == "ff" && "#5fff5f"[5..7] == "5f";
  }
}
