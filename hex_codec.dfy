/**
 * The number <-> text steps that lerpOklabColor (script.js:51-73) relies on:
 * parseInt(p, 16) on a two-character slice, Math.round, Number.prototype.toString(16),
 * String.prototype.padStart, and the `toHex` arrow built from the last three.
 */
module HexCodec {

  /** A character that parseInt(_, 16) reads as a digit, in either case. */
  predicate IsHexDigit(c: char) {
    '0' <= c <= '9' || 'a' <= c <= 'f' || 'A' <= c <= 'F'
  }

  /** A digit as toString(16) writes it: never upper case. */
  predicate IsLowerHexDigit(c: char) {
    '0' <= c <= '9' || 'a' <= c <= 'f'
  }

  predicate AllHexDigits(s: string) {
    forall i :: 0 <= i < |s| ==> IsHexDigit(s[i])
  }

  predicate AllLowerHexDigits(s: string) {
    forall i :: 0 <= i < |s| ==> IsLowerHexDigit(s[i])
  }

  /** The value of one base-16 digit; 'a'..'f' and 'A'..'F' are both 10..15. */
  function DigitValue(c: char): (v: nat)
    requires IsHexDigit(c)
    ensures v < 16
  {
    if '0' <= c <= '9' then c as int - '0' as int
    else if 'a' <= c <= 'f' then c as int - 'a' as int + 10
    else c as int - 'A' as int + 10
  }

  /** The digit toString(16) writes for a value below 16. */
  function DigitChar(v: nat): (c: char)
    requires v < 16
    ensures IsLowerHexDigit(c) && DigitValue(c) == v
  {
    if v < 10 then ('0' as int + v) as char else ('a' as int + v - 10) as char
  }

  /** ASCII lower-casing, as String.prototype.toLowerCase acts on these characters. */
  function LowerChar(c: char): char {
    if 'A' <= c <= 'Z' then (c as int + 32) as char else c
  }

  function Lower(s: string): string {
    seq(|s|, i requires 0 <= i < |s| => LowerChar(s[i]))
  }

  lemma DigitCharOfValue(c: char)
    requires IsHexDigit(c)
    ensures IsHexDigit(LowerChar(c)) && DigitValue(LowerChar(c)) == DigitValue(c)
    ensures DigitChar(DigitValue(c)) == LowerChar(c)
  {
  }

  function Pow16(k: nat): (p: nat)
    ensures p >= 1
  {
    if k == 0 then 1 else 16 * Pow16(k - 1)
  }

  /**
   * The number a string of base-16 digits denotes, most significant first: what
   * parseInt(s, 16) returns for a non-empty string made only of such digits.
   */
  function HexValue(s: string): (v: nat)
    requires AllHexDigits(s)
    ensures v < Pow16(|s|)
  {
    if s == [] then 0 else HexValue(s[..|s| - 1]) * 16 + DigitValue(s[|s| - 1])
  }

  /**
   * (n).toString(16) for a non-negative integer n: its base-16 digits, lower case,
   * without leading zeros.
   */
  function NatToHex(n: nat): (s: string)
    ensures 1 <= |s| && AllLowerHexDigits(s) && AllHexDigits(s)
    ensures s[0] == '0' ==> n == 0
    ensures (n < 16) == (|s| == 1)
    ensures n < 256 ==> |s| <= 2
  {
    if n < 16 then [DigitChar(n)] else NatToHex(n / 16) + [DigitChar(n % 16)]
  }

  /** (n).toString(16) for any integer n: a negative number is written with a leading '-'. */
  function IntToHex(n: int): (s: string)
    ensures 1 <= |s|
    ensures (s[0] == '-') == (n < 0)
  {
    if n < 0 then "-" + NatToHex(-n) else NatToHex(n)
  }

  /** s.padStart(width, fill) for a one-character fill. */
  function PadStart(s: string, width: nat, fill: char): (r: string)
    ensures |r| == if |s| < width then width else |s|
    ensures r[|r| - |s|..] == s
    ensures forall i :: 0 <= i < |r| - |s| ==> r[i] == fill
  {
    if |s| < width then seq(width - |s|, _ => fill) + s else s
  }

  /** Math.round: the nearest integer, a half going up (towards +infinity). */
  function Round(x: real): (n: int)
    ensures x - 0.5 < n as real <= x + 0.5
  {
    (x + 0.5).Floor
  }

  /** The `toHex` arrow of script.js:71. */
  function ToHex(x: real): string {
    PadStart(IntToHex(Round(x * 255.0)), 2, '0')
  }

  /** parseInt inverts toString(16): every non-negative integer is read back unchanged. */
  lemma {:induction false} HexValueOfNatToHex(n: nat)
    ensures HexValue(NatToHex(n)) == n
    decreases n
  {
    if n >= 16 {
      var s := NatToHex(n);
      assert s[..|s| - 1] == NatToHex(n / 16);
      HexValueOfNatToHex(n / 16);
    }
  }

  /** A value 0..255 is written as exactly two digits: the high nibble, then the low one. */
  lemma ByteToHex(n: nat)
    requires n < 256
    ensures PadStart(IntToHex(n), 2, '0') == [DigitChar(n / 16), DigitChar(n % 16)]
  {
    if n < 16 {
      assert NatToHex(n) == [DigitChar(n)];
    } else {
      assert NatToHex(n / 16) == [DigitChar(n / 16)];
    }
  }

  lemma TwoDigitValue(p: string)
    requires |p| == 2 && AllHexDigits(p)
    ensures HexValue(p) == DigitValue(p[0]) * 16 + DigitValue(p[1])
  {
    assert p[..1][..0] == [];
  }

  /**
   * On a channel in [0,1], toHex yields exactly two lower-case hex digits, "00" to "ff",
   * which denote 255 times the channel, rounded.
   */
  lemma ToHexOfUnitChannel(x: real)
    requires 0.0 <= x <= 1.0
    ensures |ToHex(x)| == 2 && AllLowerHexDigits(ToHex(x))
    ensures HexValue(ToHex(x)) == Round(x * 255.0) && 0 <= Round(x * 255.0) <= 255
  {
    var n := Round(x * 255.0);
    assert 0 <= n <= 255;
    var s := ToHex(x);
    assert s == [DigitChar(n / 16), DigitChar(n % 16)] by {
      ByteToHex(n);
    }
    assert HexValue(s) == n by {
      TwoDigitValue(s);
    }
  }

  /**
   * toHex gives two lower-case hex digits exactly when 255 times the channel rounds into
   * 0..255, that is for x in [-1/510, 511/510). Below that range the text starts with
   * '-'. Above it, the text has three or more digits.
   */
  lemma ToHexShape(x: real)
    ensures (|ToHex(x)| == 2 && AllLowerHexDigits(ToHex(x))) <==> -1.0 / 510.0 <= x < 511.0 / 510.0
    ensures (ToHex(x)[0] == '-') <==> x < -1.0 / 510.0
    ensures x >= 511.0 / 510.0 ==> |ToHex(x)| >= 3 && AllLowerHexDigits(ToHex(x))
  {
    var n := Round(x * 255.0);
    assert (0 <= n) <==> -1.0 / 510.0 <= x by {
      RoundAtLeastZero(x * 255.0);
    }
    assert (n <= 255) <==> x < 511.0 / 510.0 by {
      RoundAtMostByte(x * 255.0);
    }
    if n < 0 {
      NegativeToHex(n);
    } else if n <= 255 {
      ByteToHex(n);
    } else {
      NatToHexLong(n);
      assert ToHex(x) == NatToHex(n);
    }
  }

  /** A number of 256 or more has at least three base-16 digits. */
  lemma {:induction false} NatToHexLong(n: nat)
    requires n >= 256
    ensures |NatToHex(n)| >= 3
  {
    assert NatToHex(n) == NatToHex(n / 16) + [DigitChar(n % 16)];
  }

  lemma RoundAtLeastZero(y: real)
    ensures (0 <= Round(y)) <==> -0.5 <= y
  {
  }

  lemma RoundAtMostByte(y: real)
    ensures (Round(y) <= 255) <==> y < 255.5
  {
  }

  /** A negative integer is written as '-' and its digits; padStart(2) leaves that alone. */
  lemma NegativeToHex(n: int)
    requires n < 0
    ensures PadStart(IntToHex(n), 2, '0') == "-" + NatToHex(-n)
    ensures |PadStart(IntToHex(n), 2, '0')| >= 2
  {
  }

  /**
   * Two sample channels outside [0,1] that illustrate ToHexShape: toHex(-1) is "-ff"
   * and toHex(2) is "1fe".
   */
  lemma ToHexOutsideUnit()
    ensures ToHex(-1.0) == "-ff"
    ensures ToHex(2.0) == "1fe"
  {
    assert Round(-255.0) == -255;
    assert NatToHex(255) == NatToHex(15) + [DigitChar(15)];
    assert Round(510.0) == 510;
    assert NatToHex(510) == NatToHex(31) + [DigitChar(14)];
    assert NatToHex(31) == NatToHex(1) + [DigitChar(15)];
  }

  /**
   * Reading a pair of digits as a channel and writing it back with toHex gives the same
   * pair, lower-cased: n is the value parseInt reads from p.
   */
  lemma {:induction false} ChannelRoundTrip(p: string, n: nat)
    requires |p| == 2 && AllHexDigits(p) && n == HexValue(p)
    ensures ToHex(n as real / 255.0) == Lower(p)
  {
    assert n < 256 && n / 16 == DigitValue(p[0]) && n % 16 == DigitValue(p[1]) by {
      TwoDigitValue(p);
      NibblesOfByte(n, DigitValue(p[0]), DigitValue(p[1]));
    }
    assert ToHex(n as real / 255.0) == [DigitChar(DigitValue(p[0])), DigitChar(DigitValue(p[1]))] by {
      ToHexOfByte(n);
    }
    LowerPair(p);
  }

  lemma LowerPair(p: string)
    requires |p| == 2 && AllHexDigits(p)
    ensures [DigitChar(DigitValue(p[0])), DigitChar(DigitValue(p[1]))] == Lower(p)
  {
    DigitCharOfValue(p[0]);
    DigitCharOfValue(p[1]);
    assert Lower(p) == [LowerChar(p[0]), LowerChar(p[1])];
  }

  lemma NibblesOfByte(n: nat, hi: nat, lo: nat)
    requires hi < 16 && lo < 16 && n == hi * 16 + lo
    ensures n < 256 && n / 16 == hi && n % 16 == lo
  {
  }

  /** toHex writes the channel n/255 of an 8-bit value n as the two digits of n. */
  lemma ToHexOfByte(n: nat)
    requires n < 256
    ensures ToHex(n as real / 255.0) == [DigitChar(n / 16), DigitChar(n % 16)]
  {
    assert n as real / 255.0 * 255.0 == n as real;
    assert Round(n as real) == n;
    ByteToHex(n);
  }

  /**
   * Writing a channel in [0,1] with toHex and reading it back loses at most half of an
   * 8-bit step: the result is within 1/510 of the channel.
   */
  lemma ChannelQuantization(x: real)
    requires 0.0 <= x <= 1.0
    ensures AllHexDigits(ToHex(x))
    ensures -1.0 / 510.0 <= HexValue(ToHex(x)) as real / 255.0 - x <= 1.0 / 510.0
  {
    ToHexOfUnitChannel(x);
  }
}
