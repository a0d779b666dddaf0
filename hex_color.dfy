/**
 * Hexadecimal colour text: the `clamp`, `componenttohex`, `rgbtohex` and
 * `hextorgb` helpers of the paisl page.  Colours are written as
 * `#rrggbb` or `#rrggbbaa` with lower-case digits and read back
 * case-insensitively, with the shorthand forms `#rgb` and `#rgba`.
 */
module HexColor {
  import opened Wrappers

  /** The four channels of a parsed colour, each a byte. */
  datatype Rgba = Rgba(r: int, g: int, b: int, a: int)

  /** `clamp(n, lo, hi)`: `hi` when `n` exceeds it, else `lo` when `n` is below it, else `n`. */
  function Clamp(n: real, lo: real, hi: real): (r: real)
    ensures lo <= hi ==> lo <= r <= hi
    ensures lo <= n <= hi ==> r == n
    ensures n > hi ==> r == hi
    ensures n <= hi && n < lo ==> r == lo
  {
    if n > hi then hi else if n < lo then lo else n
  }

  /** `Math.floor(Math.min(Math.max(c, 0), 255))`: the byte a component is written as. */
  function ByteOf(c: real): (v: int)
    ensures 0 <= v < 256
    ensures 0.0 <= c < 256.0 ==> v == c.Floor
  {
    var atLeastZero := if c > 0.0 then c else 0.0;
    (if atLeastZero < 255.0 then atLeastZero else 255.0).Floor
  }

  /** The digits `Number.prototype.toString(16)` writes, lower case. */
  const LowerDigits := "0123456789abcdef"

  /** The lower-case digit `Number.prototype.toString(16)` writes for `d`. */
  function Digit(d: nat): (c: char)
    requires d < 16
    ensures IsHexDigit(c) && HexValue(c) == d && c in LowerDigits
  {
    LowerDigits[d]
  }

  /** `v.toString(16)`: the base-16 numeral of `v` without leading zeros. */
  function ToBase16(v: nat): (s: string)
    decreases v
  {
    if v < 16 then [Digit(v)] else ToBase16(v / 16) + [Digit(v % 16)]
  }

  /** `componenttohex(c)`: the empty string for -1, otherwise the byte of `c` as two digits. */
  function ComponentToHex(c: real): (h: string)
    ensures c == -1.0 ==> h == ""
    ensures c != -1.0 ==> |h| == 2 && AllHex(h) && PairValue(h, 0) == ByteOf(c)
    ensures c != -1.0 ==> AllLower(h)
  {
    if c == -1.0 then ""
    else
      var v := ByteOf(c);
      var hex := ToBase16(v);
      ByteDigits(v);
      var h := if |hex| == 1 then "0" + hex else hex;
      DigitPair(v / 16, v % 16);
      h
  }

  /** The alpha byte `rgbtohex` writes: `clamp(Math.floor(a * 255), 0, 255)`. */
  function AlphaByte(a: real): (v: int)
    ensures 0 <= v < 256
    ensures v == ByteOf(a * 255.0)
  {
    Clamp((a * 255.0).Floor as real, 0.0, 255.0).Floor
  }

  /**
   * `rgbtohex(r, g, b, a)`: each colour channel is clamped to 0..255 and
   * written as two digits; an alpha of at most 1 adds a fourth pair.
   */
  function RgbToHex(r: real, g: real, b: real, a: real): (s: string)
    ensures a <= 1.0 ==> |s| == 9
    ensures a > 1.0 ==> |s| == 7
    ensures s[0] == '#' && AllHex(s[1..]) && AllLower(s[1..])
  {
    var rgb := ChannelText(r) + ChannelText(g) + ChannelText(b);
    HexJoin(ChannelText(r), ChannelText(g));
    HexJoin(ChannelText(r) + ChannelText(g), ChannelText(b));
    var digits := if a <= 1.0 then rgb + AlphaText(a) else rgb;
    HexJoin(rgb, AlphaText(a));
    assert ("#" + digits)[1..] == digits;
    "#" + digits
  }

  /** Digits side by side are digits, and lower-case digits stay lower case. */
  lemma HexJoin(p: string, q: string)
    requires AllHex(p) && AllHex(q)
    ensures AllHex(p + q)
    ensures AllLower(p) && AllLower(q) ==> AllLower(p + q)
  {
    forall k | 0 <= k < |p + q|
      ensures (p + q)[k] == if k < |p| then p[k] else q[k - |p|]
    {
    }
  }

  /** A character of the class `[a-f\d]` under the `i` flag. */
  predicate IsHexDigit(c: char) {
    '0' <= c <= '9' || 'a' <= c <= 'f' || 'A' <= c <= 'F'
  }

  predicate AllHex(s: string) {
    forall k :: 0 <= k < |s| ==> IsHexDigit(s[k])
  }

  /** Every character is one `toString(16)` writes: no upper-case digit. */
  predicate AllLower(s: string) {
    forall k :: 0 <= k < |s| ==> s[k] in LowerDigits
  }

  /** The value `parseInt` gives a single hexadecimal digit. */
  function HexValue(c: char): (v: nat)
    requires IsHexDigit(c)
    ensures v < 16
  {
    if '0' <= c <= '9' then c as int - '0' as int
    else if 'a' <= c <= 'f' then c as int - 'a' as int + 10
    else c as int - 'A' as int + 10
  }

  /** `parseInt(s.substr(k, 2), 16)` for two hexadecimal digits. */
  function PairValue(s: string, k: nat): (v: nat)
    requires k + 1 < |s| && IsHexDigit(s[k]) && IsHexDigit(s[k + 1])
    ensures v < 256
  {
    HexValue(s[k]) * 16 + HexValue(s[k + 1])
  }

  /** What the optional leading `#?` of each regular expression consumes. */
  function StripHash(s: string): string {
    if |s| > 0 && s[0] == '#' then s[1..] else s
  }

  /**
   * The shorthand rewrite `/^#?([a-f\d])([a-f\d])([a-f\d])([a-f\d])?$/i`:
   * three or four digits are each doubled and replace the whole text, `#`
   * included.  A missing fourth group is `undefined`, so three digits become
   * six digits followed by the text "undefinedundefined".
   */
  function ExpandShorthand(s: string): (t: string)
    ensures t != s ==> |t| >= 6 && AllHex(t[..6]) && (|t| == 8 || |t| == 24)
  {
    var body := StripHash(s);
    if (|body| == 3 || |body| == 4) && AllHex(body) then
      [body[0], body[0], body[1], body[1], body[2], body[2]]
      + (if |body| == 4 then [body[3], body[3]] else "undefined" + "undefined")
    else s
  }

  /**
   * `hextorgb(hex)`: after the shorthand rewrite, exactly eight digits give
   * all four channels; otherwise six leading digits give red, green and
   * blue with alpha 255, whatever follows them; anything else is null.
   */
  function HexToRgb(hex: string): (c: Option<Rgba>)
    ensures c.Some? ==> 0 <= c.value.r < 256 && 0 <= c.value.g < 256
                        && 0 <= c.value.b < 256 && 0 <= c.value.a < 256
    ensures c.None? ==> ExpandShorthand(hex) == hex
  {
    var t := StripHash(ExpandShorthand(hex));
    if |t| == 8 && AllHex(t) then
      Some(Rgba(PairValue(t, 0), PairValue(t, 2), PairValue(t, 4), PairValue(t, 6)))
    else if |t| >= 6 && AllHex(t[..6]) then
      assert IsHexDigit(t[..6][0]) && IsHexDigit(t[..6][1]) && IsHexDigit(t[..6][2]);
      assert IsHexDigit(t[..6][3]) && IsHexDigit(t[..6][4]) && IsHexDigit(t[..6][5]);
      Some(Rgba(PairValue(t, 0), PairValue(t, 2), PairValue(t, 4), 255))
    else
      None
  }

  // ---------------------------------------------------------------------
  // Properties
  // ---------------------------------------------------------------------

  /** Two digits side by side: lower case, and read back as the number they write. */
  lemma DigitPair(hi: nat, lo: nat)
    requires hi < 16 && lo < 16
    ensures var h := [Digit(hi), Digit(lo)];
            |h| == 2 && AllHex(h) && AllLower(h) && PairValue(h, 0) == hi * 16 + lo
  {
    var h := [Digit(hi), Digit(lo)];
    assert h[0] == Digit(hi) && h[1] == Digit(lo);
  }

  /** A byte written by `ToBase16` and padded by `ComponentToHex` reads back as itself. */
  lemma {:induction false} ByteDigits(v: nat)
    requires v < 256
    ensures var h := if |ToBase16(v)| == 1 then "0" + ToBase16(v) else ToBase16(v);
            |h| == 2 && h == [Digit(v / 16), Digit(v % 16)]
  {
    if v >= 16 {
      assert ToBase16(v / 16) == [Digit(v / 16)];
    }
  }

  /**
   * Writing a colour and reading it back gives the bytes that were written:
   * every colour channel clamped and floored, and alpha as `floor(a * 255)`
   * clamped when `a <= 1`, or 255 when the six-digit form was written.
   */
  lemma RoundTrip(r: real, g: real, b: real, a: real)
    ensures HexToRgb(RgbToHex(r, g, b, a))
         == Some(Rgba(ByteOf(r), ByteOf(g), ByteOf(b), if a <= 1.0 then ByteOf(a * 255.0) else 255))
  {
    var hr, hg, hb := ChannelText(r), ChannelText(g), ChannelText(b);
    if a <= 1.0 {
      var ha := AlphaText(a);
      assert RgbToHex(r, g, b, a) == "#" + (hr + hg + hb + ha);
      FourPairs(hr, hg, hb, ha);
      ReadEight(true, hr + hg + hb + ha);
    } else {
      assert RgbToHex(r, g, b, a) == "#" + (hr + hg + hb);
      ThreePairs(hr, hg, hb);
      ReadSix(true, hr + hg + hb);
    }
  }

  /** The two digits `rgbtohex` writes for a colour channel; they read back as the clamped, floored channel. */
  function ChannelText(c: real): (t: string)
    ensures |t| == 2 && AllHex(t) && AllLower(t) && PairValue(t, 0) == ByteOf(c)
  {
    ComponentToHex(Clamp(c, 0.0, 255.0))
  }

  /** The two alpha digits `rgbtohex` writes; they read back as `floor(a * 255)` clamped to a byte. */
  function AlphaText(a: real): (t: string)
    ensures |t| == 2 && AllHex(t) && AllLower(t) && PairValue(t, 0) == ByteOf(a * 255.0)
  {
    ComponentToHex(AlphaByte(a) as real)
  }

  /** Eight digits, with or without `#`, read as four channels. */
  lemma ReadEight(hash: bool, t: string)
    requires |t| == 8 && AllHex(t)
    ensures HexToRgb((if hash then "#" else "") + t)
         == Some(Rgba(PairValue(t, 0), PairValue(t, 2), PairValue(t, 4), PairValue(t, 6)))
  {
    var s := (if hash then "#" else "") + t;
    assert StripHash(s) == t;
    assert ExpandShorthand(s) == s;
  }

  /** Six digits, with or without `#`, read as three channels and alpha 255. */
  lemma ReadSix(hash: bool, t: string)
    requires |t| == 6 && AllHex(t)
    ensures HexToRgb((if hash then "#" else "") + t)
         == Some(Rgba(PairValue(t, 0), PairValue(t, 2), PairValue(t, 4), 255))
  {
    var s := (if hash then "#" else "") + t;
    assert StripHash(s) == t;
    assert ExpandShorthand(s) == s;
    assert t[..6] == t;
  }

  /** Four two-digit numerals side by side read back pair by pair. */
  lemma FourPairs(h1: string, h2: string, h3: string, h4: string)
    requires |h1| == 2 && |h2| == 2 && |h3| == 2 && |h4| == 2
    requires AllHex(h1) && AllHex(h2) && AllHex(h3) && AllHex(h4)
    ensures var t := h1 + h2 + h3 + h4;
            |t| == 8 && AllHex(t) && PairValue(t, 0) == PairValue(h1, 0) && PairValue(t, 2) == PairValue(h2, 0)
            && PairValue(t, 4) == PairValue(h3, 0) && PairValue(t, 6) == PairValue(h4, 0)
  {
    var t := h1 + h2 + h3 + h4;
    assert t[0] == h1[0] && t[1] == h1[1] && t[2] == h2[0] && t[3] == h2[1];
    assert t[4] == h3[0] && t[5] == h3[1] && t[6] == h4[0] && t[7] == h4[1];
  }

  /** Three two-digit numerals side by side read back pair by pair, and nothing follows them. */
  lemma ThreePairs(h1: string, h2: string, h3: string)
    requires |h1| == 2 && |h2| == 2 && |h3| == 2
    requires AllHex(h1) && AllHex(h2) && AllHex(h3)
    ensures var t := h1 + h2 + h3;
            |t| == 6 && t[..6] == t && AllHex(t) && PairValue(t, 0) == PairValue(h1, 0)
            && PairValue(t, 2) == PairValue(h2, 0) && PairValue(t, 4) == PairValue(h3, 0)
  {
    var t := h1 + h2 + h3;
    assert t[0] == h1[0] && t[1] == h1[1] && t[2] == h2[0] && t[3] == h2[1];
    assert t[4] == h3[0] && t[5] == h3[1];
  }

  /**
   * `#rgb` and `rgb` read as `#rrggbb`: each digit doubled (value times 17),
   * alpha 255 because the rewritten text falls through to the unanchored
   * six-digit pattern.
   */
  lemma ShorthandThreeDigits(hash: bool, d1: char, d2: char, d3: char)
    requires IsHexDigit(d1) && IsHexDigit(d2) && IsHexDigit(d3)
    ensures HexToRgb((if hash then "#" else "") + [d1, d2, d3])
         == Some(Rgba(17 * HexValue(d1), 17 * HexValue(d2), 17 * HexValue(d3), 255))
  {
    var s := (if hash then "#" else "") + [d1, d2, d3];
    assert StripHash(s) == [d1, d2, d3];
    var t := ExpandShorthand(s);
    assert t == [d1, d1, d2, d2, d3, d3] + "undefinedundefined";
    assert StripHash(t) == t;
    assert t[..6] == [d1, d1, d2, d2, d3, d3];
  }

  /** `#rgba` and `rgba` read as `#rrggbbaa`, alpha included. */
  lemma ShorthandFourDigits(hash: bool, d1: char, d2: char, d3: char, d4: char)
    requires IsHexDigit(d1) && IsHexDigit(d2) && IsHexDigit(d3) && IsHexDigit(d4)
    ensures HexToRgb((if hash then "#" else "") + [d1, d2, d3, d4])
         == Some(Rgba(17 * HexValue(d1), 17 * HexValue(d2), 17 * HexValue(d3), 17 * HexValue(d4)))
  {
    var s := (if hash then "#" else "") + [d1, d2, d3, d4];
    assert StripHash(s) == [d1, d2, d3, d4];
    var t := ExpandShorthand(s);
    assert t == [d1, d1, d2, d2, d3, d3, d4, d4];
    assert StripHash(t) == t;
  }

  /**
   * Six leading digits followed by anything but exactly two more digits are
   * read with alpha 255; the trailing text is ignored.
   */
  lemma TrailingTextIgnored(hash: bool, digits: string, rest: string)
    requires |digits| == 6 && AllHex(digits)
    requires !(|rest| == 2 && AllHex(rest))
    ensures HexToRgb((if hash then "#" else "") + digits + rest)
         == Some(Rgba(PairValue(digits, 0), PairValue(digits, 2), PairValue(digits, 4), 255))
  {
    var s := (if hash then "#" else "") + digits + rest;
    assert StripHash(s) == digits + rest;
    assert ExpandShorthand(s) == s;
    var t := digits + rest;
    assert t[..6] == digits;
  }

  /** Text whose leading digits (after an optional `#`) number fewer than six and are not a shorthand is rejected. */
  lemma ShortTextRejected(s: string)
    requires |StripHash(s)| < 6
    requires !(|StripHash(s)| in {3, 4} && AllHex(StripHash(s)))
    ensures HexToRgb(s) == None
  {
    assert ExpandShorthand(s) == s;
  }

  /**
   * Text with at least six characters after an optional `#` whose first six
   * are not all digits is rejected: the shorthand rewrite does not apply and
   * neither pattern matches.
   */
  lemma LongTextRejected(s: string)
    requires |StripHash(s)| >= 6 && !AllHex(StripHash(s)[..6])
    ensures HexToRgb(s) == None
  {
    assert ExpandShorthand(s) == s;
  }
}
