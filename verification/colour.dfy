/**
 * The text colour of `watermarkPDF` (src/lib/pdf-utils.ts): the option is a
 * hex string `#rrggbb` (the six-digit form of section 5.2 of CSS Color Module
 * Level 4), cut with `slice` and read with `parseInt(…, 16)`, each channel
 * divided by 255. `None` stands for the NaN that `parseInt` gives when no
 * hex digit can be read.
 */
module Colour {
  import opened Wrappers
  import opened Strings

  /** The value of a hexadecimal digit of either case. */
  function HexDigit(c: char): Option<nat> {
    if '0' <= c <= '9' then Some(c as int - '0' as int)
    else if 'a' <= c <= 'f' then Some(c as int - 'a' as int + 10)
    else if 'A' <= c <= 'F' then Some(c as int - 'A' as int + 10)
    else None
  }

  predicate IsHexDigit(c: char) {
    HexDigit(c).Some?
  }

  /** The number of hex digits `s` starts with. */
  function HexRun(s: string): (n: nat)
    ensures n <= |s|
    ensures forall i :: 0 <= i < n ==> IsHexDigit(s[i])
    ensures n < |s| ==> !IsHexDigit(s[n])
  {
    if s != [] && IsHexDigit(s[0]) then
      var n := 1 + HexRun(s[1..]);
      assert forall i :: 1 <= i < n ==> s[i] == s[1..][i - 1];
      n
    else 0
  }

  /** The value of a string of hex digits, most significant first. */
  function HexValue(s: string): nat
    requires forall i :: 0 <= i < |s| ==> IsHexDigit(s[i])
  {
    if s == [] then 0
    else
      assert IsHexDigit(s[|s| - 1]);
      HexValue(s[..|s| - 1]) * 16 + HexDigit(s[|s| - 1]).value
  }

  /** The digits after an optional `0x`/`0X`: the longest run of hex digits, or NaN if there is none. */
  function ParseMagnitude(s: string): (r: Option<nat>)
    ensures s != [] && (forall i :: 0 <= i < |s| ==> IsHexDigit(s[i])) ==> r == Some(HexValue(s))
  {
    var v := if |s| >= 2 && s[0] == '0' && (s[1] == 'x' || s[1] == 'X') then s[2..] else s;
    var n := HexRun(v);
    assert forall i :: 0 <= i < n ==> IsHexDigit(v[..n][i]);
    assert s != [] && (forall i :: 0 <= i < |s| ==> IsHexDigit(s[i])) ==> v[..n] == s by {
      if s != [] && (forall i :: 0 <= i < |s| ==> IsHexDigit(s[i])) {
        assert |s| >= 2 ==> IsHexDigit(s[1]);
        assert v == s && n == |s|;
      }
    }
    if n == 0 then None else Some(HexValue(v[..n]))
  }

  /**
   * `parseInt(s, 16)`: leading white space is skipped, then an optional sign,
   * then an optional `0x`/`0X`; the longest run of hex digits that follows is
   * the value, and NaN when that run is empty.
   */
  function ParseHex(s: string): (r: Option<int>)
    ensures s != [] && (forall i :: 0 <= i < |s| ==> IsHexDigit(s[i])) ==> r == Some(HexValue(s))
  {
    if s != [] && IsSpace(s[0]) then ParseHex(s[1..])
    else if s != [] && s[0] == '-' then
      var m := ParseMagnitude(s[1..]);
      if m.Some? then Some(-(m.value as int)) else None
    else if s != [] && s[0] == '+' then ParseMagnitude(s[1..])
    else ParseMagnitude(s)
  }

  /** `s.slice(begin, end)` for `0 <= begin <= end`: indices past the end are clamped. */
  function Slice(s: string, begin: nat, end: nat): (r: string)
    requires begin <= end
    ensures end <= |s| ==> r == s[begin..end]
    ensures |s| <= begin ==> r == ""
  {
    var e := if end <= |s| then end else |s|;
    var b := if begin <= e then begin else e;
    s[b..e]
  }

  datatype Rgb = Rgb(red: Option<real>, green: Option<real>, blue: Option<real>)

  /** One channel: two characters from `begin`, read as hex, over 255. */
  function Channel(color: string, begin: nat): Option<real> {
    var v := ParseHex(Slice(color, begin, begin + 2));
    if v.Some? then Some(v.value as real / 255.0) else None
  }

  /** The three `parseInt(color.slice(…), 16) / 255` of the source. */
  function DecodeColour(color: string): Rgb {
    Rgb(Channel(color, 1), Channel(color, 3), Channel(color, 5))
  }

  /** Six hex digits after one leading character; the character itself is not checked. */
  predicate WellFormed(color: string) {
    |color| == 7 && forall i :: 1 <= i < 7 ==> IsHexDigit(color[i])
  }

  /** The byte two hex digits spell, high digit first. */
  function Byte(hi: char, lo: char): nat
    requires IsHexDigit(hi) && IsHexDigit(lo)
  {
    HexDigit(hi).value * 16 + HexDigit(lo).value
  }

  lemma ByteBounded(hi: char, lo: char)
    requires IsHexDigit(hi) && IsHexDigit(lo)
    ensures Byte(hi, lo) <= 255
  {
  }

  /** The channel at `begin`, whose two digits sit at `begin` and `next`. */
  lemma {:induction false} ChannelOfWellFormed(color: string, begin: nat, next: nat)
    requires WellFormed(color) && (begin == 1 || begin == 3 || begin == 5) && next == begin + 1
    ensures Channel(color, begin) == Some(Byte(color[begin], color[next]) as real / 255.0)
  {
    var pair := Slice(color, begin, begin + 2);
    assert pair == [color[begin], color[next]];
    assert pair[..1] == [color[begin]];
    assert pair[..1][..0] == [];
    assert HexValue(pair[..1]) == HexDigit(color[begin]).value;
    assert HexValue(pair) == Byte(color[begin], color[next]);
  }

  /** A well-formed colour decodes to its three bytes over 255. */
  lemma WellFormedDecodes(color: string)
    requires WellFormed(color)
    ensures DecodeColour(color) == Rgb(Some(Byte(color[1], color[2]) as real / 255.0),
                                       Some(Byte(color[3], color[4]) as real / 255.0),
                                       Some(Byte(color[5], color[6]) as real / 255.0))
  {
    assert DecodeColour(color) == Rgb(Channel(color, 1), Channel(color, 3), Channel(color, 5));
    ChannelOfWellFormed(color, 1, 2);
    ChannelOfWellFormed(color, 3, 4);
    ChannelOfWellFormed(color, 5, 6);
  }

  /** Every channel of a well-formed colour lies in [0, 1]. */
  lemma WellFormedInRange(color: string)
    requires WellFormed(color)
    ensures var rgb := DecodeColour(color);
      rgb.red.Some? && rgb.green.Some? && rgb.blue.Some? &&
      0.0 <= rgb.red.value <= 1.0 && 0.0 <= rgb.green.value <= 1.0 && 0.0 <= rgb.blue.value <= 1.0
  {
    WellFormedDecodes(color);
    ByteBounded(color[1], color[2]);
    ByteBounded(color[3], color[4]);
    ByteBounded(color[5], color[6]);
  }

  /**
   * The argument check of the PDF library's `rgb`: each channel must be a
   * number that is not NaN and lies in [0, 1]; any other channel makes it
   * throw.
   */
  predicate ChannelAccepted(c: Option<real>) {
    c.Some? && 0.0 <= c.value <= 1.0
  }

  predicate Accepted(c: Rgb) {
    ChannelAccepted(c.red) && ChannelAccepted(c.green) && ChannelAccepted(c.blue)
  }

  /** A well-formed colour always passes the range check. */
  lemma WellFormedAccepted(color: string)
    requires WellFormed(color)
    ensures Accepted(DecodeColour(color))
  {
    WellFormedInRange(color);
  }

  /**
   * A minus sign where the red digits belong, as in `#-1ffff`: `parseInt`
   * reads a negative number, so the red channel is below 0 and the range
   * check throws.
   */
  lemma NegativeRedRejected(color: string)
    requires |color| >= 3 && color[1] == '-' && IsHexDigit(color[2]) && color[2] != '0'
    ensures DecodeColour(color).red.Some? && DecodeColour(color).red.value < 0.0
    ensures !Accepted(DecodeColour(color))
  {
    var pair := Slice(color, 1, 3);
    assert pair == ['-', color[2]];
    assert pair[1..] == [color[2]];
    assert [color[2]][..0] == [];
    assert HexValue([color[2]]) == HexDigit(color[2]).value;
    assert ParseHex(pair) == Some(-(HexDigit(color[2]).value as int));
  }

  /**
   * A colour too short to hold all six digits, as the three-digit `#fff`,
   * leaves the blue slice empty: `parseInt` gives NaN and `rgb` throws.
   */
  lemma ShortColourRejected(color: string)
    requires |color| <= 5
    ensures DecodeColour(color).blue.None?
    ensures !Accepted(DecodeColour(color))
  {
    assert Slice(color, 5, 7) == "";
    assert ParseMagnitude("") == None;
  }

  /** The three-digit shorthand `#fff` of white is rejected. */
  lemma ShorthandWhiteRejected()
    ensures !Accepted(DecodeColour("#fff"))
  {
    ShortColourRejected("#fff");
  }

  /** The lower-case hex digit of `d < 16`. */
  function DigitChar(d: nat): (c: char)
    requires d < 16
    ensures HexDigit(c) == Some(d)
  {
    if d < 10 then ('0' as int + d) as char else ('a' as int + d - 10) as char
  }

  /** `#rrggbb` for three bytes. */
  function EncodeColour(r: nat, g: nat, b: nat): (color: string)
    requires r < 256 && g < 256 && b < 256
    ensures WellFormed(color) && color[0] == '#'
  {
    ['#', DigitChar(r / 16), DigitChar(r % 16), DigitChar(g / 16), DigitChar(g % 16),
     DigitChar(b / 16), DigitChar(b % 16)]
  }

  lemma ByteOfDigits(x: nat)
    requires x < 256
    ensures Byte(DigitChar(x / 16), DigitChar(x % 16)) == x
  {
  }

  /** A well-formed colour whose three pairs spell the given bytes decodes to them over 255. */
  lemma DecodeBytes(color: string, r: nat, g: nat, b: nat)
    requires WellFormed(color)
    requires Byte(color[1], color[2]) == r && Byte(color[3], color[4]) == g && Byte(color[5], color[6]) == b
    ensures DecodeColour(color) == Rgb(Some(r as real / 255.0), Some(g as real / 255.0), Some(b as real / 255.0))
  {
    WellFormedDecodes(color);
  }

  /** Decoding an encoded colour gives each byte over 255. */
  lemma DecodeEncode(r: nat, g: nat, b: nat)
    requires r < 256 && g < 256 && b < 256
    ensures DecodeColour(EncodeColour(r, g, b)) ==
      Rgb(Some(r as real / 255.0), Some(g as real / 255.0), Some(b as real / 255.0))
  {
    var color := EncodeColour(r, g, b);
    assert Byte(color[1], color[2]) == r by {
      ByteOfDigits(r);
    }
    assert Byte(color[3], color[4]) == g by {
      ByteOfDigits(g);
    }
    assert Byte(color[5], color[6]) == b by {
      ByteOfDigits(b);
    }
    DecodeBytes(color, r, g, b);
  }

  /** The default `#cccccc` is a light grey of 204/255 in each channel. */
  lemma DefaultColour()
    ensures DecodeColour("#cccccc") == Rgb(Some(0.8), Some(0.8), Some(0.8))
  {
    assert WellFormed("#cccccc");
    WellFormedDecodes("#cccccc");
  }
}
