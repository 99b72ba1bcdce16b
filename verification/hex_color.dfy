/**
 * The colour encoder of src/gl.ts: `componentToHex` and `rgbToHex`.
 *
 * A channel is a JavaScript number that may be `undefined`. The channels that
 * reach the encoder are read out of a byte buffer, so a channel is modelled as
 * a natural number or `None`. `Number.prototype.toString(16)` on a natural
 * number is modelled by `Radix16`; nothing clamps a channel to a byte.
 */
module HexColor {
  import opened Options

  type Channel = Option<nat>

  /** The value a channel stands for: `undefined` encodes like 0. */
  function ChannelValue(c: Channel): nat
  {
    c.GetOr(0)
  }

  /** A channel the encoder can write in two digits. */
  predicate InByteRange(c: Channel)
  {
    c.None? || c.value < 256
  }

  // ---------------------------------------------------------------------------
  // Digits

  predicate IsHexDigit(ch: char)
  {
    '0' <= ch <= '9' || 'a' <= ch <= 'f'
  }

  predicate IsHexString(s: string)
  {
    forall i :: 0 <= i < |s| ==> IsHexDigit(s[i])
  }

  function DigitValue(ch: char): (d: nat)
    requires IsHexDigit(ch)
    ensures d < 16
  {
    if '0' <= ch <= '9' then ch as int - '0' as int else ch as int - 'a' as int + 10
  }

  /** The lower-case digit JavaScript writes for `d` in base 16. */
  function Digit(d: nat): (ch: char)
    requires d < 16
    ensures IsHexDigit(ch)
    ensures DigitValue(ch) == d
  {
    if d < 10 then ('0' as int + d) as char else ('a' as int + d - 10) as char
  }

  lemma DigitOfValue(ch: char)
    requires IsHexDigit(ch)
    ensures Digit(DigitValue(ch)) == ch
  {
  }

  lemma HexConcat(a: string, b: string)
    requires IsHexString(a) && IsHexString(b)
    ensures IsHexString(a + b)
  {
  }

  /** Reads a string of hexadecimal digits, most significant first. */
  function ParseHex(s: string): nat
    requires IsHexString(s)
  {
    if |s| == 0 then 0 else 16 * ParseHex(s[..|s| - 1]) + DigitValue(s[|s| - 1])
  }

  /** A hexadecimal numeral as `toString(16)` writes one: at least one digit and
      no leading zero unless the numeral is "0". */
  predicate IsCanonicalHex(s: string)
  {
    1 <= |s| && IsHexString(s) && (|s| > 1 ==> s[0] != '0')
  }

  // ---------------------------------------------------------------------------
  // Number.prototype.toString(16)

  /** The digits `n.toString(16)` yields for a non-negative integer `n`. */
  function Radix16(n: nat): (s: string)
    ensures IsCanonicalHex(s)
    ensures ParseHex(s) == n
    decreases n
  {
    if n < 16 then [Digit(n)] else Radix16(n / 16) + [Digit(n % 16)]
  }

  /** A numeral never reads as less than its leading digit. */
  lemma {:induction false} ParseHexAtLeastLeading(s: string)
    requires IsHexString(s) && 1 <= |s|
    ensures ParseHex(s) >= DigitValue(s[0])
    decreases |s|
  {
    if |s| > 1 {
      ParseHexAtLeastLeading(s[..|s| - 1]);
    }
  }

  /** `Radix16` is onto the canonical numerals: it inverts `ParseHex` on them. */
  lemma {:induction false} Radix16OfParseHex(s: string)
    requires IsCanonicalHex(s)
    ensures Radix16(ParseHex(s)) == s
    decreases |s|
  {
    if |s| == 1 {
      DigitOfValue(s[0]);
    } else {
      var front := s[..|s| - 1];
      var last := s[|s| - 1];
      assert IsCanonicalHex(front);
      ParseHexAtLeastLeading(front);
      assert ParseHex(front) >= 1 by {
        if s[0] != '0' {
          assert front[0] == s[0];
        }
      }
      var n := ParseHex(s);
      assert n == 16 * ParseHex(front) + DigitValue(last);
      assert n / 16 == ParseHex(front) && n % 16 == DigitValue(last);
      Radix16OfParseHex(front);
      DigitOfValue(last);
      assert s == front + [last];
    }
  }

  /** How many digits `toString(16)` writes: one below 16, two below 256,
      three or more from 256 on. */
  lemma {:induction false} Radix16Length(n: nat)
    ensures |Radix16(n)| == 1 <==> n < 16
    ensures |Radix16(n)| == 2 <==> 16 <= n < 256
    ensures |Radix16(n)| >= 3 <==> 256 <= n
    decreases n
  {
    if n >= 16 {
      Radix16Length(n / 16);
    }
  }

  // ---------------------------------------------------------------------------
  // componentToHex and rgbToHex

  /** `componentToHex`: `undefined` becomes "00", otherwise the base-16 digits of
      the channel, padded on the left with one '0' when there is only one. */
  function ComponentToHex(c: Channel): (s: string)
    ensures IsHexString(s)
    ensures |s| == 2 <==> InByteRange(c)
    ensures 2 <= |s|
    ensures c.None? ==> s == "00"
    ensures c.Some? && c.value < 256 ==> s == [Digit(c.value / 16), Digit(c.value % 16)]
    ensures c.Some? && c.value < 16 ==> s == "0" + Radix16(c.value)
    ensures c.Some? && 16 <= c.value ==> s == Radix16(c.value)
    ensures c.Some? && 256 <= c.value ==> 3 <= |s| && IsCanonicalHex(s) && ParseHex(s) == c.value
  {
    var hex := if c.None? then "00" else Radix16(c.value);
    Radix16Length(ChannelValue(c));
    PadHex(hex)
  }

  /** The padding step of `componentToHex`: a one-digit numeral gets a
      leading '0', which keeps its value; longer numerals are left alone. */
  function PadHex(hex: string): (p: string)
    ensures 1 <= |hex| <= 2 ==> |p| == 2
    ensures IsHexString(hex) ==> IsHexString(p) && ParseHex(p) == ParseHex(hex)
  {
    if |hex| == 1 then
      assert IsHexString(hex) ==> ParseHex("0" + hex) == ParseHex(hex) by {
        if IsHexString(hex) {
          var p := "0" + hex;
          assert p[..1] == "0";
        }
      }
      "0" + hex
    else
      hex
  }

  /** `rgbToHex`: a '#' followed by the three encoded channels. */
  function RgbToHex(r: Channel, g: Channel, b: Channel): (s: string)
    ensures 7 <= |s| && s[0] == '#'
    ensures InByteRange(r) && InByteRange(g) && InByteRange(b) <==> |s| == 7
    ensures IsHexString(s[1..])
  {
    var hr, hg, hb := ComponentToHex(r), ComponentToHex(g), ComponentToHex(b);
    var digits := hr + hg + hb;
    HexConcat(hr, hg);
    HexConcat(hr + hg, hb);
    var s := "#" + digits;
    assert s[1..] == digits;
    s
  }

  /** Reads a colour string of the form `#rrggbb` back into its three channels. */
  function DecodeHexColor(s: string): Option<(nat, nat, nat)>
  {
    if |s| == 7 && s[0] == '#' && IsHexString(s[1..]) then
      Some((ParseHex(s[1..3]), ParseHex(s[3..5]), ParseHex(s[5..7])))
    else
      None
  }

  // ---------------------------------------------------------------------------
  // Properties of the encoder

  /** A two-digit numeral reads as sixteen times its first digit plus its second. */
  lemma ParseHexTwoDigits(t: string)
    requires |t| == 2 && IsHexString(t)
    ensures ParseHex(t) == 16 * DigitValue(t[0]) + DigitValue(t[1])
  {
    var front := t[..1];
    assert front[..0] == [];
    assert ParseHex(front) == 16 * ParseHex([]) + DigitValue(front[0]);
    assert ParseHex(t) == 16 * ParseHex(front) + DigitValue(t[1]);
  }

  /** A two-digit component reads back as the channel value it encodes. */
  lemma {:induction false} ComponentToHexRoundTrip(c: Channel)
    requires InByteRange(c)
    ensures ParseHex(ComponentToHex(c)) == ChannelValue(c)
  {
    ParseHexTwoDigits(ComponentToHex(c));
  }

  /** Every two-digit string is the encoding of the byte it reads as. */
  lemma {:induction false} ComponentToHexOfParse(t: string)
    requires |t| == 2 && IsHexString(t)
    ensures ParseHex(t) < 256
    ensures ComponentToHex(Some(ParseHex(t))) == t
  {
    ParseHexTwoDigits(t);
    var v := ParseHex(t);
    assert v == 16 * DigitValue(t[0]) + DigitValue(t[1]);
    assert v / 16 == DigitValue(t[0]) && v % 16 == DigitValue(t[1]);
    DigitOfValue(t[0]);
    DigitOfValue(t[1]);
  }

  /** Where the three components sit inside a seven-character colour. */
  lemma RgbToHexSlices(r: Channel, g: Channel, b: Channel)
    requires InByteRange(r) && InByteRange(g) && InByteRange(b)
    ensures RgbToHex(r, g, b)[1..3] == ComponentToHex(r)
    ensures RgbToHex(r, g, b)[3..5] == ComponentToHex(g)
    ensures RgbToHex(r, g, b)[5..7] == ComponentToHex(b)
  {
    var hr, hg, hb := ComponentToHex(r), ComponentToHex(g), ComponentToHex(b);
    assert RgbToHex(r, g, b) == "#" + hr + hg + hb;
    SlicesOfConcat(hr, hg, hb);
  }

  lemma SlicesOfConcat(a: string, b: string, c: string)
    requires |a| == 2 && |b| == 2 && |c| == 2
    ensures ("#" + a + b + c)[1..3] == a && ("#" + a + b + c)[3..5] == b && ("#" + a + b + c)[5..7] == c
  {
  }

  /** Encoding then decoding gives back the three channel values, with
      `undefined` read back as 0. */
  lemma {:induction false} RgbToHexRoundTrip(r: Channel, g: Channel, b: Channel)
    requires InByteRange(r) && InByteRange(g) && InByteRange(b)
    ensures DecodeHexColor(RgbToHex(r, g, b)) == Some((ChannelValue(r), ChannelValue(g), ChannelValue(b)))
  {
    RgbToHexSlices(r, g, b);
    ComponentToHexRoundTrip(r);
    ComponentToHexRoundTrip(g);
    ComponentToHexRoundTrip(b);
  }

  /** Every string the decoder accepts is the encoding of the bytes it decodes to. */
  lemma {:induction false} DecodeHexColorRoundTrip(s: string)
    requires DecodeHexColor(s).Some?
    ensures var (r, g, b) := DecodeHexColor(s).value;
      r < 256 && g < 256 && b < 256 && RgbToHex(Some(r), Some(g), Some(b)) == s
  {
    var (r, g, b) := DecodeHexColor(s).value;
    HexSlice(s[1..], 0, 2);
    HexSlice(s[1..], 2, 4);
    HexSlice(s[1..], 4, 6);
    assert s[1..3] == s[1..][0..2] && s[3..5] == s[1..][2..4] && s[5..7] == s[1..][4..6];
    ComponentToHexOfParse(s[1..3]);
    ComponentToHexOfParse(s[3..5]);
    ComponentToHexOfParse(s[5..7]);
    RgbToHexSlices(Some(r), Some(g), Some(b));
    SameBySlices(RgbToHex(Some(r), Some(g), Some(b)), s);
  }

  lemma HexSlice(s: string, i: nat, j: nat)
    requires IsHexString(s) && i <= j <= |s|
    ensures IsHexString(s[i..j])
  {
    assert forall k :: 0 <= k < j - i ==> s[i..j][k] == s[i + k];
  }

  /** Two seven-character colours with the same '#' and the same three
      two-digit slices are equal. */
  lemma SameBySlices(s: string, t: string)
    requires |s| == 7 && |t| == 7 && s[0] == t[0]
    requires s[1..3] == t[1..3] && s[3..5] == t[3..5] && s[5..7] == t[5..7]
    ensures s == t
  {
    assert s == [s[0]] + s[1..3] + s[3..5] + s[5..7];
    assert t == [t[0]] + t[1..3] + t[3..5] + t[5..7];
  }

  /** Byte triples have distinct colour strings. */
  lemma {:induction false} RgbToHexInjective(r: nat, g: nat, b: nat, r': nat, g': nat, b': nat)
    requires r < 256 && g < 256 && b < 256 && r' < 256 && g' < 256 && b' < 256
    requires RgbToHex(Some(r), Some(g), Some(b)) == RgbToHex(Some(r'), Some(g'), Some(b'))
    ensures r == r' && g == g' && b == b'
  {
    RgbToHexRoundTrip(Some(r), Some(g), Some(b));
    RgbToHexRoundTrip(Some(r'), Some(g'), Some(b'));
  }

  /** Nothing clamps: a channel of 256 or more makes the string longer than
      seven characters, and the decoder refuses it. */
  lemma {:induction false} RgbToHexUnclamped(r: Channel, g: Channel, b: Channel)
    requires !(InByteRange(r) && InByteRange(g) && InByteRange(b))
    ensures |RgbToHex(r, g, b)| > 7
    ensures DecodeHexColor(RgbToHex(r, g, b)).None?
  {
  }

  /** A component is written "00" exactly when it is 0 or `undefined`. */
  lemma ComponentToHexZero(c: Channel)
    ensures ComponentToHex(c) == "00" <==> ChannelValue(c) == 0
  {
    if c.Some? && c.value < 256 {
      var s := ComponentToHex(c);
      if s == "00" {
        assert DigitValue(s[0]) == c.value / 16 && DigitValue(s[1]) == c.value % 16;
      }
      if c.value == 0 {
        assert Digit(0) == '0';
      }
    }
  }

  /** The colour is "#000000" exactly when every channel is 0 or `undefined`. */
  lemma {:induction false} RgbToHexBlack(r: Channel, g: Channel, b: Channel)
    ensures RgbToHex(r, g, b) == "#000000" <==>
      ChannelValue(r) == 0 && ChannelValue(g) == 0 && ChannelValue(b) == 0
  {
    if InByteRange(r) && InByteRange(g) && InByteRange(b) {
      RgbToHexSlices(r, g, b);
      ComponentToHexZero(r);
      ComponentToHexZero(g);
      ComponentToHexZero(b);
      BlackBySlices(RgbToHex(r, g, b));
    }
  }

  /** A seven-character colour is "#000000" exactly when its three
      two-digit slices are "00". */
  lemma BlackBySlices(s: string)
    requires |s| == 7 && s[0] == '#'
    ensures s == "#000000" <==> s[1..3] == "00" && s[3..5] == "00" && s[5..7] == "00"
  {
    if s[1..3] == "00" && s[3..5] == "00" && s[5..7] == "00" {
      SameBySlices(s, "#000000");
    }
  }

  /** The worked examples: black, pure red, and a missing red channel. */
  lemma RgbToHexExamples()
    ensures RgbToHex(Some(0), Some(0), Some(0)) == "#000000"
    ensures RgbToHex(Some(255), Some(0), Some(0)) == "#ff0000"
    ensures RgbToHex(None, Some(255), Some(128)) == "#00ff80"
  {
    assert ComponentToHex(Some(0)) == "00";
    assert ComponentToHex(Some(255)) == "ff";
    assert ComponentToHex(Some(128)) == "80";
  }

  /** A red channel of 256 is written with three digits and nothing is cut off. */
  lemma RgbToHexOverflowExample()
    ensures RgbToHex(Some(256), Some(0), Some(0)) == "#1000000"
  {
    assert Digit(0) == '0' && Digit(1) == '1';
    assert Radix16(16) == Radix16(1) + [Digit(0)];
    assert Radix16(256) == Radix16(16) + [Digit(0)];
    assert ComponentToHex(Some(256)) == "100";
    assert ComponentToHex(Some(0)) == "00";
    var s := RgbToHex(Some(256), Some(0), Some(0));
    assert s == "#" + "100" + "00" + "00";
  }
}
