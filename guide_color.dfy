/**
 * Colour resolution of the guide-sheet reporter: `getColor` and
 * `getColorBySuffix`. A colour parameter is a hex string holding one colour
 * (`RRGGBB`, used for both roles) or two (`RRGGBB?RRGGBB`, the first for open
 * paths, index 0, the second for closed paths, index 1). Anything that does
 * not parse gives the fixed default colour, never an error.
 */
module GuideColor {
  import opened Wrappers
  import opened PyStr

  /** A byte, the range of a channel written as two hex digits. */
  type Byte = x: int | 0 <= x < 256

  /**
   * A colour channel before the division by 255: what `int(pair, 16)` can
   * return for a slice of at most two characters, a signed digit included.
   */
  type Channel = x: int | -15 <= x < 256

  /**
   * The colour handed to the canvas: three channels read from the parameter,
   * or the fixed default (0.1, 0.6, 0.8), each at the requested alpha.
   */
  datatype Color = Rgb(red: Channel, green: Channel, blue: Channel, alpha: real) | DefaultColor(alpha: real)

  const GuideColorKey := "Guide Color"

  /** Value of one hexadecimal digit, either case; `None` for any other character. */
  function HexDigitValue(c: char): (r: Option<nat>)
    ensures r.Some? ==> r.value < 16
  {
    if '0' <= c <= '9' then Some(c as int - '0' as int)
    else if 'a' <= c <= 'f' then Some(c as int - 'a' as int + 10)
    else if 'A' <= c <= 'F' then Some(c as int - 'A' as int + 10)
    else None
  }

  /** `16^n` */
  function Pow16(n: nat): (r: nat)
    ensures r >= 1
  {
    if n == 0 then 1 else 16 * Pow16(n - 1)
  }

  /**
   * `int(s, 16)` on a string made only of hex digits: `None` for the empty
   * string or any other character, the base-16 value otherwise.
   */
  function ParseHex(s: string): (r: Option<nat>)
    ensures r.Some? ==> s != [] && r.value < Pow16(|s|)
    decreases |s|
  {
    if |s| == 0 then None
    else
      var d := HexDigitValue(s[|s| - 1]);
      if |s| == 1 then d
      else match (ParseHex(s[..|s| - 1]), d)
        case (Some(hi), Some(lo)) => Some(hi * 16 + lo)
        case _ => None
  }

  /** `ParseHex` succeeds exactly on the non-empty strings of hex digits. */
  lemma {:induction false} ParseHexDefined(s: string)
    ensures ParseHex(s).Some? <==> s != [] && forall k :: 0 <= k < |s| ==> HexDigitValue(s[k]).Some?
    decreases |s|
  {
    if |s| > 1 {
      var init := s[..|s| - 1];
      ParseHexDefined(init);
      assert forall k :: 0 <= k < |init| ==> init[k] == s[k];
    }
  }

  /**
   * The whitespace `int()` skips around a numeral: the characters of
   * `str.isspace()` except the four information separators U+001C..U+001F.
   * CPython turns non-ASCII whitespace into spaces and then skips only the
   * ASCII whitespace 0x09..0x0D and 0x20, which leaves those four in place.
   */
  predicate IntSpace(c: char)
  {
    IsSpace(c) && !('\U{1C}' <= c <= '\U{1F}')
  }

  /** Digits and signs are never whitespace. */
  lemma HexDigitNotSpace(c: char)
    requires HexDigitValue(c).Some? || c == '+' || c == '-'
    ensures !IsSpace(c) && !IntSpace(c)
  {
  }

  /**
   * Python's `int(s, 16)` on a slice of at most two characters: surrounding
   * whitespace is ignored, a sign may precede a single digit, and otherwise
   * the slice must be one or two hex digits. `None` stands for the
   * `ValueError` Python raises.
   */
  function ParseChannel(s: string): (r: Option<Channel>)
    requires |s| <= 2
    ensures r.Some? ==> s != []
    ensures r.Some? && r.value < 0 ==> '-' in s
  {
    var t := StripBy(s, IntSpace);
    if |t| == 2 && (t[0] == '+' || t[0] == '-') then
      match HexDigitValue(t[1])
      case None => None
      case Some(d) =>
        var v: int := d;
        assert t[0] == s[SkipSpace(s, 0, IntSpace)];
        Some(if t[0] == '-' then -v else v)
    else
      match ParseHex(t)
      case None => None
      case Some(v) =>
        assert Pow16(|t|) <= 256;
        Some(v)
  }

  /** One or two plain hex digits parse as their base-16 value. */
  lemma DigitsParseAsHex(s: string)
    requires |s| <= 2 && ParseHex(s).Some?
    ensures ParseChannel(s) == ParseHex(s)
  {
    ParseHexDefined(s);
    HexDigitNotSpace(s[0]);
    HexDigitNotSpace(s[|s| - 1]);
    StripKeepsTrimmed(s, IntSpace);
  }

  /** A sign before one hex digit is accepted: `int("-a", 16) == -10`. */
  lemma SignedDigit(sign: char, c: char)
    requires sign == '+' || sign == '-'
    requires HexDigitValue(c).Some?
    ensures var d: int := HexDigitValue(c).value;
      ParseChannel([sign, c]) == Some(if sign == '-' then -d else d)
  {
    HexDigitNotSpace(sign);
    HexDigitNotSpace(c);
    StripKeepsTrimmed([sign, c], IntSpace);
  }

  /** Whitespace on either side of one hex digit is stripped: `int(" a", 16) == 10`. */
  lemma PaddedDigit(w: char, c: char)
    requires IntSpace(w) && HexDigitValue(c).Some?
    ensures ParseChannel([w, c]) == HexDigitValue(c)
    ensures ParseChannel([c, w]) == HexDigitValue(c)
  {
    HexDigitNotSpace(c);
    assert SkipSpace([w, c], 0, IntSpace) == 1;
    assert SkipSpaceBack([w, c], 1, 2, IntSpace) == 2;
    assert SkipSpace([c, w], 0, IntSpace) == 0;
    assert SkipSpaceBack([c, w], 0, 2, IntSpace) == 1;
    assert [c, w][0..1] == [c];
  }

  /**
   * The slices of at most two characters that `int(slice, 16)` accepts: one
   * or two hex digits, a sign before a digit, or a digit with `int`
   * whitespace on one side.
   */
  predicate ChannelForm(s: string)
  {
    (|s| <= 2 && ParseHex(s).Some?)
    || (|s| == 2 && (s[0] == '+' || s[0] == '-') && HexDigitValue(s[1]).Some?)
    || (|s| == 2 && IntSpace(s[0]) && HexDigitValue(s[1]).Some?)
    || (|s| == 2 && HexDigitValue(s[0]).Some? && IntSpace(s[1]))
  }

  /** Every slice of `ChannelForm` parses. */
  lemma FormParses(s: string)
    requires ChannelForm(s)
    ensures ParseChannel(s).Some?
  {
    if |s| <= 2 && ParseHex(s).Some? {
      DigitsParseAsHex(s);
    } else {
      assert s == [s[0], s[1]];
      if s[0] == '+' || s[0] == '-' {
        SignedDigit(s[0], s[1]);
      } else if IntSpace(s[0]) {
        PaddedDigit(s[0], s[1]);
      } else {
        PaddedDigit(s[1], s[0]);
      }
    }
  }

  /** A slice that parses has one of the forms of `ChannelForm`. */
  lemma ParsedHasForm(s: string)
    requires |s| <= 2 && ParseChannel(s).Some?
    ensures ChannelForm(s)
  {
    var t := StripBy(s, IntSpace);
    var lead := StripShape(s, IntSpace);
    if |t| == 2 {
      assert s == t;
      if !(s[0] == '+' || s[0] == '-') {
        assert ParseHex(s).Some?;
      }
    } else {
      ParseHexDefined(t);
      assert |t| == 1 && HexDigitValue(s[lead]).Some?;
      if |s| == 1 {
        assert s == t;
      } else if lead == 0 {
        assert IntSpace(s[1]);
      } else {
        assert IntSpace(s[0]);
      }
    }
  }

  /**
   * `int(slice, 16)` accepts exactly the slices of `ChannelForm`, so `"a-"`,
   * `"+"`, `"--"`, `" -"` and blank slices all raise.
   */
  lemma ParseChannelForms(s: string)
    requires |s| <= 2
    ensures ParseChannel(s).Some? <==> ChannelForm(s)
  {
    if ChannelForm(s) {
      FormParses(s);
    }
    if ParseChannel(s).Some? {
      ParsedHasForm(s);
    }
  }

  /** The characters that may occur in a slice `int(slice, 16)` accepts. */
  predicate NumeralChar(c: char)
  {
    HexDigitValue(c).Some? || IntSpace(c) || c == '+' || c == '-'
  }

  /** A character that is neither a hex digit, `int` whitespace nor a sign makes the slice unparsable. */
  lemma NonNumeralFails(s: string, k: nat)
    requires |s| <= 2 && k < |s| && !NumeralChar(s[k])
    ensures ParseChannel(s).None?
  {
    var t := StripBy(s, IntSpace);
    var lead := StripShape(s, IntSpace);
    assert lead <= k < lead + |t|;
    assert t[k - lead] == s[k];
    ParseHexDefined(t);
  }

  /**
   * `str.isspace()` and `int()` disagree on U+001C..U+001F: `strip()` removes
   * them, but `int("\x1cA", 16)` raises, so the slice does not parse.
   */
  lemma InformationSeparatorRejected(c: char)
    requires HexDigitValue(c).Some?
    ensures IsSpace('\U{1C}') && !IntSpace('\U{1C}')
    ensures ParseChannel(['\U{1C}', c]).None?
  {
    NonNumeralFails(['\U{1C}', c], 0);
  }

  /** Where the six characters of the colour with this index start. */
  function WindowStart(hex: string, index: int): (o: nat)
    ensures o == 7 ==> |hex| >= 13
  {
    if index == 1 && |hex| >= 13 then 7 else 0
  }

  /** The colour whose three two-character channels start at `o` in `s`, or the default. */
  function ColorAt(s: string, o: nat, alpha: real): (c: Color)
    ensures c.alpha == alpha
    ensures c.Rgb? ==> o + 4 < |s|
  {
    match (ParseChannel(Slice(s, o, o + 2)), ParseChannel(Slice(s, o + 2, o + 4)), ParseChannel(Slice(s, o + 4, o + 6)))
    case (Some(r), Some(g), Some(b)) => Rgb(r, g, b, alpha)
    case _ => DefaultColor(alpha)
  }

  /**
   * The try-block of `getColor` / `getColorBySuffix`: read three hex pairs at
   * the window's start, with Python's slice clamping, falling back to the
   * default colour on a missing parameter or any unparsable pair.
   */
  function ColorFromHex(hex: Option<string>, index: int, alpha: real): (c: Color)
    ensures c.alpha == alpha
    ensures hex.None? ==> c.DefaultColor?
  {
    match hex
    case None => DefaultColor(alpha)
    case Some(s) => ColorAt(s, WindowStart(s, index), alpha)
  }

  /** `getColor(index, alpha)`: the colour in the font's `Guide Color` parameter. */
  function GetColor(params: map<string, string>, index: int, alpha: real): (c: Color)
    ensures c.alpha == alpha
    ensures GuideColorKey !in params ==> c == DefaultColor(alpha)
  {
    ColorFromHex(Lookup(params, GuideColorKey), index, alpha)
  }

  /** The parameter key `getColorBySuffix` reads for a suffix. */
  function SuffixColorKey(suffix: string): (key: string)
    ensures key != GuideColorKey
    ensures StartsWith(key, GuideColorKey + ":") && key[|GuideColorKey| + 1..] == suffix
  {
    assert |GuideColorKey + ":" + suffix| > |GuideColorKey|;
    StartsWithConcat(GuideColorKey + ":", suffix);
    GuideColorKey + ":" + suffix
  }

  /** `getColorBySuffix(suffix, index, alpha)`: the colour in `Guide Color:<suffix>`. */
  function GetColorBySuffix(params: map<string, string>, suffix: string, index: int, alpha: real): (c: Color)
    ensures c.alpha == alpha
    ensures SuffixColorKey(suffix) !in params ==> c == DefaultColor(alpha)
  {
    ColorFromHex(Lookup(params, SuffixColorKey(suffix)), index, alpha)
  }

  // ---------------------------------------------------------------------------
  // Formatting colours as parameter strings, the inverse of parsing.

  /** Upper-case hex digit for `0 <= d < 16`. */
  function HexChar(d: nat): (c: char)
    requires d < 16
    ensures HexDigitValue(c) == Some(d)
  {
    if d < 10 then ('0' as int + d) as char else ('A' as int + d - 10) as char
  }

  /** A byte as two upper-case hex digits. */
  function FormatByte(b: Byte): (s: string)
    ensures |s| == 2
  {
    [HexChar(b / 16), HexChar(b % 16)]
  }

  /** A colour as the six-digit `RRGGBB` string the parameter holds. */
  function FormatRgb(r: Byte, g: Byte, b: Byte): (s: string)
    ensures |s| == 6
  {
    FormatByte(r) + FormatByte(g) + FormatByte(b)
  }

  /** Two formatted digits read back as the byte they format. */
  lemma ParseFormatByte(b: Byte)
    ensures ParseChannel(FormatByte(b)) == Some(b)
  {
    var s := FormatByte(b);
    assert s[..1] == [HexChar(b / 16)];
    assert ParseHex(s[..1]) == Some(b / 16);
    assert HexDigitValue(s[1]) == Some(b % 16);
    assert ParseHex(s) == Some(b / 16 * 16 + b % 16);
    DigitsParseAsHex(s);
  }

  /** Six formatted digits at `o` read back as the colour they format. */
  lemma FormattedAt(s: string, o: nat, r: Byte, g: Byte, b: Byte, alpha: real)
    requires o + 6 <= |s| && s[o..o + 6] == FormatRgb(r, g, b)
    ensures ColorAt(s, o, alpha) == Rgb(r, g, b, alpha)
  {
    var w := s[o..o + 6];
    assert w == FormatByte(r) + FormatByte(g) + FormatByte(b);
    assert Slice(s, o, o + 2) == w[..2] == FormatByte(r);
    assert Slice(s, o + 2, o + 4) == w[2..4] == FormatByte(g);
    assert Slice(s, o + 4, o + 6) == w[4..] == FormatByte(b);
    ParseFormatByte(r);
    ParseFormatByte(g);
    ParseFormatByte(b);
  }

  /** Parsing a six-digit colour gives back its channels, for either index. */
  lemma SingleColorRoundTrip(r: Byte, g: Byte, b: Byte, index: int, alpha: real)
    ensures ColorFromHex(Some(FormatRgb(r, g, b)), index, alpha) == Rgb(r, g, b, alpha)
  {
    var s := FormatRgb(r, g, b);
    assert s[0..6] == s;
    FormattedAt(s, 0, r, g, b, alpha);
  }

  /**
   * A two-colour parameter `RRGGBB` + any character + `RRGGBB`: index 0 reads
   * the first (open-path) colour, index 1 the second (closed-path) colour.
   */
  lemma ColorPairRoundTrip(openC: (Byte, Byte, Byte), sepChar: char, closedC: (Byte, Byte, Byte), alpha: real)
    ensures ColorFromHex(Some(FormatRgb(openC.0, openC.1, openC.2) + [sepChar] + FormatRgb(closedC.0, closedC.1, closedC.2)), 0, alpha)
         == Rgb(openC.0, openC.1, openC.2, alpha)
    ensures ColorFromHex(Some(FormatRgb(openC.0, openC.1, openC.2) + [sepChar] + FormatRgb(closedC.0, closedC.1, closedC.2)), 1, alpha)
         == Rgb(closedC.0, closedC.1, closedC.2, alpha)
  {
    var first := FormatRgb(openC.0, openC.1, openC.2);
    var second := FormatRgb(closedC.0, closedC.1, closedC.2);
    var s := first + [sepChar] + second;
    assert s[0..6] == first;
    assert s[7..13] == second;
    FormattedAt(s, 0, openC.0, openC.1, openC.2, alpha);
    FormattedAt(s, 7, closedC.0, closedC.1, closedC.2, alpha);
  }

  /** A `Guide Color` parameter holding one formatted colour gives that colour for both roles. */
  lemma ConfiguredColor(params: map<string, string>, r: Byte, g: Byte, b: Byte, index: int, alpha: real)
    requires GuideColorKey in params && params[GuideColorKey] == FormatRgb(r, g, b)
    ensures GetColor(params, index, alpha) == Rgb(r, g, b, alpha)
  {
    SingleColorRoundTrip(r, g, b, index, alpha);
  }

  /**
   * A `Guide Color:<suffix>` parameter holding two formatted colours gives the
   * first for index 0 (open paths) and the second for index 1 (closed paths).
   */
  lemma ConfiguredColorPairBySuffix(params: map<string, string>, suffix: string,
                                    openC: (Byte, Byte, Byte), sepChar: char, closedC: (Byte, Byte, Byte), alpha: real)
    requires SuffixColorKey(suffix) in params
    requires params[SuffixColorKey(suffix)] == FormatRgb(openC.0, openC.1, openC.2) + [sepChar] + FormatRgb(closedC.0, closedC.1, closedC.2)
    ensures GetColorBySuffix(params, suffix, 0, alpha) == Rgb(openC.0, openC.1, openC.2, alpha)
    ensures GetColorBySuffix(params, suffix, 1, alpha) == Rgb(closedC.0, closedC.1, closedC.2, alpha)
  {
    ColorPairRoundTrip(openC, sepChar, closedC, alpha);
  }

  /** Two strings with the same three channel slices give the same colour. */
  lemma SameChannels(s: string, o: nat, t: string, p: nat, alpha: real)
    requires Slice(s, o, o + 2) == Slice(t, p, p + 2)
    requires Slice(s, o + 2, o + 4) == Slice(t, p + 2, p + 4)
    requires Slice(s, o + 4, o + 6) == Slice(t, p + 4, p + 6)
    ensures ColorAt(s, o, alpha) == ColorAt(t, p, alpha)
  {
  }

  /**
   * Index 1 on a string of at least 13 characters is index 0 on the string
   * from character 7: the second colour sits seven characters in.
   */
  lemma SecondColorIsShiftedFirst(s: string, alpha: real)
    requires |s| >= 13
    ensures ColorFromHex(Some(s), 1, alpha) == ColorFromHex(Some(s[7..]), 0, alpha)
  {
    var t := s[7..];
    assert Slice(s, 7, 9) == Slice(t, 0, 2);
    assert Slice(s, 9, 11) == Slice(t, 2, 4);
    assert Slice(s, 11, 13) == Slice(t, 4, 6);
    SameChannels(s, 7, t, 0, alpha);
  }

  /**
   * Everywhere else (index 0, any index other than 1, or a string shorter
   * than 13) both roles read the same first six characters.
   */
  lemma FirstWindowOtherwise(s: string, index: int, alpha: real)
    requires !(index == 1 && |s| >= 13)
    ensures ColorFromHex(Some(s), index, alpha) == ColorFromHex(Some(s), 0, alpha)
    ensures |s| >= 6 ==> ColorFromHex(Some(s), index, alpha) == ColorFromHex(Some(s[..6]), 0, alpha)
  {
    if |s| >= 6 {
      var t := s[..6];
      assert Slice(s, 0, 2) == Slice(t, 0, 2);
      assert Slice(s, 2, 4) == Slice(t, 2, 4);
      assert Slice(s, 4, 6) == Slice(t, 4, 6);
      SameChannels(s, 0, t, 0, alpha);
    }
  }

  /**
   * When the three clamped slices of the window are runs of hex digits with
   * base-16 values `r`, `g` and `b`, the result is the colour `(r, g, b)`.
   */
  lemma HexWindowParses(s: string, index: int, alpha: real, r: Byte, g: Byte, b: Byte)
    requires var o := WindowStart(s, index);
      && ParseHex(Slice(s, o, o + 2)) == Some(r)
      && ParseHex(Slice(s, o + 2, o + 4)) == Some(g)
      && ParseHex(Slice(s, o + 4, o + 6)) == Some(b)
    ensures ColorFromHex(Some(s), index, alpha) == Rgb(r, g, b, alpha)
  {
    var o := WindowStart(s, index);
    DigitsParseAsHex(Slice(s, o, o + 2));
    DigitsParseAsHex(Slice(s, o + 2, o + 4));
    DigitsParseAsHex(Slice(s, o + 4, o + 6));
    ParsedChannels(s, o, alpha, r, g, b);
  }

  /** Three channels that parse make the colour at `o` the colour of those channels. */
  lemma ParsedChannels(s: string, o: nat, alpha: real, r: Channel, g: Channel, b: Channel)
    requires ParseChannel(Slice(s, o, o + 2)) == Some(r)
    requires ParseChannel(Slice(s, o + 2, o + 4)) == Some(g)
    requires ParseChannel(Slice(s, o + 4, o + 6)) == Some(b)
    ensures ColorAt(s, o, alpha) == Rgb(r, g, b, alpha)
  {
  }

  /** Python's slice clamping: a window with fewer than five characters leaves blue empty, so the default wins. */
  lemma ShortStringGivesDefault(s: string, index: int, alpha: real)
    requires |s| <= 4
    ensures ColorFromHex(Some(s), index, alpha) == DefaultColor(alpha)
  {
    assert Slice(s, 4, 6) == [];
  }

  /** The value of two hex digits, high digit first. */
  function PairValue(hi: char, lo: char): Byte
    requires HexDigitValue(hi).Some? && HexDigitValue(lo).Some?
  {
    16 * HexDigitValue(hi).value + HexDigitValue(lo).value
  }

  /** A five-character string still parses: blue is its single last digit. */
  lemma FiveCharacterString(s: string, index: int, alpha: real)
    requires |s| == 5 && forall k :: 0 <= k < 5 ==> HexDigitValue(s[k]).Some?
    ensures ColorFromHex(Some(s), index, alpha) == Rgb(PairValue(s[0], s[1]), PairValue(s[2], s[3]), HexDigitValue(s[4]).value, alpha)
  {
    assert Slice(s, 0, 2) == [s[0], s[1]];
    assert Slice(s, 2, 4) == [s[2], s[3]];
    assert Slice(s, 4, 6) == [s[4]];
    TwoDigits(s[0], s[1]);
    TwoDigits(s[2], s[3]);
    HexWindowParses(s, index, alpha, PairValue(s[0], s[1]), PairValue(s[2], s[3]), HexDigitValue(s[4]).value);
  }

  /**
   * A character in the window that is neither a hex digit, whitespace nor a
   * sign makes the whole colour the default.
   */
  lemma BadCharacterGivesDefault(s: string, index: int, alpha: real, k: nat)
    requires WindowStart(s, index) <= k < WindowStart(s, index) + 6 && k < |s|
    requires !NumeralChar(s[k])
    ensures ColorFromHex(Some(s), index, alpha) == DefaultColor(alpha)
  {
    var o := WindowStart(s, index);
    var j := if k - o < 2 then 0 else if k - o < 4 then 2 else 4;
    var pair := Slice(s, o + j, o + j + 2);
    assert pair[k - o - j] == s[k];
    NonNumeralFails(pair, k - o - j);
    UnparsedChannel(s, o, j, alpha);
  }

  /** One channel that does not parse makes the colour at `o` the default. */
  lemma UnparsedChannel(s: string, o: nat, j: nat, alpha: real)
    requires j == 0 || j == 2 || j == 4
    requires ParseChannel(Slice(s, o + j, o + j + 2)).None?
    ensures ColorAt(s, o, alpha) == DefaultColor(alpha)
  {
  }

  /** Two hex digits read as `16 * high + low`. */
  lemma TwoDigits(hi: char, lo: char)
    requires HexDigitValue(hi).Some? && HexDigitValue(lo).Some?
    ensures ParseHex([hi, lo]) == Some(16 * HexDigitValue(hi).value + HexDigitValue(lo).value)
  {
    assert [hi, lo][..1] == [hi];
  }

  /** A two-colour parameter: "112233,44AA99" holds one colour per index. */
  lemma ExampleColorPair()
    ensures ColorFromHex(Some("112233,44AA99"), 1, 0.35) == Rgb(0x44, 0xAA, 0x99, 0.35)
    ensures ColorFromHex(Some("112233,44AA99"), 0, 0.35) == Rgb(0x11, 0x22, 0x33, 0.35)
  {
    assert FormatByte(0x11) == "11" && FormatByte(0x22) == "22" && FormatByte(0x33) == "33";
    assert FormatByte(0x44) == "44" && FormatByte(0xAA) == "AA" && FormatByte(0x99) == "99";
    assert "112233,44AA99" == FormatRgb(0x11, 0x22, 0x33) + [','] + FormatRgb(0x44, 0xAA, 0x99);
    ColorPairRoundTrip((0x11, 0x22, 0x33), ',', (0x44, 0xAA, 0x99), 0.35);
  }

  /** Numeral characters in the wrong arrangement: `int` rejects each of these slices. */
  lemma MisarrangedRejected()
    ensures ParseChannel("a-").None? && ParseChannel("+").None? && ParseChannel("--").None?
    ensures ParseChannel(" -").None? && ParseChannel("  ").None?
  {
    ParseChannelForms("a-");
    ParseChannelForms("+");
    ParseChannelForms("--");
    ParseChannelForms(" -");
    ParseChannelForms("  ");
  }

  /** `"  2233"` has a blank red slice, which `int` rejects, so the colour is the default. */
  lemma BlankSliceGivesDefault()
    ensures ColorFromHex(Some("  2233"), 0, 0.35) == DefaultColor(0.35)
  {
    var s := "  2233";
    assert Slice(s, 0, 2) == "  ";
    MisarrangedRejected();
    UnparsedChannel(s, 0, 0, 0.35);
  }
}
