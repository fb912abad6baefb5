/**
 * Reading `#rrggbb` colour strings into `[r, g, b, a]` arrays. The plugins
 * carry three spellings of the same parser: one drops the first '#'
 * anywhere in the string, one drops a leading '#', and one reads the pairs
 * after position 0 without removing anything. All of them agree on a
 * well-formed colour, and each channel is then a byte.
 */
module HexColors {
  import opened JsText

  /** A `[r, g, b, a]` colour array; channels read from text may be NaN. */
  datatype Rgba = Rgba(r: Number, g: Number, b: Number, a: int)

  /** A colour array given by numbers. */
  function Color(r: int, g: int, b: int, a: int): Rgba {
    Rgba(Fin(r), Fin(g), Fin(b), a)
  }

  /** `s.slice(from, to)` (and `substring`) for non-negative bounds: both are clamped to the length. */
  function Slice(s: string, from: nat, to: nat): (r: string)
    ensures to <= |s| && from <= to ==> r == s[from..to]
    ensures |s| <= from ==> r == []
  {
    var a := if from < |s| then from else |s|;
    var b := if to < |s| then to else |s|;
    if a <= b then s[a..b] else []
  }

  /** `s.replace('#', '')`: the first '#' is removed, wherever it is. */
  function RemoveFirstHash(s: string): (r: string)
    ensures '#' !in s ==> r == s
    ensures s != [] && s[0] == '#' ==> r == s[1..]
  {
    if '#' in s then
      var i := IndexOf(s, '#');
      s[..i] + s[i + 1..]
    else s
  }

  /** `s.replace(/^#/, '')`: a leading '#' is removed. */
  function StripLeadingHash(s: string): (r: string)
    ensures s == [] || s[0] != '#' ==> r == s
    ensures s != [] && s[0] == '#' ==> r == s[1..]
  {
    if s != [] && s[0] == '#' then s[1..] else s
  }

  /** The three hex pairs starting at `offset`, read with `parseInt(pair, 16)`, then `alpha`. */
  function PairsAt(hex: string, offset: nat, alpha: int): Rgba {
    Rgba(
      ParseInt(Slice(hex, offset, offset + 2), 16),
      ParseInt(Slice(hex, offset + 2, offset + 4), 16),
      ParseInt(Slice(hex, offset + 4, offset + 6), 16),
      alpha)
  }

  /** `hexToRgba` of the interactive dashboard and of the style manager. */
  function HexToRgba(hex: string, alpha: int): Rgba {
    PairsAt(RemoveFirstHash(hex), 0, alpha)
  }

  /** `hexToRgba` of the commuter-clustering plugin. */
  function HexToRgbaLeading(hex: string, alpha: int): Rgba {
    PairsAt(StripLeadingHash(hex), 0, alpha)
  }

  /** The parsing in `getModeColorRGB` of the commuter-requests plugin: characters 1-2, 3-4 and 5-6. */
  function HexToRgbaFromOne(hex: string, alpha: int): Rgba {
    PairsAt(hex, 1, alpha)
  }

  predicate IsHexDigit(c: char) {
    '0' <= c <= '9' || 'a' <= c <= 'f' || 'A' <= c <= 'F'
  }

  /** The hex digits are the digits of radix 16. */
  lemma HexDigitRadix(c: char)
    ensures IsHexDigit(c) <==> IsRadixDigit(c, 16)
  {
  }

  /** A well-formed colour: '#' and six hex digits. */
  predicate IsHexColor(s: string) {
    |s| == 7 && s[0] == '#' && IsHexDigit(s[1]) && IsHexDigit(s[2])
    && IsHexDigit(s[3]) && IsHexDigit(s[4]) && IsHexDigit(s[5]) && IsHexDigit(s[6])
  }

  /** The three pairs of a well-formed colour are digit strings of radix 16. */
  lemma HexColorPairs(s: string)
    requires IsHexColor(s)
    ensures AllRadixDigits(s[1..3], 16) && AllRadixDigits(s[3..5], 16) && AllRadixDigits(s[5..7], 16)
  {
    forall i | 1 <= i < 7 ensures IsRadixDigit(s[i], 16) {
      HexDigitRadix(s[i]);
    }
  }

  /** A byte value, as JavaScript numbers channel values. */
  predicate IsByte(n: Number) {
    n.Fin? && 0 <= n.v < 256
  }

  function HexDigit(d: nat): (c: char)
    requires d < 16
    ensures IsRadixDigit(c, 16) && DigitValue(c) == d
  {
    if d < 10 then ('0' as int + d) as char else ('a' as int + d - 10) as char
  }

  /** Two lower-case hex digits for a byte. */
  function HexByte(n: nat): (s: string)
    requires n < 256
    ensures |s| == 2 && AllRadixDigits(s, 16)
  {
    [HexDigit(n / 16), HexDigit(n % 16)]
  }

  /** The `#rrggbb` spelling of three bytes. */
  function HexOf(r: nat, g: nat, b: nat): (s: string)
    requires r < 256 && g < 256 && b < 256
    ensures IsHexColor(s)
  {
    var s := "#" + HexByte(r) + HexByte(g) + HexByte(b);
    assert s[1..3] == HexByte(r) && s[3..5] == HexByte(g) && s[5..7] == HexByte(b);
    HexDigitRadix(s[1]);
    HexDigitRadix(s[2]);
    HexDigitRadix(s[3]);
    HexDigitRadix(s[4]);
    HexDigitRadix(s[5]);
    HexDigitRadix(s[6]);
    s
  }

  lemma HexDigitNotSpace(c: char)
    requires IsRadixDigit(c, 16)
    ensures !IsWhiteSpace(c) && c != '-' && c != '+' && c != 'x' && c != 'X'
  {
  }

  /** Two hex digits read as their value. */
  lemma PairParses(pair: string)
    requires |pair| == 2 && AllRadixDigits(pair, 16)
    ensures ParseInt(pair, 16) == Fin(DigitsValue(pair, 16))
  {
    assert IsRadixDigit(pair[0], 16) && IsRadixDigit(pair[1], 16);
    HexDigitNotSpace(pair[0]);
    HexDigitNotSpace(pair[1]);
    assert TrimStart(pair) == pair;
    RadixPrefixAll(pair, 16);
  }

  /** Two hex digits make a byte. */
  lemma PairBound(pair: string)
    requires |pair| == 2 && AllRadixDigits(pair, 16)
    ensures DigitsValue(pair, 16) < 256
  {
    assert IsRadixDigit(pair[0], 16) && IsRadixDigit(pair[1], 16);
    assert pair[..1] == [pair[0]];
    assert DigitsValue(pair[..1], 16) == DigitValue(pair[0]);
  }

  /** The two hex digits at `k`, sliced out and parsed. */
  lemma SliceParses(s: string, k: nat)
    requires k + 2 <= |s| && AllRadixDigits(s[k..k + 2], 16)
    ensures ParseInt(Slice(s, k, k + 2), 16) == Fin(DigitsValue(s[k..k + 2], 16))
  {
    PairParses(s[k..k + 2]);
  }

  /** Six hex digits at `offset` read as three pairs. */
  lemma PairsAtDigits(s: string, offset: nat, alpha: int)
    requires offset + 6 <= |s|
    requires AllRadixDigits(s[offset..offset + 2], 16) && AllRadixDigits(s[offset + 2..offset + 4], 16)
    requires AllRadixDigits(s[offset + 4..offset + 6], 16)
    ensures PairsAt(s, offset, alpha) == Color(DigitsValue(s[offset..offset + 2], 16),
      DigitsValue(s[offset + 2..offset + 4], 16), DigitsValue(s[offset + 4..offset + 6], 16), alpha)
  {
    SliceParses(s, offset);
    SliceParses(s, offset + 2);
    SliceParses(s, offset + 4);
  }

  /** The byte values of the three pairs of a well-formed colour. */
  function ColorOf(hex: string, alpha: int): Rgba
    requires IsHexColor(hex)
  {
    HexColorPairs(hex);
    Color(DigitsValue(hex[1..3], 16), DigitsValue(hex[3..5], 16), DigitsValue(hex[5..7], 16), alpha)
  }

  /** `hexToRgba` reads the pairs of a well-formed colour after dropping its '#'. */
  lemma HexToRgbaOfColor(hex: string, alpha: int)
    requires IsHexColor(hex)
    ensures HexToRgba(hex, alpha) == ColorOf(hex, alpha)
  {
    HexColorPairs(hex);
    var digits := hex[1..];
    assert digits[0..2] == hex[1..3] && digits[2..4] == hex[3..5] && digits[4..6] == hex[5..7];
    PairsAtDigits(digits, 0, alpha);
    assert RemoveFirstHash(hex) == digits;
  }

  /** The clustering plugin's `hexToRgba` reads the same pairs. */
  lemma HexToRgbaLeadingOfColor(hex: string, alpha: int)
    requires IsHexColor(hex)
    ensures HexToRgbaLeading(hex, alpha) == ColorOf(hex, alpha)
  {
    HexColorPairs(hex);
    var digits := hex[1..];
    assert digits[0..2] == hex[1..3] && digits[2..4] == hex[3..5] && digits[4..6] == hex[5..7];
    PairsAtDigits(digits, 0, alpha);
    assert StripLeadingHash(hex) == digits;
  }

  /** The requests plugin's parsing from position 1 reads the same pairs. */
  lemma HexToRgbaFromOneOfColor(hex: string, alpha: int)
    requires IsHexColor(hex)
    ensures HexToRgbaFromOne(hex, alpha) == ColorOf(hex, alpha)
  {
    HexColorPairs(hex);
    PairsAtDigits(hex, 1, alpha);
  }

  /**
   * On a well-formed colour the three parsers agree, each channel is the
   * byte its two digits spell, and the alpha is passed through.
   */
  lemma HexColorChannels(hex: string, alpha: int)
    requires IsHexColor(hex)
    ensures HexToRgba(hex, alpha) == ColorOf(hex, alpha)
    ensures HexToRgbaLeading(hex, alpha) == ColorOf(hex, alpha)
    ensures HexToRgbaFromOne(hex, alpha) == ColorOf(hex, alpha)
    ensures IsByte(ColorOf(hex, alpha).r) && IsByte(ColorOf(hex, alpha).g) && IsByte(ColorOf(hex, alpha).b)
  {
    HexToRgbaOfColor(hex, alpha);
    HexToRgbaLeadingOfColor(hex, alpha);
    HexToRgbaFromOneOfColor(hex, alpha);
    HexColorPairs(hex);
    PairBound(hex[1..3]);
    PairBound(hex[3..5]);
    PairBound(hex[5..7]);
  }

  /** The two digits of a byte read back as the byte. */
  lemma HexByteValue(n: nat)
    requires n < 256
    ensures DigitsValue(HexByte(n), 16) == n
  {
    var s := HexByte(n);
    assert s[..1] == [s[0]];
    assert DigitsValue(s[..1], 16) == DigitValue(s[0]);
  }

  /** The pairs of `#rrggbb` spell the three bytes. */
  lemma HexOfPairs(r: nat, g: nat, b: nat, alpha: int)
    requires r < 256 && g < 256 && b < 256
    ensures ColorOf(HexOf(r, g, b), alpha) == Color(r, g, b, alpha)
  {
    var hex := HexOf(r, g, b);
    HexColorPairs(hex);
    assert DigitsValue(hex[1..3], 16) == r by {
      assert hex[1..3] == HexByte(r);
      HexByteValue(r);
    }
    assert DigitsValue(hex[3..5], 16) == g by {
      assert hex[3..5] == HexByte(g);
      HexByteValue(g);
    }
    assert DigitsValue(hex[5..7], 16) == b by {
      assert hex[5..7] == HexByte(b);
      HexByteValue(b);
    }
  }

  /** Spelling three bytes as `#rrggbb` and parsing the result gives the bytes back. */
  lemma HexOfRoundTrip(r: nat, g: nat, b: nat, alpha: int)
    requires r < 256 && g < 256 && b < 256
    ensures HexToRgba(HexOf(r, g, b), alpha) == Color(r, g, b, alpha)
  {
    HexToRgbaOfColor(HexOf(r, g, b), alpha);
    HexOfPairs(r, g, b, alpha);
  }
}
