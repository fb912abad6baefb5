/**
 * The JavaScript string operations the dashboard code relies on:
 * `trim`, `toLowerCase`, `split` on one character, `padStart`, integer
 * formatting (`String(n)`), `parseInt(s, radix)` and `Number(s)`.
 *
 * Numbers are integers here, so `Number(s)` reads only integer literals:
 * decimal with an optional sign and an optional all-zero fraction, and the
 * unsigned `0x`/`0o`/`0b` forms. Case folding covers ASCII letters only.
 */
module JsText {

  // ---------------------------------------------------------------------
  // Characters and digits

  predicate IsDecimalDigit(c: char) { '0' <= c <= '9' }

  predicate AllDecimalDigits(s: string) {
    forall i :: 0 <= i < |s| ==> IsDecimalDigit(s[i])
  }

  /** The value of `c` as a digit in the bases up to 36, or -1 when it is none. */
  function DigitValue(c: char): (d: int)
    ensures -1 <= d < 36
    ensures IsDecimalDigit(c) ==> d == c as int - '0' as int
  {
    if '0' <= c <= '9' then c as int - '0' as int
    else if 'a' <= c <= 'z' then c as int - 'a' as int + 10
    else if 'A' <= c <= 'Z' then c as int - 'A' as int + 10
    else -1
  }

  predicate IsRadixDigit(c: char, radix: nat) { 0 <= DigitValue(c) < radix }

  predicate AllRadixDigits(s: string, radix: nat) {
    forall i :: 0 <= i < |s| ==> IsRadixDigit(s[i], radix)
  }

  /** The number a digit string denotes in `radix`, most significant digit first. */
  function DigitsValue(s: string, radix: nat): nat
    requires AllRadixDigits(s, radix)
  {
    if s == [] then 0
    else DigitsValue(s[..|s| - 1], radix) * radix + DigitValue(s[|s| - 1])
  }

  function DigitChar(d: nat): (c: char)
    requires d < 10
    ensures IsDecimalDigit(c) && DigitValue(c) == d
  {
    ('0' as int + d) as char
  }

  /** `String(n)` for a non-negative integer: its shortest decimal spelling. */
  function NatToString(n: nat): (s: string)
    ensures |s| >= 1 && AllDecimalDigits(s)
    ensures AllRadixDigits(s, 10)
    ensures s[0] == '0' <==> n == 0
    decreases n
  {
    if n < 10 then [DigitChar(n)] else NatToString(n / 10) + [DigitChar(n % 10)]
  }

  /** `String(i)` for any integer. */
  function IntToString(i: int): (s: string)
    ensures |s| >= 1
    ensures s[0] == '-' <==> i < 0
  {
    if i < 0 then "-" + NatToString(-i) else NatToString(i)
  }

  lemma {:induction false} NatToStringValue(n: nat)
    ensures DigitsValue(NatToString(n), 10) == n
    decreases n
  {
    if n >= 10 {
      var s := NatToString(n);
      assert s[..|s| - 1] == NatToString(n / 10);
      NatToStringValue(n / 10);
    }
  }

  /** Prepending a zero digit does not change a digit string's value. */
  lemma {:induction false} LeadingZeroValue(s: string, radix: nat)
    requires 2 <= radix && AllRadixDigits(s, radix)
    ensures AllRadixDigits("0" + s, radix)
    ensures DigitsValue("0" + s, radix) == DigitsValue(s, radix)
    decreases |s|
  {
    var z := "0" + s;
    assert forall i :: 0 <= i < |z| ==> IsRadixDigit(z[i], radix) by {
      forall i | 0 <= i < |z| ensures IsRadixDigit(z[i], radix) {
        if i > 0 { assert z[i] == s[i - 1]; }
      }
    }
    if s != [] {
      var init := s[..|s| - 1];
      assert z[..|z| - 1] == "0" + init;
      LeadingZeroValue(init, radix);
    }
  }

  // ---------------------------------------------------------------------
  // Whitespace and trimming

  /** The characters JavaScript's `trim` removes (WhiteSpace and LineTerminator). */
  predicate IsWhiteSpace(c: char) {
    var k := c as int;
    k == 0x09 || k == 0x0A || k == 0x0B || k == 0x0C || k == 0x0D || k == 0x20
    || k == 0xA0 || k == 0x1680 || (0x2000 <= k <= 0x200A) || k == 0x2028
    || k == 0x2029 || k == 0x202F || k == 0x205F || k == 0x3000 || k == 0xFEFF
  }

  /** Drops leading whitespace (`trimStart`). */
  function TrimStart(s: string): (r: string)
    ensures |r| <= |s| && r == s[|s| - |r|..]
    ensures forall i :: 0 <= i < |s| - |r| ==> IsWhiteSpace(s[i])
    ensures r == [] || !IsWhiteSpace(r[0])
  {
    if s != [] && IsWhiteSpace(s[0]) then TrimStart(s[1..]) else s
  }

  /** Drops trailing whitespace (`trimEnd`). */
  function TrimEnd(s: string): (r: string)
    ensures |r| <= |s| && r == s[..|r|]
    ensures forall i :: |r| <= i < |s| ==> IsWhiteSpace(s[i])
    ensures r == [] || !IsWhiteSpace(r[|r| - 1])
  {
    if s != [] && IsWhiteSpace(s[|s| - 1]) then TrimEnd(s[..|s| - 1]) else s
  }

  /** `s.trim()`: the slice of `s` left once whitespace at both ends is removed. */
  function Trim(s: string): (r: string)
    ensures |r| <= |TrimStart(s)| && r == TrimStart(s)[..|r|]
    ensures r == [] || (!IsWhiteSpace(r[0]) && !IsWhiteSpace(r[|r| - 1]))
  {
    TrimEnd(TrimStart(s))
  }

  /** A string with no whitespace at either end is its own trim. */
  lemma TrimNoOp(s: string)
    requires s == [] || (!IsWhiteSpace(s[0]) && !IsWhiteSpace(s[|s| - 1]))
    ensures Trim(s) == s
  {
  }

  // ---------------------------------------------------------------------
  // Case folding

  function LowerChar(c: char): char {
    if 'A' <= c <= 'Z' then (c as int + 32) as char else c
  }

  /** `s.toLowerCase()` on ASCII letters. */
  function ToLower(s: string): (r: string)
    ensures |r| == |s|
    ensures forall i :: 0 <= i < |s| ==> r[i] == LowerChar(s[i])
  {
    if s == [] then [] else [LowerChar(s[0])] + ToLower(s[1..])
  }

  /** Lower-casing twice is lower-casing once. */
  lemma ToLowerIdempotent(s: string)
    ensures ToLower(ToLower(s)) == ToLower(s)
  {
  }

  // ---------------------------------------------------------------------
  // Searching, splitting and padding

  /** The first index of `c` in `s` (`indexOf`), which must occur. */
  function IndexOf(s: string, c: char): (i: nat)
    requires c in s
    ensures i < |s| && s[i] == c && c !in s[..i]
  {
    if s[0] == c then 0 else 1 + IndexOf(s[1..], c)
  }

  /** Joins parts with a one-character separator (`parts.join(sep)`). */
  function Join(parts: seq<string>, sep: char): string
    requires |parts| >= 1
  {
    if |parts| == 1 then parts[0] else parts[0] + [sep] + Join(parts[1..], sep)
  }

  /** `s.split(sep)` for a one-character separator: never empty, and the separator occurs in no part. */
  function Split(s: string, sep: char): (parts: seq<string>)
    ensures |parts| >= 1
    ensures forall i :: 0 <= i < |parts| ==> sep !in parts[i]
    ensures Join(parts, sep) == s
    decreases |s|
  {
    if sep !in s then [s]
    else
      var i := IndexOf(s, sep);
      var rest := Split(s[i + 1..], sep);
      assert s == s[..i] + [sep] + s[i + 1..];
      [s[..i]] + rest
  }

  /** Splitting what was joined gives back the parts, when no part holds the separator. */
  lemma {:induction false} SplitJoin(parts: seq<string>, sep: char)
    requires |parts| >= 1
    requires forall i :: 0 <= i < |parts| ==> sep !in parts[i]
    ensures Split(Join(parts, sep), sep) == parts
    decreases |parts|
  {
    if |parts| == 1 {
      assert sep !in parts[0];
    } else {
      var tail := Join(parts[1..], sep);
      var s := parts[0] + [sep] + tail;
      assert s[|parts[0]|] == sep;
      assert sep !in s[..|parts[0]|] by { assert s[..|parts[0]|] == parts[0]; }
      assert IndexOf(s, sep) == |parts[0]|;
      assert s[|parts[0]| + 1..] == tail;
      SplitJoin(parts[1..], sep);
    }
  }

  /** `s.padStart(width, fill)`: `s` preceded by enough `fill` characters to reach `width`. */
  function PadStart(s: string, width: nat, fill: char): (r: string)
    ensures |r| == if |s| >= width then |s| else width
    ensures r[|r| - |s|..] == s
    ensures forall i :: 0 <= i < |r| - |s| ==> r[i] == fill
  {
    if |s| >= width then s else seq(width - |s|, _ => fill) + s
  }

  /** `String(n).padStart(2, '0')`, for a non-negative integer. */
  function Pad2(n: nat): (r: string)
    ensures AllDecimalDigits(r)
  {
    var s := NatToString(n);
    var r := PadStart(s, 2, '0');
    assert forall i :: 0 <= i < |r| ==> (i < |r| - |s| && r[i] == '0') || r[i] == s[i - (|r| - |s|)];
    r
  }

  /** A padded number reads back as the number, in two digits below 100. */
  lemma Pad2Value(n: nat)
    ensures n < 100 ==> |Pad2(n)| == 2
    ensures AllRadixDigits(Pad2(n), 10) && DigitsValue(Pad2(n), 10) == n
  {
    var s := NatToString(n);
    NatToStringValue(n);
    if |s| < 2 {
      assert Pad2(n) == "0" + s;
      LeadingZeroValue(s, 10);
    }
  }

  // ---------------------------------------------------------------------
  // Number(s) and parseInt(s, radix)

  datatype Number = NaN | Fin(v: int)

  /** JavaScript's `a % b` for a positive `b`: the remainder takes the sign of `a`. */
  function Rem(a: int, b: int): (r: int)
    requires b > 0
    ensures a >= 0 ==> 0 <= r < b && r == a % b
    ensures a < 0 ==> -b < r <= 0
  {
    if a >= 0 then a % b else -((-a) % b)
  }

  function Negate(n: Number): Number {
    match n
    case NaN => NaN
    case Fin(v) => Fin(-v)
  }

  /** The longest prefix of `s` made of digits of `radix`. */
  function RadixPrefix(s: string, radix: nat): (p: string)
    ensures |p| <= |s| && p == s[..|p|] && AllRadixDigits(p, radix)
    ensures |p| == |s| || !IsRadixDigit(s[|p|], radix)
  {
    if s != [] && IsRadixDigit(s[0], radix) then [s[0]] + RadixPrefix(s[1..], radix) else []
  }

  /**
   * `parseInt(s, radix)`: leading whitespace, an optional sign, for radix 16
   * an optional `0x`, then the longest run of digits; NaN if that run is empty.
   */
  function ParseInt(s: string, radix: nat): (n: Number)
    requires 2 <= radix <= 36
  {
    var t := TrimStart(s);
    var negative := t != [] && t[0] == '-';
    var body := if t != [] && (t[0] == '-' || t[0] == '+') then t[1..] else t;
    var digits :=
      if radix == 16 && |body| >= 2 && body[0] == '0' && (body[1] == 'x' || body[1] == 'X')
      then body[2..] else body;
    var p := RadixPrefix(digits, radix);
    var magnitude: int := DigitsValue(p, radix);
    if p == [] then NaN
    else if negative then Fin(-magnitude)
    else Fin(magnitude)
  }

  /** The digit prefix of a string made only of digits is the whole string. */
  lemma {:induction false} RadixPrefixAll(s: string, radix: nat)
    requires AllRadixDigits(s, radix)
    ensures RadixPrefix(s, radix) == s
    decreases |s|
  {
    if s != [] {
      assert IsRadixDigit(s[0], radix);
      RadixPrefixAll(s[1..], radix);
    }
  }

  /** A non-empty digit string parses to its own value. */
  lemma ParseIntDigits(s: string, radix: nat)
    requires 2 <= radix <= 10 && s != [] && AllRadixDigits(s, radix)
    ensures ParseInt(s, radix) == Fin(DigitsValue(s, radix))
  {
    assert IsRadixDigit(s[0], radix);
    assert !IsWhiteSpace(s[0]);
    assert TrimStart(s) == s;
    RadixPrefixAll(s, radix);
  }

  /** `parseInt(String(i), 10) == i` for every integer. */
  lemma ParseIntOfIntToString(i: int)
    ensures ParseInt(IntToString(i), 10) == Fin(i)
  {
    var d := NatToString(if i < 0 then -i else i);
    NatToStringValue(if i < 0 then -i else i);
    if i < 0 {
      var s := "-" + d;
      assert !IsWhiteSpace(s[0]);
      assert TrimStart(s) == s;
      assert s[1..] == d;
      RadixPrefixAll(d, 10);
    } else {
      ParseIntDigits(d, 10);
    }
  }

  /** A decimal rendering of an integer holds no '.'. */
  lemma NoDotInIntToString(i: int)
    ensures '.' !in IntToString(i)
  {
    var d := NatToString(if i < 0 then -i else i);
    NoDotInDigits(d);
  }

  predicate AllZeros(s: string) { forall i :: 0 <= i < |s| ==> s[i] == '0' }

  /** Digits optionally followed by '.' and zeros, or '.' followed by at least one zero. */
  function UnsignedDecimal(u: string): Number {
    if '.' in u then
      var i := IndexOf(u, '.');
      var whole := u[..i];
      var fraction := u[i + 1..];
      if (whole != [] || fraction != []) && AllDecimalDigits(whole) && AllZeros(fraction)
      then
        assert AllRadixDigits(whole, 10);
        Fin(DigitsValue(whole, 10))
      else NaN
    else if u != [] && AllDecimalDigits(u) then
      assert AllRadixDigits(u, 10);
      Fin(DigitsValue(u, 10))
    else NaN
  }

  function RadixLiteral(d: string, radix: nat): Number {
    if d != [] && AllRadixDigits(d, radix) then Fin(DigitsValue(d, radix)) else NaN
  }

  /**
   * `Number(s)` for a string: whitespace is trimmed, the empty string is 0,
   * `0x`/`0o`/`0b` prefixes select a radix, otherwise a signed decimal integer.
   */
  function StringToNumber(s: string): Number {
    var t := Trim(s);
    if t == [] then Fin(0)
    else if |t| >= 2 && t[0] == '0' && (t[1] == 'x' || t[1] == 'X') then RadixLiteral(t[2..], 16)
    else if |t| >= 2 && t[0] == '0' && (t[1] == 'o' || t[1] == 'O') then RadixLiteral(t[2..], 8)
    else if |t| >= 2 && t[0] == '0' && (t[1] == 'b' || t[1] == 'B') then RadixLiteral(t[2..], 2)
    else if t[0] == '-' then Negate(UnsignedDecimal(t[1..]))
    else if t[0] == '+' then UnsignedDecimal(t[1..])
    else UnsignedDecimal(t)
  }

  /** `Number` reads back any non-empty decimal digit string, leading zeros included. */
  lemma StringToNumberDigits(s: string)
    requires s != [] && AllDecimalDigits(s)
    ensures AllRadixDigits(s, 10)
    ensures StringToNumber(s) == Fin(DigitsValue(s, 10))
  {
    assert IsDecimalDigit(s[0]) && IsDecimalDigit(s[|s| - 1]);
    TrimNoOp(s);
    assert |s| >= 2 ==> IsDecimalDigit(s[1]);
    NoDotInDigits(s);
    assert UnsignedDecimal(s) == Fin(DigitsValue(s, 10));
  }

  lemma NoDotInDigits(s: string)
    requires AllDecimalDigits(s)
    ensures '.' !in s
  {
  }

  /** `Number(String(n)) == n` for every integer. */
  lemma {:induction false} IntToStringRoundTrip(i: int)
    ensures StringToNumber(IntToString(i)) == Fin(i)
  {
    if i < 0 {
      var d := NatToString(-i);
      var s := "-" + d;
      NatToStringValue(-i);
      assert !IsWhiteSpace(s[0]) && !IsWhiteSpace(s[|s| - 1]) by { assert s[|s| - 1] == d[|d| - 1]; }
      TrimNoOp(s);
      assert s[1..] == d;
      NoDotInDigits(d);
      assert UnsignedDecimal(d) == Fin(DigitsValue(d, 10));
    } else {
      NatToStringValue(i);
      StringToNumberDigits(NatToString(i));
    }
  }
}
