/**
 * The colour strings carried by xterm OSC 10/11, as parsed inside
 * `dynamic_color_sequence`: `#RRGGBB` and the X11 form `rgb:R/G/B`, where
 * each component contributes the hex value of its first two characters and
 * an unparsable component reads as 0.
 */
module ColorSpec {
  import opened Wrappers
  import opened Ints

  datatype Rgb = Rgb(r: Byte, g: Byte, b: Byte)

  /** The characters `from_str_radix(_, 16)` accepts as digits. */
  predicate IsHexDigit(c: char) {
    '0' <= c <= '9' || 'a' <= c <= 'f' || 'A' <= c <= 'F'
  }

  /** One digit of base 16, in either case. */
  function HexDigitValue(c: char): (v: Option<nat>)
    ensures v.Some? <==> IsHexDigit(c)
    ensures '0' <= c <= '9' ==> v == Some(c as nat - '0' as nat)
    ensures 'a' <= c <= 'f' ==> v == Some(c as nat - 'a' as nat + 10)
    ensures 'A' <= c <= 'F' ==> v == Some(c as nat - 'A' as nat + 10)
    ensures v.Some? ==> v.value < 16
  {
    if '0' <= c <= '9' then Some(c as nat - '0' as nat)
    else if 'a' <= c <= 'f' then Some(c as nat - 'a' as nat + 10)
    else if 'A' <= c <= 'F' then Some(c as nat - 'A' as nat + 10)
    else None
  }

  /** The lower-case hex digit of a value below 16. */
  function HexChar(v: nat): (c: char)
    requires v < 16
    ensures HexDigitValue(c) == Some(v)
    ensures v < 10 ==> '0' <= c <= '9'
    ensures v >= 10 ==> 'a' <= c <= 'f'
  {
    if v < 10 then ('0' as nat + v) as char else ('a' as nat + v - 10) as char
  }

  /**
   * `u8::from_str_radix(s, 16)` on a string of at most two characters: an
   * optional leading '+' followed by one or two hex digits. The empty string,
   * a lone '+' and any other character are errors.
   */
  function ParseHexByte(s: string): (r: Option<Byte>)
    requires |s| <= 2
    ensures |s| == 0 ==> r == None
    ensures |s| == 1 ==> r == HexDigitValue(s[0])
    ensures |s| == 2 && s[0] == '+' ==> r == HexDigitValue(s[1])
    ensures |s| == 2 && s[0] != '+' ==> (r.Some? <==> HexDigitValue(s[0]).Some? && HexDigitValue(s[1]).Some?)
    ensures |s| == 2 && s[0] != '+' && HexDigitValue(s[0]).Some? && HexDigitValue(s[1]).Some? ==>
      r == Some(16 * HexDigitValue(s[0]).value + HexDigitValue(s[1]).value)
  {
    if |s| == 0 then None
    else if s[0] == '+' then
      if |s| == 1 then None else HexDigitValue(s[1])
    else if |s| == 1 then HexDigitValue(s[0])
    else
      match (HexDigitValue(s[0]), HexDigitValue(s[1]))
      case (Some(hi), Some(lo)) => Some(16 * hi + lo)
      case _ => None
  }

  /** `.unwrap_or(0)` on the parse. */
  function ComponentOr0(s: string): Byte
    requires |s| <= 2
  {
    ParseHexByte(s).GetOr(0)
  }

  /** `s.chars().take(2)`. */
  function Take2(s: string): (t: string)
    ensures |t| <= 2 && |t| <= |s| && t == s[..|t|]
    ensures |s| >= 2 ==> |t| == 2
    ensures |s| <= 2 ==> t == s
  {
    if |s| <= 2 then s else s[..2]
  }

  /** `str::split` on one separator character: the pieces between separators, empty pieces included. */
  function Split(s: string, sep: char): (parts: seq<string>)
    ensures |parts| >= 1
    decreases |s|
  {
    if |s| == 0 then [""]
    else
      var rest := Split(s[1..], sep);
      if s[0] == sep then [""] + rest else [[s[0]] + rest[0]] + rest[1..]
  }

  /** Inverse of Split: the pieces glued back with the separator. */
  function Join(parts: seq<string>, sep: char): string
    requires |parts| >= 1
    decreases |parts|
  {
    if |parts| == 1 then parts[0] else parts[0] + [sep] + Join(parts[1..], sep)
  }

  function Count(s: string, c: char): nat
    decreases |s|
  {
    if |s| == 0 then 0 else (if s[0] == c then 1 else 0) + Count(s[1..], c)
  }

  predicate IsAscii(c: char) { c as int < 128 }

  predicate StartsWith(s: string, prefix: string) {
    |prefix| <= |s| && s[..|prefix|] == prefix
  }

  /**
   * The `#` form slices the string by byte offsets 0..6; with the (up to) six
   * characters after '#' in ASCII, byte and character offsets agree and no
   * slice cuts a character in half.
   */
  predicate HashFormSafe(color: string) {
    StartsWith(color, "#") ==> forall k :: 1 <= k < |color| && k <= 6 ==> IsAscii(color[k])
  }

  /** The colour-string parse at the start of `dynamic_color_sequence`. */
  function ParseColor(color: string): (rgb: Option<Rgb>)
    requires HashFormSafe(color)
    ensures StartsWith(color, "#") ==> (rgb.Some? <==> |color| >= 7)
    ensures !StartsWith(color, "#") && StartsWith(color, "rgb:") ==> (rgb.Some? <==> Count(color[4..], '/') == 2)
    ensures !StartsWith(color, "#") && !StartsWith(color, "rgb:") ==> rgb == None
  {
    if StartsWith(color, "#") then
      var hex := color[1..];
      if |hex| >= 6 then
        Some(Rgb(ComponentOr0(hex[0..2]), ComponentOr0(hex[2..4]), ComponentOr0(hex[4..6])))
      else None
    else if StartsWith(color, "rgb:") then
      var parts := Split(color[4..], '/');
      SplitCount(color[4..], '/');
      if |parts| == 3 then
        Some(Rgb(ComponentOr0(Take2(parts[0])), ComponentOr0(Take2(parts[1])), ComponentOr0(Take2(parts[2]))))
      else None
    else None
  }

  /** There is one more piece than there are separators. */
  lemma {:induction false} SplitCount(s: string, sep: char)
    ensures |Split(s, sep)| == Count(s, sep) + 1
    decreases |s|
  {
    if |s| > 0 {
      SplitCount(s[1..], sep);
    }
  }

  /** No piece contains the separator. */
  lemma {:induction false} SplitPiecesFree(s: string, sep: char)
    ensures forall k :: 0 <= k < |Split(s, sep)| ==> sep !in Split(s, sep)[k]
    decreases |s|
  {
    if |s| > 0 {
      SplitPiecesFree(s[1..], sep);
      var rest := Split(s[1..], sep);
      if s[0] != sep {
        assert forall k :: 1 <= k < |rest| ==> rest[1..][k - 1] == rest[k];
      }
    }
  }

  /** Joining the pieces with the separator gives back the original string. */
  lemma {:induction false} JoinSplit(s: string, sep: char)
    ensures Join(Split(s, sep), sep) == s
    decreases |s|
  {
    if |s| > 0 {
      JoinSplit(s[1..], sep);
      var rest := Split(s[1..], sep);
      if s[0] == sep {
        assert ([""] + rest)[1..] == rest;
        assert s == [sep] + s[1..];
      } else {
        var parts := [[s[0]] + rest[0]] + rest[1..];
        if |rest| == 1 {
          assert s == [s[0]] + s[1..];
        } else {
          assert parts[1..] == rest[1..];
          assert Join(rest, sep) == rest[0] + [sep] + Join(rest[1..], sep);
          assert s == [s[0]] + s[1..];
        }
      }
    }
  }

  /** Splitting at a separator splits each side independently. */
  lemma {:induction false} SplitAppend(a: string, b: string, sep: char)
    ensures Split(a + [sep] + b, sep) == Split(a, sep) + Split(b, sep)
    decreases |a|
  {
    if |a| == 0 {
      assert a + [sep] + b == [sep] + b;
      assert ([sep] + b)[1..] == b;
    } else {
      var s := a + [sep] + b;
      assert s[0] == a[0];
      assert s[1..] == a[1..] + [sep] + b;
      SplitAppend(a[1..], b, sep);
    }
  }

  /** A string without the separator is a single piece. */
  lemma {:induction false} SplitWithoutSep(s: string, sep: char)
    requires sep !in s
    ensures Split(s, sep) == [s]
    decreases |s|
  {
    if |s| > 0 {
      assert sep !in s[1..];
      SplitWithoutSep(s[1..], sep);
      assert s == [s[0]] + s[1..];
    }
  }

  /** A byte as two lower-case hex digits. */
  function Hex2(v: Byte): (s: string)
    ensures |s| == 2 && '/' !in s && IsAscii(s[0]) && IsAscii(s[1])
  {
    [HexChar(v / 16), HexChar(v % 16)]
  }

  /** A 16-bit value as four lower-case hex digits. */
  function Hex4(v: nat): (s: string)
    requires IsU16(v)
    ensures |s| == 4 && '/' !in s
  {
    Hex2(v / 256) + Hex2(v % 256)
  }

  lemma ParseHex2(v: Byte)
    ensures ParseHexByte(Hex2(v)) == Some(v)
  {
  }

  /** The upper-case hex digit of a value below 16. */
  function HexCharUpper(v: nat): (c: char)
    requires v < 16
    ensures HexDigitValue(c) == Some(v)
    ensures v >= 10 ==> 'A' <= c <= 'F'
  {
    if v < 10 then ('0' as nat + v) as char else ('A' as nat + v - 10) as char
  }

  /** A byte as two upper-case hex digits. */
  function Hex2Upper(v: Byte): (s: string)
    ensures |s| == 2 && IsAscii(s[0]) && IsAscii(s[1])
    ensures ParseHexByte(s) == Some(v)
  {
    [HexCharUpper(v / 16), HexCharUpper(v % 16)]
  }

  /** Upper-case digits are accepted too: `#RRGGBB` in capitals parses to the same triple. */
  lemma HashFormUpperRoundTrip(c: Rgb)
    ensures HashFormSafe("#" + Hex2Upper(c.r) + Hex2Upper(c.g) + Hex2Upper(c.b))
    ensures ParseColor("#" + Hex2Upper(c.r) + Hex2Upper(c.g) + Hex2Upper(c.b)) == Some(c)
  {
    var s := "#" + Hex2Upper(c.r) + Hex2Upper(c.g) + Hex2Upper(c.b);
    HashFormSlices(Hex2Upper(c.r), Hex2Upper(c.g), Hex2Upper(c.b));
    HashFormComponents(s);
  }

  /** The three two-character fields of `#xxyyzz` sit at offsets 1, 3 and 5. */
  lemma HashFormSlices(x: string, y: string, z: string)
    requires |x| == 2 && |y| == 2 && |z| == 2
    ensures var s := "#" + x + y + z; |s| == 7 && s[1..3] == x && s[3..5] == y && s[5..7] == z
  {
    var s := "#" + x + y + z;
    assert s == ['#', x[0], x[1], y[0], y[1], z[0], z[1]];
  }

  /** A leading '+' is accepted before a single digit, as `from_str_radix` allows a sign. */
  lemma PlusSignAccepted(d: char)
    requires HexDigitValue(d).Some?
    ensures ParseHexByte(['+', d]) == HexDigitValue(d)
    ensures ParseHexByte(['+']) == None
  {
  }

  /** `#` followed by two hex digits per component parses back to the same triple. */
  lemma HashFormRoundTrip(c: Rgb)
    ensures HashFormSafe("#" + Hex2(c.r) + Hex2(c.g) + Hex2(c.b))
    ensures ParseColor("#" + Hex2(c.r) + Hex2(c.g) + Hex2(c.b)) == Some(c)
  {
    var s := "#" + Hex2(c.r) + Hex2(c.g) + Hex2(c.b);
    HashFormSlices(Hex2(c.r), Hex2(c.g), Hex2(c.b));
    HashFormComponents(s);
    ParseHex2(c.r);
    ParseHex2(c.g);
    ParseHex2(c.b);
  }

  /** For any `#` form with at least six characters after the `#`, each component is the parse of its two characters, or 0 when that parse fails (`unwrap_or(0)`). */
  lemma HashFormComponents(color: string)
    requires HashFormSafe(color) && StartsWith(color, "#") && |color| >= 7
    ensures ParseColor(color) == Some(Rgb(ComponentOr0(color[1..3]), ComponentOr0(color[3..5]), ComponentOr0(color[5..7])))
  {
    var hex := color[1..];
    assert hex[0..2] == color[1..3] && hex[2..4] == color[3..5] && hex[4..6] == color[5..7];
  }

  /** Fewer than six characters after `#` give no colour. */
  lemma ShortHashFormRejected(color: string)
    requires HashFormSafe(color) && StartsWith(color, "#") && |color| < 7
    ensures ParseColor(color) == None
  {
  }

  function RgbForm(r: string, g: string, b: string): string {
    "rgb:" + r + "/" + g + "/" + b
  }

  /** The pieces of an `rgb:` form whose components contain no '/'. */
  lemma RgbFormPieces(r: string, g: string, b: string)
    requires '/' !in r && '/' !in g && '/' !in b
    ensures !StartsWith(RgbForm(r, g, b), "#") && StartsWith(RgbForm(r, g, b), "rgb:")
    ensures HashFormSafe(RgbForm(r, g, b))
    ensures Split(RgbForm(r, g, b)[4..], '/') == [r, g, b]
  {
    var s := RgbForm(r, g, b);
    assert s[..4] == "rgb:";
    assert s[0] == 'r';
    assert s[4..] == r + ['/'] + (g + ['/'] + b);
    SplitAppend(r, g + ['/'] + b, '/');
    SplitAppend(g, b, '/');
    SplitWithoutSep(r, '/');
    SplitWithoutSep(g, '/');
    SplitWithoutSep(b, '/');
  }

  /** The `rgb:` form takes each component from its first two characters. */
  lemma RgbFormComponents(r: string, g: string, b: string)
    requires '/' !in r && '/' !in g && '/' !in b
    ensures HashFormSafe(RgbForm(r, g, b))
    ensures ParseColor(RgbForm(r, g, b)) == Some(Rgb(ComponentOr0(Take2(r)), ComponentOr0(Take2(g)), ComponentOr0(Take2(b))))
  {
    RgbFormPieces(r, g, b);
  }

  /** `rgb:RR/GG/BB` parses back to the same triple. */
  lemma RgbFormRoundTrip(c: Rgb)
    ensures HashFormSafe(RgbForm(Hex2(c.r), Hex2(c.g), Hex2(c.b)))
    ensures ParseColor(RgbForm(Hex2(c.r), Hex2(c.g), Hex2(c.b))) == Some(c)
  {
    RgbFormComponents(Hex2(c.r), Hex2(c.g), Hex2(c.b));
    ParseHex2(c.r);
    ParseHex2(c.g);
    ParseHex2(c.b);
  }

  /** `rgb:RRRR/GGGG/BBBB` yields the high byte of each 16-bit component. */
  lemma RgbFormWideTakesHighBytes(r: nat, g: nat, b: nat)
    requires IsU16(r) && IsU16(g) && IsU16(b)
    ensures HashFormSafe(RgbForm(Hex4(r), Hex4(g), Hex4(b)))
    ensures ParseColor(RgbForm(Hex4(r), Hex4(g), Hex4(b))) == Some(Rgb(r / 256, g / 256, b / 256))
  {
    RgbFormComponents(Hex4(r), Hex4(g), Hex4(b));
    assert Take2(Hex4(r)) == Hex2(r / 256);
    assert Take2(Hex4(g)) == Hex2(g / 256);
    assert Take2(Hex4(b)) == Hex2(b / 256);
    ParseHex2(r / 256);
    ParseHex2(g / 256);
    ParseHex2(b / 256);
  }

  /** An `rgb:` form without exactly three pieces gives no colour. */
  lemma RgbFormNeedsThreePieces(color: string)
    requires StartsWith(color, "rgb:") && |Split(color[4..], '/')| != 3
    ensures HashFormSafe(color)
    ensures ParseColor(color) == None
  {
    assert color[0] == 'r';
    SplitCount(color[4..], '/');
  }
}
