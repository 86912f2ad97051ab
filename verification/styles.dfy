/**
 * The colour enum and the pen state of `src/styles.rs`, and the SGR
 * foreground mapping: codes 30-37 (ECMA-48, section 8.3.117) and the aixterm
 * bright codes 90-97 select one of sixteen colours; every other code is
 * ignored.
 */
module Styles {
  import opened Wrappers
  import opened Ints

  datatype Color =
    | Black | Red | Green | Yellow | Blue | Magenta | Cyan | White
    | Gray | BrightRed | BrightGreen | BrightYellow | BrightBlue | BrightMagenta | BrightCyan | BrightWhite

  datatype Styles = Styles(
    backgroundColor: Color,
    textColor: Color,
    fontSize: nat,
    italic: bool,
    underline: bool)

  /** The eight standard colours in ECMA-48 order (SGR 30 + index). */
  const StandardPalette: seq<Color> := [Black, Red, Green, Yellow, Blue, Magenta, Cyan, White]

  /** The eight bright colours in aixterm order (SGR 90 + index). */
  const BrightPalette: seq<Color> := [Gray, BrightRed, BrightGreen, BrightYellow, BrightBlue, BrightMagenta, BrightCyan, BrightWhite]

  predicate IsStandardCode(code: int) { 30 <= code <= 37 }
  predicate IsBrightCode(code: int) { 90 <= code <= 97 }
  predicate IsSupportedCode(code: int) { IsStandardCode(code) || IsBrightCode(code) }

  /** `Styles::default`. */
  function DefaultStyles(): (s: Styles)
    ensures s.backgroundColor == Black && s.textColor == White
    ensures s.fontSize == 16 && !s.italic && !s.underline
  {
    Styles(Black, White, 16, false, false)
  }

  /** The colour an SGR foreground code selects, if the code is supported. */
  function ForegroundFor(code: int): (c: Option<Color>)
    ensures c.Some? <==> IsSupportedCode(code)
    ensures IsStandardCode(code) ==> c == Some(StandardPalette[code - 30])
    ensures IsBrightCode(code) ==> c == Some(BrightPalette[code - 90])
  {
    match code
    case 30 => Some(Black)
    case 31 => Some(Red)
    case 32 => Some(Green)
    case 33 => Some(Yellow)
    case 34 => Some(Blue)
    case 35 => Some(Magenta)
    case 36 => Some(Cyan)
    case 37 => Some(White)
    case 90 => Some(Gray)
    case 91 => Some(BrightRed)
    case 92 => Some(BrightGreen)
    case 93 => Some(BrightYellow)
    case 94 => Some(BrightBlue)
    case 95 => Some(BrightMagenta)
    case 96 => Some(BrightCyan)
    case 97 => Some(BrightWhite)
    case _ => None
  }

  /** `Styles::set_foreground_color_from_int`; the argument is an `i16`. */
  function SetForegroundColorFromInt(s: Styles, code: int): (r: Styles)
    requires IsI16(code)
    ensures IsStandardCode(code) ==> r.textColor == StandardPalette[code - 30]
    ensures IsBrightCode(code) ==> r.textColor == BrightPalette[code - 90]
    ensures !IsSupportedCode(code) ==> r == s
    ensures r.backgroundColor == s.backgroundColor && r.fontSize == s.fontSize
    ensures r.italic == s.italic && r.underline == s.underline
  {
    match ForegroundFor(code)
    case Some(c) => s.(textColor := c)
    case None => s
  }

  /** The SGR code that selects a colour: the inverse of ForegroundFor. */
  function CodeOf(c: Color): (code: int)
    ensures IsSupportedCode(code)
  {
    match c
    case Black => 30
    case Red => 31
    case Green => 32
    case Yellow => 33
    case Blue => 34
    case Magenta => 35
    case Cyan => 36
    case White => 37
    case Gray => 90
    case BrightRed => 91
    case BrightGreen => 92
    case BrightYellow => 93
    case BrightBlue => 94
    case BrightMagenta => 95
    case BrightCyan => 96
    case BrightWhite => 97
  }

  /** Every colour is reachable: its code selects it back. */
  lemma CodeOfRoundTrip(c: Color)
    ensures ForegroundFor(CodeOf(c)) == Some(c)
  {
  }

  /** Codes and colours are in one-to-one correspondence: no two supported codes share a colour. */
  lemma ForegroundForInjective(a: int, b: int)
    requires IsSupportedCode(a) && IsSupportedCode(b)
    requires ForegroundFor(a) == ForegroundFor(b)
    ensures a == b
  {
  }

  /** The inverse in the other direction: a supported code is the code of its colour. */
  lemma ForegroundForRoundTrip(code: int)
    requires IsSupportedCode(code)
    ensures CodeOf(ForegroundFor(code).value) == code
  {
  }

  /** Applying the same code twice is the same as applying it once. */
  lemma SetForegroundIdempotent(s: Styles, code: int)
    requires IsI16(code)
    ensures SetForegroundColorFromInt(SetForegroundColorFromInt(s, code), code) == SetForegroundColorFromInt(s, code)
  {
  }

  /** The last supported code wins: a later code overrides an earlier one regardless of the earlier one. */
  lemma SetForegroundLastWins(s: Styles, first: int, second: int)
    requires IsI16(first) && IsSupportedCode(second)
    ensures SetForegroundColorFromInt(SetForegroundColorFromInt(s, first), second)
         == SetForegroundColorFromInt(s, second)
  {
  }
}
