/**
 * The values exchanged at the `vte::ansi::Handler` boundary: the vte types
 * the callbacks receive, and the `ClientCommand`s the state machine sends.
 */
module Vte {
  import opened Ints

  datatype CursorShape = Block | Underline | Beam | HollowBlock | Hidden

  datatype CursorStyle = CursorStyle(shape: CursorShape, blinking: bool)

  /** Erase in Line (EL, ECMA-48 section 8.3.41). */
  datatype LineClearMode = All | Left | Right

  /** Erase in Display (ED, ECMA-48 section 8.3.39), plus xterm's "saved lines". */
  datatype ClearMode = All | Above | Below | Saved

  /** The named private modes the handler dispatches on; every other named mode is `OtherNamed`. */
  datatype NamedPrivateMode = CursorKeys | ShowCursor | SwapScreenAndSetRestoreCursor | BracketedPaste | OtherNamed(code: nat)

  datatype PrivateMode = Named(mode: NamedPrivateMode) | Unknown(code: nat)

  /** An SGR attribute as decoded by vte; its conversion to the crate's own `SgrAttribute` is not part of this model. */
  datatype Attr = Attr(code: nat)
}

module Commands {
  import Vte
  import opened Wrappers
  import opened ColorSpec

  datatype CursorShape = Block | Underline | Beam | HollowBlock | Hidden

  datatype CursorState = CursorState(shape: CursorShape, blinking: bool)

  /** Which Device Attributes report (DA, ECMA-48 section 8.3.24) is asked for. */
  datatype IdentifyTerminalMode = Primary | Secondary

  /** Commands sent to the renderer; every `i16` field holds a value in the `i16` range. */
  datatype ClientCommand =
    | SetCursorState(state: CursorState)
    | SetCursorShape(shape: CursorShape)
    | Print(c: char)
    | MoveCursor(line: int, col: int)
    | MoveCursorAbsoluteHorizontal(col: int)
    | InsertBlanks(count: int)
    | MoveCursorVertical(delta: int)
    | MoveCursorHorizontal(delta: int)
    | MoveCursorVerticalWithCarriageReturn(delta: int)
    | IdentifyTerminal(mode: IdentifyTerminalMode)
    | ReportCondition(ok: bool)
    | ReportCursorPosition
    | PutTab
    | Backspace
    | CarriageReturn
    | LineFeed
    | NewLine
    | ScrollUp(count: int)
    | ScrollDown(count: int)
    | InsertBlankLines(count: int)
    | DeleteLines(count: int)
    | ClearCount(count: int)
    | DeleteChars(count: int)
    | SaveCursor
    | RestoreCursor
    | ClearLine
    | ClearLineBeforeCursor
    | ClearLineAfterCursor
    | ClearScreen
    | ClearAbove
    | ClearBelow
    | ReverseIndex
    | SGR(attr: Vte.Attr)
    | ShowCursor
    | HideCursor
    | SwapScreenAndSetRestoreCursor
    | CursorKeysMode(on: bool)
    | BracketedPasteMode(on: bool)
    | SetScrollingRegion(top: nat, bottom: Option<nat>)
    | SetColor(index: nat, rgb: Rgb)
    | SetDefaultForeground(rgb: Rgb)
    | SetDefaultBackground(rgb: Rgb)
    | ResetColor(index: nat)

  /** The one-to-one renaming of vte's cursor shapes to the crate's own. */
  function ShapeOf(s: Vte.CursorShape): (r: CursorShape)
  {
    match s
    case Block => Block
    case Underline => Underline
    case Beam => Beam
    case HollowBlock => HollowBlock
    case Hidden => Hidden
  }

  lemma ShapeOfInjective(a: Vte.CursorShape, b: Vte.CursorShape)
    ensures ShapeOf(a) == ShapeOf(b) ==> a == b
  {
  }
}
