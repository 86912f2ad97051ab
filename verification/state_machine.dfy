/**
 * The `vte::ansi::Handler` implementation of `src/statemachine.rs`. The byte
 * parser calling these callbacks belongs to the vte crate and is not part of
 * this model: a callback invocation is a `Call` value, `Translate` gives the
 * command it sends (at most one), and the broadcast channel is an
 * append-only log whose failed sends are dropped.
 */
module StateMachine {
  import opened Wrappers
  import opened Ints
  import opened ColorSpec
  import opened Channels
  import Vte
  import C = Commands

  /** One invocation of a `Handler` callback implemented in the source, with its arguments. */
  datatype Call =
    | SetTitle(title: Option<string>)
    | SetCursorStyle(style: Option<Vte.CursorStyle>)
    | SetCursorShape(shape: Vte.CursorShape)
    | Input(c: char)
    | Goto(line: int, col: nat)
    | GotoLine(line: int)
    | GotoCol(col: nat)
    | InsertBlank(count: nat)
    | MoveUp(rows: nat)
    | MoveDown(rows: nat)
    | IdentifyTerminal(intermediate: Option<char>)
    | DeviceStatus(arg: nat)
    | MoveForward(cols: nat)
    | MoveBackward(cols: nat)
    | MoveDownAndCr(rows: nat)
    | MoveUpAndCr(rows: nat)
    | PutTab(count: nat)
    | Backspace
    | CarriageReturn
    | Linefeed
    | Bell
    | Substitute
    | Newline
    | SetHorizontalTabstop
    | ScrollUp(count: nat)
    | ScrollDown(count: nat)
    | InsertBlankLines(count: nat)
    | DeleteLines(count: nat)
    | EraseChars(count: nat)
    | DeleteChars(count: nat)
    | MoveBackwardTabs(count: nat)
    | MoveForwardTabs(count: nat)
    | SaveCursorPosition
    | RestoreCursorPosition
    | ClearLine(lineMode: Vte.LineClearMode)
    | ClearScreen(screenMode: Vte.ClearMode)
    | ClearTabs(tabMode: nat)
    | SetTabs(interval: nat)
    | ResetState
    | ReverseIndex
    | TerminalAttribute(attr: Vte.Attr)
    | SetMode(mode: nat)
    | UnsetMode(mode: nat)
    | ReportMode(mode: nat)
    | SetPrivateMode(privateMode: Vte.PrivateMode)
    | UnsetPrivateMode(privateMode: Vte.PrivateMode)
    | ReportPrivateMode(privateMode: Vte.PrivateMode)
    | SetScrollingRegion(top: nat, bottom: Option<nat>)
    | SetKeypadApplicationMode
    | UnsetKeypadApplicationMode
    | SetActiveCharset(charsetIndex: nat)
    | ConfigureCharset(charsetIndex: nat, charset: nat)
    | SetColor(index: nat, rgb: Rgb)
    | DynamicColorSequence(prefix: string, index: nat, color: string)
    | ResetColor(index: nat)
    | ClipboardStore(clipboard: Byte, data: seq<Byte>)
    | ClipboardLoad(clipboard: Byte, terminator: string)
    | Decaln
    | PushTitle
    | PopTitle
    | TextAreaSizePixels
    | TextAreaSizeChars
    | SetHyperlink(link: Option<string>)
    | SetMouseCursorIcon(icon: nat)
    | ReportKeyboardMode
    | PushKeyboardMode(keyboardMode: nat)
    | PopKeyboardModes(toPop: nat)
    | SetKeyboardMode(keyboardMode: nat, behavior: nat)
    | SetModifyOtherKeys(modifyMode: nat)
    | ReportModifyOtherKeys
    | SetScp(charPath: nat, updateMode: nat)

  /** Calls the source handles by logging only. */
  predicate IsLogOnly(call: Call) {
    || call.SetTitle? || call.Bell? || call.Substitute? || call.SetHorizontalTabstop?
    || call.MoveBackwardTabs? || call.MoveForwardTabs? || call.ClearTabs? || call.SetTabs?
    || call.ResetState? || call.SetMode? || call.UnsetMode? || call.ReportMode?
    || call.ReportPrivateMode? || call.SetKeypadApplicationMode? || call.UnsetKeypadApplicationMode?
    || call.SetActiveCharset? || call.ConfigureCharset? || call.ClipboardStore? || call.ClipboardLoad?
    || call.Decaln? || call.PushTitle? || call.PopTitle? || call.TextAreaSizePixels? || call.TextAreaSizeChars?
    || call.SetHyperlink? || call.SetMouseCursorIcon? || call.ReportKeyboardMode? || call.PushKeyboardMode?
    || call.PopKeyboardModes? || call.SetKeyboardMode? || call.SetModifyOtherKeys?
    || call.ReportModifyOtherKeys? || call.SetScp?
  }

  /** What a call needs to run without panicking: only the colour parse can panic, on a non-ASCII `#` form. */
  predicate Callable(call: Call) {
    call.DynamicColorSequence? ==> HashFormSafe(call.color)
  }

  /** The command `dynamic_color_sequence` sends: index 10 sets the default foreground, 11 the default background, when the colour parses. */
  function DynamicColor(index: nat, color: string): (cmd: Option<C.ClientCommand>)
    requires HashFormSafe(color)
    ensures cmd.Some? <==> ParseColor(color).Some? && (index == 10 || index == 11)
    ensures cmd.Some? && index == 10 ==> cmd.value == C.SetDefaultForeground(ParseColor(color).value)
    ensures cmd.Some? && index == 11 ==> cmd.value == C.SetDefaultBackground(ParseColor(color).value)
  {
    match ParseColor(color)
    case None => None
    case Some(rgb) =>
      if index == 10 then Some(C.SetDefaultForeground(rgb))
      else if index == 11 then Some(C.SetDefaultBackground(rgb))
      else None
  }

  /** `x as i16` for a `usize` argument. */
  function I16(x: int): int { ToI16(x) }

  /** `-(x as i16)` for a `usize` argument, with wrapping negation. */
  function NegI16Of(x: int): int { NegI16(ToI16(x)) }

  /** The command `set_private_mode` sends for a mode. */
  function SetPrivateModeCommand(mode: Vte.PrivateMode): Option<C.ClientCommand> {
    match mode
    case Named(ShowCursor) => Some(C.ShowCursor)
    case Named(SwapScreenAndSetRestoreCursor) => Some(C.SwapScreenAndSetRestoreCursor)
    case Named(CursorKeys) => Some(C.CursorKeysMode(true))
    case Named(BracketedPaste) => Some(C.BracketedPasteMode(true))
    case _ => None
  }

  /** The command `unset_private_mode` sends for a mode. */
  function UnsetPrivateModeCommand(mode: Vte.PrivateMode): Option<C.ClientCommand> {
    match mode
    case Named(ShowCursor) => Some(C.HideCursor)
    case Named(SwapScreenAndSetRestoreCursor) => Some(C.SwapScreenAndSetRestoreCursor)
    case Named(CursorKeys) => Some(C.CursorKeysMode(false))
    case Named(BracketedPaste) => Some(C.BracketedPasteMode(false))
    case _ => None
  }

  /** The command each callback sends, if any. */
  function Translate(call: Call): Option<C.ClientCommand>
    requires Callable(call)
  {
    match call
    case SetCursorStyle(style) =>
      if style.Some? then Some(C.SetCursorState(C.CursorState(C.ShapeOf(style.value.shape), style.value.blinking)))
      else None
    case SetCursorShape(shape) => Some(C.SetCursorShape(C.ShapeOf(shape)))
    case Input(c) => Some(C.Print(c))
    case Goto(line, col) => Some(C.MoveCursor(I16(line), I16(col)))
    case GotoLine(line) => Some(C.MoveCursor(I16(line), 0))
    case GotoCol(col) => Some(C.MoveCursorAbsoluteHorizontal(I16(col)))
    case InsertBlank(count) => Some(C.InsertBlanks(I16(count)))
    case MoveUp(rows) => Some(C.MoveCursorVertical(NegI16Of(rows)))
    case MoveDown(rows) => Some(C.MoveCursorVertical(I16(rows)))
    case IdentifyTerminal(intermediate) =>
      if intermediate == None then Some(C.IdentifyTerminal(C.Primary))
      else if intermediate == Some('>') then Some(C.IdentifyTerminal(C.Secondary))
      else None
    case DeviceStatus(arg) =>
      if arg == 5 then Some(C.ReportCondition(true))
      else if arg == 6 then Some(C.ReportCursorPosition)
      else None
    case MoveForward(cols) => Some(C.MoveCursorHorizontal(I16(cols)))
    case MoveBackward(cols) => Some(C.MoveCursorHorizontal(NegI16Of(cols)))
    case MoveDownAndCr(_) => Some(C.MoveCursorVerticalWithCarriageReturn(1))
    case MoveUpAndCr(_) => Some(C.MoveCursorVerticalWithCarriageReturn(-1))
    case PutTab(_) => Some(C.PutTab)
    case Backspace => Some(C.Backspace)
    case CarriageReturn => Some(C.CarriageReturn)
    case Linefeed => Some(C.LineFeed)
    case Newline => Some(C.NewLine)
    case ScrollUp(count) => Some(C.ScrollUp(I16(count)))
    case ScrollDown(count) => Some(C.ScrollDown(I16(count)))
    case InsertBlankLines(count) => Some(C.InsertBlankLines(I16(count)))
    case DeleteLines(count) => Some(C.DeleteLines(I16(count)))
    case EraseChars(count) => Some(C.ClearCount(I16(count)))
    case DeleteChars(count) => Some(C.DeleteChars(I16(count)))
    case SaveCursorPosition => Some(C.SaveCursor)
    case RestoreCursorPosition => Some(C.RestoreCursor)
    case ClearLine(mode) =>
      (match mode
       case All => Some(C.ClearLine)
       case Left => Some(C.ClearLineBeforeCursor)
       case Right => Some(C.ClearLineAfterCursor))
    case ClearScreen(mode) =>
      (match mode
       case All => Some(C.ClearScreen)
       case Above => Some(C.ClearAbove)
       case Below => Some(C.ClearBelow)
       case Saved => Some(C.ClearScreen))
    case ReverseIndex => Some(C.ReverseIndex)
    case TerminalAttribute(attr) => Some(C.SGR(attr))
    case SetPrivateMode(mode) => SetPrivateModeCommand(mode)
    case UnsetPrivateMode(mode) => UnsetPrivateModeCommand(mode)
    case SetScrollingRegion(top, bottom) => Some(C.SetScrollingRegion(top, bottom))
    case SetColor(index, rgb) => Some(C.SetColor(index, rgb))
    case DynamicColorSequence(_, index, color) => DynamicColor(index, color)
    case ResetColor(index) => Some(C.ResetColor(index))
    case _ => None
  }

  /** One callback: the command it produces, if any, is sent on the channel. */
  function Handle(ch: Channel<C.ClientCommand>, call: Call): (r: Channel<C.ClientCommand>)
    requires Callable(call)
    ensures r.open == ch.open
    ensures |ch.delivered| <= |r.delivered| <= |ch.delivered| + 1
    ensures r.delivered[..|ch.delivered|] == ch.delivered
    ensures |r.delivered| == |ch.delivered| + 1 <==> ch.open && Translate(call).Some?
    ensures |r.delivered| == |ch.delivered| + 1 ==> r.delivered[|ch.delivered|] == Translate(call).value
  {
    match Translate(call)
    case Some(cmd) => Send(ch, cmd)
    case None => ch
  }

  predicate AllCallable(calls: seq<Call>) {
    forall k :: 0 <= k < |calls| ==> Callable(calls[k])
  }

  /** A stream of callbacks, handled in order. */
  function HandleAll(ch: Channel<C.ClientCommand>, calls: seq<Call>): (r: Channel<C.ClientCommand>)
    requires AllCallable(calls)
    ensures r.open == ch.open
    decreases |calls|
  {
    if |calls| == 0 then ch else HandleAll(Handle(ch, calls[0]), calls[1..])
  }

  /** Callbacks that only log send nothing; the others either always send or decide by their arguments. */
  lemma LogOnlyCallbacksSendNothing(call: Call)
    requires IsLogOnly(call)
    ensures Callable(call) && Translate(call) == None
  {
  }

  /** The commands one callback produces: none or one. */
  function Produced(call: Call): (cmds: seq<C.ClientCommand>)
    requires Callable(call)
    ensures |cmds| <= 1
    ensures |cmds| == 1 <==> Translate(call).Some?
  {
    var t := Translate(call);
    if t.Some? then [t.value] else []
  }

  /** The commands a stream of callbacks produces, in order. */
  function Emitted(calls: seq<Call>): (cmds: seq<C.ClientCommand>)
    requires AllCallable(calls)
    decreases |calls|
  {
    if |calls| == 0 then [] else Produced(calls[0]) + Emitted(calls[1..])
  }

  /** No callback produces more than one command. */
  lemma {:induction false} EmittedAtMostOnePerCall(calls: seq<Call>)
    requires AllCallable(calls)
    ensures |Emitted(calls)| <= |calls|
    decreases |calls|
  {
    if |calls| > 0 {
      EmittedAtMostOnePerCall(calls[1..]);
    }
  }

  /** One callback on an open channel delivers exactly what it produces; on a closed one, nothing. */
  lemma HandleDelivers(ch: Channel<C.ClientCommand>, call: Call)
    requires Callable(call)
    ensures ch.open ==> Handle(ch, call).delivered == ch.delivered + Produced(call)
    ensures !ch.open ==> Handle(ch, call).delivered == ch.delivered
  {
    var t := Translate(call);
    if t.Some? {
      assert Produced(call) == [t.value];
    } else {
      assert Produced(call) == [];
    }
  }

  /** On an open channel the log grows by exactly the produced commands, in callback order; on a closed one, nothing is delivered and nothing fails. */
  lemma {:induction false} HandleAllDelivers(ch: Channel<C.ClientCommand>, calls: seq<Call>)
    requires AllCallable(calls)
    ensures ch.open ==> HandleAll(ch, calls).delivered == ch.delivered + Emitted(calls)
    ensures !ch.open ==> HandleAll(ch, calls).delivered == ch.delivered
    decreases |calls|
  {
    if |calls| > 0 {
      var ch1 := Handle(ch, calls[0]);
      HandleDelivers(ch, calls[0]);
      HandleAllDelivers(ch1, calls[1..]);
      if ch.open {
        assert ch.delivered + Produced(calls[0]) + Emitted(calls[1..])
            == ch.delivered + (Produced(calls[0]) + Emitted(calls[1..]));
      }
    }
  }

  /** Device Status Report (DSR, ECMA-48 section 8.3.35): 5 asks for the operating status, 6 for the cursor position, anything else is ignored. */
  lemma DeviceStatusReplies(arg: nat)
    ensures arg == 5 <==> Translate(DeviceStatus(arg)) == Some(C.ReportCondition(true))
    ensures arg == 6 <==> Translate(DeviceStatus(arg)) == Some(C.ReportCursorPosition)
    ensures arg != 5 && arg != 6 <==> Translate(DeviceStatus(arg)) == None
  {
  }

  /** Device Attributes (DA): no intermediate asks for the primary report, '>' for the secondary one, anything else is ignored. */
  lemma IdentifyTerminalReplies(intermediate: Option<char>)
    ensures intermediate == None <==> Translate(IdentifyTerminal(intermediate)) == Some(C.IdentifyTerminal(C.Primary))
    ensures intermediate == Some('>') <==> Translate(IdentifyTerminal(intermediate)) == Some(C.IdentifyTerminal(C.Secondary))
    ensures intermediate != None && intermediate != Some('>') <==> Translate(IdentifyTerminal(intermediate)) == None
  {
  }

  predicate IsHandledPrivateMode(mode: Vte.PrivateMode) {
    mode.Named? && !mode.mode.OtherNamed?
  }

  /** Setting and resetting a handled private mode produce the matching pair of commands. */
  lemma PrivateModeCommands(mode: Vte.PrivateMode)
    ensures mode == Vte.Named(Vte.ShowCursor) ==>
      Translate(SetPrivateMode(mode)) == Some(C.ShowCursor) && Translate(UnsetPrivateMode(mode)) == Some(C.HideCursor)
    ensures mode == Vte.Named(Vte.CursorKeys) ==>
      Translate(SetPrivateMode(mode)) == Some(C.CursorKeysMode(true)) && Translate(UnsetPrivateMode(mode)) == Some(C.CursorKeysMode(false))
    ensures mode == Vte.Named(Vte.BracketedPaste) ==>
      Translate(SetPrivateMode(mode)) == Some(C.BracketedPasteMode(true)) && Translate(UnsetPrivateMode(mode)) == Some(C.BracketedPasteMode(false))
    ensures mode == Vte.Named(Vte.SwapScreenAndSetRestoreCursor) ==>
      Translate(SetPrivateMode(mode)) == Translate(UnsetPrivateMode(mode)) == Some(C.SwapScreenAndSetRestoreCursor)
  {
    assert Translate(SetPrivateMode(mode)) == SetPrivateModeCommand(mode);
    assert Translate(UnsetPrivateMode(mode)) == UnsetPrivateModeCommand(mode);
  }

  /** Only the four handled private modes send anything, when set and when reset. */
  lemma OnlyHandledPrivateModesSend(mode: Vte.PrivateMode)
    ensures Translate(SetPrivateMode(mode)).Some? <==> IsHandledPrivateMode(mode)
    ensures Translate(UnsetPrivateMode(mode)).Some? <==> IsHandledPrivateMode(mode)
  {
  }

  /** Setting and then resetting a handled mode other than the screen swap sends two different commands. */
  lemma SetAndUnsetDiffer(mode: Vte.PrivateMode)
    requires IsHandledPrivateMode(mode) && mode.mode != Vte.SwapScreenAndSetRestoreCursor
    ensures Translate(SetPrivateMode(mode)) != Translate(UnsetPrivateMode(mode))
  {
  }

  /** Erase in Line and Erase in Display always produce a command; "saved" erases the screen like "all". */
  lemma ClearCommands(lineMode: Vte.LineClearMode, screenMode: Vte.ClearMode)
    ensures Translate(ClearLine(lineMode)) ==
      Some(match lineMode
           case All => C.ClearLine
           case Left => C.ClearLineBeforeCursor
           case Right => C.ClearLineAfterCursor)
    ensures Translate(ClearScreen(screenMode)) == Some(C.ClearScreen) <==> screenMode == Vte.ClearMode.All || screenMode == Vte.Saved
    ensures Translate(ClearScreen(screenMode)) == Some(C.ClearAbove) <==> screenMode == Vte.Above
    ensures Translate(ClearScreen(screenMode)) == Some(C.ClearBelow) <==> screenMode == Vte.Below
  {
  }

  /** Vertical motion carries the direction in its sign: up is negative and down positive, for any count that fits in an `i16`; `goto_line` moves to column 0. */
  lemma VerticalMotionSigns(n: nat)
    requires n < 0x8000
    ensures Translate(MoveUp(n)) == Some(C.MoveCursorVertical(-(n as int)))
    ensures Translate(MoveDown(n)) == Some(C.MoveCursorVertical(n))
    ensures Translate(GotoLine(n)) == Some(C.MoveCursor(n, 0))
  {
  }

  /** Horizontal motion likewise: backward is negative and forward positive. */
  lemma HorizontalMotionSigns(n: nat)
    requires n < 0x8000
    ensures Translate(MoveBackward(n)) == Some(C.MoveCursorHorizontal(-(n as int)))
    ensures Translate(MoveForward(n)) == Some(C.MoveCursorHorizontal(n))
  {
  }

  /** `-(x as i16)` is congruent to `-x` modulo 2^16, whatever the count. */
  lemma NegI16OfCongruent(x: nat)
    ensures IsI16(NegI16Of(x))
    ensures NegI16Of(x) % TWO_16 == (-(x as int)) % TWO_16
  {
    var t := ToI16(x);
    var r := NegI16(t);
    assert (r - (-t)) % TWO_16 == 0;
    assert (t - x) % TWO_16 == 0;
    assert (r - (-(x as int))) == (r - (-t)) - (t - x);
  }

  /** For larger counts the vertical argument is truncated to 16 bits: the value sent is an `i16` congruent to the signed count modulo 2^16. */
  lemma VerticalMotionTruncates(n: nat)
    ensures IsI16(Translate(MoveDown(n)).value.delta)
    ensures Translate(MoveDown(n)).value.delta % TWO_16 == n % TWO_16
    ensures IsI16(Translate(MoveUp(n)).value.delta)
    ensures Translate(MoveUp(n)).value.delta % TWO_16 == (-(n as int)) % TWO_16
  {
    NegI16OfCongruent(n);
  }

  /** The same truncation for horizontal motion. */
  lemma HorizontalMotionTruncates(n: nat)
    ensures IsI16(Translate(MoveForward(n)).value.delta)
    ensures Translate(MoveForward(n)).value.delta % TWO_16 == n % TWO_16
    ensures IsI16(Translate(MoveBackward(n)).value.delta)
    ensures Translate(MoveBackward(n)).value.delta % TWO_16 == (-(n as int)) % TWO_16
  {
    NegI16OfCongruent(n);
  }

  /** `v` is what `n as i16` sends: an `i16` congruent to `n` modulo 2^16, and `n` itself when `n` fits. */
  predicate SentAsI16(v: int, n: int) {
    IsI16(v) && (v - n) % TWO_16 == 0 && (IsI16(n) ==> v == n)
  }

  /** The line-editing and scrolling callbacks send their count cast to `i16`, in the command of the same name. */
  lemma LineCountsTruncate(n: nat)
    ensures var t := Translate(ScrollUp(n)); t.Some? && t.value.ScrollUp? && SentAsI16(t.value.count, n)
    ensures var t := Translate(ScrollDown(n)); t.Some? && t.value.ScrollDown? && SentAsI16(t.value.count, n)
    ensures var t := Translate(InsertBlankLines(n)); t.Some? && t.value.InsertBlankLines? && SentAsI16(t.value.count, n)
    ensures var t := Translate(DeleteLines(n)); t.Some? && t.value.DeleteLines? && SentAsI16(t.value.count, n)
  {
  }

  /** insert_blank sends its count cast to `i16`. */
  lemma InsertBlankTruncates(n: nat)
    ensures var t := Translate(InsertBlank(n)); t.Some? && t.value.InsertBlanks? && SentAsI16(t.value.count, n)
  {
  }

  /** The character-erasing callbacks send their count cast to `i16`; erase_chars sends `ClearCount`. */
  lemma CharCountsTruncate(n: nat)
    ensures var t := Translate(EraseChars(n)); t.Some? && t.value.ClearCount? && SentAsI16(t.value.count, n)
    ensures var t := Translate(DeleteChars(n)); t.Some? && t.value.DeleteChars? && SentAsI16(t.value.count, n)
  {
  }

  /** Absolute positioning casts both coordinates to `i16`; `goto_line` keeps column 0 and `goto_col` moves along the row only. */
  lemma AbsolutePositionsTruncate(line: int, col: nat)
    ensures var t := Translate(Goto(line, col));
      t.Some? && t.value.MoveCursor? && SentAsI16(t.value.line, line) && SentAsI16(t.value.col, col)
    ensures var t := Translate(GotoLine(line));
      t.Some? && t.value.MoveCursor? && SentAsI16(t.value.line, line) && t.value.col == 0
    ensures var t := Translate(GotoCol(col));
      t.Some? && t.value.MoveCursorAbsoluteHorizontal? && SentAsI16(t.value.col, col)
  {
  }

  /** `move_down_and_cr` and `move_up_and_cr` ignore their row count: they always move one line, down or up. */
  lemma LineMotionWithReturnIgnoresCount(n: nat, m: nat)
    ensures Translate(MoveDownAndCr(n)) == Translate(MoveDownAndCr(m)) == Some(C.MoveCursorVerticalWithCarriageReturn(1))
    ensures Translate(MoveUpAndCr(n)) == Translate(MoveUpAndCr(m)) == Some(C.MoveCursorVerticalWithCarriageReturn(-1))
  {
  }

  /** The cursor style and shape callbacks forward the vte style through `ShapeOf`; a cursor style without a value sends nothing. */
  lemma CursorStyleForwarded(style: Option<Vte.CursorStyle>, shape: Vte.CursorShape)
    ensures Translate(SetCursorStyle(style)).Some? <==> style.Some?
    ensures style.Some? ==>
      Translate(SetCursorStyle(style)) == Some(C.SetCursorState(C.CursorState(C.ShapeOf(style.value.shape), style.value.blinking)))
    ensures Translate(SetCursorShape(shape)) == Some(C.SetCursorShape(C.ShapeOf(shape)))
  {
  }

  /** `put_tab` ignores its count: it always sends one tab. */
  lemma TabIgnoresCount(n: nat, m: nat)
    ensures Translate(PutTab(n)) == Translate(PutTab(m)) == Some(C.PutTab)
  {
  }

  /** A printable character reaches the client as `Print` of that character. */
  lemma InputPrinted(c: char)
    ensures Translate(Input(c)) == Some(C.Print(c))
  {
  }

  /** An SGR callback sends an SGR command carrying the attribute in place of the crate's converted `SgrAttribute`. */
  lemma AttributeForwarded(attr: Vte.Attr)
    ensures Translate(TerminalAttribute(attr)) == Some(C.SGR(attr))
  {
  }

  /** The scrolling region and the palette callbacks forward their arguments unchanged. */
  lemma RegionAndColorForwarded(top: nat, bottom: Option<nat>, index: nat, rgb: Rgb)
    ensures Translate(SetScrollingRegion(top, bottom)) == Some(C.SetScrollingRegion(top, bottom))
    ensures Translate(SetColor(index, rgb)) == Some(C.SetColor(index, rgb))
    ensures Translate(ResetColor(index)) == Some(C.ResetColor(index))
  {
  }

  /** The callbacks that send a command whatever their arguments. */
  predicate AlwaysSends(call: Call) {
    || call.SetCursorShape? || call.Input? || call.Goto? || call.GotoLine? || call.GotoCol?
    || call.InsertBlank? || call.MoveUp? || call.MoveDown? || call.MoveForward? || call.MoveBackward?
    || call.MoveDownAndCr? || call.MoveUpAndCr? || call.PutTab? || call.Backspace? || call.CarriageReturn?
    || call.Linefeed? || call.Newline? || call.ScrollUp? || call.ScrollDown? || call.InsertBlankLines?
    || call.DeleteLines? || call.EraseChars? || call.DeleteChars? || call.SaveCursorPosition?
    || call.RestoreCursorPosition? || call.ClearLine? || call.ClearScreen? || call.ReverseIndex?
    || call.TerminalAttribute? || call.SetScrollingRegion? || call.SetColor? || call.ResetColor?
  }

  /** The callbacks whose arguments decide whether anything is sent. */
  predicate DecidesByArgument(call: Call) {
    || call.SetCursorStyle? || call.IdentifyTerminal? || call.DeviceStatus?
    || call.SetPrivateMode? || call.UnsetPrivateMode? || call.DynamicColorSequence?
  }

  /** Every callback only logs, always sends, or decides by its argument. */
  lemma CallbackKinds(call: Call)
    ensures IsLogOnly(call) || AlwaysSends(call) || DecidesByArgument(call)
  {
  }

  lemma AlwaysSendingCallbacksSend(call: Call)
    requires AlwaysSends(call)
    ensures Translate(call).Some?
  {
  }

  /** A callback sends nothing exactly when it only logs, or when its argument is one the source does not handle. */
  lemma SilentCalls(call: Call)
    requires Callable(call)
    ensures Translate(call).None? <==>
      || IsLogOnly(call)
      || (call.SetCursorStyle? && call.style.None?)
      || (call.IdentifyTerminal? && call.intermediate != None && call.intermediate != Some('>'))
      || (call.DeviceStatus? && call.arg != 5 && call.arg != 6)
      || (call.SetPrivateMode? && !IsHandledPrivateMode(call.privateMode))
      || (call.UnsetPrivateMode? && !IsHandledPrivateMode(call.privateMode))
      || (call.DynamicColorSequence? && DynamicColor(call.index, call.color).None?)
  {
    CallbackKinds(call);
    if IsLogOnly(call) {
      LogOnlyCallbacksSendNothing(call);
    } else if AlwaysSends(call) {
      AlwaysSendingCallbacksSend(call);
    } else {
      match call
      case SetCursorStyle(style) =>
      case IdentifyTerminal(intermediate) => IdentifyTerminalReplies(intermediate);
      case DeviceStatus(arg) => DeviceStatusReplies(arg);
      case SetPrivateMode(mode) => OnlyHandledPrivateModesSend(mode);
      case UnsetPrivateMode(mode) => OnlyHandledPrivateModesSend(mode);
      case DynamicColorSequence(prefix, index, color) =>
    }
  }

  /** OSC 10 and 11 are the only dynamic colours that produce a command, and only for a colour string that parses. */
  lemma DynamicColorIndices(prefix: string, index: nat, color: string)
    requires HashFormSafe(color)
    ensures Translate(DynamicColorSequence(prefix, index, color)).Some? <==> (index == 10 || index == 11) && ParseColor(color).Some?
  {
  }

  /** An OSC 10 carrying `#RRGGBB` sets the default foreground to exactly that colour. */
  lemma DynamicForegroundRoundTrip(prefix: string, c: Rgb)
    ensures var color := "#" + Hex2(c.r) + Hex2(c.g) + Hex2(c.b);
            HashFormSafe(color) && Translate(DynamicColorSequence(prefix, 10, color)) == Some(C.SetDefaultForeground(c))
  {
    HashFormRoundTrip(c);
  }
}
