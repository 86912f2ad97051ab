# MTTY terminal core in Dafny

A functional model of the core of MTTY, a terminal emulator written in Rust.
It covers these parts:

- **Screen grid** (`src/grid.rs`): a primary and an alternate grid of cells, a cursor and a saved cursor, a scroll position, and the pen colours used for new cells.
  - `place_character_in_grid` wraps, handles line feed and carriage return, and prints.
  - `delete_character`, `clear_screen`, `set_pos`, `add_rows`, `swap_active_grid` and save/restore cursor are modelled too.
- **Styles** (`src/styles.rs`): the default style and the SGR foreground-colour table.
- **State machine** (`src/statemachine.rs`): the vte `Handler` callbacks, each mapped to the `ClientCommand` it sends on the command channel (or to nothing). This includes the colour-string parser inside `dynamic_color_sequence`.
- **Recording** (`src/recording.rs`): the `Recorder` appends numbered events. The `Player` steps through a recording, seeks and resets.
- **Front-ends** (`src/sdl2frontend.rs` and `src/frontend.rs`): key handling in `r#type`, the way `poll_event` attaches a response to the command it answers, and the source rectangle used when the rendered text is taller than the window.

Each Rust `&mut self` method becomes a pure function from the old state to the new state.

Integer widths are written out:
- `usize as i16` is a two's-complement truncation (`Ints.ToI16`).
- The negation in `-(u as i16)` is the wrapping one (`Ints.NegI16`).
- `u16`, `u32` and `u8` bounds are explicit predicates or subset types.

Where the Rust code would panic, the model has a precondition instead:
- an `unwrap` on a missing word or id;
- an index outside a row;
- the `cols - 1` underflow.

A failed channel send is logged and dropped in the Rust code. The model treats such a send as a channel that is no longer open (`Channels.Send`).

### Where the model follows the code rather than the usual terminal conventions

- The grid does not clamp the cursor, and it does not scroll. Moving below the last row appends blank rows (`Grid.SetPos`, `Grid.AddRows`).
- Rows carry no wrap flag, and there is no scrollback buffer.
- `place_character_in_grid`, `delete_character` and `clear_screen` always write the primary grid, even while the alternate screen is active. The model keeps that behaviour.
- `grid.rs` reads the pen as `styles.active_text_color` and `styles.active_background_color`. The model represents these two colours as `Grid.Pen`.

### Modules

| file | module | models |
|---|---|---|
| `wrappers.dfy` | `Wrappers` | `Option` |
| `ints.dfy` | `Ints` | fixed-width integers and `as` casts |
| `channels.dfy` | `Channels` | the sending half of a channel: the `tokio::sync::broadcast` sender of the state machine, and the crossbeam senders of the front-ends |
| `styles.dfy` | `Styles` | `src/styles.rs` |
| `grid.dfy` | `Grid` | `src/grid.rs` |
| `grid_properties.dfy` | `GridProperties` | properties relating grid operations |
| `grid_cases.dfy` | `GridCases` | the scenarios of `src/grid/tests.rs` |
| `color_spec.dfy` | `ColorSpec` | the colour strings of `dynamic_color_sequence` |
| `commands.dfy` | `Vte`, `Commands` | the vte callback argument types; `ClientCommand` |
| `state_machine.dfy` | `StateMachine` | `src/statemachine.rs` |
| `recording.dfy` | `Recording` | `src/recording.rs` |
| `words.dfy` | `Words` | `str::split_whitespace` |
| `line_editor.dfy` | `LineEditor` | what both front-ends share |
| `sdl2_frontend.dfy` | `Sdl2Frontend` | `src/sdl2frontend.rs` |
| `frontend.dfy` | `Frontend` | `src/frontend.rs` |

## Model

| member | source | states |
|---|---|---|
| Ints.ToI16 | src/statemachine.rs:75-93 | `as i16` gives the value in the `i16` range that is congruent modulo 2^16, and leaves values already in range unchanged |
| Ints.NegI16 | src/statemachine.rs:95-98 | negating an `i16` flips the sign, except that -32768 maps to itself |
| Channels.Send | src/statemachine.rs:23-29 | a send appends exactly the command when the channel is open; otherwise nothing is delivered and nothing fails |
| Styles.DefaultStyles | src/styles.rs:53-62 | the default style is white text on black, size 16, neither italic nor underlined |
| Styles.ForegroundFor | src/styles.rs:64-86 | a code selects a colour exactly when it is in 30..37 or 90..97: the standard palette for 30..37, the bright one for 90..97 |
| Styles.SetForegroundColorFromInt | src/styles.rs:64-86 | a supported code sets the text colour from the palette; any other `i16` leaves the style unchanged; the other fields are never touched |
| Styles.CodeOfRoundTrip | src/styles.rs:64-86 | every one of the 16 colours is selected by some code |
| Styles.ForegroundForInjective | src/styles.rs:64-86 | no two supported codes select the same colour |
| Styles.ForegroundForRoundTrip | src/styles.rs:64-86 | a supported code is recovered from the colour it selects |
| Styles.SetForegroundIdempotent | src/styles.rs:64-86 | applying the same code twice equals applying it once |
| Styles.SetForegroundLastWins | src/styles.rs:64-86 | after any code, a supported code gives the same style as applying it alone |
| Grid.DefaultCell | src/grid.rs:15-24 | the default cell is a space, white on black, with the default attribute |
| Grid.NewGrid | src/grid.rs:56-73 | both grids are rows x cols default cells; cursor and saved cursor at the origin; scroll position at the last row; primary grid active; the result satisfies the grid invariant |
| Grid.SwapActiveGrid | src/grid.rs:83-98 | the active grid toggles and the invariant holds; the primary cells and cursors are untouched; leaving the alternate screen resets it to height x width blanks in the pen colours |
| Grid.AddRows | src/grid.rs:135-147 | exactly `n` blank rows of `width` cells in the pen colours are appended; everything else is unchanged |
| Grid.SetPos | src/grid.rs:126-133 | the cursor is at exactly (row, col); a row past the end grows the grid to row + 1 rows and moves the scroll position there; otherwise the cells are unchanged |
| Grid.WrapTarget | src/grid.rs:150-156 | from column `cols - 1` or beyond, the cursor goes to the start of the next row; before that column it stays put |
| Grid.PlaceCharacterInGrid | src/grid.rs:149-175 | after the wrap: '\n' moves to the start of the next row and '\r' to the start of the row; any other character is written with the pen at the cursor and the cursor advances one column; no other original cell changes, and a row the wrap appended is blank in the pen's colours apart from the printed cell; a target row past the end grows the grid to that row and moves the scroll position there, otherwise the scroll position is kept; the invariant holds |
| Grid.ActiveGrid | src/grid.rs:75-81 | the grid on display is the alternate grid while the alternate screen is active, the primary grid otherwise |
| Grid.ClearScreen | src/grid.rs:177-189 | every primary cell becomes a blank in the pen colours; the dimensions, cursors and alternate grid are kept |
| Grid.DeleteCharacter | src/grid.rs:191-220 | the cell under the cursor becomes a blank and no other cell changes; the cursor steps back one column, or to the last column of the previous row from column 0, or stays at the origin |
| Grid.SaveCursor | src/grid.rs:224-226 | the saved cursor becomes the cursor and nothing else changes |
| Grid.RestoreCursor | src/grid.rs:228-230 | the cursor becomes the saved cursor and nothing else changes |
| GridProperties.SaveThenRestoreIsSave | src/grid.rs:224-230 | restoring straight after saving changes nothing more |
| GridProperties.RestoreAfterMoveReturns | src/grid.rs:126-133 | save, move anywhere, restore: the cursor is back where it was and the original rows are intact |
| GridProperties.SwapSelectsOtherGrid | src/grid.rs:75-98 | after a swap the active grid is the grid that was inactive before it |
| GridProperties.SwapTwiceRestoresPrimary | src/grid.rs:83-98 | entering and leaving the alternate screen restores the primary grid and cursor and leaves a blank alternate grid |
| GridProperties.PrintOnAlternateScreenWritesPrimary | src/grid.rs:158-172 | while the alternate screen is active, printing leaves the grid on display unchanged and writes the character into the primary grid |
| GridProperties.AddRowsAdditive | src/grid.rs:135-147 | adding a rows then b rows equals adding a + b rows |
| GridProperties.SetPosIdempotent | src/grid.rs:126-133 | moving to the same position twice equals moving there once |
| GridProperties.PlaceKeepsLastColumns | src/grid.rs:149-175 | with at least two columns, no printed character lands in column `cols - 1` or beyond |
| GridProperties.PlaceThenDeleteReturnsCursor | src/grid.rs:149-220 | printing a character that does not wrap and then deleting returns the cursor to where it was |
| GridProperties.PlaceString | src/grid.rs:149-175 | feeding a string character by character keeps the grid invariant, the frame and the saved cursor, and never shrinks the grid |
| GridProperties.PrintRun | src/grid.rs:149-175 | a run of printable characters that fits before the wrap column is laid out left to right on the cursor's row; the cursor ends right after it; no cell outside the run changes |
| GridCases.WithChar | src/grid/tests.rs:15-29 | writing one cell the way the tests do changes only that cell |
| GridCases.SetPosSetsCursor | src/grid/tests.rs:7-13 | on a 60x80 grid, `set_pos(5, 10)` puts the cursor at (5, 10) |
| GridCases.DeleteCharacterInRow | src/grid/tests.rs:15-29 | deleting at (5, 10) blanks that cell and moves the cursor to (5, 9) |
| GridCases.DeleteCharacterWrapsToPreviousLine | src/grid/tests.rs:31-50 | deleting at (9, 0) on a 10x10 grid blanks that cell and moves the cursor to (8, 9) |
| GridCases.PlaceCharacterWraps | src/grid/tests.rs:52-61 | printing 'a' at column 10 with 10 columns wraps it to (6, 0) and leaves the cursor at (6, 1) |
| GridCases.NewlineMovesToNextLineStart | src/grid/tests.rs:63-71 | '\n' at (5, 5) moves the cursor to (6, 0) |
| GridCases.CarriageReturnMovesToLineStart | src/grid/tests.rs:73-81 | '\r' at (5, 5) moves the cursor to (5, 0) |
| GridCases.ClearScreenBlanksEverything | src/grid/tests.rs:83-97 | after clearing, every cell holds a space |
| ColorSpec.HexDigitValue | src/statemachine.rs:392-396 | a character is a base-16 digit exactly when it is 0-9, a-f or A-F, with the value 0-9, 10-15, 10-15 respectively |
| ColorSpec.HexChar | src/statemachine.rs:392-396 | the lower-case digit of a value below 16 ('0'-'9' below 10, 'a'-'f' from 10) parses back to that value |
| ColorSpec.ParseHexByte | src/statemachine.rs:392-396 | `u8::from_str_radix(_, 16)` on at most two characters: empty is an error; one character is its digit; two characters give 16*hi + lo when both are digits and fail otherwise; after a leading '+' the single digit is the value |
| ColorSpec.Take2 | src/statemachine.rs:405-410 | a prefix of the string: the first two characters, or the whole string when it has at most two |
| ColorSpec.Split | src/statemachine.rs:402 | `split('/')` always yields at least one piece |
| ColorSpec.ParseColor | src/statemachine.rs:386-420 | the '#' form yields a colour exactly when six characters follow '#'; the `rgb:` form exactly when it has three '/'-separated parts; anything else yields none |
| ColorSpec.SplitCount | src/statemachine.rs:402 | there is one more piece than there are separators |
| ColorSpec.SplitPiecesFree | src/statemachine.rs:402 | no piece contains the separator |
| ColorSpec.JoinSplit | src/statemachine.rs:402 | joining the pieces with the separator gives back the original string |
| ColorSpec.SplitAppend | src/statemachine.rs:402 | splitting `a + sep + b` gives the pieces of `a` followed by the pieces of `b` |
| ColorSpec.SplitWithoutSep | src/statemachine.rs:402 | a string without the separator splits into itself |
| ColorSpec.Hex2Upper | src/statemachine.rs:392-396 | two upper-case hex digits parse back to the byte they encode |
| ColorSpec.HashFormUpperRoundTrip | src/statemachine.rs:389-399 | `#RRGGBB` in capitals parses to exactly (RR, GG, BB) |
| ColorSpec.PlusSignAccepted | src/statemachine.rs:392-396 | `+d` parses as the digit d and a lone '+' fails |
| ColorSpec.ParseHex2 | src/statemachine.rs:392-396 | two lower-case hex digits parse back to the byte they encode |
| ColorSpec.HashFormRoundTrip | src/statemachine.rs:389-399 | `#RRGGBB` parses to exactly (RR, GG, BB) |
| ColorSpec.HashFormComponents | src/statemachine.rs:390-396 | for any `#` form with six or more characters after the `#`, each component is the parse of its two characters, or 0 when that parse fails |
| ColorSpec.ShortHashFormRejected | src/statemachine.rs:391-398 | a '#' string with fewer than six following characters yields no colour |
| ColorSpec.RgbFormPieces | src/statemachine.rs:400-403 | `rgb:a/b/c` with slash-free components splits into exactly a, b, c |
| ColorSpec.RgbFormComponents | src/statemachine.rs:400-415 | each component contributes the parse of its first two characters, or 0 when that parse fails |
| ColorSpec.RgbFormRoundTrip | src/statemachine.rs:400-415 | `rgb:RR/GG/BB` parses to exactly (RR, GG, BB) |
| ColorSpec.RgbFormWideTakesHighBytes | src/statemachine.rs:404-410 | `rgb:RRrr/GGgg/BBbb` takes the high byte of each 16-bit component |
| ColorSpec.RgbFormNeedsThreePieces | src/statemachine.rs:403-418 | an `rgb:` string that does not split into exactly three pieces yields no colour |
| Commands.ShapeOfInjective | src/statemachine.rs:57-68 | distinct vte cursor shapes map to distinct command shapes |
| StateMachine.Translate | src/statemachine.rs:31-497 | the command each callback sends, if any; every case is stated by a lemma: SilentCalls says exactly when nothing is sent, and LogOnlyCallbacksSendNothing, CursorStyleForwarded, InputPrinted, AttributeForwarded, RegionAndColorForwarded, LineCountsTruncate, InsertBlankTruncates, CharCountsTruncate, AbsolutePositionsTruncate, LineMotionWithReturnIgnoresCount, TabIgnoresCount, DeviceStatusReplies, IdentifyTerminalReplies, PrivateModeCommands, OnlyHandledPrivateModesSend, ClearCommands, the motion lemmas and DynamicColorIndices give the command sent; the argument-free forwarding callbacks (backspace, carriage return, line feed, newline, save and restore cursor, reverse index) are given by the body alone |
| StateMachine.DynamicColor | src/statemachine.rs:386-427 | index 10 with a parsed colour sets the default foreground and index 11 the default background; every other case sends nothing |
| StateMachine.Handle | src/statemachine.rs:23-29 | one callback adds at most one command to the channel log, and exactly its command when the channel is open and the callback produces one |
| StateMachine.LogOnlyCallbacksSendNothing | src/statemachine.rs:32-34 | the callbacks that only log (title, tabs, modes, charsets, keyboard modes, ...) produce no command |
| StateMachine.EmittedAtMostOnePerCall | src/statemachine.rs:31-497 | a stream of callbacks produces at most one command per callback |
| StateMachine.HandleAllDelivers | src/statemachine.rs:23-29 | on an open channel the log grows by exactly the produced commands, in callback order; on a closed channel nothing is delivered |
| StateMachine.DeviceStatusReplies | src/statemachine.rs:126-139 | DSR 5 asks for the operating status and DSR 6 for the cursor position; everything else is ignored (both directions) |
| StateMachine.IdentifyTerminalReplies | src/statemachine.rs:105-124 | no intermediate asks for primary attributes and '>' for secondary ones; anything else is ignored (both directions) |
| StateMachine.PrivateModeCommands | src/statemachine.rs:314-354 | set and reset of show-cursor, cursor-keys and bracketed-paste send matching on/off commands; the screen swap sends the same command both ways |
| StateMachine.OnlyHandledPrivateModesSend | src/statemachine.rs:314-354 | a private mode sends a command, when set and when reset, if and only if it is one of the four handled modes |
| StateMachine.SetAndUnsetDiffer | src/statemachine.rs:314-354 | for the toggling modes, setting and resetting send different commands |
| StateMachine.ClearCommands | src/statemachine.rs:246-278 | erase-in-line maps its three modes one to one; erase-in-display maps "all" and "saved" to a screen clear, "above" and "below" to their own commands |
| StateMachine.VerticalMotionSigns | src/statemachine.rs:80-103 | for counts that fit in an `i16`, up sends the negated count and down the count; `goto_line` sends (line, 0) |
| StateMachine.HorizontalMotionSigns | src/statemachine.rs:141-149 | for counts that fit in an `i16`, backward sends the negated count and forward the count |
| StateMachine.NegI16OfCongruent | src/statemachine.rs:95-98 | `-(x as i16)` is an `i16` congruent to -x modulo 2^16 |
| StateMachine.VerticalMotionTruncates | src/statemachine.rs:95-103 | for any count, down sends an `i16` congruent to the count and up one congruent to its negation, modulo 2^16 |
| StateMachine.HorizontalMotionTruncates | src/statemachine.rs:141-149 | for any count, forward sends an `i16` congruent to the count and backward one congruent to its negation, modulo 2^16 |
| StateMachine.LineCountsTruncate | src/statemachine.rs:198-216 | scroll up, scroll down, insert lines and delete lines send their count as an `i16` congruent to it modulo 2^16, and equal to it when it fits |
| StateMachine.InsertBlankTruncates | src/statemachine.rs:90-93 | insert_blank sends `InsertBlanks` with the count as an `i16` congruent to it modulo 2^16, and equal to it when it fits |
| StateMachine.CharCountsTruncate | src/statemachine.rs:218-226 | erase_chars sends `ClearCount` and delete_chars sends `DeleteChars`, each with the count as an `i16` congruent to it modulo 2^16, and equal to it when it fits |
| StateMachine.AbsolutePositionsTruncate | src/statemachine.rs:75-88 | goto casts both line and column to `i16`; goto_line sends the cast line with column 0; goto_col sends the cast column as an absolute horizontal move |
| StateMachine.LineMotionWithReturnIgnoresCount | src/statemachine.rs:151-159 | move_down_and_cr and move_up_and_cr send one line down (1) or up (-1) whatever their row count |
| StateMachine.CursorStyleForwarded | src/statemachine.rs:36-68 | a cursor style sends a cursor state with the mapped shape and the blinking flag exactly when it is present; a cursor shape always sends the mapped shape |
| StateMachine.InputPrinted | src/statemachine.rs:70-73 | an input character is sent as `Print` of that character |
| StateMachine.AttributeForwarded | src/statemachine.rs:297-300 | an SGR callback always sends an SGR command, which carries the vte attribute in place of the crate's `SgrAttribute::from_vte_attr` conversion |
| StateMachine.TabIgnoresCount | src/statemachine.rs:161-164 | put_tab sends one `PutTab` whatever its count |
| StateMachine.RegionAndColorForwarded | src/statemachine.rs:360-432 | the scrolling region, a palette colour and a palette reset reach the client with their arguments unchanged |
| StateMachine.AlwaysSendingCallbacksSend | src/statemachine.rs:57-432 | the callbacks that always send (motion, editing, scrolling, clears, SGR, region, palette) produce a command for every argument |
| StateMachine.SilentCalls | src/statemachine.rs:31-497 | a callback sends nothing if and only if it only logs, or it is a cursor style without a value, an unknown DA intermediate, a DSR other than 5 and 6, an unhandled private mode, or a dynamic colour that is not index 10 or 11 with a parsable colour |
| StateMachine.DynamicColorIndices | src/statemachine.rs:421-426 | a dynamic colour sends something exactly when the index is 10 or 11 and the colour parses |
| StateMachine.DynamicForegroundRoundTrip | src/statemachine.rs:386-426 | OSC 10 with `#RRGGBB` sets the default foreground to exactly that colour |
| Recording.NewRecorder | src/recording.rs:56-63 | a new recorder is empty and numbers its next event 0 |
| Recording.RecordCommand | src/recording.rs:65-73 | one event is appended, carrying the current sequence number, the elapsed time and the command; the sequence number advances; the recorder invariant is kept |
| Recording.RecordAllAppends | src/recording.rs:65-73 | recording a list appends its commands in order, with consecutive sequence numbers continuing from the current count |
| Recording.EventCount | src/recording.rs:89-91 | the number of recorded events, which on a well-formed recorder is also the next sequence number |
| Recording.NewPlayer | src/recording.rs:101-106 | a new player starts at position 0 |
| Recording.Position | src/recording.rs:166-168 | the index of the next event, never past the end on a valid player |
| Recording.TotalEvents | src/recording.rs:171-173 | the number of events in the recording |
| Recording.IsFinished | src/recording.rs:176-178 | finished means at or past the end; on a valid player exactly at the end |
| Recording.StepForward | src/recording.rs:120-129 | before the end, it returns the next event's command and advances by one; at the end it returns nothing and changes nothing |
| Recording.StepBackward | src/recording.rs:132-139 | it answers true exactly when the position is positive, and then moves back by one; otherwise nothing changes |
| Recording.CurrentEvent | src/recording.rs:142-148 | the next event is present exactly when playback is not finished |
| Recording.EventAt | src/recording.rs:151-153 | an event is present exactly for indices inside the recording |
| Recording.Reset | src/recording.rs:156-158 | the position returns to 0 |
| Recording.Seek | src/recording.rs:161-163 | the position becomes the index, clamped to the end of the recording |
| Recording.EventsUpToCurrent | src/recording.rs:181-183 | the applied events are exactly the prefix up to the position |
| Recording.StepForwardThenBack | src/recording.rs:120-139 | a step forward and a step back restore the player |
| Recording.StepBackThenForward | src/recording.rs:120-139 | a step back and a step forward restore the player and replay the event stepped over |
| Recording.StepForwardNReplays | src/recording.rs:120-129 | n steps forward return the commands of the next n events, in order |
| Recording.ReplayFromStart | src/recording.rs:156-183 | after a reset, n steps return exactly the commands of the events up to the new position |
| Words.WordLen | src/sdl2frontend.rs:86-88 | the leading run of non-whitespace characters is whitespace-free and is followed by whitespace or the end |
| Words.SplitWhitespace | src/sdl2frontend.rs:86-88 | at most one word per character; the lemmas below show the words are exactly the maximal whitespace-free runs |
| Words.RemoveWhitespace | src/sdl2frontend.rs:86-88 | the non-whitespace characters of a string contain no whitespace |
| Words.RemoveWhitespaceAppend | src/sdl2frontend.rs:86-88 | removing whitespace distributes over concatenation |
| Words.RemoveWhitespaceOfWord | src/sdl2frontend.rs:86-88 | removing whitespace leaves a whitespace-free string unchanged |
| Words.WordsAreWords | src/sdl2frontend.rs:86-88 | every word of `split_whitespace` is non-empty and whitespace-free |
| Words.ConcatWords | src/sdl2frontend.rs:86-88 | the words of a string, concatenated, are its non-whitespace characters in order |
| Words.NoWordsIffBlank | src/sdl2frontend.rs:86-88 | a string has no words exactly when it is all whitespace |
| Words.WordLenStopsAtWhitespace | src/sdl2frontend.rs:86-88 | a word ends at the first whitespace character, whatever follows it |
| Words.SplitAtWhitespace | src/sdl2frontend.rs:86-88 | splitting around a whitespace character gives the words of each side, concatenated: words never span whitespace |
| Words.SplitSingleWord | src/sdl2frontend.rs:86-88 | a non-empty whitespace-free string is a single word, never several |
| LineEditor.EditBuffer | src/sdl2frontend.rs:71-80 | Backspace drops the last character when there is one; Space appends a space; any other key text appends its first character |
| LineEditor.BackspaceUndoesKey | src/sdl2frontend.rs:71-113 | Backspace straight after another non-Return key restores the buffer |
| LineEditor.ParseCommand | src/sdl2frontend.rs:81-101 | the command is the first word and the arguments the remaining words; all are non-empty and whitespace-free; together they are the buffer's non-whitespace characters; the response starts empty |
| LineEditor.ParseCommandAndArgument | src/sdl2frontend.rs:84-101 | `cmd arg` gives command `cmd` and the single argument `arg` |
| LineEditor.FirstIndexOf | src/sdl2frontend.rs:156-160 | the first history entry carrying the id |
| LineEditor.FreshIdFindsLast | src/sdl2frontend.rs:156-160 | a command appended under a fresh id is the entry a response with that id finds |
| Sdl2Frontend.Type | src/sdl2frontend.rs:70-113 | editing keys change only the buffer; Return empties the buffer; a `clear` command forgets the history and sends nothing; any other command is sent and appended to the history |
| Sdl2Frontend.ReturnSendsTypedLine | src/sdl2frontend.rs:81-110 | on an open channel, Return delivers exactly one command, the same one appended to the history, with the fresh id, an empty response and the typed words |
| Sdl2Frontend.ClearForgetsEverything | src/sdl2frontend.rs:90-94 | `clear` leaves an empty buffer, an empty history and an untouched channel |
| Sdl2Frontend.MergeResponse | src/sdl2frontend.rs:153-164 | the response lines are appended to the first entry with the response's id; no other entry changes |
| Sdl2Frontend.MergeAccumulates | src/sdl2frontend.rs:153-164 | two responses to the same command accumulate in arrival order |
| Sdl2Frontend.ResponseReachesLatest | src/sdl2frontend.rs:95-164 | a response to the command just sent lands on that command when its id is fresh |
| Sdl2Frontend.GetTextRectFromOffset | src/sdl2frontend.rs:269-280 | as written: with text taller than the window, the rectangle starts at `offset` and is `window_height + offset` high; otherwise it covers the text |
| Sdl2Frontend.SourceRectOverrunsTexture | src/sdl2frontend.rs:195-202 | as written, with the offset `poll_event` computes, the rectangle reaches `offset` rows past the bottom of the texture |
| Sdl2Frontend.SourceRectOverrunExample | src/sdl2frontend.rs:269-280 | 200 rows of text in a 100-row window select rows 100..300 |
| Sdl2Frontend.GetTextRectFromOffsetCorrected | src/sdl2frontend.rs:269-280 | corrected: the rectangle starts at `offset` and is one window high |
| Sdl2Frontend.VisibleSource | src/sdl2frontend.rs:195-209 | with the corrected rectangle, the source ends exactly at the bottom of the texture, at most one window high |
| Frontend.Type | src/frontend.rs:77-115 | editing keys change only the buffer; Return sends the command, appends it to the history and empties the buffer |
| Frontend.ReturnAlwaysRecords | src/frontend.rs:89-110 | every Return adds one history entry whose command is the first word, `clear` included |
| Frontend.ReplaceResponse | src/frontend.rs:155-163 | the response lines replace those of the first entry with the response's id; no other entry changes |
| Frontend.ReplaceLastWins | src/frontend.rs:155-163 | of two responses to the same command, only the later one is kept |

## Left out

- The vte byte parser itself, which is an external crate. The model starts from the `Handler` callbacks it makes. `SgrAttribute::from_vte_attr` is the crate's own conversion, but its definition is not among the modelled files: an SGR command carries the vte attribute in place of the converted one, and cells keep only whether their attribute is the default one.
- Threads and channels. A channel is the log of delivered values plus an open flag. The non-blocking `try_recv` becomes "a response is given".
- Rendering, fonts, textures, window creation, the event pump loop in `poll_event`, key-modifier handling and clipboard access. These are I/O; only the state changes they trigger are modelled.
- `Grid::pretty_print`, `Cell::to_string` and `Color::to_color32`: output and display only.
- `Recorder::finish`, `Recording::save_to_file`/`load_from_file`, `Player::load_from_file` and `initial_state`: file I/O, serde and snapshots (`snapshot.rs` is not part of this model).
- The recorder's clock and the front-ends' `Uuid::new_v4`. They are parameters (`elapsedMs`, `freshId`).
- Recording.RecordCommand: the `u64` sequence counter is unbounded here. Overflow after 2^64 events is not modelled.
- Grid.SetPos: `row + 1` on a `usize` is unbounded here.
- Ints.NegI16: `-(u as i16)` panics on -32768 in a debug build. The model uses the release build's wrapping result.
- ColorSpec.ParseColor: requires the up to six characters after '#' to be ASCII, because the Rust code slices bytes there and can panic on a multi-byte character. `hex.len()` counts bytes, not characters, so the precondition also excludes non-ASCII strings the Rust code handles without panicking: "#é" (fewer than six bytes) yields no colour, and "#ééé" (six bytes, slices on character boundaries) yields (0, 0, 0). The state machine inherits this precondition: StateMachine.DynamicColor requires it, and through `Callable` so do StateMachine.Translate and StateMachine.Handle for a dynamic colour callback.
- StateMachine.DynamicColor, StateMachine.Translate, StateMachine.Handle: require the ASCII condition of ColorSpec.ParseColor on a dynamic colour string, for the same reason.
- Sdl2Frontend.GetTextRectFromOffset: `Rect::new` in sdl2 clamps its width and height to a maximum, and that clamp is not part of this model. The model assumes the sizes fit, and it requires `window_height + offset` to fit in a `u32`.
- Sdl2Frontend.VisibleSource: covers only offsets below 2^31, where `offset as i32` stays non-negative.
- The rendered history text (commands and responses joined with newlines), which only feeds the renderer.
- `show_cursor` is an empty method in the Rust code and has no counterpart.

## Findings

| source | as written | input that shows it | evidently intended | confidence | as-written member | corrected member |
|---|---|---|---|---|---|---|
| src/sdl2frontend.rs:276 | `rect!(0, offset, window_width, window_height + offset)` passes a bottom coordinate as the rectangle's height | text 200 high, window 100 high, so offset 100: the source rectangle is rows 100..300 of a 200-row texture | `rect!(0, offset, window_width, window_height)`: the bottom window-high band of the text | not executed | Sdl2Frontend.SourceRectOverrunsTexture | Sdl2Frontend.VisibleSource |
