/**
 * The line editor of `src/sdl2frontend.rs`: key handling with the `clear`
 * command, responses appended to the matching history entry, and the
 * source rectangle used when the rendered text is taller than the window.
 */
module Sdl2Frontend {
  import opened Ints
  import opened Words
  import opened Channels
  import opened LineEditor

  /** `Sdl2TerminalFrontend::r#type`; `freshId` is the token `Uuid::new_v4` would draw. */
  function Type(e: Editor, text: string, freshId: nat): (r: Editor)
    requires CanType(e, text)
    ensures text != "Return" ==> r == e.(buffer := EditBuffer(e.buffer, text))
    ensures text == "Return" ==> r.buffer == []
    ensures text == "Return" && ParseCommand(e.buffer, freshId).command == "clear" ==>
      r.history == [] && r.out == e.out
    ensures text == "Return" && ParseCommand(e.buffer, freshId).command != "clear" ==>
      var c := ParseCommand(e.buffer, freshId);
      && r.history == e.history + [c]
      && r.out == Send(e.out, c)
  {
    if text == "Backspace" || text == "Space" then
      e.(buffer := EditBuffer(e.buffer, text))
    else if text == "Return" then
      var c := ParseCommand(e.buffer, freshId);
      if c.command == "clear" then
        e.(history := [], buffer := [])
      else
        e.(buffer := [], out := Send(e.out, c), history := e.history + [c])
    else
      e.(buffer := EditBuffer(e.buffer, text))
  }

  /** A sent command is delivered on an open channel and recorded in history, whatever the buffer's spacing; its words are the buffer's non-whitespace characters. */
  lemma ReturnSendsTypedLine(e: Editor, freshId: nat)
    requires HasWord(e.buffer) && e.out.open
    requires ParseCommand(e.buffer, freshId).command != "clear"
    ensures var r := Type(e, "Return", freshId);
            && |r.out.delivered| == |e.out.delivered| + 1
            && var c := r.out.delivered[|e.out.delivered|];
               && c == r.history[|r.history| - 1]
               && c.id == freshId && c.response == []
               && Concat([c.command] + c.args) == RemoveWhitespace(e.buffer)
  {
  }

  /** `clear` as the first word forgets the history and the buffer and sends nothing. */
  lemma ClearForgetsEverything(e: Editor, freshId: nat)
    requires HasWord(e.buffer) && ParseCommand(e.buffer, freshId).command == "clear"
    ensures Type(e, "Return", freshId) == Editor([], [], e.out)
  {
  }

  /** The response step of `poll_event`: the response lines are appended to those of the first history entry with the same id. */
  function MergeResponse(history: seq<Command>, response: Command): (h: seq<Command>)
    requires HasId(history, response.id)
    ensures |h| == |history|
    ensures var i := FirstIndexOf(history, response.id);
            && h[i] == history[i].(response := history[i].response + response.response)
            && forall k :: 0 <= k < |history| && k != i ==> h[k] == history[k]
  {
    var i := FirstIndexOf(history, response.id);
    history[i := history[i].(response := history[i].response + response.response)]
  }

  /** Two responses to the same command accumulate in arrival order. */
  lemma MergeAccumulates(history: seq<Command>, r1: Command, r2: Command)
    requires HasId(history, r1.id) && r2.id == r1.id
    ensures HasId(MergeResponse(history, r1), r2.id)
    ensures var i := FirstIndexOf(history, r1.id);
            MergeResponse(MergeResponse(history, r1), r2)[i].response == history[i].response + r1.response + r2.response
  {
    var i := FirstIndexOf(history, r1.id);
    var h1 := MergeResponse(history, r1);
    assert h1[i].id == r1.id;
    assert FirstIndexOf(h1, r2.id) == i by {
      var j := FirstIndexOf(h1, r2.id);
    }
  }

  /** The response to the command just sent lands on that command, when its id is fresh. */
  lemma ResponseReachesLatest(e: Editor, freshId: nat, response: Command)
    requires HasWord(e.buffer) && ParseCommand(e.buffer, freshId).command != "clear"
    requires !HasId(e.history, freshId) && response.id == freshId
    ensures var r := Type(e, "Return", freshId);
            && HasId(r.history, freshId)
            && MergeResponse(r.history, response)[|e.history|].response == response.response
  {
    var c := ParseCommand(e.buffer, freshId);
    FreshIdFindsLast(e.history, c);
  }

  /** An SDL rectangle as built by the `rect!` macro: `x` and `y` cast to `i32`, `w` and `h` to `u32`. */
  datatype Rect = Rect(x: int, y: int, w: nat, h: nat)

  /** `get_text_rect_from_offset`, as written: when the text is taller than the window the height passed is `window_height + offset`. */
  function GetTextRectFromOffset(textHeight: nat, windowWidth: nat, windowHeight: nat, offset: nat): (r: Rect)
    requires IsU32(textHeight) && IsU32(windowWidth) && IsU32(windowHeight) && IsU32(offset)
    requires textHeight > windowHeight ==> IsU32(windowHeight + offset)
    ensures r.x == 0 && r.w == windowWidth
    ensures textHeight > windowHeight ==> r.y == ToI32(offset) && r.h == windowHeight + offset
    ensures textHeight <= windowHeight ==> r.y == 0 && r.h == textHeight
  {
    if textHeight > windowHeight then
      Rect(0, ToI32(offset), windowWidth, windowHeight + offset)
    else
      Rect(0, 0, windowWidth, textHeight)
  }

  /** With the offset `poll_event` computes, the rectangle as written reaches `offset` rows past the bottom of the texture. */
  lemma SourceRectOverrunsTexture(textHeight: nat, windowWidth: nat, windowHeight: nat)
    requires IsU32(textHeight) && IsU32(windowWidth) && textHeight > windowHeight
    requires textHeight - windowHeight < 0x8000_0000
    ensures var offset := textHeight - windowHeight;
            var r := GetTextRectFromOffset(textHeight, windowWidth, windowHeight, offset);
            r.y + r.h == textHeight + offset && r.y + r.h > textHeight
  {
  }

  /** A concrete case: 200 rows of text in a 100-row window select rows 100 to 300 of a 200-row texture. */
  lemma SourceRectOverrunExample()
    ensures GetTextRectFromOffset(200, 640, 100, 100) == Rect(0, 100, 640, 200)
  {
  }

  /** `get_text_rect_from_offset` as evidently intended: `offset` rows down, one window high. */
  function GetTextRectFromOffsetCorrected(textHeight: nat, windowWidth: nat, windowHeight: nat, offset: nat): (r: Rect)
    requires IsU32(textHeight) && IsU32(windowWidth) && IsU32(windowHeight) && IsU32(offset)
    ensures r.x == 0 && r.w == windowWidth
    ensures textHeight > windowHeight ==> r.y == ToI32(offset) && r.h == windowHeight
    ensures textHeight <= windowHeight ==> r.y == 0 && r.h == textHeight
  {
    if textHeight > windowHeight then
      Rect(0, ToI32(offset), windowWidth, windowHeight)
    else
      Rect(0, 0, windowWidth, textHeight)
  }

  /** The scroll branch of `poll_event` with the corrected rectangle: when the text is taller than the window, the source is the bottom window-high band of the texture, which fits inside it exactly. */
  function VisibleSource(textHeight: nat, windowWidth: nat, windowHeight: nat): (r: Rect)
    requires IsU32(textHeight) && IsU32(windowWidth) && IsU32(windowHeight)
    ensures r.x == 0 && r.w == windowWidth
    ensures textHeight <= windowHeight || textHeight - windowHeight < 0x8000_0000 ==>
      r.y >= 0 && r.y + r.h == textHeight
    ensures r.h == if textHeight > windowHeight then windowHeight else textHeight
  {
    var offset := if textHeight > windowHeight then textHeight - windowHeight else 0;
    GetTextRectFromOffsetCorrected(textHeight, windowWidth, windowHeight, offset)
  }
}
