/**
 * The line editor of `src/frontend.rs`: the same key handling without the
 * `clear` command, and a received response replacing the matching
 * entry's response instead of extending it.
 */
module Frontend {
  import opened Words
  import opened Channels
  import opened LineEditor

  /** `Sdl2TerminalFrontend::r#type`; `freshId` is the token `Uuid::new_v4` would draw. */
  function Type(e: Editor, text: string, freshId: nat): (r: Editor)
    requires CanType(e, text)
    ensures text != "Return" ==> r == e.(buffer := EditBuffer(e.buffer, text))
    ensures text == "Return" ==>
      var c := ParseCommand(e.buffer, freshId);
      && r.buffer == []
      && r.history == e.history + [c]
      && r.out == Send(e.out, c)
  {
    if text == "Backspace" || text == "Space" then
      e.(buffer := EditBuffer(e.buffer, text))
    else if text == "Return" then
      var c := ParseCommand(e.buffer, freshId);
      e.(buffer := [], out := Send(e.out, c), history := e.history + [c])
    else
      e.(buffer := EditBuffer(e.buffer, text))
  }

  /** Every Return extends the history by one entry, `clear` included. */
  lemma ReturnAlwaysRecords(e: Editor, freshId: nat)
    requires HasWord(e.buffer)
    ensures |Type(e, "Return", freshId).history| == |e.history| + 1
    ensures Type(e, "Return", freshId).history[|e.history|].command == ParseCommand(e.buffer, freshId).command
  {
  }

  /** The response step of `poll_event`: the response lines replace those of the first history entry with the same id. */
  function ReplaceResponse(history: seq<Command>, response: Command): (h: seq<Command>)
    requires HasId(history, response.id)
    ensures |h| == |history|
    ensures var i := FirstIndexOf(history, response.id);
            && h[i] == history[i].(response := response.response)
            && forall k :: 0 <= k < |history| && k != i ==> h[k] == history[k]
  {
    var i := FirstIndexOf(history, response.id);
    history[i := history[i].(response := response.response)]
  }

  /** Of two responses to the same command only the later one is kept. */
  lemma ReplaceLastWins(history: seq<Command>, r1: Command, r2: Command)
    requires HasId(history, r1.id) && r2.id == r1.id
    ensures HasId(ReplaceResponse(history, r1), r2.id)
    ensures ReplaceResponse(ReplaceResponse(history, r1), r2) == ReplaceResponse(history, r2)
  {
    var i := FirstIndexOf(history, r1.id);
    var h1 := ReplaceResponse(history, r1);
    assert h1[i].id == r1.id;
    assert FirstIndexOf(h1, r2.id) == i by {
      var j := FirstIndexOf(h1, r2.id);
    }
  }
}
