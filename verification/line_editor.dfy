/**
 * What the two SDL front-ends (`src/sdl2frontend.rs` and `src/frontend.rs`)
 * share: the command record, the editor state, the key handling that only
 * edits the input buffer, and the split of a typed line into a command and
 * its arguments.
 */
module LineEditor {
  import opened Words
  import opened Channels

  /** A command line and the response lines received for it; `id` stands for the fresh UUID the source draws. */
  datatype Command = Command(id: nat, command: string, args: seq<string>, response: seq<string>)

  /** The input buffer, the history shown on screen, and the channel to the back-end. */
  datatype Editor = Editor(buffer: string, history: seq<Command>, out: Channel<Command>)

  /** The buffer holds at least one word, so `split_whitespace().next().unwrap()` does not panic. */
  predicate HasWord(buffer: string) {
    !AllWhitespace(buffer)
  }

  predicate IsKeyName(text: string) {
    text == "Backspace" || text == "Space" || text == "Return"
  }

  /** What `r#type` needs to avoid a panic: non-empty key text, and a word in the buffer on Return. */
  predicate CanType(e: Editor, text: string) {
    |text| > 0 && (text == "Return" ==> HasWord(e.buffer))
  }

  /** The buffer edit of every key except Return: Backspace drops the last character if there is one, Space appends a space, anything else appends its first character. */
  function EditBuffer(buffer: string, text: string): (r: string)
    requires |text| > 0 && text != "Return"
    ensures text == "Backspace" && |buffer| > 0 ==> r == buffer[..|buffer| - 1]
    ensures text == "Backspace" && |buffer| == 0 ==> r == []
    ensures text == "Space" ==> r == buffer + [' ']
    ensures !IsKeyName(text) ==> r == buffer + [text[0]]
    ensures |r| == if text == "Backspace" then (if |buffer| > 0 then |buffer| - 1 else 0) else |buffer| + 1
  {
    if text == "Backspace" then
      if |buffer| > 0 then buffer[..|buffer| - 1] else buffer
    else if text == "Space" then buffer + [' ']
    else buffer + [text[0]]
  }

  /** A Backspace right after any other non-Return key restores the buffer. */
  lemma BackspaceUndoesKey(buffer: string, text: string)
    requires |text| > 0 && text != "Return" && text != "Backspace"
    ensures EditBuffer(EditBuffer(buffer, text), "Backspace") == buffer
  {
  }

  /** The command a Return builds: the first word is the command, the remaining words the arguments, and the response starts empty. */
  function ParseCommand(buffer: string, id: nat): (c: Command)
    requires HasWord(buffer)
    ensures c.id == id && c.response == []
    ensures [c.command] + c.args == SplitWhitespace(buffer)
    ensures |c.command| > 0 && NoWhitespace(c.command)
    ensures forall k :: 0 <= k < |c.args| ==> |c.args[k]| > 0 && NoWhitespace(c.args[k])
    ensures Concat([c.command] + c.args) == RemoveWhitespace(buffer)
  {
    var words := SplitWhitespace(buffer);
    NoWordsIffBlank(buffer);
    WordsAreWords(buffer);
    ConcatWords(buffer);
    var c := Command(id, words[0], words[1..], []);
    assert [c.command] + c.args == words;
    c
  }

  /** A command and one argument separated by a space split at that space and nowhere else. */
  lemma ParseCommandAndArgument(cmd: string, arg: string, id: nat)
    requires |cmd| > 0 && NoWhitespace(cmd) && |arg| > 0 && NoWhitespace(arg)
    ensures HasWord(cmd + [' '] + arg)
    ensures ParseCommand(cmd + [' '] + arg, id).command == cmd
    ensures ParseCommand(cmd + [' '] + arg, id).args == [arg]
  {
    SplitAtWhitespace(cmd, ' ', arg);
    SplitSingleWord(cmd);
    SplitSingleWord(arg);
    NoWordsIffBlank(cmd + [' '] + arg);
  }

  predicate HasId(history: seq<Command>, id: nat) {
    exists k :: 0 <= k < |history| && history[k].id == id
  }

  /** `iter().position(|x| x.id == id).unwrap()`: the first history entry with that id. */
  function FirstIndexOf(history: seq<Command>, id: nat): (i: nat)
    requires HasId(history, id)
    ensures i < |history| && history[i].id == id
    ensures forall k :: 0 <= k < i ==> history[k].id != id
    decreases |history|
  {
    if history[0].id == id then 0
    else
      assert HasId(history[1..], id) by {
        var k :| 0 <= k < |history| && history[k].id == id;
        assert history[1..][k - 1].id == id;
      }
      1 + FirstIndexOf(history[1..], id)
  }

  /** A command appended under an id no earlier entry has is the one a response with that id finds. */
  lemma FreshIdFindsLast(history: seq<Command>, c: Command)
    requires !HasId(history, c.id)
    ensures HasId(history + [c], c.id)
    ensures FirstIndexOf(history + [c], c.id) == |history|
  {
    assert (history + [c])[|history|].id == c.id;
  }
}
