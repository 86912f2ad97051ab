/**
 * The recording and replay controllers of `src/recording.rs`: a `Recorder`
 * appends numbered events, and a `Player` is a cursor over a recorded event
 * list. Timestamps come from a clock and are a parameter here; the saved
 * snapshots and the file format are not part of this model.
 */
module Recording {
  import opened Wrappers
  import C = Commands

  datatype RecordedEvent = RecordedEvent(sequence: nat, timestampMs: nat, command: C.ClientCommand)

  datatype Recorder = Recorder(events: seq<RecordedEvent>, sequence: nat)

  /** Event `k` carries sequence number `k`. */
  predicate NumberedFromZero(events: seq<RecordedEvent>) {
    forall k :: 0 <= k < |events| ==> events[k].sequence == k
  }

  /** The next sequence number is the number of events recorded so far, and the events are numbered consecutively from zero. */
  predicate ValidRecorder(r: Recorder) {
    r.sequence == |r.events| && NumberedFromZero(r.events)
  }

  /** `Recorder::new`, without the initial snapshot. */
  function NewRecorder(): (r: Recorder)
    ensures ValidRecorder(r) && EventCount(r) == 0
  {
    Recorder([], 0)
  }

  /** `Recorder::event_count`. */
  function EventCount(r: Recorder): (n: nat)
    ensures n == |r.events|
    ensures ValidRecorder(r) ==> n == r.sequence
  {
    |r.events|
  }

  /** `Recorder::record_command`: appends one event stamped with the current sequence number and the elapsed milliseconds, then advances the sequence number. */
  function RecordCommand(r: Recorder, cmd: C.ClientCommand, elapsedMs: nat): (r': Recorder)
    ensures EventCount(r') == EventCount(r) + 1
    ensures r'.events[..|r.events|] == r.events
    ensures r'.events[|r.events|] == RecordedEvent(r.sequence, elapsedMs, cmd)
    ensures r'.sequence == r.sequence + 1
    ensures ValidRecorder(r) ==> ValidRecorder(r') && r'.events[|r.events|].sequence == EventCount(r)
  {
    var r' := Recorder(r.events + [RecordedEvent(r.sequence, elapsedMs, cmd)], r.sequence + 1);
    assert r'.events[..|r.events|] == r.events;
    r'
  }

  /** Records each command in turn, reading the elapsed time for each from `clock`. */
  function RecordAll(r: Recorder, cmds: seq<C.ClientCommand>, clock: seq<nat>): (r': Recorder)
    requires |clock| == |cmds|
    decreases |cmds|
  {
    if |cmds| == 0 then r else RecordAll(RecordCommand(r, cmds[0], clock[0]), cmds[1..], clock[1..])
  }

  /** Recording a list of commands appends them in order with consecutive sequence numbers continuing from the current count. */
  lemma {:induction false} RecordAllAppends(r: Recorder, cmds: seq<C.ClientCommand>, clock: seq<nat>)
    requires |clock| == |cmds| && ValidRecorder(r)
    ensures var r' := RecordAll(r, cmds, clock);
            && ValidRecorder(r')
            && EventCount(r') == EventCount(r) + |cmds|
            && r'.events[..|r.events|] == r.events
            && forall k :: 0 <= k < |cmds| ==> r'.events[|r.events| + k].command == cmds[k]
    decreases |cmds|
  {
    if |cmds| > 0 {
      var r1 := RecordCommand(r, cmds[0], clock[0]);
      RecordAllAppends(r1, cmds[1..], clock[1..]);
      var r' := RecordAll(r1, cmds[1..], clock[1..]);
      assert r'.events[..|r.events|] == r'.events[..|r1.events|][..|r.events|];
      forall k | 0 <= k < |cmds|
        ensures r'.events[|r.events| + k].command == cmds[k]
      {
        if k == 0 {
          assert r'.events[|r.events|] == r'.events[..|r1.events|][|r.events|];
        } else {
          assert cmds[1..][k - 1] == cmds[k];
          assert r'.events[|r1.events| + (k - 1)].command == cmds[1..][k - 1];
        }
      }
    }
  }

  /** Playback controller: the recorded events and the index of the next one to apply. */
  datatype Player = Player(events: seq<RecordedEvent>, currentIndex: nat)

  /** The position never passes the end of the recording. */
  predicate ValidPlayer(p: Player) {
    p.currentIndex <= |p.events|
  }

  /** `Player::new`. */
  function NewPlayer(events: seq<RecordedEvent>): (p: Player)
    ensures ValidPlayer(p) && Position(p) == 0 && TotalEvents(p) == |events|
  {
    Player(events, 0)
  }

  /** `Player::position`. */
  function Position(p: Player): (n: nat)
    ensures n == p.currentIndex
    ensures ValidPlayer(p) ==> n <= |p.events|
  {
    p.currentIndex
  }

  /** `Player::total_events`. */
  function TotalEvents(p: Player): (n: nat)
    ensures n == |p.events|
  {
    |p.events|
  }

  /** `Player::is_finished`: on a valid player, finished means positioned exactly at the end. */
  function IsFinished(p: Player): (f: bool)
    ensures f <==> p.currentIndex >= |p.events|
    ensures ValidPlayer(p) ==> (f <==> Position(p) == TotalEvents(p))
  {
    p.currentIndex >= |p.events|
  }

  /** `Player::step_forward`: the command of the next event, advancing past it; nothing at the end. */
  function StepForward(p: Player): (res: (Player, Option<C.ClientCommand>))
    ensures res.0.events == p.events
    ensures !IsFinished(p) ==> res.1 == Some(p.events[p.currentIndex].command) && Position(res.0) == Position(p) + 1
    ensures IsFinished(p) ==> res.1 == None && res.0 == p
    ensures ValidPlayer(p) ==> ValidPlayer(res.0)
  {
    if p.currentIndex < |p.events| then
      (p.(currentIndex := p.currentIndex + 1), Some(p.events[p.currentIndex].command))
    else
      (p, None)
  }

  /** `Player::step_backward`: moves back one event and answers true, or answers false at the start and changes nothing. */
  function StepBackward(p: Player): (res: (Player, bool))
    ensures res.1 <==> Position(p) > 0
    ensures res.1 ==> res.0 == p.(currentIndex := p.currentIndex - 1)
    ensures !res.1 ==> res.0 == p
    ensures ValidPlayer(p) ==> ValidPlayer(res.0)
  {
    if p.currentIndex > 0 then (p.(currentIndex := p.currentIndex - 1), true) else (p, false)
  }

  /** `Player::current_event`: the next event, present exactly when playback is not finished. */
  function CurrentEvent(p: Player): (e: Option<RecordedEvent>)
    ensures e.Some? <==> !IsFinished(p)
    ensures e.Some? ==> e.value == p.events[p.currentIndex]
  {
    if p.currentIndex < |p.events| then Some(p.events[p.currentIndex]) else None
  }

  /** `Player::event_at`: `Vec::get`, present exactly for indices inside the recording. */
  function EventAt(p: Player, index: nat): (e: Option<RecordedEvent>)
    ensures e.Some? <==> index < TotalEvents(p)
    ensures e.Some? ==> e.value == p.events[index]
  {
    if index < |p.events| then Some(p.events[index]) else None
  }

  /** `Player::reset`. */
  function Reset(p: Player): (r: Player)
    ensures ValidPlayer(r) && Position(r) == 0 && r.events == p.events
  {
    p.(currentIndex := 0)
  }

  /** `Player::seek`: jumps to `index`, clamped to the end of the recording. */
  function Seek(p: Player, index: nat): (r: Player)
    ensures ValidPlayer(r) && r.events == p.events
    ensures index <= TotalEvents(p) ==> Position(r) == index
    ensures index > TotalEvents(p) ==> Position(r) == TotalEvents(p) && IsFinished(r)
  {
    p.(currentIndex := if index < |p.events| then index else |p.events|)
  }

  /** `Player::events_up_to_current`: the events already applied. */
  function EventsUpToCurrent(p: Player): (es: seq<RecordedEvent>)
    requires ValidPlayer(p)
    ensures |es| == Position(p)
    ensures es == p.events[..|es|]
  {
    p.events[..p.currentIndex]
  }

  /** From an unfinished position, a step forward followed by a step back restores the player. */
  lemma StepForwardThenBack(p: Player)
    requires !IsFinished(p)
    ensures StepBackward(StepForward(p).0).0 == p
    ensures StepBackward(StepForward(p).0).1
  {
  }

  /** A step back from a non-initial position followed by a step forward replays the event stepped over and restores the player. */
  lemma StepBackThenForward(p: Player)
    requires ValidPlayer(p) && Position(p) > 0
    ensures StepForward(StepBackward(p).0).0 == p
    ensures StepForward(StepBackward(p).0).1 == Some(p.events[p.currentIndex - 1].command)
  {
  }

  /** The commands of a list of events. */
  function CommandsOf(es: seq<RecordedEvent>): (cmds: seq<C.ClientCommand>)
    ensures |cmds| == |es|
    ensures forall k :: 0 <= k < |es| ==> cmds[k] == es[k].command
  {
    seq(|es|, k requires 0 <= k < |es| => es[k].command)
  }

  /** Steps forward `n` times, collecting the commands produced. */
  function StepForwardN(p: Player, n: nat): (res: (Player, seq<C.ClientCommand>))
    decreases n
  {
    if n == 0 then (p, [])
    else
      var (p1, c) := StepForward(p);
      var (p2, rest) := StepForwardN(p1, n - 1);
      (p2, (if c.Some? then [c.value] else []) + rest)
  }

  /** Stepping forward `n` events from the start applies exactly the events that `events_up_to_current` then reports, in order. */
  lemma {:induction false} StepForwardNReplays(p: Player, n: nat)
    requires ValidPlayer(p) && Position(p) + n <= TotalEvents(p)
    ensures var (p', cmds) := StepForwardN(p, n);
            && ValidPlayer(p') && Position(p') == Position(p) + n && p'.events == p.events
            && cmds == CommandsOf(p.events[Position(p)..Position(p) + n])
    decreases n
  {
    if n > 0 {
      var (p1, c) := StepForward(p);
      StepForwardNReplays(p1, n - 1);
      var (p2, rest) := StepForwardN(p1, n - 1);
      var i := Position(p);
      assert p.events[i..i + n] == [p.events[i]] + p.events[i + 1..i + n];
      assert CommandsOf(p.events[i..i + n]) == [p.events[i].command] + CommandsOf(p.events[i + 1..i + n]);
    } else {
      assert CommandsOf(p.events[Position(p)..Position(p)]) == [];
    }
  }

  /** Replaying from a reset to any point yields the commands of the events up to that point. */
  lemma ReplayFromStart(p: Player, n: nat)
    requires n <= TotalEvents(p)
    ensures var (p', cmds) := StepForwardN(Reset(p), n);
            ValidPlayer(p') && Position(p') == n && cmds == CommandsOf(EventsUpToCurrent(p'))
  {
    StepForwardNReplays(Reset(p), n);
  }
}
