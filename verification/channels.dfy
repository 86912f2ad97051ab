/**
 * The sending half of a channel, seen as an append-only log of what was
 * delivered. A send on a channel whose receivers are gone fails; the Rust
 * code logs that failure and carries on, so the command is simply dropped.
 */
module Channels {

  datatype Channel<T> = Channel(delivered: seq<T>, open: bool)

  function Send<T>(ch: Channel<T>, x: T): (r: Channel<T>)
    ensures r.open == ch.open
    ensures |ch.delivered| <= |r.delivered| <= |ch.delivered| + 1
    ensures r.delivered[..|ch.delivered|] == ch.delivered
    ensures |r.delivered| == |ch.delivered| + 1 <==> ch.open
    ensures ch.open ==> r.delivered[|ch.delivered|] == x
  {
    if ch.open then ch.(delivered := ch.delivered + [x]) else ch
  }
}
