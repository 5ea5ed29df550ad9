/**
 * The `std::sync::mpsc` channel of `String` between the output pump (the
 * sender, held by the handler) and the render consumer (the receiver), as an
 * unbounded FIFO queue of the messages sent and not yet received.
 */
module Mpsc {
  import opened Wrappers

  class Channel {
    var queue: seq<string>

    constructor ()
      ensures queue == []
    {
      queue := [];
    }

    /** `tx.send(msg)`: the message joins the back of the queue. */
    method Send(msg: string)
      modifies this
      ensures queue == old(queue) + [msg]
    {
      queue := queue + [msg];
    }

    /**
     * `rx.recv()` once the sender is gone: the oldest pending message, or
     * `None` (the channel is disconnected) when nothing is pending.
     */
    method Recv() returns (msg: Option<string>)
      modifies this
      ensures old(queue) == [] ==> msg == None && queue == []
      ensures old(queue) != [] ==> msg == Some(old(queue)[0]) && queue == old(queue)[1..]
    {
      if queue == [] {
        msg := None;
      } else {
        msg := Some(queue[0]);
        queue := queue[1..];
      }
    }
  }
}
