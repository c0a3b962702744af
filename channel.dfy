/** The event channel linking the router callbacks to the render callback: an
    unbounded first-in first-out queue (the standard library's mpsc channel,
    with its cross-thread behaviour left out). */
module Channel {
  import opened Options

  class Channel<T> {
    /** The events sent and not yet received, oldest first. */
    var pending: seq<T>

    constructor ()
      ensures pending == []
    {
      pending := [];
    }

    /** Sending never blocks and never fails on an unbounded channel whose
        receiver is alive: the event joins the back of the queue. */
    method Send(ev: T)
      modifies this
      ensures pending == old(pending) + [ev]
    {
      pending := pending + [ev];
    }

    /** Non-blocking receive: the oldest pending event, or `None` when the
        queue is empty (the queue is then left as it is). */
    method TryRecv() returns (r: Option<T>)
      modifies this
      ensures old(pending) == [] ==> r == None && pending == []
      ensures old(pending) != [] ==> r == Some(old(pending)[0]) && pending == old(pending)[1..]
    {
      if pending == [] {
        r := None;
      } else {
        r := Some(pending[0]);
        pending := pending[1..];
      }
    }
  }
}
