/** The two pieces of state the reader and the writer share or own: the unbounded
    mpsc channel from the reader to the writer, and the write half of the socket. */
module Transport {
  import opened Frames

  /** What `rx.recv()` gives: the oldest queued frame, or nothing yet. The one
      sender, `tx`, lives until the program ends, so `recv` never reports a closed
      channel; with nothing queued it waits, which is `Empty` here. */
  datatype Received = Item(frame: OutFrame) | Empty

  /** The channel `(tx, rx)`: frames queued and not yet received, and whether the
      receiver still exists (it is dropped when the writer task ends). */
  class Channel {
    var buffered: seq<OutFrame>
    var receiverAlive: bool

    constructor ()
      ensures buffered == [] && receiverAlive
    {
      buffered := [];
      receiverAlive := true;
    }

    /** `tx.send(frame)`: queues the frame, or fails once the receiver is gone. */
    method Send(frame: OutFrame) returns (ok: bool)
      modifies this
      ensures ok == old(receiverAlive)
      ensures receiverAlive == old(receiverAlive)
      ensures buffered == if ok then old(buffered) + [frame] else old(buffered)
    {
      ok := receiverAlive;
      if ok {
        buffered := buffered + [frame];
      }
    }

    /** `rx.recv()`: takes the oldest queued frame, first in first out. */
    method Recv() returns (r: Received)
      requires receiverAlive
      modifies this
      ensures receiverAlive
      ensures old(buffered) == [] ==> r == Empty && buffered == []
      ensures old(buffered) != [] ==> r == Item(old(buffered)[0]) && buffered == old(buffered)[1..]
    {
      if buffered == [] {
        r := Empty;
      } else {
        r := Item(buffered[0]);
        buffered := buffered[1..];
      }
    }

    /** Dropping `rx`: frames still queued are discarded, later sends fail. */
    method DropReceiver()
      modifies this
      ensures !receiverAlive && buffered == []
    {
      receiverAlive := false;
      buffered := [];
    }
  }

  /** The write half of the socket: the frames it has written so far. Whether one
      write succeeds is decided by the network, so it is an argument of `Send`. */
  class Sink {
    var written: seq<OutFrame>

    constructor ()
      ensures written == []
    {
      written := [];
    }

    /** `write.send(frame)`: on success the frame follows the earlier ones. */
    method Send(frame: OutFrame, accepted: bool) returns (ok: bool)
      modifies this
      ensures ok == accepted
      ensures written == if accepted then old(written) + [frame] else old(written)
    {
      ok := accepted;
      if ok {
        written := written + [frame];
      }
    }
  }
}
