/** The writer task (src/main.rs:44-49): it takes queued frames in order and writes
    each to the socket, stopping at the first write that fails. */
module Writer {
  import opened Frames
  import opened Transport

  /** How a drain ends: waiting on `rx.recv()` for more, or with a write error. */
  datatype WriterOutcome = Waiting | WriteFailed

  /** The index of the first of `n` writes for which `accepts` answers false,
      or `n` when all of them succeed. */
  function FirstRejected(accepts: nat -> bool, n: nat): (j: nat)
    ensures j <= n
    ensures forall k :: 0 <= k < j ==> accepts(k)
    ensures j < n ==> !accepts(j)
  {
    if n == 0 then 0
    else
      var j := FirstRejected(accepts, n - 1);
      if j < n - 1 then j else if accepts(n - 1) then n else n - 1
  }

  /** A queue of frames that all go through is written in full: the prefix that
      `WriterTask` writes is the whole queue, and the drain ends waiting. */
  lemma AllAcceptedAllWritten(queue: seq<OutFrame>, accepts: nat -> bool)
    requires forall k :: 0 <= k < |queue| ==> accepts(k)
    ensures FirstRejected(accepts, |queue|) == |queue|
    ensures queue[..FirstRejected(accepts, |queue|)] == queue
  {
  }

  /** The drain of `ch` into `sink`; `accepts(k)` says whether the k-th write of
      this drain succeeds. Frames are written exactly in queue order up to the first
      failed write; that frame and all later ones are never written, and ending the
      task drops the receiver. */
  method WriterTask(ch: Channel, sink: Sink, accepts: nat -> bool) returns (outcome: WriterOutcome)
    requires ch.receiverAlive
    modifies ch, sink
    ensures var q := old(ch.buffered);
      var j := FirstRejected(accepts, |q|);
      && sink.written == old(sink.written) + q[..j]
      && outcome == (if j < |q| then WriteFailed else Waiting)
      && ch.receiverAlive == (j == |q|)
      && ch.buffered == []
  {
    ghost var q := ch.buffered;
    var k := 0;
    while true
      invariant k <= |q|
      invariant ch.receiverAlive
      invariant ch.buffered == q[k..]
      invariant sink.written == old(sink.written) + q[..k]
      invariant forall m :: 0 <= m < k ==> accepts(m)
      decreases |ch.buffered|
    {
      var r := ch.Recv();
      match r {
        case Empty =>
          outcome := Waiting;
          return;
        case Item(frame) =>
          var ok := sink.Send(frame, accepts(k));
          if !ok {
            ch.DropReceiver();
            outcome := WriteFailed;
            return;
          }
          assert q[..k + 1] == q[..k] + [frame];
          k := k + 1;
      }
    }
  }
}
