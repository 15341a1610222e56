/** One run of the client after the connection is up (src/main.rs:32-87): the
    subscribe frame is written first, then the reader loop runs over the inbound
    frames, then the program awaits the writer task. Of the schedules the two tasks
    allow, this is the one where the writer runs once the reader is done. */
module Session {
  import opened Subscribe
  import opened Frames
  import opened Transport
  import opened Reader
  import opened Writer

  /** How `main` ends: with an error, or never, because after a normal reader exit
      it awaits a writer task whose channel sender `tx` is still alive. */
  datatype SessionOutcome = Terminated(error: ClientError) | WaitingForWriter

  /** `subscribeAccepted` says whether the subscribe write succeeds and `accepts(k)`
      whether the writer task's k-th write does; `written` is what reached the
      socket and `log` what was logged. */
  method Run(symbol: string, frames: seq<Frame>, subscribeAccepted: bool, accepts: nat -> bool)
    returns (outcome: SessionOutcome, log: seq<LogEvent>, written: seq<OutFrame>, consumed: nat)
    ensures written != [] ==> written[0] == SubscribeFrame(SubscribeFor(symbol))
    ensures !subscribeAccepted ==>
      outcome == Terminated(SubscribeSendError) && log == [] && written == [] && consumed == 0
    ensures subscribeAccepted ==>
      var t := Read(frames, true);
      && log == t.log
      && consumed == t.consumed
      && (t.outcome.Failed? ==>
            outcome == Terminated(t.outcome.error) && written == [SubscribeFrame(SubscribeFor(symbol))])
      && (!t.outcome.Failed? ==>
            var j := FirstRejected(accepts, |t.enqueued|);
            && written == [SubscribeFrame(SubscribeFor(symbol))] + t.enqueued[..j]
            && outcome == (if j < |t.enqueued| then Terminated(WriteError) else WaitingForWriter))
  {
    var request := SubscribeFor(symbol);
    var sink := new Sink();
    var sent := sink.Send(SubscribeFrame(request), subscribeAccepted);
    if !sent {
      outcome, log, written, consumed := Terminated(SubscribeSendError), [], [], 0;
      return;
    }
    var ch := new Channel();
    var readerOutcome;
    log, readerOutcome, consumed := ReadLoop(frames, ch);
    if readerOutcome.Failed? {
      outcome, written := Terminated(readerOutcome.error), sink.written;
      return;
    }
    var writerOutcome := WriterTask(ch, sink, accepts);
    written := sink.written;
    outcome := if writerOutcome == WriteFailed then Terminated(WriteError) else WaitingForWriter;
  }
}
