/** The reader loop (src/main.rs:51-84): frames are handled one at a time, in
    arrival order, until the stream ends, a close frame arrives or something fails.
    `Read` is the specification of the whole loop; `ReadLoop` is the loop itself. */
module Reader {
  import opened Models
  import opened Frames
  import opened Transport

  /** At most this many ask levels are shown per book. */
  const MAX_ASK_LINES: nat := 10

  function Min(a: nat, b: nat): nat {
    if a <= b then a else b
  }

  /** The log lines for the first `n` asks. */
  function AskLines(asks: seq<OfferData>, n: nat): seq<LogEvent>
    requires n <= |asks|
  {
    if n == 0 then [] else AskLines(asks, n - 1) + [AskLine(n - 1, asks[n - 1].price, asks[n - 1].qty)]
  }

  /** What showing a book logs. */
  function RenderBook(book: Book): seq<LogEvent> {
    AskLines(book.asks, Min(MAX_ASK_LINES, |book.asks|))
  }

  lemma {:induction false} AskLinesAt(asks: seq<OfferData>, n: nat)
    requires n <= |asks|
    ensures |AskLines(asks, n)| == n
    ensures forall i :: 0 <= i < n ==> AskLines(asks, n)[i] == AskLine(i, asks[i].price, asks[i].qty)
  {
    if n > 0 {
      AskLinesAt(asks, n - 1);
    }
  }

  /** A book shows min(10, N) lines for its N asks, line i being ask i, in order,
      with no padding, and its bids play no part. */
  lemma RenderBookShape(book: Book)
    ensures |RenderBook(book)| == Min(MAX_ASK_LINES, |book.asks|)
    ensures |book.asks| < MAX_ASK_LINES ==> |RenderBook(book)| == |book.asks|
    ensures forall i :: 0 <= i < |RenderBook(book)| ==>
      RenderBook(book)[i] == AskLine(i, book.asks[i].price, book.asks[i].qty)
    ensures forall bids :: RenderBook(book.(bids := bids)) == RenderBook(book)
  {
    AskLinesAt(book.asks, Min(MAX_ASK_LINES, |book.asks|));
  }

  /** The `for i in 0..min(10, asks.len())` loop. */
  method RenderAsks(book: Book) returns (lines: seq<LogEvent>)
    ensures |lines| == Min(MAX_ASK_LINES, |book.asks|)
    ensures forall i :: 0 <= i < |lines| ==> lines[i] == AskLine(i, book.asks[i].price, book.asks[i].qty)
    ensures lines == RenderBook(book)
  {
    var n := Min(MAX_ASK_LINES, |book.asks|);
    lines := [];
    for i := 0 to n
      invariant lines == AskLines(book.asks, i)
    {
      lines := lines + [AskLine(i, book.asks[i].price, book.asks[i].qty)];
    }
    AskLinesAt(book.asks, n);
  }

  /** How the reader loop ended. */
  datatype ReaderOutcome = StreamEnded | Closed | Failed(error: ClientError)

  /** What handling one frame does: log lines, frames queued for the writer, and
      whether the loop goes on. */
  datatype Step = Continue(log: seq<LogEvent>, enqueued: seq<OutFrame>)
                | Halt(log: seq<LogEvent>, outcome: ReaderOutcome)

  /** The dispatch of one frame; `receiverAlive` says whether the writer task still
      holds the receiving end of the channel. */
  function Dispatch(frame: Frame, receiverAlive: bool): Step {
    match frame
    case ReadFailure => Halt([], Failed(ReadError))
    case Text(Malformed) => Halt([], Failed(DecodeError))
    case Text(Parsed(msg)) =>
      (match msg.data
       case BookData(book) => Continue(RenderBook(book), [])
       case None => Continue([ReceivedText(msg)], []))
    case Ping(p) =>
      if receiverAlive then Continue([PingReceived(p)], [PongFrame([])])
      else Halt([PingReceived(p)], Failed(ChannelClosed))
    case Pong(p) => Continue([PongReceived(p)], [])
    case Close => Halt([CloseReceived], Closed)
    case Other => Continue([UnexpectedFrame], [])
  }

  predicate Continues(frame: Frame, receiverAlive: bool) {
    Dispatch(frame, receiverAlive).Continue?
  }

  /** Exactly four kinds of frame end the loop: a close (normally), a read error,
      an undecodable text frame and a ping that cannot be answered (with an error). */
  lemma HaltingFrames(frame: Frame, receiverAlive: bool)
    ensures !Continues(frame, receiverAlive) <==>
      frame == Close || frame == ReadFailure || frame == Text(Malformed) || (frame.Ping? && !receiverAlive)
    ensures frame == Close ==> Dispatch(frame, receiverAlive).outcome == Closed
    ensures frame == ReadFailure ==> Dispatch(frame, receiverAlive).outcome == Failed(ReadError)
    ensures frame == Text(Malformed) ==> Dispatch(frame, receiverAlive).outcome == Failed(DecodeError)
    ensures frame.Ping? && !receiverAlive ==> Dispatch(frame, receiverAlive).outcome == Failed(ChannelClosed)
  {
  }

  /** The effect of the whole loop over a frame stream. */
  datatype Trace = Trace(log: seq<LogEvent>, enqueued: seq<OutFrame>, outcome: ReaderOutcome, consumed: nat)

  /** `t` preceded by `n` frames that logged `log` and queued `enqueued`. */
  function Prepend(log: seq<LogEvent>, enqueued: seq<OutFrame>, n: nat, t: Trace): Trace {
    Trace(log + t.log, enqueued + t.enqueued, t.outcome, n + t.consumed)
  }

  lemma PrependPrepend(log1: seq<LogEvent>, enq1: seq<OutFrame>, n1: nat,
                       log2: seq<LogEvent>, enq2: seq<OutFrame>, n2: nat, t: Trace)
    ensures Prepend(log1, enq1, n1, Prepend(log2, enq2, n2, t)) == Prepend(log1 + log2, enq1 + enq2, n1 + n2, t)
  {
    assert log1 + (log2 + t.log) == (log1 + log2) + t.log;
    assert enq1 + (enq2 + t.enqueued) == (enq1 + enq2) + t.enqueued;
  }

  function Read(frames: seq<Frame>, receiverAlive: bool): (t: Trace)
    ensures t.consumed <= |frames|
    ensures t.outcome == StreamEnded ==> t.consumed == |frames|
    decreases |frames|
  {
    if frames == [] then Trace([], [], StreamEnded, 0)
    else
      match Dispatch(frames[0], receiverAlive)
      case Halt(log, outcome) => Trace(log, [], outcome, 1)
      case Continue(log, enqueued) => Prepend(log, enqueued, 1, Read(frames[1..], receiverAlive))
  }

  /** One step of `Read`: the first frame's effect, then either the rest or the end. */
  lemma ReadUnfold(frames: seq<Frame>, receiverAlive: bool)
    requires frames != []
    ensures var d := Dispatch(frames[0], receiverAlive);
      Read(frames, receiverAlive) ==
        if d.Continue? then Prepend(d.log, d.enqueued, 1, Read(frames[1..], receiverAlive))
        else Trace(d.log, [], d.outcome, 1)
  {
  }

  /** The loop ends normally at the end of the stream exactly when no frame halts
      it; otherwise it stops at the first halting frame, with that frame's outcome,
      having handled every frame before it and none after it. */
  lemma {:induction false} ReadStopsAtFirstHalt(frames: seq<Frame>, receiverAlive: bool)
    ensures Read(frames, receiverAlive).outcome == StreamEnded <==>
      forall k :: 0 <= k < |frames| ==> Continues(frames[k], receiverAlive)
    ensures Read(frames, receiverAlive).outcome != StreamEnded ==>
      var c := Read(frames, receiverAlive).consumed;
      && 0 < c
      && !Continues(frames[c - 1], receiverAlive)
      && Read(frames, receiverAlive).outcome == Dispatch(frames[c - 1], receiverAlive).outcome
      && forall k :: 0 <= k < c - 1 ==> Continues(frames[k], receiverAlive)
    decreases |frames|
  {
    if frames != [] {
      ReadStopsAtFirstHalt(frames[1..], receiverAlive);
      if Continues(frames[0], receiverAlive) {
        assert forall k :: 1 <= k < |frames| ==> frames[k] == frames[1..][k - 1];
      }
    }
  }

  /** Frames after the one that ended the loop are never looked at. */
  lemma {:induction false} ReadIgnoresAfterHalt(frames: seq<Frame>, more: seq<Frame>, receiverAlive: bool)
    requires Read(frames, receiverAlive).outcome != StreamEnded
    ensures Read(frames + more, receiverAlive) == Read(frames, receiverAlive)
    decreases |frames|
  {
    assert frames != [];
    assert (frames + more)[0] == frames[0];
    if Continues(frames[0], receiverAlive) {
      assert (frames + more)[1..] == frames[1..] + more;
      ReadIgnoresAfterHalt(frames[1..], more, receiverAlive);
    }
  }

  /** A prefix of frames that all continue just adds its effect before the rest. */
  lemma {:induction false} ReadSplit(pre: seq<Frame>, post: seq<Frame>, receiverAlive: bool)
    requires forall k :: 0 <= k < |pre| ==> Continues(pre[k], receiverAlive)
    ensures Read(pre + post, receiverAlive) ==
      Prepend(Read(pre, receiverAlive).log, Read(pre, receiverAlive).enqueued, |pre|, Read(post, receiverAlive))
    decreases |pre|
  {
    if pre == [] {
      assert pre + post == post;
    } else {
      var rest := pre[1..];
      assert forall k :: 0 <= k < |rest| ==> Continues(rest[k], receiverAlive) by {
        forall k | 0 <= k < |rest| ensures Continues(rest[k], receiverAlive) {
          assert rest[k] == pre[k + 1];
        }
      }
      assert Continues(pre[0], receiverAlive);
      assert (pre + post)[0] == pre[0];
      assert (pre + post)[1..] == rest + post;
      ReadUnfold(pre, receiverAlive);
      ReadUnfold(pre + post, receiverAlive);
      ReadSplit(rest, post, receiverAlive);
      var d := Dispatch(pre[0], receiverAlive);
      PrependPrepend(d.log, d.enqueued, 1, Read(rest, receiverAlive).log, Read(rest, receiverAlive).enqueued, |rest|,
                     Read(post, receiverAlive));
    }
  }

  /** Once only handled frames precede it, a close frame ends the loop normally,
      logged last, whatever follows it. */
  lemma CloseEndsNormally(pre: seq<Frame>, post: seq<Frame>, receiverAlive: bool)
    requires forall k :: 0 <= k < |pre| ==> Continues(pre[k], receiverAlive)
    ensures var t := Read(pre + [Close] + post, receiverAlive);
      && t.outcome == Closed
      && t.consumed == |pre| + 1
      && t.log == Read(pre, receiverAlive).log + [CloseReceived]
      && t.enqueued == Read(pre, receiverAlive).enqueued
  {
    assert pre + [Close] + post == pre + ([Close] + post);
    ReadSplit(pre, [Close] + post, receiverAlive);
  }

  /** A read error or an undecodable text frame ends the loop with that error,
      logging nothing for it, whatever follows it. */
  lemma ErrorEndsWithError(pre: seq<Frame>, bad: Frame, post: seq<Frame>, receiverAlive: bool)
    requires forall k :: 0 <= k < |pre| ==> Continues(pre[k], receiverAlive)
    requires bad == ReadFailure || bad == Text(Malformed)
    ensures var t := Read(pre + [bad] + post, receiverAlive);
      && t.outcome == Failed(if bad == ReadFailure then ReadError else DecodeError)
      && t.consumed == |pre| + 1
      && t.log == Read(pre, receiverAlive).log
      && t.enqueued == Read(pre, receiverAlive).enqueued
  {
    assert pre + [bad] + post == pre + ([bad] + post);
    ReadSplit(pre, [bad] + post, receiverAlive);
  }

  /** An envelope whose data is not a book is logged and skipped: nothing is
      rendered or queued and the next frame is handled. */
  lemma NonBookSkipped(msg: BitsMap, rest: seq<Frame>, receiverAlive: bool)
    requires msg.data == None
    ensures Read([Text(Parsed(msg))] + rest, receiverAlive) ==
      Prepend([ReceivedText(msg)], [], 1, Read(rest, receiverAlive))
  {
    assert ([Text(Parsed(msg))] + rest)[1..] == rest;
  }

  /** The number of pings among `frames`. */
  function CountPings(frames: seq<Frame>): nat {
    if frames == [] then 0 else (if frames[0].Ping? then 1 else 0) + CountPings(frames[1..])
  }

  /** Every handled ping queues exactly one pong with an empty payload, whatever
      the ping carried, and no other frame queues anything. */
  lemma {:induction false} OnePongPerPing(frames: seq<Frame>, receiverAlive: bool)
    ensures var t := Read(frames, receiverAlive);
      && (forall k :: 0 <= k < |t.enqueued| ==> t.enqueued[k] == PongFrame([]))
      && |t.enqueued| == (if receiverAlive then CountPings(frames[..t.consumed]) else 0)
    decreases |frames|
  {
    if frames != [] {
      var t := Read(frames, receiverAlive);
      OnePongPerPing(frames[1..], receiverAlive);
      if Continues(frames[0], receiverAlive) {
        assert frames[..t.consumed][1..] == frames[1..][..t.consumed - 1];
      } else {
        assert frames[..1] == [frames[0]];
        assert CountPings(frames[..1]) == CountPings([frames[0]][1..]) + (if frames[0].Ping? then 1 else 0);
      }
    }
  }

  /** A ping then a close: one empty pong is queued and the loop ends normally. */
  lemma PingThenClose(p: Bytes, more: seq<Frame>)
    ensures Read([Ping(p), Close] + more, true) ==
      Trace([PingReceived(p), CloseReceived], [PongFrame([])], Closed, 2)
  {
    assert ([Ping(p), Close] + more)[1..] == [Close] + more;
  }

  /** A subscription acknowledgement, a book with twelve asks, then a close: the
      first is logged as unrecognised, the book shows its first ten asks in order,
      and the loop ends normally with nothing queued. */
  lemma AckBookClose(ack: BitsMap, book: Book, more: seq<Frame>)
    requires ack.data == None && |book.asks| == 12
    ensures var t := Read([Text(Parsed(ack)), Text(Parsed(BitsMap("order_book_btcusd", "data", BookData(book)))), Close] + more, true);
      && t.log == [ReceivedText(ack)] + RenderBook(book) + [CloseReceived]
      && |RenderBook(book)| == MAX_ASK_LINES
      && t.enqueued == []
      && t.outcome == Closed
      && t.consumed == 3
  {
    var m := BitsMap("order_book_btcusd", "data", BookData(book));
    var s := [Text(Parsed(ack)), Text(Parsed(m)), Close] + more;
    assert s[1..][1..] == [Close] + more;
    ReadUnfold(s, true);
    ReadUnfold(s[1..], true);
    ReadUnfold(s[1..][1..], true);
    RenderBookShape(book);
  }

  /** The reader loop; pongs go into `ch`, log lines into `log`. */
  method ReadLoop(frames: seq<Frame>, ch: Channel) returns (log: seq<LogEvent>, outcome: ReaderOutcome, consumed: nat)
    modifies ch
    ensures var t := Read(frames, old(ch.receiverAlive));
      && log == t.log && outcome == t.outcome && consumed == t.consumed
      && ch.buffered == old(ch.buffered) + t.enqueued
    ensures ch.receiverAlive == old(ch.receiverAlive)
  {
    ghost var alive := ch.receiverAlive;
    ghost var enqueued: seq<OutFrame> := [];
    log := [];
    outcome := StreamEnded;
    var i := 0;
    while i < |frames|
      invariant 0 <= i <= |frames|
      invariant ch.receiverAlive == alive
      invariant ch.buffered == old(ch.buffered) + enqueued
      invariant outcome == StreamEnded
      invariant Read(frames, alive) == Prepend(log, enqueued, i, Read(frames[i..], alive))
    {
      var frame := frames[i];
      ghost var d := Dispatch(frame, alive);
      ghost var log0, enqueued0 := log, enqueued;
      assert frames[i..][1..] == frames[i + 1..];
      ReadUnfold(frames[i..], alive);
      i := i + 1;
      match frame {
        case ReadFailure =>
          outcome := Failed(ReadError);
          break;
        case Text(decoded) =>
          match decoded {
            case Malformed =>
              outcome := Failed(DecodeError);
              break;
            case Parsed(msg) =>
              match msg.data {
                case None =>
                  log := log + [ReceivedText(msg)];
                case BookData(book) =>
                  var lines := RenderAsks(book);
                  log := log + lines;
              }
          }
        case Ping(p) =>
          log := log + [PingReceived(p)];
          var ok := ch.Send(PongFrame([]));
          if !ok {
            outcome := Failed(ChannelClosed);
            break;
          }
          enqueued := enqueued + [PongFrame([])];
        case Pong(p) =>
          log := log + [PongReceived(p)];
        case Close =>
          log := log + [CloseReceived];
          outcome := Closed;
          break;
        case Other =>
          log := log + [UnexpectedFrame];
      }
      assert d.Continue? && log == log0 + d.log && enqueued == enqueued0 + d.enqueued;
      PrependPrepend(log0, enqueued0, i - 1, d.log, d.enqueued, 1, Read(frames[i..], alive));
    }
    consumed := i;
  }
}
