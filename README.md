# bitsmap-client: a Dafny model of the per-frame client logic

The client connects to the Bitstamp WebSocket feed, subscribes to one order-book
channel, and then runs two tasks. The reader loop consumes inbound frames, shows
the first ten ask levels of every order-book snapshot and queues a pong for every
ping. The writer task drains that queue onto the socket. This project models, with
the socket, tokio and serde abstracted away:

- the subscribe request: event `bts:subscribe`, channel `order_book_` followed by
  the lowercased symbol, written as the first outbound frame (module `Subscribe`,
  `Session.Run`);
- the reader loop as a state machine over a finite sequence of inbound frames
  (module `Reader`). Frames are `Text` (already decoded into an envelope, or
  undecodable), `Ping`, `Pong`, `Close`, any other frame, or a read error.
  `Reader.Read` specifies the whole loop as a trace. The trace holds the log lines,
  the frames queued for the writer, the outcome (stream ended, closed, or failed
  with an error) and how many frames were consumed. `Reader.ReadLoop` is the loop
  itself, proved equal to that trace;
- the unbounded mpsc channel and the socket's write half as two small classes
  (module `Transport`), and the writer's drain loop (module `Writer`). The drain
  writes queued frames in order and stops at the first failed write;
- the message shapes of `src/models.rs` as plain datatypes (module `Models`).
  Prices and quantities are opaque 32-bit patterns.

Network answers are parameters. `Session.Run` takes whether the subscribe write
succeeds. `Writer.WriterTask` takes a function `accepts` that says whether the
writer's k-th write succeeds. The log (tracing output) is an out-parameter: a
sequence of log events.

Three behaviours of the code are worth stating, because a reader might expect otherwise:

- Shutdown. One might expect the queue's sender to be dropped when the reader
  loop ends, so that the writer drains the queue and exits cleanly. It is not:
  `src/main.rs:86-87` drop `read` only, and `tx` stays alive, so `rx.recv()`
  never reports a closed channel. After a normal reader exit, `main` therefore
  waits on the writer forever unless one of the writer's writes fails.
  `Session.Run` reports this as `WaitingForWriter`, and `Transport.Received`
  has no "closed" case.
- A ping whose pong cannot be queued ends the loop with an error
  (`tx.send(pong)?`, `src/main.rs:72`).
- The subscribe request goes out as a binary message holding its JSON bytes
  (`serde_json::to_vec(..).into()`, `src/main.rs:40`), not as a text frame.

## Model

| member | source | states |
|---|---|---|
| `Subscribe.Lower` | src/main.rs:35 | the lowercased character is never an ASCII capital; a capital becomes the small letter at the same alphabet position, and a character that is not an ASCII capital is left unchanged |
| `Subscribe.LowercaseAt` | src/main.rs:35 | lowercasing keeps the symbol's length and maps each character on its own |
| `Subscribe.ToLowercase` | src/main.rs:35 | definition without contract; its properties are stated in `Subscribe.LowercaseAt` and `Subscribe.LowercaseIdempotent` |
| `Subscribe.SubscribeFor` | src/main.rs:32-37 | definition without contract; its properties are stated in `Subscribe.SubscribeShape`, `Subscribe.ChannelRoundTrip` and `Subscribe.SameChannelIffSameLowercase` |
| `Subscribe.SubscribeShape` | src/main.rs:32-37 | the event is exactly `bts:subscribe`; the channel starts with `order_book_`, is as long as the prefix plus the symbol, and character i after the prefix is symbol character i lowercased, so a character that is not an ASCII capital is copied unchanged (nothing added, dropped or reordered) |
| `Subscribe.ChannelRoundTrip` | src/main.rs:35 | removing the `order_book_` prefix from the channel gives back the lowercased symbol |
| `Subscribe.LowercaseIdempotent` | src/main.rs:35 | lowercasing twice equals lowercasing once, so the channel's symbol part holds no ASCII capital |
| `Subscribe.SameChannelIffSameLowercase` | src/main.rs:35 | two symbols give the same subscribe request if and only if they are equal after lowercasing |
| `Subscribe.SubscribeExamples` | src/main.rs:17-37 | symbol `BTCUSD` gives channel `order_book_btcusd`; the default symbol `btcusdt` gives `order_book_btcusdt` |
| `Transport.Channel.Send` | src/main.rs:72 | `tx.send` queues the frame at the back while the receiver exists, and fails without queuing once it is gone |
| `Transport.Channel.Recv` | src/main.rs:45 | `rx.recv` hands out the oldest queued frame and removes it (first in, first out), or finds nothing to take |
| `Transport.Channel.DropReceiver` | src/main.rs:45-48 | when the writer task ends, queued frames are discarded and later sends fail |
| `Transport.Sink.Send` | src/main.rs:46 | a successful write appends the frame after the ones already written; a failed write appends nothing |
| `Reader.AskLines` | src/main.rs:62-67 | definition without contract; its properties are stated in `Reader.AskLinesAt` |
| `Reader.RenderBook` | src/main.rs:62-67 | definition without contract; its properties are stated in `Reader.RenderBookShape` |
| `Reader.AskLinesAt` | src/main.rs:62-67 | the lines for the first n asks are n lines, line i being index i with ask i's price and quantity |
| `Reader.RenderBookShape` | src/main.rs:62-67 | a book with N asks shows exactly min(10, N) lines, with no padding when N < 10; line i shows index i with `asks[i].price` and `asks[i].qty`, in increasing i; the bids never affect the output |
| `Reader.RenderAsks` | src/main.rs:62-67 | the index loop produces min(10, N) lines, line i being ask i, and the same lines as the rendering the loop specification uses |
| `Reader.Dispatch` | src/main.rs:52-83 | definition without contract; its properties are stated in `Reader.HaltingFrames`, `Reader.NonBookSkipped` and `Reader.OnePongPerPing` |
| `Reader.HaltingFrames` | src/main.rs:51-84 | a frame ends the loop if and only if it is a close, a read error, an undecodable text frame, or a ping whose pong cannot be queued; a close gives a normal outcome and the other three give their own errors |
| `Reader.Read` | src/main.rs:51-84 | the loop never consumes more frames than the stream holds, and when it ends with the stream it has consumed every frame |
| `Reader.ReadStopsAtFirstHalt` | src/main.rs:51-84 | the loop ends with the stream if and only if no frame halts it; otherwise the last frame it consumed is the first halting frame, every earlier frame was handled, and the outcome is that frame's outcome |
| `Reader.ReadIgnoresAfterHalt` | src/main.rs:51-84 | once a frame has ended the loop, appending any further frames changes nothing: later frames are never processed |
| `Reader.ReadSplit` | src/main.rs:51-84 | frames are handled strictly in order: a prefix of handled frames contributes its log lines and queued frames ahead of those of the rest |
| `Reader.CloseEndsNormally` | src/main.rs:76-79 | a close after handled frames ends the loop with the normal outcome `Closed`, logged last, having consumed exactly up to the close, whatever follows |
| `Reader.ErrorEndsWithError` | src/main.rs:52-54 | a read error or an undecodable text frame after handled frames ends the loop with `ReadError` or `DecodeError`, logs nothing for that frame, and no later frame is processed |
| `Reader.NonBookSkipped` | src/main.rs:55-61 | an envelope whose data is not a book is logged once, renders nothing, queues nothing, and the loop goes on with the next frame |
| `Reader.OnePongPerPing` | src/main.rs:69-73 | every frame queued by the loop is a pong with an empty payload, and there are exactly as many as pings consumed (none when the writer is gone); pong, close, other and text frames queue nothing |
| `Reader.PingThenClose` | src/main.rs:69-79 | a ping then a close queue exactly one empty pong, log the ping and the close, and end the loop normally after two frames |
| `Reader.AckBookClose` | src/main.rs:53-79 | an acknowledgement, a book with twelve asks and a close: the first is logged as unrecognised, the book shows exactly ten ask lines in input order, nothing is queued, and the loop ends normally after three frames |
| `Reader.ReadLoop` | src/main.rs:51-84 | the `while let` loop's log, outcome and frame count are those of `Read`; the channel afterwards holds its old contents followed by the frames `Read` queues |
| `Writer.FirstRejected` | src/main.rs:45-48 | the index of the first failing write: every earlier write succeeds, and it is past the end only when all writes succeed |
| `Writer.AllAcceptedAllWritten` | src/main.rs:45-48 | when every write of a queue succeeds, the first rejected index is past the end, so the prefix `WriterTask` writes (`queue[..FirstRejected]`) is the whole queue, in order, and its outcome is `Waiting` |
| `Writer.WriterTask` | src/main.rs:44-49 | the socket receives the queued frames in exactly their queue order up to the first failed write; that frame and later ones are never written; a failure ends the writer with an error and drops the receiver, and otherwise the writer waits for more |
| `Session.Run` | src/main.rs:32-87 | the subscribe frame for the symbol is the first frame written; if it fails, nothing is read or logged and the run ends with `SubscribeSendError`; otherwise the log is the reader loop's, a reader error ends the run with that error after only the subscribe frame, and after a normal reader exit the queued pongs follow the subscribe frame up to the first failed write, ending with `WriteError` or waiting for the writer forever |

## Left out

- Connection setup (`connect_async`, URL parsing, handshake status and header logging, `socket.split()`, src/main.rs:25-29, 38): network I/O in a library that is not part of this model. A run starts with the connection up.
- Concurrency: `Session.Run` runs the two tasks one after the other (writer after reader), which is only one of the schedules tokio allows. `Reader.ReadLoop` holds for any channel state, including one whose receiver is already gone. `Writer.WriterTask` requires a live receiver, as it is the task that owns it. Two consequences of the fixed schedule:
  - `Reader.Read` takes whether the receiver is alive as one value for the whole stream. It cannot express a writer that fails partway through the stream, after which a later `tx.send(pong)?` (src/main.rs:72) ends `main` with the reader's error. In `Session.Run` the receiver is alive throughout, so `Session.Run` never ends with `ChannelClosed`.
  - On a reader error, `Session.Run` promises that only the subscribe frame was written, even when pongs were queued (for example `Ping` then `ReadFailure`). In the program the writer task may already have written those pongs before `main` returns.
- The JSON serialization of the subscribe request (key order, string escaping), and all decoding by serde, including the untagged fallback between a book and `None {}`: an inbound text frame arrives already decoded or marked undecodable.
- `de_float_from_str` (src/models.rs:34-40): `f32` parsing is floating-point numerics. Prices and quantities are opaque, and the model does not decide whether bad float text is a hard error or a fallback to `None`.
- The text of the log lines (tracing formatting, `String::from_utf8_lossy` of ping payloads) and command-line parsing (src/main.rs:14-24): log lines are abstract events.
- Subscribe.Lower: models `to_lowercase` as ASCII lowercasing, because full Unicode case mapping is library behaviour that can change a string's length.
- Close reasons and codes are not carried by the `Close` frame, because the client only logs them.
