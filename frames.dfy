/** The values that cross the connection and the log (src/main.rs:38-84). */
module Frames {
  import opened Models
  import opened Subscribe

  type Bytes = seq<bv8>

  /** What `serde_json::from_str::<BitsMap>` makes of a text frame. */
  datatype Decoded = Parsed(msg: BitsMap) | Malformed

  /** One item of the inbound stream: a WebSocket message, or a read error. */
  datatype Frame =
    | Text(decoded: Decoded)
    | Ping(payload: Bytes)
    | Pong(payload: Bytes)
    | Close
    | Other          // a binary or raw frame
    | ReadFailure    // `read.next()` yielded an error

  /** A frame written to the outbound half of the connection. The subscribe
      request goes out as a binary message holding its JSON serialization. */
  datatype OutFrame = SubscribeFrame(request: SubscribeRequest) | PongFrame(payload: Bytes)

  /** One line the client logs. */
  datatype LogEvent =
    | AskLine(index: nat, price: Float32, qty: Float32)
    | ReceivedText(msg: BitsMap)
    | PingReceived(payload: Bytes)
    | PongReceived(payload: Bytes)
    | CloseReceived
    | UnexpectedFrame

  /** The fatal conditions that end the client with an error. */
  datatype ClientError =
    | SubscribeSendError  // the subscribe frame could not be written
    | ReadError           // the inbound stream yielded an error
    | DecodeError         // a text frame did not decode as an envelope
    | ChannelClosed       // a pong could not be queued: the writer task is gone
    | WriteError          // the writer task failed to write a queued frame
}
