/** The shapes of the decoded feed messages (src/models.rs). Decoding itself is done
    by serde and is not modelled: an inbound text frame arrives here already decoded
    (see module Frames). Prices and quantities are carried, never computed on, so an
    `f32` is kept as its 32-bit pattern. */
module Models {

  /** An opaque 32-bit float: the client only prints it. */
  datatype Float32 = Float32(bits: bv32)

  /** One price level of a book side. */
  datatype OfferData = OfferData(price: Float32, qty: Float32)

  /** An order-book snapshot; both sides keep the server's level order. */
  datatype Book = Book(timestamp: string, microtimestamp: string,
                       bids: seq<OfferData>, asks: seq<OfferData>)

  /** The untagged payload union: an order book, or anything else (`None {}`). */
  datatype Data = BookData(inner: Book) | None

  /** The envelope of every channel message. */
  datatype BitsMap = BitsMap(channel: string, event: string, data: Data)
}
