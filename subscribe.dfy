/** Construction of the one-shot subscribe request (src/main.rs:32-37). */
module Subscribe {

  const SUBSCRIBE_EVENT: string := "bts:subscribe"
  const CHANNEL_PREFIX: string := "order_book_"

  /** The request `{"event": .., "data": {"channel": ..}}`. */
  datatype SubscribeRequest = SubscribeRequest(event: string, channel: string)

  predicate IsAsciiUpper(c: char) {
    'A' <= c <= 'Z'
  }

  /** ASCII lowercasing of one character; every other character is left alone. */
  function Lower(c: char): (r: char)
    ensures !IsAsciiUpper(r)
    ensures IsAsciiUpper(c) ==> 'a' <= r <= 'z' && r as int - 'a' as int == c as int - 'A' as int
    ensures !IsAsciiUpper(c) ==> r == c
  {
    if IsAsciiUpper(c) then (c as int + 32) as char else c
  }

  /** `str::to_lowercase`, restricted to ASCII case mapping. */
  function ToLowercase(s: string): string
  {
    if s == [] then [] else [Lower(s[0])] + ToLowercase(s[1..])
  }

  /** The request sent for `symbol`. */
  function SubscribeFor(symbol: string): SubscribeRequest
  {
    SubscribeRequest(SUBSCRIBE_EVENT, CHANNEL_PREFIX + ToLowercase(symbol))
  }

  predicate IsOrderBookChannel(channel: string) {
    |CHANNEL_PREFIX| <= |channel| && channel[..|CHANNEL_PREFIX|] == CHANNEL_PREFIX
  }

  /** The symbol part of an order-book channel name. */
  function ChannelSymbol(channel: string): string
    requires IsOrderBookChannel(channel)
  {
    channel[|CHANNEL_PREFIX|..]
  }

  /** Lowercasing keeps the length and maps each character on its own. */
  lemma {:induction false} LowercaseAt(s: string)
    ensures |ToLowercase(s)| == |s|
    ensures forall i :: 0 <= i < |s| ==> ToLowercase(s)[i] == Lower(s[i])
  {
    if s != [] {
      LowercaseAt(s[1..]);
    }
  }

  /** The channel is the prefix followed by the symbol, character by character
      lowercased, with nothing added, dropped or reordered; the event is fixed. */
  lemma SubscribeShape(symbol: string)
    ensures SubscribeFor(symbol).event == "bts:subscribe"
    ensures IsOrderBookChannel(SubscribeFor(symbol).channel)
    ensures |SubscribeFor(symbol).channel| == |"order_book_"| + |symbol|
    ensures forall i :: 0 <= i < |symbol| ==>
      SubscribeFor(symbol).channel[|CHANNEL_PREFIX| + i] == Lower(symbol[i])
    ensures forall i :: 0 <= i < |symbol| && !IsAsciiUpper(symbol[i]) ==>
      SubscribeFor(symbol).channel[|CHANNEL_PREFIX| + i] == symbol[i]
  {
    LowercaseAt(symbol);
  }

  /** Stripping the prefix from the channel gives back the lowercased symbol. */
  lemma ChannelRoundTrip(symbol: string)
    ensures IsOrderBookChannel(SubscribeFor(symbol).channel)
    ensures ChannelSymbol(SubscribeFor(symbol).channel) == ToLowercase(symbol)
  {
    var ch := SubscribeFor(symbol).channel;
    assert ch[..|CHANNEL_PREFIX|] == CHANNEL_PREFIX;
    assert ch[|CHANNEL_PREFIX|..] == ToLowercase(symbol);
  }

  /** Lowercasing is idempotent, so the channel holds no ASCII upper case letter. */
  lemma {:induction false} LowercaseIdempotent(s: string)
    ensures ToLowercase(ToLowercase(s)) == ToLowercase(s)
    ensures forall i :: 0 <= i < |ToLowercase(s)| ==> !IsAsciiUpper(ToLowercase(s)[i])
  {
    if s != [] {
      LowercaseIdempotent(s[1..]);
      assert ToLowercase(s)[1..] == ToLowercase(s[1..]);
    }
  }

  /** Two symbols select the same channel exactly when they differ only in case. */
  lemma SameChannelIffSameLowercase(a: string, b: string)
    ensures SubscribeFor(a) == SubscribeFor(b) <==> ToLowercase(a) == ToLowercase(b)
  {
    if SubscribeFor(a) == SubscribeFor(b) {
      ChannelRoundTrip(a);
      ChannelRoundTrip(b);
    }
  }

  /** The default symbol (src/main.rs:17) and an upper-case symbol. */
  lemma SubscribeExamples()
    ensures SubscribeFor("BTCUSD").channel == "order_book_btcusd"
    ensures SubscribeFor("btcusdt").channel == "order_book_btcusdt"
  {
    LowercaseAt("BTCUSD");
    LowercaseAt("btcusdt");
  }
}
