/** Double-sided two-way ranging messages: the Ping, Request and Response
    frames, how they are built from the time stamps of the exchange, how they
    are laid out on the wire (prelude, then the fields of the payload), and
    how a received frame is recognised and decoded. */
module Ranging {
  import opened Wrappers
  import opened Util
  import Hl

  /** A 40-bit system time stamp, carried in 64 bits. */
  type Instant = u64

  /** A number of system clock ticks, carried in 64 bits. */
  type Duration = u64

  /** A MAC address; the MAC layer is not part of this model, so apart from
      the broadcast address an address only identifies a node. */
  datatype Address = Broadcast | Node(id: nat)

  /** The three message types. */
  datatype MessageKind = PingKind | RequestKind | ResponseKind

  /** A ranging ping, sent regularly by anchors. It is its own payload. */
  datatype Ping = Ping(ping_tx_time: Instant)

  /** The payload of a ranging request, sent by tags in reply to a ping. */
  datatype RequestData = RequestData(
    ping_tx_time: Instant,
    ping_reply_time: Duration,
    request_tx_time: Instant)

  /** The payload of a ranging response, sent by anchors in reply to a request. */
  datatype ResponseData = ResponseData(
    ping_reply_time: Duration,
    ping_round_trip_time: Duration,
    request_tx_time: Instant,
    request_reply_time: Duration)

  datatype Request = Request(recipient: Address, data: RequestData)

  datatype Response = Response(recipient: Address, tx_time: Instant, data: ResponseData)

  /** The payload of any of the three messages (`Message::Data`). */
  datatype Data = PingPayload(ping: Ping) | RequestPayload(request: RequestData) | ResponsePayload(response: ResponseData)

  /** Any of the three messages. */
  datatype Message = PingMessage(ping: Ping) | RequestMessage(req: Request) | ResponseMessage(resp: Response)

  function KindOfData(d: Data): MessageKind {
    match d
    case PingPayload(_) => PingKind
    case RequestPayload(_) => RequestKind
    case ResponsePayload(_) => ResponseKind
  }

  function KindOf(m: Message): MessageKind {
    match m
    case PingMessage(_) => PingKind
    case RequestMessage(_) => RequestKind
    case ResponseMessage(_) => ResponseKind
  }

  /** `Message::data` */
  function DataOf(m: Message): (d: Data)
    ensures KindOfData(d) == KindOf(m)
  {
    match m
    case PingMessage(p) => PingPayload(p)
    case RequestMessage(r) => RequestPayload(r.data)
    case ResponseMessage(r) => ResponsePayload(r.data)
  }

  /** `Message::recipient`: pings are broadcast, the others go to a given node. */
  function Recipient(m: Message): (a: Address)
    ensures m.PingMessage? ==> a == Broadcast
  {
    match m
    case PingMessage(_) => Broadcast
    case RequestMessage(r) => r.recipient
    case ResponseMessage(r) => r.recipient
  }

  /** `Message::tx_time`: the instant the message is scheduled to be sent.
      A ping and a request carry it in their payload; a response does not. */
  function TxTime(m: Message): (t: Instant)
    ensures DataOf(m).PingPayload? ==> t == DataOf(m).ping.ping_tx_time
    ensures DataOf(m).RequestPayload? ==> t == DataOf(m).request.request_tx_time
  {
    match m
    case PingMessage(p) => p.ping_tx_time
    case RequestMessage(r) => r.data.request_tx_time
    case ResponseMessage(r) => r.tx_time
  }

  /** The accessors lose nothing: two messages with the same kind, payload,
      recipient and transmission time are the same message. */
  lemma AccessorsDetermineMessage(m1: Message, m2: Message)
    ensures m1 == m2 <==>
      (KindOf(m1) == KindOf(m2) && DataOf(m1) == DataOf(m2) &&
       Recipient(m1) == Recipient(m2) && TxTime(m1) == TxTime(m2))
  {
  }

  // ---------------------------------------------------------------------
  // Building the messages
  // ---------------------------------------------------------------------

  /** `Ping::initiate`; `txTime` is the instant `time_from_delay(10_000_000)`
      returned. */
  function PingInitiate(txTime: Instant): (m: Message)
    ensures m.PingMessage? && TxTime(m) == txTime && Recipient(m) == Broadcast
  {
    PingMessage(Ping(txTime))
  }

  /** `Request::initiate` after receiving a ping sent at `ping_tx_time` (on the
      anchor's clock) at `ping_rx_time` (on this node's clock);
      `request_tx_time` is the instant `time_from_delay(10_000_000)` returned. */
  function RequestInitiate(ping_tx_time: Instant, ping_rx_time: Instant, recipient: Address,
                           request_tx_time: Instant): (m: Message)
    requires IsTimestamp(ping_rx_time) && IsTimestamp(request_tx_time)
    ensures m.RequestMessage? && Recipient(m) == recipient && TxTime(m) == request_tx_time
    ensures m.req.data.ping_tx_time == ping_tx_time
    ensures m.req.data.request_tx_time == request_tx_time
    ensures m.req.data.ping_reply_time <= TIME_MAX
    ensures (ping_rx_time as int + m.req.data.ping_reply_time as int) % TIME_MODULUS == request_tx_time as int
  {
    var ping_reply_time := DurationBetween(ping_rx_time, request_tx_time);
    RequestMessage(Request(recipient, RequestData(ping_tx_time, ping_reply_time, request_tx_time)))
  }

  /** `Response::initiate` after receiving a request sent at `request_tx_time`
      (on the tag's clock) at `request_rx_time` (on this node's clock), for a
      ping this node sent at `ping_tx_time`; `tx_time` is the instant
      `time_from_delay(10_000_000)` returned. */
  function ResponseInitiate(ping_tx_time: Instant, ping_reply_time: Duration, request_tx_time: Instant,
                            request_rx_time: Instant, recipient: Address, tx_time: Instant): (m: Message)
    requires IsTimestamp(ping_tx_time) && IsTimestamp(request_rx_time) && IsTimestamp(tx_time)
    ensures m.ResponseMessage? && Recipient(m) == recipient && TxTime(m) == tx_time
    ensures m.resp.data.ping_reply_time == ping_reply_time
    ensures m.resp.data.request_tx_time == request_tx_time
    ensures m.resp.data.ping_round_trip_time <= TIME_MAX && m.resp.data.request_reply_time <= TIME_MAX
    ensures (ping_tx_time as int + m.resp.data.ping_round_trip_time as int) % TIME_MODULUS == request_rx_time as int
    ensures (request_rx_time as int + m.resp.data.request_reply_time as int) % TIME_MODULUS == tx_time as int
  {
    var ping_round_trip_time := DurationBetween(ping_tx_time, request_rx_time);
    var request_reply_time := DurationBetween(request_rx_time, tx_time);
    ResponseMessage(Response(recipient, tx_time,
      ResponseData(ping_reply_time, ping_round_trip_time, request_tx_time, request_reply_time)))
  }

  /** On the anchor's clock the round trip of the ping and the reply time of
      the request add up to the time from sending the ping to sending the
      response (modulo 2^40, and exactly when that sum stays in range). */
  lemma ResponseTimesSpanExchange(ping_tx_time: Instant, ping_reply_time: Duration, request_tx_time: Instant,
                                  request_rx_time: Instant, recipient: Address, tx_time: Instant)
    requires IsTimestamp(ping_tx_time) && IsTimestamp(request_rx_time) && IsTimestamp(tx_time)
    ensures var d := ResponseInitiate(ping_tx_time, ping_reply_time, request_tx_time,
                                      request_rx_time, recipient, tx_time).resp.data;
      (d.ping_round_trip_time as int + d.request_reply_time as int) % TIME_MODULUS
        == DurationBetween(ping_tx_time, tx_time) as int &&
      (d.ping_round_trip_time as int + d.request_reply_time as int <= TIME_MAX as int ==>
        d.ping_round_trip_time + d.request_reply_time == DurationBetween(ping_tx_time, tx_time))
  {
    DurationBetweenAdditive(ping_tx_time, request_rx_time, tx_time);
  }

  /** One exchange with literal clock readings, the anchor's clock wrapping
      between its ping and the request's arrival: the anchor pings at
      TIME_MAX - 99, the tag receives the ping at 5000 and replies at
      10_005_000, the anchor receives the request at 10_001_900 (after the
      wrap) and responds at 20_001_900. */
  lemma ExchangeAcrossClockWrap()
    ensures var ping := PingInitiate(TIME_MAX - 99);
      var req := RequestInitiate(TxTime(ping), 5_000, Node(2), 10_005_000);
      var resp := ResponseInitiate(req.req.data.ping_tx_time, req.req.data.ping_reply_time,
                                   req.req.data.request_tx_time, 10_001_900, Node(1), 20_001_900);
      req.req.data.ping_tx_time == TIME_MAX - 99 &&
      req.req.data.ping_reply_time == 10_000_000 &&
      resp.resp.data.ping_reply_time == 10_000_000 &&
      resp.resp.data.ping_round_trip_time == 10_002_000 &&
      resp.resp.data.request_tx_time == 10_005_000 &&
      resp.resp.data.request_reply_time == 10_000_000
  {
  }

  // ---------------------------------------------------------------------
  // Wire layout
  // ---------------------------------------------------------------------

  /** The bytes of an ASCII byte-string literal. */
  function Ascii(s: string): (b: seq<u8>)
    requires forall i :: 0 <= i < |s| ==> s[i] as int < 128
    ensures |b| == |s|
  {
    seq(|s|, i requires 0 <= i < |s| => s[i] as int as u8)
  }

  const PING_PRELUDE: seq<u8> := Ascii("RANGING PING")
  const REQUEST_PRELUDE: seq<u8> := Ascii("RANGING REQUEST")
  const RESPONSE_PRELUDE: seq<u8> := Ascii("RANGING RESPONSE")

  /** `Message::PRELUDE`: the tag that identifies a message's type. */
  function Prelude(k: MessageKind): seq<u8> {
    match k
    case PingKind => PING_PRELUDE
    case RequestKind => REQUEST_PRELUDE
    case ResponseKind => RESPONSE_PRELUDE
  }

  /** `Message::PRELUDE_LEN`, written by hand in each implementation. */
  function PreludeLen(k: MessageKind): nat {
    match k
    case PingKind => 12
    case RequestKind => 15
    case ResponseKind => 16
  }

  /** The number of 64-bit fields of a message's payload. */
  function FieldCount(k: MessageKind): nat {
    match k
    case PingKind => 1
    case RequestKind => 3
    case ResponseKind => 4
  }

  /** `size_of::<Data>()`: every field is a `u64`, so there is no padding. */
  function DataSize(k: MessageKind): nat {
    8 * FieldCount(k)
  }

  /** `Message::LEN`: prelude and payload. */
  function Len(k: MessageKind): nat {
    PreludeLen(k) + DataSize(k)
  }

  /** The size of the scratch buffer `send` encodes into. */
  const SCRATCH_LEN: nat := 48

  /** The hand-written PRELUDE_LEN constants are the lengths of the preludes. */
  lemma PreludeLenIsLength(k: MessageKind)
    ensures |Prelude(k)| == PreludeLen(k)
  {
  }

  /** The message lengths, and that each fits the 48-byte scratch buffer
      (the `assert!` in `send` never fires). */
  lemma MessageLenFitsScratch(k: MessageKind)
    ensures Len(PingKind) == 20 && Len(RequestKind) == 39 && Len(ResponseKind) == 48
    ensures Len(k) <= SCRATCH_LEN
  {
  }

  /** `buf.starts_with(prefix)`; false when `buf` is shorter than `prefix`. */
  predicate StartsWith(buf: seq<u8>, prefix: seq<u8>) {
    |prefix| <= |buf| && buf[..|prefix|] == prefix
  }

  /** Any two preludes differ at a byte both of them have. */
  lemma PreludesDiffer(k1: MessageKind, k2: MessageKind) returns (i: nat)
    requires k1 != k2
    ensures i < |Prelude(k1)| && i < |Prelude(k2)| && Prelude(k1)[i] != Prelude(k2)[i]
  {
    assert PING_PRELUDE[8] == 'P' as int as u8 && REQUEST_PRELUDE[8] == 'R' as int as u8;
    assert RESPONSE_PRELUDE[8] == 'R' as int as u8;
    assert REQUEST_PRELUDE[10] == 'Q' as int as u8 && RESPONSE_PRELUDE[10] == 'S' as int as u8;
    i := if k1 == PingKind || k2 == PingKind then 8 else 10;
  }

  /** No prelude is a prefix of another, so no frame starts with two of them. */
  lemma PreludesDistinguishable(k1: MessageKind, k2: MessageKind, buf: seq<u8>)
    requires k1 != k2
    ensures !(StartsWith(buf, Prelude(k1)) && StartsWith(buf, Prelude(k2)))
  {
    var i := PreludesDiffer(k1, k2);
    if StartsWith(buf, Prelude(k1)) && |Prelude(k2)| <= |buf| {
      assert buf[i] == buf[..|Prelude(k1)|][i] == Prelude(k1)[i];
      assert buf[..|Prelude(k2)|][i] == buf[i];
    }
  }

  /** Little-endian encoding of `x` in `n` bytes. */
  function EncodeLE(x: nat, n: nat): (b: seq<u8>)
    ensures |b| == n
  {
    if n == 0 then [] else [(x % 0x100) as u8] + EncodeLE(x / 0x100, n - 1)
  }

  /** The number a little-endian byte sequence encodes. */
  function DecodeLE(b: seq<u8>): nat {
    if b == [] then 0 else b[0] as nat + 0x100 * DecodeLE(b[1..])
  }

  function Pow256(n: nat): nat {
    if n == 0 then 1 else 0x100 * Pow256(n - 1)
  }

  /** Decoding inverts encoding for every value that fits in `n` bytes. */
  lemma {:induction false} DecodeEncodeLE(x: nat, n: nat)
    requires x < Pow256(n)
    ensures DecodeLE(EncodeLE(x, n)) == x
  {
    if n > 0 {
      var b := EncodeLE(x, n);
      assert b[1..] == EncodeLE(x / 0x100, n - 1);
      DecodeEncodeLE(x / 0x100, n - 1);
    }
  }

  /** Encoding inverts decoding: every byte sequence is the encoding of its value. */
  lemma {:induction false} EncodeDecodeLE(b: seq<u8>)
    ensures DecodeLE(b) < Pow256(|b|)
    ensures EncodeLE(DecodeLE(b), |b|) == b
  {
    if b != [] {
      EncodeDecodeLE(b[1..]);
      var x := DecodeLE(b);
      assert x % 0x100 == b[0] as nat && x / 0x100 == DecodeLE(b[1..]);
    }
  }

  /** The serialized form of one `u64` field. */
  function EncodeU64(x: u64): (b: seq<u8>)
    ensures |b| == 8
  {
    EncodeLE(x as nat, 8)
  }

  /** The `u64` field read back from its 8 bytes. */
  function DecodeU64(b: seq<u8>): u64
    requires |b| == 8
  {
    EncodeDecodeLE(b);
    DecodeLE(b) as u64
  }

  lemma U64RoundTrip(x: u64)
    ensures DecodeU64(EncodeU64(x)) == x
  {
    DecodeEncodeLE(x as nat, 8);
  }

  lemma U64BytesRoundTrip(b: seq<u8>)
    requires |b| == 8
    ensures EncodeU64(DecodeU64(b)) == b
  {
    EncodeDecodeLE(b);
  }

  /** Serialized fields, one after the other. */
  function EncodeFields(fs: seq<u64>): (b: seq<u8>)
    ensures |b| == 8 * |fs|
  {
    if fs == [] then [] else EncodeU64(fs[0]) + EncodeFields(fs[1..])
  }

  /** Fields read back from consecutive 8-byte groups. */
  function DecodeFields(b: seq<u8>): (fs: seq<u64>)
    requires |b| % 8 == 0
    ensures 8 * |fs| == |b|
  {
    if b == [] then [] else [DecodeU64(b[..8])] + DecodeFields(b[8..])
  }

  lemma {:induction false} FieldsRoundTrip(fs: seq<u64>)
    ensures DecodeFields(EncodeFields(fs)) == fs
  {
    if fs != [] {
      var b := EncodeFields(fs);
      assert b[..8] == EncodeU64(fs[0]) && b[8..] == EncodeFields(fs[1..]);
      U64RoundTrip(fs[0]);
      FieldsRoundTrip(fs[1..]);
    }
  }

  lemma {:induction false} FieldBytesRoundTrip(b: seq<u8>)
    requires |b| % 8 == 0
    ensures EncodeFields(DecodeFields(b)) == b
  {
    if b != [] {
      var fs := DecodeFields(b);
      assert fs[0] == DecodeU64(b[..8]) && fs[1..] == DecodeFields(b[8..]);
      U64BytesRoundTrip(b[..8]);
      FieldBytesRoundTrip(b[8..]);
      assert b == b[..8] + b[8..];
    }
  }

  /** The payload's fields in declaration order. */
  function Fields(d: Data): (fs: seq<u64>)
    ensures |fs| == FieldCount(KindOfData(d))
  {
    match d
    case PingPayload(p) => [p.ping_tx_time]
    case RequestPayload(r) => [r.ping_tx_time, r.ping_reply_time, r.request_tx_time]
    case ResponsePayload(r) => [r.ping_reply_time, r.ping_round_trip_time, r.request_tx_time, r.request_reply_time]
  }

  /** The payload of type `k` with the given fields in declaration order. */
  function FromFields(k: MessageKind, fs: seq<u64>): (d: Data)
    requires |fs| == FieldCount(k)
    ensures KindOfData(d) == k
  {
    match k
    case PingKind => PingPayload(Ping(fs[0]))
    case RequestKind => RequestPayload(RequestData(fs[0], fs[1], fs[2]))
    case ResponseKind => ResponsePayload(ResponseData(fs[0], fs[1], fs[2], fs[3]))
  }

  /** Serializing a payload: its fields as consecutive little-endian `u64`s. */
  function Serialize(d: Data): (b: seq<u8>)
    ensures |b| == DataSize(KindOfData(d))
  {
    EncodeFields(Fields(d))
  }

  /** Deserializing a payload of type `k` from exactly its size in bytes. */
  function Deserialize(k: MessageKind, b: seq<u8>): (d: Data)
    requires |b| == DataSize(k)
    ensures KindOfData(d) == k
  {
    FromFields(k, DecodeFields(b))
  }

  lemma SerializeRoundTrip(d: Data)
    ensures Deserialize(KindOfData(d), Serialize(d)) == d
  {
    FieldsRoundTrip(Fields(d));
  }

  lemma DeserializeRoundTrip(k: MessageKind, b: seq<u8>)
    requires |b| == DataSize(k)
    ensures Serialize(Deserialize(k, b)) == b
  {
    var fs := DecodeFields(b);
    assert Fields(FromFields(k, fs)) == fs;
    FieldBytesRoundTrip(b);
  }

  // ---------------------------------------------------------------------
  // Decoding and sending
  // ---------------------------------------------------------------------

  /** `Message::decode` for messages of type `k`: a frame without this type's
      prelude is not one of them (`Ok(None)`); one with the prelude but the
      wrong length is refused; otherwise the payload after the prelude is
      deserialized. */
  function Decode(k: MessageKind, buf: seq<u8>): (r: Result<Option<Data>, Hl.Error>)
    ensures r.Ok? && r.value.Some? ==> KindOfData(r.value.value) == k && |buf| == Len(k)
  {
    if !StartsWith(buf, Prelude(k)) then
      Ok(None)
    else if |buf| != Len(k) then
      Err(Hl.BufferTooSmall(Len(k)))
    else
      PreludeLenIsLength(k);
      Ok(Some(Deserialize(k, buf[|Prelude(k)|..])))
  }

  /** A frame that does not start with the prelude is never this type's,
      whatever its length. */
  lemma DecodeForeignFrame(k: MessageKind, buf: seq<u8>)
    ensures Decode(k, buf) == Ok(None) <==> !StartsWith(buf, Prelude(k))
  {
  }

  /** A frame with the prelude but the wrong length is refused with the
      expected length, before anything is deserialized. */
  lemma DecodeWrongLength(k: MessageKind, buf: seq<u8>)
    requires StartsWith(buf, Prelude(k)) && |buf| != Len(k)
    ensures Decode(k, buf) == Err(Hl.BufferTooSmall(Len(k)))
  {
  }

  /** Decode only ever fails with the length error. */
  lemma DecodeErrorIsLength(k: MessageKind, buf: seq<u8>)
    ensures Decode(k, buf).Err? <==> StartsWith(buf, Prelude(k)) && |buf| != Len(k)
    ensures Decode(k, buf).Err? ==> Decode(k, buf).error == Hl.BufferTooSmall(Len(k))
  {
  }

  /** Decode accepts exactly the frames `send` produces: prelude, then the
      serialized payload of this type. */
  lemma DecodeAcceptsExactlyEncoded(k: MessageKind, buf: seq<u8>, d: Data)
    ensures Decode(k, buf) == Ok(Some(d)) <==> KindOfData(d) == k && buf == Prelude(k) + Serialize(d)
  {
    PreludeLenIsLength(k);
    if Decode(k, buf) == Ok(Some(d)) {
      DeserializeRoundTrip(k, buf[|Prelude(k)|..]);
      assert buf == buf[..|Prelude(k)|] + buf[|Prelude(k)|..];
    }
    if KindOfData(d) == k && buf == Prelude(k) + Serialize(d) {
      assert buf[..|Prelude(k)|] == Prelude(k);
      assert buf[|Prelude(k)|..] == Serialize(d);
      SerializeRoundTrip(d);
    }
  }

  /** A frame is claimed by at most one message type: trying all three
      decoders, at most one answers anything but `Ok(None)`. */
  lemma DecodeAtMostOneKind(k1: MessageKind, k2: MessageKind, buf: seq<u8>)
    requires k1 != k2
    ensures Decode(k1, buf) == Ok(None) || Decode(k2, buf) == Ok(None)
  {
    PreludesDistinguishable(k1, k2, buf);
  }

  /** Decoding does not check that instants are 40-bit: a request whose
      ping_tx_time is TIME_MAX + 1 decodes, and `Response::initiate` on it
      would then violate the precondition of `duration_between`. */
  lemma DecodeAcceptsOutOfRangeInstant()
    ensures var d := RequestPayload(RequestData(TIME_MAX + 1, 0, 0));
      Decode(RequestKind, Prelude(RequestKind) + Serialize(d)) == Ok(Some(d)) &&
      !IsTimestamp(d.request.ping_tx_time)
  {
    var d := RequestPayload(RequestData(TIME_MAX + 1, 0, 0));
    DecodeAcceptsExactlyEncoded(RequestKind, Prelude(RequestKind) + Serialize(d), d);
  }

  /** The arguments `send` hands to `DW1000::send`: the frame, its recipient,
      and the instant the transmission is delayed to. */
  datatype TxRequest = TxRequest(frame: seq<u8>, recipient: Address, txTime: Option<Instant>)

  /** Copy `src` into `buf` from index `start` on: `copy_from_slice` for the
      prelude, and the byte-by-byte output of serialization for the payload. */
  method CopyInto(buf: array<u8>, start: nat, src: seq<u8>)
    requires start + |src| <= buf.Length
    modifies buf
    ensures buf[..start] == old(buf[..start])
    ensures buf[start..start + |src|] == src
    ensures buf[start + |src|..] == old(buf[start + |src|..])
  {
    for j := 0 to |src|
      invariant buf[..start] == old(buf[..start])
      invariant buf[start..start + j] == src[..j]
      invariant buf[start + |src|..] == old(buf[start + |src|..])
    {
      buf[start + j] := src[j];
    }
  }

  /** `Message::send`: write the prelude into a 48-byte scratch buffer,
      serialize the payload right after it, and send the first LEN bytes to
      the message's recipient at its transmission time. */
  method Send(m: Message) returns (req: TxRequest)
    ensures req.frame == Prelude(KindOf(m)) + Serialize(DataOf(m))
    ensures |req.frame| == Len(KindOf(m))
    ensures req.recipient == Recipient(m) && req.txTime == Some(TxTime(m))
    ensures Decode(KindOf(m), req.frame) == Ok(Some(DataOf(m)))
  {
    var k := KindOf(m);
    MessageLenFitsScratch(k);   // the message fits in the scratch buffer
    PreludeLenIsLength(k);
    var buf := new u8[SCRATCH_LEN](_ => 0);
    var prelude := Prelude(k);
    var n := |prelude|;
    CopyInto(buf, 0, prelude);
    assert buf[..n] == prelude;
    // The tail after the prelude always has room for the payload, so
    // serialization cannot fail.
    var payload := Serialize(DataOf(m));
    CopyInto(buf, n, payload);
    assert buf[..n] == prelude;
    var frame := buf[..Len(k)];
    assert frame == buf[..n] + buf[n..n + |payload|];
    req := TxRequest(frame, Recipient(m), Some(TxTime(m)));
    DecodeAcceptsExactlyEncoded(k, req.frame, DataOf(m));
  }
}
