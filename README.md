# DW1000 ranging driver: a verified model

This project models the sequential core of a `no_std` Rust driver for the
DW1000 ultra-wideband transceiver and proves properties of it. The driver is
used for double-sided two-way ranging between nodes. The model covers:

- `util.rs` (module `Util`): `duration_between`, the forward distance between
  two readings of the chip's 40-bit system clock, modulo 2^40; and the
  `block_timeout!` loop, which checks a timer and then retries a non-blocking
  operation.
- `hl.rs` (module `Hl`): `send_raw` and `receive`, the ordered register
  writes that start a transmission or the receiver; and `TxFuture::wait` and
  `RxFuture::wait`, which read SYS_STATUS and turn its flags into "not yet",
  a typed error or success. On success they clear status flags, and the
  receive side copies the frame into the caller's buffer in place. The
  register bank is the class `Hl.Dw1000`. It holds the SYS_STATUS flags, the
  received frame's length (RX_FINFO.RXFLEN), the RX_BUFFER array and the
  sequence of register writes issued so far.
- `ranging.rs` (module `Ranging`): the Ping, Request and Response messages,
  their `initiate` constructors, their `recipient` and `tx_time` accessors,
  the `PRELUDE`, `PRELUDE_LEN` and `LEN` constants, `send` (prelude then
  serialized payload, built in a 48-byte scratch buffer) and `decode`.
- `lib.rs` (module `Lib`): the header byte of a register read, the
  zero-initialised register buffer of `impl_register!`, and the DEV_ID field
  accessors `ridtag`, `model`, `ver` and `rev`.

`wrappers.dfy` holds the integer widths (`u8` to `u64`, as Dafny newtypes,
so every `u64` step of `duration_between` is checked for overflow) and the
`Result`, `Option` and `nb::Result` types.

Modelling decisions:

- `TIME_MAX` is defined in the crate root, which is not part of this model.
  The doc comment of `duration_between` says the stamps are 40-bit, so the
  model takes `TIME_MAX` = 2^40 - 1.
- `Instant` and `Duration` are `u64`. Out-of-range stamps make
  `duration_between` panic, so being a 40-bit value is a precondition.
- SYS_STATUS flags are write-1-to-clear. A status write in the model
  records the write in the trace and removes the written flags from the
  status set.
- The two polling handles, `TxFuture` and `RxFuture`, only hold a mutable
  borrow of the low-level driver. Their `wait` methods are therefore
  methods of the register-bank class.
- Serialization by `ssmarshal` is modelled as fixed-order packing. Each
  payload field is a little-endian 8-byte unsigned value, and fields are
  written in declaration order.
- `time_from_delay(10_000_000)` reads the chip's clock. The instant it
  returns is a parameter of each `initiate` function.
- The `mac` module is not part of this model, so `mac::Address` is an
  opaque node address or `Broadcast`. `DW1000::send` with recipient and delayed
  instant is not part of this model either. `Ranging.Send` returns the three
  arguments it would hand to it.
- `block_timeout!` loops forever while both polls say `WouldBlock`. The model
  takes the timer's and the operation's successive results as two finite
  sequences. It returns `None` if the loop is still running when either
  sequence runs out.

Behaviour of the code that the model keeps as written:

- `decode` on a frame whose prelude matches but whose length is wrong
  returns `BufferTooSmall { required_len: LEN }`, even when the frame is
  longer than `LEN`. There is no separate framing error.
- When the caller's buffer is shorter than the frame, `RxFuture::wait` copies
  nothing. It does not copy a partial frame. The status-clearing write has
  already been issued by then.
- `send_raw` has no delayed-transmit instant. It always starts transmitting
  at once.
- The code shown contains no antenna-delay correction and no distance
  computation.

## Model

| member | source | states |
|---|---|---|
| Util.DurationBetween | src/util.rs:15-25 | for 40-bit inputs the result is at most TIME_MAX and is the modular difference: (earlier + d) mod 2^40 = later; computed in u64, the wrapped branch neither underflows nor overflows |
| Util.DurationBetweenUnique | src/util.rs:7-25 | any 40-bit d with (earlier + d) mod 2^40 = later is duration_between(earlier, later): it is exactly modular subtraction |
| Util.DurationBetweenForward | src/util.rs:19-20 | when later >= earlier the result is later - earlier |
| Util.DurationBetweenWrapped | src/util.rs:22-23 | when later < earlier the result is 2^40 - earlier + later (TIME_MAX - earlier + later + 1), and it is positive |
| Util.DurationBetweenSelf | src/util.rs:19-20 | duration_between(a, a) = 0 |
| Util.DurationBetweenAdditive | src/util.rs:7-25 | durations along one clock add up modulo 2^40, and exactly when the sum stays within TIME_MAX |
| Util.BlockTimeout | src/util.rs:33-60 | the loop's result is the outcome function of the timer and operation results it observes |
| Util.BlockTimeoutExpiry | src/util.rs:39-47 | if the timer expires at iteration k after k pending iterations, the result is Timeout, whatever the operation would have returned at k |
| Util.BlockTimeoutCompletes | src/util.rs:49-56 | with the timer still running, an operation Ok(r) at iteration k gives Ok(r) and Other(e) gives TimeoutError::Other(e); WouldBlock continues |
| Util.BlockTimeoutWitness | src/util.rs:39-57 | every finished loop stopped at an iteration k before which both polls were pending, on a timer expiry or on a non-WouldBlock operation result |
| Hl.FirstRxErrorIsFirst | src/hl.rs:198-219 | the classification reports the first listed error flag that is set, and nothing exactly when none is set |
| Hl.FirstRxErrorIgnoresUnlisted | src/hl.rs:220-224 | flags no check mentions cannot change the classification |
| Hl.BenignFlagsNeverReported | src/hl.rs:220-224 | setting or clearing LDEERR and RXPREJ never changes the receive classification |
| Hl.RxStatusErrorChain | src/hl.rs:199-219 | the priority table agrees with the chain RXFCE, RXPHE, RXRFSL, RXRFTO, RXOVRR, RXPTO, RXSFDTO |
| Hl.RxStatusError | src/hl.rs:199-219 | no error is reported exactly when none of the listed error flags is set, and a reported error is the error of a listed flag that is set |
| Hl.FcsErrorTakesPriority | src/hl.rs:199-201 | with RXFCE set the result is the FCS error, even if a frame is ready |
| Hl.TxFrameLengthIsFrameLength | src/hl.rs:60-62 | TFLEN = (data length + 2) mod 256, which is exactly the length plus the two CRC octets when that fits |
| Hl.TxFrameLength | src/hl.rs:60 | the TFLEN byte is the data length plus two CRC octets, modulo 256 |
| Hl.Dw1000.constructor | src/hl.rs:31-40 | a new driver has issued no register writes |
| Hl.Dw1000.SendRaw | src/hl.rs:50-82 | appends exactly TX_BUFFER := data, TX_FCTRL with TFLEN and the fixed link settings, then TXSTRT, in that order; status unchanged |
| Hl.Dw1000.Receive | src/hl.rs:85-149 | appends exactly softreset 0b1110, softreset 0b1111, PLLLDT, clear CPLOCK and CLKPLL_LL, DRX_TUNE2 = 0x311A002D, RXENAB, in that order; only CPLOCK and CLKPLL_LL leave SYS_STATUS |
| Hl.Dw1000.TxWait | src/hl.rs:158-183 | TXFRS clear: WouldBlock and nothing written; TXFRS set: one write clearing TXFRB, TXPRS, TXPHS, TXFRS, then Ok |
| Hl.Dw1000.RxWait | src/hl.rs:192-278 | the first error flag in priority order is reported with no write and the buffer untouched; no error and no RXDFR: WouldBlock, nothing changed; otherwise one write clears the receive flags, then a too-small buffer gives BufferTooSmall(rxflen) with the buffer unchanged, else Ok(rxflen) with buffer[..rxflen] = RX_BUFFER[..rxflen] and the rest of the buffer unchanged |
| Ranging.DataOf | src/ranging.rs:159-161 | the payload of a message has the message's own kind (likewise for Request and Response at 234-236 and 320-322) |
| Ranging.Recipient | src/ranging.rs:163-165 | a ping goes to the broadcast address; a request or response to its stored recipient (238-240, 324-326) |
| Ranging.TxTime | src/ranging.rs:167-169 | the transmission time of a ping or a request is the one in its payload (242-244); a response keeps its own (328-330) |
| Ranging.AccessorsDetermineMessage | src/ranging.rs:159-169 | two messages are equal if and only if their kind, data, recipient and tx_time agree |
| Ranging.PingInitiate | src/ranging.rs:142-170 | a ping is broadcast and sent at its ping_tx_time |
| Ranging.RequestInitiate | src/ranging.rs:197-244 | copies ping_tx_time and the recipient, is sent at request_tx_time, and ping_reply_time is the 40-bit forward duration from ping_rx_time to request_tx_time |
| Ranging.ResponseInitiate | src/ranging.rs:275-330 | copies ping_reply_time, request_tx_time and the recipient, is sent at tx_time, ping_round_trip_time is the forward duration from ping_tx_time to request_rx_time, and request_reply_time from request_rx_time to tx_time |
| Ranging.ResponseTimesSpanExchange | src/ranging.rs:288-297 | on the anchor's clock, round trip plus reply time equals the duration from ping to response modulo 2^40, and exactly when it fits |
| Ranging.ExchangeAcrossClockWrap | src/ranging.rs:208-310 | a full exchange with literal times whose anchor clock wraps gives the expected reply and round-trip times |
| Ranging.PreludeLenIsLength | src/ranging.rs:153-316 | each hand-written PRELUDE_LEN (12, 15, 16) is the length of its prelude |
| Ranging.MessageLenFitsScratch | src/ranging.rs:82-88 | LEN is 20, 39 and 48, so every message fits the 48-byte scratch buffer and the assert never fires |
| Ranging.PreludesDiffer | src/ranging.rs:153-316 | any two of the three preludes differ at a byte both of them have |
| Ranging.PreludesDistinguishable | src/ranging.rs:153-316 | no frame starts with two different preludes |
| Ranging.Decode | src/ranging.rs:102-122 | a decoded payload has the decoder's type and came from a frame exactly LEN bytes long |
| Ranging.DecodeForeignFrame | src/ranging.rs:103-107 | decode returns Ok(None) exactly when the frame does not start with the type's prelude, whatever its length |
| Ranging.DecodeWrongLength | src/ranging.rs:109-114 | with the prelude present and a length other than LEN, decode returns BufferTooSmall { required_len: LEN } |
| Ranging.DecodeErrorIsLength | src/ranging.rs:103-122 | decode fails only with that length error, and exactly in that case |
| Ranging.DecodeAcceptsExactlyEncoded | src/ranging.rs:90-121 | decode returns Ok(Some(d)) exactly for prelude followed by the serialized d of the decoder's type |
| Ranging.DecodeAtMostOneKind | src/ranging.rs:102-107 | of the Ping, Request and Response decoders, at most one answers anything but Ok(None) for a given frame |
| Ranging.DecodeAcceptsOutOfRangeInstant | src/ranging.rs:102-122 | a request frame whose ping_tx_time is TIME_MAX + 1 decodes successfully: decode does not check that instants are 40-bit |
| Ranging.SerializeRoundTrip | src/ranging.rs:116-121 | deserializing a serialized payload gives it back |
| Ranging.DeserializeRoundTrip | src/ranging.rs:116-121 | every payload-sized byte string is the serialization of what it deserializes to |
| Ranging.CopyInto | src/ranging.rs:90-91 | the bytes at start .. start + len(src) become src, and every other byte of the scratch buffer is unchanged |
| Ranging.Send | src/ranging.rs:77-100 | the frame handed on is the prelude followed by the serialized payload, LEN bytes long, decodes back to the message's payload, and goes to the message's recipient at its tx_time |
| Lib.ReadHeader | src/lib.rs:48-54 | the read header is the register ID modulo 64, with bit 7 (read) and bit 6 (sub-index) clear |
| Lib.NewRegisterBuffer | src/lib.rs:92-105 | a register buffer has LEN + 1 bytes (one for the header) and starts all zero |
| Lib.Ridtag | src/lib.rs:121-124 | ridtag = byte4 * 256 + byte3, and both bytes can be read back from it |
| Lib.Ver | src/lib.rs:131-134 | ver is below 16 and is byte1 / 16 |
| Lib.Rev | src/lib.rs:136-139 | rev is below 16 and is byte1 mod 16 |
| Lib.DevIdFieldsDetermineRegister | src/lib.rs:120-139 | ver * 16 + rev = byte1, model = byte2, and the four fields give back bytes 1 to 4 of the register |
| Lib.DevIdExample | src/lib.rs:148-156 | DEV_ID [0x00, 0x30, 0x01, 0xca, 0xde] has rev 0, ver 3, model 1 and ridtag 0xDECA |

## Left out

- Ranging.ResponseInitiate: requires its instants to be 40-bit, because `duration_between` panics otherwise. `decode` never checks this for the instants it reads from a frame (Ranging.DecodeAcceptsOutOfRangeInstant), so the panic a malformed request causes in `Response::initiate` is a precondition here, not an error path.
- The SPI transport, the chip-select pin and the nrf52 HAL types are left out (`spim.read` in `lib.rs`, the `hal::` imports). The register bank never fails, so `Error::Spi` is a variant of `Hl.Error` that the model never produces. Each `?` after a register access follows its success path.
- The SPI read that fills a register buffer in `read` is left out. Only the header byte and the buffer's size and initial contents are modelled.
- The register table and the generated bit-field accessors are in a module that is not part of this model. Status flags are members of a set of named flags. TX_FCTRL is a record of the values the driver writes. RX_BUFFER's 1024 bytes and RXFLEN's 7 bits come from the DW1000 user manual.
- Hl.Dw1000.SendRaw: `data.len() as u8 + 2` panics in a debug build when the length is 254 or 255 modulo 256. The model follows the release build, where the sum wraps. How the generated TX_BUFFER writer treats data longer than the register is not modelled.
- The hardware sets status flags by itself between polls. The model does not describe this. Callers set the `status` field before a poll.
- The `time_from_delay` call and hardware clock reads are left out. The instant they give is a parameter.
- `DW1000::send` with recipient and delay, the `mac` module and the `Ready` type-state are not part of this model. `Ranging.Send` stops at the arguments it would pass.
- The library behaviour of `ssmarshal` is left out, including its error cases. Serialization is a fixed little-endian packing of the `u64` fields. Its error path cannot arise here, because the scratch buffer always has room.
- Lifetimes and exclusive borrows of `TxFuture`/`RxFuture` are Rust ownership rules, not behaviour. The only trace of them is that the caller's receive buffer must be distinct from RX_BUFFER.
- Double-sided two-way-ranging distance computation and antenna-delay correction are not in the source files modelled, so nothing of them is modelled.
- `examples/uarte_heapless_string.rs` is left out: it is board I/O (LED, timer delay, UART).
- Util.BlockTimeout: the loop can run without end. The model sees finite sequences of poll results and reports `None` when they run out before the loop ends. The timer's `unreachable!()` error has no counterpart.
