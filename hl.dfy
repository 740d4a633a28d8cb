/** The high-level DW1000 interface: starting a transmission or the receiver
    by an ordered series of register accesses, and polling SYS_STATUS until
    the operation completes. */
module Hl {
  import opened Wrappers

  /** The opaque error of the SPI bus driver. */
  datatype SpiError = SpiError(code: nat)

  /** An error that can occur when sending or receiving data. */
  datatype Error =
    | Spi(spi: SpiError)
    | Fcs
    | Phy
    | BufferTooSmall(required_len: nat)
    | ReedSolomon
    | FrameWaitTimeout
    | Overrun
    | PreambleDetectionTimeout
    | SfdTimeout

  /** The SYS_STATUS flags the driver reads or clears. */
  datatype StatusFlag =
    // PLL flags, cleared when the receiver is started
    | CpLock | ClkPllLl
    // transmit progress
    | TxFrb | TxPrs | TxPhs | TxFrs
    // receive progress
    | RxPrd | RxSfdd | LdeDone | RxPhd | RxDfr | RxFcg | RxRscs
    // receive errors the driver reports
    | RxFce | RxPhe | RxRfsl | RxRfto | RxOvrr | RxPto | RxSfdto
    // receive errors the driver deliberately ignores
    | LdeErr | RxPrej

  /** The receive error flags in the order they are checked, each with the
      error it is reported as. */
  const RX_ERROR_CHECKS: seq<(StatusFlag, Error)> := [
    (RxFce, Fcs),
    (RxPhe, Phy),
    (RxRfsl, ReedSolomon),
    (RxRfto, FrameWaitTimeout),
    (RxOvrr, Overrun),
    (RxPto, PreambleDetectionTimeout),
    (RxSfdto, SfdTimeout)
  ]

  /** The flags that sound like errors but occur on good frames. */
  const BENIGN_RX_FLAGS: set<StatusFlag> := {LdeErr, RxPrej}

  /** The progress flags cleared once a frame has been sent. */
  const TX_CLEAR: set<StatusFlag> := {TxFrb, TxPrs, TxPhs, TxFrs}

  /** The flags cleared once a frame has been received. */
  const RX_CLEAR: set<StatusFlag> := {
    RxPrd, RxSfdd, LdeDone, RxPhd, RxPhe, RxDfr, RxFcg, RxFce,
    RxRfsl, RxRfto, LdeErr, RxOvrr, RxPto, RxSfdto, RxRscs, RxPrej
  }

  /** The flags that need PLLLDT to be set to work reliably. */
  const PLL_CLEAR: set<StatusFlag> := {CpLock, ClkPllLl}

  /** DRX_TUNE2 setting for PAC size 8 at 16 MHz PRF. */
  const DRX_TUNE2_PAC8_PRF16: u32 := 0x311A002D

  /** Size of the RX_BUFFER register in bytes. */
  const RX_BUFFER_LEN: nat := 1024

  /** RXFLEN is a 7-bit field of RX_FINFO. */
  const RXFLEN_MAX: nat := 127

  /** The fields written to TX_FCTRL. */
  datatype TxFctrl = TxFctrl(
    tflen: u8, tfle: u8, txbr: u8, tr: u8, txprf: u8,
    txpsr: u8, pe: u8, txboffs: u16, ifsdelay: u8)

  /** One write or read-modify-write of a register, as the driver issues it. */
  datatype Access =
    | WriteTxBuffer(data: seq<u8>)
    | WriteTxFctrl(fctrl: TxFctrl)
    | ModifySysCtrlTxStrt
    | ModifyPmscCtrl0SoftReset(softreset: u8)
    | ModifyEcCtrlPllldt
    | WriteSysStatus(clear: set<StatusFlag>)
    | WriteDrxTune2(value: u32)
    | ModifySysCtrlRxEnab

  /** The first receive error flag set in `status`, in the order of `checks`. */
  function FirstRxError(status: set<StatusFlag>, checks: seq<(StatusFlag, Error)>): Option<Error>
  {
    if checks == [] then None
    else if checks[0].0 in status then Some(checks[0].1)
    else FirstRxError(status, checks[1..])
  }

  /** The error the receiver reports for a SYS_STATUS value, if any. */
  function RxStatusError(status: set<StatusFlag>): (e: Option<Error>)
    ensures e.None? <==> forall i :: 0 <= i < |RX_ERROR_CHECKS| ==> RX_ERROR_CHECKS[i].0 !in status
    ensures e.Some? ==> exists i :: 0 <= i < |RX_ERROR_CHECKS| && RX_ERROR_CHECKS[i].0 in status &&
                                    e.value == RX_ERROR_CHECKS[i].1
  {
    FirstRxErrorIsFirst(status, RX_ERROR_CHECKS);
    FirstRxError(status, RX_ERROR_CHECKS)
  }

  /** FirstRxError reports exactly the earliest listed flag that is set. */
  lemma {:induction false} FirstRxErrorIsFirst(status: set<StatusFlag>, checks: seq<(StatusFlag, Error)>)
    ensures FirstRxError(status, checks).None? <==> forall i :: 0 <= i < |checks| ==> checks[i].0 !in status
    ensures FirstRxError(status, checks).Some? ==>
      exists i :: 0 <= i < |checks| && checks[i].0 in status && FirstRxError(status, checks).value == checks[i].1 &&
        forall j :: 0 <= j < i ==> checks[j].0 !in status
  {
    if checks != [] && checks[0].0 !in status {
      FirstRxErrorIsFirst(status, checks[1..]);
      if FirstRxError(status, checks).Some? {
        var i :| 0 <= i < |checks[1..]| && checks[1..][i].0 in status &&
          FirstRxError(status, checks[1..]).value == checks[1..][i].1 &&
          forall j :: 0 <= j < i ==> checks[1..][j].0 !in status;
        assert checks[i + 1] == checks[1..][i];
        forall j | 0 <= j < i + 1 ensures checks[j].0 !in status {
          if j > 0 { assert checks[j] == checks[1..][j - 1]; }
        }
      } else {
        forall i | 0 <= i < |checks| ensures checks[i].0 !in status {
          if i > 0 { assert checks[i] == checks[1..][i - 1]; }
        }
      }
    }
  }

  /** Flags that no check mentions never change the classification. */
  lemma {:induction false} FirstRxErrorIgnoresUnlisted(status: set<StatusFlag>, extra: set<StatusFlag>,
                                                       checks: seq<(StatusFlag, Error)>)
    requires forall i :: 0 <= i < |checks| ==> checks[i].0 !in extra
    ensures FirstRxError(status + extra, checks) == FirstRxError(status - extra, checks)
  {
    if checks != [] {
      assert checks[0].0 !in extra;
      forall i | 0 <= i < |checks[1..]| ensures checks[1..][i].0 !in extra {
        assert checks[1..][i] == checks[i + 1];
      }
      FirstRxErrorIgnoresUnlisted(status, extra, checks[1..]);
    }
  }

  /** LDEERR and RXPREJ never cause or prevent an error result. */
  lemma BenignFlagsNeverReported(status: set<StatusFlag>)
    ensures RxStatusError(status + BENIGN_RX_FLAGS) == RxStatusError(status)
    ensures RxStatusError(status - BENIGN_RX_FLAGS) == RxStatusError(status)
  {
    FirstRxErrorIgnoresUnlisted(status, BENIGN_RX_FLAGS, RX_ERROR_CHECKS);
    var present := BENIGN_RX_FLAGS * status;
    FirstRxErrorIgnoresUnlisted(status, present, RX_ERROR_CHECKS);
    assert status + present == status;
    assert status - present == status - BENIGN_RX_FLAGS;
  }

  /** RxStatusError spelled out as the chain of checks the receiver makes. */
  lemma RxStatusErrorChain(status: set<StatusFlag>)
    ensures RxStatusError(status) ==
      if RxFce in status then Some(Fcs)
      else if RxPhe in status then Some(Phy)
      else if RxRfsl in status then Some(ReedSolomon)
      else if RxRfto in status then Some(FrameWaitTimeout)
      else if RxOvrr in status then Some(Overrun)
      else if RxPto in status then Some(PreambleDetectionTimeout)
      else if RxSfdto in status then Some(SfdTimeout)
      else None
  {
    var c := RX_ERROR_CHECKS;
    assert c[7..] == [];
    assert c[6..] == [(RxSfdto, SfdTimeout)] && c[6..][1..] == c[7..];
    assert FirstRxError(status, c[6..]) == if RxSfdto in status then Some(SfdTimeout) else None;
    assert c[5..][0] == (RxPto, PreambleDetectionTimeout) && c[5..][1..] == c[6..];
    assert FirstRxError(status, c[5..]) ==
      if RxPto in status then Some(PreambleDetectionTimeout) else FirstRxError(status, c[6..]);
    assert c[4..][0] == (RxOvrr, Overrun) && c[4..][1..] == c[5..];
    assert FirstRxError(status, c[4..]) == if RxOvrr in status then Some(Overrun) else FirstRxError(status, c[5..]);
    assert c[3..][0] == (RxRfto, FrameWaitTimeout) && c[3..][1..] == c[4..];
    assert FirstRxError(status, c[3..]) ==
      if RxRfto in status then Some(FrameWaitTimeout) else FirstRxError(status, c[4..]);
    assert c[2..][0] == (RxRfsl, ReedSolomon) && c[2..][1..] == c[3..];
    assert FirstRxError(status, c[2..]) == if RxRfsl in status then Some(ReedSolomon) else FirstRxError(status, c[3..]);
    assert c[1..][0] == (RxPhe, Phy) && c[1..][1..] == c[2..];
    assert FirstRxError(status, c[1..]) == if RxPhe in status then Some(Phy) else FirstRxError(status, c[2..]);
  }

  /** An FCS error wins over every other flag, a ready frame included. */
  lemma FcsErrorTakesPriority(status: set<StatusFlag>)
    requires RxFce in status
    ensures RxStatusError(status) == Some(Fcs)
  {
  }

  /** The TFLEN value `send_raw` programs: the payload length plus the
      two-octet CRC, in `u8` arithmetic. The length is truncated to `u8`
      first and the addition wraps as in a release build. */
  function TxFrameLength(dataLen: nat): (tflen: u8)
    ensures tflen as int == (dataLen + 2) % 0x100
  {
    (((dataLen % 0x100) + 2) % 0x100) as u8
  }

  /** TFLEN is the frame length (payload plus CRC) modulo 256, and exactly the
      frame length whenever that fits in a byte. */
  lemma TxFrameLengthIsFrameLength(dataLen: nat)
    ensures TxFrameLength(dataLen) as int == (dataLen + 2) % 0x100
    ensures dataLen + 2 < 0x100 ==> TxFrameLength(dataLen) as int == dataLen + 2
  {
  }

  /** The TX_FCTRL settings for a payload of `dataLen` bytes: 850 kbps,
      16 MHz PRF, preamble length 64, no ranging, no offset, no delay. */
  function TxFctrlFor(dataLen: nat): TxFctrl {
    TxFctrl(tflen := TxFrameLength(dataLen), tfle := 0, txbr := 1, tr := 0, txprf := 1,
            txpsr := 1, pe := 0, txboffs := 0, ifsdelay := 0)
  }

  /** The register accesses of `send_raw`, in order. */
  function SendRawAccesses(data: seq<u8>): seq<Access> {
    [WriteTxBuffer(data), WriteTxFctrl(TxFctrlFor(|data|)), ModifySysCtrlTxStrt]
  }

  /** The register accesses of `receive`, in order. */
  const RECEIVE_ACCESSES: seq<Access> := [
    ModifyPmscCtrl0SoftReset(0xE),
    ModifyPmscCtrl0SoftReset(0xF),
    ModifyEcCtrlPllldt,
    WriteSysStatus(PLL_CLEAR),
    WriteDrxTune2(DRX_TUNE2_PAC8_PRF16),
    ModifySysCtrlRxEnab
  ]

  /** The DW1000's registers as the high-level driver sees them: the live
      SYS_STATUS flags, the received frame's length and data, and the
      sequence of writes issued so far. SYS_STATUS flags are write-1-to-clear. */
  class Dw1000 {
    var status: set<StatusFlag>
    var rxFrameLength: nat
    var rxBuffer: array<u8>
    var trace: seq<Access>

    ghost predicate Valid()
      reads this
    {
      rxBuffer.Length == RX_BUFFER_LEN && rxFrameLength <= RXFLEN_MAX
    }

    /** `DW1000::new`: wrap a device whose registers hold the given values. */
    constructor (status0: set<StatusFlag>, rxFrameLength0: nat, rxData0: seq<u8>)
      requires |rxData0| == RX_BUFFER_LEN && rxFrameLength0 <= RXFLEN_MAX
      ensures Valid() && fresh(rxBuffer)
      ensures status == status0 && rxFrameLength == rxFrameLength0
      ensures rxBuffer[..] == rxData0 && trace == []
    {
      status := status0;
      rxFrameLength := rxFrameLength0;
      rxBuffer := new u8[RX_BUFFER_LEN](i requires 0 <= i < RX_BUFFER_LEN => rxData0[i]);
      trace := [];
    }

    /** Write-1-to-clear write of SYS_STATUS. */
    method ClearStatus(flags: set<StatusFlag>)
      requires Valid()
      modifies this`status, this`trace
      ensures Valid()
      ensures status == old(status) - flags
      ensures trace == old(trace) + [WriteSysStatus(flags)]
    {
      status := status - flags;
      trace := trace + [WriteSysStatus(flags)];
    }

    /** `send_raw`: load the TX buffer, program TX_FCTRL, then start the
      transmission. No status flag changes. */
    method SendRaw(data: seq<u8>)
      requires Valid()
      modifies this`trace
      ensures Valid()
      ensures trace == old(trace) + SendRawAccesses(data)
    {
      trace := trace + [WriteTxBuffer(data)];
      var lenByte := (|data| % 0x100) as u8;             // the length truncated to a byte
      var tflen := ((lenByte as int + 2) % 0x100) as u8;  // + 2 for the CRC
      trace := trace + [WriteTxFctrl(TxFctrl(tflen := tflen, tfle := 0, txbr := 1, tr := 0,
                                             txprf := 1, txpsr := 1, pe := 0, txboffs := 0, ifsdelay := 0))];
      trace := trace + [ModifySysCtrlTxStrt];
    }

    /** `receive`: reset the receiver, make the PLL flags reliable, tune the
      receiver and enable it. */
    method Receive()
      requires Valid()
      modifies this`status, this`trace
      ensures Valid()
      ensures trace == old(trace) + RECEIVE_ACCESSES
      ensures status == old(status) - PLL_CLEAR
    {
      trace := trace + [ModifyPmscCtrl0SoftReset(0xE)];
      trace := trace + [ModifyPmscCtrl0SoftReset(0xF)];
      trace := trace + [ModifyEcCtrlPllldt];
      ClearStatus({CpLock, ClkPllLl});
      trace := trace + [WriteDrxTune2(0x311A002D)];
      trace := trace + [ModifySysCtrlRxEnab];
    }

    /** `TxFuture::wait`: not done until TXFRS is set; then clear the four
      transmit progress flags in one write. */
    method TxWait() returns (r: NbResult<(), Error>)
      requires Valid()
      modifies this`status, this`trace
      ensures Valid()
      ensures TxFrs !in old(status) ==> r == WouldBlock && status == old(status) && trace == old(trace)
      ensures TxFrs in old(status) ==>
        r == Ready(()) && status == old(status) - TX_CLEAR && trace == old(trace) + [WriteSysStatus(TX_CLEAR)]
    {
      if TxFrs !in status {
        return WouldBlock;
      }
      ClearStatus({TxFrb, TxPrs, TxPhs, TxFrs});
      return Ready(());
    }

    /** `RxFuture::wait`: report the first error flag; otherwise, once a frame
      is ready, clear the receive flags and copy the frame into `buffer`. */
    method RxWait(buffer: array<u8>) returns (r: NbResult<nat, Error>)
      requires Valid() && buffer != rxBuffer
      modifies this`status, this`trace, buffer
      ensures Valid()
      ensures RxStatusError(old(status)).Some? ==>
        r == Other(RxStatusError(old(status)).value) &&
        status == old(status) && trace == old(trace) && buffer[..] == old(buffer[..])
      ensures RxStatusError(old(status)).None? && RxDfr !in old(status) ==>
        r == WouldBlock && status == old(status) && trace == old(trace) && buffer[..] == old(buffer[..])
      ensures RxStatusError(old(status)).None? && RxDfr in old(status) ==>
        status == old(status) - RX_CLEAR && trace == old(trace) + [WriteSysStatus(RX_CLEAR)]
      ensures RxStatusError(old(status)).None? && RxDfr in old(status) && buffer.Length < rxFrameLength ==>
        r == Other(BufferTooSmall(rxFrameLength)) && buffer[..] == old(buffer[..])
      ensures RxStatusError(old(status)).None? && RxDfr in old(status) && rxFrameLength <= buffer.Length ==>
        r == Ready(rxFrameLength) &&
        buffer[..rxFrameLength] == rxBuffer[..rxFrameLength] &&
        buffer[rxFrameLength..] == old(buffer[rxFrameLength..])
    {
      RxStatusErrorChain(status);
      if RxFce in status {
        return Other(Fcs);
      }
      if RxPhe in status {
        return Other(Phy);
      }
      if RxRfsl in status {
        return Other(ReedSolomon);
      }
      if RxRfto in status {
        return Other(FrameWaitTimeout);
      }
      if RxOvrr in status {
        return Other(Overrun);
      }
      if RxPto in status {
        return Other(PreambleDetectionTimeout);
      }
      if RxSfdto in status {
        return Other(SfdTimeout);
      }
      // LDEERR and RXPREJ are not checked: they occur on good frames too.

      if RxDfr !in status {
        return WouldBlock;
      }

      ClearStatus({
        RxPrd, RxSfdd, LdeDone, RxPhd, RxPhe, RxDfr, RxFcg, RxFce,
        RxRfsl, RxRfto, LdeErr, RxOvrr, RxPto, RxSfdto, RxRscs, RxPrej
      });

      var len := rxFrameLength;
      if buffer.Length < len {
        return Other(BufferTooSmall(len));
      }

      ghost var statusNow, traceNow := status, trace;
      for i := 0 to len
        invariant status == statusNow && trace == traceNow
        invariant buffer[..i] == rxBuffer[..i]
        invariant buffer[i..] == old(buffer[i..])
      {
        buffer[i] := rxBuffer[i];
      }
      return Ready(len);
    }
  }
}
