/** The register-level layer of the DW1000 driver: the SPI transaction header
    sent to read a register, the buffer a register is read into, and the
    fields of the DEV_ID register. */
module Lib {

  /** The code of this file is bit manipulation on `u8` and `u16`, so bytes
      are bit-vectors here; `/` and `%` on them are unsigned. */
  type Byte = bv8

  /** What the `Register` trait declares for each register: its ID (the
      register file index) and its length in bytes. */
  datatype Register = Register(id: Byte, len: nat)

  /** The device identifier register: ID 0x00, 4 bytes. */
  const DEV_ID: Register := Register(0x00, 4)

  /** The header byte of a read transaction: bit 7 clear (read), bit 6 clear
      (no sub-index), and the register ID in the six low bits. */
  function ReadHeader(id: Byte): (h: Byte)
    ensures h & 0x80 == 0 && h & 0x40 == 0
    ensures h == id % 0x40
  {
    (0 & 0x80) | (0 & 0x40) | (id & 0x3f)
  }

  /** `R::new()`: a zeroed buffer with room for the header byte and the
      register's contents, which is what `rx_buffer` hands to the bus. */
  function NewRegisterBuffer(r: Register): (b: seq<Byte>)
    ensures |b| == r.len + 1
    ensures forall i :: 0 <= i < |b| ==> b[i] == 0
  {
    seq(r.len + 1, _ => 0)
  }

  /** The buffer of DEV_ID: the byte received while the header went out,
      then the four bytes of the register. */
  type DevIdBuffer = b: seq<Byte> | |b| == DEV_ID.len + 1 witness [0, 0, 0, 0, 0]

  /** Register Identification Tag: bytes 3 and 4, little-endian. The `u16`
      holds both bytes without loss. */
  function Ridtag(d: DevIdBuffer): (tag: bv16)
    ensures tag == (d[4] as bv16) * 0x100 + (d[3] as bv16)
    ensures tag / 0x100 == d[4] as bv16 && tag % 0x100 == d[3] as bv16
  {
    ((d[4] as bv16) << 8) | (d[3] as bv16)
  }

  /** Model: byte 2. */
  function Model(d: DevIdBuffer): Byte {
    d[2]
  }

  /** Version: the high nibble of byte 1. */
  function Ver(d: DevIdBuffer): (v: Byte)
    ensures v < 16 && v == d[1] / 16
  {
    (d[1] & 0xf0) >> 4
  }

  /** Revision: the low nibble of byte 1. */
  function Rev(d: DevIdBuffer): (r: Byte)
    ensures r < 16 && r == d[1] % 16
  {
    d[1] & 0x0f
  }

  /** Version and revision together are byte 1, and the four fields give back
      the register's four bytes: no information is lost. */
  lemma DevIdFieldsDetermineRegister(d: DevIdBuffer)
    ensures Ver(d) * 16 + Rev(d) == d[1]
    ensures [Ver(d) * 16 + Rev(d), Model(d), (Ridtag(d) % 0x100) as Byte, (Ridtag(d) / 0x100) as Byte] == d[1..]
  {
  }

  /** The unit test: DEV_ID [0x00, 0x30, 0x01, 0xca, 0xde] has revision 0,
      version 3, model 1 and tag 0xDECA. */
  lemma DevIdExample()
    ensures var d: DevIdBuffer := [0x00, 0x30, 0x01, 0xca, 0xde];
      Rev(d) == 0 && Ver(d) == 3 && Model(d) == 1 && Ridtag(d) == 0xDECA
  {
  }
}
