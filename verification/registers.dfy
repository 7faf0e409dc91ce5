/** Register map, command codes and the two-byte SPI framing of the MFRC522
    reader chip (Edge_Coral/mcrf.py, class MFRC522). */
module Registers {

  /** Capacity of the chip's FIFO as the driver sees it (MAX_LEN). */
  const MAX_LEN: nat := 16

  // Commands written to CommandReg.
  const PCD_IDLE: bv8       := 0x00
  const PCD_AUTHENT: bv8    := 0x0E
  const PCD_RECEIVE: bv8    := 0x08
  const PCD_TRANSMIT: bv8   := 0x04
  const PCD_TRANSCEIVE: bv8 := 0x0C
  const PCD_RESETPHASE: bv8 := 0x0F
  const PCD_CALCCRC: bv8    := 0x03

  // Commands sent to the card.
  const PICC_REQIDL: bv8    := 0x26
  const PICC_ANTICOLL: bv8  := 0x93
  const PICC_SELECTTAG: bv8 := 0x93
  const PICC_AUTHENT1A: bv8 := 0x60
  const PICC_READ: bv8      := 0x30
  const PICC_WRITE: bv8     := 0xA0

  // Register addresses.
  const CommandReg: bv8    := 0x01
  const CommIEnReg: bv8    := 0x02
  const CommIrqReg: bv8    := 0x04
  const DivIrqReg: bv8     := 0x05
  const ErrorReg: bv8      := 0x06
  const Status2Reg: bv8    := 0x08
  const FIFODataReg: bv8   := 0x09
  const FIFOLevelReg: bv8  := 0x0A
  const ControlReg: bv8    := 0x0C
  const BitFramingReg: bv8 := 0x0D
  const ModeReg: bv8       := 0x11
  const TxControlReg: bv8  := 0x14
  const TxAutoReg: bv8     := 0x15
  const TModeReg: bv8      := 0x2A
  const TPrescalerReg: bv8 := 0x2B
  const TReloadRegH: bv8   := 0x2C
  const TReloadRegL: bv8   := 0x2D

  /** Register addresses are six bits wide. */
  predicate ValidAddr(addr: bv8) {
    addr < 0x40
  }

  /** One SPI transaction: the address byte, then the data byte. */
  datatype Frame = Frame(addrByte: bv8, dataByte: bv8)

  /** The register access a frame stands for. */
  datatype Access = WriteReg(addr: bv8, value: bv8) | ReadReg(addr: bv8)

  /** The address byte `(addr << 1) & 0x7E`: the address in bits 1..6,
      bit 7 (the read flag) and bit 0 clear. */
  function AddressByte(addr: bv8): (b: bv8)
    ensures b & 0x81 == 0
    ensures ValidAddr(addr) ==> b >> 1 == addr
  {
    (addr << 1) & 0x7E
  }

  /** A write is `[addressByte, value]`; a read sets bit 7 of the address
      byte and clocks a zero data byte. */
  function Encode(a: Access): (f: Frame)
    ensures f.addrByte & 0x01 == 0
    ensures a.ReadReg? <==> f.addrByte & 0x80 != 0
    ensures f.addrByte & 0x7E == AddressByte(a.addr)
    ensures a.WriteReg? ==> f.dataByte == a.value
    ensures a.ReadReg? ==> f.dataByte == 0
  {
    match a
    case WriteReg(addr, value) => Frame(AddressByte(addr), value)
    case ReadReg(addr) => Frame(AddressByte(addr) | 0x80, 0)
  }

  /** Frames the driver can produce: bit 0 of the address byte clear, and a
      zero data byte on reads. */
  predicate WellFormed(f: Frame) {
    f.addrByte & 0x01 == 0 && (f.addrByte & 0x80 != 0 ==> f.dataByte == 0)
  }

  /** The six-bit register address carried in bits 1..6 of a frame. */
  function FrameAddr(f: Frame): (addr: bv8)
    ensures ValidAddr(addr)
  {
    (f.addrByte >> 1) & 0x3F
  }

  /** The register an access reaches on the wire: the six-bit address its
      frame carries, which is the access's address with the upper two bits
      dropped. */
  function Register(a: Access): (addr: bv8)
    ensures ValidAddr(addr)
    ensures addr == a.addr & 0x3F
  {
    FrameAddr(Encode(a))
  }

  /** The register access a frame encodes: the inverse of `Encode`. */
  function Decode(f: Frame): (a: Access)
    ensures ValidAddr(a.addr)
    ensures WellFormed(f) ==> Encode(a) == f
  {
    if f.addrByte & 0x80 != 0 then ReadReg(FrameAddr(f)) else WriteReg(FrameAddr(f), f.dataByte)
  }

  /** Decoding a frame recovers the access it encodes, for every six-bit
      address. */
  lemma DecodeEncode(a: Access)
    ensures ValidAddr(a.addr) ==> Decode(Encode(a)) == a
  {
  }

  /** Distinct six-bit accesses never share a frame. */
  lemma EncodeInjective(a: Access, b: Access)
    requires ValidAddr(a.addr) && ValidAddr(b.addr)
    requires Encode(a) == Encode(b)
    ensures a == b
  {
    DecodeEncode(a);
    DecodeEncode(b);
  }
}
