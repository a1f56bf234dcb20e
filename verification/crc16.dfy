/** The CRC-16 that authenticates RTU frames (Modbus over Serial Line V1.02, section 6.2.2):
    initial value 0xFFFF, each byte XORed into the low byte, then eight right shifts, XORing
    the reflected polynomial 0xA001 after every shift that drops a one. */
module Crc16 {
  import opened Modbus

  const Initial: bv16 := 0xFFFF
  const Polynomial: bv16 := 0xA001

  /** `n` shift-and-conditionally-XOR steps. */
  function Shift(crc: bv16, n: nat): bv16
    decreases n
  {
    if n == 0 then crc
    else Shift(if crc & 1 == 1 then (crc >> 1) ^ Polynomial else crc >> 1, n - 1)
  }

  /** A byte as a 16-bit vector, built bit by bit from the most significant end. */
  function Widen(b: nat): bv16
    requires b < 0x100
    decreases b
  {
    if b == 0 then 0 else (Widen(b / 2) << 1) | (if b % 2 == 1 then 1 else 0)
  }

  /** Absorbs one byte into a running checksum. */
  function Absorb(crc: bv16, b: byte): bv16
  {
    Shift(crc ^ Widen(b), 8)
  }

  /** Absorbs the bytes in order. */
  function Fold(crc: bv16, bytes: seq<byte>): bv16
    decreases |bytes|
  {
    if |bytes| == 0 then crc else Fold(Absorb(crc, bytes[0]), bytes[1..])
  }

  /** The checksum of a byte sequence. */
  function Crc(bytes: seq<byte>): uint16
  {
    Fold(Initial, bytes) as int
  }

  /** The checksum of the frame in the RTU encoding test. */
  lemma TestVectorReadInput()
    ensures Crc([0x01, 0x04, 0x02, 0xFF, 0xFF]) == 0x80B8
  {
    var p := [0x01, 0x04, 0x02, 0xFF, 0xFF];
    assert Absorb(0xFFFF, 0x01) == 0x807E;
    assert Absorb(0x807E, 0x04) == 0xE301;
    assert Absorb(0xE301, 0x02) == 0x01A3;
    assert Absorb(0x01A3, 0xFF) == 0x3901;
    assert Absorb(0x3901, 0xFF) == 0x80B8;
    assert p[1..][1..][1..][1..][1..] == [];
  }

  /** The checksum of the frame in the RTU decoding test. */
  lemma TestVectorUnit21()
    ensures Crc([0x15, 0x04, 0x02, 0xFF, 0xFF]) == 0x8388
  {
    var p := [0x15, 0x04, 0x02, 0xFF, 0xFF];
    assert Absorb(0xFFFF, 0x15) == 0x8F7E;
    assert Absorb(0x8F7E, 0x04) == 0xE30E;
    assert Absorb(0xE30E, 0x02) == 0x05E3;
    assert Absorb(0x05E3, 0xFF) == 0xC904;
    assert Absorb(0xC904, 0xFF) == 0x8388;
    assert p[1..][1..][1..][1..][1..] == [];
  }

  /** The checksum of the IllegalDataAddress answer in the serial-line test. */
  lemma TestVectorException()
    ensures Crc([0x01, 0x83, 0x02]) == 0xF1C0
  {
    var p := [0x01, 0x83, 0x02];
    assert Absorb(0xFFFF, 0x01) == 0x807E;
    assert Absorb(0x807E, 0x83) == 0x8141;
    assert Absorb(0x8141, 0x02) == 0xF1C0;
    assert p[1..][1..][1..] == [];
  }

  /** The checksum of the answer to the read of register 1000 in the serial-line test. */
  lemma TestVectorRegister1000()
    ensures Crc([0x01, 0x03, 0x02, 0x11, 0x22]) == 0x0D34
  {
    var p := [0x01, 0x03, 0x02, 0x11, 0x22];
    assert Absorb(0xFFFF, 0x01) == 0x807E;
    assert Absorb(0x807E, 0x03) == 0x2140;
    assert Absorb(0x2140, 0x02) == 0x31A1;
    assert Absorb(0x31A1, 0x11) == 0xB430;
    assert Absorb(0xB430, 0x22) == 0x0D34;
    assert p[1..][1..][1..][1..][1..] == [];
  }
}
