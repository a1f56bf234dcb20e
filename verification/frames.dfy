/** The Modbus RTU frame (framertu.go): decoding a serial packet, re-encoding it with its
    checksum, the field setters the server uses, and the exception encoding. */
module Frames {
  import opened Wrappers
  import opened Modbus
  import opened Crc16

  /** A decoded RTU frame: unit address, function code, payload and the checksum that
      authenticated it. */
  datatype RtuFrame = RtuFrame(address: byte, functionCode: byte, data: seq<byte>, crc: uint16)

  /** Why a packet is not a frame. */
  datatype FrameError = ShortPacket | CrcMismatch(expected: uint16, computed: uint16)

  /** Address, function code and the two checksum bytes leave room for at least one payload byte. */
  const MinPacketLength: nat := 5

  /** Decodes a packet: it must hold at least five bytes and end with the little-endian
      checksum of everything before the trailer. */
  function NewRtuFrame(packet: seq<byte>): (r: Result<RtuFrame, FrameError>)
    ensures |packet| < MinPacketLength ==> r == Err(ShortPacket)
    ensures r.Ok? <==>
      |packet| >= MinPacketLength && packet[|packet| - 2..] == ToLittleEndian(Crc(packet[..|packet| - 2]))
    ensures r.Ok? ==>
      && [r.value.address, r.value.functionCode] + r.value.data + ToLittleEndian(r.value.crc) == packet
      && r.value.crc == Crc(packet[..|packet| - 2])
  {
    if |packet| < MinPacketLength then Err(ShortPacket)
    else
      var n := |packet|;
      var expected := BigEndian(packet[n - 1], packet[n - 2]);
      var computed := Crc(packet[..n - 2]);
      LittleEndianUnique(packet[n - 2..], computed);
      if computed != expected then Err(CrcMismatch(expected, computed))
      else
        assert packet == packet[..2] + packet[2..n - 2] + packet[n - 2..];
        Ok(RtuFrame(packet[0], packet[1], packet[2..n - 2], computed))
  }

  /** The bytes that go on the wire: address, function code, payload, then the little-endian
      checksum of those bytes. The stored `crc` field plays no part. */
  function Bytes(frame: RtuFrame): (r: seq<byte>)
    ensures |r| == 4 + |frame.data|
    ensures r[..2 + |frame.data|] == [frame.address, frame.functionCode] + frame.data
    ensures r[2 + |frame.data|..] == ToLittleEndian(Crc(r[..2 + |frame.data|]))
  {
    var body := [frame.address, frame.functionCode] + frame.data;
    assert (body + ToLittleEndian(Crc(body)))[..|body|] == body;
    body + ToLittleEndian(Crc(body))
  }

  /** A response starts as a copy of the request. Frames are values, so the copy shares nothing. */
  function Copy(frame: RtuFrame): (r: RtuFrame)
    ensures r.address == frame.address && r.functionCode == frame.functionCode
    ensures r.data == frame.data && r.crc == frame.crc
  {
    frame
  }

  /** Re-addresses a frame, as broadcast does for every device in turn. */
  function SetDevice(frame: RtuFrame, id: byte): (r: RtuFrame)
    ensures r.address == id
    ensures r.functionCode == frame.functionCode && r.data == frame.data && r.crc == frame.crc
  {
    frame.(address := id)
  }

  /** Replaces the payload only. */
  function SetData(frame: RtuFrame, data: seq<byte>): (r: RtuFrame)
    ensures r.data == data
    ensures r.address == frame.address && r.functionCode == frame.functionCode && r.crc == frame.crc
  {
    frame.(data := data)
  }

  /** Turns a frame into an exception response (Modbus Application Protocol, section 7):
      the function code gains its high bit and the payload becomes the one exception byte. */
  function SetException(frame: RtuFrame, exception: Exception): (r: RtuFrame)
    ensures r.address == frame.address && r.crc == frame.crc
    ensures r.functionCode >= 0x80 && r.functionCode % 0x80 == frame.functionCode % 0x80
    ensures r.data == [exception.Code()]
  {
    frame.(functionCode := ExceptionFunction(frame.functionCode), data := [exception.Code()])
  }

  /** A register range: the first register and how many follow. */
  datatype Span = Span(start: uint16, quantity: uint16) {
    /** One past the last register; a legal range ends at or before 65536. */
    function End(): nat { start + quantity }
  }

  /** The starting address and the quantity at the head of a request payload, big-endian. */
  function AddressAndQuantity(data: seq<byte>): (span: Span)
    requires |data| >= 4
    ensures ToBigEndian(span.start) == data[..2] && ToBigEndian(span.quantity) == data[2..4]
  {
    Span(BigEndian(data[0], data[1]), BigEndian(data[2], data[3]))
  }

  /** The outcome of validating a request's register range and unit address. */
  datatype FrameParts = FrameParts(register: uint16, numRegs: nat, device: byte, exception: Exception)

  /** Validates the range first, then the unit address; on failure the register stays 0. */
  function GetFrameParts(frame: RtuFrame): (r: FrameParts)
    requires |frame.data| >= 4
    ensures var span := AddressAndQuantity(frame.data);
      && r.numRegs == span.quantity
      && r.device == frame.address
      && (span.End() > 0x1_0000 ==> r.exception == IllegalDataAddress && r.register == 0)
      && (span.End() <= 0x1_0000 && !(IdMin <= frame.address <= IdMax) ==>
            r.exception == SlaveDeviceFailure && r.register == 0)
      && (span.End() <= 0x1_0000 && IdMin <= frame.address <= IdMax ==>
            r.exception == Success && r.register == span.start)
  {
    var span := AddressAndQuantity(frame.data);
    if span.End() > 0x1_0000 then FrameParts(0, span.quantity, frame.address, IllegalDataAddress)
    else if frame.address < IdMin || frame.address > IdMax then
      FrameParts(0, span.quantity, frame.address, SlaveDeviceFailure)
    else FrameParts(span.start, span.quantity, frame.address, Success)
  }

  /** Encoding and then decoding a frame with a payload gives back its address, function code
      and payload, with the checksum field set to the checksum that was sent. */
  lemma RoundTrip(frame: RtuFrame)
    requires |frame.data| >= 1
    ensures NewRtuFrame(Bytes(frame)) ==
      Ok(frame.(crc := Crc([frame.address, frame.functionCode] + frame.data)))
  {
    var p := Bytes(frame);
    assert p[..|p| - 2] == [frame.address, frame.functionCode] + frame.data;
    assert p[2..|p| - 2] == frame.data;
  }

  /** A frame with an empty payload encodes to four bytes, which the decoder refuses. */
  lemma EmptyPayloadRefused(frame: RtuFrame)
    requires frame.data == []
    ensures NewRtuFrame(Bytes(frame)) == Err(ShortPacket)
  {
  }

  /** Decoding and then encoding a valid packet reproduces the packet. */
  lemma DecodeThenEncode(packet: seq<byte>)
    requires NewRtuFrame(packet).Ok?
    ensures Bytes(NewRtuFrame(packet).value) == packet
  {
    var f := NewRtuFrame(packet).value;
    assert packet[..|packet| - 2] == [f.address, f.functionCode] + f.data;
  }

  /** Changing the last byte of a valid packet makes the checksum test fail. */
  lemma CorruptedTrailerRefused(packet: seq<byte>, b: byte)
    requires NewRtuFrame(packet).Ok?
    requires b != packet[|packet| - 1]
    ensures NewRtuFrame(packet[..|packet| - 1] + [b]).Err?
  {
    var n := |packet|;
    var q := packet[..n - 1] + [b];
    assert |q| == n;
    assert q[..n - 2] == packet[..n - 2];
    var trailer := ToLittleEndian(Crc(packet[..n - 2]));
    assert packet[n - 2..] == trailer;
    assert q[n - 2..][1] == b != trailer[1];
  }

  /** The IllegalDataAddress answer to a function-3 request from unit 1 goes on the wire as
      01 83 02 C0 F1; setting the high bit of a code that has it changes nothing. */
  lemma ExceptionEncodingVector()
    ensures Bytes(SetException(RtuFrame(1, 3, [0xFF, 0xFF, 0, 2], 0), IllegalDataAddress)) ==
      [0x01, 0x83, 0x02, 0xC0, 0xF1]
    ensures SetException(RtuFrame(1, 0x83, [], 0), SlaveDeviceFailure).functionCode == 0x83
  {
    var f := SetException(RtuFrame(1, 3, [0xFF, 0xFF, 0, 2], 0), IllegalDataAddress);
    assert ExceptionFunction(3) == 0x83 && ExceptionFunction(0x83) == 0x83;
    assert f == RtuFrame(1, 0x83, [2], 0);
    var r := Bytes(f);
    assert [1, 0x83] + [2] == [0x01, 0x83, 0x02];
    TestVectorException();
    assert r[3..] == ToLittleEndian(0xF1C0) == [0xC0, 0xF1];
    assert r == r[..3] + r[3..];
  }

  /** The frame of the RTU decoding test decodes to unit 0x15, function 4. */
  lemma DecodeVector()
    ensures NewRtuFrame([0x15, 0x04, 0x02, 0xFF, 0xFF, 0x88, 0x83]) == Ok(RtuFrame(0x15, 0x04, [0x02, 0xFF, 0xFF], 0x8388))
  {
    var p := [0x15, 0x04, 0x02, 0xFF, 0xFF, 0x88, 0x83];
    assert p[..5] == [0x15, 0x04, 0x02, 0xFF, 0xFF];
    TestVectorUnit21();
  }

  /** The four-byte packet of the short-packet test is refused. */
  lemma ShortPacketVector()
    ensures NewRtuFrame([0x01, 0x04, 0xFF, 0xFF]) == Err(ShortPacket)
  {
  }

  /** The packet of the bad-checksum test, whose last byte should be 0x80, is refused. */
  lemma BadCrcVector()
    ensures NewRtuFrame([0x01, 0x04, 0x02, 0xFF, 0xFF, 0xB8, 0x81]).Err?
  {
    var q := [0x01, 0x04, 0x02, 0xFF, 0xFF, 0xB8, 0x81];
    assert q[..5] == [0x01, 0x04, 0x02, 0xFF, 0xFF];
    TestVectorReadInput();
  }

  /** The frame of the RTU encoding test encodes with trailer 0xB8 0x80. */
  lemma EncodeVector()
    ensures Bytes(RtuFrame(1, 4, [0x02, 0xFF, 0xFF], 0)) == [0x01, 0x04, 0x02, 0xFF, 0xFF, 0xB8, 0x80]
  {
    var r := Bytes(RtuFrame(1, 4, [0x02, 0xFF, 0xFF], 0));
    assert [1, 4] + [0x02, 0xFF, 0xFF] == [0x01, 0x04, 0x02, 0xFF, 0xFF];
    TestVectorReadInput();
    assert r[5..] == ToLittleEndian(0x80B8) == [0xB8, 0x80];
    assert r == r[..5] + r[5..];
  }
}
