/** End-to-end behaviour of the server: the request sequences of the server tests, stated
    over the model. */
module Scenarios {
  import opened Wrappers
  import opened Modbus
  import opened Registers
  import opened Frames
  import opened Packing
  import opened Handlers
  import opened Slave

  /** The bytes the loop writes for a unicast request decode back to the response frame. */
  lemma WrittenResponseDecodes(s: Server, request: Request, order: seq<byte>)
    requires request.frame.address != BroadcastId && request.frame.address in s.devices
    requires Serviceable(s, request.frame)
    ensures var response := Handle(s, request.frame).response;
      var r := Step(s, request, order);
      r.written.Some? &&
      (|response.data| >= 1 ==>
         NewRtuFrame(r.written.value.bytes) ==
           Ok(response.(crc := Crc16.Crc([response.address, response.functionCode] + response.data))))
  {
    var response := Handle(s, request.frame).response;
    if |response.data| >= 1 {
      RoundTrip(response);
    }
  }

  /** An unbound function code is answered with exception 1 and its high bit set
      (code 255 keeps reading 0xFF). */
  lemma UnsupportedFunction(address: byte, data: seq<byte>)
    ensures var r := Handle(NewServer(), RtuFrame(address, 255, data, 0));
      && r.response.functionCode == 0xFF
      && r.response.data == [1]
      && r.devices == NewServer().devices
  {
  }

  /** A unicast to an id with no device writes nothing and leaves the store unchanged. */
  lemma UnknownDeviceIgnored(conn: Connection, data: seq<byte>)
    ensures var s := NewServer();
      var r := Step(s, Request(conn, RtuFrame(5, 3, data, 0)), []);
      r.written == None && r.server.devices == s.devices
  {
    var s := NewServer();
    assert 5 !in s.devices;
  }

  /** With holding register 1000 of unit 1 preset to 0x1122, a read of that one register is
      answered on the wire with 01 03 02 11 22 34 0D, whatever follows the four bytes of
      address and quantity. */
  lemma PresetRegisterAnswer(s: Server, conn: Connection, data: seq<byte>)
    requires s.table[3] == Some(ReadHoldingRegisters)
    requires 1 in s.devices && s.devices[1].holdingRegisters[1000] == 0x1122
    requires |data| >= 4 && data[..4] == [0x03, 0xE8, 0x00, 0x01]
    ensures Step(s, Request(conn, RtuFrame(1, 3, data, 0)), []).written ==
      Some(Written(conn, [0x01, 0x03, 0x02, 0x11, 0x22, 0x34, 0x0D]))
  {
    var f := RtuFrame(1, 3, data, 0);
    assert Accepts(ReadHoldingRegisters, f.data);
    PresetRegisterResponse(s, f);
    RegisterAnswerBytes();
  }

  /** The response frame of that read: function 3, byte count 2, then 11 22. */
  lemma PresetRegisterResponse(s: Server, f: RtuFrame)
    requires s.table[3] == Some(ReadHoldingRegisters)
    requires 1 in s.devices && s.devices[1].holdingRegisters[1000] == 0x1122
    requires f.address == 1 && f.functionCode == 3 && f.crc == 0
    requires |f.data| >= 4 && f.data[..4] == [0x03, 0xE8, 0x00, 0x01]
    ensures Handle(s, f).response == RtuFrame(1, 3, [0x02, 0x11, 0x22], 0)
  {
    PresetRegisterReply(s.devices[1], f.data);
    assert ReadHoldingRegisters(s.devices[1], f) == ReadHoldingRegisters(s.devices[1], RtuFrame(1, 3, f.data, 0));
  }

  /** The handler's reply to that read: byte count 2, then 11 22. */
  lemma PresetRegisterReply(device: Device, data: seq<byte>)
    requires device.holdingRegisters[1000] == 0x1122
    requires |data| >= 4 && data[..4] == [0x03, 0xE8, 0x00, 0x01]
    ensures var reply := ReadHoldingRegisters(device, RtuFrame(1, 3, data, 0));
      reply.exception == Success && reply.data == [0x02, 0x11, 0x22]
  {
    var f := RtuFrame(1, 3, data, 0);
    assert data[0] == 0x03 && data[1] == 0xE8 && data[2..4] == [0x00, 0x01];
    assert AddressAndQuantity(data) == Span(1000, 1);
    ReadOneRegister(device, f);
    assert ToBigEndian(0x1122) == [0x11, 0x22];
  }

  /** That response frame encodes to 01 03 02 11 22 34 0D. */
  lemma RegisterAnswerBytes()
    ensures Bytes(RtuFrame(1, 3, [0x02, 0x11, 0x22], 0)) == [0x01, 0x03, 0x02, 0x11, 0x22, 0x34, 0x0D]
  {
    assert [1, 3] + [0x02, 0x11, 0x22] == [0x01, 0x03, 0x02, 0x11, 0x22];
    Crc16.TestVectorRegister1000();
  }

  /** A read of two holding registers from 0xFFFF runs past the bank and is answered on the
      wire with 01 83 02 C0 F1, whatever follows the four bytes of address and quantity. */
  lemma IllegalAddressAnswer(s: Server, conn: Connection, data: seq<byte>)
    requires s.table[3] == Some(ReadHoldingRegisters)
    requires 1 in s.devices
    requires |data| >= 4 && data[..4] == [0xFF, 0xFF, 0x00, 0x02]
    ensures Step(s, Request(conn, RtuFrame(1, 3, data, 0)), []).written ==
      Some(Written(conn, [0x01, 0x83, 0x02, 0xC0, 0xF1]))
  {
    var f := RtuFrame(1, 3, data, 0);
    assert Accepts(ReadHoldingRegisters, f.data);
    assert data[0] == 0xFF && data[1] == 0xFF && data[2] == 0x00 && data[3] == 0x02;
    assert AddressAndQuantity(f.data).End() == BankSize + 1;
    var response := Handle(s, f).response;
    assert response == SetException(f, IllegalDataAddress)
                    == SetException(RtuFrame(1, 3, [0xFF, 0xFF, 0, 2], 0), IllegalDataAddress);
    ExceptionEncodingVector();
  }

  /** On any server with the default handlers for functions 3 and 6, writing one register and
      reading it back answers with a byte count of 2 and the written value. */
  lemma WriteThenReadOne(s: Server, conn: Connection, id: byte, write: seq<byte>, read: seq<byte>)
    requires s.table[6] == Some(WriteHoldingRegister) && s.table[3] == Some(ReadHoldingRegisters)
    requires id != BroadcastId && id in s.devices
    requires |write| == 4 && |read| == 4 && read[..2] == write[..2] && read[2..4] == [0, 1]
    ensures var w := Step(s, Request(conn, RtuFrame(id, 6, write, 0)), []);
      var r := Handle(w.server, RtuFrame(id, 3, read, 0));
      r.response.data == [2] + write[2..4] && r.response.functionCode == 3
  {
    var wf := RtuFrame(id, 6, write, 0);
    var rf := RtuFrame(id, 3, read, 0);
    assert Accepts(WriteHoldingRegister, write);
    var after := WriteHoldingRegister(s.devices[id], wf).device;
    var w := Step(s, Request(conn, wf), []);
    assert w.server.devices[id] == after;
    WriteRegisterThenRead(s.devices[id], wf, rf);
    assert ReadHoldingRegisters(after, rf).exception == Success;
  }

  /** A broadcast Write Multiple Registers reaches every device: afterwards each device reads
      the written bytes back. */
  lemma BroadcastWriteReachesEveryDevice(s: Server, conn: Connection, frame: RtuFrame, order: seq<byte>, id: byte)
    requires s.table[16] == Some(WriteHoldingRegisters) && s.table[3] == Some(ReadHoldingRegisters)
    requires frame.address == BroadcastId && frame.functionCode == 16 && |frame.data| >= 5
    requires AddressAndQuantity(frame.data).End() <= BankSize
    requires |frame.data[5..]| / 2 == AddressAndQuantity(frame.data).quantity
    requires Enumerates(order, s.devices.Keys)
    requires id in s.devices
    ensures var r := Step(s, Request(conn, frame), order);
      var n := AddressAndQuantity(frame.data).quantity;
      var read := Handle(r.server, RtuFrame(id, 3, frame.data[..4], 0));
      && r.written == None
      && read.response.data == [(2 * n) % 0x100] + frame.data[5..][..2 * n]
  {
    assert Accepts(s.table[16].value, frame.data);
    var r := Step(s, Request(conn, frame), order);
    var dev := WriteHoldingRegisters(s.devices[id], SetDevice(frame, id)).device;
    assert r.server.devices[id] == dev;
    var rf := RtuFrame(id, 3, frame.data[..4], 0);
    WriteRegistersThenRead(s.devices[id], SetDevice(frame, id), rf);
    assert ReadHoldingRegisters(dev, rf).exception == Success;
  }

  /** A device created and then removed leaves the device map as it was. */
  lemma CreateThenRemove(s: Server, id: byte)
    requires NewDevice(s, id).Ok?
    ensures RemoveDevice(NewDevice(s, id).value, id).Ok?
    ensures RemoveDevice(NewDevice(s, id).value, id).value.devices == s.devices
  {
  }

  /** Unbinding a function code makes the server answer it with exception 1. */
  lemma UnboundAfterUnregister(s: Server, code: byte, request: RtuFrame)
    requires request.functionCode == code
    ensures var r := Handle(RegisterFunctionHandler(s, code, None), request);
      r.response.data == [IllegalFunction.Code()] && r.devices == s.devices
  {
  }

  /** Bit `b` of 255 is set for every `b` below 8, and only bit 0 of 1 is set. */
  lemma SmallByteBits(b: nat)
    requires b < 8
    ensures Bit(255, b) == 1
    ensures Bit(1, b) == (if b == 0 then 1 else 0)
  {
    if b > 0 {
      BitOfSmall(1, 1, b);
    }
    // One empty branch per position, so that `Bit` unfolds at each literal `b`.
    if b == 0 {} else if b == 1 {} else if b == 2 {} else if b == 3 {}
    else if b == 4 {} else if b == 5 {} else if b == 6 {} else {}
  }

  /** A packed byte whose eight bits are those of `v` is `v`. */
  lemma ByteFromBits(x: byte, v: byte)
    requires forall b :: 0 <= b < 8 ==> Bit(x, b) == Bit(v, b)
    ensures x == v
  {
    assert Pow2(8) == 256;
    BitsDetermineValue(x, v, 8);
  }

  /** Nine coils written from address 100 with the bytes [255, 1] on a fresh device read back,
      as sixteen coils from 100, as the payload [2, 255, 1]. */
  lemma CoilVector()
    ensures var write := RtuFrame(1, 15, [0, 100, 0, 9, 2, 255, 1], 0);
      var read := RtuFrame(1, 1, [0, 100, 0, 16], 0);
      ReadCoils(WriteMultipleCoils(ZeroDevice(), write).device, read).data == [2, 255, 1]
  {
    var write := RtuFrame(1, 15, [0, 100, 0, 9, 2, 255, 1], 0);
    var read := RtuFrame(1, 1, [0, 100, 0, 16], 0);
    var values := write.data[5..];
    assert values == [255, 1];
    assert AddressAndQuantity(write.data) == Span(100, 9);
    assert AddressAndQuantity(read.data) == Span(100, 16);
    var after := WriteMultipleCoils(ZeroDevice(), write).device;
    var cells := after.coils[100..116];
    forall k | 0 <= k < 16
      ensures cells[k] == if k < 9 then CoilValue(values, k) else 0
    {
      assert cells[k] == after.coils[100 + k];
      assert Min(9, 8 * |values|) == 9;
      assert ZeroDevice().coils[100 + k] == 0;
      assert after.coils[100 + k] == if k < 9 then CoilValue(values, 100 + k - 100) else ZeroDevice().coils[100 + k];
    }
    CoilVectorRead(after, read, values);
  }

  /** The read half of the coil vector: coils 100..108 hold the bits of [255, 1] and coils
      109..115 are OFF. */
  lemma CoilVectorRead(after: Device, read: RtuFrame, values: seq<byte>)
    requires values == [255, 1]
    requires read.data == [0, 100, 0, 16]
    requires forall k :: 0 <= k < 16 ==>
      after.coils[100..116][k] == if k < 9 then CoilValue(values, k) else 0
    ensures ReadCoils(after, read).data == [2, 255, 1]
  {
    assert AddressAndQuantity(read.data) == Span(100, 16);
    var r := ReadCoils(after, read);
    assert |r.data| == 3;
    var bits := r.data[1..];
    var cells := after.coils[100..116];
    forall b | 0 <= b < 8
      ensures Bit(bits[0], b) == Bit(255, b)
    {
      SmallByteBits(b);
      assert Bit(bits[0], b) == Flag(cells[b]);
      assert CoilValue(values, b) == Bit(255, b);
    }
    forall b | 0 <= b < 8
      ensures Bit(bits[1], b) == Bit(1, b)
    {
      SmallByteBits(b);
      assert Bit(bits[1], b) == Flag(cells[8 + b]);
      if b == 0 {
        assert CoilValue(values, 8) == Bit(1, 0);
      }
    }
    ByteFromBits(bits[0], 255);
    ByteFromBits(bits[1], 1);
    assert r.data == [r.data[0]] + bits;
  }
}
