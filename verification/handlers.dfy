/** The default function handlers (functions.go), one per Modbus function code. Each works on
    the memory of the addressed device and yields that memory afterwards, the response payload
    and the exception. */
module Handlers {
  import opened Modbus
  import opened Registers
  import opened Frames
  import opened Packing

  /** What a handler produces. */
  datatype Reply = Reply(device: Device, data: seq<byte>, exception: Exception)

  /** The address-overflow answer: no payload, memory untouched. */
  function Refuse(device: Device): Reply
  {
    Reply(device, [], IllegalDataAddress)
  }

  function Min(a: nat, b: nat): nat
  {
    if a <= b then a else b
  }

  /** The reply of a bit read (functions 1 and 2) from `bank`: a byte count, then one bit per
      requested cell, least significant bit first, zero-padded; refused when the range ends
      past the bank. */
  ghost predicate IsBitRead(device: Device, bank: BitBank, data: seq<byte>, r: Reply)
    requires |data| >= 4
  {
    var span := AddressAndQuantity(data);
    var size := (span.quantity + 7) / 8;
    && r.device == device
    && (span.End() > BankSize ==> r.exception == IllegalDataAddress && r.data == [])
    && (span.End() <= BankSize ==>
          && r.exception == Success
          && |r.data| == 1 + size
          && r.data[0] == size % 0x100
          && forall j, b :: 0 <= j < size && 0 <= b < 8 ==>
               Bit(r.data[1..][j], b) ==
                 (if 8 * j + b < span.quantity then Flag(bank[span.start + 8 * j + b]) else 0))
  }

  /** The reply of a register read (functions 3 and 4) from `bank`: a byte count, then the
      registers big-endian in address order; refused when the range ends past the bank. */
  ghost predicate IsWordRead(device: Device, bank: WordBank, data: seq<byte>, r: Reply)
    requires |data| >= 4
  {
    var span := AddressAndQuantity(data);
    && r.device == device
    && (span.End() > BankSize ==> r.exception == IllegalDataAddress && r.data == [])
    && (span.End() <= BankSize ==>
          && r.exception == Success
          && |r.data| == 1 + 2 * span.quantity
          && r.data[0] == (2 * span.quantity) % 0x100
          && BytesToUint16(r.data[1..]) == bank[span.start..span.End()])
  }

  /** A successful bit read: the byte count, then the flags of the range packed eight to a
      byte, least significant bit first, zero-padded. */
  function BitPayload(bank: BitBank, span: Span): (payload: seq<byte>)
    requires span.End() <= BankSize
    ensures |payload| == 1 + (span.quantity + 7) / 8
    ensures payload[0] == ((span.quantity + 7) / 8) % 0x100
    ensures forall j, b :: 0 <= j < (span.quantity + 7) / 8 && 0 <= b < 8 ==>
      Bit(payload[1..][j], b) ==
        (if 8 * j + b < span.quantity then Flag(bank[span.start + 8 * j + b]) else 0)
  {
    var size := span.quantity / 8 + (if span.quantity % 8 != 0 then 1 else 0);
    assert size == (span.quantity + 7) / 8;
    var cells := bank[span.start..span.End()];
    var packed := PackBits(cells);
    assert forall k :: 0 <= k < |cells| ==> cells[k] == bank[span.start + k];
    assert ([size % 0x100] + packed)[1..] == packed;
    [size % 0x100] + packed
  }

  function ReadBits(device: Device, bank: BitBank, data: seq<byte>): (r: Reply)
    requires |data| >= 4
    ensures IsBitRead(device, bank, data, r)
  {
    var span := AddressAndQuantity(data);
    if span.End() > BankSize then Refuse(device)
    else Reply(device, BitPayload(bank, span), Success)
  }

  /** A successful register read: the byte count, then the encoded registers of the range. */
  function WordPayload(bank: WordBank, span: Span): (payload: seq<byte>)
    requires span.End() <= BankSize
    ensures |payload| == 1 + 2 * span.quantity && payload[0] == (2 * span.quantity) % 0x100
    ensures BytesToUint16(payload[1..]) == bank[span.start..span.End()]
  {
    var cells := bank[span.start..span.End()];
    var words := Uint16ToBytes(cells);
    DecodeEncode(cells);
    assert ([(span.quantity * 2) % 0x100] + words)[1..] == words;
    [(span.quantity * 2) % 0x100] + words
  }

  function ReadWords(device: Device, bank: WordBank, data: seq<byte>): (r: Reply)
    requires |data| >= 4
    ensures IsWordRead(device, bank, data, r)
  {
    var span := AddressAndQuantity(data);
    if span.End() > BankSize then Refuse(device)
    else Reply(device, WordPayload(bank, span), Success)
  }

  /** Function 1, Read Coils. */
  function ReadCoils(device: Device, frame: RtuFrame): (r: Reply)
    requires |frame.data| >= 4
    ensures IsBitRead(device, device.coils, frame.data, r)
  {
    ReadBits(device, device.coils, frame.data)
  }

  /** Function 2, Read Discrete Inputs. */
  function ReadDiscreteInputs(device: Device, frame: RtuFrame): (r: Reply)
    requires |frame.data| >= 4
    ensures IsBitRead(device, device.discreteInputs, frame.data, r)
  {
    ReadBits(device, device.discreteInputs, frame.data)
  }

  /** Function 3, Read Holding Registers. */
  function ReadHoldingRegisters(device: Device, frame: RtuFrame): (r: Reply)
    requires |frame.data| >= 4
    ensures IsWordRead(device, device.holdingRegisters, frame.data, r)
  {
    ReadWords(device, device.holdingRegisters, frame.data)
  }

  /** Function 4, Read Input Registers. */
  function ReadInputRegisters(device: Device, frame: RtuFrame): (r: Reply)
    requires |frame.data| >= 4
    ensures IsWordRead(device, device.inputRegisters, frame.data, r)
  {
    ReadWords(device, device.inputRegisters, frame.data)
  }

  /** The register address and the value of a single write, both big-endian. */
  datatype Assignment = Assignment(address: uint16, value: uint16)

  function AddressAndValue(data: seq<byte>): (a: Assignment)
    requires |data| >= 4
    ensures ToBigEndian(a.address) == data[..2] && ToBigEndian(a.value) == data[2..4]
  {
    Assignment(BigEndian(data[0], data[1]), BigEndian(data[2], data[3]))
  }

  /** Function 5, Write Single Coil: any non-zero value switches the coil ON (stored as 1);
      the response echoes the address and value. */
  function WriteSingleCoil(device: Device, frame: RtuFrame): (r: Reply)
    requires |frame.data| >= 4
    ensures var a := AddressAndValue(frame.data);
      && r.exception == Success
      && r.data == frame.data[..4]
      && r.device.coils[a.address] == (if a.value != 0 then 1 else 0)
      && (forall i :: 0 <= i < BankSize && i != a.address ==> r.device.coils[i] == device.coils[i])
      && r.device.discreteInputs == device.discreteInputs
      && r.device.holdingRegisters == device.holdingRegisters
      && r.device.inputRegisters == device.inputRegisters
  {
    var a := AddressAndValue(frame.data);
    var value := if a.value != 0 then 1 else 0;
    Reply(device.(coils := device.coils[a.address := value]), frame.data[..4], Success)
  }

  /** Function 6, Write Single Register; the response echoes the address and value. */
  function WriteHoldingRegister(device: Device, frame: RtuFrame): (r: Reply)
    requires |frame.data| >= 4
    ensures var a := AddressAndValue(frame.data);
      && r.exception == Success
      && r.data == frame.data[..4]
      && r.device.holdingRegisters[a.address] == a.value
      && (forall i :: 0 <= i < BankSize && i != a.address ==>
            r.device.holdingRegisters[i] == device.holdingRegisters[i])
      && r.device.coils == device.coils
      && r.device.discreteInputs == device.discreteInputs
      && r.device.inputRegisters == device.inputRegisters
  {
    var a := AddressAndValue(frame.data);
    Reply(device.(holdingRegisters := device.holdingRegisters[a.address := a.value]), frame.data[..4], Success)
  }

  /** Coil `k` of a multiple-coil request: bit `k % 8` of value byte `k / 8`. */
  function CoilValue(values: seq<byte>, k: nat): (r: byte)
    requires k < 8 * |values|
    ensures r == 0 || r == 1
  {
    BitAtPosition(values[k / 8], k % 8)
  }

  /** The coil loop of function 15 from coil `k` on: coil `start + k` takes request bit `k`,
      stopping after `quantity` coils or when the value bytes run out. */
  function WriteBits(coils: BitBank, start: uint16, values: seq<byte>, quantity: nat, k: nat): (r: BitBank)
    requires start + quantity <= BankSize
    ensures forall j :: 0 <= j < BankSize ==>
      r[j] == (if start + k <= j < start + Min(quantity, 8 * |values|)
               then CoilValue(values, j - start) else coils[j])
    decreases quantity - k
  {
    if k >= quantity || k >= 8 * |values| then coils
    else WriteBits(coils[start + k := CoilValue(values, k)], start, values, quantity, k + 1)
  }

  /** The same loop as the Go code writes it: the stopping test follows the write, so a
      request for zero coils still writes coil `start`. */
  function WriteBitsAsWritten(coils: BitBank, start: uint16, values: seq<byte>, quantity: nat, k: nat): (r: BitBank)
    requires start + quantity <= BankSize
    requires k < quantity || k == 0
    ensures quantity == 0 ==>
      r == (if |values| == 0 then coils else coils[start := CoilValue(values, 0)])
    ensures quantity >= 1 ==> forall j :: 0 <= j < BankSize ==>
      r[j] == (if start + k <= j < start + Min(quantity, 8 * |values|)
               then CoilValue(values, j - start) else coils[j])
    decreases 8 * |values| - k
  {
    if k >= 8 * |values| then coils
    else
      var written := coils[start + k := CoilValue(values, k)];
      if k + 1 >= quantity then written
      else WriteBitsAsWritten(written, start, values, quantity, k + 1)
  }

  /** Function 15, Write Multiple Coils, as the Go code writes it: for a quantity of at least
      one it writes what the corrected function writes; for a quantity of zero it still writes
      coil `start` with bit 0 of the first value byte, when there is one. */
  function WriteMultipleCoilsAsWritten(device: Device, frame: RtuFrame): (r: Reply)
    requires |frame.data| >= 5
    ensures var span := AddressAndQuantity(frame.data);
      var values := frame.data[5..];
      && (span.End() > BankSize ==> r == Refuse(device))
      && (span.End() <= BankSize ==>
            && r.exception == Success
            && r.data == frame.data[..4]
            && r.device.discreteInputs == device.discreteInputs
            && r.device.holdingRegisters == device.holdingRegisters
            && r.device.inputRegisters == device.inputRegisters
            && (span.quantity == 0 ==>
                  r.device.coils == (if |values| == 0 then device.coils
                                     else device.coils[span.start := CoilValue(values, 0)]))
            && (span.quantity >= 1 ==> forall j :: 0 <= j < BankSize ==>
                  r.device.coils[j] == (if span.start <= j < span.start + Min(span.quantity, 8 * |values|)
                                        then CoilValue(values, j - span.start) else device.coils[j])))
  {
    var span := AddressAndQuantity(frame.data);
    var values := frame.data[5..];
    if span.End() > BankSize then Refuse(device)
    else if span.quantity == 0 then
      var coils := WriteBitsAsWritten(device.coils, span.start, values, 0, 0);
      Reply(device.(coils := coils), frame.data[..4], Success)
    else
      var coils := WriteBitsAsWritten(device.coils, span.start, values, span.quantity, 0);
      Reply(device.(coils := coils), frame.data[..4], Success)
  }

  /** Function 15, Write Multiple Coils: coil `start + k` takes bit `k % 8` of value byte
      `k / 8` for every `k` below both the quantity and the number of bits sent; no other
      cell changes; the response echoes the address and quantity. */
  function WriteMultipleCoils(device: Device, frame: RtuFrame): (r: Reply)
    requires |frame.data| >= 5
    ensures var span := AddressAndQuantity(frame.data);
      var values := frame.data[5..];
      var count := Min(span.quantity, 8 * |values|);
      && (span.End() > BankSize ==> r == Refuse(device))
      && (span.End() <= BankSize ==>
            && r.exception == Success
            && r.data == frame.data[..4]
            && r.device.discreteInputs == device.discreteInputs
            && r.device.holdingRegisters == device.holdingRegisters
            && r.device.inputRegisters == device.inputRegisters
            && forall j :: 0 <= j < BankSize ==>
                 r.device.coils[j] == (if span.start <= j < span.start + count
                                       then CoilValue(values, j - span.start) else device.coils[j]))
  {
    var span := AddressAndQuantity(frame.data);
    var values := frame.data[5..];
    if span.End() > BankSize then Refuse(device)
    else
      var coils := WriteBits(device.coils, span.start, values, span.quantity, 0);
      Reply(device.(coils := coils), frame.data[..4], Success)
  }

  /** `bank` with `values` copied in at `at`, as Go's `copy` does. */
  function CopyInto(bank: WordBank, at: nat, values: seq<uint16>): (r: WordBank)
    requires at + |values| <= BankSize
    ensures r[..at] == bank[..at] && r[at..at + |values|] == values
    ensures r[at + |values|..] == bank[at + |values|..]
  {
    var r := bank[..at] + values + bank[at + |values|..];
    assert r[..at] == bank[..at] && r[at..at + |values|] == values;
    r
  }

  /** Function 16, Write Multiple Registers: refused, memory untouched, when the range ends
      past the bank or the value bytes do not hold exactly `quantity` registers; otherwise the
      range holds the big-endian values, nothing else changes, and the response echoes the
      address and quantity. */
  function WriteHoldingRegisters(device: Device, frame: RtuFrame): (r: Reply)
    requires |frame.data| >= 5
    ensures var span := AddressAndQuantity(frame.data);
      var values := frame.data[5..];
      && (r.exception != Success <==> span.End() > BankSize || |values| / 2 != span.quantity)
      && (r.exception != Success ==> r == Refuse(device))
      && (r.exception == Success ==>
            && r.data == frame.data[..4]
            && r.device.coils == device.coils
            && r.device.discreteInputs == device.discreteInputs
            && r.device.inputRegisters == device.inputRegisters
            && r.device.holdingRegisters[..span.start] == device.holdingRegisters[..span.start]
            && r.device.holdingRegisters[span.End()..] == device.holdingRegisters[span.End()..]
            && Uint16ToBytes(r.device.holdingRegisters[span.start..span.End()]) == values[..2 * span.quantity])
  {
    var span := AddressAndQuantity(frame.data);
    var values := frame.data[5..];
    if span.End() > BankSize then Refuse(device)
    else if |values| / 2 != span.quantity then Refuse(device)
    else
      var words := BytesToUint16(values);
      EncodeDecode(values);
      Reply(device.(holdingRegisters := CopyInto(device.holdingRegisters, span.start, words)),
            frame.data[..4], Success)
  }

  /** The Go code's final check of function 16, that `copy` moved `quantity` registers, can
      never fail once the range fits the bank and the value count matches. */
  lemma CopyCheckUnreachable(device: Device, frame: RtuFrame)
    requires |frame.data| >= 5
    requires AddressAndQuantity(frame.data).End() <= BankSize
    requires |frame.data[5..]| / 2 == AddressAndQuantity(frame.data).quantity
    ensures var span := AddressAndQuantity(frame.data);
      Min(BankSize - span.start, |BytesToUint16(frame.data[5..])|) == span.quantity
  {
  }

  /** For a quantity of at least one, the loop as written and the corrected loop agree. */
  lemma {:induction false} WriteBitsAgree(coils: BitBank, start: uint16, values: seq<byte>, quantity: nat, k: nat)
    requires start + quantity <= BankSize
    requires k < quantity
    ensures WriteBitsAsWritten(coils, start, values, quantity, k) == WriteBits(coils, start, values, quantity, k)
    decreases 8 * |values| - k
  {
    if k < 8 * |values| {
      var written := coils[start + k := CoilValue(values, k)];
      if k + 1 < quantity {
        WriteBitsAgree(written, start, values, quantity, k + 1);
      } else {
        assert WriteBits(written, start, values, quantity, k + 1) == written;
      }
    }
  }

  /** Function 15 as written behaves as intended whenever at least one coil is requested. */
  lemma WriteMultipleCoilsAgree(device: Device, frame: RtuFrame)
    requires |frame.data| >= 5
    requires AddressAndQuantity(frame.data).quantity >= 1
    ensures WriteMultipleCoilsAsWritten(device, frame) == WriteMultipleCoils(device, frame)
  {
    var span := AddressAndQuantity(frame.data);
    if span.End() <= BankSize {
      WriteBitsAgree(device.coils, span.start, frame.data[5..], span.quantity, 0);
    }
  }

  /** A request for zero coils at address 0 carrying the value byte 0x01: the loop as the
      Go code writes it still switches coil 0 ON. */
  lemma ZeroQuantityWritesOneCoil(device: Device, frame: RtuFrame)
    requires frame.data == [0, 0, 0, 0, 1, 1]
    ensures WriteMultipleCoilsAsWritten(device, frame).device.coils[0] == 1
  {
    var values := frame.data[5..];
    assert values == [1];
    assert AddressAndQuantity(frame.data) == Span(0, 0);
    assert CoilValue(values, 0) == 1;
    assert WriteBitsAsWritten(device.coils, 0, values, 0, 0) == device.coils[0 := 1];
  }

  /** The same request leaves the memory untouched under the corrected loop. */
  lemma ZeroQuantityWritesNothing(device: Device, frame: RtuFrame)
    requires frame.data == [0, 0, 0, 0, 1, 1]
    ensures WriteMultipleCoils(device, frame).device == device
  {
    assert AddressAndQuantity(frame.data) == Span(0, 0);
    assert WriteBits(device.coils, 0, frame.data[5..], 0, 0) == device.coils;
  }

  /** Bit `b` of byte `j` is bit number `8 * j + b` of the stream. */
  lemma Position(j: nat, b: nat)
    requires b < 8
    ensures (8 * j + b) / 8 == j && (8 * j + b) % 8 == b
  {
  }

  /** Coil `start + k`, for `k` below the quantity, holds request bit `k` after function 15. */
  lemma WrittenCoil(device: Device, write: RtuFrame, k: nat)
    requires |write.data| >= 5
    requires AddressAndQuantity(write.data).End() <= BankSize
    requires k < AddressAndQuantity(write.data).quantity <= 8 * |write.data[5..]|
    ensures var span := AddressAndQuantity(write.data);
      WriteMultipleCoils(device, write).device.coils[span.start + k] == CoilValue(write.data[5..], k)
  {
  }

  /** Bit `b` of packed byte `j` in a successful coil read is the flag of coil
      `start + 8 * j + b`, or 0 past the quantity. */
  lemma ReadCoilBit(device: Device, read: RtuFrame, j: nat, b: nat)
    requires |read.data| >= 4 && AddressAndQuantity(read.data).End() <= BankSize
    requires j < (AddressAndQuantity(read.data).quantity + 7) / 8 && b < 8
    ensures var span := AddressAndQuantity(read.data);
      var r := ReadCoils(device, read);
      && r.exception == Success
      && Bit(r.data[1..][j], b) ==
           (if 8 * j + b < span.quantity then Flag(device.coils[span.start + 8 * j + b]) else 0)
  {
  }

  /** Reading back the coils just written by function 15 returns the bits that were sent. */
  lemma WriteCoilsThenRead(device: Device, write: RtuFrame, read: RtuFrame)
    requires |write.data| >= 5 && |read.data| >= 4 && read.data[..4] == write.data[..4]
    requires AddressAndQuantity(write.data).End() <= BankSize
    requires AddressAndQuantity(write.data).quantity <= 8 * |write.data[5..]|
    ensures var r := ReadCoils(WriteMultipleCoils(device, write).device, read);
      var n := AddressAndQuantity(write.data).quantity;
      && r.exception == Success
      && forall j, b :: 0 <= j < (n + 7) / 8 && 0 <= b < 8 ==>
           Bit(r.data[1..][j], b) == (if 8 * j + b < n then Bit(write.data[5..][j], b) else 0)
  {
    var span := AddressAndQuantity(write.data);
    assert AddressAndQuantity(read.data) == span;
    var values := write.data[5..];
    var after := WriteMultipleCoils(device, write).device;
    var r := ReadCoils(after, read);
    assert r.exception == Success;
    forall j, b | 0 <= j < (span.quantity + 7) / 8 && 0 <= b < 8
      ensures Bit(r.data[1..][j], b) == (if 8 * j + b < span.quantity then Bit(values[j], b) else 0)
    {
      WrittenThenReadBit(device, write, read, j, b);
    }
  }

  /** One bit of that read: bit `b` of byte `j` is request bit `8 * j + b`, or 0 past the
      quantity. */
  lemma WrittenThenReadBit(device: Device, write: RtuFrame, read: RtuFrame, j: nat, b: nat)
    requires |write.data| >= 5 && |read.data| >= 4 && read.data[..4] == write.data[..4]
    requires AddressAndQuantity(write.data).End() <= BankSize
    requires AddressAndQuantity(write.data).quantity <= 8 * |write.data[5..]|
    requires j < (AddressAndQuantity(write.data).quantity + 7) / 8 && b < 8
    ensures var n := AddressAndQuantity(write.data).quantity;
      var r := ReadCoils(WriteMultipleCoils(device, write).device, read);
      Bit(r.data[1..][j], b) == (if 8 * j + b < n then Bit(write.data[5..][j], b) else 0)
  {
    var span := AddressAndQuantity(write.data);
    assert AddressAndQuantity(read.data) == span;
    var after := WriteMultipleCoils(device, write).device;
    ReadCoilBit(after, read, j, b);
    if 8 * j + b < span.quantity {
      Position(j, b);
      WrittenCoil(device, write, 8 * j + b);
    }
  }

  /** Reading back the registers just written by function 16 returns the bytes that were sent. */
  lemma WriteRegistersThenRead(device: Device, write: RtuFrame, read: RtuFrame)
    requires |write.data| >= 5 && |read.data| >= 4 && read.data[..4] == write.data[..4]
    requires WriteHoldingRegisters(device, write).exception == Success
    ensures var n := AddressAndQuantity(write.data).quantity;
      ReadHoldingRegisters(WriteHoldingRegisters(device, write).device, read).data ==
        [(2 * n) % 0x100] + write.data[5..][..2 * n]
  {
    var span := AddressAndQuantity(write.data);
    assert AddressAndQuantity(read.data) == span;
    var after := WriteHoldingRegisters(device, write).device;
    var r := ReadHoldingRegisters(after, read);
    EncodeDecode(r.data[1..]);
    assert r.data == [r.data[0]] + r.data[1..];
  }

  /** Reading back one register just written by function 6 returns the value that was sent. */
  lemma WriteRegisterThenRead(device: Device, write: RtuFrame, read: RtuFrame)
    requires |write.data| >= 4 && |read.data| >= 4
    requires read.data[..2] == write.data[..2] && read.data[2..4] == [0, 1]
    ensures ReadHoldingRegisters(WriteHoldingRegister(device, write).device, read).data ==
      [2] + write.data[2..4]
  {
    var a := AddressAndValue(write.data);
    var span := AddressAndQuantity(read.data);
    assert span.start == a.address && span.quantity == 1;
    var after := WriteHoldingRegister(device, write).device;
    assert after.holdingRegisters[span.start..span.End()] == [a.value];
    var p := ReadHoldingRegisters(after, read).data;
    assert |p| == 3 && p[0] == 2;
    var words := p[1..];
    assert BytesToUint16(words) == [a.value];
    assert words == words[0..2] == ToBigEndian(a.value);
    assert p == [p[0]] + words;
  }

  /** A read of one holding register answers with byte count 2 and the register big-endian. */
  lemma ReadOneRegister(device: Device, read: RtuFrame)
    requires |read.data| >= 4 && read.data[2..4] == [0, 1]
    ensures var at := AddressAndQuantity(read.data).start;
      ReadHoldingRegisters(device, read).data == [2] + ToBigEndian(device.holdingRegisters[at])
  {
    var span := AddressAndQuantity(read.data);
    assert span.quantity == 1;
    var value := device.holdingRegisters[span.start];
    assert device.holdingRegisters[span.start..span.End()] == [value];
    var p := ReadHoldingRegisters(device, read).data;
    assert |p| == 3 && p[0] == 2;
    var words := p[1..];
    assert BytesToUint16(words) == [value];
    assert words == words[0..2] == ToBigEndian(value);
    assert p == [p[0]] + words;
  }

  /** A range that ends exactly at 65536 is accepted (six input registers from 65530); one
      register further is refused (two registers from 65535). */
  lemma RangeBoundary(device: Device)
    ensures ReadInputRegisters(device, RtuFrame(1, 4, [0xFF, 0xFA, 0x00, 0x06], 0)).exception == Success
    ensures ReadHoldingRegisters(device, RtuFrame(1, 3, [0xFF, 0xFF, 0x00, 0x02], 0)) == Refuse(device)
  {
    assert AddressAndQuantity([0xFF, 0xFA, 0x00, 0x06]).End() == BankSize;
    assert AddressAndQuantity([0xFF, 0xFF, 0x00, 0x02]).End() == BankSize + 1;
  }
}
