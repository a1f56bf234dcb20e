/** Wire-level vocabulary shared by the frame codec, the function handlers and the server. */
module Modbus {

  /** An octet on the wire. */
  type byte = x: int | 0 <= x < 0x100

  /** A 16-bit register value, address or quantity. */
  type uint16 = x: int | 0 <= x < 0x1_0000

  /** The unit identifier that addresses every device at once (Modbus over Serial Line, section 2.2). */
  const BroadcastId: byte := 0

  /** The range of individual unit identifiers (Modbus over Serial Line, section 2.2). */
  const IdMin: byte := 1
  const IdMax: byte := 247

  /** Two bytes read most significant first, the application protocol's order for addresses,
      quantities and register values. */
  function BigEndian(hi: byte, lo: byte): (v: uint16)
    ensures v / 0x100 == hi && v % 0x100 == lo
  {
    hi * 0x100 + lo
  }

  /** A 16-bit value written most significant byte first. */
  function ToBigEndian(v: uint16): (r: seq<byte>)
    ensures |r| == 2 && BigEndian(r[0], r[1]) == v
  {
    [v / 0x100, v % 0x100]
  }

  /** A 16-bit value written least significant byte first, the order of the RTU checksum trailer. */
  function ToLittleEndian(v: uint16): (r: seq<byte>)
    ensures |r| == 2 && BigEndian(r[1], r[0]) == v
  {
    [v % 0x100, v / 0x100]
  }

  /** Two bytes are the little-endian form of `v` exactly when they read back as `v`. */
  lemma LittleEndianUnique(t: seq<byte>, v: uint16)
    requires |t| == 2
    ensures t == ToLittleEndian(v) <==> BigEndian(t[1], t[0]) == v
  {
    if BigEndian(t[1], t[0]) == v {
      assert t == [t[0], t[1]];
    }
  }

  /** The protocol-level outcome of one request (Modbus Application Protocol V1.1b3, section 7). */
  datatype Exception = Success | IllegalFunction | IllegalDataAddress | SlaveDeviceFailure {

    /** The byte carried in an exception response. `Success` is the zero value of the Go
        exception type and never goes on the wire. */
    function Code(): byte
    {
      match this
      case Success => 0
      case IllegalFunction => 1
      case IllegalDataAddress => 2
      case SlaveDeviceFailure => 4
    }
  }

  /** The function code of an exception response: the request's code with its high bit set. */
  function ExceptionFunction(code: byte): (r: byte)
    ensures 0x80 <= r && r % 0x80 == code % 0x80
  {
    if code < 0x80 then code + 0x80 else code
  }
}
