# Modbus slave protocol engine

A Dafny model of the protocol core of the `mbserver` Go package, a Modbus slave. A request
arrives as a Modbus RTU frame: unit address, function code, payload and a CRC-16 trailer. The
server looks up the handler bound to the function code and runs it against the register memory
of the addressed device. It then sends back the payload, or an exception response. A request to
unit 0 is a broadcast: it is applied to every device and nobody answers.

The model is a pure pipeline:

- `Crc16`: the RTU checksum, written from Modbus over Serial Line V1.02, section 6.2.2. It starts
  at 0xFFFF and uses the reflected polynomial 0xA001.
- `Frames`: the RTU frame, its decoder and encoder, the frame setters, the exception encoding and
  the range and unit-address validation.
- `Registers`: a device's four banks, each of exactly 65536 cells.
- `Packing`: LSB-first bit packing of coils, big-endian packing of registers, and `bitAtPosition`.
- `Handlers`: function codes 1, 2, 3, 4, 5, 6, 15 and 16. Each maps a device and a request to
  the device afterwards, the response payload and the exception.
- `Slave`: the server state, the device map, the 256-slot handler table, `handle` and one
  iteration of the request loop.
- `Scenarios`: the request sequences of the repository's tests, stated over the model.

Exceptions are values with codes 0 (success), 1, 2 and 4, from section 7 of Modbus Application
Protocol V1.1b3. Unit ids 1 to 247 and broadcast id 0 come from section 2.2 of Modbus over
Serial Line. The helpers that decode the address and quantity of a request
(`registerAddressAndNumber`, `registerAddressAndValue`), the id bounds and the exception
constants are not part of this model. The start and quantity are decoded big-endian from
payload bytes 0..1 and 2..3, as `GetFrameParts` does. The handlers in functions.go return a
pointer to an exception, while the handler table in server.go holds functions that return an
exception value. The model uses values throughout.

## Model

| member | source | states |
|---|---|---|
| Modbus.BigEndian | functions.go:201 | two bytes read most significant first: the high byte is the value divided by 256, the low byte is the remainder |
| Modbus.ToBigEndian | functions.go:211 | a register written as two bytes, most significant first, reads back as the same value |
| Modbus.ToLittleEndian | framertu.go:60-61 | the checksum trailer is written low byte first and reads back as the same value |
| Modbus.LittleEndianUnique | framertu.go:25-27 | a two-byte trailer is the little-endian form of a value exactly when it reads back as that value |
| Modbus.ExceptionFunction | framertu.go:95 | the exception function code has its high bit set and keeps the low seven bits of the request's code |
| Registers.ZeroDevice | server.go:72-77 | a new device holds 0 in every cell of all four banks |
| Crc16.TestVectorReadInput | frametcp_test.go:39-51 | the checksum of 01 04 02 FF FF is 0x80B8, the trailer B8 80 of the encoding test |
| Crc16.TestVectorUnit21 | frametcp_test.go:5-22 | the checksum of 15 04 02 FF FF is 0x8388, the trailer 88 83 of the decoding test |
| Crc16.TestVectorException | serverRTU_test.go:105-106 | the checksum of 01 83 02 is 0xF1C0, the trailer C0 F1 of the exception answer |
| Crc16.TestVectorRegister1000 | serverRTU_test.go:90-91 | the checksum of 01 03 02 11 22 is 0x0D34, the trailer 34 0D of the register answer |
| Frames.NewRtuFrame | framertu.go:17-39 | a packet shorter than 5 bytes fails; otherwise decoding succeeds exactly when the trailer equals the little-endian checksum of the rest; on success address, function code, payload and trailer reassemble the packet, and the checksum field is the computed checksum |
| Frames.Bytes | framertu.go:48-64 | the encoding is 4 bytes longer than the payload, begins with address, function code and payload, and ends with the little-endian checksum of that prefix |
| Frames.Copy | framertu.go:42-45 | the copy has all four fields equal to the original |
| Frames.SetDevice | framertu.go:72-75 | only the address changes, to the given id |
| Frames.SetData | framertu.go:89-91 | only the payload changes, to the given bytes |
| Frames.SetException | framertu.go:94-97 | the address stays; the function code gets its high bit set; the payload becomes the single exception code |
| Frames.AddressAndQuantity | framertu.go:101-102 | the start is payload bytes 0..1 read big-endian and the quantity is bytes 2..3 |
| Frames.GetFrameParts | framertu.go:99-120 | a range ending past 65536 gives IllegalDataAddress; otherwise a unit outside 1..247 gives SlaveDeviceFailure; otherwise Success with the start register; on failure the register is 0; the quantity and unit are always reported |
| Frames.RoundTrip | framertu.go:17-64 | decoding the encoding of a frame with a non-empty payload succeeds with the same address, function code and payload, whatever the checksum function |
| Frames.EmptyPayloadRefused | framertu.go:19-21 | a frame with an empty payload encodes to 4 bytes, which the decoder refuses as too short |
| Frames.DecodeThenEncode | framertu.go:17-64 | re-encoding a successfully decoded packet gives back the packet |
| Frames.CorruptedTrailerRefused | framertu.go:24-29 | changing the last byte of a valid packet makes decoding fail |
| Frames.ExceptionEncodingVector | serverRTU_test.go:105-106 | the IllegalDataAddress answer to a function-3 request from unit 1 encodes to exactly 01 83 02 C0 F1, and setting the high bit of 0x83 again changes nothing |
| Frames.DecodeVector | frametcp_test.go:5-22 | the packet 15 04 02 FF FF 88 83 decodes to unit 0x15, function 4, payload 02 FF FF |
| Frames.ShortPacketVector | frametcp_test.go:24-29 | the 4-byte packet 01 04 FF FF is refused as too short |
| Frames.BadCrcVector | frametcp_test.go:31-37 | the packet ending B8 81 instead of B8 80 is refused |
| Frames.EncodeVector | frametcp_test.go:39-51 | unit 1, function 4, payload 02 FF FF encodes to 01 04 02 FF FF B8 80 |
| Packing.Bit | functions.go:217 | a bit of a value is 0 or 1 |
| Packing.BitAtPosition | functions.go:216-218 | the result is 0 or 1, and 0 for every position past bit 7 |
| Packing.BitOfSmall | functions.go:217 | a value below 2^width has no bit set at or above width |
| Packing.BitsDetermineValue | functions.go:20-31 | two values below 2^width with the same low width bits are equal, so a packed byte is fixed by its bits |
| Packing.PackByte | functions.go:26-31 | up to eight cells pack into one byte below 2^count whose bit b is 1 exactly when cell b is non-zero, and 0 past the last cell |
| Packing.PackBits | functions.go:20-31 | the packed length is the cell count divided by 8, rounded up; bit b of byte j is the flag of cell 8j + b, with zero padding |
| Packing.Uint16ToBytes | functions.go:207-214 | the output is twice as long as the input, and each byte pair read big-endian is the register at that position |
| Packing.BytesToUint16 | functions.go:197-204 | the output has half as many registers as there are bytes, rounded down, and each register written big-endian is the matching byte pair |
| Packing.DecodeEncode | functions.go:197-214 | decoding the bytes of a register sequence gives back the registers |
| Packing.EncodeDecode | functions.go:197-214 | encoding the decoded registers gives back the input, without a trailing odd byte |
| Handlers.BitPayload | functions.go:20-31 | the payload is 1 + ceil(n/8) bytes long; the byte count is ceil(n/8) truncated to a byte; bit b of packed byte j is the flag of cell start + 8j + b, or 0 past the quantity |
| Handlers.ReadBits | functions.go:9-35 | a range ending past 65536 is refused with IllegalDataAddress and no payload; otherwise the payload is the byte count ceil(n/8) truncated to a byte, then bit i % 8 of byte i / 8 is 1 exactly when cell start + i is non-zero, the padding bits are 0; memory never changes |
| Handlers.WordPayload | functions.go:77 | the payload is the byte count 2n truncated to a byte, followed by bytes that decode big-endian to the requested registers in address order |
| Handlers.ReadWords | functions.go:67-80 | a range ending past 65536 is refused with IllegalDataAddress and no payload; otherwise Success with the byte count 2n mod 256 and the registers of the range; memory never changes |
| Handlers.ReadCoils | functions.go:9-35 | function 1 is the bit read of the coil bank |
| Handlers.ReadDiscreteInputs | functions.go:38-64 | function 2 is the bit read of the discrete-input bank |
| Handlers.ReadHoldingRegisters | functions.go:67-80 | function 3 is the register read of the holding-register bank |
| Handlers.ReadInputRegisters | functions.go:83-97 | function 4 is the register read of the input-register bank |
| Handlers.AddressAndValue | functions.go:101 | the address is payload bytes 0..1 and the value bytes 2..3, both big-endian |
| Handlers.WriteSingleCoil | functions.go:99-115 | the addressed coil becomes 1 for a non-zero value and 0 otherwise; no other coil or bank changes; the reply echoes the first four payload bytes with Success |
| Handlers.WriteHoldingRegister | functions.go:117-128 | the addressed holding register takes the value; no other register or bank changes; the reply echoes the first four payload bytes with Success |
| Handlers.CoilValue | functions.go:152 | the value for coil k is 0 or 1 |
| Handlers.WriteBits | functions.go:149-161 | coil start + k takes bit k % 8 of value byte k / 8 for every k below both the quantity and the number of bits sent; every other coil is unchanged |
| Handlers.WriteBitsAsWritten | functions.go:149-161 | the loop as the Go code writes it: for a quantity of zero it writes coil start with bit 0 of the first value byte (nothing when there are no value bytes); for a quantity of at least one it writes exactly the coils start + k for k below min(quantity, 8 × value bytes) with their request bits |
| Handlers.WriteMultipleCoilsAsWritten | functions.go:131-166 | function 15 as the Go code writes it: refused with memory untouched when the range ends past 65536; otherwise Success echoing the first four payload bytes, the other banks unchanged, coil start written for quantity 0, and exactly the coils below min(quantity, 8 × value bytes) written for quantity at least one |
| Handlers.WriteMultipleCoils | functions.go:131-166 | refused with memory untouched when the range ends past 65536; otherwise exactly the coils start + k for k below min(quantity, 8 × value bytes) take their request bit; no other cell or bank changes; the first four payload bytes are echoed |
| Handlers.CopyInto | functions.go:186 | the registers before the target range and after it keep their values, and the range holds the copied values |
| Handlers.WriteHoldingRegisters | functions.go:168-194 | refused with IllegalDataAddress and memory untouched exactly when the range ends past 65536 or the value bytes do not hold exactly quantity registers; otherwise the range encodes to the value bytes, nothing outside the range changes, and the first four payload bytes are echoed |
| Handlers.CopyCheckUnreachable | functions.go:185-189 | once the range fits and the value count matches, the copy always moves exactly quantity registers, so the final check of function 16 never fails |
| Handlers.WriteBitsAgree | functions.go:149-161 | for a quantity of at least one, the loop as written and the corrected loop write the same coils |
| Handlers.WriteMultipleCoilsAgree | functions.go:131-166 | for a quantity of at least one, function 15 as written equals the corrected function |
| Handlers.ZeroQuantityWritesOneCoil | functions.go:149-161 | a request for zero coils at address 0 with value byte 0x01 still switches coil 0 on in the loop as the Go code writes it |
| Handlers.ZeroQuantityWritesNothing | functions.go:131-166 | the same request leaves the device unchanged under the corrected loop |
| Handlers.WrittenCoil | functions.go:149-161 | after function 15, coil start + k for k below the quantity holds request bit k |
| Handlers.ReadCoilBit | functions.go:26-31 | in a successful coil read, bit b of packed byte j is the flag of coil start + 8j + b, or 0 past the quantity |
| Handlers.WriteCoilsThenRead | server_test.go:73-88 | reading back the coils just written by function 15 returns the bits that were sent, with the padding bits 0 |
| Handlers.WriteRegistersThenRead | server_test.go:105-126 | reading back the registers just written by function 16 returns the byte count followed by the value bytes that were sent |
| Handlers.WriteRegisterThenRead | functions.go:117-128 | reading back one register just written by function 6 returns byte count 2 followed by the value bytes that were sent |
| Handlers.ReadOneRegister | functions.go:67-80 | a read of one holding register answers byte count 2 followed by that register big-endian |
| Handlers.RangeBoundary | server_test.go:129-140 | six input registers from 65530, ending exactly at 65536, are accepted, as in this test; two registers from 65535 are refused with IllegalDataAddress, the request of the exception test at serverRTU_test.go:105-106 (whose wire answer is `Scenarios.IllegalAddressAnswer`) |
| Slave.DefaultSlots | server.go:44-51 | each of the first n table slots holds the default handler for its code |
| Slave.NewServer | server.go:40-61 | exactly slots 1, 2, 3, 4, 5, 6, 15 and 16 are bound, slots 1 to 6 and 16 to the handlers of functions.go and slot 15 to the corrected function 15; device 1 is the only device, zero-filled |
| Slave.NewDevice | server.go:65-80 | an id outside 1..247 fails with InvalidId and a present id with AlreadyExists; success happens exactly otherwise and adds a zero-filled device under that id, with the other devices and the table unchanged |
| Slave.RemoveDevice | server.go:83-93 | an id outside 1..247 fails with InvalidId and an absent id with NotFound; success happens exactly otherwise and deletes only that id |
| Slave.RegisterFunctionHandler | server.go:96-98 | the given slot takes the handler; every other slot and the devices are unchanged |
| Slave.Handle | server.go:100-120 | the response keeps the request's address; an unbound code gives function code with the high bit set, payload [1] and unchanged memory; a bound handler's device replaces the addressed device; on Success the response carries the request's function code and the handler's payload, on any other exception the exception encoding |
| Slave.Broadcast | server.go:129-133 | the broadcast loop keeps the set of device ids |
| Slave.BroadcastApplies | server.go:127-134 | broadcasting over distinct ids leaves every listed device as if the frame had been addressed to it alone, and every other device unchanged |
| Slave.BroadcastOrderIndependent | server.go:129-133 | whatever order the device map is visited in, the memory after a broadcast is the same |
| Slave.Step | server.go:123-147 | a broadcast writes nothing and applies the handler to every device; a unicast to an unknown id, whatever its payload, writes nothing and changes nothing; otherwise the encoded response goes back on the request's connection and the memory is the one the handler left; the table never changes |
| Scenarios.WrittenResponseDecodes | server.go:141-144 | the bytes written back for a unicast request decode to the response frame whenever its payload is non-empty |
| Scenarios.UnsupportedFunction | server_test.go:33-45 | on a new server, function 255 addressed to any unit (the test's zero-valued frame has unit 0) with any payload is answered with exception code 1, and memory is unchanged |
| Scenarios.UnknownDeviceIgnored | server_test.go:143-176 | on a new server, a request to unit 5 gets no answer and changes nothing |
| Scenarios.PresetRegisterAnswer | serverRTU_test.go:88-91 | with register 1000 of unit 1 preset to 0x1122 (serverRTU_test.go:169), a read of that register is answered on the wire with exactly 01 03 02 11 22 34 0D, for any payload that starts with 03 E8 00 01 (the test's request carries a fifth byte, a byte count of 00) |
| Scenarios.PresetRegisterResponse | serverRTU_test.go:88-91 | the response frame of that read carries function 3 and payload 02 11 22, whatever follows the first four payload bytes |
| Scenarios.PresetRegisterReply | serverRTU_test.go:88-91 | function 3's reply to that read is Success with byte count 2 and then 11 22 |
| Scenarios.RegisterAnswerBytes | serverRTU_test.go:91 | that response frame encodes to 01 03 02 11 22 34 0D |
| Scenarios.IllegalAddressAnswer | serverRTU_test.go:105-106 | a read of two holding registers from 0xFFFF is answered on the wire with exactly 01 83 02 C0 F1, for any payload that starts with FF FF 00 02 (the test's request carries a fifth byte) |
| Scenarios.WriteThenReadOne | functions.go:117-128 | with the default handlers for functions 3 and 6, a register written through the request loop reads back with byte count 2 and the written value |
| Scenarios.BroadcastWriteReachesEveryDevice | server_test.go:178-227 | a broadcast Write Multiple Registers is not answered, and every device then reads back the registers that were sent |
| Scenarios.CreateThenRemove | server.go:65-93 | removing a device just created gives back the original device map |
| Scenarios.UnboundAfterUnregister | server.go:96-117 | after a function code is unbound, requests for it are answered with exception code 1 and memory is unchanged |
| Scenarios.ByteFromBits | functions.go:20-31 | a byte is determined by its eight bits |
| Scenarios.CoilVector | server_test.go:73-88 | writing nine coils from 100 with value bytes FF 01 and reading sixteen coils from 100 answers 02 FF 01 |
| Scenarios.CoilVectorRead | server_test.go:79-88 | sixteen coils from 100 holding nine written bits and seven zeros read back as 02 FF 01 |

## Left out

- Serial and TCP I/O, the accept and read loops (servertu.go, servetcp.go), goroutines and the request channel (server.go:57-58, 123-125), and `Close`. One iteration of the request loop is the pure `Slave.Step`, and the connection is an opaque number.
- Logging and debug configuration (debug.go, every log call): these have no protocol behaviour.
- The TCP frame and its header are not part of this model.
- The getters `GetDevice`, `GetFunction` and `GetData` are the datatype's fields `address`, `functionCode` and `data`.
- Short payloads are excluded by preconditions: at least 4 payload bytes, and at least 5 for functions 15 and 16. In Go, `[5:]` on a shorter payload panics. `[0:4]` does not always panic: Go slices up to the capacity, and the payload that `NewRTUFrame` cuts from the packet keeps the two checksum bytes, and on the serial path the rest of the 512-byte read buffer, in its capacity. So function 5 or 6 with a 2-byte payload reads its value from the checksum bytes and echoes them. The model does not describe that case.
- The handlers also require the addressed device to exist. The Go code would index a zero `Device` with nil banks there. `Slave.Step` only calls a handler for a present device, and a broadcast only visits present devices.
- Slave.Handle: a custom handler sees only its own device, not the whole server. A Go handler receives `*Server` and could touch any device. That restriction is also what makes a broadcast independent of the iteration order.
- Slave.Step: the device map's iteration order is a parameter listing every id once, because Go's map order is unspecified.
- The serial-line test's expectations at serverRTU_test.go:108-118 are not modelled: exception 04 for an unknown unit, and an answer to a broadcast. They contradict server.go:127-140, which the model follows. That test also relies on a listener that is not part of this model.
- The checksum function `crcModbus` is not part of this model. `Crc16` implements section 6.2.2 of Modbus over Serial Line V1.02, and `Crc16.TestVectorReadInput`, `Crc16.TestVectorUnit21`, `Crc16.TestVectorException` and `Crc16.TestVectorRegister1000` pin it to the repository's test vectors. `Frames.RoundTrip` and `Frames.DecodeThenEncode` do not depend on how the checksum is computed.
- Handlers.WriteHoldingRegisters: the final check that `copy` moved exactly quantity registers is not a branch of the model. `Handlers.CopyCheckUnreachable` proves it can never fail once the earlier checks pass.
- Slave.NewServer: slot 15 holds the corrected `Handlers.WriteMultipleCoils`, while server.go:50 binds the loop as written (`Handlers.WriteMultipleCoilsAsWritten`). The two differ only for a quantity of 0, where the Go code writes coil start and the model's server writes nothing (see Findings). `Handlers.WriteMultipleCoilsAgree` proves them equal for every quantity of at least one.
- Success is exception code 0, the Go zero value of the exception type. Its declaration is not part of this model, and it never goes on the wire.

## Findings

| source | as written | input that shows it | evidently intended | confidence | as-written member | corrected member |
|---|---|---|---|---|---|---|
| functions.go:149-161 | the coil loop writes a coil before testing whether `bitCount >= numRegs`, so a request for zero coils still writes coil `start` with bit 0 of the first value byte | function 15, payload 00 00 00 00 01 01 (start 0, quantity 0, one value byte 0x01) switches coil 0 on | write exactly min(quantity, 8 × value bytes) coils, none for quantity 0 | not executed | Handlers.ZeroQuantityWritesOneCoil | Handlers.WriteMultipleCoils |
