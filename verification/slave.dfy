/** The Modbus slave (server.go): the device map, the 256-slot function table, request
    handling, and one step of the serialising request loop. */
module Slave {
  import opened Wrappers
  import opened Modbus
  import opened Registers
  import opened Frames
  import opened Handlers

  /** A function handler: it sees the memory of the addressed device and the request. */
  type Handler = (Device, RtuFrame) --> Reply

  /** The function table, indexed by function code; `None` marks an unbound code. */
  type Table = t: seq<Option<Handler>> | |t| == 256 witness seq(256, _ => None)

  datatype Server = Server(table: Table, devices: map<byte, Device>)

  /** The connection a request arrived on; the model records what is written to it. */
  type Connection = nat

  /** A decoded frame together with the connection its response goes back to. */
  datatype Request = Request(conn: Connection, frame: RtuFrame)

  datatype DeviceError = InvalidId(id: byte) | AlreadyExists(id: byte) | NotFound(id: byte)

  /** The function codes bound by default. */
  const DefaultCodes: set<byte> := {1, 2, 3, 4, 5, 6, 15, 16}

  function DefaultHandler(code: byte): Option<Handler>
  {
    match code
    case 1 => Some(ReadCoils)
    case 2 => Some(ReadDiscreteInputs)
    case 3 => Some(ReadHoldingRegisters)
    case 4 => Some(ReadInputRegisters)
    case 5 => Some(WriteSingleCoil)
    case 6 => Some(WriteHoldingRegister)
    case 15 => Some(WriteMultipleCoils)
    case 16 => Some(WriteHoldingRegisters)
    case _ => None
  }

  /** The first `n` slots of the default function table. */
  function DefaultSlots(n: nat): (r: seq<Option<Handler>>)
    requires n <= 256
    ensures |r| == n
    ensures forall code :: 0 <= code < n ==> r[code] == DefaultHandler(code)
  {
    if n == 0 then [] else DefaultSlots(n - 1) + [DefaultHandler(n - 1)]
  }

  /** A server with the eight standard functions bound and device 1 present. */
  function NewServer(): (s: Server)
    ensures forall code: byte :: s.table[code].Some? <==> code in DefaultCodes
    ensures s.table[1] == Some(ReadCoils) && s.table[2] == Some(ReadDiscreteInputs)
    ensures s.table[3] == Some(ReadHoldingRegisters) && s.table[4] == Some(ReadInputRegisters)
    ensures s.table[5] == Some(WriteSingleCoil) && s.table[6] == Some(WriteHoldingRegister)
    ensures s.table[15] == Some(WriteMultipleCoils) && s.table[16] == Some(WriteHoldingRegisters)
    ensures s.devices == map[1 := ZeroDevice()]
  {
    Server(DefaultSlots(256), map[1 := ZeroDevice()])
  }

  /** Adds a zero-filled device under an unused id in 1..247. */
  function NewDevice(s: Server, id: byte): (r: Result<Server, DeviceError>)
    ensures !(IdMin <= id <= IdMax) ==> r == Err(InvalidId(id))
    ensures IdMin <= id <= IdMax && id in s.devices ==> r == Err(AlreadyExists(id))
    ensures r.Ok? <==> IdMin <= id <= IdMax && id !in s.devices
    ensures r.Ok? ==>
      && r.value.table == s.table
      && r.value.devices.Keys == s.devices.Keys + {id}
      && r.value.devices[id] == ZeroDevice()
      && forall other :: other in s.devices ==> r.value.devices[other] == s.devices[other]
  {
    if id < IdMin || id > IdMax then Err(InvalidId(id))
    else if id in s.devices then Err(AlreadyExists(id))
    else Ok(s.(devices := s.devices[id := ZeroDevice()]))
  }

  /** Deletes a present device with an id in 1..247. */
  function RemoveDevice(s: Server, id: byte): (r: Result<Server, DeviceError>)
    ensures !(IdMin <= id <= IdMax) ==> r == Err(InvalidId(id))
    ensures IdMin <= id <= IdMax && id !in s.devices ==> r == Err(NotFound(id))
    ensures r.Ok? <==> IdMin <= id <= IdMax && id in s.devices
    ensures r.Ok? ==>
      && r.value.table == s.table
      && r.value.devices.Keys == s.devices.Keys - {id}
      && forall other :: other in r.value.devices ==> r.value.devices[other] == s.devices[other]
  {
    if id < IdMin || id > IdMax then Err(InvalidId(id))
    else if id !in s.devices then Err(NotFound(id))
    else Ok(s.(devices := s.devices - {id}))
  }

  /** Binds (or, with `None`, unbinds) one function code. */
  function RegisterFunctionHandler(s: Server, code: byte, handler: Option<Handler>): (r: Server)
    ensures r.table[code] == handler
    ensures forall other: byte :: other != code ==> r.table[other] == s.table[other]
    ensures r.devices == s.devices
  {
    s.(table := s.table[code := handler])
  }

  /** The result of handling one request: the response frame and the device map afterwards. */
  datatype Handled = Handled(response: RtuFrame, devices: map<byte, Device>)

  /** Whether the request's function code has a handler. */
  predicate Bound(s: Server, request: RtuFrame)
  {
    s.table[request.functionCode].Some?
  }

  /** Handles one request: the response starts as a copy of the request; a bound handler
      supplies its payload; any exception but `Success` replaces it with the exception
      encoding, and an unbound code is `IllegalFunction`. */
  function Handle(s: Server, request: RtuFrame): (r: Handled)
    requires Bound(s, request) ==>
      request.address in s.devices &&
      s.table[request.functionCode].value.requires(s.devices[request.address], request)
    ensures r.devices.Keys == s.devices.Keys
    ensures r.response.address == request.address
    ensures !Bound(s, request) ==>
      && r.devices == s.devices
      && r.response.functionCode == ExceptionFunction(request.functionCode)
      && r.response.data == [IllegalFunction.Code()]
    ensures Bound(s, request) ==>
      var reply := s.table[request.functionCode].value(s.devices[request.address], request);
      && r.devices == s.devices[request.address := reply.device]
      && (reply.exception == Success ==>
            r.response.functionCode == request.functionCode && r.response.data == reply.data)
      && (reply.exception != Success ==>
            r.response.functionCode == ExceptionFunction(request.functionCode) &&
            r.response.data == [reply.exception.Code()])
  {
    var response := Copy(request);
    var handler := s.table[request.functionCode];
    if handler.Some? then
      var reply := handler.value(s.devices[request.address], request);
      var response := SetData(response, reply.data);
      var devices := s.devices[request.address := reply.device];
      if reply.exception != Success then Handled(SetException(response, reply.exception), devices)
      else Handled(response, devices)
    else
      Handled(SetException(response, IllegalFunction), s.devices)
  }

  /** A handler accepts every request with this payload, whatever the device and address. */
  ghost predicate Accepts(handler: Handler, data: seq<byte>)
  {
    forall d: Device, f: RtuFrame | f.data == data :: handler.requires(d, f)
  }

  /** The request loop may hand the frame to its handler: the handler, if any, accepts it. */
  ghost predicate Serviceable(s: Server, frame: RtuFrame)
  {
    Bound(s, frame) ==> Accepts(s.table[frame.functionCode].value, frame.data)
  }

  /** The memory device `id` has after a broadcast of `frame`: the handler's effect on it
      when the frame is addressed to `id`. */
  ghost function After(s: Server, frame: RtuFrame, id: byte): Device
    requires id in s.devices && Serviceable(s, frame)
  {
    if Bound(s, frame) then s.table[frame.functionCode].value(s.devices[id], SetDevice(frame, id)).device
    else s.devices[id]
  }

  /** The device map after a broadcast, independent of the order devices are visited in. */
  ghost function BroadcastEffect(s: Server, frame: RtuFrame): map<byte, Device>
    requires Serviceable(s, frame)
  {
    map id | id in s.devices :: After(s, frame, id)
  }

  /** The broadcast loop: the frame is re-addressed to each id in turn and handled; the
      responses are discarded. */
  function Broadcast(s: Server, frame: RtuFrame, ids: seq<byte>): (r: map<byte, Device>)
    requires forall i :: 0 <= i < |ids| ==> ids[i] in s.devices
    requires Serviceable(s, frame)
    ensures r.Keys == s.devices.Keys
    decreases |ids|
  {
    if |ids| == 0 then s.devices
    else
      var handled := Handle(s, SetDevice(frame, ids[0]));
      Broadcast(s.(devices := handled.devices), frame, ids[1..])
  }

  /** `ids` lists every element of `keys` exactly once. */
  ghost predicate Enumerates(ids: seq<byte>, keys: set<byte>)
  {
    && (forall i, j :: 0 <= i < j < |ids| ==> ids[i] != ids[j])
    && (forall i :: 0 <= i < |ids| ==> ids[i] in keys)
    && (forall k :: k in keys ==> k in ids)
  }

  /** Broadcasting over distinct ids changes exactly the listed devices, each as if the frame
      had been addressed to it alone. */
  lemma {:induction false} BroadcastApplies(s: Server, frame: RtuFrame, ids: seq<byte>)
    requires forall i :: 0 <= i < |ids| ==> ids[i] in s.devices
    requires forall i, j :: 0 <= i < j < |ids| ==> ids[i] != ids[j]
    requires Serviceable(s, frame)
    ensures var r := Broadcast(s, frame, ids);
      forall id :: id in s.devices ==> r[id] == (if id in ids then After(s, frame, id) else s.devices[id])
    decreases |ids|
  {
    if |ids| > 0 {
      var handled := Handle(s, SetDevice(frame, ids[0]));
      var s' := s.(devices := handled.devices);
      BroadcastApplies(s', frame, ids[1..]);
      forall id | id in s.devices
        ensures Broadcast(s, frame, ids)[id] == (if id in ids then After(s, frame, id) else s.devices[id])
      {
        if id == ids[0] {
          assert id !in ids[1..];
        } else {
          assert s'.devices[id] == s.devices[id];
          assert id in ids <==> id in ids[1..];
        }
      }
    }
  }

  /** Whatever order a broadcast visits the devices in, the resulting memory is the same. */
  lemma BroadcastOrderIndependent(s: Server, frame: RtuFrame, ids: seq<byte>)
    requires Enumerates(ids, s.devices.Keys)
    requires Serviceable(s, frame)
    ensures Broadcast(s, frame, ids) == BroadcastEffect(s, frame)
  {
    BroadcastApplies(s, frame, ids);
  }

  /** What the loop wrote back: the encoded response and the connection it went to. */
  datatype Written = Written(conn: Connection, bytes: seq<byte>)

  datatype StepResult = StepResult(server: Server, written: Option<Written>)

  /** One iteration of the request loop. A broadcast is handled for every device, in the
      order `order` (the Go code iterates its device map in no fixed order), and answered by
      nobody; a unicast to an unknown device is dropped; any other request is handled and its
      encoded response written back. */
  function Step(s: Server, request: Request, order: seq<byte>): (r: StepResult)
    requires request.frame.address == BroadcastId ==> Enumerates(order, s.devices.Keys)
    requires request.frame.address == BroadcastId || request.frame.address in s.devices ==>
      Serviceable(s, request.frame)
    ensures r.server.table == s.table
    ensures request.frame.address == BroadcastId ==>
      r.written == None && r.server.devices == BroadcastEffect(s, request.frame)
    ensures request.frame.address != BroadcastId && request.frame.address !in s.devices ==>
      r.written == None && r.server.devices == s.devices
    ensures request.frame.address != BroadcastId && request.frame.address in s.devices ==>
      var handled := Handle(s, request.frame);
      && r.written == Some(Written(request.conn, Bytes(handled.response)))
      && r.server.devices == handled.devices
  {
    var frame := request.frame;
    if frame.address == BroadcastId then
      BroadcastOrderIndependent(s, frame, order);
      StepResult(s.(devices := Broadcast(s, frame, order)), None)
    else if frame.address !in s.devices then
      StepResult(s, None)
    else
      var handled := Handle(s, frame);
      StepResult(s.(devices := handled.devices), Some(Written(request.conn, Bytes(handled.response))))
  }
}
