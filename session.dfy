/** The `Server` object of fakeusb/server.py at work: the writer its handlers
    append frames to, the handlers, `handle_packet`'s dispatch through the
    class's handler table, and `send_ep_info` filling its three lists in place. */
module Sessions {
  import opened Wrappers
  import opened Wire
  import opened Serdes
  import opened Records
  import opened Codec
  import opened Builtins
  import opened Protocol
  import opened Usb
  import opened Servers
  import opened Announce
  import opened CodecLaws

  // ------------------------------------------------------------ what handlers write

  /** The bytes a run of `send_packet` calls writes, and the exception that
      ended the run, if one did. */
  datatype Outcome = Outcome(written: Bytes, failure: Option<Error>)

  /** Nothing written, nothing raised. */
  const Quiet := Outcome([], None)

  /** One `send_packet` of a frame: the frame is written whole, or nothing is
      written and the error is raised. */
  function Sent(frame: Result<Bytes, Error>): Outcome
  {
    if frame.Ok? then Outcome(frame.value, None) else Outcome([], Some(frame.error))
  }

  /** `a`, then `b` unless `a` raised. */
  function Then(a: Outcome, b: Outcome): Outcome
  {
    if a.failure.Some? then a else Outcome(a.written + b.written, b.failure)
  }

  // ------------------------------------------------------------ the handlers

  /** The frame `Server.handle_hello` sends. */
  function HelloSent(): Result<Bytes, Error>
  {
    var reply :- HelloReply(VersionString);
    Frame(reply, Int(0))
  }

  /** What `send_packet(response, id_=header.id_)` sends for a response
      that was built. */
  function Replied(response: Result<Record, Error>, header: Record): Result<Bytes, Error>
  {
    var reply :- response;
    var id :- Attr(header, "id_");
    Frame(reply, id)
  }

  /** The frame `handle_control` sends: the reply, with the request's id. */
  function ControlSent(d: Device, header: Record, packet: Record): Result<Bytes, Error>
  {
    Replied(ControlReply(d, packet), header)
  }

  /** The frame `handle_configuration` sends: the status, with the request's id. */
  function ConfigurationSent(configuration: int, header: Record): Result<Bytes, Error>
  {
    Replied(ConfigurationReply(configuration), header)
  }

  /** `connect`: `EpInfo`, `InterfaceInfo`, then `DeviceConnect`, each with
      id 0; an exception stops the rest. */
  function ConnectOutcome(d: Device): Outcome
  {
    Then(Sent(EpInfoFrame(d.interfaceDescriptors)),
      Then(Sent(InterfaceInfoFrame(d.interfaceDescriptors)), Sent(DeviceConnectFrame(d.deviceDescriptor))))
  }

  /** The handlers `Server` itself defines. */
  predicate Inherited(h: Handler)
  {
    h.IgnoreHandler? || h.HelloHandler? || h.ControlHandler? || h.ConfigurationHandler?
  }

  /** What one of `Server`'s handlers writes for a packet. */
  function Handled(d: Device, configuration: int, h: Handler, header: Record, packet: Record): Outcome
    requires Inherited(h)
  {
    match h
    case IgnoreHandler => Quiet
    case HelloHandler => Sent(HelloSent())
    case ControlHandler => Sent(ControlSent(d, header, packet))
    case ConfigurationHandler => Sent(ConfigurationSent(configuration, header))
  }

  /** `header.type_ in packet_handlers` and the lookup: a type with no handler
      gives none (the packet is dropped); a list cannot be a key. */
  function Lookup(table: map<int, Handler>, header: Record): Result<Option<Handler>, Error>
  {
    var t :- Attr(header, "type_");
    if t.List? then Err(Unhashable)
    else if t.Int? && t.n in table then Ok(Some(table[t.n]))
    else Ok(None)
  }

  /** What `handle_packet` of a `Server` writes for a packet. */
  function ServerOutcome(d: Device, configuration: int, header: Record, packet: Record): Outcome
  {
    var h := Lookup(ServerTable, header);
    if h.Err? then Outcome([], Some(h.error))
    else if h.value.None? then Quiet
    else Handled(d, configuration, h.value.value, header, packet)
  }

  /** The bytes of the header a frame starts with. */
  function HeaderSerialized(t: Value, len: Value, id: Value): Result<Bytes, Error>
  {
    var header :- Construct(Header, map["type_" := t, "length" := len, "id_" := id]);
    Encode(header)
  }

  /** A frame is the packet's body after the header built from its type, its
      length and the id. */
  lemma FrameFromParts(packet: Record, id: Value, data: Bytes, head: Result<Bytes, Error>)
    requires Encode(packet) == Ok(data) && packet.schema.typeId.Some?
    requires HeaderSerialized(Int(packet.schema.typeId.value), Int(|data|), id) == head
    ensures Frame(packet, id) == if head.Ok? then Ok(head.value + data) else Err(head.error)
  {
  }

  // ------------------------------------------------------------ the server object

  class Server {
    /** The descriptor tables of the server's class. */
    const device: Device
    /** `configuration_number`: set by `__init__`, never changed. */
    const configurationNumber: int
    /** Everything written to `writer`, in order. */
    var output: Bytes

    /** `__init__`: nothing written yet, configuration 1. */
    constructor (device: Device)
      ensures this.device == device && configurationNumber == 1 && output == []
    {
      this.device := device;
      configurationNumber := 1;
      output := [];
    }

    /** `send_packet`: serialize the packet, build and serialize the header,
        then write the header and the body. */
    method SendPacket(packet: Record, id: Value) returns (failure: Option<Error>)
      modifies this
      ensures output == old(output) + Sent(Frame(packet, id)).written
      ensures failure == Sent(Frame(packet, id)).failure
    {
      ghost var frame := Frame(packet, id);
      var data := Serialize(packet);
      if data.Err? {
        assert frame == Err(data.error);
        return Some(data.error);
      }
      if packet.schema.typeId.None? {
        assert frame == Err(MissingAttribute("type_id"));
        return Some(MissingAttribute("type_id"));
      }
      var head := SerializeHeader(Int(packet.schema.typeId.value), Int(|data.value|), id);
      if head.Err? {
        FrameFromParts(packet, id, data.value, head);
        return Some(head.error);
      }
      FrameFromParts(packet, id, data.value, head);
      output := output + head.value + data.value;
      assert output == old(output) + (head.value + data.value);
      failure := None;
    }

    /** `protocol.Header(type_=t, length=len, id_=id).serialize()`. */
    method SerializeHeader(t: Value, len: Value, id: Value) returns (r: Result<Bytes, Error>)
      ensures r == HeaderSerialized(t, len, id)
    {
      var header := Init(Header, map["type_" := t, "length" := len, "id_" := id]);
      if header.Err? {
        return Err(header.error);
      }
      r := Serialize(header.value);
    }

    /** `send_packet(response, id_=header.id_)` once the response is built. */
    method Reply(response: Result<Record, Error>, header: Record) returns (failure: Option<Error>)
      modifies this
      ensures output == old(output) + Sent(Replied(response, header)).written
      ensures failure == Sent(Replied(response, header)).failure
    {
      if response.Err? {
        return Some(response.error);
      }
      var id := Attr(header, "id_");
      if id.Err? {
        return Some(id.error);
      }
      failure := SendPacket(response.value, id.value);
    }

    /** `handle_hello`: the version padded to 64 bytes and one capability
        word, sent with id 0. */
    method HandleHello(header: Record, packet: Record) returns (failure: Option<Error>)
      modifies this
      ensures output == old(output) + Sent(HelloSent()).written
      ensures failure == Sent(HelloSent()).failure
    {
      var response := Init(Hello, map["version" := BytesValue(Ljust(VersionString, 64, 0)), "capabilities" := List([Int(0)])]);
      if response.Err? {
        return Some(response.error);
      }
      failure := SendPacket(response.value, Int(0));
    }

    /** `handle_control`: the answer's data and length put in the request,
        sent back with the request's id. */
    method HandleControl(header: Record, packet: Record) returns (failure: Option<Error>)
      modifies this
      ensures output == old(output) + Sent(ControlSent(device, header, packet)).written
      ensures failure == Sent(ControlSent(device, header, packet)).failure
    {
      var data := ControlData(device, packet);
      if data.Err? {
        return Some(data.error);
      }
      var response := Rederive(packet, map["data" := BytesValue(data.value), "length" := Int(|data.value|)]);
      failure := Reply(response, header);
    }

    /** `handle_configuration`: Success and the configuration number, with the
        request's id. */
    method HandleConfiguration(header: Record, packet: Record) returns (failure: Option<Error>)
      modifies this
      ensures output == old(output) + Sent(ConfigurationSent(configurationNumber, header)).written
      ensures failure == Sent(ConfigurationSent(configurationNumber, header)).failure
    {
      var response := Init(ConfigurationStatus, map["status" := Int(StatusCode(Success)), "configuration" := Int(configurationNumber)]);
      failure := Reply(response, header);
    }

    /** Calling one of `Server`'s handlers. */
    method Run(h: Handler, header: Record, packet: Record) returns (failure: Option<Error>)
      requires Inherited(h)
      modifies this
      ensures output == old(output) + Handled(device, configurationNumber, h, header, packet).written
      ensures failure == Handled(device, configurationNumber, h, header, packet).failure
    {
      match h
      case IgnoreHandler =>
        failure := None;
      case HelloHandler =>
        failure := HandleHello(header, packet);
      case ControlHandler =>
        failure := HandleControl(header, packet);
      case ConfigurationHandler =>
        failure := HandleConfiguration(header, packet);
    }

    /** `handle_packet` of a `Server`: the handler the table has for the
        header's type, or nothing. */
    method HandlePacket(header: Record, packet: Record) returns (failure: Option<Error>)
      modifies this
      ensures output == old(output) + ServerOutcome(device, configurationNumber, header, packet).written
      ensures failure == ServerOutcome(device, configurationNumber, header, packet).failure
    {
      var h := Lookup(ServerTable, header);
      if h.Err? {
        return Some(h.error);
      }
      if h.value.None? {
        return None;
      }
      failure := Run(h.value.value, header, packet);
    }

    /** `send_ep_info`: three 32-slot lists filled in place from the
        interface descriptors, slot 0 forced to control, sent as an `EpInfo`. */
    method SendEpInfo() returns (failure: Option<Error>)
      modifies this
      ensures output == old(output) + Sent(EpInfoFrame(device.interfaceDescriptors)).written
      ensures failure == Sent(EpInfoFrame(device.interfaceDescriptors)).failure
    {
      var types := new Value[32](_ => Int(0xff));
      var intervals := new Value[32](_ => Int(0xff));
      var interfaces := new Value[32](_ => Int(0));
      var intfs := device.interfaceDescriptors;
      assert Tables(types[..], intervals[..], interfaces[..]) == Defaults();
      assert intfs[..0] == [];
      for i := 0 to |intfs|
        invariant PlaceInterfaces(Defaults(), intfs[..i]) == Ok(Tables(types[..], intervals[..], interfaces[..]))
        invariant output == old(output)
      {
        var intfd := intfs[i];
        assert intfs[..i + 1][..i] == intfs[..i] && intfs[..i + 1][i] == intfd;
        var eps := Attr(intfd, "endpoints");
        if eps.Err? || !eps.value.List? {
          var error := if eps.Err? then eps.error else NotIterable;
          assert PlaceInterfaces(Defaults(), intfs[..i + 1]) == Err(error);
          InterfacesFail(Defaults(), intfs, i + 1);
          assert EpInfoFrame(intfs) == Err(error);
          return Some(error);
        }
        var items := eps.value.items;
        var e := PlaceItems(types, intervals, interfaces, intfd, items);
        if e.Some? {
          assert PlaceInterfaces(Defaults(), intfs[..i + 1]) == Err(e.value);
          InterfacesFail(Defaults(), intfs, i + 1);
          assert EpInfoFrame(intfs) == Err(e.value);
          return e;
        }
      }
      assert intfs[..|intfs|] == intfs;
      types[0] := Int(EpControl);
      interfaces[0] := Int(0);
      var packet := Init(EpInfo, map["type_" := List(types[..]), "interval" := List(intervals[..]), "interface" := List(interfaces[..])]);
      if packet.Err? {
        return Some(packet.error);
      }
      failure := SendPacket(packet.value, Int(0));
    }

    /** `connect`: the endpoint table, the interfaces by number, then the
        device. */
    method Connect() returns (failure: Option<Error>)
      modifies this
      ensures output == old(output) + ConnectOutcome(device).written
      ensures failure == ConnectOutcome(device).failure
    {
      ghost var o0 := output;
      failure := SendEpInfo();
      if failure.Some? {
        return;
      }
      ghost var o1 := output;
      failure := SendInterfaceInfo();
      if failure.Some? {
        ThreeSends(Sent(EpInfoFrame(device.interfaceDescriptors)), Sent(InterfaceInfoFrame(device.interfaceDescriptors)),
          Sent(DeviceConnectFrame(device.deviceDescriptor)), o0, o1, output, output);
        return;
      }
      ghost var o2 := output;
      failure := SendDeviceConnect();
      ThreeSends(Sent(EpInfoFrame(device.interfaceDescriptors)), Sent(InterfaceInfoFrame(device.interfaceDescriptors)),
        Sent(DeviceConnectFrame(device.deviceDescriptor)), o0, o1, o2, output);
    }

    /** The `InterfaceInfo` of `connect`. */
    method SendInterfaceInfo() returns (failure: Option<Error>)
      modifies this
      ensures output == old(output) + Sent(InterfaceInfoFrame(device.interfaceDescriptors)).written
      ensures failure == Sent(InterfaceInfoFrame(device.interfaceDescriptors)).failure
    {
      var info := InterfaceInfoAsWritten(device.interfaceDescriptors);
      if info.Err? {
        return Some(info.error);
      }
      failure := SendPacket(info.value, Int(0));
    }

    /** The `DeviceConnect` of `connect`. */
    method SendDeviceConnect() returns (failure: Option<Error>)
      modifies this
      ensures output == old(output) + Sent(DeviceConnectFrame(device.deviceDescriptor)).written
      ensures failure == Sent(DeviceConnectFrame(device.deviceDescriptor)).failure
    {
      var connect := DeviceConnectPacket(device.deviceDescriptor);
      if connect.Err? {
        return Some(connect.error);
      }
      failure := SendPacket(connect.value, Int(0));
    }
  }

  /** Three sends in a row, the second and third only after the one before
      went through. */
  lemma ThreeSends(a: Outcome, b: Outcome, c: Outcome, o0: Bytes, o1: Bytes, o2: Bytes, o3: Bytes)
    requires a.failure.None? && o1 == o0 + a.written && o2 == o1 + b.written
    requires b.failure.Some? ==> o3 == o2
    requires b.failure.None? ==> o3 == o2 + c.written
    ensures o3 == o0 + Then(a, Then(b, c)).written
  {
    if b.failure.None? {
      assert o0 + a.written + b.written + c.written == o0 + (a.written + (b.written + c.written));
    } else {
      assert o3 == o0 + a.written + b.written;
    }
  }

  /** The inner loop of `send_ep_info`: the items of interface `intfd` stored
      in the three lists, in order; the first failing item stops it. */
  method PlaceItems(types: array<Value>, intervals: array<Value>, interfaces: array<Value>, intfd: Record, items: seq<Value>)
    returns (failure: Option<Error>)
    requires types.Length == 32 && intervals.Length == 32 && interfaces.Length == 32
    requires types != intervals && types != interfaces && intervals != interfaces
    modifies types, intervals, interfaces
    ensures var r := PlaceEndpoints(old(Tables(types[..], intervals[..], interfaces[..])), intfd, items);
      && failure == (if r.Err? then Some(r.error) else None)
      && (r.Ok? ==> r.value == Tables(types[..], intervals[..], interfaces[..]))
  {
    ghost var start := Tables(types[..], intervals[..], interfaces[..]);
    assert items[..0] == [];
    for j := 0 to |items|
      invariant PlaceEndpoints(start, intfd, items[..j]) == Ok(Tables(types[..], intervals[..], interfaces[..]))
    {
      assert items[..j + 1][..j] == items[..j] && items[..j + 1][j] == items[j];
      var e := EndpointEntry(intfd, items[j]);
      if e.Err? {
        assert PlaceEndpoints(start, intfd, items[..j + 1]) == Err(e.error);
        EndpointsFail(start, intfd, items, j + 1);
        return Some(e.error);
      }
      if e.value.Some? {
        var entry := e.value.value;
        types[entry.slot] := Int(entry.kind);
        intervals[entry.slot] := entry.interval;
        interfaces[entry.slot] := entry.number;
      }
    }
    assert items[..|items|] == items;
    failure := None;
  }

  /** A walk over the interfaces that fails within its first `n` fails, with
      that error, as a whole. */
  lemma {:induction false} InterfacesFail(t: Tables, intfs: seq<Record>, n: nat)
    requires Sized(t) && n <= |intfs| && PlaceInterfaces(t, intfs[..n]).Err?
    ensures PlaceInterfaces(t, intfs) == PlaceInterfaces(t, intfs[..n])
  {
    if n < |intfs| {
      var init := intfs[..|intfs| - 1];
      assert init[..n] == intfs[..n];
      InterfacesFail(t, init, n);
    } else {
      assert intfs[..n] == intfs;
    }
  }

  /** The same for the items of one interface. */
  lemma {:induction false} EndpointsFail(t: Tables, intfd: Record, eps: seq<Value>, n: nat)
    requires Sized(t) && n <= |eps| && PlaceEndpoints(t, intfd, eps[..n]).Err?
    ensures PlaceEndpoints(t, intfd, eps) == PlaceEndpoints(t, intfd, eps[..n])
  {
    if n < |eps| {
      var init := eps[..|eps| - 1];
      assert init[..n] == eps[..n];
      EndpointsFail(t, intfd, init, n);
    } else {
      assert eps[..n] == eps;
    }
  }

  // ------------------------------------------------------------ what the handlers send

  /** `handle_hello` writes one frame: type 0, 68 bytes, id 0, "fakeusb"
      zero-padded to 64 bytes and the capability word 0. */
  lemma HelloSentBytes()
    ensures Sent(HelloSent()) == Outcome(HeaderBytes(0, 68, 0) + Ljust(VersionString, 64, 0) + CapabilityWord, None)
  {
    HelloFrame(VersionString);
  }

  /** A reply sent with the request's id `i` is a frame of the reply's type
      and that id, holding the serialized reply. */
  lemma RepliedFrame(response: Result<Record, Error>, header: Record, i: int)
    requires Attr(header, "id_") == Ok(Int(i))
    requires Replied(response, header).Ok?
    ensures response.Ok? && response.value.schema.typeId.Some? && Encode(response.value).Ok?
    ensures var t := response.value.schema.typeId.value; var data := Encode(response.value).value;
      InRange(U32, t) && InRange(U32, i) && InRange(U32, |data|) &&
      Replied(response, header) == Ok(HeaderBytes(t, |data|, i) + data)
  {
    assert Replied(response, header) == Frame(response.value, Int(i));
    FrameOk(response.value, i);
  }

  /** `handle_control` answers with the request's id: what it writes is a
      frame of type 100 and that id holding the serialized reply. */
  lemma ControlSentFrame(d: Device, header: Record, packet: Record, i: int)
    requires packet.schema == ControlPacket && Attr(header, "id_") == Ok(Int(i))
    requires ControlSent(d, header, packet).Ok?
    ensures ControlReply(d, packet).Ok? && Encode(ControlReply(d, packet).value).Ok?
    ensures var data := Encode(ControlReply(d, packet).value).value;
      InRange(U32, i) && InRange(U32, |data|) &&
      Sent(ControlSent(d, header, packet)) == Outcome(HeaderBytes(100, |data|, i) + data, None)
  {
    RepliedFrame(ControlReply(d, packet), header, i);
    ControlReplySchema(d, packet);
  }

  lemma ControlReplySchema(d: Device, packet: Record)
    requires ControlReply(d, packet).Ok?
    ensures ControlReply(d, packet).value.schema == packet.schema
  {
  }

  /** `handle_configuration` writes a frame of type 8 and the request's id
      holding the Success code and the configuration number, which must fit
      a byte. */
  lemma ConfigurationSentBytes(configuration: int, header: Record, i: int)
    requires Attr(header, "id_") == Ok(Int(i)) && InRange(U32, i)
    ensures Sent(ConfigurationSent(configuration, header)) ==
      if 0 <= configuration < 0x100
      then Outcome(HeaderBytes(8, 2, i) + [StatusCode(Success) as byte, configuration as byte], None)
      else Outcome([], Some(PackError))
  {
    var rr := ConfigurationRecord(configuration);
    ConfigurationReplyBytes(configuration);
    assert ConfigurationSent(configuration, header) == Frame(rr, Int(i));
    ConfigurationFrame(configuration, i);
  }

  lemma ConfigurationFrame(configuration: int, i: int)
    requires InRange(U32, i)
    ensures Frame(ConfigurationRecord(configuration), Int(i)) ==
      if 0 <= configuration < 0x100
      then Ok(HeaderBytes(8, 2, i) + [StatusCode(Success) as byte, configuration as byte])
      else Err(PackError)
  {
    var rr := ConfigurationRecord(configuration);
    ConfigurationReplyBytes(configuration);
    if 0 <= configuration < 0x100 {
      FrameOf(rr, i, [StatusCode(Success) as byte, configuration as byte], 8);
    } else {
      FrameBytes(rr, i);
    }
  }

  /** `handle_packet` of a `Server`: Hello gets the hello reply, a control
      packet the control reply, SetConfiguration and GetConfiguration the
      configuration status; Reset, CancelDataPacket and every type without a
      handler are dropped without error. */
  lemma ServerDispatch(d: Device, configuration: int, header: Record, packet: Record, t: int)
    requires Attr(header, "type_") == Ok(Int(t))
    ensures ServerOutcome(d, configuration, header, packet) ==
      if t == 0 then Sent(HelloSent())
      else if t == 100 then Sent(ControlSent(d, header, packet))
      else if t == 6 || t == 7 then Sent(ConfigurationSent(configuration, header))
      else Quiet
  {
    ServerHandlers();
  }

  /** `connect` writes `EpInfo`, `InterfaceInfo` and `DeviceConnect` in this
      order, each a frame with id 0 of its type (5, 4, 1) and length (96,
      132, 8), when the first two can be built and the device descriptor has
      its declared shape. */
  lemma ConnectOrder(d: Device)
    requires d.deviceDescriptor.schema == DeviceDescriptor && Shaped(d.deviceDescriptor)
    requires EpInfoFrame(d.interfaceDescriptors).Ok? && InterfaceInfoFrame(d.interfaceDescriptors).Ok?
    ensures DeviceConnectFrame(d.deviceDescriptor).Ok?
    ensures var e := EpInfoFrame(d.interfaceDescriptors).value;
      var i := InterfaceInfoFrame(d.interfaceDescriptors).value;
      var c := DeviceConnectFrame(d.deviceDescriptor).value;
      ConnectOutcome(d) == Outcome(e + i + c, None) && ConnectFrames(e, i, c)
  {
    var intfs := d.interfaceDescriptors;
    EpInfoShape(intfs);
    InterfaceInfoShape(intfs);
    DeviceConnectShape(d.deviceDescriptor);
    SentInOrder(EpInfoFrame(intfs).value, InterfaceInfoFrame(intfs).value, DeviceConnectFrame(d.deviceDescriptor).value);
  }

  /** The three frames of `connect`: `EpInfo` (type 5, 96 bytes),
      `InterfaceInfo` (type 4, 132 bytes) and `DeviceConnect` (type 1, 8
      bytes), each with id 0. */
  predicate ConnectFrames(e: Bytes, i: Bytes, c: Bytes)
  {
    && |e| == 108 && e[..12] == HeaderBytes(5, 96, 0)
    && |i| == 144 && i[..12] == HeaderBytes(4, 132, 0)
    && |c| == 20 && c[..12] == HeaderBytes(1, 8, 0)
  }

  lemma SentInOrder(e: Bytes, i: Bytes, c: Bytes)
    ensures Then(Sent(Ok(e)), Then(Sent(Ok(i)), Sent(Ok(c)))) == Outcome(e + i + c, None)
  {
    assert e + (i + c) == e + i + c;
  }

  /** The `EpInfo` frame: 12 header bytes and the three 32-byte tables. */
  lemma EpInfoShape(intfs: seq<Record>)
    requires EpInfoFrame(intfs).Ok?
    ensures |EpInfoFrame(intfs).value| == 108 && EpInfoFrame(intfs).value[..12] == HeaderBytes(5, 96, 0)
  {
    EpInfoFrameBytes(intfs);
    var all := ToBytes(Flat(EpTables(intfs).value)).value;
    assert |Ints(all)| == 96;
    assert (HeaderBytes(5, 96, 0) + all)[..12] == HeaderBytes(5, 96, 0);
  }

  /** The `InterfaceInfo` frame: 12 header bytes and 132 of payload. */
  lemma InterfaceInfoShape(intfs: seq<Record>)
    requires InterfaceInfoFrame(intfs).Ok?
    ensures |InterfaceInfoFrame(intfs).value| == 144 && InterfaceInfoFrame(intfs).value[..12] == HeaderBytes(4, 132, 0)
  {
    InterfaceInfoListing(intfs);
  }

  /** The `DeviceConnect` frame of a well-formed device descriptor: 12 header
      bytes and 8 of payload. */
  lemma DeviceConnectShape(dev: Record)
    requires dev.schema == DeviceDescriptor && Shaped(dev)
    ensures DeviceConnectFrame(dev).Ok?
    ensures |DeviceConnectFrame(dev).value| == 20 && DeviceConnectFrame(dev).value[..12] == HeaderBytes(1, 8, 0)
  {
    DeviceConnectFrameBytes(dev);
    var a := dev.attrs;
    DeviceConnectPayload(a["device_class"].n, a["device_subclass"].n, a["device_protocol"].n, a["id_vendor"].n, a["id_product"].n);
  }

  lemma DeviceConnectPayload(c: int, sc: int, p: int, v: int, pr: int)
    requires 0 <= c < 0x100 && 0 <= sc < 0x100 && 0 <= p < 0x100 && InRange(U16, v) && InRange(U16, pr)
    ensures var f := HeaderBytes(1, 8, 0) + [SpeedFull as byte, c as byte, sc as byte, p as byte] + Half(v) + Half(pr);
      |f| == 20 && f[..12] == HeaderBytes(1, 8, 0)
  {
    var h := HeaderBytes(1, 8, 0);
    var rest := [SpeedFull as byte, c as byte, sc as byte, p as byte] + Half(v) + Half(pr);
    assert h + [SpeedFull as byte, c as byte, sc as byte, p as byte] + Half(v) + Half(pr) == h + rest;
    assert (h + rest)[..12] == h;
  }

  /** An exception in `connect` stops it: a failing endpoint table sends
      nothing, a failing `InterfaceInfo` leaves only the `EpInfo` written. */
  lemma ConnectStops(d: Device)
    ensures EpInfoFrame(d.interfaceDescriptors).Err? ==>
      ConnectOutcome(d) == Outcome([], Some(EpInfoFrame(d.interfaceDescriptors).error))
    ensures EpInfoFrame(d.interfaceDescriptors).Ok? && InterfaceInfoFrame(d.interfaceDescriptors).Err? ==>
      ConnectOutcome(d) == Outcome(EpInfoFrame(d.interfaceDescriptors).value, Some(InterfaceInfoFrame(d.interfaceDescriptors).error))
  {
    if EpInfoFrame(d.interfaceDescriptors).Ok? {
      var e := EpInfoFrame(d.interfaceDescriptors).value;
      assert e + [] == e;
    }
  }
}
