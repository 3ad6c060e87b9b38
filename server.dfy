/** The request side of fakeusb/server.py: the frames `send_packet` writes,
    the handler tables the metaclass `ServerMeta` layers, and the `Server`
    class with its handlers for the hello exchange, control transfers, the
    configuration requests and the connect announcement. */
module Servers {
  import opened Wrappers
  import opened Wire
  import opened Serdes
  import opened Records
  import opened Codec
  import opened CodecLaws
  import opened Layouts
  import opened Builtins
  import opened Protocol
  import opened Usb

  // ------------------------------------------------------------ frames

  /** What `send_packet(packet, id_)` writes: a `Header` naming the packet's
      `type_id`, the length of its serialization and the id, serialized, then
      the serialized packet. */
  function Frame(packet: Record, id: Value): Result<Bytes, Error>
  {
    var data :- Encode(packet);
    if packet.schema.typeId.None? then Err(MissingAttribute("type_id"))
    else
      var header :- Construct(Header, map["type_" := Int(packet.schema.typeId.value), "length" := Int(|data|), "id_" := id]);
      var head :- Encode(header);
      Ok(head + data)
  }

  /** The 12 bytes of a frame header: `type_`, `length` and `id_` as
      little-endian u32s. */
  function HeaderBytes(t: int, len: int, id: int): (r: Bytes)
    requires InRange(U32, t) && InRange(U32, len) && InRange(U32, id)
    ensures |r| == 12
  {
    EncodeUInt(t, 4) + EncodeUInt(len, 4) + EncodeUInt(id, 4)
  }

  /** The bytes of a frame: three little-endian u32s — the packet's `type_id`,
      the body length and the id — followed by the body; it fails where the
      body fails to serialize, where the class has no `type_id`, and with
      struct.error where a header value does not fit 32 bits. */
  lemma FrameBytes(packet: Record, id: int)
    ensures Frame(packet, Int(id)) ==
      if Encode(packet).Err? then Err(Encode(packet).error)
      else if packet.schema.typeId.None? then Err(MissingAttribute("type_id"))
      else
        var t := packet.schema.typeId.value;
        var data := Encode(packet).value;
        if InRange(U32, t) && InRange(U32, |data|) && InRange(U32, id)
        then Ok(HeaderBytes(t, |data|, id) + data)
        else Err(PackError)
  {
    if Encode(packet).Ok? && packet.schema.typeId.Some? {
      var t := packet.schema.typeId.value;
      var data := Encode(packet).value;
      assert HeaderRecord(t, |data|, id).attrs == map["type_" := Int(t), "length" := Int(|data|), "id_" := Int(id)];
      HeaderConstruct(t, |data|, id);
      HeaderEncoding(t, |data|, id);
    }
  }

  /** The frame of a packet whose body serializes, with header values in range. */
  lemma FrameOf(packet: Record, id: int, data: Bytes, t: nat)
    requires Encode(packet) == Ok(data) && packet.schema.typeId == Some(t)
    requires InRange(U32, t) && InRange(U32, |data|) && InRange(U32, id)
    ensures Frame(packet, Int(id)) == Ok(HeaderBytes(t, |data|, id) + data)
  {
    FrameBytes(packet, id);
  }

  /** A frame that was written holds the header values in range. */
  lemma FrameOk(packet: Record, id: int)
    requires Frame(packet, Int(id)).Ok?
    ensures packet.schema.typeId.Some? && Encode(packet).Ok?
    ensures var t := packet.schema.typeId.value; var data := Encode(packet).value;
      && InRange(U32, t) && InRange(U32, |data|) && InRange(U32, id)
      && Frame(packet, Int(id)).value == HeaderBytes(t, |data|, id) + data
  {
    FrameBytes(packet, id);
  }

  /** What the framing loop of `handle` reads back from a frame: the first 12
      bytes unserialize to the header announcing the body's length, and the
      rest is the serialized packet. */
  lemma FrameReadsBack(packet: Record, id: int)
    requires Frame(packet, Int(id)).Ok?
    ensures packet.schema.typeId.Some? && Encode(packet).Ok?
    ensures var f := Frame(packet, Int(id)).value;
      && |f| >= 12
      && Decode(Header, f[..12]) == Ok(HeaderRecord(packet.schema.typeId.value, |f| - 12, id))
      && f[12..] == Encode(packet).value
  {
    FrameOk(packet, id);
    var t := packet.schema.typeId.value;
    var data := Encode(packet).value;
    var head := HeaderBytes(t, |data|, id);
    var f := Frame(packet, Int(id)).value;
    assert f == head + data;
    assert f[..12] == head && f[12..] == data;
    HeaderDecoding(t, |data|, id);
  }

  /** The body of a frame of a declared packet class, holding values of the
      declared shapes, unserializes to the packet sent. */
  lemma FrameRoundTrip(packet: Record, id: int)
    requires Frame(packet, Int(id)).Ok? && packet.schema in Packets && Shaped(packet)
    ensures |Frame(packet, Int(id)).value| >= 12
    ensures Decode(packet.schema, Frame(packet, Int(id)).value[12..]) == Ok(packet)
  {
    FrameReadsBack(packet, id);
    PacketRoundTrip(packet);
  }

  // ------------------------------------------------------------ handler tables

  /** The handler methods a `packet_handlers` table maps a `type_id` to; the
      last two are the ones `CDCServer` adds (examples/cdc.py). */
  datatype Handler =
    | IgnoreHandler         // `handle_ignore`
    | HelloHandler          // `Server.handle_hello`
    | ControlHandler        // `handle_control`
    | ConfigurationHandler  // `handle_configuration`
    | CdcHelloHandler       // `CDCServer.handle_hello`
    | BulkHandler           // `CDCServer.handle_bulk`

  /** The bases' tables, each updating the dictionary built so far. */
  function MergeAll(bases: seq<map<int, Handler>>): map<int, Handler>
  {
    if bases == [] then map[] else MergeAll(bases[..|bases| - 1]) + bases[|bases| - 1]
  }

  /** `{k.type_id: v for k, v in entries}`, with the entries before
      `entries` already in `acc`: a class without a `type_id` fails with
      AttributeError; a later entry for the same id wins. */
  function OwnEntries(entries: seq<(Schema, Handler)>, acc: map<int, Handler>): Result<map<int, Handler>, Error>
  {
    if entries == [] then Ok(acc)
    else if entries[0].0.typeId.None? then Err(MissingAttribute("type_id"))
    else OwnEntries(entries[1..], acc[entries[0].0.typeId.value as int := entries[0].1])
  }

  /** The table `ServerMeta.__new__` gives a class with the tables of `bases`
      and, when the class body declares one, its own `packet_handlers` entries. */
  function Layered(bases: seq<map<int, Handler>>, own: Option<seq<(Schema, Handler)>>): Result<map<int, Handler>, Error>
  {
    var mine :- if own.None? then Ok(map[]) else OwnEntries(own.value, map[]);
    Ok(MergeAll(bases) + mine)
  }

  /** `ServerMeta.__new__`: update a dictionary with each base's table in
      turn, then with the class's own entries keyed by `type_id`. */
  method Layer(bases: seq<map<int, Handler>>, own: Option<seq<(Schema, Handler)>>)
    returns (r: Result<map<int, Handler>, Error>)
    ensures r == Layered(bases, own)
  {
    var handlers: map<int, Handler> := map[];
    for i := 0 to |bases|
      invariant handlers == MergeAll(bases[..i])
    {
      assert bases[..i + 1][..i] == bases[..i];
      handlers := handlers + bases[i];
    }
    assert bases[..|bases|] == bases;
    assert handlers + map[] == handlers;
    if own.Some? {
      var mine :- OwnEntries(own.value, map[]);
      handlers := handlers + mine;
    }
    r := Ok(handlers);
  }

  /** Entry `j` is the last of `entries` for the id `k`. */
  predicate LastEntry(entries: seq<(Schema, Handler)>, j: int, k: int)
  {
    && 0 <= j < |entries| && entries[j].0.typeId == Some(k)
    && forall j' :: j < j' < |entries| ==> entries[j'].0.typeId != Some(k)
  }

  /** Base `i` is the last of `bases` whose table has the id `k`. */
  predicate LastBase(bases: seq<map<int, Handler>>, i: int, k: int)
  {
    0 <= i < |bases| && k in bases[i] && forall i' :: i < i' < |bases| ==> k !in bases[i']
  }

  /** The own entries are read exactly when every class has a `type_id`. */
  lemma {:induction false} OwnEntriesOk(entries: seq<(Schema, Handler)>, acc: map<int, Handler>)
    ensures OwnEntries(entries, acc).Ok? <==> forall j :: 0 <= j < |entries| ==> entries[j].0.typeId.Some?
    ensures OwnEntries(entries, acc).Err? ==> OwnEntries(entries, acc).error == MissingAttribute("type_id")
  {
    if entries != [] && entries[0].0.typeId.Some? {
      OwnEntriesOk(entries[1..], acc[entries[0].0.typeId.value as int := entries[0].1]);
      assert forall j :: 1 <= j < |entries| ==> entries[j] == entries[1..][j - 1];
    }
  }

  /** The own entries map each declared `type_id` to the handler of its last
      entry, on top of what was there before. */
  lemma {:induction false} OwnEntriesLookup(entries: seq<(Schema, Handler)>, acc: map<int, Handler>, k: int)
    requires OwnEntries(entries, acc).Ok?
    ensures k in OwnEntries(entries, acc).value <==>
      k in acc || exists j :: 0 <= j < |entries| && entries[j].0.typeId == Some(k)
    ensures forall j :: LastEntry(entries, j, k) ==>
      k in OwnEntries(entries, acc).value && OwnEntries(entries, acc).value[k] == entries[j].1
    ensures (forall j :: 0 <= j < |entries| ==> entries[j].0.typeId != Some(k)) && k in acc ==>
      OwnEntries(entries, acc).value[k] == acc[k]
  {
    if entries != [] {
      var next := acc[entries[0].0.typeId.value as int := entries[0].1];
      OwnEntriesLookup(entries[1..], next, k);
      assert forall j :: 1 <= j < |entries| ==> entries[j] == entries[1..][j - 1];
      forall j | LastEntry(entries, j, k)
        ensures OwnEntries(entries, acc).value[k] == entries[j].1
      {
        if j > 0 {
          assert LastEntry(entries[1..], j - 1, k);
        } else {
          assert forall j' :: 0 <= j' < |entries[1..]| ==> entries[1..][j'].0.typeId != Some(k);
        }
      }
      if exists j :: 0 <= j < |entries| && entries[j].0.typeId == Some(k) {
        var j :| 0 <= j < |entries| && entries[j].0.typeId == Some(k);
        if j > 0 { assert entries[1..][j - 1].0.typeId == Some(k); }
      }
    }
  }

  /** The merged bases hold each id of some base, with the handler of the last
      base that has it. */
  lemma {:induction false} MergeAllLookup(bases: seq<map<int, Handler>>, k: int)
    ensures k in MergeAll(bases) <==> exists i :: 0 <= i < |bases| && k in bases[i]
    ensures forall i :: LastBase(bases, i, k) ==> k in MergeAll(bases) && MergeAll(bases)[k] == bases[i][k]
  {
    if bases != [] {
      var n := |bases| - 1;
      var front := bases[..n];
      MergeAllLookup(front, k);
      assert forall i :: 0 <= i < n ==> front[i] == bases[i];
      assert MergeAll(bases) == MergeAll(front) + bases[n];
      forall i | LastBase(bases, i, k)
        ensures k in MergeAll(bases) && MergeAll(bases)[k] == bases[i][k]
      {
        if i < n {
          assert LastBase(front, i, k);
        }
      }
      if k in MergeAll(bases) && k !in bases[n] {
        var i :| 0 <= i < n && k in front[i];
        assert k in bases[i];
      }
    }
  }

  /** Handler-table layering: a class's table holds the ids of its own entries
      and of its bases'; its own entries override, and an id only the bases
      have keeps the handler of the last base that has it. */
  lemma LayeredLookup(bases: seq<map<int, Handler>>, own: Option<seq<(Schema, Handler)>>, k: int)
    requires Layered(bases, own).Ok?
    ensures var r := Layered(bases, own).value;
      k in r <==>
        (exists i :: 0 <= i < |bases| && k in bases[i]) ||
        (own.Some? && exists j :: 0 <= j < |own.value| && own.value[j].0.typeId == Some(k))
    ensures var r := Layered(bases, own).value;
      own.Some? ==> forall j :: LastEntry(own.value, j, k) ==> k in r && r[k] == own.value[j].1
    ensures var r := Layered(bases, own).value;
      (own.None? || forall j :: 0 <= j < |own.value| ==> own.value[j].0.typeId != Some(k)) ==>
        forall i :: LastBase(bases, i, k) ==> k in r && r[k] == bases[i][k]
  {
    MergeAllLookup(bases, k);
    if own.Some? {
      OwnEntriesLookup(own.value, map[], k);
    }
  }

  /** A class body without `packet_handlers` always gets a table; one with
      entries gets one exactly when each class named has a `type_id`. */
  lemma LayeredOk(bases: seq<map<int, Handler>>, own: Option<seq<(Schema, Handler)>>)
    ensures Layered(bases, own).Ok? <==>
      own.None? || forall j :: 0 <= j < |own.value| ==> own.value[j].0.typeId.Some?
  {
    if own.Some? {
      OwnEntriesOk(own.value, map[]);
    }
  }

  /** `Server.packet_handlers` as written in the class body. */
  const ServerEntries: seq<(Schema, Handler)> :=
    [ (Reset, IgnoreHandler), (Hello, HelloHandler), (ControlPacket, ControlHandler),
      (SetConfiguration, ConfigurationHandler), (GetConfiguration, ConfigurationHandler),
      (CancelDataPacket, IgnoreHandler)]

  /** `Server.packet_handlers` after `ServerMeta`: keyed by `type_id`. */
  const ServerTable: map<int, Handler> :=
    map[3 := IgnoreHandler, 0 := HelloHandler, 100 := ControlHandler, 6 := ConfigurationHandler,
        7 := ConfigurationHandler, 21 := IgnoreHandler]

  /** `Server` has no bases with tables; its table is its own entries by `type_id`. */
  lemma ServerHandlers()
    ensures Layered([], Some(ServerEntries)) == Ok(ServerTable)
  {
    var es := ServerEntries;
    var m0: map<int, Handler> := map[];
    var m1 := m0[3 := IgnoreHandler];
    var m2 := m1[0 := HelloHandler];
    var m3 := m2[100 := ControlHandler];
    var m4 := m3[6 := ConfigurationHandler];
    var m5 := m4[7 := ConfigurationHandler];
    var m6 := m5[21 := IgnoreHandler];
    assert es[5..][1..] == es[6..];
    assert es[4..][1..] == es[5..];
    assert es[3..][1..] == es[4..];
    assert es[2..][1..] == es[3..];
    assert es[1..][1..] == es[2..];
    assert OwnEntries(es[5..], m5) == Ok(m6);
    assert OwnEntries(es[4..], m4) == Ok(m6);
    assert OwnEntries(es[3..], m3) == Ok(m6);
    assert OwnEntries(es[2..], m2) == Ok(m6);
    assert OwnEntries(es[1..], m1) == Ok(m6);
    assert OwnEntries(es, m0) == Ok(m6);
    assert m6 == ServerTable;
    assert MergeAll([]) + ServerTable == ServerTable;
  }

  // ------------------------------------------------------------ replies

  /** `Server.version_string`, "fakeusb", as the bytes `.encode()` gives. */
  const VersionString: Bytes := [0x66, 0x61, 0x6b, 0x65, 0x75, 0x73, 0x62]

  /** The one capability word of a `Hello` reply, 0, as a little-endian u32. */
  const CapabilityWord: Bytes := [0, 0, 0, 0]

  /** `Server.device_speed`. */
  const DeviceSpeed := SpeedFull

  /** The `Hello` that `handle_hello` answers with: the version zero-padded
      to 64 bytes (longer versions are not cut) and one capability word, 0. */
  function HelloReply(version: Bytes): Result<Record, Error>
  {
    Construct(Hello, map["version" := BytesValue(Ljust(version, 64, 0)), "capabilities" := List([Int(0)])])
  }

  /** A `Hello` with the given version bytes and capabilities `[0]`. */
  function HelloRecord(version: Bytes): Record
  {
    Record(Hello, map["version" := BytesValue(version), "capabilities" := List([Int(0)])])
  }

  lemma HelloNames()
    ensures Names(AllFields(Hello)) == {"version", "capabilities"}
  {
    HelloLayout();
    assert AllFields(Hello) == HelloFixed + CapabilitiesTrailer;
    NamesFromIsNames(HelloFixed + CapabilitiesTrailer);
  }

  /** The reply is always built. */
  lemma HelloReplyBuilt(version: Bytes)
    ensures HelloReply(version) == Ok(HelloRecord(Ljust(version, 64, 0)))
  {
    HelloLayout();
    HelloNames();
    ConstructAll(Hello, HelloRecord(Ljust(version, 64, 0)).attrs);
  }

  /** A `Hello` serializes to its version bytes, when there are exactly 64 of
      them, and the capability word; other versions fail with struct.error. */
  lemma HelloEncoding(version: Bytes)
    ensures Encode(HelloRecord(version)) ==
      if |version| == 64 then Ok(version + CapabilityWord) else Err(PackError)
  {
    var rr := HelloRecord(version);
    HelloLayout();
    assert !IsEmpty(Hello) by { assert AllFields(Hello) != []; }
    HelloValues(version);
    HelloFormat();
    PackBytes(version);
    if |version| == 64 {
      PackOfInts(Repeat([U8], 64), version);
      HelloCapabilities(rr);
      assert Encode(rr) == Ok(version + CapabilityWord);
    } else {
      RepeatOne(U8, 64);
      assert !Fits(Repeat([U8], 64), version);
      PackUnfit(Repeat([U8], 64), version);
    }
  }

  lemma HelloValues(version: Bytes)
    ensures RawValues(HelloRecord(version)) == Ok(Ints(version))
  {
    var rr := HelloRecord(version);
    HelloLayout();
    assert HelloFixed[1..] == [];
    assert FlattenFields(rr, HelloFixed) == Ok(Ints(version) + []);
    assert Ints(version) + [] == Ints(version);
  }

  lemma HelloFormat()
    ensures Format(Hello) == Repeat([U8], 64)
  {
    HelloLayout();
    FormatFromIsJoin(Hello, HelloFixed);
    assert HelloFixed[1..] == [];
    assert FormatFrom(HelloFixed) == Repeat([U8], 64) + [];
  }

  lemma HelloCapabilities(rr: Record)
    requires rr.schema == Hello && "capabilities" in rr.attrs && rr.attrs["capabilities"] == List([Int(0)])
    ensures TrailerBytes(rr, Trailers(Hello)) == Ok(CapabilityWord)
  {
    HelloLayout();
    CapabilityPack();
    SingleTrailerBytes(rr, CapabilitiesTrailer[0], CapabilityWord);
  }

  /** The capability list `[0]` packs to one zero u32 word. */
  lemma CapabilityPack()
    ensures VariableSerialize(PrimElem(U32), List([Int(0)])) == Ok(CapabilityWord)
  {
    RepeatOne(U32, 1);
    assert Repeat([U32], 1) == [U32];
    assert Ints([0]) == [Int(0)];
    PackOfInts([U32], [0]);
    assert EncodeUInt(0, 4) == [0, 0, 0, 0];
    assert PackInts([U32], [0]) == [0, 0, 0, 0];
  }

  /** A single trailer serializes to its `variable_serialize` bytes. */
  lemma SingleTrailerBytes(rr: Record, t: Field, b: Bytes)
    requires t.ty.ArrayOf? && t.name in rr.attrs
    requires VariableSerialize(t.ty.elem, rr.attrs[t.name]) == Ok(b)
    ensures TrailerBytes(rr, [t]) == Ok(b)
  {
    assert [t][0] == t && [t][1..] == [];
    assert b + [] == b;
  }

  /** The frame `handle_hello` sends for a version string: a header for a
      packet of type 0 and 68 bytes with id 0, the version padded to 64 bytes
      and the capability word; a version over 64 bytes fails (the source
      leaves the length unchecked). */
  lemma HelloFrame(version: Bytes)
    ensures HelloReply(version).Ok?
    ensures Frame(HelloReply(version).value, Int(0)) ==
      if |version| <= 64
      then Ok(HeaderBytes(0, 68, 0) + Ljust(version, 64, 0) + CapabilityWord)
      else Err(PackError)
  {
    HelloReplyBuilt(version);
    var padded := Ljust(version, 64, 0);
    HelloEncoding(padded);
    if |version| <= 64 {
      HelloPadded(padded);
    }
  }

  lemma HelloPadded(padded: Bytes)
    requires |padded| == 64
    ensures Frame(HelloRecord(padded), Int(0)) == Ok(HeaderBytes(0, 68, 0) + padded + CapabilityWord)
  {
    var data := padded + CapabilityWord;
    HelloEncoding(padded);
    FrameOf(HelloRecord(padded), 0, data, 0);
    assert HeaderBytes(0, 68, 0) + data == HeaderBytes(0, 68, 0) + padded + CapabilityWord;
  }
  // ------------------------------------------------------------ descriptors

  /** The descriptor tables a server class declares: `device_descriptor`,
      `configuration_descriptors`, `string_descriptors` and
      `interface_descriptors`. */
  datatype Device = Device(
    deviceDescriptor: Record,
    configurationDescriptors: seq<Record>,
    stringDescriptors: seq<Record>,
    interfaceDescriptors: seq<Record>)

  /** Tables holding descriptors of their declared classes and shapes. */
  predicate WellFormed(d: Device)
  {
    && d.deviceDescriptor.schema == DeviceDescriptor && Shaped(d.deviceDescriptor)
    && (forall i :: 0 <= i < |d.configurationDescriptors| ==>
          d.configurationDescriptors[i].schema == ConfigurationDescriptor && Shaped(d.configurationDescriptors[i]))
    && (forall i :: 0 <= i < |d.stringDescriptors| ==>
          d.stringDescriptors[i].schema == StringDescriptor && Shaped(d.stringDescriptors[i]))
  }

  /** `get_descriptor(d_type, d_idx)`: the serialized device descriptor for
      index 0, a configuration or string descriptor by (Python) index below the
      table size, and no data for anything else. */
  function GetDescriptor(d: Device, dType: int, dIdx: int): Result<Bytes, Error>
  {
    if dType == DescDevice && dIdx == 0 then Encode(d.deviceDescriptor)
    else if dType == DescConfiguration && dIdx < |d.configurationDescriptors| then
      var c :- Index(d.configurationDescriptors, dIdx);
      Encode(c)
    else if dType == DescString && dIdx < |d.stringDescriptors| then
      var c :- Index(d.stringDescriptors, dIdx);
      Encode(c)
    else Ok([])
  }

  /** The descriptor a GET_DESCRIPTOR request names by type and index, if the
      device has one. */
  function Requested(d: Device, dType: int, dIdx: nat): Option<Record>
  {
    if dType == DescDevice then (if dIdx == 0 then Some(d.deviceDescriptor) else None)
    else if dType == DescConfiguration then
      (if dIdx < |d.configurationDescriptors| then Some(d.configurationDescriptors[dIdx]) else None)
    else if dType == DescString then
      (if dIdx < |d.stringDescriptors| then Some(d.stringDescriptors[dIdx]) else None)
    else None
  }

  /** For a non-negative index, `get_descriptor` serializes exactly the
      descriptor requested and answers a request for none with no data. */
  lemma DescriptorSelection(d: Device, dType: int, dIdx: nat)
    ensures GetDescriptor(d, dType, dIdx) ==
      if Requested(d, dType, dIdx).Some? then Encode(Requested(d, dType, dIdx).value) else Ok([])
  {
  }

  /** A negative index counts from the end of the table, as Python indexing
      does; one beyond the table size fails with IndexError. */
  lemma DescriptorNegativeIndex(d: Device, dIdx: int)
    requires dIdx < 0
    ensures var cs := d.configurationDescriptors;
      GetDescriptor(d, DescConfiguration, dIdx) ==
        if -|cs| <= dIdx then Encode(cs[|cs| + dIdx]) else Err(IndexOutOfRange(dIdx))
  {
  }

  /** With well-formed tables every request is answered: with no data exactly
      when it names no descriptor, and otherwise with that descriptor's bytes
      led by its own `length`. */
  lemma DescriptorReply(d: Device, dType: int, dIdx: nat)
    requires WellFormed(d)
    ensures GetDescriptor(d, dType, dIdx).Ok?
    ensures var bs := GetDescriptor(d, dType, dIdx).value;
      (bs == [] <==> Requested(d, dType, dIdx).None?)
      && (Requested(d, dType, dIdx).Some? ==>
            var r := Requested(d, dType, dIdx).value;
            "length" in r.attrs && r.attrs["length"] == Int(bs[0]))
  {
    DescriptorSelection(d, dType, dIdx);
    if Requested(d, dType, dIdx).Some? {
      RequestedLed(d, dType, dIdx);
    }
  }

  lemma RequestedLed(d: Device, dType: int, dIdx: nat)
    requires WellFormed(d) && Requested(d, dType, dIdx).Some?
    ensures var r := Requested(d, dType, dIdx).value;
      && Encode(r).Ok? && |Encode(r).value| > 0
      && "length" in r.attrs && r.attrs["length"] == Int(Encode(r).value[0])
  {
    if dType == DescDevice {
      DeviceEncoding(d.deviceDescriptor);
    } else if dType == DescConfiguration {
      ConfigurationLed(d.configurationDescriptors[dIdx]);
    } else {
      StringDescriptorEncoding(d.stringDescriptors[dIdx]);
    }
  }

  lemma ConfigurationLed(r: Record)
    requires r.schema == ConfigurationDescriptor && Shaped(r)
    ensures Encode(r).Ok? && |Encode(r).value| > 0
    ensures "length" in r.attrs && r.attrs["length"] == Int(Encode(r).value[0])
  {
    var prefix := ConfigurationEncoding(r);
  }

  /** The device descriptor goes out as 18 bytes. */
  lemma DeviceDescriptorReply(d: Device)
    requires WellFormed(d)
    ensures GetDescriptor(d, DescDevice, 0) == Encode(d.deviceDescriptor)
    ensures Encode(d.deviceDescriptor).Ok? && |Encode(d.deviceDescriptor).value| == 18
  {
    DeviceEncoding(d.deviceDescriptor);
  }

  /** A configuration descriptor goes out with all its interfaces and their
      endpoints: 9 bytes, plus 9 per interface, plus 7 per endpoint. */
  lemma ConfigurationDescriptorReply(d: Device, dIdx: nat)
    requires WellFormed(d) && dIdx < |d.configurationDescriptors|
    ensures var r := d.configurationDescriptors[dIdx];
      && "interfaces" in r.attrs && r.attrs["interfaces"].List?
      && GetDescriptor(d, DescConfiguration, dIdx).Ok?
      && |GetDescriptor(d, DescConfiguration, dIdx).value| == 9 + InterfacesSize(r.attrs["interfaces"].items)
  {
    ConfigurationSize(d.configurationDescriptors[dIdx]);
    ConfigurationSelected(d, dIdx);
  }

  lemma ConfigurationSelected(d: Device, dIdx: nat)
    requires dIdx < |d.configurationDescriptors|
    ensures GetDescriptor(d, DescConfiguration, dIdx) == Encode(d.configurationDescriptors[dIdx])
  {
  }

  lemma ConfigurationSize(r: Record)
    requires r.schema == ConfigurationDescriptor && Shaped(r)
    ensures "interfaces" in r.attrs && r.attrs["interfaces"].List?
    ensures Encode(r).Ok? && |Encode(r).value| == 9 + InterfacesSize(r.attrs["interfaces"].items)
  {
    var prefix := ConfigurationEncoding(r);
  }

  /** A device or string descriptor the server sends reads back, with the
      class requested, as that very descriptor. */
  lemma DescriptorReadsBack(d: Device, dType: int, dIdx: nat)
    requires WellFormed(d) && Requested(d, dType, dIdx).Some? && dType != DescConfiguration
    ensures GetDescriptor(d, dType, dIdx).Ok?
    ensures var r := Requested(d, dType, dIdx).value;
      Decode(r.schema, GetDescriptor(d, dType, dIdx).value) == Ok(r)
  {
    DescriptorSelection(d, dType, dIdx);
    if dType == DescDevice {
      DeviceShape();
      RoundTrip(d.deviceDescriptor);
    } else {
      StringLayout();
      RoundTrip(d.stringDescriptors[dIdx]);
    }
  }

  // ------------------------------------------------------------ control transfers

  /** The two bytes a GET_STATUS request is answered with: no status flags. */
  const StatusFlags: Bytes := [0, 0]

  /** The data `handle_control` answers a setup packet with. Attributes are
      read as the conditions test them: `request_type` first, `request` only
      when the type is 0x80 or 0x00, `value` (as an integer) only for
      GET_DESCRIPTOR, whose high byte is the descriptor type and low byte the
      index. Requests it does not handle get no data. */
  function ControlData(d: Device, packet: Record): Result<Bytes, Error>
  {
    var requestType :- Attr(packet, "request_type");
    if requestType == Int(0x80) then
      var request :- Attr(packet, "request");
      if request == Int(RequestGetDescriptor) then
        var value :- IntAttr(packet, "value");
        GetDescriptor(d, value / 256, value % 256)
      else if request == Int(RequestGetStatus) then Ok(StatusFlags)
      else Ok([])
    else if requestType == Int(0x00) then
      var request :- Attr(packet, "request");
      if request.List? then Err(Unhashable) else Ok([])
    else Ok([])
  }

  /** The reply `handle_control` sends: the request derived with the data and
      its length. */
  function ControlReply(d: Device, packet: Record): Result<Record, Error>
  {
    var data :- ControlData(d, packet);
    Rederive(packet, map["data" := BytesValue(data), "length" := Int(|data|)])
  }

  lemma ControlHeads()
    ensures |ControlFixed| == 7
    ensures ControlFixed[1] == Scalar("request", U8) && ControlFixed[2] == Scalar("request_type", U8)
    ensures ControlFixed[4] == Scalar("value", U16) && ControlFixed[6] == Scalar("length", U16)
  {
  }

  /** The setup fields a control packet of its declared shape holds. */
  lemma ControlAttrs(packet: Record)
    requires packet.schema == ControlPacket && Shaped(packet)
    ensures "request_type" in packet.attrs && packet.attrs["request_type"].Int?
    ensures "request" in packet.attrs && packet.attrs["request"].Int?
    ensures "value" in packet.attrs && packet.attrs["value"].Int? && 0 <= packet.attrs["value"].n < 0x10000
  {
    ControlPacketLayout();
    ControlHeads();
    assert ControlFixed[1] in Fixed(packet.schema);
    assert ControlFixed[2] in Fixed(packet.schema);
    assert ControlFixed[4] in Fixed(packet.schema);
  }

  /** Control-request answering: only GET_DESCRIPTOR and GET_STATUS (request
      type 0x80) get data — GET_DESCRIPTOR the bytes of the descriptor that
      `value` names by type (high byte) and index (low byte), or none if there
      is no such descriptor, GET_STATUS two zero bytes — and every other
      request gets no data rather than an error, except that a type-0x00
      request whose `request` is a list raises: it cannot be looked up in
      the set `{5, 9}`. */
  lemma ControlSelection(d: Device, packet: Record)
    requires "request_type" in packet.attrs && "request" in packet.attrs
    requires "value" in packet.attrs && packet.attrs["value"].Int?
    ensures var requestType := packet.attrs["request_type"];
      var request := packet.attrs["request"];
      var value := packet.attrs["value"].n;
      var req := Requested(d, value / 256, value % 256);
      ControlData(d, packet) ==
        if requestType == Int(0x80) && request == Int(RequestGetDescriptor) then
          (if req.Some? then Encode(req.value) else Ok([]))
        else if requestType == Int(0x80) && request == Int(RequestGetStatus) then Ok(StatusFlags)
        else if requestType == Int(0x00) && request.List? then Err(Unhashable)
        else Ok([])
  {
    var value := packet.attrs["value"].n;
    DescriptorSelection(d, value / 256, value % 256);
  }

  /** With well-formed tables every setup packet is answered, except a
      type-0x00 request whose `request` is a list: the membership test in
      `{5, 9}` cannot hash it. */
  lemma ControlAnswer(d: Device, packet: Record)
    requires WellFormed(d)
    requires "request_type" in packet.attrs && "request" in packet.attrs
    requires "value" in packet.attrs && packet.attrs["value"].Int?
    ensures ControlData(d, packet).Ok? <==>
      !(packet.attrs["request_type"] == Int(0x00) && packet.attrs["request"].List?)
  {
    var value := packet.attrs["value"].n;
    ControlSelection(d, packet);
    DescriptorReply(d, value / 256, value % 256);
  }
  lemma ControlNames()
    ensures forall i :: 0 <= i < |ControlFixed| ==> ControlFixed[i].name != "data"
    ensures DataTrailer == [Field("data", ArrayOf(PrimElem(U8), 0), None)]
  {
  }

  /** The reply to a control request is the request with `data` and `length`
      replaced by the answer and its size, every other setup field kept; it is
      a complete record. */
  lemma ControlReplyFields(d: Device, packet: Record, data: Bytes)
    requires packet.schema == ControlPacket && Names(Fixed(ControlPacket)) <= packet.attrs.Keys
    requires ControlData(d, packet) == Ok(data)
    ensures ControlReply(d, packet).Ok?
    ensures var r := ControlReply(d, packet).value;
      && r.schema == ControlPacket && Built(r)
      && "length" in r.attrs && r.attrs["length"] == Int(|data|)
      && "data" in r.attrs && r.attrs["data"] == BytesValue(data)
      && forall i :: 0 <= i < |Fixed(ControlPacket)| && Fixed(ControlPacket)[i].name != "length" ==>
           var n := Fixed(ControlPacket)[i].name;
           n in r.attrs && n in packet.attrs && r.attrs[n] == packet.attrs[n]
  {
    DataReplaced(packet, data);
  }

  /** A control packet derived with new `data` and `length`. */
  lemma DataReplaced(packet: Record, data: Bytes)
    requires packet.schema == ControlPacket && Names(Fixed(ControlPacket)) <= packet.attrs.Keys
    ensures var overrides := map["data" := BytesValue(data), "length" := Int(|data|)];
      Rederive(packet, overrides).Ok? &&
      var r := Rederive(packet, overrides).value;
      && r.schema == ControlPacket && Built(r)
      && "length" in r.attrs && r.attrs["length"] == Int(|data|)
      && "data" in r.attrs && r.attrs["data"] == BytesValue(data)
      && forall i :: 0 <= i < |Fixed(ControlPacket)| && Fixed(ControlPacket)[i].name != "length" ==>
           var n := Fixed(ControlPacket)[i].name;
           n in r.attrs && n in packet.attrs && r.attrs[n] == packet.attrs[n]
  {
    var overrides := map["data" := BytesValue(data), "length" := Int(|data|)];
    ControlShape();
    DataOverrides(packet, overrides);
    DeriveOk(packet, overrides);
    assert Rederive(packet, overrides) == Derive(packet, overrides);
    var r := Derive(packet, overrides).value;
    DeriveValue(packet, overrides);
    assert r.attrs[Fixed(ControlPacket)[6].name] == overrides["length"];
    assert r.attrs[Trailers(ControlPacket)[0].name] == overrides["data"];
    forall i | 0 <= i < |Fixed(ControlPacket)| && Fixed(ControlPacket)[i].name != "length"
      ensures Fixed(ControlPacket)[i].name in r.attrs && Fixed(ControlPacket)[i].name in packet.attrs
      ensures r.attrs[Fixed(ControlPacket)[i].name] == packet.attrs[Fixed(ControlPacket)[i].name]
    {
      assert Fixed(ControlPacket)[i].name !in overrides;
    }
  }

  /** What the reply lemmas need of the control packet class. */
  lemma ControlShape()
    ensures Compiled(ControlPacket) && |Fixed(ControlPacket)| == 7 && |Trailers(ControlPacket)| == 1
    ensures Fixed(ControlPacket)[6].name == "length" && Trailers(ControlPacket)[0].name == "data"
    ensures forall i :: 0 <= i < |Fixed(ControlPacket)| ==> Fixed(ControlPacket)[i].name != "data"
  {
    ControlPacketLayout();
    ControlHeads();
    ControlNames();
  }

  lemma DataOverrides(packet: Record, overrides: map<string, Value>)
    requires packet.schema == ControlPacket && overrides.Keys == {"data", "length"}
    ensures overrides.Keys <= Names(AllFields(ControlPacket))
    ensures forall i :: 0 <= i < |Trailers(ControlPacket)| ==> Supplied(Trailers(ControlPacket)[i], overrides)
  {
    var fs := AllFields(ControlPacket);
    ControlPacketLayout();
    ControlHeads();
    ControlNames();
    assert fs == ControlFixed + DataTrailer;
    assert fs[6].name == "length" && fs[7].name == "data";
    NamesIn(fs, 6);
    NamesIn(fs, 7);
  }
  // ------------------------------------------------------------ configuration requests

  /** The `ConfigurationStatus` `handle_configuration` answers with: status
      Success and the configuration number. */
  function ConfigurationReply(configuration: int): Result<Record, Error>
  {
    Construct(ConfigurationStatus, map["status" := Int(StatusCode(Success)), "configuration" := Int(configuration)])
  }

  function ConfigurationRecord(configuration: int): Record
  {
    Record(ConfigurationStatus, map["status" := Int(StatusCode(Success)), "configuration" := Int(configuration)])
  }

  lemma ConfigurationStatusNames()
    ensures Names(AllFields(ConfigurationStatus)) == {"status", "configuration"}
  {
    ConfigurationStatusLayout();
    assert AllFields(ConfigurationStatus) == ConfigurationStatusFields + [] == ConfigurationStatusFields;
    NamesFromIsNames(ConfigurationStatusFields);
  }

  lemma ConfigurationStatusFormat()
    ensures Format(ConfigurationStatus) == [U8, U8]
  {
    ConfigurationStatusLayout();
    FormatFromIsJoin(ConfigurationStatus, ConfigurationStatusFields);
    assert FormatFrom(ConfigurationStatusFields) == [U8] + ([U8] + []);
  }

  lemma ConfigurationStatusValues(configuration: int)
    ensures RawValues(ConfigurationRecord(configuration)) == Ok(Ints([StatusCode(Success), configuration]))
  {
    var rr := ConfigurationRecord(configuration);
    ConfigurationStatusLayout();
    FlattenScalars(rr, ConfigurationStatusFields);
    assert ScalarValues(rr, ConfigurationStatusFields) == Ints([StatusCode(Success), configuration]);
  }

  /** The reply is always built, and serializes to the Success code and the
      configuration number, which must fit a byte (struct.error otherwise). */
  lemma ConfigurationReplyBytes(configuration: int)
    ensures ConfigurationReply(configuration) == Ok(ConfigurationRecord(configuration))
    ensures Encode(ConfigurationRecord(configuration)) ==
      if 0 <= configuration < 0x100 then Ok([StatusCode(Success), configuration]) else Err(PackError)
  {
    var rr := ConfigurationRecord(configuration);
    ConfigurationStatusLayout();
    ConfigurationStatusNames();
    ConstructAll(ConfigurationStatus, rr.attrs);
    ConfigurationStatusFormat();
    ConfigurationStatusValues(configuration);
    PackPair(StatusCode(Success), configuration);
    assert !IsEmpty(ConfigurationStatus) by { assert ConfigurationStatusFields != []; }
    assert TrailerBytes(rr, []) == Ok([]);
    if 0 <= configuration < 0x100 {
      assert [StatusCode(Success), configuration] + [] == [StatusCode(Success), configuration];
    }
  }
}
