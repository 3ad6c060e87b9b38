/** The usbredir packet vocabulary of fakeusb/protocol.py (lines 252-358): the
    frame header, the packets with their `type_id`s, and the status codes. Each
    packet class is a schema of the record engine; its layout is evaluated here
    and each class is shown to be one the engine reads back. */
module Protocol {
  import opened Wrappers
  import opened Wire
  import opened Serdes
  import opened Records
  import opened Codec
  import opened CodecLaws
  import opened Layouts

  // ------------------------------------------------------------ status codes

  /** `Status`, the status of a control or data transfer. */
  datatype Status = Success | Cancelled | Inval | Ioerror | Stall | Timeout | Babble

  /** The integer value of a status. */
  function StatusCode(st: Status): (c: nat)
    ensures c <= 6
    ensures StatusOf(c) == Some(st)
  {
    match st
    case Success => 0
    case Cancelled => 1
    case Inval => 2
    case Ioerror => 3
    case Stall => 4
    case Timeout => 5
    case Babble => 6
  }

  /** `Status(c)`: the status with integer value `c`, if any. */
  function StatusOf(c: int): (r: Option<Status>)
    ensures r.Some? <==> 0 <= c <= 6
  {
    if c == 0 then Some(Success)
    else if c == 1 then Some(Cancelled)
    else if c == 2 then Some(Inval)
    else if c == 3 then Some(Ioerror)
    else if c == 4 then Some(Stall)
    else if c == 5 then Some(Timeout)
    else if c == 6 then Some(Babble)
    else None
  }

  /** Distinct statuses have distinct codes. */
  lemma StatusCodeInjective(a: Status, b: Status)
    ensures StatusCode(a) == StatusCode(b) ==> a == b
  {
    assert StatusOf(StatusCode(a)) == Some(a) && StatusOf(StatusCode(b)) == Some(b);
  }

  // `DeviceConnect.Speed`
  const SpeedLow := 0
  const SpeedFull := 1
  const SpeedHigh := 2
  const SpeedSuper := 4
  const SpeedUnknown := 255

  // `EpInfo.Type`
  const EpControl := 0
  const EpIso := 1
  const EpBulk := 2
  const EpInterrupt := 3
  const EpInvalid := 255

  // ------------------------------------------------------------ the packets

  const HeaderFields := [Scalar("type_", U32), Scalar("length", U32), Scalar("id_", U32)]

  /** The frame header in front of every packet. */
  const Header := Schema("Header", None, HeaderFields)

  const HelloFixed := [FixedArray("version", U8, 64)]
  const CapabilitiesTrailer := [Unbounded("capabilities", PrimElem(U32))]
  const Hello := Schema("Hello", Some(0), HelloFixed + CapabilitiesTrailer)

  const DeviceConnectFields :=
    [ Scalar("speed", U8), Scalar("device_class", U8), Scalar("device_subclass", U8),
      Scalar("device_protocol", U8), Scalar("vendor_id", U16), Scalar("product_id", U16)]
  const DeviceConnect := Schema("DeviceConnect", Some(1), DeviceConnectFields)

  const DeviceDisconnect := Schema("DeviceDisconnect", Some(2), [])

  const Reset := Schema("Reset", Some(3), [])

  const InterfaceInfoFields :=
    [ Scalar("interface_count", U32), FixedArray("interface", U8, 32),
      FixedArray("interface_class", U8, 32), FixedArray("interface_subclass", U8, 32),
      FixedArray("interface_protocol", U8, 32)]
  const InterfaceInfo := Schema("InterfaceInfo", Some(4), InterfaceInfoFields)

  const EpInfoFields := [FixedArray("type_", U8, 32), FixedArray("interval", U8, 32), FixedArray("interface", U8, 32)]
  const EpInfo := Schema("EpInfo", Some(5), EpInfoFields)

  const SetConfigurationFields := [Scalar("configuration", U8)]
  const SetConfiguration := Schema("SetConfiguration", Some(6), SetConfigurationFields)

  const GetConfiguration := Schema("GetConfiguration", Some(7), [])

  const ConfigurationStatusFields := [Scalar("status", U8), Scalar("configuration", U8)]
  const ConfigurationStatus := Schema("ConfigurationStatus", Some(8), ConfigurationStatusFields)

  const CancelDataPacket := Schema("CancelDataPacket", Some(21), [])

  /** The trailing payload of the data packets. */
  const DataTrailer := [Unbounded("data", PrimElem(U8))]

  const ControlFixed :=
    [ Scalar("endpoint", U8), Scalar("request", U8), Scalar("request_type", U8), Scalar("status", U8),
      Scalar("value", U16), Scalar("index", U16), Scalar("length", U16)]
  const ControlPacket := Schema("ControlPacket", Some(100), ControlFixed + DataTrailer)

  const BulkFixed := [Scalar("endpoint", U8), Scalar("status", U8), Scalar("length", U16), Scalar("stream_id", U32)]
  const BulkPacket := Schema("BulkPacket", Some(101), BulkFixed + DataTrailer)

  /** Every packet class that declares a `type_id`. */
  const Packets: seq<Schema> :=
    [ Hello, DeviceConnect, DeviceDisconnect, Reset, InterfaceInfo, EpInfo, SetConfiguration,
      GetConfiguration, ConfigurationStatus, CancelDataPacket, ControlPacket, BulkPacket]

  /** `type_registry.get(t)`: the packet class declaring `type_id` `t`. */
  function Registered(t: int): (r: Option<Schema>)
    ensures r.Some? ==> r.value in Packets && r.value.typeId == Some(t)
  {
    if t == 0 then Some(Hello)
    else if t == 1 then Some(DeviceConnect)
    else if t == 2 then Some(DeviceDisconnect)
    else if t == 3 then Some(Reset)
    else if t == 4 then Some(InterfaceInfo)
    else if t == 5 then Some(EpInfo)
    else if t == 6 then Some(SetConfiguration)
    else if t == 7 then Some(GetConfiguration)
    else if t == 8 then Some(ConfigurationStatus)
    else if t == 21 then Some(CancelDataPacket)
    else if t == 100 then Some(ControlPacket)
    else if t == 101 then Some(BulkPacket)
    else None
  }

  /** Every declared packet is registered under its own `type_id`, so no two
      declared packets share one. */
  lemma RegistryComplete(i: nat)
    requires i < |Packets|
    ensures Packets[i].typeId.Some? && Registered(Packets[i].typeId.value) == Some(Packets[i])
  {
  }

  /** The declared `type_id`s are pairwise distinct. */
  lemma TypeIdsDistinct(i: nat, j: nat)
    requires i < |Packets| && j < |Packets| && Packets[i].typeId == Packets[j].typeId
    ensures i == j
  {
    RegistryComplete(i);
    RegistryComplete(j);
  }

  // ------------------------------------------------------------ layouts

  /** `Header`: three 32-bit fields, 12 bytes, no trailer. */
  lemma HeaderLayout()
    ensures Compiled(Header) && Codable(Header)
    ensures Fixed(Header) == HeaderFields && Trailers(Header) == [] && RawLength(Header) == 12
  {
    assert HeaderFields + [] == HeaderFields;
    Laid(Header, HeaderFields, [], 12);
  }

  /** The struct format of `Header` is three u32 codes, and its attributes are
      its three fields. */
  lemma HeaderFormat()
    ensures Format(Header) == [U32, U32, U32]
  {
    HeaderLayout();
    FormatFromIsJoin(Header, HeaderFields);
    assert FormatFrom(HeaderFields) == [U32] + ([U32] + ([U32] + []));
  }

  lemma HeaderNames()
    ensures Names(AllFields(Header)) == {"type_", "length", "id_"}
  {
    HeaderLayout();
    assert AllFields(Header) == HeaderFields + [] == HeaderFields;
    NamesFromIsNames(HeaderFields);
  }

  /** `Hello`: a 64-byte version, then the capabilities as a trailing u32 list. */
  lemma HelloLayout()
    ensures Compiled(Hello) && Codable(Hello)
    ensures Fixed(Hello) == HelloFixed && Trailers(Hello) == CapabilitiesTrailer && RawLength(Hello) == 64
  {
    Laid(Hello, HelloFixed, CapabilitiesTrailer, 64);
  }

  /** `DeviceConnect`: four u8 and two u16 fields, 8 bytes. */
  lemma DeviceConnectLayout()
    ensures Compiled(DeviceConnect) && Codable(DeviceConnect)
    ensures Fixed(DeviceConnect) == DeviceConnectFields && Trailers(DeviceConnect) == []
    ensures RawLength(DeviceConnect) == 8
  {
    assert DeviceConnectFields + [] == DeviceConnectFields;
    DistinctDeviceConnect();
    Laid(DeviceConnect, DeviceConnectFields, [], 8);
  }

  lemma DistinctDeviceConnect()
    ensures DistinctNames(DeviceConnectFields)
  {
  }

  /** `InterfaceInfo`: a u32 and four 32-byte arrays, 132 bytes. */
  lemma InterfaceInfoLayout()
    ensures Compiled(InterfaceInfo) && Codable(InterfaceInfo)
    ensures Fixed(InterfaceInfo) == InterfaceInfoFields && Trailers(InterfaceInfo) == []
    ensures RawLength(InterfaceInfo) == 132
  {
    assert InterfaceInfoFields + [] == InterfaceInfoFields;
    Laid(InterfaceInfo, InterfaceInfoFields, [], 132);
  }

  /** `EpInfo`: three 32-byte arrays, 96 bytes. */
  lemma EpInfoLayout()
    ensures Compiled(EpInfo) && Codable(EpInfo)
    ensures Fixed(EpInfo) == EpInfoFields && Trailers(EpInfo) == [] && RawLength(EpInfo) == 96
  {
    assert EpInfoFields + [] == EpInfoFields;
    Laid(EpInfo, EpInfoFields, [], 96);
  }

  /** The configuration packets: one and two u8 fields. */
  lemma ConfigurationLayouts()
    ensures Compiled(SetConfiguration) && Codable(SetConfiguration)
    ensures Fixed(SetConfiguration) == SetConfigurationFields && Trailers(SetConfiguration) == []
    ensures RawLength(SetConfiguration) == 1
    ensures Compiled(ConfigurationStatus) && Codable(ConfigurationStatus)
    ensures Fixed(ConfigurationStatus) == ConfigurationStatusFields && Trailers(ConfigurationStatus) == []
    ensures RawLength(ConfigurationStatus) == 2
  {
    assert SetConfigurationFields + [] == SetConfigurationFields;
    Laid(SetConfiguration, SetConfigurationFields, [], 1);
    ConfigurationStatusLayout();
  }

  lemma ConfigurationStatusLayout()
    ensures Compiled(ConfigurationStatus) && Codable(ConfigurationStatus)
    ensures Fixed(ConfigurationStatus) == ConfigurationStatusFields && Trailers(ConfigurationStatus) == []
    ensures RawLength(ConfigurationStatus) == 2
  {
    assert ConfigurationStatusFields + [] == ConfigurationStatusFields;
    Laid(ConfigurationStatus, ConfigurationStatusFields, [], 2);
  }

  /** `ControlPacket`: a 10-byte setup prefix, then the trailing data bytes. */
  lemma ControlPacketLayout()
    ensures Compiled(ControlPacket) && Codable(ControlPacket)
    ensures Fixed(ControlPacket) == ControlFixed && Trailers(ControlPacket) == DataTrailer
    ensures RawLength(ControlPacket) == 10
  {
    DistinctControl();
    Laid(ControlPacket, ControlFixed, DataTrailer, 10);
  }

  lemma DistinctControl()
    ensures DistinctNames(ControlFixed + DataTrailer)
  {
  }

  /** `BulkPacket`: an 8-byte prefix, then the trailing data bytes. */
  lemma BulkPacketLayout()
    ensures Compiled(BulkPacket) && Codable(BulkPacket)
    ensures Fixed(BulkPacket) == BulkFixed && Trailers(BulkPacket) == DataTrailer
    ensures RawLength(BulkPacket) == 8
  {
    Laid(BulkPacket, BulkFixed, DataTrailer, 8);
  }

  /** The packets without fields serialize to nothing and are read from any bytes. */
  lemma EmptyPackets(s: Schema, bs: Bytes)
    requires s in [DeviceDisconnect, Reset, GetConfiguration, CancelDataPacket]
    ensures IsEmpty(s) && Compiled(s) && Codable(s)
    ensures Encode(Record(s, map[])) == Ok([])
    ensures Decode(s, bs) == Ok(Record(s, map[]))
  {
    assert s.fields == [] + [];
    Laid(s, [], [], 0);
    ConstructAll(s, map[]);
  }

  /** Every declared packet, and the header, is a class the engine reads back. */
  lemma PacketsCodable(s: Schema)
    requires s == Header || s in Packets
    ensures Compiled(s) && Codable(s)
  {
    if s == Header { HeaderLayout(); }
    else if s == Hello { HelloLayout(); }
    else if s == DeviceConnect { DeviceConnectLayout(); }
    else if s == InterfaceInfo { InterfaceInfoLayout(); }
    else if s == EpInfo { EpInfoLayout(); }
    else if s == SetConfiguration || s == ConfigurationStatus { ConfigurationLayouts(); }
    else if s == ControlPacket { ControlPacketLayout(); }
    else if s == BulkPacket { BulkPacketLayout(); }
    else { EmptyPackets(s, []); }
  }

  /** No packet class, and not the header, nests a record in its fixed
      prefix, so for every packet `serialize` packs exactly the values the
      code as written hands to `struct.pack`. */
  lemma PacketsSerializeAsWritten(rr: Record)
    requires rr.schema == Header || rr.schema in Packets
    requires Shaped(rr)
    ensures NoNestedFields(rr.schema)
    ensures RawValues(rr) == SerializeValuesAsWritten(rr)
  {
    PacketsFlat(rr.schema);
    SerializeAsWritten(rr);
  }

  lemma PacketsFlat(s: Schema)
    requires s == Header || s in Packets
    ensures NoNestedFields(s) && FlatNesting(s)
  {
    PacketFieldsPlain();
    NoNestedIsFlat(s);
  }

  lemma PacketFieldsPlain()
    ensures NoNestedFields(Header) && NoNestedFields(Hello) && NoNestedFields(DeviceConnect)
    ensures NoNestedFields(DeviceDisconnect) && NoNestedFields(Reset) && NoNestedFields(InterfaceInfo)
    ensures NoNestedFields(EpInfo) && NoNestedFields(SetConfiguration) && NoNestedFields(GetConfiguration)
    ensures NoNestedFields(ConfigurationStatus) && NoNestedFields(CancelDataPacket)
    ensures NoNestedFields(ControlPacket) && NoNestedFields(BulkPacket)
  {
  }

  /** A packet of one of the declared classes, holding values of the declared
      shapes, unserializes from its serialization to itself. */
  lemma PacketRoundTrip(rr: Record)
    requires rr.schema == Header || rr.schema in Packets
    requires Shaped(rr)
    ensures Encode(rr).Ok?
    ensures Decode(rr.schema, Encode(rr).value) == Ok(rr)
  {
    PacketsCodable(rr.schema);
    RoundTrip(rr);
  }

  // ------------------------------------------------------------ the header record

  /** `Header(type_=t, length=l, id_=i)`. */
  function HeaderRecord(t: int, l: int, i: int): Record
  {
    Record(Header, map["type_" := Int(t), "length" := Int(l), "id_" := Int(i)])
  }

  /** Constructing a `Header` from its three keywords gives the header record. */
  lemma HeaderConstruct(t: int, l: int, i: int)
    ensures Construct(Header, HeaderRecord(t, l, i).attrs) == Ok(HeaderRecord(t, l, i))
  {
    HeaderLayout();
    HeaderNames();
    ConstructAll(Header, HeaderRecord(t, l, i).attrs);
  }

  /** A header serializes to its three fields as little-endian u32s, and fails
      with struct.error when one of them is out of range. */
  lemma HeaderEncoding(t: int, l: int, i: int)
    ensures Encode(HeaderRecord(t, l, i)) ==
      if InRange(U32, t) && InRange(U32, l) && InRange(U32, i)
      then Ok(EncodeUInt(t, 4) + EncodeUInt(l, 4) + EncodeUInt(i, 4))
      else Err(PackError)
  {
    var rr := HeaderRecord(t, l, i);
    HeaderLayout();
    HeaderFormat();
    HeaderValues(t, l, i);
    HeaderPack(t, l, i);
    assert !IsEmpty(Header) by { assert AllFields(Header) != []; }
    assert TrailerBytes(rr, []) == Ok([]);
    var p := Pack([U32, U32, U32], Ints([t, l, i]));
    assert p.Ok? ==> p.value + [] == p.value;
  }

  lemma HeaderValues(t: int, l: int, i: int)
    ensures RawValues(HeaderRecord(t, l, i)) == Ok(Ints([t, l, i]))
  {
    var rr := HeaderRecord(t, l, i);
    HeaderLayout();
    FlattenScalars(rr, HeaderFields);
    assert ScalarValues(rr, HeaderFields) == Ints([t, l, i]);
  }

  lemma HeaderPack(t: int, l: int, i: int)
    ensures Pack([U32, U32, U32], Ints([t, l, i])) ==
      if InRange(U32, t) && InRange(U32, l) && InRange(U32, i)
      then Ok(EncodeUInt(t, 4) + EncodeUInt(l, 4) + EncodeUInt(i, 4))
      else Err(PackError)
  {
    var fmt := [U32, U32, U32];
    var xs := [t, l, i];
    if InRange(U32, t) && InRange(U32, l) && InRange(U32, i) {
      assert Fits(fmt, xs);
      assert fmt[1..] == [U32, U32] && xs[1..] == [l, i];
      assert PackInts([U32, U32], [l, i]) == EncodeUInt(l, 4) + EncodeUInt(i, 4) by {
        assert [U32, U32][1..] == [U32] && [l, i][1..] == [i];
        assert PackInts([U32], [i]) == EncodeUInt(i, 4) by {
          assert [U32][1..] == [] && [i][1..] == [];
          assert EncodeUInt(i, 4) + [] == EncodeUInt(i, 4);
        }
      }
      assert PackInts(fmt, xs) == EncodeUInt(t, 4) + (EncodeUInt(l, 4) + EncodeUInt(i, 4));
      PackOfInts(fmt, xs);
      assert EncodeUInt(t, 4) + (EncodeUInt(l, 4) + EncodeUInt(i, 4)) ==
        EncodeUInt(t, 4) + EncodeUInt(l, 4) + EncodeUInt(i, 4);
    } else {
      assert !Fits(fmt, xs) by {
        if !InRange(U32, t) { assert fmt[0] == U32; }
        else if !InRange(U32, l) { assert fmt[1] == U32; }
        else { assert fmt[2] == U32; }
      }
      PackUnfit(fmt, xs);
    }
  }

  /** The 12 bytes of a header in range unserialize to that header. */
  lemma HeaderDecoding(t: int, l: int, i: int)
    requires InRange(U32, t) && InRange(U32, l) && InRange(U32, i)
    ensures Decode(Header, EncodeUInt(t, 4) + EncodeUInt(l, 4) + EncodeUInt(i, 4)) == Ok(HeaderRecord(t, l, i))
  {
    HeaderShaped(t, l, i);
    HeaderEncoding(t, l, i);
    PacketRoundTrip(HeaderRecord(t, l, i));
  }

  /** A header record of values in range has its declared shape. */
  lemma HeaderShaped(t: int, l: int, i: int)
    requires InRange(U32, t) && InRange(U32, l) && InRange(U32, i)
    ensures Shaped(HeaderRecord(t, l, i))
  {
    var rr := HeaderRecord(t, l, i);
    HeaderLayout();
    HeaderNames();
    forall f | f in Fixed(Header) ensures f.name in rr.attrs && ShapedFixed(f.ty, rr.attrs[f.name]) {
      assert f == Scalar("type_", U32) || f == Scalar("length", U32) || f == Scalar("id_", U32);
    }
  }
}
