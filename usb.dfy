/** The USB descriptors of fakeusb/usb.py as record classes: the device,
    endpoint, interface, configuration and string descriptors of section 9.6 of
    the USB 2.0 specification, with the standard request codes (Table 9-4) and
    descriptor types (Table 9-5) the server answers with. */
module Usb {
  import opened Wrappers
  import opened Wire
  import opened Serdes
  import opened Records
  import opened Codec
  import opened CodecLaws
  import opened Layouts
  import opened Builtins

  // ------------------------------------------------------------ codes

  // `DescriptorType`
  const DescDevice := 0x01
  const DescConfiguration := 0x02
  const DescString := 0x03
  const DescInterface := 0x04
  const DescEndpoint := 0x05
  const DescDeviceQualifier := 0x06
  const DescOtherSpeedConfiguration := 0x07
  const DescInterfacePower := 0x08

  // `EndpointAttribute`
  const AttrControl := 0
  const AttrIso := 1
  const AttrBulk := 2
  const AttrInterrupt := 3

  // `SetupRequest`
  const RequestGetStatus := 0x00
  const RequestClearFeature := 0x01
  const RequestSetFeature := 0x03
  const RequestSetAddress := 0x05
  const RequestGetDescriptor := 0x06
  const RequestSetDescriptor := 0x07
  const RequestGetConfiguration := 0x08
  const RequestSetConfiguration := 0x09

  // ------------------------------------------------------------ the descriptor classes

  const DeviceFields :=
    [ ScalarWith("length", U8, 18), ScalarWith("descriptor_type", U8, 0x01), Scalar("bcd_usb", U16),
      Scalar("device_class", U8), Scalar("device_subclass", U8), Scalar("device_protocol", U8),
      Scalar("max_packet_size0", U8), Scalar("id_vendor", U16), Scalar("id_product", U16),
      Scalar("bcd_device", U16), Scalar("i_manufacturer", U8), Scalar("i_product", U8),
      Scalar("i_serial_number", U8), Scalar("num_configurations", U8)]
  const DeviceDescriptor := Schema("DeviceDescriptor", None, DeviceFields)

  const EndpointFields :=
    [ ScalarWith("length", U8, 7), ScalarWith("descriptor_type", U8, 0x05),
      Scalar("endpoint_address", U8), Scalar("bm_attributes", U8), Scalar("max_packet_size", U16),
      Scalar("interval", U8)]
  const EndpointDescriptor := Schema("EndpointDescriptor", None, EndpointFields)

  const InterfaceFixed :=
    [ ScalarWith("length", U8, 9), ScalarWith("descriptor_type", U8, 0x04),
      Scalar("interface_number", U8), ScalarWith("alternate_setting", U8, 0), Scalar("num_endpoints", U8),
      Scalar("interface_class", U8), Scalar("interface_subclass", U8), Scalar("interface_protocol", U8),
      Scalar("i_interface", U8)]
  const EndpointsTrailer := [Unbounded("endpoints", RecordElem(EndpointDescriptor))]
  const InterfaceDescriptor := Schema("InterfaceDescriptor", None, InterfaceFixed + EndpointsTrailer)

  const ConfigurationFixed :=
    [ ScalarWith("length", U8, 9), ScalarWith("descriptor_type", U8, 0x02),
      Scalar("total_length", U16), Scalar("num_interfaces", U8), Scalar("configuration_value", U8),
      Scalar("i_configuration", U8), Scalar("bm_attributes", U8), Scalar("max_power", U8)]
  const InterfacesTrailer := [Unbounded("interfaces", RecordElem(InterfaceDescriptor))]
  const ConfigurationDescriptor := Schema("ConfigurationDescriptor", None, ConfigurationFixed + InterfacesTrailer)

  const StringFixed := [Scalar("length", U8), ScalarWith("descriptor_type", U8, 0x03)]
  const StringTrailer := [Unbounded("data", PrimElem(U8))]
  const StringDescriptor := Schema("StringDescriptor", None, StringFixed + StringTrailer)

  // ------------------------------------------------------------ layouts

  /** What the encoding lemmas need of the device descriptor. */
  lemma DeviceShape()
    ensures Compiled(DeviceDescriptor) && Codable(DeviceDescriptor) && Trailers(DeviceDescriptor) == []
    ensures RawLength(DeviceDescriptor) == 18 && |Fixed(DeviceDescriptor)| > 1
    ensures Fixed(DeviceDescriptor)[0].name == "length" && Fixed(DeviceDescriptor)[0].ty == Primitive(U8) && Fixed(DeviceDescriptor)[0].default == Some(Int(18))
    ensures Fixed(DeviceDescriptor)[1].name == "descriptor_type" && Fixed(DeviceDescriptor)[1].default == Some(Int(DescDevice))
  {
    DeviceLayout();
    DeviceHeads();
  }

  lemma DeviceHeads()
    ensures |DeviceFields| > 1
    ensures DeviceFields[0] == ScalarWith("length", U8, 18) && DeviceFields[1] == ScalarWith("descriptor_type", U8, DescDevice)
  {
  }

  /** The device descriptor: 18 bytes, the default `length`. */
  lemma DeviceLayout()
    ensures Compiled(DeviceDescriptor) && Codable(DeviceDescriptor)
    ensures Fixed(DeviceDescriptor) == DeviceFields && Trailers(DeviceDescriptor) == []
    ensures RawLength(DeviceDescriptor) == 18
    ensures Fixed(DeviceDescriptor)[0].default == Some(Int(RawLength(DeviceDescriptor)))
  {
    assert DeviceFields + [] == DeviceFields;
    DeviceDistinct();
    DeviceWidth();
    DevicePlain();
    Laid(DeviceDescriptor, DeviceFields, [], 18);
  }

  lemma DeviceDistinct()
    ensures DistinctNames(DeviceFields)
  {
    assert "descriptor_type"[2] != "device_subclass"[2] && "descriptor_type"[2] != "device_protocol"[2];
    assert "descriptor_type"[0] != "i_serial_number"[0] && "device_subclass"[0] != "i_serial_number"[0];
    assert "device_protocol"[0] != "i_serial_number"[0] && "device_subclass"[7] != "device_protocol"[7];
    assert "id_vendor"[1] != "i_product"[1] && "id_product"[0] != "bcd_device"[0];
  }

  lemma DeviceWidth()
    ensures WidthFrom(DeviceFields) == 18
  {
  }

  lemma DevicePlain()
    ensures forall f :: f in DeviceFields ==> PlainFixed(f)
  {
  }

  /** What the encoding lemmas need of the endpoint descriptor. */
  lemma EndpointShape()
    ensures Compiled(EndpointDescriptor) && Codable(EndpointDescriptor) && Trailers(EndpointDescriptor) == []
    ensures RawLength(EndpointDescriptor) == 7 && |Fixed(EndpointDescriptor)| > 1
    ensures Fixed(EndpointDescriptor)[0].name == "length" && Fixed(EndpointDescriptor)[0].ty == Primitive(U8) && Fixed(EndpointDescriptor)[0].default == Some(Int(7))
    ensures Fixed(EndpointDescriptor)[1].name == "descriptor_type" && Fixed(EndpointDescriptor)[1].default == Some(Int(DescEndpoint))
  {
    EndpointLayout();
    EndpointHeads();
  }

  lemma EndpointHeads()
    ensures |EndpointFields| > 1
    ensures EndpointFields[0] == ScalarWith("length", U8, 7) && EndpointFields[1] == ScalarWith("descriptor_type", U8, DescEndpoint)
  {
  }

  /** The endpoint descriptor: 7 bytes, the default `length`. */
  lemma EndpointLayout()
    ensures Compiled(EndpointDescriptor) && Codable(EndpointDescriptor)
    ensures Fixed(EndpointDescriptor) == EndpointFields && Trailers(EndpointDescriptor) == []
    ensures RawLength(EndpointDescriptor) == 7
    ensures Fixed(EndpointDescriptor)[0].default == Some(Int(RawLength(EndpointDescriptor)))
  {
    assert EndpointFields + [] == EndpointFields;
    Laid(EndpointDescriptor, EndpointFields, [], 7);
  }

  /** What the encoding lemmas need of the interface descriptor. */
  lemma InterfaceShape()
    ensures Compiled(InterfaceDescriptor) && Codable(InterfaceDescriptor) && Trailers(InterfaceDescriptor) == [EndpointsTrailer[0]]
    ensures RawLength(InterfaceDescriptor) == 9 && |Fixed(InterfaceDescriptor)| > 1
    ensures Fixed(InterfaceDescriptor)[0].name == "length" && Fixed(InterfaceDescriptor)[0].ty == Primitive(U8) && Fixed(InterfaceDescriptor)[0].default == Some(Int(9))
    ensures Fixed(InterfaceDescriptor)[1].name == "descriptor_type" && Fixed(InterfaceDescriptor)[1].default == Some(Int(DescInterface))
    ensures EndpointsTrailer[0] == Unbounded("endpoints", RecordElem(EndpointDescriptor))
  {
    InterfaceLayout();
    InterfaceHeads();
  }

  lemma InterfaceHeads()
    ensures |InterfaceFixed| > 1
    ensures InterfaceFixed[0] == ScalarWith("length", U8, 9) && InterfaceFixed[1] == ScalarWith("descriptor_type", U8, DescInterface)
  {
  }

  /** The interface descriptor: a 9-byte prefix, the default `length`, then its
      endpoint descriptors as a trailing record array. */
  lemma InterfaceLayout()
    ensures Compiled(InterfaceDescriptor) && Codable(InterfaceDescriptor)
    ensures Fixed(InterfaceDescriptor) == InterfaceFixed && Trailers(InterfaceDescriptor) == EndpointsTrailer
    ensures RawLength(InterfaceDescriptor) == 9
    ensures Fixed(InterfaceDescriptor)[0].default == Some(Int(RawLength(InterfaceDescriptor)))
  {
    EndpointLayout();
    InterfaceDistinct();
    InterfaceWidth();
    InterfacePlain();
    Laid(InterfaceDescriptor, InterfaceFixed, EndpointsTrailer, 9);
    InterfaceCodable();
  }

  lemma InterfaceCodable()
    requires Codable(EndpointDescriptor) && Trailers(EndpointDescriptor) == [] && RawLength(EndpointDescriptor) == 7
    requires (|EndpointsTrailer| <= 1 && forall f :: f in EndpointsTrailer ==> TrailerCodable(f.ty)) ==>
      Codable(InterfaceDescriptor)
    ensures Codable(InterfaceDescriptor)
  {
    forall f | f in EndpointsTrailer ensures TrailerCodable(f.ty) {
      assert f == EndpointsTrailer[0];
    }
  }

  lemma InterfaceDistinct()
    ensures DistinctNames(InterfaceFixed + EndpointsTrailer)
  {
  }

  lemma InterfaceWidth()
    ensures WidthFrom(InterfaceFixed) == 9
  {
  }

  lemma InterfacePlain()
    requires Compiled(EndpointDescriptor)
    ensures forall f :: f in InterfaceFixed ==> PlainFixed(f)
    ensures forall f :: f in EndpointsTrailer ==> PlainTrailer(f)
  {
  }

  /** The configuration descriptor: a 9-byte prefix, the default `length`, then
      its interface descriptors. Interfaces carry a trailer of their own, so the
      engine cannot read a configuration back. */
  lemma ConfigurationLayout()
    ensures Compiled(ConfigurationDescriptor) && !Codable(ConfigurationDescriptor)
    ensures Fixed(ConfigurationDescriptor) == ConfigurationFixed
    ensures Trailers(ConfigurationDescriptor) == InterfacesTrailer
    ensures RawLength(ConfigurationDescriptor) == 9
    ensures Fixed(ConfigurationDescriptor)[0].default == Some(Int(RawLength(ConfigurationDescriptor)))
  {
    InterfaceLayout();
    ConfigurationDistinct();
    ConfigurationWidth();
    ConfigurationPlain();
    Laid(ConfigurationDescriptor, ConfigurationFixed, InterfacesTrailer, 9);
    ConfigurationNotCodable();
  }

  lemma ConfigurationNotCodable()
    requires Trailers(InterfaceDescriptor) == EndpointsTrailer
    requires Trailers(ConfigurationDescriptor) == InterfacesTrailer
    ensures !Codable(ConfigurationDescriptor)
  {
    assert InterfacesTrailer[0] in Trailers(ConfigurationDescriptor);
    assert !TrailerCodable(InterfacesTrailer[0].ty);
  }

  lemma ConfigurationDistinct()
    ensures DistinctNames(ConfigurationFixed + InterfacesTrailer)
  {
  }

  lemma ConfigurationWidth()
    ensures WidthFrom(ConfigurationFixed) == 9
  {
  }

  /** What the encoding lemmas need of the configuration descriptor. */
  lemma ConfigurationShape()
    ensures Compiled(ConfigurationDescriptor) && RawLength(ConfigurationDescriptor) == 9
    ensures forall f :: f in Fixed(ConfigurationDescriptor) ==> FixedCodable(f.ty)
    ensures Fixed(ConfigurationDescriptor) != [] && Fixed(ConfigurationDescriptor)[0] == ScalarWith("length", U8, 9)
    ensures Trailers(ConfigurationDescriptor) == [InterfacesTrailer[0]]
    ensures InterfacesTrailer[0] == Unbounded("interfaces", RecordElem(InterfaceDescriptor))
  {
    ConfigurationLayout();
    InterfaceLayout();
    ConfigurationPlain();
  }

  lemma ConfigurationPlain()
    requires Compiled(InterfaceDescriptor)
    ensures forall f :: f in ConfigurationFixed ==> PlainFixed(f)
    ensures forall f :: f in InterfacesTrailer ==> PlainTrailer(f)
  {
  }

  /** The string descriptor: `length` and type, 2 bytes, then the string's bytes. */
  lemma StringLayout()
    ensures Compiled(StringDescriptor) && Codable(StringDescriptor)
    ensures Fixed(StringDescriptor) == StringFixed && Trailers(StringDescriptor) == StringTrailer
    ensures RawLength(StringDescriptor) == 2
  {
    Laid(StringDescriptor, StringFixed, StringTrailer, 2);
  }

  // ------------------------------------------------------------ encodings

  /** The descriptor classes nest no record in their fixed prefix (the
      endpoints and interfaces are trailers), so `serialize` packs the values
      of the code as written for every descriptor. */
  lemma DescriptorsSerializeAsWritten(rr: Record)
    requires rr.schema in [DeviceDescriptor, EndpointDescriptor, InterfaceDescriptor, ConfigurationDescriptor, StringDescriptor]
    requires Shaped(rr)
    ensures NoNestedFields(rr.schema)
    ensures RawValues(rr) == SerializeValuesAsWritten(rr)
  {
    DescriptorFieldsPlain();
    NoNestedIsFlat(rr.schema);
    SerializeAsWritten(rr);
  }

  lemma DescriptorFieldsPlain()
    ensures NoNestedFields(DeviceDescriptor) && NoNestedFields(EndpointDescriptor)
    ensures NoNestedFields(InterfaceDescriptor) && NoNestedFields(ConfigurationDescriptor)
    ensures NoNestedFields(StringDescriptor)
  {
  }

  /** The device descriptor is 18 bytes on the wire, the first one its `length`. */
  lemma DeviceEncoding(rr: Record)
    requires rr.schema == DeviceDescriptor && Shaped(rr)
    ensures Encode(rr).Ok? && |Encode(rr).value| == 18
    ensures "length" in rr.attrs && rr.attrs["length"] == Int(Encode(rr).value[0])
  {
    DeviceShape();
    var bs := FixedEncoding(rr);
  }

  /** A device descriptor built without a `length` argument describes its own
      size, and its type defaults to DEVICE. */
  lemma DeviceDescribesItself(kwargs: map<string, Value>)
    requires "length" !in kwargs
    requires Construct(DeviceDescriptor, kwargs).Ok? && Shaped(Construct(DeviceDescriptor, kwargs).value)
    ensures var bs := Encode(Construct(DeviceDescriptor, kwargs).value);
      bs.Ok? && |bs.value| == 18 && bs.value[0] == 18
    ensures "descriptor_type" !in kwargs ==>
      var attrs := Construct(DeviceDescriptor, kwargs).value.attrs;
      "descriptor_type" in attrs && attrs["descriptor_type"] == Int(DescDevice)
  {
    DeviceShape();
    DescribesItself(DeviceDescriptor, kwargs);
    if "descriptor_type" !in kwargs {
      DefaultStored(DeviceDescriptor, kwargs, 1);
    }
  }

  /** The endpoint descriptor is 7 bytes on the wire, the first one its `length`. */
  lemma EndpointEncoding(rr: Record)
    requires rr.schema == EndpointDescriptor && Shaped(rr)
    ensures Encode(rr).Ok? && |Encode(rr).value| == 7
    ensures "length" in rr.attrs && rr.attrs["length"] == Int(Encode(rr).value[0])
  {
    EndpointShape();
    var bs := FixedEncoding(rr);
  }

  /** An endpoint descriptor built without a `length` argument describes its
      own size, and its type defaults to ENDPOINT. */
  lemma EndpointDescribesItself(kwargs: map<string, Value>)
    requires "length" !in kwargs
    requires Construct(EndpointDescriptor, kwargs).Ok? && Shaped(Construct(EndpointDescriptor, kwargs).value)
    ensures var bs := Encode(Construct(EndpointDescriptor, kwargs).value);
      bs.Ok? && |bs.value| == 7 && bs.value[0] == 7
    ensures "descriptor_type" !in kwargs ==>
      var attrs := Construct(EndpointDescriptor, kwargs).value.attrs;
      "descriptor_type" in attrs && attrs["descriptor_type"] == Int(DescEndpoint)
  {
    EndpointShape();
    DescribesItself(EndpointDescriptor, kwargs);
    if "descriptor_type" !in kwargs {
      DefaultStored(EndpointDescriptor, kwargs, 1);
    }
  }

  /** Endpoint descriptors in a row take 7 bytes each. */
  lemma {:induction false} EndpointsEncoding(items: seq<Value>)
    requires forall j :: 0 <= j < |items| ==>
      items[j].Rec? && items[j].r.schema == EndpointDescriptor && Shaped(items[j].r)
    ensures EncodeAll(items).Ok? && |EncodeAll(items).value| == 7 * |items|
  {
    if items != [] {
      EndpointEncoding(items[0].r);
      EndpointsEncoding(items[1..]);
    }
  }

  /** The endpoints of an interface, as a list (none when absent). */
  function EndpointCount(v: Value): nat
  {
    if v.Rec? && "endpoints" in v.r.attrs && v.r.attrs["endpoints"].List? then |v.r.attrs["endpoints"].items|
    else 0
  }

  /** The bytes a list of interfaces takes: 9 for each plus 7 per endpoint. */
  function InterfacesSize(items: seq<Value>): nat
  {
    if items == [] then 0 else 9 + 7 * EndpointCount(items[0]) + InterfacesSize(items[1..])
  }

  /** An interface descriptor serializes to its 9-byte prefix, led by its
      `length`, followed by each of its endpoints' 7-byte encodings. */
  lemma InterfaceEncoding(rr: Record) returns (prefix: Bytes)
    requires rr.schema == InterfaceDescriptor && Shaped(rr)
    ensures "endpoints" in rr.attrs && rr.attrs["endpoints"].List?
    ensures |prefix| == 9 && "length" in rr.attrs && rr.attrs["length"] == Int(prefix[0])
    ensures var eps := rr.attrs["endpoints"].items;
      && EncodeAll(eps).Ok? && |EncodeAll(eps).value| == 7 * |eps|
      && Encode(rr) == Ok(prefix + EncodeAll(eps).value)
  {
    InterfaceShape();
    prefix := RecordListEncoding(rr, EndpointsTrailer[0], EndpointDescriptor);
    EndpointsEncoding(rr.attrs["endpoints"].items);
  }

  /** Interface descriptors in a row take `InterfacesSize` bytes. */
  lemma {:induction false} InterfacesEncoding(items: seq<Value>)
    requires forall j :: 0 <= j < |items| ==>
      items[j].Rec? && items[j].r.schema == InterfaceDescriptor && Shaped(items[j].r)
    ensures EncodeAll(items).Ok? && |EncodeAll(items).value| == InterfacesSize(items)
  {
    if items != [] {
      var prefix := InterfaceEncoding(items[0].r);
      InterfacesEncoding(items[1..]);
    }
  }

  /** A configuration descriptor serializes to its 9-byte prefix, led by its
      `length`, followed by its interfaces' encodings; all of it is the size a
      `total_length` should announce. */
  lemma ConfigurationEncoding(rr: Record) returns (prefix: Bytes)
    requires rr.schema == ConfigurationDescriptor && Shaped(rr)
    ensures "interfaces" in rr.attrs && rr.attrs["interfaces"].List?
    ensures |prefix| == 9 && "length" in rr.attrs && rr.attrs["length"] == Int(prefix[0])
    ensures var ifs := rr.attrs["interfaces"].items;
      && EncodeAll(ifs).Ok?
      && Encode(rr) == Ok(prefix + EncodeAll(ifs).value)
      && |Encode(rr).value| == 9 + InterfacesSize(ifs)
  {
    ConfigurationShape();
    prefix := RecordListEncoding(rr, InterfacesTrailer[0], InterfaceDescriptor);
    InterfacesEncoding(rr.attrs["interfaces"].items);
  }

  // ------------------------------------------------------------ string descriptors

  /** A string descriptor with the given `length` and data bytes. */
  function StringRecord(len: int, data: Bytes): Record
  {
    Record(StringDescriptor, map["length" := Int(len), "descriptor_type" := Int(DescString), "data" := BytesValue(data)])
  }

  /** `StringDescriptor.language`: a language id of exactly two byte values. */
  function Language(id: seq<Value>): Result<Record, Error>
  {
    if |id| != 2 then Err(InvalidValue)
    else
      var bs :- ToBytes(id);
      Construct(StringDescriptor, map["length" := Int(RawLength(StringDescriptor) + |id|), "data" := BytesValue(bs)])
  }

  /** `StringDescriptor.build`, given the string's UTF-16 encoding. */
  function Build(encoded: Bytes): Result<Record, Error>
  {
    Construct(StringDescriptor, map["length" := Int(RawLength(StringDescriptor) + |encoded|), "data" := BytesValue(encoded)])
  }

  lemma StringNames()
    ensures Names(AllFields(StringDescriptor)) == {"length", "descriptor_type", "data"}
  {
    StringLayout();
    assert AllFields(StringDescriptor) == [StringFixed[0], StringFixed[1], StringTrailer[0]];
    NamesFromIsNames(AllFields(StringDescriptor));
  }

  lemma StringFormat()
    ensures Format(StringDescriptor) == [U8, U8]
  {
    StringLayout();
    FormatFromIsJoin(StringDescriptor, StringFixed);
    assert FormatFrom(StringFixed) == [U8] + ([U8] + []);
  }

  /** The constructor call both class methods make: `length` and `data` given,
      the type from its default. */
  lemma StringConstruct(len: int, data: Bytes)
    ensures Construct(StringDescriptor, map["length" := Int(len), "data" := BytesValue(data)]) == Ok(StringRecord(len, data))
  {
    var kwargs := map["length" := Int(len), "data" := BytesValue(data)];
    StringFields();
    StringNames();
    var fs := AllFields(StringDescriptor);
    ConstructOk(StringDescriptor, kwargs);
    var r := Construct(StringDescriptor, kwargs).value;
    assert r.attrs[fs[0].name] == Int(len) && r.attrs[fs[1].name] == Int(DescString);
    assert r.attrs[fs[2].name] == BytesValue(data);
    SameThree(r.attrs, StringRecord(len, data).attrs, "length", "descriptor_type", "data");
  }

  lemma StringFields()
    ensures Compiled(StringDescriptor)
    ensures AllFields(StringDescriptor) ==
      [Field("length", Primitive(U8), None), Field("descriptor_type", Primitive(U8), Some(Int(DescString))),
       Field("data", ArrayOf(PrimElem(U8), 0), None)]
  {
    StringLayout();
  }

  lemma SameThree<V>(m: map<string, V>, n: map<string, V>, a: string, b: string, c: string)
    requires m.Keys == {a, b, c} == n.Keys
    requires m[a] == n[a] && m[b] == n[b] && m[c] == n[c]
    ensures m == n
  {
  }

  /** A string descriptor serializes to its `length`, the STRING type and its
      data bytes; a `length` beyond a byte makes `struct.pack` fail. */
  lemma StringEncoding(len: int, data: Bytes)
    ensures Encode(StringRecord(len, data)) ==
      if 0 <= len < 0x100 then Ok([len, DescString] + data) else Err(PackError)
  {
    StringLayout();
    StringFormat();
    StringRawValues(len, data);
    StringPrefix(len);
    StringTail(len, data);
    assert !IsEmpty(StringDescriptor) by { assert StringFixed != []; }
  }

  lemma StringRawValues(len: int, data: Bytes)
    ensures RawValues(StringRecord(len, data)) == Ok(Ints([len, DescString]))
  {
    var rr := StringRecord(len, data);
    StringLayout();
    FlattenScalars(rr, StringFixed);
    assert ScalarValues(rr, StringFixed) == Ints([len, DescString]);
  }

  lemma StringPrefix(len: int)
    ensures Pack([U8, U8], Ints([len, DescString])) ==
      if 0 <= len < 0x100 then Ok([len, DescString]) else Err(PackError)
  {
    PackPair(len, DescString);
  }

  lemma StringTail(len: int, data: Bytes)
    ensures TrailerBytes(StringRecord(len, data), StringTrailer) == Ok(data)
  {
    StringData(StringRecord(len, data), data);
  }

  /** A string descriptor whose `length` fits a byte has its declared shape. */
  lemma StringShaped(len: int, data: Bytes)
    requires 0 <= len < 0x100
    ensures Shaped(StringRecord(len, data))
  {
    StringLayout();
    StringNames();
    StringFixedShaped(len, data);
    StringTrailerShaped(len, data);
  }

  lemma StringFixedShaped(len: int, data: Bytes)
    requires 0 <= len < 0x100
    requires Fixed(StringDescriptor) == StringFixed
    ensures var rr := StringRecord(len, data);
      forall f :: f in Fixed(rr.schema) ==> f.name in rr.attrs && ShapedFixed(f.ty, rr.attrs[f.name])
  {
    assert StringFixed == [Scalar("length", U8), ScalarWith("descriptor_type", U8, 0x03)];
  }

  lemma StringTrailerShaped(len: int, data: Bytes)
    requires Trailers(StringDescriptor) == StringTrailer
    ensures var rr := StringRecord(len, data);
      forall f :: f in Trailers(rr.schema) ==> f.name in rr.attrs && ShapedTrailer(f.ty, rr.attrs[f.name])
  {
    var v := BytesValue(data);
    assert forall i :: 0 <= i < |v.items| ==> v.items[i] == Int(data[i]);
    assert ShapedTrailer(StringTrailer[0].ty, v);
  }

  /** Those bytes read back as the same descriptor. */
  lemma StringDecoding(len: int, data: Bytes)
    requires 0 <= len < 0x100
    ensures Decode(StringDescriptor, [len, DescString] + data) == Ok(StringRecord(len, data))
  {
    StringLayout();
    StringShaped(len, data);
    StringEncoding(len, data);
    RoundTrip(StringRecord(len, data));
  }

  /** `language` fails with ValueError unless given exactly two items, and with
      `bytes`' errors unless both are byte values; otherwise it is the 4-byte
      descriptor `[4, STRING]` followed by those two bytes. */
  lemma LanguageResult(id: seq<Value>)
    ensures Language(id).Ok? <==> |id| == 2 && forall k :: 0 <= k < 2 ==> id[k].Int? && 0 <= id[k].n < 0x100
    ensures |id| != 2 ==> Language(id) == Err(InvalidValue)
    ensures Language(id).Ok? ==>
      && ToBytes(id).Ok? && BytesValue(ToBytes(id).value) == List(id)
      && Language(id) == Ok(StringRecord(4, ToBytes(id).value))
      && Encode(Language(id).value) == Ok([4, DescString] + ToBytes(id).value)
  {
    StringLayout();
    if |id| == 2 && ToBytes(id).Ok? {
      var bs := ToBytes(id).value;
      StringConstruct(4, bs);
      StringEncoding(4, bs);
    }
  }

  /** `build` always succeeds, with `length` 2 plus the encoded size; the
      descriptor serializes (and reads back) only while that fits a byte. */
  lemma BuildResult(encoded: Bytes)
    ensures Build(encoded) == Ok(StringRecord(2 + |encoded|, encoded))
    ensures Encode(Build(encoded).value) ==
      if 2 + |encoded| < 0x100 then Ok([2 + |encoded|, DescString] + encoded) else Err(PackError)
    ensures 2 + |encoded| < 0x100 ==>
      Decode(StringDescriptor, [2 + |encoded|, DescString] + encoded) == Build(encoded)
  {
    StringLayout();
    StringConstruct(2 + |encoded|, encoded);
    StringEncoding(2 + |encoded|, encoded);
    if 2 + |encoded| < 0x100 {
      StringDecoding(2 + |encoded|, encoded);
    }
  }
  /** Any string descriptor holding values of its declared shapes serializes,
      to at least its 2-byte prefix, led by its `length`. */
  lemma StringDescriptorEncoding(rr: Record)
    requires rr.schema == StringDescriptor && Shaped(rr)
    ensures Encode(rr).Ok? && |Encode(rr).value| >= 2
    ensures "length" in rr.attrs && rr.attrs["length"] == Int(Encode(rr).value[0])
  {
    StringLayout();
    StringHead();
    assert !IsEmpty(StringDescriptor) by { assert StringFixed != []; }
    var prefix := PrefixBytes(rr);
    assert StringTrailer[0] in Trailers(rr.schema);
    var v := rr.attrs["data"];
    var data := ToBytes(v.items).value;
    StringData(rr, data);
  }

  lemma StringHead()
    ensures StringFixed != [] && StringFixed[0] == Field("length", Primitive(U8), None)
  {
  }

  /** The trailer of a string descriptor is its data bytes. */
  lemma StringData(rr: Record, data: Bytes)
    requires "data" in rr.attrs && rr.attrs["data"] == BytesValue(data)
    ensures TrailerBytes(rr, StringTrailer) == Ok(data)
  {
    PackBytes(data);
    PackOfInts(Repeat([U8], |data|), data);
    assert VariableSerialize(PrimElem(U8), rr.attrs["data"]) == Ok(data);
    assert StringTrailer[1..] == [];
    assert TrailerBytes(rr, []) == Ok([]);
    assert data + [] == data;
  }
}
