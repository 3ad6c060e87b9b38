/** The CDC-ACM example server of examples/cdc.py: the class-specific
    functional descriptors of the USB Class Definitions for Communication
    Devices 1.1 (section 5.2.3), and a `Server` whose bulk endpoints are a
    loop-back that upper-cases what the host writes and hands it back when the
    host reads. */
module Cdc {
  import opened Wrappers
  import opened Wire
  import opened Serdes
  import opened Records
  import opened Codec
  import opened CodecLaws
  import opened Layouts
  import opened Builtins
  import opened Protocol
  import opened Servers
  import opened Announce
  import opened Sessions
  import Usb

  // ------------------------------------------------------------ functional descriptors

  /** `CS_INTERFACE`, the descriptor type of every functional descriptor. */
  const CsInterface := 0x24

  const HeaderDescriptorFields :=
    [ ScalarWith("function_length", U8, 5), ScalarWith("descriptor_type", U8, 0x24),
      ScalarWith("descriptor_subtype", U8, 0x00), ScalarWith("bcd_cdc", U16, 0x0110)]
  const HeaderDescriptor := Schema("HeaderDescriptor", None, HeaderDescriptorFields)

  const UnionDescriptorFields :=
    [ ScalarWith("function_length", U8, 5), ScalarWith("descriptor_type", U8, 0x24),
      ScalarWith("descriptor_subtype", U8, 0x06), Scalar("control_interface", U8),
      Scalar("subordinate_interface0", U8)]
  const UnionDescriptor := Schema("UnionDescriptor", None, UnionDescriptorFields)

  const CallManagementFields :=
    [ ScalarWith("function_length", U8, 5), ScalarWith("descriptor_type", U8, 0x24),
      ScalarWith("descriptor_subtype", U8, 0x01), Scalar("bm_capabilities", U8),
      Scalar("data_interface", U8)]
  const CallManagementDescriptor := Schema("CallManagementDescriptor", None, CallManagementFields)

  const AcmFields :=
    [ ScalarWith("function_length", U8, 4), ScalarWith("descriptor_type", U8, 0x24),
      ScalarWith("descriptor_subtype", U8, 0x02), Scalar("bm_capabilities", U8)]
  const AcmDescriptor := Schema("ACMDescriptor", None, AcmFields)

  /** The functional descriptor classes nest no record, so `serialize` packs
      the values of the code as written for each of them. */
  lemma FunctionalSerializeAsWritten(rr: Record)
    requires rr.schema in [HeaderDescriptor, UnionDescriptor, CallManagementDescriptor, AcmDescriptor]
    requires Shaped(rr)
    ensures NoNestedFields(rr.schema)
    ensures RawValues(rr) == SerializeValuesAsWritten(rr)
  {
    FunctionalFieldsPlain();
    NoNestedIsFlat(rr.schema);
    SerializeAsWritten(rr);
  }

  lemma FunctionalFieldsPlain()
    ensures NoNestedFields(HeaderDescriptor) && NoNestedFields(UnionDescriptor)
    ensures NoNestedFields(CallManagementDescriptor) && NoNestedFields(AcmDescriptor)
  {
  }

  /** A functional descriptor class: a fixed prefix of u8 length, type and
      subtype with those defaults, and no trailer. */
  predicate Functional(s: Schema, width: nat, subtype: int)
  {
    && Compiled(s) && Codable(s) && Trailers(s) == [] && RawLength(s) == width
    && |Fixed(s)| > 2
    && Fixed(s)[0].name == "function_length" && Fixed(s)[0].ty == Primitive(U8)
    && Fixed(s)[0].default == Some(Int(RawLength(s)))
    && Fixed(s)[1].name == "descriptor_type" && Fixed(s)[1].default == Some(Int(CsInterface))
    && Fixed(s)[2].name == "descriptor_subtype" && Fixed(s)[2].default == Some(Int(subtype))
  }

  /** The header functional descriptor: 5 bytes, subtype 0x00. */
  lemma HeaderDescriptorShape()
    ensures Functional(HeaderDescriptor, 5, 0x00)
  {
    HeaderDescriptorLayout();
    HeaderDescriptorHeads();
  }

  lemma HeaderDescriptorHeads()
    ensures |HeaderDescriptorFields| > 2
    ensures HeaderDescriptorFields[0] == ScalarWith("function_length", U8, 5)
    ensures HeaderDescriptorFields[1] == ScalarWith("descriptor_type", U8, 0x24)
    ensures HeaderDescriptorFields[2] == ScalarWith("descriptor_subtype", U8, 0x00)
  {
  }

  lemma HeaderDescriptorLayout()
    ensures Compiled(HeaderDescriptor) && Codable(HeaderDescriptor)
    ensures Fixed(HeaderDescriptor) == HeaderDescriptorFields && Trailers(HeaderDescriptor) == []
    ensures RawLength(HeaderDescriptor) == 5
  {
    assert HeaderDescriptorFields + [] == HeaderDescriptorFields;
    Laid(HeaderDescriptor, HeaderDescriptorFields, [], 5);
  }

  /** The union functional descriptor: 5 bytes, subtype 0x06. */
  lemma UnionDescriptorShape()
    ensures Functional(UnionDescriptor, 5, 0x06)
  {
    UnionDescriptorLayout();
    UnionDescriptorHeads();
  }

  lemma UnionDescriptorHeads()
    ensures |UnionDescriptorFields| > 2
    ensures UnionDescriptorFields[0] == ScalarWith("function_length", U8, 5)
    ensures UnionDescriptorFields[1] == ScalarWith("descriptor_type", U8, 0x24)
    ensures UnionDescriptorFields[2] == ScalarWith("descriptor_subtype", U8, 0x06)
  {
  }

  lemma UnionDescriptorLayout()
    ensures Compiled(UnionDescriptor) && Codable(UnionDescriptor)
    ensures Fixed(UnionDescriptor) == UnionDescriptorFields && Trailers(UnionDescriptor) == []
    ensures RawLength(UnionDescriptor) == 5
  {
    assert UnionDescriptorFields + [] == UnionDescriptorFields;
    Laid(UnionDescriptor, UnionDescriptorFields, [], 5);
  }

  /** The call management functional descriptor: 5 bytes, subtype 0x01. */
  lemma CallManagementShape()
    ensures Functional(CallManagementDescriptor, 5, 0x01)
  {
    CallManagementLayout();
    CallManagementHeads();
  }

  lemma CallManagementHeads()
    ensures |CallManagementFields| > 2
    ensures CallManagementFields[0] == ScalarWith("function_length", U8, 5)
    ensures CallManagementFields[1] == ScalarWith("descriptor_type", U8, 0x24)
    ensures CallManagementFields[2] == ScalarWith("descriptor_subtype", U8, 0x01)
  {
  }

  lemma CallManagementLayout()
    ensures Compiled(CallManagementDescriptor) && Codable(CallManagementDescriptor)
    ensures Fixed(CallManagementDescriptor) == CallManagementFields && Trailers(CallManagementDescriptor) == []
    ensures RawLength(CallManagementDescriptor) == 5
  {
    assert CallManagementFields + [] == CallManagementFields;
    Laid(CallManagementDescriptor, CallManagementFields, [], 5);
  }

  /** The abstract control management functional descriptor: 4 bytes, subtype 0x02. */
  lemma AcmShape()
    ensures Functional(AcmDescriptor, 4, 0x02)
  {
    AcmLayout();
    AcmHeads();
  }

  lemma AcmHeads()
    ensures |AcmFields| > 2
    ensures AcmFields[0] == ScalarWith("function_length", U8, 4)
    ensures AcmFields[1] == ScalarWith("descriptor_type", U8, 0x24)
    ensures AcmFields[2] == ScalarWith("descriptor_subtype", U8, 0x02)
  {
  }

  lemma AcmLayout()
    ensures Compiled(AcmDescriptor) && Codable(AcmDescriptor)
    ensures Fixed(AcmDescriptor) == AcmFields && Trailers(AcmDescriptor) == []
    ensures RawLength(AcmDescriptor) == 4
  {
    assert AcmFields + [] == AcmFields;
    Laid(AcmDescriptor, AcmFields, [], 4);
  }

  /** A functional descriptor built without `function_length`,
      `descriptor_type` and `descriptor_subtype` arguments serializes to
      `width` bytes that start with the width, CS_INTERFACE and the subtype. */
  lemma FunctionalDescribesItself(s: Schema, width: nat, subtype: int, kwargs: map<string, Value>)
    requires Functional(s, width, subtype)
    requires "function_length" !in kwargs && "descriptor_type" !in kwargs && "descriptor_subtype" !in kwargs
    requires Construct(s, kwargs).Ok? && Shaped(Construct(s, kwargs).value)
    ensures var bs := Encode(Construct(s, kwargs).value);
      bs.Ok? && |bs.value| == width && width > 0 && bs.value[0] == width
    ensures var attrs := Construct(s, kwargs).value.attrs;
      && "descriptor_type" in attrs && attrs["descriptor_type"] == Int(CsInterface)
      && "descriptor_subtype" in attrs && attrs["descriptor_subtype"] == Int(subtype)
  {
    DescribesItself(s, kwargs);
    DefaultStored(s, kwargs, 1);
    DefaultStored(s, kwargs, 2);
  }

  /** Each of the four classes announces its own size in its first field. */
  lemma FunctionalDescriptors()
    ensures Functional(HeaderDescriptor, 5, 0x00)
    ensures Functional(UnionDescriptor, 5, 0x06)
    ensures Functional(CallManagementDescriptor, 5, 0x01)
    ensures Functional(AcmDescriptor, 4, 0x02)
  {
    HeaderDescriptorShape();
    UnionDescriptorShape();
    CallManagementShape();
    AcmShape();
  }

  // ------------------------------------------------------------ the communication interface

  /** The keywords the class body passes to `InterfaceDescriptor` for the
      communication interface (examples/cdc.py:111-119), `endpoints` as given. */
  function CommInterfaceArgs(endpoints: Value): map<string, Value>
  {
    map["interface_number" := Int(0), "num_endpoints" := Int(1), "interface_class" := Int(2),
        "interface_subclass" := Int(2), "interface_protocol" := Int(1), "i_interface" := Int(0),
        "endpoints" := endpoints]
  }

  const InterfacePrefixNames :=
    {"length", "descriptor_type", "interface_number", "alternate_setting", "num_endpoints",
     "interface_class", "interface_subclass", "interface_protocol", "i_interface"}
  const InterfaceFieldNames := InterfacePrefixNames + {"endpoints"}

  lemma InterfaceNames()
    ensures Compiled(Usb.InterfaceDescriptor)
    ensures Names(AllFields(Usb.InterfaceDescriptor)) == InterfaceFieldNames
  {
    Usb.InterfaceLayout();
    PrefixNames();
    EndpointsTrailerNames();
    NamesOfParts(Usb.InterfaceFixed, Usb.EndpointsTrailer, InterfacePrefixNames, {"endpoints"});
  }

  lemma EndpointsTrailerNames()
    ensures NamesFrom(Usb.EndpointsTrailer) == {"endpoints"}
  {
    assert Usb.EndpointsTrailer[1..] == [];
  }

  lemma NamesOfParts(a: seq<Field>, b: seq<Field>, na: set<string>, nb: set<string>)
    requires NamesFrom(a) == na && NamesFrom(b) == nb
    ensures Names(a + b) == na + nb
  {
    NamesFromAppend(a, b);
    NamesFromIsNames(a + b);
  }

  lemma PrefixNames()
    ensures NamesFrom(Usb.InterfaceFixed) == InterfacePrefixNames
  {
    var fs := Usb.InterfaceFixed;
    assert fs[9..] == [];
    assert NamesFrom(fs[8..]) == {"i_interface"};
    assert NamesFrom(fs[7..]) == {"interface_protocol", "i_interface"};
    assert NamesFrom(fs[6..]) == {"interface_subclass", "interface_protocol", "i_interface"};
    assert NamesFrom(fs[5..]) == {"interface_class", "interface_subclass", "interface_protocol", "i_interface"};
    assert NamesFrom(fs[4..]) == {"num_endpoints", "interface_class", "interface_subclass", "interface_protocol", "i_interface"};
    assert NamesFrom(fs[3..]) == {"alternate_setting", "num_endpoints", "interface_class", "interface_subclass", "interface_protocol", "i_interface"};
    assert NamesFrom(fs[2..]) == {"interface_number", "alternate_setting", "num_endpoints", "interface_class", "interface_subclass", "interface_protocol", "i_interface"};
    assert NamesFrom(fs[1..]) == {"descriptor_type", "interface_number", "alternate_setting", "num_endpoints", "interface_class", "interface_subclass", "interface_protocol", "i_interface"};
  }

  /** The fields of `InterfaceDescriptor` that have a class default. */
  const InterfaceDefaulted := {"length", "descriptor_type", "alternate_setting"}

  lemma CommInterfaceKeys(endpoints: Value)
    ensures CommInterfaceArgs(endpoints).Keys == InterfaceFieldNames - InterfaceDefaulted
  {
  }

  /** Every field without a default named by a keyword: each field is supplied. */
  lemma InterfaceSupplied(kwargs: map<string, Value>)
    requires InterfaceFieldNames - InterfaceDefaulted <= kwargs.Keys
    ensures var fs := AllFields(Usb.InterfaceDescriptor);
      forall i :: 0 <= i < |fs| ==> Supplied(fs[i], kwargs)
  {
    PrefixSupplied(kwargs);
    TrailerSupplied(kwargs);
    InterfaceAllFields();
    SuppliedConcat(Usb.InterfaceFixed, Usb.EndpointsTrailer, kwargs);
  }

  lemma InterfaceAllFields()
    ensures AllFields(Usb.InterfaceDescriptor) == Usb.InterfaceFixed + Usb.EndpointsTrailer
  {
    Usb.InterfaceLayout();
  }

  lemma TrailerSupplied(kwargs: map<string, Value>)
    requires "endpoints" in kwargs
    ensures forall f :: f in Usb.EndpointsTrailer ==> Supplied(f, kwargs)
  {
  }

  lemma PrefixSupplied(kwargs: map<string, Value>)
    requires InterfaceFieldNames - InterfaceDefaulted <= kwargs.Keys
    ensures forall f :: f in Usb.InterfaceFixed ==> Supplied(f, kwargs)
  {
  }

  lemma SuppliedConcat(a: seq<Field>, b: seq<Field>, kwargs: map<string, Value>)
    requires forall f :: f in a ==> Supplied(f, kwargs)
    requires forall f :: f in b ==> Supplied(f, kwargs)
    ensures forall i :: 0 <= i < |a + b| ==> Supplied((a + b)[i], kwargs)
  {
    forall i | 0 <= i < |a + b| ensures Supplied((a + b)[i], kwargs) {
      if i < |a| { assert (a + b)[i] == a[i] && a[i] in a; } else { assert (a + b)[i] == b[i - |a|] && b[i - |a|] in b; }
    }
  }

  /** As written, the class body also passes `extra=` the functional
      descriptors (examples/cdc.py:120). `InterfaceDescriptor` declares no
      such field, so the constructor raises KeyError naming it, and the
      `CDCServer` class body never completes. */
  lemma CommInterfaceAsWritten(endpoints: Value, extra: Value)
    ensures Construct(Usb.InterfaceDescriptor, CommInterfaceArgs(endpoints)["extra" := extra]) ==
      Err(UnexpectedFields({"extra"}))
  {
    var kw := CommInterfaceArgs(endpoints)["extra" := extra];
    InterfaceNames();
    CommInterfaceKeys(endpoints);
    InterfaceSupplied(kw);
    ExtraUnexpected(kw.Keys, CommInterfaceArgs(endpoints).Keys);
    ConstructUnexpected(Usb.InterfaceDescriptor, kw);
  }

  lemma ExtraUnexpected(keys: set<string>, args: set<string>)
    requires args == InterfaceFieldNames - InterfaceDefaulted && keys == args + {"extra"}
    ensures !(keys <= InterfaceFieldNames) && keys - InterfaceFieldNames == {"extra"}
  {
    assert "extra" !in InterfaceFieldNames;
  }

  /** Without `extra=`, with the functional descriptors listed among the
      endpoints, where `send_ep_info` skips items without `endpoint_address`
      (fakeusb/server.py:126-127): the interface is built, holding exactly
      its ten fields, the given endpoint list and the default `length` 9. */
  lemma CommInterfaceIntended(endpoints: Value)
    ensures Construct(Usb.InterfaceDescriptor, CommInterfaceArgs(endpoints)).Ok?
    ensures var r := Construct(Usb.InterfaceDescriptor, CommInterfaceArgs(endpoints)).value;
      && r.attrs.Keys == InterfaceFieldNames
      && r.attrs["endpoints"] == endpoints && r.attrs["length"] == Int(9)
      && r.attrs["interface_class"] == Int(2) && r.attrs["interface_protocol"] == Int(1)
  {
    var kw := CommInterfaceArgs(endpoints);
    InterfaceNames();
    CommInterfaceKeys(endpoints);
    InterfaceSupplied(kw);
    ConstructOk(Usb.InterfaceDescriptor, kw);
    InterfaceFieldsAt();
  }

  lemma InterfaceFieldsAt()
    ensures var fs := AllFields(Usb.InterfaceDescriptor);
      && |fs| == 10
      && fs[0] == ScalarWith("length", U8, 9) && fs[5].name == "interface_class"
      && fs[7].name == "interface_protocol" && fs[9].name == "endpoints"
  {
    InterfaceAllFields();
    var a, b := Usb.InterfaceFixed, Usb.EndpointsTrailer;
    PrefixAt();
    assert |b| == 1 && b[0].name == "endpoints";
    ConcatAt(a, b);
  }

  lemma PrefixAt()
    ensures |Usb.InterfaceFixed| == 9 && Usb.InterfaceFixed[0] == ScalarWith("length", U8, 9)
    ensures Usb.InterfaceFixed[5].name == "interface_class" && Usb.InterfaceFixed[7].name == "interface_protocol"
  {
  }

  lemma ConcatAt<T>(a: seq<T>, b: seq<T>)
    requires |a| == 9 && |b| == 1
    ensures |a + b| == 10 && (a + b)[0] == a[0] && (a + b)[5] == a[5] && (a + b)[7] == a[7] && (a + b)[9] == b[0]
  {
  }

  /** A functional descriptor in an `endpoints` list has no
      `endpoint_address`, so `send_ep_info` passes over it. */
  lemma FunctionalSkipped(intfd: Record, s: Schema, kwargs: map<string, Value>)
    requires s in [HeaderDescriptor, UnionDescriptor, CallManagementDescriptor, AcmDescriptor]
    requires Construct(s, kwargs).Ok?
    ensures EndpointEntry(intfd, Rec(Construct(s, kwargs).value)) == Ok(None)
  {
    FunctionalUnaddressed(s);
    ConstructOk(s, kwargs);
  }

  /** No functional descriptor class declares `endpoint_address`. */
  lemma FunctionalUnaddressed(s: Schema)
    requires s in [HeaderDescriptor, UnionDescriptor, CallManagementDescriptor, AcmDescriptor]
    ensures Compiled(s) && "endpoint_address" !in Names(AllFields(s))
  {
    if s == HeaderDescriptor { HeaderUnaddressed(); }
    else if s == UnionDescriptor { UnionUnaddressed(); }
    else if s == CallManagementDescriptor { CallManagementUnaddressed(); }
    else { AcmUnaddressed(); }
  }

  lemma HeaderUnaddressed()
    ensures Compiled(HeaderDescriptor) && "endpoint_address" !in Names(AllFields(HeaderDescriptor))
  {
    HeaderDescriptorLayout();
    assert AllFields(HeaderDescriptor) == HeaderDescriptorFields + [];
    assert HeaderDescriptorFields + [] == HeaderDescriptorFields;
    NotNamed(HeaderDescriptorFields, "endpoint_address");
  }

  lemma UnionUnaddressed()
    ensures Compiled(UnionDescriptor) && "endpoint_address" !in Names(AllFields(UnionDescriptor))
  {
    UnionDescriptorLayout();
    assert AllFields(UnionDescriptor) == UnionDescriptorFields + [];
    assert UnionDescriptorFields + [] == UnionDescriptorFields;
    NotNamed(UnionDescriptorFields, "endpoint_address");
  }

  lemma CallManagementUnaddressed()
    ensures Compiled(CallManagementDescriptor) && "endpoint_address" !in Names(AllFields(CallManagementDescriptor))
  {
    CallManagementLayout();
    assert AllFields(CallManagementDescriptor) == CallManagementFields + [];
    assert CallManagementFields + [] == CallManagementFields;
    NotNamed(CallManagementFields, "endpoint_address");
  }

  lemma AcmUnaddressed()
    ensures Compiled(AcmDescriptor) && "endpoint_address" !in Names(AllFields(AcmDescriptor))
  {
    AcmLayout();
    assert AllFields(AcmDescriptor) == AcmFields + [];
    assert AcmFields + [] == AcmFields;
    NotNamed(AcmFields, "endpoint_address");
  }

  lemma NotNamed(fs: seq<Field>, n: string)
    requires forall f :: f in fs ==> f.name != n
    ensures n !in Names(fs)
  {
    forall i | 0 <= i < |fs| ensures fs[i].name != n {
      assert fs[i] in fs;
    }
  }

  // ------------------------------------------------------------ the handler table

  /** `CDCServer.packet_handlers` as written in the class body. */
  const CdcEntries: seq<(Schema, Handler)> := [(Hello, CdcHelloHandler), (BulkPacket, BulkHandler)]

  /** `CDCServer.packet_handlers` after `ServerMeta`: `Server`'s table with
      Hello taken over and bulk transfers added. */
  const CdcTable: map<int, Handler> :=
    map[3 := IgnoreHandler, 0 := CdcHelloHandler, 100 := ControlHandler, 6 := ConfigurationHandler,
        7 := ConfigurationHandler, 21 := IgnoreHandler, 101 := BulkHandler]

  /** `ServerMeta` builds `CDCServer`'s table from `Server`'s and the two own entries. */
  lemma CdcHandlers()
    ensures Layered([ServerTable], Some(CdcEntries)) == Ok(CdcTable)
  {
    var es := CdcEntries;
    var m0: map<int, Handler> := map[];
    var m1 := m0[0 := CdcHelloHandler];
    var m2 := m1[101 := BulkHandler];
    assert es[1..][1..] == [];
    assert OwnEntries(es[1..], m1) == Ok(m2);
    assert OwnEntries(es, m0) == Ok(m2);
    assert MergeAll([ServerTable]) == ServerTable by {
      assert [ServerTable][..0] == [];
    }
    assert ServerTable + m2 == CdcTable;
  }

  /** Only Hello and bulk transfers are handled differently from `Server`. */
  lemma CdcOverrides()
    ensures CdcTable.Keys == ServerTable.Keys + {101}
    ensures forall k :: k in ServerTable && k != 0 ==> CdcTable[k] == ServerTable[k]
    ensures CdcTable[0] == CdcHelloHandler && CdcTable[101] == BulkHandler
  {
    CdcHandlers();
    LayeredLookup([ServerTable], Some(CdcEntries), 0);
    LayeredLookup([ServerTable], Some(CdcEntries), 101);
    forall k | k in ServerTable && k != 0 ensures CdcTable[k] == ServerTable[k] {
      LayeredLookup([ServerTable], Some(CdcEntries), k);
      assert LastBase([ServerTable], 0, k);
    }
  }

  // ------------------------------------------------------------ upper-casing

  /** `bytes.upper()` on one byte: ASCII a..z to A..Z, anything else kept. */
  function UpperByte(b: byte): byte
  {
    if 0x61 <= b <= 0x7a then b - 0x20 else b
  }

  predicate Lower(b: byte)
  {
    0x61 <= b <= 0x7a
  }

  /** `bytes.upper()`. */
  function Upper(bs: Bytes): Bytes
  {
    if bs == [] then [] else [UpperByte(bs[0])] + Upper(bs[1..])
  }

  /** Upper-casing keeps the length, changes exactly the lowercase letters, and
      leaves none. */
  lemma {:induction false} UpperBytes(bs: Bytes)
    ensures |Upper(bs)| == |bs|
    ensures forall k :: 0 <= k < |bs| ==> Upper(bs)[k] == UpperByte(bs[k])
    ensures forall k :: 0 <= k < |bs| ==> !Lower(Upper(bs)[k])
    ensures forall k :: 0 <= k < |bs| && !Lower(bs[k]) ==> Upper(bs)[k] == bs[k]
  {
    if bs != [] {
      UpperBytes(bs[1..]);
      forall k | 1 <= k < |bs| ensures Upper(bs)[k] == UpperByte(bs[k]) {
        assert Upper(bs)[k] == Upper(bs[1..])[k - 1];
      }
    }
  }

  /** Upper-casing piece by piece is upper-casing the whole. */
  lemma {:induction false} UpperConcat(a: Bytes, b: Bytes)
    ensures Upper(a + b) == Upper(a) + Upper(b)
  {
    if a == [] {
      assert a + b == b;
    } else {
      assert (a + b)[0] == a[0] && (a + b)[1..] == a[1..] + b;
      UpperConcat(a[1..], b);
    }
  }

  /** Upper-casing twice is upper-casing once. */
  lemma {:induction false} UpperIdempotent(bs: Bytes)
    ensures Upper(Upper(bs)) == Upper(bs)
  {
    if bs != [] {
      UpperIdempotent(bs[1..]);
    }
  }

  // ------------------------------------------------------------ bulk transfers

  const EndpointRx := 0x01
  const EndpointTx := 0x82

  /** What a handler did: what it wrote or raised, and the CDC buffer after it. */
  datatype Step = Step(outcome: Outcome, buffer: Bytes)

  /** Nothing written, the error raised. */
  function Raised(e: Error): Outcome
  {
    Outcome([], Some(e))
  }

  /** `packet.derive(data=..., status=..., length=...)`. */
  function BulkReply(packet: Record, data: Value, status: Status, length: Value): Result<Record, Error>
  {
    Rederive(packet, map["data" := data, "status" := Int(StatusCode(status)), "length" := length])
  }

  /** `handle_bulk`: a transfer on the RX endpoint is upper-cased into the
      buffer and acknowledged with no data; one on the TX endpoint takes up to
      `length` bytes off the front of the buffer and returns them; any other
      endpoint is refused with Inval. The reply is the request derived with
      data, status and length, sent with the request's id. */
  function BulkStep(buffer: Bytes, header: Record, packet: Record): Step
  {
    var endpoint := Attr(packet, "endpoint");
    if endpoint.Err? then Step(Raised(endpoint.error), buffer)
    else if endpoint.value == Int(EndpointRx) then Received(buffer, header, packet)
    else if endpoint.value == Int(EndpointTx) then Polled(buffer, header, packet)
    // formatting the endpoint with `{:2x}` for the warning
    else if !endpoint.value.Int? then Step(Raised(NotAnInteger), buffer)
    else Step(Sent(Replied(BulkReply(packet, List([]), Inval, Int(0)), header)), buffer)
  }

  /** The RX branch: the data is logged, converted with `bytes` and added
      upper-cased before `length` is read. */
  function Received(buffer: Bytes, header: Record, packet: Record): Step
  {
    var data := Attr(packet, "data");
    if data.Err? then Step(Raised(data.error), buffer)
    else
      var bs := BytesOf(data.value);
      if bs.Err? then Step(Raised(bs.error), buffer)
      else
        var grown := buffer + Upper(bs.value);
        var length := Attr(packet, "length");
        if length.Err? then Step(Raised(length.error), grown)
        else Step(Sent(Replied(BulkReply(packet, List([]), Success, length.value), header)), grown)
  }

  /** The TX branch: the buffer is split at `length` as a slice bound; the
      data is then read for the log line. */
  function Polled(buffer: Bytes, header: Record, packet: Record): Step
  {
    var length := Attr(packet, "length");
    if length.Err? then Step(Raised(length.error), buffer)
    else if !length.value.Int? then Step(Raised(NotAnInteger), buffer)
    else
      var cut := SliceBound(length.value.n, |buffer|);
      var data := buffer[..cut];
      var polled := Attr(packet, "data");
      if polled.Err? then Step(Raised(polled.error), buffer[cut..])
      else Step(Sent(Replied(BulkReply(packet, BytesValue(data), Success, Int(|data|)), header)), buffer[cut..])
  }

  // ------------------------------------------------------------ the bulk reply

  /** The attributes of a `BulkPacket` object. */
  const BulkAttributes := {"endpoint", "status", "length", "stream_id", "data"}

  /** The names of `BulkPacket`'s fields, by position and as sets. */
  lemma BulkNames()
    ensures Compiled(BulkPacket) && |Fixed(BulkPacket)| == 4 && |Trailers(BulkPacket)| == 1
    ensures Fixed(BulkPacket)[0].name == "endpoint" && Fixed(BulkPacket)[1].name == "status"
    ensures Fixed(BulkPacket)[2].name == "length" && Fixed(BulkPacket)[3].name == "stream_id"
    ensures Trailers(BulkPacket)[0].name == "data"
    ensures Names(Fixed(BulkPacket)) == BulkAttributes - {"data"}
    ensures Names(AllFields(BulkPacket)) == BulkAttributes
  {
    BulkPacketLayout();
    BulkFixedNames();
    BulkAllNames();
  }

  lemma BulkAllNames()
    ensures Names(AllFields(BulkPacket)) == BulkAttributes
  {
    BulkPacketLayout();
    BulkFixedNames();
    assert AllFields(BulkPacket) == BulkFixed + DataTrailer;
    NamesAppend(BulkFixed, DataTrailer);
    NamesIn(DataTrailer, 0);
    assert Names(DataTrailer) == {"data"};
  }

  lemma BulkFixedNames()
    ensures |BulkFixed| == 4 && BulkFixed[0].name == "endpoint" && BulkFixed[1].name == "status"
    ensures BulkFixed[2].name == "length" && BulkFixed[3].name == "stream_id"
    ensures Names(BulkFixed) == BulkAttributes - {"data"}
  {
    NamesIn(BulkFixed, 0);
    NamesIn(BulkFixed, 1);
    NamesIn(BulkFixed, 2);
    NamesIn(BulkFixed, 3);
  }

  /** The reply to a bulk transfer received whole: the request with `data`,
      `status` and `length` replaced, the endpoint and stream id kept. */
  lemma BulkReplied(packet: Record, data: Value, status: Status, length: Value)
    requires packet.schema == BulkPacket && packet.attrs.Keys == BulkAttributes
    ensures BulkReply(packet, data, status, length) ==
      Ok(Record(BulkPacket, packet.attrs["data" := data]["status" := Int(StatusCode(status))]["length" := length]))
  {
    BulkNames();
    var r := BulkDerived(packet, data, Int(StatusCode(status)), length);
    SameFive(r.attrs, packet.attrs["data" := data]["status" := Int(StatusCode(status))]["length" := length],
      "endpoint", "status", "length", "stream_id", "data");
  }

  lemma SameFive<V>(m: map<string, V>, n: map<string, V>, a: string, b: string, c: string, d: string, e: string)
    requires m.Keys == {a, b, c, d, e} == n.Keys
    requires m[a] == n[a] && m[b] == n[b] && m[c] == n[c] && m[d] == n[d] && m[e] == n[e]
    ensures m == n
  {
  }

  lemma BulkDerived(packet: Record, data: Value, status: Value, length: Value) returns (r: Record)
    requires packet.schema == BulkPacket && packet.attrs.Keys == BulkAttributes
    ensures Rederive(packet, map["data" := data, "status" := status, "length" := length]) == Ok(r)
    ensures r.schema == BulkPacket && r.attrs.Keys == {"endpoint", "status", "length", "stream_id", "data"}
    ensures r.attrs["endpoint"] == packet.attrs["endpoint"] && r.attrs["stream_id"] == packet.attrs["stream_id"]
    ensures r.attrs["data"] == data && r.attrs["status"] == status && r.attrs["length"] == length
  {
    var overrides := map["data" := data, "status" := status, "length" := length];
    BulkDeriveOk(packet, overrides);
    BulkNames();
    DeriveValue(packet, overrides);
    r := Derive(packet, overrides).value;
    assert r.attrs[Fixed(BulkPacket)[0].name] == packet.attrs["endpoint"];
    assert r.attrs[Fixed(BulkPacket)[1].name] == overrides["status"];
    assert r.attrs[Fixed(BulkPacket)[2].name] == overrides["length"];
    assert r.attrs[Fixed(BulkPacket)[3].name] == packet.attrs["stream_id"];
    assert r.attrs[Trailers(BulkPacket)[0].name] == overrides["data"];
  }

  lemma BulkDeriveOk(packet: Record, overrides: map<string, Value>)
    requires packet.schema == BulkPacket && packet.attrs.Keys == BulkAttributes
    requires overrides.Keys == {"data", "status", "length"}
    ensures Names(Fixed(packet.schema)) <= packet.attrs.Keys
    ensures Rederive(packet, overrides) == Derive(packet, overrides) && Derive(packet, overrides).Ok?
  {
    BulkNames();
    DeriveOk(packet, overrides);
  }

  // ------------------------------------------------------------ the three endpoints

  /** Data written to the RX endpoint is added, upper-cased, to the end of the
      buffer; the reply is the request with no data and Success, its length
      kept, sent with the request's id. */
  lemma BulkReceive(buffer: Bytes, header: Record, packet: Record, bs: Bytes, i: int)
    requires packet.schema == BulkPacket && packet.attrs.Keys == BulkAttributes
    requires packet.attrs["endpoint"] == Int(EndpointRx) && BytesOf(packet.attrs["data"]) == Ok(bs)
    requires Attr(header, "id_") == Ok(Int(i))
    ensures BulkStep(buffer, header, packet) ==
      Step(Sent(Frame(Record(BulkPacket, packet.attrs["data" := List([])]["status" := Int(StatusCode(Success))]), Int(i))),
        buffer + Upper(bs))
  {
    var length := packet.attrs["length"];
    BulkReplied(packet, List([]), Success, length);
    assert packet.attrs["data" := List([])]["status" := Int(StatusCode(Success))]["length" := length] ==
      packet.attrs["data" := List([])]["status" := Int(StatusCode(Success))];
  }

  /** A read of the TX endpoint takes the front of the buffer up to `length`
      (a slice bound, so a negative length counts from the end) and returns it
      with its size and Success; the rest stays buffered. */
  lemma BulkTransmit(buffer: Bytes, header: Record, packet: Record, n: int, i: int)
    requires packet.schema == BulkPacket && packet.attrs.Keys == BulkAttributes
    requires packet.attrs["endpoint"] == Int(EndpointTx) && packet.attrs["length"] == Int(n)
    requires Attr(header, "id_") == Ok(Int(i))
    ensures var k := SliceBound(n, |buffer|);
      && (0 <= n ==> k == if n < |buffer| then n else |buffer|)
      && BulkStep(buffer, header, packet) ==
        Step(Sent(Frame(Record(BulkPacket, packet.attrs["data" := BytesValue(buffer[..k])]["status" := Int(StatusCode(Success))]["length" := Int(k)]), Int(i))),
          buffer[k..])
  {
    var k := SliceBound(n, |buffer|);
    BulkReplied(packet, BytesValue(buffer[..k]), Success, Int(k));
  }

  /** A transfer on any other endpoint is refused with Inval and no data, and
      leaves the buffer alone. */
  lemma BulkRefuse(buffer: Bytes, header: Record, packet: Record, e: int, i: int)
    requires packet.schema == BulkPacket && packet.attrs.Keys == BulkAttributes
    requires packet.attrs["endpoint"] == Int(e) && e != EndpointRx && e != EndpointTx
    requires Attr(header, "id_") == Ok(Int(i))
    ensures BulkStep(buffer, header, packet) ==
      Step(Sent(Frame(Record(BulkPacket, packet.attrs["data" := List([])]["status" := Int(StatusCode(Inval))]["length" := Int(0)]), Int(i))),
        buffer)
  {
    BulkReplied(packet, List([]), Inval, Int(0));
  }

  /** The buffer is a queue: what is written to RX and then read from TX with
      a length covering the whole buffer comes back upper-cased after what was
      already buffered, and the buffer is left empty. */
  lemma LoopBack(buffer: Bytes, rxHeader: Record, rx: Record, bs: Bytes, i: int, txHeader: Record, tx: Record, n: int, j: int)
    requires rx.schema == BulkPacket && rx.attrs.Keys == BulkAttributes
    requires rx.attrs["endpoint"] == Int(EndpointRx) && BytesOf(rx.attrs["data"]) == Ok(bs)
    requires Attr(rxHeader, "id_") == Ok(Int(i))
    requires tx.schema == BulkPacket && tx.attrs.Keys == BulkAttributes
    requires tx.attrs["endpoint"] == Int(EndpointTx) && tx.attrs["length"] == Int(n) && n >= |buffer| + |bs|
    requires Attr(txHeader, "id_") == Ok(Int(j))
    ensures var queued := buffer + Upper(bs);
      BulkStep(BulkStep(buffer, rxHeader, rx).buffer, txHeader, tx) ==
        Step(Sent(Frame(Record(BulkPacket, tx.attrs["data" := BytesValue(queued)]["status" := Int(StatusCode(Success))]["length" := Int(|queued|)]), Int(j))), [])
  {
    BulkReceive(buffer, rxHeader, rx, bs, i);
    var queued := buffer + Upper(bs);
    UpperBytes(bs);
    BulkTransmit(queued, txHeader, tx, n, j);
    assert queued[..|queued|] == queued && queued[|queued|..] == [];
  }

  // ------------------------------------------------------------ dispatch

  /** What `handle_packet` of a `CDCServer` does for a packet: the Hello
      handler answers and then announces the device, bulk transfers go to the
      buffer, every other packet to the handler `Server` has for it. */
  function CdcStep(d: Device, configuration: int, buffer: Bytes, header: Record, packet: Record): Step
  {
    var h := Lookup(CdcTable, header);
    if h.Err? then Step(Raised(h.error), buffer)
    else if h.value.None? then Step(Quiet, buffer)
    else if h.value.value == CdcHelloHandler then Step(Then(Sent(HelloSent()), ConnectOutcome(d)), buffer)
    else if h.value.value == BulkHandler then BulkStep(buffer, header, packet)
    else Step(Handled(d, configuration, h.value.value, header, packet), buffer)
  }

  /** A `CDCServer` answers Hello with `Server`'s reply and then `connect`. */
  lemma CdcHelloDispatch(d: Device, configuration: int, buffer: Bytes, header: Record, packet: Record)
    requires Attr(header, "type_") == Ok(Int(0))
    ensures CdcStep(d, configuration, buffer, header, packet) == Step(Then(Sent(HelloSent()), ConnectOutcome(d)), buffer)
  {
    CdcLookup(header, 0);
  }

  /** A `CDCServer` hands bulk transfers, which `Server` drops, to `handle_bulk`. */
  lemma CdcBulkDispatch(d: Device, configuration: int, buffer: Bytes, header: Record, packet: Record)
    requires Attr(header, "type_") == Ok(Int(101))
    ensures CdcStep(d, configuration, buffer, header, packet) == BulkStep(buffer, header, packet)
    ensures ServerOutcome(d, configuration, header, packet) == Quiet
  {
    CdcLookup(header, 101);
  }

  /** Every other packet a `CDCServer` handles as `Server` does, the buffer
      untouched. */
  lemma CdcInherits(d: Device, configuration: int, buffer: Bytes, header: Record, packet: Record, t: int)
    requires Attr(header, "type_") == Ok(Int(t)) && t != 0 && t != 101
    ensures CdcStep(d, configuration, buffer, header, packet) == Step(ServerOutcome(d, configuration, header, packet), buffer)
  {
    CdcLookup(header, t);
    var h := Lookup(ServerTable, header);
    if h.Ok? && h.value.Some? {
      assert Inherited(h.value.value);
      assert CdcStep(d, configuration, buffer, header, packet) == Step(Handled(d, configuration, h.value.value, header, packet), buffer);
    }
  }

  lemma CdcLookup(header: Record, t: int)
    requires Attr(header, "type_") == Ok(Int(t))
    ensures Lookup(CdcTable, header) ==
      if t == 0 then Ok(Some(CdcHelloHandler))
      else if t == 101 then Ok(Some(BulkHandler))
      else Lookup(ServerTable, header)
  {
    CdcOverrides();
  }

  /** A CDC device answers Hello with the hello reply, then the endpoint
      table, the interfaces and the device, in that order. */
  lemma CdcHelloOrder(d: Device, configuration: int, buffer: Bytes, header: Record, packet: Record)
    requires Attr(header, "type_") == Ok(Int(0))
    requires d.deviceDescriptor.schema == Usb.DeviceDescriptor && Shaped(d.deviceDescriptor)
    requires EpInfoFrame(d.interfaceDescriptors).Ok? && InterfaceInfoFrame(d.interfaceDescriptors).Ok?
    ensures DeviceConnectFrame(d.deviceDescriptor).Ok?
    ensures CdcStep(d, configuration, buffer, header, packet) ==
      Step(Outcome(HeaderBytes(0, 68, 0) + Ljust(VersionString, 64, 0) + CapabilityWord +
          EpInfoFrame(d.interfaceDescriptors).value + InterfaceInfoFrame(d.interfaceDescriptors).value +
          DeviceConnectFrame(d.deviceDescriptor).value, None), buffer)
  {
    DeviceConnectShape(d.deviceDescriptor);
    CdcHelloDispatch(d, configuration, buffer, header, packet);
    HelloThenConnect(d, EpInfoFrame(d.interfaceDescriptors).value, InterfaceInfoFrame(d.interfaceDescriptors).value,
      DeviceConnectFrame(d.deviceDescriptor).value);
  }

  lemma HelloThenConnect(d: Device, e: Bytes, i: Bytes, c: Bytes)
    requires EpInfoFrame(d.interfaceDescriptors) == Ok(e) && InterfaceInfoFrame(d.interfaceDescriptors) == Ok(i)
    requires DeviceConnectFrame(d.deviceDescriptor) == Ok(c)
    ensures Then(Sent(HelloSent()), ConnectOutcome(d)) ==
      Outcome(HeaderBytes(0, 68, 0) + Ljust(VersionString, 64, 0) + CapabilityWord + e + i + c, None)
  {
    HelloSentBytes();
    SentInOrder(e, i, c);
    ThenQuiet(Sent(HelloSent()), ConnectOutcome(d), HeaderBytes(0, 68, 0) + Ljust(VersionString, 64, 0) + CapabilityWord, e, i, c);
  }

  lemma ThenQuiet(a: Outcome, b: Outcome, hello: Bytes, e: Bytes, i: Bytes, c: Bytes)
    requires a == Outcome(hello, None) && b == Outcome(e + i + c, None)
    ensures Then(a, b) == Outcome(hello + e + i + c, None)
  {
    assert hello + (e + i + c) == hello + e + i + c;
  }

  // ------------------------------------------------------------ the connection

  /** `written`, then what `rest` writes. */
  function Continue(written: Bytes, rest: Step): Step
  {
    Step(Outcome(written + rest.outcome.written, rest.outcome.failure), rest.buffer)
  }

  /** What one pass of the loop of `handle` makes of the input: it stops
      (an incomplete body, or an exception), skips a frame of an unregistered
      type, or hands a decoded packet on, with the input after the frame. */
  datatype Parsed = Halt(outcome: Outcome) | Skip(rest: Bytes) | Packet(header: Record, packet: Record, rest: Bytes)

  /** One pass of the loop of `handle`, on input holding a whole header: the
      12-byte header, then the rest of the pass. */
  function NextFrame(input: Bytes): (r: Parsed)
    requires |input| >= 12
    ensures r.Halt? ==> r.outcome.written == []
    ensures !r.Halt? ==> |r.rest| <= |input| - 12 && r.rest == input[|input| - |r.rest|..]
  {
    Framed(Decode(Header, input[..12]), input)
  }

  /** A pass after reading the header: the body the header announces, then its
      type. */
  function Framed(header: Result<Record, Error>, input: Bytes): (r: Parsed)
    requires |input| >= 12
    ensures r.Halt? ==> r.outcome.written == []
    ensures !r.Halt? ==> |r.rest| <= |input| - 12 && r.rest == input[|input| - |r.rest|..]
  {
    if header.Err? then Halt(Raised(header.error))
    else
      var length := IntAttr(header.value, "length");
      if length.Err? then Halt(Raised(length.error))
      else if length.value < 0 then Halt(Raised(InvalidValue))
      else if |input| - 12 < length.value then Halt(Quiet)
      else Typed(header.value, input[12..12 + length.value], input[12 + length.value..])
  }

  /** The second half of a pass: the frame's type decides whether its body is
      decoded and handed on with the input after it, or skipped. */
  function Typed(header: Record, body: Bytes, rest: Bytes): (r: Parsed)
    ensures r.Halt? ==> r.outcome.written == []
    ensures !r.Halt? ==> r.rest == rest
  {
    var t := Attr(header, "type_");
    if t.Err? then Halt(Raised(t.error))
    else if t.value.List? then Halt(Raised(Unhashable))
    else if !t.value.Int? || Registered(t.value.n).None? then Skip(rest)
    else
      var packet := Decode(Registered(t.value.n).value, body);
      if packet.Err? then Halt(Raised(packet.error))
      else Packet(header, packet.value, rest)
  }

  /** A whole frame of a registered packet, as `send_packet` writes it, is
      read back as that packet, with the input after it left over. */
  lemma NextFrameReads(packet: Record, id: int, f: Bytes, rest: Bytes)
    requires Frame(packet, Int(id)) == Ok(f) && packet.schema in Packets && Shaped(packet)
    ensures packet.schema.typeId.Some? && |f| >= 12
    ensures NextFrame(f + rest) == Packet(HeaderRecord(packet.schema.typeId.value, |f| - 12, id), packet, rest)
  {
    var t := FrameParts(packet, id, f);
    ReadsParts(packet, id, f, rest, t);
  }

  lemma ReadsParts(packet: Record, id: int, f: Bytes, rest: Bytes, t: int)
    requires packet.schema.typeId == Some(t) && |f| >= 12
    requires Decode(Header, f[..12]) == Ok(HeaderRecord(t, |f| - 12, id))
    requires Registered(t) == Some(packet.schema) && Decode(packet.schema, f[12..]) == Ok(packet)
    ensures NextFrame(f + rest) == Packet(HeaderRecord(t, |f| - 12, id), packet, rest)
  {
    SplitHead(f, rest);
    ReadsAfter(f[..12], HeaderRecord(t, |f| - 12, id), t, f[12..], packet, rest);
  }

  /** The header and body of a frame of a registered packet. */
  lemma FrameParts(packet: Record, id: int, f: Bytes) returns (t: int)
    requires Frame(packet, Int(id)) == Ok(f) && packet.schema in Packets && Shaped(packet)
    ensures packet.schema.typeId == Some(t) && |f| >= 12
    ensures Decode(Header, f[..12]) == Ok(HeaderRecord(t, |f| - 12, id))
    ensures Registered(t) == Some(packet.schema) && Decode(packet.schema, f[12..]) == Ok(packet)
  {
    FrameReadsBack(packet, id);
    FrameRoundTrip(packet, id);
    RegisteredPacket(packet.schema);
    t := packet.schema.typeId.value;
  }

  /** A declared packet class is registered under its own `type_id`. */
  lemma RegisteredPacket(s: Schema)
    requires s in Packets
    ensures s.typeId.Some? && Registered(s.typeId.value) == Some(s)
  {
    var k :| 0 <= k < |Packets| && Packets[k] == s;
    RegistryComplete(k);
  }

  lemma SplitHead(f: Bytes, rest: Bytes)
    requires |f| >= 12
    ensures f[..12] + f[12..] + rest == f + rest
  {
    assert f[..12] + f[12..] == f;
  }

  lemma ReadsAfter(head: Bytes, header: Record, t: int, body: Bytes, packet: Record, rest: Bytes)
    requires |head| == 12 && Decode(Header, head) == Ok(header)
    requires IntAttr(header, "length") == Ok(|body|) && Attr(header, "type_") == Ok(Int(t))
    requires Registered(t) == Some(packet.schema) && Decode(packet.schema, body) == Ok(packet)
    ensures NextFrame(head + body + rest) == Packet(header, packet, rest)
  {
    var input := head + body + rest;
    assert input[..12] == head;
    FramedHeader(header, |body|, input);
    assert input[12..12 + |body|] == body;
    assert input[12 + |body|..] == rest;
    TypedPacket(header, t, body, packet, rest);
  }

  /** The second half of a pass over a registered type whose body decodes. */
  lemma TypedPacket(header: Record, t: int, body: Bytes, packet: Record, rest: Bytes)
    requires Attr(header, "type_") == Ok(Int(t))
    requires Registered(t) == Some(packet.schema) && Decode(packet.schema, body) == Ok(packet)
    ensures Typed(header, body, rest) == Packet(header, packet, rest)
  {
  }

  /** The second half of a pass over an unregistered type. */
  lemma TypedSkip(header: Record, t: int, body: Bytes, rest: Bytes)
    requires Attr(header, "type_") == Ok(Int(t)) && Registered(t).None?
    ensures Typed(header, body, rest) == Skip(rest)
  {
  }

  /** A frame whose type no packet declares is skipped whole. */
  lemma NextFrameSkips(t: int, id: int, body: Bytes, rest: Bytes)
    requires InRange(U32, t) && InRange(U32, |body|) && InRange(U32, id) && Registered(t).None?
    ensures NextFrame(HeaderBytes(t, |body|, id) + body + rest) == Skip(rest)
  {
    HeaderDecoding(t, |body|, id);
    SkipsAfterHeader(HeaderBytes(t, |body|, id), t, id, body, rest);
  }

  lemma SkipsAfterHeader(head: Bytes, t: int, id: int, body: Bytes, rest: Bytes)
    requires |head| == 12 && Decode(Header, head) == Ok(HeaderRecord(t, |body|, id)) && Registered(t).None?
    ensures NextFrame(head + body + rest) == Skip(rest)
  {
    var header := HeaderRecord(t, |body|, id);
    assert IntAttr(header, "length") == Ok(|body|) && Attr(header, "type_") == Ok(Int(t));
    SkipsAfter(head, header, t, body, rest);
  }

  lemma SkipsAfter(head: Bytes, header: Record, t: int, body: Bytes, rest: Bytes)
    requires |head| == 12 && Decode(Header, head) == Ok(header)
    requires IntAttr(header, "length") == Ok(|body|) && Attr(header, "type_") == Ok(Int(t)) && Registered(t).None?
    ensures NextFrame(head + body + rest) == Skip(rest)
  {
    var input := head + body + rest;
    assert input[..12] == head;
    FramedHeader(header, |body|, input);
    assert input[12 + |body|..] == rest;
    TypedSkip(header, t, input[12..12 + |body|], rest);
  }

  /** A pass after a header with a length `l` the input holds. */
  lemma FramedHeader(header: Record, l: int, input: Bytes)
    requires |input| >= 12 + l && l >= 0 && IntAttr(header, "length") == Ok(l)
    ensures Framed(Ok(header), input) == Typed(header, input[12..12 + l], input[12 + l..])
  {
  }

  /** A header announcing more bytes than follow it ends the connection
      quietly: `readexactly` runs short. */
  lemma NextFrameCut(t: int, length: int, id: int, body: Bytes)
    requires InRange(U32, t) && InRange(U32, length) && InRange(U32, id) && |body| < length
    ensures NextFrame(HeaderBytes(t, length, id) + body) == Halt(Quiet)
  {
    var input := HeaderBytes(t, length, id) + body;
    HeaderDecoding(t, length, id);
    assert input[..12] == HeaderBytes(t, length, id);
  }

  /** What `handle` does with `input`, the bytes the client sends: frame by
      frame until fewer than 12 bytes are left; a pass that stops ends the
      connection with its outcome, a skipped frame is dropped, a packet goes
      to `handle_packet`, and an exception there ends the connection. */
  function Session(d: Device, configuration: int, input: Bytes, buffer: Bytes): Step
    decreases |input|, 1
  {
    if |input| < 12 then Step(Quiet, buffer)
    else Pass(d, configuration, input, buffer)
  }

  /** One pass and the passes after it, on input holding a whole header. */
  function Pass(d: Device, configuration: int, input: Bytes, buffer: Bytes): Step
    requires |input| >= 12
    decreases |input|, 0
  {
    match NextFrame(input)
    case Halt(outcome) => Step(outcome, buffer)
    case Skip(rest) => Session(d, configuration, rest, buffer)
    case Packet(header, packet, rest) =>
      var s := CdcStep(d, configuration, buffer, header, packet);
      if s.outcome.failure.Some? then s
      else Continue(s.outcome.written, Session(d, configuration, rest, s.buffer))
  }

  /** A connection reads a whole frame of a registered packet as that packet,
      hands it to `handle_packet` and, unless that raised, goes on with the
      bytes after the frame and the buffer as the handler left it. */
  lemma SessionFrame(d: Device, configuration: int, packet: Record, id: int, f: Bytes, rest: Bytes, buffer: Bytes)
    requires Frame(packet, Int(id)) == Ok(f) && packet.schema in Packets && Shaped(packet)
    ensures packet.schema.typeId.Some? && |f| >= 12
    ensures var s := CdcStep(d, configuration, buffer, HeaderRecord(packet.schema.typeId.value, |f| - 12, id), packet);
      Session(d, configuration, f + rest, buffer) ==
        if s.outcome.failure.Some? then s else Continue(s.outcome.written, Session(d, configuration, rest, s.buffer))
  {
    NextFrameReads(packet, id, f, rest);
    var parsed := NextFrame(f + rest);
    SessionHandles(d, configuration, f + rest, buffer, parsed, CdcStep(d, configuration, buffer, parsed.header, parsed.packet));
  }

  /** A frame whose type no packet declares is dropped, the buffer untouched. */
  lemma SessionSkips(d: Device, configuration: int, t: int, id: int, body: Bytes, rest: Bytes, buffer: Bytes)
    requires InRange(U32, t) && InRange(U32, |body|) && InRange(U32, id) && Registered(t).None?
    ensures Session(d, configuration, HeaderBytes(t, |body|, id) + body + rest, buffer) == Session(d, configuration, rest, buffer)
  {
    NextFrameSkips(t, id, body, rest);
  }

  /** A frame cut short ends the connection with nothing written. */
  lemma SessionCut(d: Device, configuration: int, t: int, length: int, id: int, body: Bytes, buffer: Bytes)
    requires InRange(U32, t) && InRange(U32, length) && InRange(U32, id) && |body| < length
    ensures Session(d, configuration, HeaderBytes(t, length, id) + body, buffer) == Step(Quiet, buffer)
  {
    NextFrameCut(t, length, id, body);
  }

  /** The pass `handle_packet` takes part in: what the connection does after a
      packet is what `handle_packet` did, then the rest of the input. */
  lemma SessionHandles(d: Device, configuration: int, input: Bytes, buffer: Bytes, parsed: Parsed, step: Step)
    requires |input| >= 12 && NextFrame(input) == parsed && parsed.Packet?
    requires step == CdcStep(d, configuration, buffer, parsed.header, parsed.packet)
    ensures Session(d, configuration, input, buffer) ==
      if step.outcome.failure.Some? then step else Continue(step.outcome.written, Session(d, configuration, parsed.rest, step.buffer))
  {
  }

  lemma SessionStops(d: Device, configuration: int, input: Bytes, buffer: Bytes, parsed: Parsed)
    requires |input| >= 12 && NextFrame(input) == parsed && parsed.Halt?
    ensures Session(d, configuration, input, buffer) == Step(Outcome([], parsed.outcome.failure), buffer)
  {
  }

  lemma SessionPasses(d: Device, configuration: int, input: Bytes, buffer: Bytes, parsed: Parsed)
    requires |input| >= 12 && NextFrame(input) == parsed && parsed.Skip?
    ensures Session(d, configuration, input, buffer) == Continue([], Session(d, configuration, parsed.rest, buffer))
  {
    ContinueNothing(Session(d, configuration, parsed.rest, buffer));
  }

  lemma Appended(a: Bytes, b: Bytes, c: Bytes)
    ensures a + b + c == a + (b + c)
  {
  }

  lemma ContinueNothing(rest: Step)
    ensures Continue([], rest) == rest
  {
    assert [] + rest.outcome.written == rest.outcome.written;
  }

  lemma ContinueAssoc(a: Bytes, b: Bytes, rest: Step)
    ensures Continue(a, Continue(b, rest)) == Continue(a + b, rest)
  {
    assert a + (b + rest.outcome.written) == a + b + rest.outcome.written;
  }

  /** Two handlers in a row, the second only after the first went through. */
  lemma TwoSends(a: Outcome, b: Outcome, o0: Bytes, o1: Bytes, o2: Bytes)
    requires a.failure.None? && o1 == o0 + a.written && o2 == o1 + b.written
    ensures o2 == o0 + Then(a, b).written && b.failure == Then(a, b).failure
  {
    assert o0 + a.written + b.written == o0 + (a.written + b.written);
  }

  // ------------------------------------------------------------ the server object

  class CdcServer {
    /** The `Server` part of the object: its descriptor tables,
        configuration number and writer. */
    const server: Server
    /** `_buffer`: what the host wrote to RX and has not yet read from TX. */
    var buffer: Bytes

    /** `__init__`: a `Server` with nothing written, and an empty buffer. */
    constructor (device: Device)
      ensures fresh(server) && server.device == device && server.configurationNumber == 1
      ensures server.output == [] && buffer == []
    {
      server := new Server(device);
      buffer := [];
    }

    /** `handle_bulk`. */
    method HandleBulk(header: Record, packet: Record) returns (failure: Option<Error>)
      modifies this, server
      ensures var s := BulkStep(old(buffer), header, packet);
        server.output == old(server.output) + s.outcome.written && buffer == s.buffer && failure == s.outcome.failure
    {
      var endpoint := Attr(packet, "endpoint");
      if endpoint.Err? {
        return Some(endpoint.error);
      }
      var data: Value;
      var status: Status;
      var length: Value;
      if endpoint.value == Int(EndpointRx) {
        var received := Attr(packet, "data");
        if received.Err? {
          return Some(received.error);
        }
        var bs := BytesOf(received.value);
        if bs.Err? {
          return Some(bs.error);
        }
        buffer := buffer + Upper(bs.value);
        var requested := Attr(packet, "length");
        if requested.Err? {
          return Some(requested.error);
        }
        data, status, length := List([]), Success, requested.value;
      } else if endpoint.value == Int(EndpointTx) {
        var requested := Attr(packet, "length");
        if requested.Err? {
          return Some(requested.error);
        }
        if !requested.value.Int? {
          return Some(NotAnInteger);
        }
        var cut := SliceBound(requested.value.n, |buffer|);
        var taken := buffer[..cut];
        buffer := buffer[cut..];
        data, status, length := BytesValue(taken), Success, Int(|taken|);
        var polled := Attr(packet, "data");
        if polled.Err? {
          return Some(polled.error);
        }
      } else {
        if !endpoint.value.Int? {
          return Some(NotAnInteger);
        }
        data, status, length := List([]), Inval, Int(0);
      }
      var response := BulkReply(packet, data, status, length);
      failure := server.Reply(response, header);
    }

    /** `CDCServer.handle_hello`: `Server.handle_hello`, then `connect`. */
    method HandleHello(header: Record, packet: Record) returns (failure: Option<Error>)
      modifies server
      ensures server.output == old(server.output) + Then(Sent(HelloSent()), ConnectOutcome(server.device)).written
      ensures failure == Then(Sent(HelloSent()), ConnectOutcome(server.device)).failure
    {
      failure := server.HandleHello(header, packet);
      if failure.Some? {
        return;
      }
      ghost var hello := server.output;
      failure := server.Connect();
      TwoSends(Sent(HelloSent()), ConnectOutcome(server.device), old(server.output), hello, server.output);
    }

    /** `handle_packet` with `CDCServer`'s table. */
    method HandlePacket(header: Record, packet: Record) returns (failure: Option<Error>)
      modifies this, server
      ensures var s := CdcStep(server.device, server.configurationNumber, old(buffer), header, packet);
        server.output == old(server.output) + s.outcome.written && buffer == s.buffer && failure == s.outcome.failure
    {
      var h := Lookup(CdcTable, header);
      if h.Err? {
        return Some(h.error);
      }
      if h.value.None? {
        return None;
      }
      if h.value.value == CdcHelloHandler {
        failure := HandleHello(header, packet);
      } else if h.value.value == BulkHandler {
        failure := HandleBulk(header, packet);
      } else {
        failure := server.Run(h.value.value, header, packet);
      }
    }

    /** The reads of one pass of `handle`: the header, the body it announces
        (`readexactly`), and the packet of the header's type. */
    static method ReadFrame(input: Bytes) returns (parsed: Parsed)
      requires |input| >= 12
      ensures parsed == NextFrame(input)
    {
      var header := Unserialize(Header, input[..12]);
      ghost var pass := Framed(header, input);
      if header.Err? {
        return Halt(Raised(header.error));
      }
      var length := IntAttr(header.value, "length");
      if length.Err? {
        return Halt(Raised(length.error));
      }
      if length.value < 0 {
        return Halt(Raised(InvalidValue));
      }
      if |input| - 12 < length.value {
        return Halt(Quiet);
      }
      var body, rest := input[12..12 + length.value], input[12 + length.value..];
      parsed := ReadPacket(header.value, body, rest);
    }

    /** The packet of the header's type, decoded from the body. */
    static method ReadPacket(header: Record, body: Bytes, rest: Bytes) returns (parsed: Parsed)
      ensures parsed == Typed(header, body, rest)
    {
      var t := Attr(header, "type_");
      if t.Err? {
        return Halt(Raised(t.error));
      }
      if t.value.List? {
        return Halt(Raised(Unhashable));
      }
      if !t.value.Int? || Registered(t.value.n).None? {
        return Skip(rest);
      }
      var packet := Unserialize(Registered(t.value.n).value, body);
      if packet.Err? {
        return Halt(Raised(packet.error));
      }
      return Packet(header, packet.value, rest);
    }

    /** One pass of the loop of `handle`: the frame is read and, when it holds
        a packet of a registered type, handed to `handle_packet`; `next` is the
        input after the frame when the loop goes on. */
    method HandleFrame(input: Bytes) returns (failure: Option<Error>, next: Option<Bytes>, ghost written: Bytes)
      requires |input| >= 12
      modifies this, server
      ensures server.output == old(server.output) + written
      ensures next.Some? ==> failure.None? && |next.value| < |input|
      ensures next.Some? ==>
        Session(server.device, server.configurationNumber, input, old(buffer)) ==
        Continue(written, Session(server.device, server.configurationNumber, next.value, buffer))
      ensures next.None? ==> Session(server.device, server.configurationNumber, input, old(buffer)) == Step(Outcome(written, failure), buffer)
    {
      var parsed := ReadFrame(input);
      if parsed.Halt? {
        SessionStops(server.device, server.configurationNumber, input, buffer, parsed);
        return parsed.outcome.failure, None, [];
      }
      if parsed.Skip? {
        SessionPasses(server.device, server.configurationNumber, input, buffer, parsed);
        return None, Some(parsed.rest), [];
      }
      ghost var step := CdcStep(server.device, server.configurationNumber, buffer, parsed.header, parsed.packet);
      SessionHandles(server.device, server.configurationNumber, input, buffer, parsed, step);
      failure := HandlePacket(parsed.header, parsed.packet);
      written := step.outcome.written;
      next := if failure.Some? then None else Some(parsed.rest);
    }

    /** `handle`: read a header and the body it announces, hand a packet of a
        registered type to `handle_packet`, until the input runs short. */
    method Handle(input: Bytes) returns (failure: Option<Error>)
      modifies this, server
      ensures var s := Session(server.device, server.configurationNumber, input, old(buffer));
        server.output == old(server.output) + s.outcome.written && buffer == s.buffer && failure == s.outcome.failure
    {
      var rest := input;
      ghost var written: Bytes := [];
      ContinueNothing(Session(server.device, server.configurationNumber, input, buffer));
      assert server.output == old(server.output) + written;
      while |rest| >= 12
        invariant server.output == old(server.output) + written
        invariant Session(server.device, server.configurationNumber, input, old(buffer)) ==
          Continue(written, Session(server.device, server.configurationNumber, rest, buffer))
        decreases |rest|
      {
        var next;
        ghost var w;
        failure, next, w := HandleFrame(rest);
        Appended(old(server.output), written, w);
        if next.None? {
          return;
        }
        ContinueAssoc(written, w, Session(server.device, server.configurationNumber, next.value, buffer));
        written := written + w;
        rest := next.value;
      }
      assert written + [] == written;
      failure := None;
    }
  }
}
