# fakeusb in Dafny

fakeusb is a USB device emulator. It speaks the host side of the usbredir
protocol over a stream connection. A peer sends framed packets that describe
bus operations, and the emulator answers as a physical device would. This
project models its core and proves properties of that model.

- **The record engine** (`fakeusb/serdes.py`, copied in `fakeusb/protocol.py`).
  A class's annotations compile into a fixed prefix, a `raw_length`, a struct
  format and a list of variable trailers. Records are immutable objects that
  are constructed from keywords and defaults, derived, serialized and
  unserialized. `Array` is either a fixed run of elements inside the prefix or
  an unbounded trailer, of integers or of nested records.
  - Modules `Wire` (little-endian integers, `struct.pack`/`unpack`), `Serdes`
    (schemas and their compilation), `Records` (construction and `derive`),
    `Codec` (serialize and unserialize), `CodecLaws` and `Decoding` (round
    trips and decode facts), and `Layouts` (generic lemmas for concrete
    classes).
  - `Vectors` pins the bytes the engine's test-suite expects.
- **The packet vocabulary** (`fakeusb/protocol.py`). These are the usbredir
  packets with their `type_id`s, their wire layouts, the `Status` codes and the
  type registry. They are in module `Protocol`.
- **The USB descriptors** (`fakeusb/usb.py`), as laid out in section 9.6 of the
  USB 2.0 specification: device, endpoint, interface, configuration and string
  descriptors, plus `StringDescriptor.language` and `StringDescriptor.build`.
  They are in module `Usb`.
- **The server** (`fakeusb/server.py`).
  - Module `Servers` covers framing, the handler-table metaclass and the
    replies to Hello, to control requests (following section 9.4 of USB 2.0)
    and to the configuration packets.
  - Module `Announce` covers the endpoint table and the interface and device
    announcements that `connect` sends.
  - Module `Sessions` holds class `Server`. Its methods append to an `output`
    byte sequence standing for the writer. `send_ep_info` fills three 32-slot
    arrays in place.
- **The CDC example** (`examples/cdc.py`), in module `Cdc`. It covers the
  functional descriptors, the handler-table override, and class `CdcServer`,
  whose `buffer` queues upper-cased bytes between bulk transfers. The
  `handle` loop runs over an input byte sequence.

Modelling conventions:

- Every operation that can raise returns a `Result`, and the error names the
  Python exception.
- Methods are proved equal to a specification function, for example
  `ensures r == Encode(rr)` or `ensures output == old(output) + ...`. The
  lemmas then state what those functions promise.
- `Codec.Encode` is the corrected serializer. The code as written appends a
  fixed array held inside a nested record whole, so `struct.pack` raises
  on it (see "## Findings").
  - The as-written flattening is modelled too (`Codec.RawValuesAsWritten`,
    `Codec.SerializeValuesAsWritten`).
  - `CodecLaws.SerializeAsWritten` proves the two agree on every class that
    nests no record holding a fixed array. Every packet, descriptor and
    functional descriptor of the program is such a class
    (`Protocol.PacketsSerializeAsWritten`,
    `Usb.DescriptorsSerializeAsWritten`, `Cdc.FunctionalSerializeAsWritten`).
    So on the program's own classes, `Encode` is the code as written.
- `connect` is modelled as written. Its `InterfaceInfo` protocol column is
  filled from `interface_class` (`Announce.InterfaceInfoFrame`, which
  `Sessions.Server.Connect` sends). The intended table is modelled beside it.
- A short body read in `handle` ends the connection quietly, because the code
  catches `IncompleteReadError` for both reads (fakeusb/server.py:173-186).

## Model

| member | source | states |
|---|---|---|
| Wire.EncodeUInt | fakeusb/serdes.py:16-18 | one value of a primitive packs to exactly its width in bytes |
| Wire.DecodeUInt | fakeusb/serdes.py:16-18 | a little-endian value read from `w` bytes is below 256^w |
| Wire.DecodeEncodeUInt | fakeusb/serdes.py:161 | reading back a packed integer gives the integer |
| Wire.EncodeDecodeUInt | fakeusb/serdes.py:138 | packing an unpacked integer gives back the bytes |
| Wire.PackInts | fakeusb/serdes.py:161 | `struct.pack` of values that fit a format yields `calcsize(format)` bytes |
| Wire.UnpackInts | fakeusb/serdes.py:138 | `struct.unpack` of `calcsize` bytes yields values that fit the format |
| Wire.UnpackPack | fakeusb/serdes.py:138-161 | unpack after pack is the identity on values |
| Wire.PackUnpack | fakeusb/serdes.py:138-161 | pack after unpack is the identity on bytes |
| Wire.PackIntsAppend | fakeusb/serdes.py:161 | packing a concatenated format is concatenating the packed parts |
| Builtins.ToBytes | examples/cdc.py:156 | `bytes(list)` succeeds exactly when every item is an integer in 0..255, and keeps the items |
| Builtins.Ljust | fakeusb/server.py:53 | `ljust` pads with the fill up to `n`, never cuts, and keeps the prefix |
| Builtins.Position | fakeusb/server.py:65 | a list index is valid exactly in `-n..n-1`; negative indices count from the end |
| Builtins.SliceBound | examples/cdc.py:162 | a slice bound clamps to the list: `min(i, n)` for `i >= 0`, `max(n+i, 0)` below |
| Serdes.TrailersOf | fakeusb/serdes.py:40-45 | the trailers are drawn from the declared fields, in order |
| Serdes.FixedOf | fakeusb/serdes.py:40-51 | the fixed fields are declared fields that are not variable |
| Serdes.Kept | fakeusb/serdes.py:40-42 | the kept annotations are declared ones; unsized annotations are skipped |
| Serdes.Compile | fakeusb/serdes.py:33-68 | the compile loop fails with TypeError exactly when a fixed field follows a trailer; otherwise it yields the fixed fields, trailers, `raw_length` and format |
| Serdes.ClassifyNext | fakeusb/serdes.py:44-52 | each annotation joins the fixed fields or the trailers, and a fixed one after a trailer is the error |
| Serdes.AllFieldsInDeclarationOrder | fakeusb/serdes.py:63-65 | `_all_fields` (fixed then trailers) is the kept annotations in declaration order when the class compiles |
| Serdes.AllFieldsDistinct | fakeusb/serdes.py:65 | a compiled record's attribute names are distinct |
| Serdes.RawLengthIsFormatSize | fakeusb/serdes.py:51-58 | the struct format packs exactly `raw_length` bytes (no padding) |
| Serdes.RepeatSize | fakeusb/serdes.py:194 | `fmt * n` has `n` times the size of `fmt` |
| Serdes.TypeSize | fakeusb/serdes.py:185-194 | an annotation's codes pack its `raw_length` bytes: integer width, `n` times the element, or the nested class's |
| Records.Init | fakeusb/serdes.py:76-88 | the constructor loop computes `Construct` |
| Records.FillOk | fakeusb/serdes.py:77-85 | the field loop succeeds exactly when every field has a keyword or a class default |
| Records.FillValue | fakeusb/serdes.py:77-86 | each field holds its keyword, else its default; the leftover keywords are those naming no field |
| Records.FillFirstMissing | fakeusb/serdes.py:84-85 | the KeyError names the first field lacking both keyword and default |
| Records.ConstructOk | fakeusb/serdes.py:76-88 | construction succeeds iff every field is supplied and no keyword is extraneous; the record holds exactly the fields with the picked values |
| Records.ConstructMissing | fakeusb/serdes.py:85 | a missing field is reported before extraneous keywords |
| Records.ConstructUnexpected | fakeusb/serdes.py:87-88 | extraneous keywords are reported, all of them |
| Records.ConstructAll | fakeusb/serdes.py:76-88 | building from exactly the fields' values keeps those values |
| Records.SplitNames | fakeusb/serdes.py:63-65 | fixed and trailer names are disjoint and together are all the names |
| Records.DeriveOk | fakeusb/serdes.py:90-95 | `derive` succeeds iff every trailer is re-supplied (or defaulted) and every override names a field |
| Records.DeriveValue | fakeusb/serdes.py:90-95 | a derived record holds the overrides, the old fixed values otherwise, and for trailers only overrides or defaults |
| Codec.Serialize | fakeusb/serdes.py:148-166 | the serialize method (flatten loop, pack, trailer loop) computes `Encode` |
| Codec.FlattenFixed | fakeusb/serdes.py:151-159 | the flatten loop computes the raw values of the fixed attributes |
| Codec.SerializeTrailers | fakeusb/serdes.py:163-164 | the trailer loop appends each trailer's `variable_serialize` in order |
| Codec.SerializeTrailer | fakeusb/serdes.py:224-235 | `variable_serialize`: the items' own serializations for a record array, one pack otherwise |
| Codec.ReadRecord | fakeusb/serdes.py:113-131 | `_make_self` computes `MakeSelf` |
| Codec.AddTrailers | fakeusb/serdes.py:128-129 | the trailer pairing loop adds each trailer's value under its name |
| Codec.ReadFields | fakeusb/serdes.py:116-120 | the cursor loop over the fixed fields computes `MakeFields` |
| Codec.UnserializeTrailer | fakeusb/serdes.py:207-222 | `variable_unserialize` with its `while vals` loop computes `TrailerValue` |
| Codec.Unserialize | fakeusb/serdes.py:133-146 | `unserialize` computes `Decode` |
| Codec.MakeSelf | fakeusb/serdes.py:113-131 | a record made from the values consumes exactly `Consumed(s)` of them |
| Codec.MakeFields | fakeusb/serdes.py:116-120 | the field loop consumes exactly the fields' value count |
| Codec.TakeField | fakeusb/serdes.py:117-205 | one fixed field consumes one value, `n` values for an array, or a nested record's count |
| Codec.ConsumedPositive | fakeusb/serdes.py:216-221 | a class with a non-empty prefix takes at least one value, so the `while vals` loop terminates |
| Codec.NestedArrayAsWritten | fakeusb/serdes.py:101-161 | as written, a nested record's fixed array makes `struct.pack` fail; flattening it packs the two bytes |
| CodecLaws.SerializeAsWritten | fakeusb/serdes.py:101-159 | the flattening of `Encode` equals the code as written on every class that nests no record holding a fixed array |
| CodecLaws.ScalarFieldsAsWritten | fakeusb/serdes.py:104-110 | on integer-only classes, `raw_values` as written is the flattening |
| CodecLaws.RoundTrip | fakeusb/serdes.py:133-166 | unserialize of serialize is the record, for every record of a decodable class with attributes of their declared shapes |
| CodecLaws.EmptyRoundTrip | fakeusb/serdes.py:135-150 | a class with no fields serializes to no bytes and is rebuilt from any input |
| CodecLaws.FixedRoundTrip | fakeusb/serdes.py:138-161 | a class without trailers serializes to exactly `raw_length` bytes that decode back |
| CodecLaws.OneTrailerRoundTrip | fakeusb/serdes.py:140-164 | a class with one trailer serializes to its prefix and the trailer bytes, decoding back |
| CodecLaws.OneTrailerEncode | fakeusb/serdes.py:148-166 | one trailer's bytes follow a `raw_length`-byte packed prefix and read back to the trailer's value |
| CodecLaws.TrailerRoundTrip | fakeusb/serdes.py:207-235 | `variable_unserialize` of `variable_serialize` is the trailer value |
| CodecLaws.PrimTrailerRoundTrip | fakeusb/serdes.py:214-235 | an integer array trailer round-trips |
| CodecLaws.RecordTrailerRoundTrip | fakeusb/serdes.py:217-231 | a record array trailer round-trips |
| CodecLaws.ChunksDecode | fakeusb/serdes.py:218-221 | the `while vals` loop cuts the concatenated values back into the original items |
| CodecLaws.ChunksEncode | fakeusb/serdes.py:228-231 | a record array's bytes are the items' packed chunks |
| CodecLaws.ItemsEncode | fakeusb/serdes.py:228-231 | record items serialize to the repeated format packed over their integers |
| CodecLaws.MakeFieldsShaped | fakeusb/serdes.py:116-120 | the cursor loop reads back, field by field, the values the attributes flattened to |
| CodecLaws.MakeSelfShaped | fakeusb/serdes.py:113-131 | `_make_self` rebuilds a whole record of a class without trailers |
| CodecLaws.ElemAligned | fakeusb/serdes.py:209-214 | `n` elements pass the divisibility check with count `n`; no bytes iff no elements |
| CodecLaws.DecodeOneTrailer | fakeusb/serdes.py:138-145 | the prefix values and the decoded trailer give the decoded record |
| Decoding.UnpackAppend | fakeusb/serdes.py:138 | unpacking two formats in a row unpacks each from its own bytes |
| Decoding.UnpackRepeatFront | fakeusb/serdes.py:215-216 | `fmt * c` unpacks as one `fmt`, then `fmt * (c-1)` |
| Decoding.PiecesJoin | fakeusb/serdes.py:214 | the element slices of the bytes put back together are the bytes |
| Decoding.MakeSelfWindow | fakeusb/serdes.py:113-131 | `_make_self` depends only on the values it consumes |
| Decoding.TakeFieldWindow | fakeusb/serdes.py:117-120 | one field depends only on the values it consumes |
| Decoding.ConsumedFormat | fakeusb/serdes.py:116-120 | `_make_self` takes one value per struct code |
| Decoding.PrimPieces | fakeusb/serdes.py:214-216 | integer `i` of a primitive trailer is decoded from slice `i` |
| Decoding.RecordPieces | fakeusb/serdes.py:217-221 | record `i` of the loop is made from slice `i` alone |
| Decoding.VariableUnserializeErrors | fakeusb/serdes.py:207-212 | the error cases: no `raw_length`, zero width, a remainder not divisible by the width (ValueError); no bytes give the empty tuple; aligned integer data always decodes |
| Decoding.VariableUnserializeItems | fakeusb/serdes.py:207-222 | a decoded trailer has `len / width` elements, each read from its own slice |
| Decoding.RecordElemItems | fakeusb/serdes.py:217-221 | a record trailer holds one record per slice, each the `unserialize` of that slice |
| Decoding.PrimItems | fakeusb/serdes.py:214-216 | aligned integer data decodes to one integer per slice |
| Decoding.DecodeErrors | fakeusb/serdes.py:138-210 | `unserialize` raises on short input, on more than one trailer (TypeError) and on a misaligned trailer (ValueError) |
| Decoding.DecodePiece | fakeusb/serdes.py:138-146 | a slice `_make_self` reads a record from is one `unserialize` reads that record from |
| Layouts.Laid | fakeusb/serdes.py:33-68 | a class of plain fixed fields followed by unbounded arrays compiles to those parts and their width |
| Layouts.Evaluate | fakeusb/serdes.py:33-68 | the compiled attributes from their front-recursive forms |
| Layouts.FixedFromIsFixedOf | fakeusb/serdes.py:40-51 | the front-recursive fixed fields are the compiled ones |
| Layouts.TrailersFromIsTrailersOf | fakeusb/serdes.py:40-45 | the front-recursive trailers are the compiled ones |
| Layouts.OrderedFromIsOrdered | fakeusb/serdes.py:47-49 | the front-recursive order check is the compile error's negation |
| Layouts.PackUnfit | fakeusb/serdes.py:161 | values that do not fit the format make `struct.pack` raise |
| Layouts.PackBytes | fakeusb/serdes.py:161 | a run of `B` codes packs byte values to those bytes |
| Layouts.PrefixBytes | fakeusb/serdes.py:148-166 | serialize is a `raw_length`-byte prefix, led by a u8 first field, then the trailer bytes |
| Layouts.RecordTrailerBytes | fakeusb/serdes.py:163-231 | a record-array trailer serializes as the items' own encodings in a row |
| Layouts.DefaultStored | fakeusb/serdes.py:82-83 | a field left out is stored as its class default |
| Layouts.RecordListEncoding | fakeusb/serdes.py:148-231 | a class with a record-array trailer serializes to its prefix and the items' encodings |
| Layouts.FixedEncoding | fakeusb/serdes.py:148-161 | a class without trailers serializes to `raw_length` bytes led by its u8 first field |
| Layouts.DescribesItself | fakeusb/usb.py:38-77 | a u8 first field defaulting to `raw_length` makes the first byte announce the record's size |
| Layouts.SerializeItemsAll | fakeusb/serdes.py:228-231 | the trailer item loop is the concatenated serializations |
| Layouts.EncodeAll | fakeusb/serdes.py:228-231 | no items serialize to no bytes; its full content, the items' serializations concatenated, is stated by `Layouts.SerializeItemsAll` |
| Vectors.SimpleSerialization | tests/test_serdes.py:24-28 | `Packet(alpha=1, beta=0x7700, gamma=0x112233)` builds and serializes to `01 00 77 33 22 11 00` |
| Vectors.SimpleUnserialization | tests/test_serdes.py:30-33 | those seven bytes decode to that record |
| Vectors.SimpleDerivation | tests/test_serdes.py:35-38 | `derive(beta=123)` keeps `alpha` and `gamma` |
| Vectors.SimpleLayout | tests/test_serdes.py:10-16 | the class compiles to `raw_length` 7 |
| Vectors.ArraySerialization | tests/test_serdes.py:139-151 | `ArrayPacket(one=0x66, two=0x3311, arr=[1..5])` serializes to the 15 bytes of the test |
| Vectors.ArrayUnserialization | tests/test_serdes.py:153-161 | those 15 bytes decode to that record |
| Vectors.ArrayLayout | tests/test_serdes.py:134-146 | `raw_length` 5, and the class is variable |
| Vectors.MultipleSerialization | tests/test_serdes.py:224-234 | two trailers serialize one after the other: `11 01 02 03 33 00 44 00 55 00` |
| Vectors.MultipleUnserialization | fakeusb/serdes.py:140-143 | that class cannot be unserialized: TypeError |
| Protocol.StatusCode | fakeusb/protocol.py:28-35 | the status codes are 0..6, each read back by `Status(c)` |
| Protocol.StatusOf | fakeusb/protocol.py:28-35 | `Status(c)` exists exactly for 0..6 |
| Protocol.StatusCodeInjective | fakeusb/protocol.py:28-35 | distinct statuses have distinct codes |
| Protocol.Registered | fakeusb/server.py:178-179 | the registry maps `t` only to a declared packet whose `type_id` is `t` |
| Protocol.RegistryComplete | fakeusb/protocol.py:258-352 | every declared packet is registered under its own `type_id` |
| Protocol.TypeIdsDistinct | fakeusb/protocol.py:259-352 | the declared `type_id`s are pairwise distinct |
| Protocol.HeaderLayout | fakeusb/protocol.py:252-255 | three u32 fields, `raw_length` 12, no trailer |
| Protocol.HelloLayout | fakeusb/protocol.py:258-262 | a 64-byte version, then a u32 capability trailer |
| Protocol.DeviceConnectLayout | fakeusb/protocol.py:265-281 | four u8 and two u16 fields, 8 bytes |
| Protocol.InterfaceInfoLayout | fakeusb/protocol.py:292-299 | a u32 and four 32-byte arrays, 132 bytes |
| Protocol.EpInfoLayout | fakeusb/protocol.py:302-314 | three 32-byte arrays, 96 bytes |
| Protocol.ConfigurationLayouts | fakeusb/protocol.py:317-331 | SetConfiguration is 1 byte, ConfigurationStatus 2 |
| Protocol.ControlPacketLayout | fakeusb/protocol.py:338-348 | a 10-byte setup prefix, then the data trailer |
| Protocol.BulkPacketLayout | fakeusb/protocol.py:351-358 | an 8-byte prefix, then the data trailer |
| Protocol.EmptyPackets | fakeusb/protocol.py:284-335 | the field-less packets serialize to nothing and decode from any bytes |
| Protocol.PacketsCodable | fakeusb/protocol.py:252-358 | every declared packet and the header compile and can be decoded |
| Protocol.PacketsSerializeAsWritten | fakeusb/protocol.py:252-358 | on every packet, `Encode` is the code as written |
| Protocol.PacketRoundTrip | fakeusb/protocol.py:252-358 | every packet of declared shape round-trips |
| Protocol.HeaderEncoding | fakeusb/protocol.py:252-255 | a header is three little-endian u32s, or struct.error when one is out of range |
| Protocol.HeaderDecoding | fakeusb/protocol.py:252-255 | those 12 bytes decode to the header |
| Protocol.HeaderConstruct | fakeusb/server.py:41-45 | the header built from its keywords is the header record |
| Usb.DeviceLayout | fakeusb/usb.py:37-51 | 18 bytes, equal to the default `length` |
| Usb.EndpointLayout | fakeusb/usb.py:54-60 | 7 bytes, equal to the default `length` |
| Usb.InterfaceLayout | fakeusb/usb.py:63-73 | a 9-byte prefix equal to the default `length`, then an endpoint-record trailer |
| Usb.ConfigurationLayout | fakeusb/usb.py:76-86 | a 9-byte prefix equal to the default `length`, then the interfaces; the class cannot be decoded |
| Usb.ConfigurationNotCodable | fakeusb/usb.py:73-86 | a trailer of records that have trailers is not decodable |
| Usb.StringLayout | fakeusb/usb.py:89-92 | a 2-byte prefix, then the data bytes |
| Usb.DescriptorsSerializeAsWritten | fakeusb/usb.py:37-92 | on every descriptor, `Encode` is the code as written |
| Usb.DeviceEncoding | fakeusb/usb.py:37-51 | a device descriptor is 18 bytes led by its `length` |
| Usb.DeviceDescribesItself | fakeusb/usb.py:38-39 | built without `length`, it announces 18, and its type defaults to DEVICE |
| Usb.EndpointEncoding | fakeusb/usb.py:54-60 | an endpoint descriptor is 7 bytes led by its `length` |
| Usb.EndpointDescribesItself | fakeusb/usb.py:55-56 | built without `length` it announces 7, its type ENDPOINT |
| Usb.EndpointsEncoding | fakeusb/usb.py:73 | endpoints in a row take 7 bytes each |
| Usb.InterfaceEncoding | fakeusb/usb.py:63-73 | an interface is its 9-byte prefix then each endpoint's 7 bytes |
| Usb.InterfacesEncoding | fakeusb/usb.py:86 | interfaces in a row take 9 bytes each plus 7 per endpoint |
| Usb.ConfigurationEncoding | fakeusb/usb.py:76-86 | a configuration is 9 bytes, then its interfaces and their endpoints |
| Usb.StringConstruct | fakeusb/usb.py:98-109 | `length` and `data` given, the type comes from the default |
| Usb.StringEncoding | fakeusb/usb.py:89-92 | `[length, STRING] + data`, or struct.error when `length` exceeds a byte |
| Usb.StringDecoding | fakeusb/usb.py:89-92 | those bytes decode back to the descriptor |
| Usb.LanguageResult | fakeusb/usb.py:94-101 | ValueError unless exactly two ids; otherwise a descriptor of `length` 4 whose bytes are `[4, 3]` and the two ids (TypeError/ValueError for non-bytes) |
| Usb.BuildResult | fakeusb/usb.py:103-109 | `length` is 2 plus the encoded size; it serializes and reads back while that fits a byte |
| Usb.StringDescriptorEncoding | fakeusb/usb.py:89-92 | any string descriptor serializes, led by its `length` |
| Servers.HeaderBytes | fakeusb/server.py:41-46 | a header is 12 bytes |
| Servers.FrameBytes | fakeusb/server.py:38-47 | `send_packet` writes the header (type, body length, id) then the body, or raises struct.error / AttributeError |
| Servers.FrameOk | fakeusb/server.py:38-47 | a written frame carries header values in range |
| Servers.FrameReadsBack | fakeusb/server.py:38-47 | a frame's first 12 bytes decode to the header announcing the body length, the rest is the body |
| Servers.FrameRoundTrip | fakeusb/server.py:38-47 | a frame's body decodes back to the packet sent |
| Servers.Layer | fakeusb/server.py:13-20 | the metaclass loop computes `Layered` |
| Servers.OwnEntriesOk | fakeusb/server.py:18 | own entries are read iff every class has a `type_id` |
| Servers.OwnEntriesLookup | fakeusb/server.py:18 | each own `type_id` maps to its last entry's handler, on top of the bases |
| Servers.MergeAllLookup | fakeusb/server.py:14-16 | the merged bases hold each id with the handler of the last base having it |
| Servers.LayeredLookup | fakeusb/server.py:13-20 | a class's table: own entries override bases, bases by last one |
| Servers.LayeredOk | fakeusb/server.py:17-18 | a table is built iff every named class has a `type_id` |
| Servers.ServerHandlers | fakeusb/server.py:100-107 | `Server`'s table maps ids 3, 0, 100, 6, 7, 21 to its handlers |
| Servers.HelloReplyBuilt | fakeusb/server.py:53-58 | the Hello reply holds the version padded to 64 bytes and capabilities `[0]` |
| Servers.HelloEncoding | fakeusb/server.py:55-59 | a Hello serializes iff its version is 64 bytes |
| Servers.HelloFrame | fakeusb/server.py:52-59 | a version of at most 64 bytes gives a 68-byte Hello frame with id 0; a longer one raises |
| Servers.DescriptorSelection | fakeusb/server.py:61-71 | for a non-negative index, `get_descriptor` serializes exactly the requested descriptor, else no data |
| Servers.DescriptorNegativeIndex | fakeusb/server.py:64-65 | a negative configuration index counts from the end, or raises IndexError |
| Servers.DescriptorReply | fakeusb/server.py:61-71 | on a well-formed device, no data iff nothing requested, and the data starts with the descriptor's `length` |
| Servers.DeviceDescriptorReply | fakeusb/server.py:62-63 | the device descriptor goes out as 18 bytes |
| Servers.ConfigurationDescriptorReply | fakeusb/server.py:64-65 | a configuration goes out with all interfaces and endpoints: 9 + 9 per interface + 7 per endpoint bytes |
| Servers.DescriptorReadsBack | fakeusb/server.py:61-71 | a device or string descriptor sent decodes back to itself |
| Servers.ControlSelection | fakeusb/server.py:75-85 | GET_DESCRIPTOR splits `value` into type and index, GET_STATUS gives two zero bytes, `request in {5, 9}` raises TypeError on a list; anything else gives no data |
| Servers.ControlAnswer | fakeusb/server.py:73-85 | answering fails only for an unhashable `request` with request type 0 |
| Servers.ControlReplyFields | fakeusb/server.py:87-90 | the reply changes only `data` and `length`, with `length == len(data)` |
| Servers.DataReplaced | fakeusb/server.py:87-90 | `derive(data, length)` keeps every other setup field |
| Servers.ConfigurationReplyBytes | fakeusb/server.py:93-97 | the reply is Success and the configuration number, which must fit a byte |
| Announce.Defaults | fakeusb/server.py:121-123 | the three lists start with 32 slots each |
| Announce.Filled | fakeusb/server.py:121-123 | `[v] * 32` is 32 copies of `v` |
| Announce.EndpointEntry | fakeusb/server.py:126-133 | an endpoint that is stored goes to a slot below 32 |
| Announce.EndpointEntryType | fakeusb/server.py:115-131 | the `attr_to_type` lookup raises TypeError for a list `bm_attributes` and KeyError for a value that is no key; a stored entry holds the table's type in the slot the address selects |
| Announce.AddressSlots | fakeusb/server.py:128-130 | the slot is `a & 0x7f` plus 16 for IN; valid iff the address is below 32 or in 128..143; OUT/IN endpoints 0..15 get distinct slots |
| Announce.PlaceOne | fakeusb/server.py:128-133 | one endpoint writes its own slot and no other |
| Announce.EndpointsLast | fakeusb/server.py:125-133 | the last endpoint placed in a slot decides it |
| Announce.InterfacesLast | fakeusb/server.py:124-133 | the last endpoint across interfaces placed in a slot decides it |
| Announce.InterfacesUntouched | fakeusb/server.py:124-133 | slots no endpoint touches keep their value |
| Announce.EpTables | fakeusb/server.py:121-136 | the tables `send_ep_info` builds keep 32 slots each |
| Announce.EpSlotLast | fakeusb/server.py:124-136 | the final table holds the last stored endpoint, slot 0 forced to control of interface 0 |
| Announce.EpSlotUnused | fakeusb/server.py:121-136 | an unused slot keeps 0xff, 0xff, 0 (slot 0 control, interface 0) |
| Announce.EpInfoEncoding | fakeusb/server.py:138-142 | an `EpInfo` serializes to its 96 items as bytes, or struct.error |
| Announce.EpInfoFrameBytes | fakeusb/server.py:115-143 | `send_ep_info` writes header (5, 96, 0) then the 96 table bytes, or the first error |
| Announce.SortSorted | fakeusb/server.py:148 | the sort orders the keys, keeps every descriptor, and is stable: the items of each key keep their input order |
| Announce.SortStable | fakeusb/server.py:148 | for every key, the items with that key appear in the sorted list in their input order |
| Announce.InsertFilter | fakeusb/server.py:148 | inserting an item puts it in front of the items of its own key and leaves the other keys' items alone |
| Announce.InsertPerm | fakeusb/server.py:148 | insertion keeps the multiset |
| Announce.SortedInterfacesOrder | fakeusb/server.py:148 | the sorted interfaces are those declared, ordered by `interface_number`, and interfaces sharing a number (alternate settings) keep their declared order (`SortStable`) |
| Announce.Column | fakeusb/server.py:151-154 | a comprehension reads each record's attribute in order |
| Announce.ColumnBytes | fakeusb/server.py:151-154 | `bytes([...])` of a column holds each record's attribute value |
| Announce.InterfaceInfoEncoding | fakeusb/server.py:149-156 | an `InterfaceInfo` serializes iff the count fits and each column is exactly 32 bytes |
| Announce.InterfaceInfoListing | fakeusb/server.py:148-156 | the table sent lists up to 32 sorted interfaces: numbers, classes, subclasses and the classes again as protocols, with the padding |
| Announce.IntendedInterfaceListing | fakeusb/server.py:148-156 | the intended table, whose protocol column holds `interface_protocol` |
| Announce.ProtocolColumnAsWritten | fakeusb/server.py:154 | for a CDC ACM interface (class 2, protocol 1), the table sent announces protocol 2; the intended one announces 1 |
| Announce.DeviceConnectEncoding | fakeusb/server.py:158-165 | a `DeviceConnect` is speed FULL, class, subclass, protocol, vendor and product little-endian, or struct.error |
| Announce.DeviceIdentity | fakeusb/server.py:160-164 | a well-formed device descriptor has the attributes `connect` reads |
| Announce.DeviceConnectFrameBytes | fakeusb/server.py:158-166 | the `DeviceConnect` frame of a device descriptor |
| Sessions.Server.constructor | fakeusb/server.py:29-32 | nothing written, configuration number 1 |
| Sessions.Server.SendPacket | fakeusb/server.py:38-47 | appends the whole frame, or nothing and raises |
| Sessions.Server.HandleHello | fakeusb/server.py:52-59 | appends the Hello reply frame |
| Sessions.Server.HandleControl | fakeusb/server.py:73-91 | appends the control reply frame with the request's id |
| Sessions.Server.HandleConfiguration | fakeusb/server.py:93-98 | appends the configuration status frame with the request's id |
| Sessions.Server.HandlePacket | fakeusb/server.py:109-113 | runs the table's handler for the header's type, or drops the packet |
| Sessions.Server.SendEpInfo | fakeusb/server.py:115-143 | fills the three arrays in place and appends the `EpInfo` frame of `EpTables` |
| Sessions.PlaceItems | fakeusb/server.py:125-133 | the inner loop over one interface's endpoints updates the arrays as `PlaceEndpoints` |
| Sessions.Server.Connect | fakeusb/server.py:145-166 | appends `EpInfo`, `InterfaceInfo` and `DeviceConnect` in that order, stopping at the first error |
| Sessions.HelloSentBytes | fakeusb/server.py:52-59 | the Hello frame: type 0, 68 bytes, id 0, "fakeusb" zero-padded and capability 0 |
| Sessions.ControlSentFrame | fakeusb/server.py:87-91 | the control reply is a frame of type 100 with the request's id |
| Sessions.ConfigurationSentBytes | fakeusb/server.py:93-98 | the status frame: type 8, two bytes, Success and the configuration |
| Sessions.ServerDispatch | fakeusb/server.py:100-113 | Hello, control and both configuration packets are answered; every other type writes nothing |
| Sessions.ConnectOrder | fakeusb/server.py:145-166 | with well-formed tables, `connect` writes the three frames in order |
| Sessions.ConnectStops | fakeusb/server.py:145-156 | a failing `send_ep_info` writes nothing; a failing `InterfaceInfo` leaves only `EpInfo` |
| Sessions.EpInfoShape | fakeusb/server.py:138-143 | the `EpInfo` frame is 108 bytes |
| Sessions.InterfaceInfoShape | fakeusb/server.py:149-156 | the `InterfaceInfo` frame is 144 bytes |
| Sessions.DeviceConnectShape | fakeusb/server.py:158-166 | the `DeviceConnect` frame is 20 bytes |
| Cdc.FunctionalDescriptors | examples/cdc.py:16-40 | each functional descriptor's default `function_length` is its `raw_length`: 5, 5, 5, 4 |
| Cdc.FunctionalDescribesItself | examples/cdc.py:16-40 | built without those fields, it serializes to that many bytes with CS_INTERFACE and its subtype |
| Cdc.FunctionalSerializeAsWritten | examples/cdc.py:16-40 | on the functional descriptors, `Encode` is the code as written |
| Cdc.CommInterfaceAsWritten | examples/cdc.py:110-120 | the communication interface as written, with `extra=`, raises KeyError naming `extra` |
| Cdc.CommInterfaceIntended | examples/cdc.py:110-119 | without `extra=`, the communication interface is built with its ten fields, the given endpoint list, `length` 9, class 2 and protocol 1 |
| Cdc.FunctionalSkipped | fakeusb/server.py:126-127 | a functional descriptor in an `endpoints` list has no `endpoint_address`, so `send_ep_info` passes over it |
| Cdc.CdcHandlers | examples/cdc.py:185-188 | `CDCServer`'s table is `Server`'s with Hello and BulkPacket entries |
| Cdc.CdcOverrides | examples/cdc.py:185-188 | only Hello and bulk differ from `Server`'s table |
| Cdc.UpperBytes | examples/cdc.py:156 | `upper()` keeps the length, changes exactly the lowercase letters and leaves none |
| Cdc.UpperIdempotent | examples/cdc.py:156 | upper-casing twice is upper-casing once |
| Cdc.UpperConcat | examples/cdc.py:156 | upper-casing distributes over concatenation |
| Cdc.BulkReceive | examples/cdc.py:154-179 | RX appends the upper-cased data and replies without data, Success and the request's `length` |
| Cdc.BulkTransmit | examples/cdc.py:161-179 | TX replies with the first `SliceBound(length, len(buffer))` bytes, which is `min(length, len(buffer))` for a non-negative length, and keeps the rest |
| Cdc.BulkRefuse | examples/cdc.py:168-179 | another endpoint gets Inval, no data and length 0, with the buffer unchanged |
| Cdc.LoopBack | examples/cdc.py:153-179 | RX then a large enough TX returns everything upper-cased and empties the buffer |
| Cdc.BulkReplied | examples/cdc.py:174-178 | the reply replaces `data`, `status` and `length`, keeping `endpoint` and `stream_id` |
| Cdc.CdcHelloDispatch | examples/cdc.py:181-183 | Hello is answered with `Server`'s reply, then `connect` |
| Cdc.CdcHelloOrder | examples/cdc.py:181-183 | a CDC Hello writes the Hello reply, `EpInfo`, `InterfaceInfo` and `DeviceConnect` in order |
| Cdc.CdcBulkDispatch | examples/cdc.py:185-188 | bulk transfers go to `handle_bulk` (which `Server` drops) |
| Cdc.CdcInherits | examples/cdc.py:185-188 | other packets are handled as by `Server`, the buffer untouched |
| Cdc.CdcLookup | examples/cdc.py:185-188 | the table lookup for every type |
| Cdc.NextFrame | fakeusb/server.py:171-184 | one pass consumes the header and a suffix of the input |
| Cdc.NextFrameReads | fakeusb/server.py:173-181 | a whole frame of a registered packet is read back as that packet |
| Cdc.NextFrameSkips | fakeusb/server.py:178-184 | a frame of an unregistered type is skipped whole |
| Cdc.NextFrameCut | fakeusb/server.py:177-186 | a body shorter than the header announces ends the connection quietly |
| Cdc.FramedHeader | fakeusb/server.py:177 | the pass reads exactly `length` body bytes after the header |
| Cdc.SessionFrame | fakeusb/server.py:168-186 | a whole frame is handled, then the loop continues on the rest, unless the handler raised |
| Cdc.SessionSkips | fakeusb/server.py:178-184 | an unregistered frame is dropped, the buffer untouched |
| Cdc.SessionCut | fakeusb/server.py:185-186 | a cut frame ends the connection with nothing written |
| Cdc.CdcServer.constructor | examples/cdc.py:149-151 | a server with nothing written and an empty buffer |
| Cdc.CdcServer.HandleBulk | examples/cdc.py:153-179 | the buffer and the output change as `BulkStep` |
| Cdc.CdcServer.HandleHello | examples/cdc.py:181-183 | appends the Hello reply then what `connect` writes |
| Cdc.CdcServer.HandlePacket | fakeusb/server.py:109-113 | dispatches through `CDCServer`'s table |
| Cdc.CdcServer.ReadFrame | fakeusb/server.py:173-179 | the reads of one pass compute `NextFrame` |
| Cdc.CdcServer.Handle | fakeusb/server.py:168-186 | the `handle` loop writes what `Session` writes and leaves the buffer as it does; `Server` has no loop of its own here, so the loop is modelled once, through `CDCServer` |

## Left out

- asyncio, the stream reader and writer, `make_instance`, the `__main__`
  block and logging. The reader is the input byte sequence and the writer is
  the `output` field. A log line that reads an attribute still raises when the
  attribute is missing.
- Host byte order: the `=` struct prefix is taken as little-endian, which is
  the order the test-suite expects.
- `__str__` and `__repr__`: debug output only.
- The metaclass reflection (`__prepare__`, `__annotations__`, `hasattr`
  probing). A class is an explicit `Schema` holding its ordered annotations and
  their defaults.
- The second copy of the engine in `fakeusb/protocol.py`. It is the same code
  and is modelled once.
- `protocol.type_registry`: `fakeusb/server.py:178` uses it, but
  `fakeusb/protocol.py` does not define it. It is modelled as the table of the
  declared `type_id`s (`Protocol.Registered`), with no other entries.
- The UTF-16 codec of `StringDescriptor.build`: the encoded bytes are the
  input of `Usb.Build`.
- The `DescriptorType`, `SetupRequest` and `EndpointAttribute` codes are
  constants of the model. No contract restates them.
- The CDC class-level descriptor tables (`examples/cdc.py:50-147`). As
  written they cannot be built (see "## Findings"), so `CdcServer` takes its
  device tables as a parameter. `Announce.AcmInterface` reproduces the ACM
  interface's class and protocol.
- Decoding a record array whose elements have trailers themselves, such as
  the interfaces in a configuration. The source never does it.
  `Usb.ConfigurationNotCodable` states that the class is outside
  `CodecLaws.RoundTrip`.
- `CodecLaws.RoundTrip`: fixed arrays of records are outside its domain. As
  written they cannot be packed.
- `total_length` of the configuration descriptor is never computed by the
  source (a TODO). `Usb.ConfigurationEncoding` states the size it should
  announce.
- `__setattr__` (fakeusb/serdes.py:97-98): a `Record` is a Dafny value and
  cannot be assigned to, so the AttributeError it raises has no counterpart.
- Python version: the model follows Python 3.6 to 3.9. `serialize` uses
  `collections.Iterable` (fakeusb/serdes.py:156), which 3.10 removed, and
  `examples/cdc.py:202` passes `loop=` to `asyncio.start_server`.
- Python values: lists, tuples and `bytes` are one `Value` variant, `List`.
  Equality between them (`[1] != (1,)`, `b"\x01" == [1]` being false) matters
  nowhere in the core. A `List` used as a dictionary key or in a set test
  stands for a Python list and raises TypeError (the `Unhashable` cases in
  `Sessions`, `Servers`, `Announce` and `Cdc`). Decoded packets hold
  integers in those places. A tuple or `bytes` value there would be hashable,
  and that case is not modelled.
- Decoding.VariableUnserializeItems: the clause about record elements holds
  only for element classes that are themselves decodable.
- Class `Server` has no `handle` method of its own. Only `Cdc.CdcServer.Handle`
  runs the loop, with `CDCServer`'s table; `Sessions.Server.HandlePacket`
  gives the base table's dispatch.

## Findings

| source | as written | input that shows it | evidently intended | confidence | as-written member | corrected member |
|---|---|---|---|---|---|---|
| fakeusb/serdes.py:101-111 | `raw_values` splices a nested record's values but appends any other attribute whole, so a fixed array inside a nested record reaches `struct.pack` as one list and `serialize` raises struct.error | `Wrapper(inner=ArrayHolder(a=[1, 2]))`, where `ArrayHolder` declares `a: Array(T.U8, 2)` | nested fixed arrays flattened as `serialize` flattens its own, giving the bytes `01 02` | not executed | Codec.NestedArrayAsWritten | CodecLaws.RoundTrip |
| examples/cdc.py:120 | the communication interface is given `extra=cdc_descriptors`, a field `InterfaceDescriptor` does not declare, so the constructor raises KeyError and the `CDCServer` class body never completes | `InterfaceDescriptor(interface_number=0, …, endpoints=endpoint_descriptors_comm, extra=cdc_descriptors)` of examples/cdc.py:110-120 | the functional descriptors listed after the interface's endpoint, where `send_ep_info` skips items without `endpoint_address` (fakeusb/server.py:126-127) | not executed | Cdc.CommInterfaceAsWritten | Cdc.CommInterfaceIntended |
| fakeusb/server.py:154 | the `interface_protocol` column of `InterfaceInfo` is filled from `interface_class` | one CDC ACM interface (class 2, protocol 1): the table announces protocol 2 | the column filled from `interface_protocol`, announcing 1 | not executed | Announce.ProtocolColumnAsWritten | Announce.IntendedInterfaceListing |
