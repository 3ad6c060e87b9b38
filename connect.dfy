/** The connect announcement of fakeusb/server.py: the 32-slot endpoint table
    `send_ep_info` fills from the interface descriptors, the `InterfaceInfo`
    listing the interfaces by number, and the `DeviceConnect` naming the
    device. */
module Announce {
  import opened Wrappers
  import opened Wire
  import opened Serdes
  import opened Records
  import opened Codec
  import opened CodecLaws
  import opened Layouts
  import opened Builtins
  import opened Protocol
  import opened Usb
  import opened Servers

  // ------------------------------------------------------------ endpoint slots

  /** The three 32-slot lists `send_ep_info` fills: `types`, `intervals` and
      `interfaces`. */
  datatype Tables = Tables(types: seq<Value>, intervals: seq<Value>, interfaces: seq<Value>)

  predicate Sized(t: Tables)
  {
    |t.types| == 32 && |t.intervals| == 32 && |t.interfaces| == 32
  }

  /** The lists before any endpoint is placed: no type (0xff), no interval
      (0xff), interface 0. */
  function Defaults(): (r: Tables)
    ensures Sized(r)
  {
    Tables(Filled(0xff), Filled(0xff), Filled(0))
  }

  /** `[v] * 32`. */
  function Filled(v: int): (r: seq<Value>)
    ensures |r| == 32 && forall k :: 0 <= k < 32 ==> r[k] == Int(v)
  {
    seq(32, _ => Int(v))
  }

  /** The slot of endpoint address `a`: `a & ~0x80`, plus 16 when bit 0x80 is
      set (the arithmetic holds for negative `a` too, as Python's `&` does). */
  function AddressSlot(a: int): int
  {
    var high := (a / 128) % 2;
    a - 128 * high + 16 * high
  }

  /** `attr_to_type` of `send_ep_info`: the control, bulk and interrupt
      endpoint attributes and their `EpInfo` types. */
  const AttrToType: map<Value, int> :=
    map[Int(AttrControl) := EpControl, Int(AttrBulk) := EpBulk, Int(AttrInterrupt) := EpInterrupt]

  /** `attr_to_type[bm_attributes]`: a list cannot be hashed (TypeError), and
      a value that is not a key (an isochronous endpoint, say) is a KeyError. */
  function EndpointType(attributes: Value): Result<int, Error>
  {
    if attributes.List? then Err(Unhashable)
    else if attributes in AttrToType then Ok(AttrToType[attributes])
    else Err(KeyNotFound(attributes))
  }

  /** What one pass of the inner loop writes for item `epd` of interface
      `intfd`: nothing for an item without `endpoint_address`, else the slot
      and the type, interval and interface number stored there. Attributes
      are read as the loop body reads them; the slot is checked when the type
      is stored. */
  datatype Entry = Entry(slot: nat, kind: int, interval: Value, number: Value)

  function EndpointEntry(intfd: Record, epd: Value): (r: Result<Option<Entry>, Error>)
    ensures r.Ok? && r.value.Some? ==> r.value.value.slot < 32
  {
    if !(epd.Rec? && "endpoint_address" in epd.r.attrs) then Ok(None)
    else
      var a :- IntAttr(epd.r, "endpoint_address");
      var attributes :- Attr(epd.r, "bm_attributes");
      var kind :- EndpointType(attributes);
      var k :- Position(AddressSlot(a), 32);
      var interval :- Attr(epd.r, "interval");
      var number :- Attr(intfd, "interface_number");
      Ok(Some(Entry(k, kind, interval, number)))
  }

  /** For an item with an integer `endpoint_address`, the type lookup decides
      the outcome: TypeError for a list `bm_attributes`, KeyError for a value
      that is no key of `attr_to_type`, and a stored entry holds the type the
      table gives, in the slot the address selects. */
  lemma EndpointEntryType(intfd: Record, epd: Record)
    requires "endpoint_address" in epd.attrs && epd.attrs["endpoint_address"].Int?
    ensures var r := EndpointEntry(intfd, Rec(epd));
      && ("bm_attributes" in epd.attrs && epd.attrs["bm_attributes"].List? ==> r == Err(Unhashable))
      && ("bm_attributes" in epd.attrs && !epd.attrs["bm_attributes"].List? && epd.attrs["bm_attributes"] !in AttrToType ==>
            r == Err(KeyNotFound(epd.attrs["bm_attributes"])))
      && (r.Ok? ==>
            && "bm_attributes" in epd.attrs && epd.attrs["bm_attributes"] in AttrToType && r.value.Some?
            && r.value.value.kind == AttrToType[epd.attrs["bm_attributes"]]
            && Position(AddressSlot(epd.attrs["endpoint_address"].n), 32) == Ok(r.value.value.slot))
  {
  }

  function Store(t: Tables, e: Entry): (r: Tables)
    requires Sized(t) && e.slot < 32
    ensures Sized(r)
  {
    Tables(t.types[e.slot := Int(e.kind)], t.intervals[e.slot := e.interval], t.interfaces[e.slot := e.number])
  }

  function PlaceEndpoint(t: Tables, intfd: Record, epd: Value): (r: Result<Tables, Error>)
    requires Sized(t)
    ensures r.Ok? ==> Sized(r.value)
  {
    var e :- EndpointEntry(intfd, epd);
    if e.None? then Ok(t) else Ok(Store(t, e.value))
  }

  /** The inner loop over the items `eps` of interface `intfd`. */
  function PlaceEndpoints(t: Tables, intfd: Record, eps: seq<Value>): (r: Result<Tables, Error>)
    requires Sized(t)
    ensures r.Ok? ==> Sized(r.value)
  {
    if eps == [] then Ok(t)
    else
      var before :- PlaceEndpoints(t, intfd, eps[..|eps| - 1]);
      PlaceEndpoint(before, intfd, eps[|eps| - 1])
  }

  /** One pass of the outer loop: the items of `intfd.endpoints`. */
  function PlaceInterface(t: Tables, intfd: Record): (r: Result<Tables, Error>)
    requires Sized(t)
    ensures r.Ok? ==> Sized(r.value)
  {
    var eps :- Attr(intfd, "endpoints");
    if !eps.List? then Err(NotIterable) else PlaceEndpoints(t, intfd, eps.items)
  }

  /** The outer loop over the interface descriptors. */
  function PlaceInterfaces(t: Tables, intfs: seq<Record>): (r: Result<Tables, Error>)
    requires Sized(t)
    ensures r.Ok? ==> Sized(r.value)
  {
    if intfs == [] then Ok(t)
    else
      var before :- PlaceInterfaces(t, intfs[..|intfs| - 1]);
      PlaceInterface(before, intfs[|intfs| - 1])
  }

  /** The lists `send_ep_info` ends with: the placed endpoints, then slot 0
      forced to a control endpoint of interface 0. */
  function EpTables(intfs: seq<Record>): (r: Result<Tables, Error>)
    ensures r.Ok? ==> Sized(r.value)
  {
    var placed :- PlaceInterfaces(Defaults(), intfs);
    Ok(ControlSlot(placed))
  }

  /** Slot 0 set to a control endpoint of interface 0. */
  function ControlSlot(t: Tables): (r: Tables)
    requires Sized(t)
    ensures Sized(r)
  {
    Tables(t.types[0 := Int(EpControl)], t.intervals, t.interfaces[0 := Int(0)])
  }

  /** The `EpInfo` packet holding the three lists. */
  function EpInfoPacket(t: Tables): Result<Record, Error>
  {
    Construct(EpInfo, map["type_" := List(t.types), "interval" := List(t.intervals), "interface" := List(t.interfaces)])
  }

  /** The frame `send_ep_info` sends (id 0). */
  function EpInfoFrame(intfs: seq<Record>): Result<Bytes, Error>
  {
    var t :- EpTables(intfs);
    var packet :- EpInfoPacket(t);
    Frame(packet, Int(0))
  }

  // ------------------------------------------------------------ slot lemmas

  /** For an address that fits a byte the slot is the endpoint number (the low
      seven bits) plus 16 for the IN direction (bit 0x80). Only endpoint
      numbers below 16 (and OUT numbers below 32) land in the table; IN and
      OUT endpoints 0..15 get 32 distinct slots. */
  lemma AddressSlots(a: int, b: int)
    requires 0 <= a < 0x100 && 0 <= b < 0x100
    ensures AddressSlot(a) == a % 128 + 16 * (a / 128)
    ensures Position(AddressSlot(a), 32).Ok? <==> a < 32 || 128 <= a < 144
    ensures (a % 128 < 16 && b % 128 < 16 && AddressSlot(a) == AddressSlot(b)) ==> a == b
  {
    ByteSlot(a);
    ByteSlot(b);
  }

  lemma ByteSlot(a: int)
    requires 0 <= a < 0x100
    ensures a < 128 ==> a / 128 == 0 && a % 128 == a && AddressSlot(a) == a
    ensures 128 <= a ==> a / 128 == 1 && a % 128 == a - 128 && AddressSlot(a) == a - 112
  {
  }

  /** The slot, type, interval and interface of slot `k`. */
  function SlotOf(t: Tables, k: nat): (Value, Value, Value)
    requires Sized(t) && k < 32
  {
    (t.types[k], t.intervals[k], t.interfaces[k])
  }

  /** Item `epd` of interface `intfd` is placed in slot `k`. */
  predicate Writes(intfd: Record, epd: Value, k: nat)
  {
    EndpointEntry(intfd, epd).Ok? && EndpointEntry(intfd, epd).value.Some? &&
    EndpointEntry(intfd, epd).value.value.slot == k
  }

  /** What the entry of an item that is placed stores. */
  function Stored(intfd: Record, epd: Value): (Value, Value, Value)
    requires EndpointEntry(intfd, epd).Ok? && EndpointEntry(intfd, epd).value.Some?
  {
    var e := EndpointEntry(intfd, epd).value.value;
    (Int(e.kind), e.interval, e.number)
  }

  /** One pass writes the slot of its endpoint and leaves every other slot. */
  lemma PlaceOne(t: Tables, intfd: Record, epd: Value, k: nat)
    requires Sized(t) && k < 32 && PlaceEndpoint(t, intfd, epd).Ok?
    ensures SlotOf(PlaceEndpoint(t, intfd, epd).value, k) ==
      if Writes(intfd, epd, k) then Stored(intfd, epd) else SlotOf(t, k)
  {
  }

  /** Items none of which is placed in slot `k` leave it as it was. */
  lemma {:induction false} EndpointsUntouched(t: Tables, intfd: Record, eps: seq<Value>, k: nat)
    requires Sized(t) && k < 32 && PlaceEndpoints(t, intfd, eps).Ok?
    requires forall m :: 0 <= m < |eps| ==> !Writes(intfd, eps[m], k)
    ensures SlotOf(PlaceEndpoints(t, intfd, eps).value, k) == SlotOf(t, k)
  {
    if eps != [] {
      var init := eps[..|eps| - 1];
      assert forall m :: 0 <= m < |init| ==> init[m] == eps[m];
      EndpointsUntouched(t, intfd, init, k);
      PlaceOne(PlaceEndpoints(t, intfd, init).value, intfd, eps[|eps| - 1], k);
    }
  }

  /** The last item placed in slot `k` decides what it holds. */
  lemma {:induction false} EndpointsLast(t: Tables, intfd: Record, eps: seq<Value>, k: nat, m: nat)
    requires Sized(t) && k < 32 && PlaceEndpoints(t, intfd, eps).Ok?
    requires m < |eps| && Writes(intfd, eps[m], k)
    requires forall m' :: m < m' < |eps| ==> !Writes(intfd, eps[m'], k)
    ensures SlotOf(PlaceEndpoints(t, intfd, eps).value, k) == Stored(intfd, eps[m])
  {
    var init := eps[..|eps| - 1];
    var before := PlaceEndpoints(t, intfd, init).value;
    PlaceOne(before, intfd, eps[|eps| - 1], k);
    if m < |eps| - 1 {
      assert init[m] == eps[m];
      assert forall m' :: m < m' < |init| ==> init[m'] == eps[m'];
      EndpointsLast(t, intfd, init, k, m);
    }
  }

  // ------------------------------------------------------------ interface lemmas

  /** The items of `intfd.endpoints` that the outer loop walks. */
  function Items(intfd: Record): seq<Value>
  {
    if "endpoints" in intfd.attrs && intfd.attrs["endpoints"].List? then intfd.attrs["endpoints"].items else []
  }

  /** Some item of interface `intfd` is placed in slot `k`. */
  predicate Touches(intfd: Record, k: nat)
  {
    exists m :: 0 <= m < |Items(intfd)| && Writes(intfd, Items(intfd)[m], k)
  }

  lemma PlaceInterfaceItems(t: Tables, intfd: Record)
    requires Sized(t) && PlaceInterface(t, intfd).Ok?
    ensures PlaceEndpoints(t, intfd, Items(intfd)) == PlaceInterface(t, intfd)
  {
  }

  /** Interfaces none of which places an item in slot `k` leave it as it was. */
  lemma {:induction false} InterfacesUntouched(t: Tables, intfs: seq<Record>, k: nat)
    requires Sized(t) && k < 32 && PlaceInterfaces(t, intfs).Ok?
    requires forall i :: 0 <= i < |intfs| ==> !Touches(intfs[i], k)
    ensures SlotOf(PlaceInterfaces(t, intfs).value, k) == SlotOf(t, k)
  {
    if intfs != [] {
      var init := intfs[..|intfs| - 1];
      var last := intfs[|intfs| - 1];
      assert forall i :: 0 <= i < |init| ==> init[i] == intfs[i];
      InterfacesUntouched(t, init, k);
      var before := PlaceInterfaces(t, init).value;
      PlaceInterfaceItems(before, last);
      assert !Touches(last, k);
      EndpointsUntouched(before, last, Items(last), k);
    }
  }

  /** The last item placed in slot `k`, item `m` of interface `i`, decides
      what it holds, whatever earlier interfaces placed there. */
  lemma {:induction false} InterfacesLast(t: Tables, intfs: seq<Record>, k: nat, i: nat, m: nat)
    requires Sized(t) && k < 32 && PlaceInterfaces(t, intfs).Ok?
    requires i < |intfs| && m < |Items(intfs[i])| && Writes(intfs[i], Items(intfs[i])[m], k)
    requires forall m' :: m < m' < |Items(intfs[i])| ==> !Writes(intfs[i], Items(intfs[i])[m'], k)
    requires forall i' :: i < i' < |intfs| ==> !Touches(intfs[i'], k)
    ensures SlotOf(PlaceInterfaces(t, intfs).value, k) == Stored(intfs[i], Items(intfs[i])[m])
  {
    var init := intfs[..|intfs| - 1];
    var last := intfs[|intfs| - 1];
    var before := PlaceInterfaces(t, init).value;
    PlaceInterfaceItems(before, last);
    if i == |intfs| - 1 {
      EndpointsLast(before, last, Items(last), k, m);
    } else {
      assert init[i] == intfs[i];
      assert forall i' :: i < i' < |init| ==> init[i'] == intfs[i'];
      InterfacesLast(t, init, k, i, m);
      assert !Touches(last, k);
      EndpointsUntouched(before, last, Items(last), k);
    }
  }

  // ------------------------------------------------------------ the endpoint table

  /** Slot `k` of the table sent holds the type, interval and interface of the
      last endpoint placed there; slot 0 is then forced to a control endpoint
      of interface 0. */
  lemma EpSlotLast(intfs: seq<Record>, k: nat, i: nat, m: nat)
    requires k < 32 && EpTables(intfs).Ok?
    requires i < |intfs| && m < |Items(intfs[i])| && Writes(intfs[i], Items(intfs[i])[m], k)
    requires forall m' :: m < m' < |Items(intfs[i])| ==> !Writes(intfs[i], Items(intfs[i])[m'], k)
    requires forall i' :: i < i' < |intfs| ==> !Touches(intfs[i'], k)
    ensures var s := Stored(intfs[i], Items(intfs[i])[m]);
      SlotOf(EpTables(intfs).value, k) == if k == 0 then (Int(EpControl), s.1, Int(0)) else s
  {
    InterfacesLast(Defaults(), intfs, k, i, m);
  }

  /** A slot no endpoint is placed in keeps the defaults: no type, no
      interval, interface 0 (slot 0 is a control endpoint). */
  lemma EpSlotUnused(intfs: seq<Record>, k: nat)
    requires k < 32 && EpTables(intfs).Ok?
    requires forall i :: 0 <= i < |intfs| ==> !Touches(intfs[i], k)
    ensures SlotOf(EpTables(intfs).value, k) ==
      if k == 0 then (Int(EpControl), Int(0xff), Int(0)) else (Int(0xff), Int(0xff), Int(0))
  {
    InterfacesUntouched(Defaults(), intfs, k);
  }

  // ------------------------------------------------------------ the EpInfo packet

  /** An `EpInfo` holding the three lists. */
  function EpInfoRecord(t: Tables): Record
  {
    Record(EpInfo, map["type_" := List(t.types), "interval" := List(t.intervals), "interface" := List(t.interfaces)])
  }

  /** The lists side by side, as `serialize` flattens them. */
  function Flat(t: Tables): seq<Value>
  {
    t.types + t.intervals + t.interfaces
  }

  /** A run of `B` codes packs a list of values to its bytes, and fails with
      struct.error unless every value is an integer in 0..255. */
  lemma PackByteValues(vs: seq<Value>)
    ensures Pack(Repeat([U8], |vs|), vs) == if ToBytes(vs).Ok? then Ok(ToBytes(vs).value) else Err(PackError)
  {
    var fmt := Repeat([U8], |vs|);
    RepeatOne(U8, |vs|);
    if ToBytes(vs).Ok? {
      var bs := ToBytes(vs).value;
      assert Ints(bs) == vs;
      PackBytes(bs);
      PackOfInts(fmt, bs);
    } else {
      var k :| 0 <= k < |vs| && !(vs[k].Int? && 0 <= vs[k].n < 0x100);
      if AllInts(vs) {
        assert !InRange(fmt[k], IntsOf(vs)[k]);
      }
    }
  }

  lemma RepeatJoin(p: Prim, m: nat, n: nat)
    ensures Repeat([p], m) + Repeat([p], n) == Repeat([p], m + n)
  {
    RepeatOne(p, m);
    RepeatOne(p, n);
    RepeatOne(p, m + n);
  }

  lemma EpInfoNames()
    ensures Names(AllFields(EpInfo)) == {"type_", "interval", "interface"}
  {
    EpInfoLayout();
    assert AllFields(EpInfo) == EpInfoFields + [];
    assert EpInfoFields + [] == EpInfoFields;
    NamesFromIsNames(EpInfoFields);
  }

  /** The packet is always built. */
  lemma EpInfoPacketBuilt(t: Tables)
    ensures EpInfoPacket(t) == Ok(EpInfoRecord(t))
  {
    EpInfoLayout();
    EpInfoNames();
    ConstructAll(EpInfo, EpInfoRecord(t).attrs);
  }

  lemma EpInfoFormat()
    ensures Format(EpInfo) == Repeat([U8], 96)
  {
    EpInfoLayout();
    FormatFromIsJoin(EpInfo, EpInfoFields);
    assert FormatFrom(EpInfoFields) == Repeat([U8], 32) + (Repeat([U8], 32) + (Repeat([U8], 32) + []));
    RepeatJoin(U8, 32, 32);
    RepeatJoin(U8, 64, 32);
  }

  lemma EpInfoValues(t: Tables)
    ensures RawValues(EpInfoRecord(t)) == Ok(Flat(t))
  {
    var rr := EpInfoRecord(t);
    var fs := EpInfoFields;
    EpInfoLayout();
    EpInfoHeads();
    assert FlattenFields(rr, fs[2..]) == Ok(t.interfaces) by {
      assert fs[2..][1..] == fs[3..];
      assert t.interfaces + [] == t.interfaces;
    }
    assert fs[1..][1..] == fs[2..];
    assert FlattenFields(rr, fs[1..]) == Ok(t.intervals + t.interfaces);
    assert FlattenFields(rr, fs) == Ok(t.types + (t.intervals + t.interfaces));
    assert t.types + (t.intervals + t.interfaces) == Flat(t);
  }

  lemma EpInfoHeads()
    ensures |EpInfoFields| == 3
    ensures EpInfoFields[0].name == "type_" && EpInfoFields[1].name == "interval" && EpInfoFields[2].name == "interface"
  {
  }

  lemma EpInfoShape()
    ensures Fixed(EpInfo) != [] && Trailers(EpInfo) == []
  {
    EpInfoLayout();
  }

  /** An `EpInfo` serializes to its 96 list items as bytes, when every one
      is a byte; otherwise struct.error. */
  lemma EpInfoEncoding(t: Tables)
    requires Sized(t)
    ensures Encode(EpInfoRecord(t)) == if ToBytes(Flat(t)).Ok? then Ok(ToBytes(Flat(t)).value) else Err(PackError)
  {
    EpInfoShape();
    EpInfoValues(t);
    PackedOnly(EpInfoRecord(t), Flat(t));
    EpInfoPrefix(t);
  }

  lemma EpInfoPrefix(t: Tables)
    requires Sized(t)
    ensures Pack(Format(EpInfo), Flat(t)) == if ToBytes(Flat(t)).Ok? then Ok(ToBytes(Flat(t)).value) else Err(PackError)
  {
    EpInfoFormat();
    PackByteValues(Flat(t));
  }

  /** The frame of an `EpInfo`: header type 5, length 96, id 0, then the
      96 bytes. */
  lemma EpInfoFrameOf(t: Tables)
    requires Sized(t)
    ensures Frame(EpInfoRecord(t), Int(0)) ==
      if ToBytes(Flat(t)).Ok? then Ok(HeaderBytes(5, 96, 0) + ToBytes(Flat(t)).value) else Err(PackError)
  {
    EpInfoEncoding(t);
    FrameBytes(EpInfoRecord(t), 0);
  }

  /** The frame `send_ep_info` sends: a header for a packet of type 5 and 96
      bytes with id 0, then the type, interval and interface lists as bytes.
      It fails where the walk over the descriptors fails, and with
      struct.error where a stored interval or interface number is not a byte. */
  lemma EpInfoFrameBytes(intfs: seq<Record>)
    ensures EpInfoFrame(intfs) ==
      if EpTables(intfs).Err? then Err(EpTables(intfs).error)
      else
        var all := ToBytes(Flat(EpTables(intfs).value));
        if all.Ok? then Ok(HeaderBytes(5, 96, 0) + all.value) else Err(PackError)
  {
    if EpTables(intfs).Ok? {
      var t := EpTables(intfs).value;
      EpInfoPacketBuilt(t);
      EpInfoFrameOf(t);
    }
  }

  // ------------------------------------------------------------ interfaces by number

  /** The sort key of an interface descriptor, its `interface_number`. */
  function Key(intfd: Record): int
  {
    if "interface_number" in intfd.attrs && intfd.attrs["interface_number"].Int? then intfd.attrs["interface_number"].n else 0
  }

  predicate Keyed(intfd: Record)
  {
    IntAttr(intfd, "interface_number").Ok?
  }

  /** `sorted` reads every key before comparing any: the first descriptor
      without one is an AttributeError, one whose key is not an integer a
      TypeError (the comparisons of other values Python would allow are not
      modelled). */
  function ReadKeys(intfs: seq<Record>): (r: Result<(), Error>)
    ensures r.Ok? <==> forall j :: 0 <= j < |intfs| ==> Keyed(intfs[j])
  {
    if intfs == [] then Ok(())
    else
      var k :- IntAttr(intfs[0], "interface_number");
      assert forall j :: 1 <= j < |intfs| ==> intfs[1..][j - 1] == intfs[j];
      ReadKeys(intfs[1..])
  }

  /** `x` placed before the first item whose key is not smaller (so before
      the items of equal key, which came later in the input). */
  function Insert(x: Record, xs: seq<Record>): (r: seq<Record>)
    ensures |r| == |xs| + 1
  {
    if xs == [] || Key(x) <= Key(xs[0]) then [x] + xs else [xs[0]] + Insert(x, xs[1..])
  }

  /** Insertion sort by key, stable as Python's `sorted`. */
  function Sort(xs: seq<Record>): (r: seq<Record>)
    ensures |r| == |xs|
  {
    if xs == [] then [] else Insert(xs[0], Sort(xs[1..]))
  }

  predicate SortedByKey(xs: seq<Record>)
  {
    forall i, j :: 0 <= i < j < |xs| ==> Key(xs[i]) <= Key(xs[j])
  }

  /** `sorted(interface_descriptors, key=lambda x: x.interface_number)`. */
  function SortedInterfaces(intfs: seq<Record>): Result<seq<Record>, Error>
  {
    var keys :- ReadKeys(intfs);
    Ok(Sort(intfs))
  }

  lemma {:induction false} InsertSorted(x: Record, xs: seq<Record>)
    requires SortedByKey(xs)
    ensures SortedByKey(Insert(x, xs))
    ensures Insert(x, xs)[0] == x || (xs != [] && Insert(x, xs)[0] == xs[0])
    decreases |xs|
  {
    if xs != [] && Key(x) > Key(xs[0]) {
      var tail := xs[1..];
      assert SortedByKey(tail) by {
        assert forall i :: 0 <= i < |tail| ==> tail[i] == xs[i + 1];
      }
      InsertSorted(x, tail);
      var r := Insert(x, tail);
      assert tail != [] ==> tail[0] == xs[1];
      ConsSorted(xs[0], r);
    } else {
      ConsSorted(x, xs);
    }
  }

  lemma ConsSorted(h: Record, r: seq<Record>)
    requires SortedByKey(r) && (r == [] || Key(h) <= Key(r[0]))
    ensures SortedByKey([h] + r)
  {
    var s := [h] + r;
    forall i, j | 0 <= i < j < |s| ensures Key(s[i]) <= Key(s[j]) {
      if i == 0 && j > 1 {
        assert Key(r[0]) <= Key(r[j - 1]);
      }
    }
  }

  /** The items of `xs` whose key is `k`, in their order in `xs`. */
  function KeyFilter(xs: seq<Record>, k: int): (r: seq<Record>)
    ensures |r| <= |xs|
    ensures forall j :: 0 <= j < |r| ==> Key(r[j]) == k
  {
    if xs == [] then [] else (if Key(xs[0]) == k then [xs[0]] else []) + KeyFilter(xs[1..], k)
  }

  /** Inserting `x` adds it in front of the items of its key and leaves the
      other keys' items alone. */
  lemma {:induction false} InsertFilter(x: Record, xs: seq<Record>, k: int)
    ensures KeyFilter(Insert(x, xs), k) == (if Key(x) == k then [x] else []) + KeyFilter(xs, k)
    decreases |xs|
  {
    if xs != [] && Key(x) > Key(xs[0]) {
      InsertFilter(x, xs[1..], k);
      assert Insert(x, xs)[1..] == Insert(x, xs[1..]);
    } else {
      assert ([x] + xs)[1..] == xs;
    }
  }

  /** The sort is stable: the items of each key keep their input order. */
  lemma {:induction false} SortStable(xs: seq<Record>, k: int)
    ensures KeyFilter(Sort(xs), k) == KeyFilter(xs, k)
  {
    if xs != [] {
      SortStable(xs[1..], k);
      InsertFilter(xs[0], Sort(xs[1..]), k);
    }
  }

  lemma {:induction false} InsertPerm(x: Record, xs: seq<Record>)
    ensures multiset(Insert(x, xs)) == multiset(xs) + multiset{x}
    decreases |xs|
  {
    if xs != [] && Key(x) > Key(xs[0]) {
      InsertPerm(x, xs[1..]);
      assert xs == [xs[0]] + xs[1..];
    }
  }

  /** The sort puts the keys in order, keeps every descriptor, and keeps the
      input order among equal keys. */
  lemma {:induction false} SortSorted(xs: seq<Record>)
    ensures SortedByKey(Sort(xs))
    ensures multiset(Sort(xs)) == multiset(xs)
    ensures forall k :: KeyFilter(Sort(xs), k) == KeyFilter(xs, k)
  {
    if xs != [] {
      SortSorted(xs[1..]);
      InsertSorted(xs[0], Sort(xs[1..]));
      InsertPerm(xs[0], Sort(xs[1..]));
      assert xs == [xs[0]] + xs[1..];
    }
    forall k ensures KeyFilter(Sort(xs), k) == KeyFilter(xs, k) {
      SortStable(xs, k);
    }
  }

  /** The interfaces listed are those declared, each once, in increasing
      `interface_number` order; interfaces sharing a number (alternate
      settings) keep their declared order. */
  lemma SortedInterfacesOrder(intfs: seq<Record>)
    requires SortedInterfaces(intfs).Ok?
    ensures var r := SortedInterfaces(intfs).value;
      && multiset(r) == multiset(intfs)
      && (forall j :: 0 <= j < |r| ==> Keyed(r[j]))
      && (forall i, j :: 0 <= i < j < |r| ==> IntAttr(r[i], "interface_number").value <= IntAttr(r[j], "interface_number").value)
      && forall k :: KeyFilter(r, k) == KeyFilter(intfs, k)
  {
    SortSorted(intfs);
    var r := Sort(intfs);
    forall j | 0 <= j < |r| ensures Keyed(r[j]) {
      assert r[j] in multiset(intfs);
    }
  }

  // ------------------------------------------------------------ the InterfaceInfo packet

  /** `[x.name for x in xs]`: every attribute read in order. */
  function Column(xs: seq<Record>, name: string): (r: Result<seq<Value>, Error>)
    ensures r.Ok? ==> |r.value| == |xs| && forall k :: 0 <= k < |xs| ==> name in xs[k].attrs && r.value[k] == xs[k].attrs[name]
  {
    if xs == [] then Ok([])
    else
      var v :- Attr(xs[0], name);
      var rest :- Column(xs[1..], name);
      assert forall k :: 1 <= k < |xs| ==> xs[1..][k - 1] == xs[k];
      Ok([v] + rest)
  }

  /** `bytes([x.name for x in xs])`. */
  function ColumnBytes(xs: seq<Record>, name: string): (r: Result<Bytes, Error>)
    ensures r.Ok? ==> |r.value| == |xs| && forall k :: 0 <= k < |xs| ==> name in xs[k].attrs && xs[k].attrs[name] == Int(r.value[k])
  {
    var vs :- Column(xs, name);
    var bs :- ToBytes(vs);
    assert Ints(bs) == vs;
    Ok(bs)
  }

  /** An `InterfaceInfo` with the interface count and the four columns. */
  function InterfaceInfoRecord(count: int, numbers: Bytes, classes: Bytes, subclasses: Bytes, protocols: Bytes): Record
  {
    Record(InterfaceInfo, map[
      "interface_count" := Int(count), "interface" := BytesValue(numbers), "interface_class" := BytesValue(classes),
      "interface_subclass" := BytesValue(subclasses), "interface_protocol" := BytesValue(protocols)])
  }

  /** An `InterfaceInfo` built the way `connect` builds it: the interfaces in
      `interface_number` order, their numbers and classes padded with 0xff,
      their subclasses and the column named `protocolColumn` padded with 0, up
      to 32 entries, and the count of interfaces; the four columns are read in
      that order. */
  function InterfaceInfoWith(intfs: seq<Record>, protocolColumn: string): Result<Record, Error>
  {
    var sorted :- SortedInterfaces(intfs);
    var numbers :- ColumnBytes(sorted, "interface_number");
    var classes :- ColumnBytes(sorted, "interface_class");
    var subclasses :- ColumnBytes(sorted, "interface_subclass");
    var protocols :- ColumnBytes(sorted, protocolColumn);
    Construct(InterfaceInfo, InterfaceInfoRecord(|intfs|, Ljust(numbers, 32, 0xff), Ljust(classes, 32, 0xff),
      Ljust(subclasses, 32, 0), Ljust(protocols, 32, 0)).attrs)
  }

  /** The `InterfaceInfo` that `connect` sends, as written: the protocol
      column is filled from `interface_class`, read a second time. */
  function InterfaceInfoAsWritten(intfs: seq<Record>): Result<Record, Error>
  {
    InterfaceInfoWith(intfs, "interface_class")
  }

  /** The `InterfaceInfo` evidently intended: the protocol column filled
      from `interface_protocol`. */
  function InterfaceInfoPacket(intfs: seq<Record>): Result<Record, Error>
  {
    InterfaceInfoWith(intfs, "interface_protocol")
  }

  /** The frame `connect` sends for the interface table. */
  function InterfaceInfoFrame(intfs: seq<Record>): Result<Bytes, Error>
  {
    var packet :- InterfaceInfoAsWritten(intfs);
    Frame(packet, Int(0))
  }

  /** The frame of the intended interface table. */
  function IntendedInterfaceInfoFrame(intfs: seq<Record>): Result<Bytes, Error>
  {
    var packet :- InterfaceInfoPacket(intfs);
    Frame(packet, Int(0))
  }

  lemma InterfaceInfoNames()
    ensures Names(AllFields(InterfaceInfo)) ==
      {"interface_count", "interface", "interface_class", "interface_subclass", "interface_protocol"}
  {
    var fs := InterfaceInfoFields;
    InterfaceInfoAll();
    InterfaceInfoHeads();
    var names := {"interface_count", "interface", "interface_class", "interface_subclass", "interface_protocol"};
    forall x | x in Names(fs) ensures x in names {
      var i :| 0 <= i < |fs| && fs[i].name == x;
    }
    assert fs[0].name in Names(fs) && fs[1].name in Names(fs) && fs[2].name in Names(fs);
    assert fs[3].name in Names(fs) && fs[4].name in Names(fs);
    assert names <= Names(fs);
  }

  lemma InterfaceInfoHeads()
    ensures |InterfaceInfoFields| == 5
    ensures InterfaceInfoFields[0].name == "interface_count" && InterfaceInfoFields[1].name == "interface"
    ensures InterfaceInfoFields[2].name == "interface_class" && InterfaceInfoFields[3].name == "interface_subclass"
    ensures InterfaceInfoFields[4].name == "interface_protocol"
  {
  }

  lemma InterfaceInfoAll()
    ensures AllFields(InterfaceInfo) == InterfaceInfoFields
  {
    InterfaceInfoLayout();
    assert InterfaceInfoFields + [] == InterfaceInfoFields;
  }

  lemma InterfaceInfoBuilt(count: int, numbers: Bytes, classes: Bytes, subclasses: Bytes, protocols: Bytes)
    ensures var rr := InterfaceInfoRecord(count, numbers, classes, subclasses, protocols);
      Construct(InterfaceInfo, rr.attrs) == Ok(rr)
  {
    InterfaceInfoLayout();
    InterfaceInfoNames();
    ConstructAll(InterfaceInfo, InterfaceInfoRecord(count, numbers, classes, subclasses, protocols).attrs);
  }

  /** One step of the fixed-field loop of `serialize`. */
  lemma FlattenStep(rr: Record, fs: seq<Field>, head: seq<Value>, rest: seq<Value>)
    requires fs != [] && fs[0].name in rr.attrs && FlattenValue(rr.attrs[fs[0].name]) == Ok(head)
    requires FlattenFields(rr, fs[1..]) == Ok(rest)
    ensures FlattenFields(rr, fs) == Ok(head + rest)
  {
  }

  lemma InterfaceInfoPlain()
    ensures Fixed(InterfaceInfo) != [] && Trailers(InterfaceInfo) == []
  {
    InterfaceInfoLayout();
  }

  lemma InterfaceInfoShape()
    ensures Fixed(InterfaceInfo) == InterfaceInfoFields && Trailers(InterfaceInfo) == []
  {
    InterfaceInfoLayout();
  }

  lemma InterfaceInfoValues(count: int, numbers: Bytes, classes: Bytes, subclasses: Bytes, protocols: Bytes)
    ensures RawValues(InterfaceInfoRecord(count, numbers, classes, subclasses, protocols)) ==
      Ok([Int(count)] + Ints(numbers + classes + subclasses + protocols))
  {
    var rr := InterfaceInfoRecord(count, numbers, classes, subclasses, protocols);
    var fs := InterfaceInfoFields;
    InterfaceInfoShape();
    InterfaceInfoColumns(count, numbers, classes, subclasses, protocols);
    assert fs[5..] == [];
    FlattenStep(rr, fs[4..], Ints(protocols), []);
    assert Ints(protocols) + [] == Ints(protocols);
    FlattenStep(rr, fs[3..], Ints(subclasses), Ints(protocols));
    FlattenStep(rr, fs[2..], Ints(classes), Ints(subclasses) + Ints(protocols));
    FlattenStep(rr, fs[1..], Ints(numbers), Ints(classes) + (Ints(subclasses) + Ints(protocols)));
    FlattenStep(rr, fs, [Int(count)], Ints(numbers) + (Ints(classes) + (Ints(subclasses) + Ints(protocols))));
    IntsJoin(numbers, classes, subclasses, protocols);
  }

  lemma IntsJoin(a: Bytes, b: Bytes, c: Bytes, d: Bytes)
    ensures Ints(a) + (Ints(b) + (Ints(c) + Ints(d))) == Ints(a + b + c + d)
  {
    IntsAppend(a + b + c, d);
    IntsAppend(a + b, c);
    IntsAppend(a, b);
  }

  /** The fields of `InterfaceInfo` and the attributes they read. */
  lemma InterfaceInfoColumns(count: int, numbers: Bytes, classes: Bytes, subclasses: Bytes, protocols: Bytes)
    ensures var fs := InterfaceInfoFields; var m := InterfaceInfoRecord(count, numbers, classes, subclasses, protocols).attrs;
      && |fs| == 5 && fs[0].name in m && fs[1].name in m && fs[2].name in m && fs[3].name in m && fs[4].name in m
      && m[fs[0].name] == Int(count) && m[fs[1].name] == BytesValue(numbers) && m[fs[2].name] == BytesValue(classes)
      && m[fs[3].name] == BytesValue(subclasses) && m[fs[4].name] == BytesValue(protocols)
  {
    InterfaceInfoHeads();
    assert "interface_subclass"[10] != "interface_protocol"[10];
  }

  lemma InterfaceInfoFormat()
    ensures Format(InterfaceInfo) == [U32] + Repeat([U8], 128)
  {
    var fs := InterfaceInfoFields;
    InterfaceInfoShape();
    FormatFromIsJoin(InterfaceInfo, fs);
    InterfaceInfoArrays();
    ByteArraysFormat(fs[1..]);
    assert FormatFrom(fs) == [U32] + FormatFrom(fs[1..]);
  }

  lemma InterfaceInfoArrays()
    ensures |InterfaceInfoFields| == 5 && InterfaceInfoFields[0].ty == Primitive(U32)
    ensures forall k :: 1 <= k < 5 ==> InterfaceInfoFields[k].ty == ArrayOf(PrimElem(U8), 32)
  {
  }

  /** A run of 32-byte arrays has one `B` code per byte. */
  lemma {:induction false} ByteArraysFormat(fs: seq<Field>)
    requires forall k :: 0 <= k < |fs| ==> fs[k].ty == ArrayOf(PrimElem(U8), 32)
    ensures FormatFrom(fs) == Repeat([U8], 32 * |fs|)
  {
    if fs != [] {
      ByteArraysFormat(fs[1..]);
      RepeatJoin(U8, 32, 32 * (|fs| - 1));
    }
  }

  lemma InterfaceInfoPrefix(count: int, bs: Bytes)
    ensures Pack(Format(InterfaceInfo), [Int(count)] + Ints(bs)) ==
      if InRange(U32, count) && |bs| == 128 then Ok(Word(count) + bs) else Err(PackError)
  {
    InterfaceInfoFormat();
    PackCountAndBytes(count, bs, 128);
  }

  /** A u32 as struct packs it: four little-endian bytes. */
  function Word(n: int): (r: Bytes)
    requires InRange(U32, n)
    ensures |r| == 4
  {
    EncodeUInt(n, 4)
  }

  /** A u32 followed by bytes packs to its four little-endian bytes and those
      bytes, when the count of codes matches and the u32 is in range. */
  lemma PackCountAndBytes(count: int, bs: Bytes, n: nat)
    ensures Pack([U32] + Repeat([U8], n), [Int(count)] + Ints(bs)) ==
      if InRange(U32, count) && |bs| == n then Ok(Word(count) + bs) else Err(PackError)
  {
    var fmt := [U32] + Repeat([U8], n);
    var xs := [count] + bs;
    assert Ints(xs) == [Int(count)] + Ints(bs);
    RepeatOne(U8, n);
    if InRange(U32, count) && |bs| == n {
      PackBytes(bs);
      assert fmt[1..] == Repeat([U8], |bs|) && xs[1..] == bs;
      assert Fits(fmt, xs) by {
        forall i | 0 <= i < |fmt| ensures InRange(fmt[i], xs[i]) {
          if i > 0 { assert fmt[i] == Repeat([U8], |bs|)[i - 1]; }
        }
      }
      PackOfInts(fmt, xs);
    } else if |xs| != |fmt| {
      PackUnfit(fmt, xs);
    } else {
      assert !InRange(fmt[0], xs[0]);
      PackUnfit(fmt, xs);
    }
  }

  /** An `InterfaceInfo` with padded columns serializes to the count as a
      little-endian u32 and the four columns, when none of them was longer
      than 32 and the count fits 32 bits; otherwise struct.error. */
  lemma InterfaceInfoEncoding(count: int, numbers: Bytes, classes: Bytes, subclasses: Bytes, protocols: Bytes)
    requires |numbers| >= 32 && |classes| >= 32 && |subclasses| >= 32 && |protocols| >= 32
    ensures Encode(InterfaceInfoRecord(count, numbers, classes, subclasses, protocols)) ==
      if InRange(U32, count) && |numbers| == |classes| == |subclasses| == |protocols| == 32
      then Ok(Word(count) + numbers + classes + subclasses + protocols)
      else Err(PackError)
  {
    var bs := numbers + classes + subclasses + protocols;
    InterfaceInfoPacked(count, numbers, classes, subclasses, protocols);
    InterfaceInfoPrefix(count, bs);
    assert |bs| == |numbers| + |classes| + |subclasses| + |protocols|;
    if InRange(U32, count) && |bs| == 128 {
      assert |numbers| == |classes| == |subclasses| == |protocols| == 32;
      ConcatFive(Word(count), numbers, classes, subclasses, protocols);
    } else {
      assert !(InRange(U32, count) && |numbers| == |classes| == |subclasses| == |protocols| == 32);
    }
  }

  lemma ConcatFour(w: Bytes, a: Bytes, b: Bytes, c: Bytes)
    ensures w + (a + b + c) == w + a + b + c
  {
  }

  lemma ConcatFive(w: Bytes, a: Bytes, b: Bytes, c: Bytes, d: Bytes)
    ensures w + (a + b + c + d) == w + a + b + c + d
  {
  }

  lemma InterfaceInfoPacked(count: int, numbers: Bytes, classes: Bytes, subclasses: Bytes, protocols: Bytes)
    ensures Encode(InterfaceInfoRecord(count, numbers, classes, subclasses, protocols)) ==
      Pack(Format(InterfaceInfo), [Int(count)] + Ints(numbers + classes + subclasses + protocols))
  {
    var bs := numbers + classes + subclasses + protocols;
    InterfaceInfoPlain();
    InterfaceInfoValues(count, numbers, classes, subclasses, protocols);
    PackedOnly(InterfaceInfoRecord(count, numbers, classes, subclasses, protocols), [Int(count)] + Ints(bs));
  }

  /** The frame of an `InterfaceInfo` with padded columns. */
  lemma InterfaceInfoFrameOf(count: int, numbers: Bytes, classes: Bytes, subclasses: Bytes, protocols: Bytes)
    requires |numbers| >= 32 && |classes| >= 32 && |subclasses| >= 32 && |protocols| >= 32
    ensures Frame(InterfaceInfoRecord(count, numbers, classes, subclasses, protocols), Int(0)) ==
      if InRange(U32, count) && |numbers| == |classes| == |subclasses| == |protocols| == 32
      then Ok(HeaderBytes(4, 132, 0) + Word(count) + numbers + classes + subclasses + protocols)
      else Err(PackError)
  {
    var rr := InterfaceInfoRecord(count, numbers, classes, subclasses, protocols);
    InterfaceInfoEncoding(count, numbers, classes, subclasses, protocols);
    if InRange(U32, count) && |numbers| == |classes| == |subclasses| == |protocols| == 32 {
      var w := Word(count);
      InterfaceInfoFramed(rr, w + numbers + classes + subclasses + protocols);
      ConcatSix(HeaderBytes(4, 132, 0), w, numbers, classes, subclasses, protocols);
    } else {
      FrameBytes(rr, 0);
    }
  }

  lemma InterfaceInfoFramed(rr: Record, data: Bytes)
    requires rr.schema == InterfaceInfo && Encode(rr) == Ok(data) && |data| == 132
    ensures Frame(rr, Int(0)) == Ok(HeaderBytes(4, 132, 0) + data)
  {
    FrameOf(rr, 0, data, 4);
  }

  lemma ConcatSix(h: Bytes, w: Bytes, a: Bytes, b: Bytes, c: Bytes, d: Bytes)
    ensures h + (w + a + b + c + d) == h + w + a + b + c + d
  {
  }

  /** A 32-entry column of the listing: entry `k` is attribute `name` of
      interface `k`, for each interface listed, and `fill` after them. */
  predicate ColumnOf(col: Bytes, xs: seq<Record>, name: string, fill: int)
  {
    && |col| == 32
    && forall k :: 0 <= k < 32 ==>
         if k < |xs| then name in xs[k].attrs && xs[k].attrs[name] == Int(col[k]) else col[k] == fill
  }

  lemma ColumnPadded(xs: seq<Record>, name: string, fill: byte)
    requires ColumnBytes(xs, name).Ok? && |xs| <= 32
    ensures ColumnOf(Ljust(ColumnBytes(xs, name).value, 32, fill), xs, name, fill)
  {
  }

  /** Slices of a frame made of a header, a u32 and four 32-byte columns. */
  lemma ListingSlices(h: Bytes, w: Bytes, a: Bytes, b: Bytes, c: Bytes, d: Bytes)
    requires |h| == 12 && |w| == 4 && |a| == 32 && |b| == 32 && |c| == 32 && |d| == 32
    ensures var f := h + w + a + b + c + d;
      && |f| == 144 && f[..12] == h && f[12..16] == w
      && f[16..48] == a && f[48..80] == b && f[80..112] == c && f[112..] == d
  {
    var f := h + w + a + b + c + d;
    assert f[..12] == h;
    assert f[12..16] == w;
    assert f[16..48] == a;
    assert f[48..80] == b;
    assert f[80..112] == c;
    assert f[112..] == d;
  }

  /** The bytes of an interface table built with `protocolColumn`: a header
      for a packet of type 4 and 132 bytes with id 0, the number of interfaces
      as a u32, then the numbers, classes, subclasses and `protocolColumn`
      values of the interfaces in `interface_number` order, padded to 32
      entries. More than 32 interfaces fail with struct.error. */
  lemma InterfaceInfoListingWith(intfs: seq<Record>, protocolColumn: string, f: Result<Bytes, Error>)
    requires InterfaceInfoWith(intfs, protocolColumn).Ok?
    requires f == Frame(InterfaceInfoWith(intfs, protocolColumn).value, Int(0))
    ensures SortedInterfaces(intfs).Ok?
    ensures f.Ok? <==> |intfs| <= 32
    ensures f.Ok? ==>
      var sorted := SortedInterfaces(intfs).value;
      && |f.value| == 144 && f.value[..12] == HeaderBytes(4, 132, 0) && InRange(U32, |intfs|) && f.value[12..16] == Word(|intfs|)
      && ColumnOf(f.value[16..48], sorted, "interface_number", 0xff)
      && ColumnOf(f.value[48..80], sorted, "interface_class", 0xff)
      && ColumnOf(f.value[80..112], sorted, "interface_subclass", 0)
      && ColumnOf(f.value[112..], sorted, protocolColumn, 0)
  {
    var sorted := SortedInterfaces(intfs).value;
    var numbers := ColumnBytes(sorted, "interface_number").value;
    var classes := ColumnBytes(sorted, "interface_class").value;
    var subclasses := ColumnBytes(sorted, "interface_subclass").value;
    var protocols := ColumnBytes(sorted, protocolColumn).value;
    var a, b, c, d := Ljust(numbers, 32, 0xff), Ljust(classes, 32, 0xff), Ljust(subclasses, 32, 0), Ljust(protocols, 32, 0);
    InterfaceInfoBuilt(|intfs|, a, b, c, d);
    assert InterfaceInfoWith(intfs, protocolColumn) == Ok(InterfaceInfoRecord(|intfs|, a, b, c, d));
    InterfaceInfoFrameOf(|intfs|, a, b, c, d);
    if |intfs| <= 32 {
      ColumnPadded(sorted, "interface_number", 0xff);
      ColumnPadded(sorted, "interface_class", 0xff);
      ColumnPadded(sorted, "interface_subclass", 0);
      ColumnPadded(sorted, protocolColumn, 0);
      ListingSlices(HeaderBytes(4, 132, 0), Word(|intfs|), a, b, c, d);
    }
  }

  /** The listing frame `connect` sends: after the count, the numbers,
      classes and subclasses of the interfaces in `interface_number` order,
      and then their classes once more, in the protocol column. */
  lemma InterfaceInfoListing(intfs: seq<Record>)
    requires InterfaceInfoAsWritten(intfs).Ok?
    ensures SortedInterfaces(intfs).Ok?
    ensures InterfaceInfoFrame(intfs).Ok? <==> |intfs| <= 32
    ensures InterfaceInfoFrame(intfs).Ok? ==>
      var f := InterfaceInfoFrame(intfs).value; var sorted := SortedInterfaces(intfs).value;
      && |f| == 144 && f[..12] == HeaderBytes(4, 132, 0) && InRange(U32, |intfs|) && f[12..16] == Word(|intfs|)
      && ColumnOf(f[16..48], sorted, "interface_number", 0xff)
      && ColumnOf(f[48..80], sorted, "interface_class", 0xff)
      && ColumnOf(f[80..112], sorted, "interface_subclass", 0)
      && ColumnOf(f[112..], sorted, "interface_class", 0)
  {
    InterfaceInfoListingWith(intfs, "interface_class", InterfaceInfoFrame(intfs));
  }

  /** The intended listing: the protocol column holds the interfaces'
      `interface_protocol` values. */
  lemma IntendedInterfaceListing(intfs: seq<Record>)
    requires InterfaceInfoPacket(intfs).Ok?
    ensures SortedInterfaces(intfs).Ok?
    ensures IntendedInterfaceInfoFrame(intfs).Ok? <==> |intfs| <= 32
    ensures IntendedInterfaceInfoFrame(intfs).Ok? ==>
      var f := IntendedInterfaceInfoFrame(intfs).value; var sorted := SortedInterfaces(intfs).value;
      && |f| == 144 && f[..12] == HeaderBytes(4, 132, 0) && InRange(U32, |intfs|) && f[12..16] == Word(|intfs|)
      && ColumnOf(f[16..48], sorted, "interface_number", 0xff)
      && ColumnOf(f[48..80], sorted, "interface_class", 0xff)
      && ColumnOf(f[80..112], sorted, "interface_subclass", 0)
      && ColumnOf(f[112..], sorted, "interface_protocol", 0)
  {
    InterfaceInfoListingWith(intfs, "interface_protocol", IntendedInterfaceInfoFrame(intfs));
  }

  // ------------------------------------------------------------ the protocol column as written

  /** An interface of class 2 (communications), subclass 2 and protocol 1,
      the kind a CDC ACM device declares. */
  function AcmInterface(): Record
  {
    Record(InterfaceDescriptor, map[
      "interface_number" := Int(0), "interface_class" := Int(2), "interface_subclass" := Int(2),
      "interface_protocol" := Int(1)])
  }

  lemma OneColumn(x: Record, name: string)
    requires name in x.attrs && x.attrs[name].Int? && 0 <= x.attrs[name].n < 0x100
    ensures ColumnBytes([x], name) == Ok([x.attrs[name].n as byte])
  {
    var v := x.attrs[name];
    assert [x][1..] == [];
    assert [v] + [] == [v];
    assert Column([x], name) == Ok([v]);
    assert [v][1..] == [];
    assert ToBytes([v]) == Ok([v.n as byte] + []);
    assert [v.n as byte] + [] == [v.n as byte];
  }

  lemma OneSorted(x: Record)
    requires Keyed(x)
    ensures SortedInterfaces([x]) == Ok([x])
  {
    assert Sort([x]) == Insert(x, []) == [x];
  }

  /** As written, the listing of that interface announces protocol 2 (its
      class) where the interface declares protocol 1; the corrected packet
      announces 1. */
  lemma ProtocolColumnAsWritten()
    ensures AcmInterface().attrs["interface_class"] == Int(2) && AcmInterface().attrs["interface_protocol"] == Int(1)
    ensures InterfaceInfoAsWritten([AcmInterface()]) ==
      Ok(InterfaceInfoRecord(1, Ljust([0], 32, 0xff), Ljust([2], 32, 0xff), Ljust([2], 32, 0), Ljust([2], 32, 0)))
    ensures InterfaceInfoPacket([AcmInterface()]) ==
      Ok(InterfaceInfoRecord(1, Ljust([0], 32, 0xff), Ljust([2], 32, 0xff), Ljust([2], 32, 0), Ljust([1], 32, 0)))
  {
    var x := AcmInterface();
    OneSorted(x);
    OneColumn(x, "interface_number");
    OneColumn(x, "interface_class");
    OneColumn(x, "interface_subclass");
    OneColumn(x, "interface_protocol");
    InterfaceInfoBuilt(1, Ljust([0], 32, 0xff), Ljust([2], 32, 0xff), Ljust([2], 32, 0), Ljust([2], 32, 0));
    InterfaceInfoBuilt(1, Ljust([0], 32, 0xff), Ljust([2], 32, 0xff), Ljust([2], 32, 0), Ljust([1], 32, 0));
  }

  // ------------------------------------------------------------ the DeviceConnect packet

  /** A `DeviceConnect` at full speed with the given identity attributes. */
  function DeviceConnectRecord(deviceClass: Value, deviceSubclass: Value, deviceProtocol: Value, vendor: Value, product: Value): Record
  {
    Record(DeviceConnect, map[
      "speed" := Int(DeviceSpeed), "device_class" := deviceClass, "device_subclass" := deviceSubclass,
      "device_protocol" := deviceProtocol, "vendor_id" := vendor, "product_id" := product])
  }

  /** The `DeviceConnect` that `connect` sends: the server's speed and the
      class, subclass, protocol, vendor and product of the device descriptor,
      read in that order. */
  function DeviceConnectPacket(dev: Record): Result<Record, Error>
  {
    var deviceClass :- Attr(dev, "device_class");
    var deviceSubclass :- Attr(dev, "device_subclass");
    var deviceProtocol :- Attr(dev, "device_protocol");
    var vendor :- Attr(dev, "id_vendor");
    var product :- Attr(dev, "id_product");
    Construct(DeviceConnect, DeviceConnectRecord(deviceClass, deviceSubclass, deviceProtocol, vendor, product).attrs)
  }

  function DeviceConnectFrame(dev: Record): Result<Bytes, Error>
  {
    var packet :- DeviceConnectPacket(dev);
    Frame(packet, Int(0))
  }

  /** A u16 as struct packs it: two little-endian bytes. */
  function Half(n: int): (r: Bytes)
    requires InRange(U16, n)
    ensures |r| == 2
  {
    EncodeUInt(n, 2)
  }

  lemma DeviceConnectHeads()
    ensures |DeviceConnectFields| == 6
    ensures DeviceConnectFields[0].name == "speed" && DeviceConnectFields[1].name == "device_class"
    ensures DeviceConnectFields[2].name == "device_subclass" && DeviceConnectFields[3].name == "device_protocol"
    ensures DeviceConnectFields[4].name == "vendor_id" && DeviceConnectFields[5].name == "product_id"
  {
  }

  lemma DeviceConnectNames()
    ensures Names(AllFields(DeviceConnect)) ==
      {"speed", "device_class", "device_subclass", "device_protocol", "vendor_id", "product_id"}
  {
    var fs := DeviceConnectFields;
    DeviceConnectAll();
    DeviceConnectHeads();
    var names := {"speed", "device_class", "device_subclass", "device_protocol", "vendor_id", "product_id"};
    forall x | x in Names(fs) ensures x in names {
      var i :| 0 <= i < |fs| && fs[i].name == x;
    }
    assert fs[0].name in Names(fs) && fs[1].name in Names(fs) && fs[2].name in Names(fs);
    assert fs[3].name in Names(fs) && fs[4].name in Names(fs) && fs[5].name in Names(fs);
    assert names <= Names(fs);
  }

  lemma DeviceConnectAll()
    ensures AllFields(DeviceConnect) == DeviceConnectFields
  {
    DeviceConnectLayout();
    assert DeviceConnectFields + [] == DeviceConnectFields;
  }

  lemma DeviceConnectBuilt(deviceClass: Value, deviceSubclass: Value, deviceProtocol: Value, vendor: Value, product: Value)
    ensures var rr := DeviceConnectRecord(deviceClass, deviceSubclass, deviceProtocol, vendor, product);
      Construct(DeviceConnect, rr.attrs) == Ok(rr)
  {
    DeviceConnectLayout();
    DeviceConnectNames();
    ConstructAll(DeviceConnect, DeviceConnectRecord(deviceClass, deviceSubclass, deviceProtocol, vendor, product).attrs);
  }

  /** The fields of `DeviceConnect` and the attributes they read. */
  lemma DeviceConnectColumns(c: int, sc: int, p: int, v: int, pr: int)
    ensures var fs := DeviceConnectFields; var m := DeviceConnectRecord(Int(c), Int(sc), Int(p), Int(v), Int(pr)).attrs;
      var xs := [DeviceSpeed, c, sc, p, v, pr];
      && |fs| == 6 && forall k :: 0 <= k < 6 ==> fs[k].name in m && m[fs[k].name] == Int(xs[k])
  {
    DeviceConnectHeads();
    assert "device_subclass"[7] != "device_protocol"[7];
  }

  lemma DeviceConnectValues(c: int, sc: int, p: int, v: int, pr: int)
    ensures RawValues(DeviceConnectRecord(Int(c), Int(sc), Int(p), Int(v), Int(pr))) ==
      Ok(Ints([DeviceSpeed, c, sc, p, v, pr]))
  {
    var rr := DeviceConnectRecord(Int(c), Int(sc), Int(p), Int(v), Int(pr));
    var fs := DeviceConnectFields;
    var xs := [DeviceSpeed, c, sc, p, v, pr];
    DeviceConnectFixed();
    DeviceConnectColumns(c, sc, p, v, pr);
    forall f | f in fs ensures f.name in rr.attrs && rr.attrs[f.name].Int? {
      var k :| 0 <= k < |fs| && fs[k] == f;
    }
    FlattenScalars(rr, fs);
    assert ScalarValues(rr, fs) == Ints(xs);
  }

  lemma DeviceConnectFixed()
    ensures Fixed(DeviceConnect) == DeviceConnectFields && Trailers(DeviceConnect) == []
  {
    DeviceConnectLayout();
  }

  lemma DeviceConnectFormat()
    ensures Format(DeviceConnect) == [U8, U8, U8, U8, U16, U16]
  {
    DeviceConnectFixed();
    FormatFromIsJoin(DeviceConnect, DeviceConnectFields);
  }

  /** Four `B` and two `H` codes: the four bytes and the two u16s little-endian. */
  lemma PackIdentity(xs: seq<int>)
    requires |xs| == 6
    ensures Pack([U8, U8, U8, U8, U16, U16], Ints(xs)) ==
      if (forall k :: 0 <= k < 4 ==> 0 <= xs[k] < 0x100) && InRange(U16, xs[4]) && InRange(U16, xs[5])
      then Ok([xs[0] as byte, xs[1] as byte, xs[2] as byte, xs[3] as byte] + Half(xs[4]) + Half(xs[5]))
      else Err(PackError)
  {
    var fmt := [U8, U8, U8, U8, U16, U16];
    if (forall k :: 0 <= k < 4 ==> 0 <= xs[k] < 0x100) && InRange(U16, xs[4]) && InRange(U16, xs[5]) {
      assert Fits(fmt, xs) by {
        forall k | 0 <= k < 6 ensures InRange(fmt[k], xs[k]) {
          if k < 4 { assert fmt[k] == U8; }
        }
      }
      PackOfInts(fmt, xs);
      PackBytesSix(fmt, xs);
    } else {
      if exists k :: 0 <= k < 4 && !(0 <= xs[k] < 0x100) {
        var k :| 0 <= k < 4 && !(0 <= xs[k] < 0x100);
        assert !InRange(fmt[k], xs[k]);
      } else if !InRange(U16, xs[4]) {
        assert !InRange(fmt[4], xs[4]);
      } else {
        assert !InRange(fmt[5], xs[5]);
      }
      PackUnfit(fmt, xs);
    }
  }

  lemma PackBytesSix(fmt: seq<Prim>, xs: seq<int>)
    requires fmt == [U8, U8, U8, U8, U16, U16] && |xs| == 6 && Fits(fmt, xs)
    ensures PackInts(fmt, xs) == [xs[0] as byte, xs[1] as byte, xs[2] as byte, xs[3] as byte] + Half(xs[4]) + Half(xs[5])
  {
    var tail := PackHalves(xs[4..]);
    assert xs[4..][0] == xs[4] && xs[4..][1] == xs[5];
    var bytes := [xs[0] as byte, xs[1] as byte, xs[2] as byte, xs[3] as byte];
    PackFourBytes(xs[..4]);
    PackIntsAppend([U8, U8, U8, U8], [U16, U16], xs[..4], xs[4..]);
    assert xs[..4] + xs[4..] == xs;
    assert [U8, U8, U8, U8] + [U16, U16] == fmt;
  }

  lemma PackHalves(xs: seq<int>) returns (p: Bytes)
    requires |xs| == 2 && InRange(U16, xs[0]) && InRange(U16, xs[1])
    ensures Fits([U16, U16], xs) && p == PackInts([U16, U16], xs) && p == Half(xs[0]) + Half(xs[1])
  {
    assert [U16, U16][1..] == [U16] && xs[1..] == [xs[1]] && [U16][1..] == [];
    assert PackInts([U16], [xs[1]]) == Half(xs[1]) + [];
    p := PackInts([U16, U16], xs);
  }

  lemma PackFourBytes(xs: seq<int>)
    requires |xs| == 4 && forall k :: 0 <= k < 4 ==> 0 <= xs[k] < 0x100
    ensures Fits([U8, U8, U8, U8], xs)
    ensures PackInts([U8, U8, U8, U8], xs) == [xs[0] as byte, xs[1] as byte, xs[2] as byte, xs[3] as byte]
  {
    var f := [U8, U8, U8, U8];
    assert f[1..] == [U8, U8, U8] && f[2..] == [U8, U8] && f[3..] == [U8] && f[4..] == [];
    assert xs[1..][1..] == xs[2..] && xs[2..][1..] == xs[3..] && xs[3..][1..] == xs[4..];
    OneByte(xs[0]);
    OneByte(xs[1]);
    OneByte(xs[2]);
    OneByte(xs[3]);
    assert PackInts(f[3..], xs[3..]) == [xs[3] as byte];
    assert PackInts(f[2..], xs[2..]) == [xs[2] as byte, xs[3] as byte];
    assert PackInts(f[1..], xs[1..]) == [xs[1] as byte, xs[2] as byte, xs[3] as byte];
  }

  lemma OneByte(x: int)
    requires 0 <= x < 0x100
    ensures EncodeUInt(x, 1) == [x as byte]
  {
  }

  lemma DeviceConnectPlain()
    ensures Fixed(DeviceConnect) != [] && Trailers(DeviceConnect) == []
  {
    DeviceConnectLayout();
  }

  lemma DeviceConnectPrefix(xs: seq<int>)
    requires |xs| == 6
    ensures Pack(Format(DeviceConnect), Ints(xs)) ==
      if (forall k :: 0 <= k < 4 ==> 0 <= xs[k] < 0x100) && InRange(U16, xs[4]) && InRange(U16, xs[5])
      then Ok([xs[0] as byte, xs[1] as byte, xs[2] as byte, xs[3] as byte] + Half(xs[4]) + Half(xs[5]))
      else Err(PackError)
  {
    DeviceConnectFormat();
    PackIdentity(xs);
  }

  /** Identity attributes that fit their fields: the speed byte, the class,
      subclass and protocol bytes, then vendor and product as little-endian
      u16s; otherwise struct.error. */
  lemma DeviceConnectEncoding(c: int, sc: int, p: int, v: int, pr: int)
    ensures Encode(DeviceConnectRecord(Int(c), Int(sc), Int(p), Int(v), Int(pr))) ==
      if 0 <= c < 0x100 && 0 <= sc < 0x100 && 0 <= p < 0x100 && InRange(U16, v) && InRange(U16, pr)
      then Ok([DeviceSpeed as byte, c as byte, sc as byte, p as byte] + Half(v) + Half(pr))
      else Err(PackError)
  {
    var xs := [DeviceSpeed, c, sc, p, v, pr];
    DeviceConnectPacked(c, sc, p, v, pr);
    DeviceConnectPrefix(xs);
    assert (forall k :: 0 <= k < 4 ==> 0 <= xs[k] < 0x100) <==> 0 <= c < 0x100 && 0 <= sc < 0x100 && 0 <= p < 0x100 by {
      assert xs[0] == DeviceSpeed && xs[1] == c && xs[2] == sc && xs[3] == p;
    }
  }

  lemma DeviceConnectPacked(c: int, sc: int, p: int, v: int, pr: int)
    ensures Encode(DeviceConnectRecord(Int(c), Int(sc), Int(p), Int(v), Int(pr))) ==
      Pack(Format(DeviceConnect), Ints([DeviceSpeed, c, sc, p, v, pr]))
  {
    DeviceConnectPlain();
    DeviceConnectValues(c, sc, p, v, pr);
    PackedOnly(DeviceConnectRecord(Int(c), Int(sc), Int(p), Int(v), Int(pr)), Ints([DeviceSpeed, c, sc, p, v, pr]));
  }

  /** The identity attributes `connect` reads are integers of their widths. */
  predicate IdentityFits(d: Record)
  {
    && "device_class" in d.attrs && d.attrs["device_class"].Int? && 0 <= d.attrs["device_class"].n < 0x100
    && "device_subclass" in d.attrs && d.attrs["device_subclass"].Int? && 0 <= d.attrs["device_subclass"].n < 0x100
    && "device_protocol" in d.attrs && d.attrs["device_protocol"].Int? && 0 <= d.attrs["device_protocol"].n < 0x100
    && "id_vendor" in d.attrs && d.attrs["id_vendor"].Int? && InRange(U16, d.attrs["id_vendor"].n)
    && "id_product" in d.attrs && d.attrs["id_product"].Int? && InRange(U16, d.attrs["id_product"].n)
  }

  /** A device descriptor with attributes of the declared shapes has the
      identity attributes `connect` needs. */
  lemma DeviceIdentity(d: Record)
    requires d.schema == DeviceDescriptor && Shaped(d)
    ensures IdentityFits(d)
  {
    DeviceIdentityFields();
    var fs := Fixed(DeviceDescriptor);
    assert fs[3] in fs && fs[4] in fs && fs[5] in fs && fs[7] in fs && fs[8] in fs;
  }

  lemma DeviceIdentityFields()
    ensures var fs := Fixed(DeviceDescriptor);
      && |fs| > 8 && fs[3] == Scalar("device_class", U8) && fs[4] == Scalar("device_subclass", U8)
      && fs[5] == Scalar("device_protocol", U8) && fs[7] == Scalar("id_vendor", U16) && fs[8] == Scalar("id_product", U16)
  {
    DeviceLayout();
    DeviceIdentityHeads();
  }

  lemma DeviceIdentityHeads()
    ensures |DeviceFields| > 8 && DeviceFields[3] == Scalar("device_class", U8) && DeviceFields[4] == Scalar("device_subclass", U8)
    ensures DeviceFields[5] == Scalar("device_protocol", U8) && DeviceFields[7] == Scalar("id_vendor", U16)
    ensures DeviceFields[8] == Scalar("id_product", U16)
  {
  }

  /** The frame `connect` sends last, for a device descriptor with attributes
      of the declared shapes: a header for a packet of type 1 and 8 bytes with
      id 0, full speed, the class, subclass and protocol, then the vendor and
      product ids little-endian. */
  lemma DeviceConnectFrameBytes(d: Record)
    requires d.schema == DeviceDescriptor && Shaped(d)
    ensures IdentityFits(d)
    ensures DeviceConnectFrame(d) ==
      Ok(HeaderBytes(1, 8, 0) + [SpeedFull as byte, d.attrs["device_class"].n as byte, d.attrs["device_subclass"].n as byte,
        d.attrs["device_protocol"].n as byte] + Half(d.attrs["id_vendor"].n) + Half(d.attrs["id_product"].n))
  {
    DeviceIdentity(d);
    IdentityFrame(d);
  }

  lemma IdentityFrame(d: Record)
    requires IdentityFits(d)
    ensures DeviceConnectFrame(d) ==
      Ok(HeaderBytes(1, 8, 0) + [SpeedFull as byte, d.attrs["device_class"].n as byte, d.attrs["device_subclass"].n as byte,
        d.attrs["device_protocol"].n as byte] + Half(d.attrs["id_vendor"].n) + Half(d.attrs["id_product"].n))
  {
    var c, sc, p := d.attrs["device_class"].n, d.attrs["device_subclass"].n, d.attrs["device_protocol"].n;
    var v, pr := d.attrs["id_vendor"].n, d.attrs["id_product"].n;
    DeviceConnectBuilt(Int(c), Int(sc), Int(p), Int(v), Int(pr));
    DeviceConnectFramed(c, sc, p, v, pr);
  }

  lemma DeviceConnectFramed(c: int, sc: int, p: int, v: int, pr: int)
    requires 0 <= c < 0x100 && 0 <= sc < 0x100 && 0 <= p < 0x100 && InRange(U16, v) && InRange(U16, pr)
    ensures Frame(DeviceConnectRecord(Int(c), Int(sc), Int(p), Int(v), Int(pr)), Int(0)) ==
      Ok(HeaderBytes(1, 8, 0) + [SpeedFull as byte, c as byte, sc as byte, p as byte] + Half(v) + Half(pr))
  {
    var header := HeaderBytes(1, 8, 0);
    var rr := DeviceConnectRecord(Int(c), Int(sc), Int(p), Int(v), Int(pr));
    var l := [SpeedFull as byte, c as byte, sc as byte, p as byte];
    var hv, hp := Half(v), Half(pr);
    DeviceConnectEncoding(c, sc, p, v, pr);
    assert Encode(rr) == Ok(l + hv + hp);
    assert |l + hv + hp| == 8;
    FrameOf(rr, 0, l + hv + hp, 1);
    ConcatFour(header, l, hv, hp);
  }

}
