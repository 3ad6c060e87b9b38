/** Classes declared by the engine's test-suite (tests/test_serdes.py) and the
    bytes the suite expects for them, as lemmas about the model: a plain class
    of three integers, a class with one unbounded array, and a class with two. */
module Vectors {
  import opened Wrappers
  import opened Wire
  import opened Serdes
  import opened Records
  import opened Codec
  import opened CodecLaws
  import opened Layouts
  import opened Decoding

  // ------------------------------------------------------------ TestSimple.Packet

  const SimpleFields: seq<Field> := [Scalar("alpha", U8), Scalar("beta", U16), Scalar("gamma", U32)]
  const SimplePacket := Schema("Packet", None, SimpleFields)
  const SimpleKwargs := map["alpha" := Int(1), "beta" := Int(0x7700), "gamma" := Int(0x112233)]
  const SimpleBytes: Bytes := [0x01, 0x00, 0x77, 0x33, 0x22, 0x11, 0x00]

  /** Three fixed fields of 1, 2 and 4 bytes: `raw_length` is 7. */
  lemma SimpleLayout()
    ensures Compiled(SimplePacket) && Codable(SimplePacket)
    ensures Fixed(SimplePacket) == SimpleFields && Trailers(SimplePacket) == []
    ensures RawLength(SimplePacket) == 7
  {
    assert SimpleFields + [] == SimpleFields;
    Laid(SimplePacket, SimpleFields, [], 7);
  }

  lemma SimpleFormat()
    ensures Fixed(SimplePacket) == SimpleFields && Trailers(SimplePacket) == []
    ensures Format(SimplePacket) == [U8, U16, U32]
  {
    SimpleLayout();
    FormatFromIsJoin(SimplePacket, SimpleFields);
    assert FormatFrom(SimpleFields) == [U8] + ([U16] + ([U32] + []));
  }

  lemma SimpleNames()
    ensures Names(AllFields(SimplePacket)) == {"alpha", "beta", "gamma"}
  {
    SimpleLayout();
    assert AllFields(SimplePacket) == SimpleFields + [] == SimpleFields;
    NamesFromIsNames(SimpleFields);
  }

  /** `Packet(alpha=1, beta=0x7700, gamma=0x112233)` is built from its keywords
      and serializes, little-endian, to 01 | 00 77 | 33 22 11 00. */
  lemma SimpleSerialization()
    ensures Construct(SimplePacket, SimpleKwargs) == Ok(Record(SimplePacket, SimpleKwargs))
    ensures Encode(Record(SimplePacket, SimpleKwargs)) == Ok(SimpleBytes)
  {
    SimpleConstruct();
    SimpleEncode();
  }

  /** `derive(beta=123)` keeps `alpha` and `gamma` and replaces `beta`. */
  lemma SimpleDerivation()
    ensures Names(Fixed(SimplePacket)) <= SimpleKwargs.Keys
    ensures Derive(Record(SimplePacket, SimpleKwargs), map["beta" := Int(123)])
      == Ok(Record(SimplePacket, SimpleKwargs["beta" := Int(123)]))
  {
    SimpleLayout();
    SimpleNames();
    var r := Record(SimplePacket, SimpleKwargs);
    var m := SimpleKwargs["beta" := Int(123)];
    assert AllFields(SimplePacket) == Fixed(SimplePacket);
    assert Merged(r, map["beta" := Int(123)]) == m;
    ConstructAll(SimplePacket, m);
  }

  lemma SimpleConstruct()
    ensures Construct(SimplePacket, SimpleKwargs) == Ok(Record(SimplePacket, SimpleKwargs))
  {
    SimpleLayout();
    SimpleNames();
    ConstructAll(SimplePacket, SimpleKwargs);
  }

  lemma SimpleEncode()
    ensures Encode(Record(SimplePacket, SimpleKwargs)) == Ok(SimpleBytes)
  {
    SimpleFormat();
    SimpleValues();
    SimplePack();
    assert TrailerBytes(Record(SimplePacket, SimpleKwargs), []) == Ok([]);
    assert SimpleBytes + [] == SimpleBytes;
    assert !IsEmpty(SimplePacket);
    EncodeParts(Record(SimplePacket, SimpleKwargs), Ints([1, 0x7700, 0x112233]), SimpleBytes, []);
  }


  lemma SimpleValues()
    ensures RawValues(Record(SimplePacket, SimpleKwargs)) == Ok(Ints([1, 0x7700, 0x112233]))
  {
    var rr := Record(SimplePacket, SimpleKwargs);
    SimpleFormat();
    FlattenScalars(rr, SimpleFields);
    assert ScalarValues(rr, SimpleFields) == Ints([1, 0x7700, 0x112233]);
  }

  lemma SimpleShaped()
    ensures Shaped(Record(SimplePacket, SimpleKwargs))
  {
    SimpleFormat();
    SimpleNames();
    var rr := Record(SimplePacket, SimpleKwargs);
    forall f | f in SimpleFields ensures f.name in rr.attrs && ShapedFixed(f.ty, rr.attrs[f.name]) {
      assert f == SimpleFields[0] || f == SimpleFields[1] || f == SimpleFields[2];
    }
  }

  lemma SimplePack()
    ensures Pack([U8, U16, U32], Ints([1, 0x7700, 0x112233])) == Ok(SimpleBytes)
  {
    var fmt, xs := [U8, U16, U32], [1, 0x7700, 0x112233];
    assert Fits(fmt, xs);
    SimplePackInts();
    PackOfInts(fmt, xs);
  }

  lemma SimplePackInts()
    ensures PackInts([U8, U16, U32], [1, 0x7700, 0x112233]) == SimpleBytes
  {
    var fmt, xs := [U8, U16, U32], [1, 0x7700, 0x112233];
    SimpleWords();
    assert fmt[1..] == [U16, U32] && [U16, U32][1..] == [U32] && [U32][1..] == [];
    assert PackInts(fmt, xs) == EncodeUInt(1, 1) + (EncodeUInt(0x7700, 2) + (EncodeUInt(0x112233, 4) + []));
    assert [0x01] + ([0x00, 0x77] + ([0x33, 0x22, 0x11, 0x00] + [])) == SimpleBytes;
  }

  lemma SimpleWords()
    ensures EncodeUInt(1, 1) == [0x01]
    ensures EncodeUInt(0x7700, 2) == [0x00, 0x77]
    ensures EncodeUInt(0x112233, 4) == [0x33, 0x22, 0x11, 0x00]
  {
  }


  /** Those seven bytes read back as that record. */
  lemma SimpleUnserialization()
    ensures Decode(SimplePacket, SimpleBytes) == Ok(Record(SimplePacket, SimpleKwargs))
  {
    SimpleEncode();
    SimpleShaped();
    SimpleLayout();
    RoundTrip(Record(SimplePacket, SimpleKwargs));
  }

  // ------------------------------------------------------------ TestVariable.ArrayPacket

  const ArrayFixed: seq<Field> := [Scalar("one", U8), Scalar("two", U32)]
  const ArrayTrailer: seq<Field> := [Unbounded("arr", PrimElem(U16))]
  const ArrayPacket := Schema("ArrayPacket", None, ArrayFixed + ArrayTrailer)
  const ArrayKwargs := map["one" := Int(0x66), "two" := Int(0x3311),
                           "arr" := List([Int(1), Int(2), Int(3), Int(4), Int(5)])]
  const ArrayBytes: Bytes := [0x66, 0x11, 0x33, 0x00, 0x00,
                              0x01, 0x00, 0x02, 0x00, 0x03, 0x00, 0x04, 0x00, 0x05, 0x00]

  /** A u8 and a u32 before the array: `raw_length` is 5 and the class is
      variable, its one trailer being the array of u16. */
  lemma ArrayLayout()
    ensures Compiled(ArrayPacket) && Codable(ArrayPacket)
    ensures Fixed(ArrayPacket) == ArrayFixed && Trailers(ArrayPacket) == ArrayTrailer
    ensures RawLength(ArrayPacket) == 5 && IsVariable(ArrayTrailer[0].ty)
  {
    Laid(ArrayPacket, ArrayFixed, ArrayTrailer, 5);
  }

  lemma ArrayFormat()
    ensures Fixed(ArrayPacket) == ArrayFixed && Trailers(ArrayPacket) == ArrayTrailer
    ensures Format(ArrayPacket) == [U8, U32]
  {
    ArrayLayout();
    FormatFromIsJoin(ArrayPacket, ArrayFixed);
    assert FormatFrom(ArrayFixed) == [U8] + ([U32] + []);
  }

  lemma ArrayNames()
    ensures Names(AllFields(ArrayPacket)) == {"one", "two", "arr"}
  {
    ArrayLayout();
    NamesFromIsNames(ArrayFixed + ArrayTrailer);
  }

  /** `ArrayPacket(one=0x66, two=0x3311, arr=[1, 2, 3, 4, 5])` serializes to its
      five-byte prefix followed by the five u16 items. */
  lemma ArraySerialization()
    ensures Construct(ArrayPacket, ArrayKwargs) == Ok(Record(ArrayPacket, ArrayKwargs))
    ensures Encode(Record(ArrayPacket, ArrayKwargs)) == Ok(ArrayBytes)
  {
    ArrayConstruct();
    ArrayEncode();
  }

  lemma ArrayConstruct()
    ensures Construct(ArrayPacket, ArrayKwargs) == Ok(Record(ArrayPacket, ArrayKwargs))
  {
    ArrayLayout();
    ArrayNames();
    ConstructAll(ArrayPacket, ArrayKwargs);
  }

  lemma ArrayEncode()
    ensures Encode(Record(ArrayPacket, ArrayKwargs)) == Ok(ArrayBytes)
  {
    ArrayFormat();
    ArrayValues();
    ArrayPack();
    ArrayTrailerBytes();
    assert ArrayBytes == [0x66, 0x11, 0x33, 0x00, 0x00] + ArrayBytes[5..];
    assert !IsEmpty(ArrayPacket);
    EncodeParts(Record(ArrayPacket, ArrayKwargs), Ints([0x66, 0x3311]), [0x66, 0x11, 0x33, 0x00, 0x00], ArrayBytes[5..]);
  }


  lemma ArrayValues()
    ensures RawValues(Record(ArrayPacket, ArrayKwargs)) == Ok(Ints([0x66, 0x3311]))
  {
    ArrayFormat();
    var rr := Record(ArrayPacket, ArrayKwargs);
    FlattenScalars(rr, ArrayFixed);
    assert ScalarValues(rr, ArrayFixed) == Ints([0x66, 0x3311]);
  }

  lemma ArrayPack()
    ensures Pack([U8, U32], Ints([0x66, 0x3311])) == Ok([0x66, 0x11, 0x33, 0x00, 0x00])
  {
    var fmt, xs := [U8, U32], [0x66, 0x3311];
    assert Fits(fmt, xs);
    assert EncodeUInt(0x66, 1) == [0x66];
    assert EncodeUInt(0x3311, 4) == [0x11, 0x33, 0x00, 0x00];
    assert fmt[1..] == [U32] && [U32][1..] == [];
    assert PackInts(fmt, xs) == EncodeUInt(0x66, 1) + (EncodeUInt(0x3311, 4) + []);
    assert [0x66] + ([0x11, 0x33, 0x00, 0x00] + []) == [0x66, 0x11, 0x33, 0x00, 0x00];
    PackOfInts(fmt, xs);
  }

  lemma ArrayTrailerBytes()
    ensures TrailerBytes(Record(ArrayPacket, ArrayKwargs), ArrayTrailer) == Ok(ArrayBytes[5..])
  {
    ArrayTail();
    assert ArrayTrailer[1..] == [];
    assert ArrayBytes[5..] + [] == ArrayBytes[5..];
  }

  lemma ArrayTail()
    ensures VariableSerialize(PrimElem(U16), ArrayKwargs["arr"]) == Ok(ArrayBytes[5..])
  {
    var xs := [1, 2, 3, 4, 5];
    assert ArrayKwargs["arr"].items == Ints(xs);
    U16Items(xs);
    assert U16Bytes(xs) == ArrayBytes[5..];
  }

  lemma ArrayShaped()
    ensures Shaped(Record(ArrayPacket, ArrayKwargs))
  {
    ArrayFormat();
    ArrayNames();
    ArrayFixedShaped();
    ArrayTrailerShaped();
  }

  lemma ArrayFixedShaped()
    ensures forall f :: f in ArrayFixed ==> f.name in ArrayKwargs && ShapedFixed(f.ty, ArrayKwargs[f.name])
  {
    forall f | f in ArrayFixed ensures f.name in ArrayKwargs && ShapedFixed(f.ty, ArrayKwargs[f.name]) {
      assert f == ArrayFixed[0] || f == ArrayFixed[1];
    }
  }

  lemma ArrayTrailerShaped()
    ensures forall f :: f in ArrayTrailer ==> f.name in ArrayKwargs && ShapedTrailer(f.ty, ArrayKwargs[f.name])
  {
    ArrayItemsShaped();
    forall f | f in ArrayTrailer ensures f.name in ArrayKwargs && ShapedTrailer(f.ty, ArrayKwargs[f.name]) {
      assert f == ArrayTrailer[0];
    }
  }

  lemma ArrayItemsShaped()
    ensures ShapedTrailer(ArrayOf(PrimElem(U16), 0), ArrayKwargs["arr"])
  {
    var items := ArrayKwargs["arr"].items;
    forall i | 0 <= i < |items| ensures items[i].Int? && InRange(U16, items[i].n) {
      assert items[i] == Int(i + 1);
    }
  }

  /** Those fifteen bytes read back as that record: `one`, `two` and the
      five-item array. */
  lemma ArrayUnserialization()
    ensures Decode(ArrayPacket, ArrayBytes) == Ok(Record(ArrayPacket, ArrayKwargs))
  {
    ArrayEncode();
    ArrayShaped();
    ArrayLayout();
    RoundTrip(Record(ArrayPacket, ArrayKwargs));
  }

  // ------------------------------------------------------------ TestVariable.MultipleVariablePacket

  const MultipleFixed: seq<Field> := [Scalar("one", U8)]
  const MultipleTrailers: seq<Field> := [Unbounded("arr1", PrimElem(U8)), Unbounded("arr2", PrimElem(U16))]
  const MultiplePacket := Schema("MultipleVariablePacket", None, MultipleFixed + MultipleTrailers)
  const MultipleKwargs := map["one" := Int(0x11),
                              "arr1" := List([Int(1), Int(2), Int(3)]),
                              "arr2" := List([Int(0x33), Int(0x44), Int(0x55)])]
  const MultipleBytes: Bytes := [0x11, 0x01, 0x02, 0x03, 0x33, 0x00, 0x44, 0x00, 0x55, 0x00]

  lemma MultipleLayout()
    ensures Compiled(MultiplePacket)
    ensures Fixed(MultiplePacket) == MultipleFixed && Trailers(MultiplePacket) == MultipleTrailers
    ensures RawLength(MultiplePacket) == 1
  {
    Laid(MultiplePacket, MultipleFixed, MultipleTrailers, 1);
  }

  lemma MultipleFormat()
    ensures Fixed(MultiplePacket) == MultipleFixed && Trailers(MultiplePacket) == MultipleTrailers
    ensures Format(MultiplePacket) == [U8]
  {
    MultipleLayout();
    FormatFromIsJoin(MultiplePacket, MultipleFixed);
    assert FormatFrom(MultipleFixed) == [U8] + [];
  }

  lemma MultipleNames()
    ensures Names(AllFields(MultiplePacket)) == {"one", "arr1", "arr2"}
  {
    MultipleLayout();
    NamesFromIsNames(MultipleFixed + MultipleTrailers);
  }

  /** Serializing a class with two arrays writes the prefix, then each array's
      items in declaration order: 11 | 01 02 03 | 33 00 44 00 55 00
      (`unserialize` refuses such a class, see `Decode`). */
  lemma MultipleSerialization()
    ensures Construct(MultiplePacket, MultipleKwargs) == Ok(Record(MultiplePacket, MultipleKwargs))
    ensures Encode(Record(MultiplePacket, MultipleKwargs)) == Ok(MultipleBytes)
  {
    MultipleConstruct();
    MultipleEncode();
  }

  /** `unserialize` of that class raises TypeError before reading any
      trailer: only one trailer can be read back. */
  lemma MultipleUnserialization()
    ensures Decode(MultiplePacket, MultipleBytes) == Err(Error.MultipleTrailers)
  {
    MultipleLayout();
    assert !IsEmpty(MultiplePacket);
    DecodeErrors(MultiplePacket, MultipleBytes);
  }

  lemma MultipleConstruct()
    ensures Construct(MultiplePacket, MultipleKwargs) == Ok(Record(MultiplePacket, MultipleKwargs))
  {
    MultipleLayout();
    MultipleNames();
    ConstructAll(MultiplePacket, MultipleKwargs);
  }

  lemma MultipleEncode()
    ensures Encode(Record(MultiplePacket, MultipleKwargs)) == Ok(MultipleBytes)
  {
    MultipleFormat();
    MultipleValues();
    MultiplePack();
    MultipleTail();
    assert MultipleBytes == [0x11] + (MultipleBytes[1..4] + MultipleBytes[4..]);
    assert !IsEmpty(MultiplePacket);
    EncodeParts(Record(MultiplePacket, MultipleKwargs), Ints([0x11]), [0x11], MultipleBytes[1..4] + MultipleBytes[4..]);
  }


  lemma MultipleValues()
    ensures RawValues(Record(MultiplePacket, MultipleKwargs)) == Ok(Ints([0x11]))
  {
    MultipleFormat();
    var rr := Record(MultiplePacket, MultipleKwargs);
    FlattenScalars(rr, MultipleFixed);
    assert ScalarValues(rr, MultipleFixed) == Ints([0x11]);
  }

  lemma MultiplePack()
    ensures Pack([U8], Ints([0x11])) == Ok([0x11])
  {
    assert Fits([U8], [0x11]);
    assert EncodeUInt(0x11, 1) == [0x11];
    assert PackInts([U8], [0x11]) == EncodeUInt(0x11, 1) + [];
    PackOfInts([U8], [0x11]);
  }

  lemma MultipleTail()
    ensures TrailerBytes(Record(MultiplePacket, MultipleKwargs), MultipleTrailers)
         == Ok(MultipleBytes[1..4] + MultipleBytes[4..])
  {
    var rr := Record(MultiplePacket, MultipleKwargs);
    var ys := [0x33, 0x44, 0x55];
    assert MultipleKwargs["arr1"].items == Ints([1, 2, 3]);
    assert MultipleKwargs["arr2"].items == Ints(ys);
    PackBytes([1, 2, 3]);
    PackOfInts(Repeat([U8], 3), [1, 2, 3]);
    U16Items(ys);
    assert U16Bytes(ys) == MultipleBytes[4..];
    assert MultipleBytes[1..4] == [1, 2, 3];
    assert VariableSerialize(PrimElem(U8), MultipleKwargs["arr1"]) == Ok(MultipleBytes[1..4]);
    assert MultipleTrailers[1..][1..] == [];
    assert TrailerBytes(rr, MultipleTrailers[1..][1..]) == Ok([]);
    assert TrailerBytes(rr, MultipleTrailers[1..]) == Ok(MultipleBytes[4..]) by {
      assert MultipleBytes[4..] + [] == MultipleBytes[4..];
    }
  }

  // ------------------------------------------------------------ helpers

  /** `serialize` of a class with annotations: the packed raw values, then the
      trailers' bytes. */
  lemma EncodeParts(rr: Record, vals: seq<Value>, prefix: Bytes, tail: Bytes)
    requires !IsEmpty(rr.schema) && RawValues(rr) == Ok(vals) && Pack(Format(rr.schema), vals) == Ok(prefix)
    requires TrailerBytes(rr, Trailers(rr.schema)) == Ok(tail)
    ensures Encode(rr) == Ok(prefix + tail)
  {
  }

  // ------------------------------------------------------------ arrays of u16

  /** The bytes of u16 items, each low byte first. */
  function U16Bytes(xs: seq<int>): Bytes
    requires forall i :: 0 <= i < |xs| ==> 0 <= xs[i] < 0x100
  {
    if xs == [] then [] else [xs[0], 0] + U16Bytes(xs[1..])
  }

  /** An array of u16 items below 0x100 packs each item as itself followed by a
      zero byte. */
  lemma {:induction false} U16Items(xs: seq<int>)
    requires forall i :: 0 <= i < |xs| ==> 0 <= xs[i] < 0x100
    ensures Fits(Repeat([U16], |xs|), xs)
    ensures Pack(Repeat([U16], |xs|), Ints(xs)) == Ok(U16Bytes(xs))
    ensures VariableSerialize(PrimElem(U16), List(Ints(xs))) == Ok(U16Bytes(xs))
  {
    RepeatOne(U16, |xs|);
    U16Packs(xs);
    PackOfInts(Repeat([U16], |xs|), xs);
  }

  lemma {:induction false} U16Packs(xs: seq<int>)
    requires forall i :: 0 <= i < |xs| ==> 0 <= xs[i] < 0x100
    ensures Fits(Repeat([U16], |xs|), xs)
    ensures PackInts(Repeat([U16], |xs|), xs) == U16Bytes(xs)
  {
    RepeatOne(U16, |xs|);
    if xs != [] {
      U16Packs(xs[1..]);
      RepeatOne(U16, |xs| - 1);
      assert Repeat([U16], |xs|)[1..] == Repeat([U16], |xs| - 1);
      assert EncodeUInt(xs[0], 2) == [xs[0], 0];
    }
  }

}
