/** Front-recursive forms of what `Meta.__new__` compiles (fakeusb/serdes.py,
    lines 40-56). The definitions in `Serdes` follow the compiler's loop, which
    extends its lists at the back; these forms peel the first annotation
    instead, so the verifier can evaluate them on a class's declared field list. */
module Layouts {
  import opened Wrappers
  import opened Wire
  import opened Serdes
  import opened Records
  import opened Codec
  import opened CodecLaws

  // ------------------------------------------------------------ annotations

  /** `name: T.P`, with no default. */
  function Scalar(name: string, p: Prim): Field
  {
    Field(name, Primitive(p), None)
  }

  /** `name: T.P = v`. */
  function ScalarWith(name: string, p: Prim, v: int): Field
  {
    Field(name, Primitive(p), Some(Int(v)))
  }

  /** `name: Array(T.P, n)` with `n > 0`, a part of the fixed prefix. */
  function FixedArray(name: string, p: Prim, n: nat): Field
  {
    Field(name, ArrayOf(PrimElem(p), n), None)
  }

  /** `name: Array(E)`, an unbounded trailer. */
  function Unbounded(name: string, elem: Elem): Field
  {
    Field(name, ArrayOf(elem, 0), None)
  }

  /** An annotation of a primitive or of a fixed array of primitives. */
  predicate PlainFixed(f: Field)
  {
    f.ty.Primitive? || (f.ty.ArrayOf? && f.ty.elem.PrimElem? && f.ty.length > 0)
  }

  /** An unbounded array whose element type exists. */
  predicate PlainTrailer(f: Field)
  {
    f.ty.ArrayOf? && f.ty.length == 0 && TypeDefined(f.ty)
  }

  /** The compiled attributes of a class declaring plain fixed fields followed
      by unbounded arrays. */
  lemma Laid(s: Schema, fixed: seq<Field>, trailers: seq<Field>, width: nat)
    requires s.fields == fixed + trailers && WidthFrom(fixed) == width
    requires forall f :: f in fixed ==> PlainFixed(f)
    requires forall f :: f in trailers ==> PlainTrailer(f)
    requires DistinctNames(s.fields)
    ensures Fixed(s) == fixed && Trailers(s) == trailers && RawLength(s) == width && Compiled(s)
    ensures (|trailers| <= 1 && forall f :: f in trailers ==> TrailerCodable(f.ty)) ==> Codable(s)
  {
    FixedFromPlain(fixed, trailers);
    Evaluate(s, fixed, trailers, width);
    forall i | 0 <= i < |s.fields| ensures TypeDefined(s.fields[i].ty) {
      if i < |fixed| { assert s.fields[i] in fixed; } else { assert s.fields[i] in trailers; }
    }
  }

  lemma {:induction false} FixedFromPlain(fixed: seq<Field>, trailers: seq<Field>)
    requires forall f :: f in fixed ==> PlainFixed(f)
    requires forall f :: f in trailers ==> PlainTrailer(f)
    ensures FixedFrom(fixed + trailers) == fixed && TrailersFrom(fixed + trailers) == trailers
    ensures FixedWidthFrom(fixed + trailers) == WidthFrom(fixed) && OrderedFrom(fixed + trailers)
    decreases |fixed| + |trailers|
  {
    if fixed != [] {
      assert fixed[0] in fixed;
      FixedFromPlain(fixed[1..], trailers);
      PlainFixedStep(fixed, trailers);
    } else if trailers != [] {
      assert trailers[0] in trailers && fixed + trailers == trailers && [] + trailers[1..] == trailers[1..];
      FixedFromPlain([], trailers[1..]);
      PlainTrailerStep(trailers);
    }
  }

  /** A plain fixed field in front: it joins the fixed fields. */
  lemma PlainFixedStep(fixed: seq<Field>, trailers: seq<Field>)
    requires fixed != [] && PlainFixed(fixed[0])
    requires FixedFrom(fixed[1..] + trailers) == fixed[1..] && TrailersFrom(fixed[1..] + trailers) == trailers
    requires FixedWidthFrom(fixed[1..] + trailers) == WidthFrom(fixed[1..]) && OrderedFrom(fixed[1..] + trailers)
    ensures FixedFrom(fixed + trailers) == fixed && TrailersFrom(fixed + trailers) == trailers
    ensures FixedWidthFrom(fixed + trailers) == WidthFrom(fixed) && OrderedFrom(fixed + trailers)
  {
    var fs := fixed + trailers;
    assert fs[0] == fixed[0] && fs[1..] == fixed[1..] + trailers;
    assert IsFixedField(fs[0]) && !IsTrailerField(fs[0]);
    assert [fixed[0]] + fixed[1..] == fixed;
  }

  /** A plain trailer in front of trailers: it joins the trailers. */
  lemma PlainTrailerStep(trailers: seq<Field>)
    requires trailers != [] && PlainTrailer(trailers[0])
    requires FixedFrom(trailers[1..]) == [] && TrailersFrom(trailers[1..]) == trailers[1..]
    requires FixedWidthFrom(trailers[1..]) == 0 && OrderedFrom(trailers[1..])
    ensures FixedFrom(trailers) == [] && TrailersFrom(trailers) == trailers
    ensures FixedWidthFrom(trailers) == 0 && OrderedFrom(trailers)
  {
    assert !IsFixedField(trailers[0]) && IsTrailerField(trailers[0]);
    assert [trailers[0]] + trailers[1..] == trailers;
  }

  // ------------------------------------------------------------ front-recursive forms

  function FixedFrom(fs: seq<Field>): seq<Field>
  {
    if fs == [] then [] else (if IsFixedField(fs[0]) then [fs[0]] else []) + FixedFrom(fs[1..])
  }

  function TrailersFrom(fs: seq<Field>): seq<Field>
  {
    if fs == [] then [] else (if IsTrailerField(fs[0]) then [fs[0]] else []) + TrailersFrom(fs[1..])
  }

  /** The summed widths of a list of fields. */
  function WidthFrom(fs: seq<Field>): nat
  {
    if fs == [] then 0 else TypeRawLength(fs[0].ty) + WidthFrom(fs[1..])
  }

  /** The struct codes of a list of fields, one after the other. */
  function FormatFrom(fs: seq<Field>): seq<Prim>
  {
    if fs == [] then [] else TypeFormat(fs[0].ty) + FormatFrom(fs[1..])
  }

  /** The names of a list of fields. */
  function NamesFrom(fs: seq<Field>): set<string>
  {
    if fs == [] then {} else {fs[0].name} + NamesFrom(fs[1..])
  }

  /** The summed widths of the fixed fields of a list. */
  function FixedWidthFrom(fs: seq<Field>): nat
  {
    if fs == [] then 0 else (if IsFixedField(fs[0]) then TypeRawLength(fs[0].ty) else 0) + FixedWidthFrom(fs[1..])
  }

  /** No fixed field comes after a trailer. */
  predicate OrderedFrom(fs: seq<Field>)
  {
    fs == [] || (OrderedFrom(fs[1..]) && !(IsTrailerField(fs[0]) && FixedFrom(fs[1..]) != []))
  }

  /** The compiled attributes of a class, from their front-recursive forms. */
  lemma Evaluate(s: Schema, fixed: seq<Field>, trailers: seq<Field>, width: nat)
    requires FixedFrom(s.fields) == fixed && TrailersFrom(s.fields) == trailers
    requires FixedWidthFrom(s.fields) == width && OrderedFrom(s.fields)
    ensures Fixed(s) == fixed && Trailers(s) == trailers && RawLength(s) == width
    ensures !FixedFollowsTrailer(s.fields)
  {
    FixedFromIsFixedOf(s.fields);
    TrailersFromIsTrailersOf(s.fields);
    OrderedFromIsOrdered(s.fields);
    WidthFromIsSum(s, Fixed(s));
    FixedWidth(s.fields);
  }

  lemma {:induction false} FixedWidth(fs: seq<Field>)
    ensures WidthFrom(FixedFrom(fs)) == FixedWidthFrom(fs)
    decreases |fs|
  {
    if fs != [] {
      FixedWidth(fs[1..]);
      var xs := FixedFrom(fs[1..]);
      if IsFixedField(fs[0]) {
        assert FixedFrom(fs) == [fs[0]] + xs;
        assert ([fs[0]] + xs)[0] == fs[0] && ([fs[0]] + xs)[1..] == xs;
      } else {
        assert FixedFrom(fs) == xs;
      }
    }
  }

  lemma {:induction false} FixedOfCons(f: Field, rest: seq<Field>)
    ensures FixedOf([f] + rest) == (if IsFixedField(f) then [f] else []) + FixedOf(rest)
    decreases |rest|
  {
    if rest == [] {
      assert ([f] + rest)[..0] == [];
    } else {
      var init := rest[..|rest| - 1];
      FixedOfCons(f, init);
      assert ([f] + rest)[..|rest|] == [f] + init;
    }
  }

  lemma {:induction false} TrailersOfCons(f: Field, rest: seq<Field>)
    ensures TrailersOf([f] + rest) == (if IsTrailerField(f) then [f] else []) + TrailersOf(rest)
    decreases |rest|
  {
    if rest == [] {
      assert ([f] + rest)[..0] == [];
    } else {
      var init := rest[..|rest| - 1];
      TrailersOfCons(f, init);
      assert ([f] + rest)[..|rest|] == [f] + init;
    }
  }

  lemma {:induction false} FixedFollowsTrailerCons(f: Field, rest: seq<Field>)
    ensures FixedFollowsTrailer([f] + rest) <==>
      FixedFollowsTrailer(rest) || (IsTrailerField(f) && FixedOf(rest) != [])
    decreases |rest|
  {
    if rest == [] {
      assert ([f] + rest)[..0] == [];
    } else {
      var init := rest[..|rest| - 1];
      FixedFollowsTrailerCons(f, init);
      TrailersOfCons(f, init);
      assert ([f] + rest)[..|rest|] == [f] + init;
    }
  }

  lemma {:induction false} FixedFromIsFixedOf(fs: seq<Field>)
    ensures FixedFrom(fs) == FixedOf(fs)
    decreases |fs|
  {
    if fs != [] {
      FixedFromIsFixedOf(fs[1..]);
      FixedOfCons(fs[0], fs[1..]);
      assert [fs[0]] + fs[1..] == fs;
    }
  }

  lemma {:induction false} TrailersFromIsTrailersOf(fs: seq<Field>)
    ensures TrailersFrom(fs) == TrailersOf(fs)
    decreases |fs|
  {
    if fs != [] {
      TrailersFromIsTrailersOf(fs[1..]);
      TrailersOfCons(fs[0], fs[1..]);
      assert [fs[0]] + fs[1..] == fs;
    }
  }

  lemma {:induction false} OrderedFromIsOrdered(fs: seq<Field>)
    ensures OrderedFrom(fs) <==> !FixedFollowsTrailer(fs)
    decreases |fs|
  {
    if fs != [] {
      OrderedFromIsOrdered(fs[1..]);
      FixedFromIsFixedOf(fs[1..]);
      FixedFollowsTrailerCons(fs[0], fs[1..]);
      assert [fs[0]] + fs[1..] == fs;
    }
  }

  lemma {:induction false} WidthFromIsSum(s: Schema, fs: seq<Field>)
    requires forall f :: f in fs ==> f in s.fields
    ensures WidthFrom(fs) == SumRawLength(s, fs)
    decreases |fs|
  {
    if fs != [] {
      WidthFromIsSum(s, fs[1..]);
      SumRawLengthCons(s, fs);
    }
  }

  lemma {:induction false} FormatFromIsJoin(s: Schema, fs: seq<Field>)
    requires forall f :: f in fs ==> f in s.fields
    ensures FormatFrom(fs) == JoinFormats(s, fs)
    decreases |fs|
  {
    if fs != [] {
      FormatFromIsJoin(s, fs[1..]);
      JoinFormatsCons(s, fs);
    }
  }

  lemma {:induction false} NamesFromIsNames(fs: seq<Field>)
    ensures NamesFrom(fs) == Names(fs)
    decreases |fs|
  {
    if fs != [] {
      NamesFromIsNames(fs[1..]);
      NamesCons(fs);
    }
  }

  lemma {:induction false} NamesFromAppend(a: seq<Field>, b: seq<Field>)
    ensures NamesFrom(a + b) == NamesFrom(a) + NamesFrom(b)
    decreases |a|
  {
    if a == [] {
      assert a + b == b;
    } else {
      NamesFromAppend(a[1..], b);
      assert (a + b)[1..] == a[1..] + b;
    }
  }

  // ------------------------------------------------------------ integer attributes

  /** The attributes of `fs`, read from a record in order. */
  function ScalarValues(rr: Record, fs: seq<Field>): seq<Value>
    requires forall f :: f in fs ==> f.name in rr.attrs
  {
    seq(|fs|, k requires 0 <= k < |fs| => rr.attrs[fs[k].name])
  }

  /** Fields holding integers flatten to those integers, in order. */
  lemma {:induction false} FlattenScalars(rr: Record, fs: seq<Field>)
    requires forall f :: f in fs ==> f.name in rr.attrs && rr.attrs[f.name].Int?
    ensures FlattenFields(rr, fs) == Ok(ScalarValues(rr, fs))
    decreases |fs|
  {
    if fs != [] {
      assert fs[0] in fs;
      forall f | f in fs[1..] ensures f.name in rr.attrs && rr.attrs[f.name].Int? {
        assert f in fs;
      }
      FlattenScalars(rr, fs[1..]);
      var v := rr.attrs[fs[0].name];
      assert FlattenValue(v) == Ok([v]);
      assert FlattenFields(rr, fs) == Ok([v] + ScalarValues(rr, fs[1..]));
      assert ScalarValues(rr, fs) == [v] + ScalarValues(rr, fs[1..]);
    }
  }

  /** Integers that do not fit a format make `struct.pack` fail. */
  lemma PackUnfit(fmt: seq<Prim>, xs: seq<int>)
    requires !Fits(fmt, xs)
    ensures Pack(fmt, Ints(xs)) == Err(PackError)
  {
    assert IntsOf(Ints(xs)) == xs;
  }

  /** Two `B` codes pack two byte values to those bytes, and fail otherwise. */
  lemma PackPair(a: int, b: int)
    ensures Pack([U8, U8], Ints([a, b])) ==
      if 0 <= a < 0x100 && 0 <= b < 0x100 then Ok([a, b]) else Err(PackError)
  {
    var fmt := [U8, U8];
    var xs := [a, b];
    if 0 <= a < 0x100 && 0 <= b < 0x100 {
      assert Fits(fmt, xs);
      assert fmt[1..] == [U8] && xs[1..] == [b];
      assert PackInts([U8], [b]) == [b] by {
        assert [U8][1..] == [] && [b][1..] == [];
        assert EncodeUInt(b, 1) == [b];
      }
      assert EncodeUInt(a, 1) == [a];
      assert PackInts(fmt, xs) == EncodeUInt(a, 1) + PackInts([U8], [b]);
      assert [a] + [b] == [a, b];
      PackOfInts(fmt, xs);
    } else {
      assert !Fits(fmt, xs) by { assert fmt[0] == U8 && fmt[1] == U8; }
      PackUnfit(fmt, xs);
    }
  }

  // ------------------------------------------------------------ the packed prefix

  /** A record whose fields hold values of their declared shapes serializes to
      its packed fixed prefix, `raw_length` bytes, followed by what the trailer
      loop yields; a leading u8 field is the first byte. */
  lemma PrefixBytes(rr: Record) returns (prefix: Bytes)
    requires Compiled(rr.schema) && Shaped(rr) && !IsEmpty(rr.schema)
    requires forall f :: f in Fixed(rr.schema) ==> FixedCodable(f.ty)
    ensures |prefix| == RawLength(rr.schema)
    ensures Encode(rr) == Prepend(prefix, TrailerBytes(rr, Trailers(rr.schema)))
    ensures Fixed(rr.schema) != [] && Fixed(rr.schema)[0].ty == Primitive(U8) ==>
      |prefix| > 0 && Fixed(rr.schema)[0].name in rr.attrs && rr.attrs[Fixed(rr.schema)[0].name] == Int(prefix[0])
  {
    var s := rr.schema;
    var xs := FlattenShaped(rr, Fixed(s));
    prefix := PackInts(Format(s), xs);
    PackOfInts(Format(s), xs);
    RawLengthIsFormatSize(s);
    if Fixed(s) != [] && Fixed(s)[0].ty == Primitive(U8) {
      LeadingByte(rr, xs);
    }
  }

  lemma LeadingByte(rr: Record, xs: seq<int>)
    requires Shaped(rr) && Fixed(rr.schema) != [] && Fixed(rr.schema)[0].ty == Primitive(U8)
    requires FlattenFields(rr, Fixed(rr.schema)) == Ok(Ints(xs)) && Fits(Format(rr.schema), xs)
    ensures var bs := PackInts(Format(rr.schema), xs);
      |bs| > 0 && Fixed(rr.schema)[0].name in rr.attrs && rr.attrs[Fixed(rr.schema)[0].name] == Int(bs[0])
  {
    var s := rr.schema;
    FirstValue(rr, Fixed(s), xs);
    JoinFormatsCons(s, Fixed(s));
    PackFirst(Format(s), xs);
  }

  lemma FirstValue(rr: Record, fs: seq<Field>, xs: seq<int>)
    requires Shaped(rr) && fs != [] && fs[0] in Fixed(rr.schema) && fs[0].ty == Primitive(U8)
    requires FlattenFields(rr, fs) == Ok(Ints(xs))
    ensures |xs| > 0 && fs[0].name in rr.attrs && rr.attrs[fs[0].name] == Int(xs[0]) && 0 <= xs[0] < 0x100
  {
    var v := rr.attrs[fs[0].name];
    assert ShapedFixed(fs[0].ty, v);
    assert FlattenValue(v) == Ok([v]);
    assert Ints(xs)[0] == v;
  }

  lemma PackFirst(fmt: seq<Prim>, xs: seq<int>)
    requires Fits(fmt, xs) && fmt != [] && fmt[0] == U8 && 0 <= xs[0] < 0x100
    ensures PackInts(fmt, xs)[0] == xs[0]
  {
    assert EncodeUInt(xs[0], 1) == [xs[0]];
  }

  // ------------------------------------------------------------ byte strings and record lists

  /** A `B` array of byte values packs to those very bytes. */
  lemma {:induction false} PackBytes(d: Bytes)
    ensures Fits(Repeat([U8], |d|), d) && PackInts(Repeat([U8], |d|), d) == d
  {
    RepeatOne(U8, |d|);
    if d != [] {
      PackBytes(d[1..]);
      RepeatOne(U8, |d| - 1);
      assert Repeat([U8], |d|)[1..] == Repeat([U8], |d| - 1);
      assert EncodeUInt(d[0], 1) == [d[0]];
      assert d == [d[0]] + d[1..];
    }
  }

  /** The concatenated `serialize` of a list of records, front to back. */
  function EncodeAll(items: seq<Value>): (r: Result<Bytes, Error>)
    ensures items == [] ==> r == Ok([])
  {
    if items == [] then Ok([])
    else if !items[0].Rec? then Err(MissingAttribute("serialize"))
    else
      var head :- Encode(items[0].r);
      var rest :- EncodeAll(items[1..]);
      Ok(head + rest)
  }

  /** The trailer loop over items `i..` is `EncodeAll` of those items. */
  lemma {:induction false} SerializeItemsAll(v: Value, i: nat)
    requires v.List? && i <= |v.items|
    ensures SerializeItems(v, i) == EncodeAll(v.items[i..])
    decreases |v.items| - i
  {
    if i < |v.items| {
      SerializeItemsAll(v, i + 1);
      assert v.items[i..][1..] == v.items[i + 1..];
    }
  }

  /** A class whose one trailer is an array of records serializes that trailer
      as the items' own encodings, one after another. */
  lemma RecordTrailerBytes(rr: Record, t: Field)
    requires Trailers(rr.schema) == [t] && t.ty.ArrayOf? && t.ty.elem.RecordElem?
    requires t.name in rr.attrs && rr.attrs[t.name].List?
    ensures TrailerBytes(rr, Trailers(rr.schema)) == EncodeAll(rr.attrs[t.name].items)
  {
    var v := rr.attrs[t.name];
    SerializeItemsAll(v, 0);
    assert v.items[0..] == v.items;
    assert [t][1..] == [];
    var e := EncodeAll(v.items);
    assert e.Ok? ==> e.value + [] == e.value;
  }

  /** A field's default is what the constructor stores when the caller leaves
      that field out. */
  lemma DefaultStored(s: Schema, kwargs: map<string, Value>, i: nat)
    requires Compiled(s) && i < |Fixed(s)| && Fixed(s)[i].default.Some?
    requires Fixed(s)[i].name !in kwargs && Construct(s, kwargs).Ok?
    ensures Fixed(s)[i].name in Construct(s, kwargs).value.attrs
    ensures Construct(s, kwargs).value.attrs[Fixed(s)[i].name] == Fixed(s)[i].default.value
  {
    ConstructOk(s, kwargs);
    assert AllFields(s)[i] == Fixed(s)[i];
    NamesIn(AllFields(s), i);
  }

  /** A record of a class whose one trailer is an array of records of class
      `e`: its items are records of that class, and it serializes to its fixed
      prefix (led by a u8 first field) followed by the items' own encodings. */
  lemma RecordListEncoding(rr: Record, t: Field, e: Schema) returns (prefix: Bytes)
    requires Compiled(rr.schema) && Shaped(rr) && forall f :: f in Fixed(rr.schema) ==> FixedCodable(f.ty)
    requires Fixed(rr.schema) != [] && Fixed(rr.schema)[0].ty == Primitive(U8)
    requires Trailers(rr.schema) == [t] && t.ty == ArrayOf(RecordElem(e), 0)
    ensures t.name in rr.attrs && ShapedItems(rr.attrs[t.name], e)
    ensures |prefix| == RawLength(rr.schema) && |prefix| > 0
    ensures Fixed(rr.schema)[0].name in rr.attrs && rr.attrs[Fixed(rr.schema)[0].name] == Int(prefix[0])
    ensures Encode(rr) == Prepend(prefix, EncodeAll(rr.attrs[t.name].items))
  {
    RecordTrailerShaped(rr, t, e);
    assert !IsEmpty(rr.schema);
    prefix := PrefixBytes(rr);
    RecordTrailerBytes(rr, t);
  }

  /** The one record-array trailer of a shaped record holds shaped records. */
  lemma RecordTrailerShaped(rr: Record, t: Field, e: Schema)
    requires Shaped(rr) && Trailers(rr.schema) == [t] && t.ty == ArrayOf(RecordElem(e), 0)
    ensures t.name in rr.attrs && ShapedItems(rr.attrs[t.name], e)
  {
    assert t in Trailers(rr.schema);
    assert ShapedTrailer(t.ty, rr.attrs[t.name]);
  }

  /** A class with fixed fields and no trailers serializes to its packed raw
      values. */
  lemma PackedOnly(rr: Record, vals: seq<Value>)
    requires Fixed(rr.schema) != [] && Trailers(rr.schema) == [] && RawValues(rr) == Ok(vals)
    ensures Encode(rr) == Pack(Format(rr.schema), vals)
  {
    assert TrailerBytes(rr, []) == Ok([]);
    var p := Pack(Format(rr.schema), vals);
    if p.Ok? {
      assert p.value + [] == p.value;
    }
  }

  /** A class without trailers serializes to `raw_length` bytes led by its
      u8 first field. */
  lemma FixedEncoding(rr: Record) returns (bs: Bytes)
    requires Compiled(rr.schema) && Codable(rr.schema) && Shaped(rr) && Trailers(rr.schema) == []
    requires Fixed(rr.schema) != [] && Fixed(rr.schema)[0].ty == Primitive(U8)
    ensures Encode(rr) == Ok(bs) && |bs| == RawLength(rr.schema) && |bs| > 0
    ensures Fixed(rr.schema)[0].name in rr.attrs && rr.attrs[Fixed(rr.schema)[0].name] == Int(bs[0])
  {
    bs := PrefixBytes(rr);
    assert TrailerBytes(rr, []) == Ok([]);
    assert bs + [] == bs;
  }

  /** A class whose u8 first field defaults to `raw_length`: built without that
      argument, a record serializes to `raw_length` bytes whose first byte says so. */
  lemma DescribesItself(s: Schema, kwargs: map<string, Value>)
    requires Compiled(s) && Codable(s) && Trailers(s) == []
    requires Fixed(s) != [] && Fixed(s)[0].ty == Primitive(U8) && Fixed(s)[0].default == Some(Int(RawLength(s)))
    requires Fixed(s)[0].name !in kwargs
    requires Construct(s, kwargs).Ok? && Shaped(Construct(s, kwargs).value)
    ensures var bs := Encode(Construct(s, kwargs).value);
      bs.Ok? && |bs.value| == RawLength(s) && |bs.value| > 0 && bs.value[0] == RawLength(s)
  {
    var rr := Construct(s, kwargs).value;
    DefaultStored(s, kwargs, 0);
    ConstructOk(s, kwargs);
    var bs := FixedEncoding(rr);
  }
}
