/** What the record engine of fakeusb/serdes.py promises about its encoding:
    a record of a class the engine can decode, holding values of the declared
    shapes, unserializes from its own serialization to itself. */
module CodecLaws {
  import opened Wrappers
  import opened Wire
  import opened Serdes
  import opened Records
  import opened Codec

  // ------------------------------------------------------------ which records

  /** A fixed field whose value packs and unpacks back to itself: a primitive,
      a nested class the engine can decode, or a fixed array of integers. */
  predicate FixedCodable(ty: FieldType)
    decreases ty, 0
  {
    match ty
    case Primitive(_) => true
    case Nested(e) => Codable(e)
    case ArrayOf(elem, _) => elem.PrimElem?
  }

  /** A trailer `unserialize` can read back: an unbounded array of integers, or
      of records of a class with a non-empty fixed prefix and no trailers. */
  predicate TrailerCodable(ty: FieldType)
    decreases ty, 0
  {
    match ty
    case Primitive(_) => false
    case Nested(_) => false
    case ArrayOf(PrimElem(_), _) => true
    case ArrayOf(RecordElem(e), _) => Codable(e) && Trailers(e) == [] && RawLength(e) > 0
  }

  /** A class the engine can both serialize and unserialize: at most one
      trailer, and every field of a codable kind. */
  predicate Codable(s: Schema)
    decreases s, 1
  {
    && |Trailers(s)| <= 1
    && (forall f :: f in Fixed(s) ==> FixedCodable(f.ty))
    && (forall f :: f in Trailers(s) ==> TrailerCodable(f.ty))
  }

  /** A value of the declared shape for a fixed field. */
  predicate ShapedFixed(ty: FieldType, v: Value)
    decreases v, 0
  {
    match ty
    case Primitive(p) => v.Int? && InRange(p, v.n)
    case Nested(e) => v.Rec? && v.r.schema == e && Shaped(v.r)
    case ArrayOf(elem, n) =>
      && elem.PrimElem? && v.List? && |v.items| == n
      && forall i :: 0 <= i < |v.items| ==> v.items[i].Int? && InRange(elem.p, v.items[i].n)
  }

  /** A value of the declared shape for a trailer. */
  predicate ShapedTrailer(ty: FieldType, v: Value)
    decreases v, 0
  {
    && ty.ArrayOf? && v.List?
    && match ty.elem
       case PrimElem(p) =>
         forall i :: 0 <= i < |v.items| ==> v.items[i].Int? && InRange(p, v.items[i].n)
       case RecordElem(e) =>
         forall i :: 0 <= i < |v.items| ==> v.items[i].Rec? && v.items[i].r.schema == e && Shaped(v.items[i].r)
  }

  /** A record holding exactly its class's fields, each of its declared shape. */
  predicate Shaped(rr: Record)
    decreases rr, 1
  {
    && rr.attrs.Keys == Names(AllFields(rr.schema))
    && (forall f :: f in Fixed(rr.schema) ==> f.name in rr.attrs && ShapedFixed(f.ty, rr.attrs[f.name]))
    && (forall f :: f in Trailers(rr.schema) ==> f.name in rr.attrs && ShapedTrailer(f.ty, rr.attrs[f.name]))
  }

  function Restrict(m: map<string, Value>, ks: set<string>): map<string, Value>
  {
    map k | k in ks && k in m :: m[k]
  }

  // ------------------------------------------------------------ small facts

  lemma RestrictAll(m: map<string, Value>, ks: set<string>)
    requires m.Keys == ks
    ensures Restrict(m, ks) == m
  {
  }

  lemma IntsAppend(a: seq<int>, b: seq<int>)
    ensures Ints(a + b) == Ints(a) + Ints(b)
  {
  }

  lemma IntsSplit(xs: seq<int>, head: seq<Value>, rest: seq<Value>)
    requires Ints(xs) == head + rest
    ensures |head| + |rest| == |xs|
    ensures head == Ints(xs[..|head|]) && rest == Ints(xs[|head|..])
  {
    assert forall i :: 0 <= i < |head| ==> head[i] == Ints(xs)[i];
    assert forall i :: 0 <= i < |rest| ==> rest[i] == Ints(xs)[|head| + i];
  }

  lemma PackOfInts(fmt: seq<Prim>, xs: seq<int>)
    requires Fits(fmt, xs)
    ensures Pack(fmt, Ints(xs)) == Ok(PackInts(fmt, xs))
  {
    assert IntsOf(Ints(xs)) == xs;
  }

  lemma RepeatOne(p: Prim, n: nat)
    ensures |Repeat([p], n)| == n
    ensures forall i :: 0 <= i < n ==> Repeat([p], n)[i] == p
  {
    if n > 0 {
      RepeatOne(p, n - 1);
    }
  }

  lemma FieldDefined(s: Schema, f: Field)
    requires Compiled(s) && f in s.fields
    ensures TypeDefined(f.ty)
  {
    var i :| 0 <= i < |s.fields| && s.fields[i] == f;
  }

  // ------------------------------------------------------------ serialize side

  /** The fixed attributes of a record of the declared shapes flatten to
      integers that fit the struct format of those fields. */
  lemma {:induction false} FlattenShaped(rr: Record, fs: seq<Field>) returns (xs: seq<int>)
    requires forall f :: f in fs ==> f in rr.schema.fields
    requires forall f :: f in fs ==> FixedCodable(f.ty) && f.name in rr.attrs && ShapedFixed(f.ty, rr.attrs[f.name])
    ensures FlattenFields(rr, fs) == Ok(Ints(xs))
    ensures Fits(JoinFormats(rr.schema, fs), xs)
    decreases rr, |fs|
  {
    if fs == [] {
      xs := [];
      assert Ints(xs) == [];
      return;
    }
    var f := fs[0];
    assert f in fs;
    var rest := FlattenShaped(rr, fs[1..]);
    var head := FieldFlattenShaped(f.ty, rr.attrs[f.name]);
    JoinFormatsCons(rr.schema, fs);
    PackIntsAppend(TypeFormat(f.ty), JoinFormats(rr.schema, fs[1..]), head, rest);
    IntsAppend(head, rest);
    xs := head + rest;
  }

  /** One fixed attribute of its declared shape flattens to integers that fit
      its field's struct codes. */
  lemma {:induction false} FieldFlattenShaped(ty: FieldType, v: Value) returns (head: seq<int>)
    requires FixedCodable(ty) && ShapedFixed(ty, v)
    ensures FlattenValue(v) == Ok(Ints(head))
    ensures Fits(TypeFormat(ty), head)
    decreases v, 0
  {
    match ty {
      case Primitive(p) =>
        head := [v.n];
        assert Ints(head) == [v];
      case Nested(e) =>
        head := FlattenShaped(v.r, Fixed(e));
      case ArrayOf(elem, n) =>
        head := seq(n, i requires 0 <= i < n => v.items[i].n);
        RepeatOne(elem.p, n);
        assert Ints(head) == v.items;
    }
  }

  /** A record of a codable class without trailers, of the declared shapes,
      serializes to its packed fixed prefix. */
  lemma EncodeFixed(rr: Record) returns (xs: seq<int>)
    requires Codable(rr.schema) && Shaped(rr) && Trailers(rr.schema) == []
    requires !IsEmpty(rr.schema)
    ensures RawValues(rr) == Ok(Ints(xs))
    ensures Fits(Format(rr.schema), xs)
    ensures Encode(rr) == Ok(PackInts(Format(rr.schema), xs))
  {
    var s := rr.schema;
    xs := FixedValues(rr);
    PackOfInts(Format(s), xs);
    assert EncodeNonEmpty(rr) == Ok(PackInts(Format(s), xs)) by {
      assert PackInts(Format(s), xs) + [] == PackInts(Format(s), xs);
    }
  }

  /** The fixed attributes of a shaped record flatten to integers that fit the
      class's format. */
  lemma FixedValues(rr: Record) returns (xs: seq<int>)
    requires Codable(rr.schema) && Shaped(rr)
    ensures RawValues(rr) == Ok(Ints(xs))
    ensures Fits(Format(rr.schema), xs)
  {
    xs := FlattenShaped(rr, Fixed(rr.schema));
  }

  // ------------------------------------------------------------ unserialize side

  /** The cursor loop of `_make_self` reads back, field by field, the values the
      fixed attributes flattened to. */
  lemma {:induction false} MakeFieldsShaped(rr: Record, fs: seq<Field>, vals: seq<int>, pos: nat,
                                            kwargs: map<string, Value>, xs: seq<int>)
    requires Compiled(rr.schema) && FieldsReadable(rr, fs)
    requires forall f :: f in fs ==> f in rr.schema.fields
    requires FlattenFields(rr, fs) == Ok(Ints(xs))
    requires pos + |xs| <= |vals| && vals[pos..pos + |xs|] == xs
    ensures MakeFields(rr.schema, fs, vals, pos, kwargs)
      == Ok((kwargs + Restrict(rr.attrs, Names(fs)), pos + |xs|))
    decreases rr, |fs|, 1
  {
    var s := rr.schema;
    if fs == [] {
      assert kwargs + Restrict(rr.attrs, Names(fs)) == kwargs;
      return;
    }
    var k := FieldHead(rr, fs, vals, pos, xs, kwargs);
    MakeFieldsShaped(rr, fs[1..], vals, pos + k, kwargs[fs[0].name := rr.attrs[fs[0].name]], xs[k..]);
    RestrictCons(rr.attrs, kwargs, fs);
  }

  /** Fields of the record's class, all fixed, codable and of the declared shape. */
  predicate FieldsReadable(rr: Record, fs: seq<Field>)
    decreases |fs|
  {
    fs != [] ==>
      && fs[0] in rr.schema.fields && IsFixedField(fs[0])
      && FixedCodable(fs[0].ty) && fs[0].name in rr.attrs && ShapedFixed(fs[0].ty, rr.attrs[fs[0].name])
      && FieldsReadable(rr, fs[1..])
  }

  lemma {:induction false} Readable(rr: Record, fs: seq<Field>)
    requires forall f :: f in fs ==> f in rr.schema.fields && IsFixedField(f)
    requires forall f :: f in fs ==> FixedCodable(f.ty) && f.name in rr.attrs && ShapedFixed(f.ty, rr.attrs[f.name])
    ensures FieldsReadable(rr, fs)
    decreases |fs|
  {
    if fs != [] {
      assert fs[0] in fs;
      assert forall f :: f in fs[1..] ==> f in fs;
      Readable(rr, fs[1..]);
    }
  }

  /** The first field of that loop takes its own flattened values, the first
      `k` of them, and the loop goes on with the remaining fields over the rest. */
  lemma FieldHead(rr: Record, fs: seq<Field>, vals: seq<int>, pos: nat, xs: seq<int>,
                  kwargs: map<string, Value>) returns (k: nat)
    requires Compiled(rr.schema) && fs != [] && FieldsReadable(rr, fs)
    requires forall f :: f in fs ==> f in rr.schema.fields
    requires FlattenFields(rr, fs) == Ok(Ints(xs))
    requires pos + |xs| <= |vals| && vals[pos..pos + |xs|] == xs
    ensures k <= |xs| && FlattenFields(rr, fs[1..]) == Ok(Ints(xs[k..]))
    ensures pos + k + |xs[k..]| <= |vals| && vals[pos + k..pos + k + |xs[k..]|] == xs[k..]
    ensures fs[0].name in rr.attrs && FieldsReadable(rr, fs[1..])
    ensures forall f :: f in fs[1..] ==> f in rr.schema.fields
    ensures MakeFields(rr.schema, fs, vals, pos, kwargs)
      == MakeFields(rr.schema, fs[1..], vals, pos + k, kwargs[fs[0].name := rr.attrs[fs[0].name]])
    decreases rr, |fs|, 0
  {
    var f := fs[0];
    var v := rr.attrs[f.name];
    var head := FlattenValue(v).value;
    var rest := FlattenFields(rr, fs[1..]).value;
    k := |head|;
    assert head == Ints(xs[..k]) && rest == Ints(xs[k..]) && k <= |xs| by {
      IntsSplit(xs, head, rest);
    }
    assert TakeField(f.ty, vals, pos) == Ok((v, pos + k)) by {
      assert vals[pos..pos + k] == xs[..k];
      assert f in fs;
      FieldDefined(rr.schema, f);
      FieldTakeShaped(f.ty, v, vals, pos, xs[..k]);
    }
    assert vals[pos + k..pos + k + |xs[k..]|] == xs[k..];
    assert forall g :: g in fs[1..] ==> g in fs;
    MakeFieldsCons(rr.schema, fs, vals, pos, kwargs, v, pos + k);
  }

  lemma RestrictCons(m: map<string, Value>, kwargs: map<string, Value>, fs: seq<Field>)
    requires fs != [] && fs[0].name in m
    ensures kwargs[fs[0].name := m[fs[0].name]] + Restrict(m, Names(fs[1..])) == kwargs + Restrict(m, Names(fs))
  {
    NamesCons(fs);
    var l := kwargs[fs[0].name := m[fs[0].name]] + Restrict(m, Names(fs[1..]));
    var r := kwargs + Restrict(m, Names(fs));
    assert l.Keys == r.Keys;
    forall k | k in l.Keys
      ensures l[k] == r[k]
    {
    }
  }

  lemma MakeFieldsCons(s: Schema, fs: seq<Field>, vals: seq<int>, pos: nat, kwargs: map<string, Value>,
                       v: Value, next: nat)
    requires fs != [] && (forall f :: f in fs ==> f in s.fields) && pos <= |vals|
    requires TakeField(fs[0].ty, vals, pos) == Ok((v, next))
    ensures MakeFields(s, fs, vals, pos, kwargs) == MakeFields(s, fs[1..], vals, next, kwargs[fs[0].name := v])
  {
  }

  /** One step of that loop reads back one fixed attribute. */
  lemma {:induction false} FieldTakeShaped(ty: FieldType, v: Value, vals: seq<int>, pos: nat, hx: seq<int>)
    requires TypeDefined(ty) && !IsVariable(ty) && FixedCodable(ty) && ShapedFixed(ty, v)
    requires FlattenValue(v) == Ok(Ints(hx))
    requires pos + |hx| <= |vals| && vals[pos..pos + |hx|] == hx
    ensures TakeField(ty, vals, pos) == Ok((v, pos + |hx|))
    decreases v, 0
  {
    match ty {
      case Primitive(p) =>
        assert Ints(hx)[0] == v;
        assert vals[pos] == hx[0];
      case Nested(e) =>
        MakeSelfShaped(v.r, vals, pos, hx);
      case ArrayOf(elem, n) =>
        assert Ints(vals[pos..pos + n]) == v.items;
    }
  }

  /** `_make_self` reads back a whole record of a class without trailers. */
  lemma {:induction false} MakeSelfShaped(rr: Record, vals: seq<int>, pos: nat, xs: seq<int>)
    requires Compiled(rr.schema) && Codable(rr.schema) && Shaped(rr) && Trailers(rr.schema) == []
    requires RawValues(rr) == Ok(Ints(xs))
    requires pos + |xs| <= |vals| && vals[pos..pos + |xs|] == xs
    ensures MakeSelf(rr.schema, vals, pos, []) == Ok((rr, pos + |xs|))
    decreases rr, |Fixed(rr.schema)| + 2
  {
    FixedFieldsRead(rr, vals, pos, xs);
    FixedAttrs(rr);
    NoTrailerConstruct(rr);
    MakeSelfStep(rr.schema, vals, pos, [], rr.attrs, pos + |xs|);
  }

  /** The field loop of `_make_self` over all the fixed fields of a shaped record. */
  lemma FixedFieldsRead(rr: Record, vals: seq<int>, pos: nat, xs: seq<int>)
    requires Compiled(rr.schema) && Codable(rr.schema) && Shaped(rr)
    requires RawValues(rr) == Ok(Ints(xs))
    requires pos + |xs| <= |vals| && vals[pos..pos + |xs|] == xs
    ensures MakeFields(rr.schema, Fixed(rr.schema), vals, pos, map[])
      == Ok((Restrict(rr.attrs, Names(Fixed(rr.schema))), pos + |xs|))
    decreases rr, |Fixed(rr.schema)| + 1
  {
    var s := rr.schema;
    Readable(rr, Fixed(s));
    MakeFieldsShaped(rr, Fixed(s), vals, pos, map[], xs);
    assert map[] + Restrict(rr.attrs, Names(Fixed(s))) == Restrict(rr.attrs, Names(Fixed(s)));
  }

  /** Without trailers, a record's fixed attributes are all its attributes. */
  lemma FixedAttrs(rr: Record)
    requires Shaped(rr) && Trailers(rr.schema) == []
    ensures Restrict(rr.attrs, Names(Fixed(rr.schema))) == rr.attrs
  {
    assert AllFields(rr.schema) == Fixed(rr.schema) + [];
    RestrictAll(rr.attrs, Names(Fixed(rr.schema)));
  }

  /** A record of a class without trailers is rebuilt from its own attributes. */
  lemma NoTrailerConstruct(rr: Record)
    requires Compiled(rr.schema) && Shaped(rr) && Trailers(rr.schema) == []
    ensures Construct(rr.schema, rr.attrs + TrailerKwargs(Trailers(rr.schema), [])) == Ok(rr)
  {
    NoTrailerKwargs(rr.schema, rr.attrs);
    ConstructAll(rr.schema, rr.attrs);
  }

  lemma NoTrailerKwargs(s: Schema, kwargs: map<string, Value>)
    requires Trailers(s) == []
    ensures kwargs + TrailerKwargs(Trailers(s), []) == kwargs
  {
    assert TrailerKwargs(Trailers(s), []) == map[];
  }

  /** `_make_self` once its field loop has produced `kwargs`. */
  lemma MakeSelfStep(s: Schema, vals: seq<int>, pos: nat, tv: seq<Value>, kwargs: map<string, Value>, next: nat)
    requires pos <= |vals|
    requires MakeFields(s, Fixed(s), vals, pos, map[]) == Ok((kwargs, next))
    requires |tv| == |Trailers(s)|
    requires Construct(s, kwargs + TrailerKwargs(Trailers(s), tv)).Ok?
    ensures MakeSelf(s, vals, pos, tv) == Ok((Construct(s, kwargs + TrailerKwargs(Trailers(s), tv)).value, next))
  {
  }

  // ------------------------------------------------------------ trailers

  /** The integers a record's fixed prefix flattens to (none when it does not). */
  function ValuesOf(rr: Record): seq<int>
  {
    var r := RawValues(rr);
    if r.Ok? && AllInts(r.value) then IntsOf(r.value) else []
  }

  /** The integers of items `i..` of a record trailer, one record after another. */
  function ItemsInts(v: Value, i: nat): seq<int>
    requires v.List? && i <= |v.items|
    decreases |v.items| - i
  {
    if i == |v.items| then []
    else (if v.items[i].Rec? then ValuesOf(v.items[i].r) else []) + ItemsInts(v, i + 1)
  }

  /** Items of a record array, each a record of a codable class without trailers. */
  predicate ShapedItems(v: Value, e: Schema)
  {
    && v.List?
    && forall j :: 0 <= j < |v.items| ==> v.items[j].Rec? && v.items[j].r.schema == e && Shaped(v.items[j].r)
  }

  /** One item of such an array: its fixed prefix packs its integers. */
  lemma ItemEncode(rr: Record, e: Schema)
    requires rr.schema == e && Shaped(rr)
    requires Codable(e) && Trailers(e) == [] && RawLength(e) > 0
    ensures Fits(Format(e), ValuesOf(rr))
    ensures Encode(rr) == Ok(PackInts(Format(e), ValuesOf(rr)))
  {
    var x := EncodeFixed(rr);
    assert IntsOf(Ints(x)) == x;
  }

  /** ... and it flattens to those integers, at least one of them. */
  lemma ItemValues(rr: Record, e: Schema)
    requires rr.schema == e && Shaped(rr)
    requires Codable(e) && RawLength(e) > 0
    ensures RawValues(rr) == Ok(Ints(ValuesOf(rr)))
    ensures |ValuesOf(rr)| > 0
  {
    var x := FixedValues(rr);
    assert IntsOf(Ints(x)) == x;
    RawLengthIsFormatSize(e);
  }

  /** The integers of items `i..` of a record array, one chunk per item. */
  function Chunks(v: Value): seq<seq<int>>
    requires v.List?
  {
    seq(|v.items|, j requires 0 <= j < |v.items| => if v.items[j].Rec? then ValuesOf(v.items[j].r) else [])
  }

  function Concat(xs: seq<seq<int>>): seq<int>
  {
    if xs == [] then [] else xs[0] + Concat(xs[1..])
  }

  lemma {:induction false} ItemsIntsConcat(v: Value, i: nat)
    requires v.List? && i <= |v.items|
    ensures ItemsInts(v, i) == Concat(Chunks(v)[i..])
    decreases |v.items| - i
  {
    if i < |v.items| {
      ItemsIntsConcat(v, i + 1);
      assert Chunks(v)[i..][1..] == Chunks(v)[i + 1..];
    } else {
      assert Chunks(v)[i..] == [];
    }
  }

  /** Each item of a record array packs its own chunk with the item format. */
  predicate PacksWith(v: Value, fmt: seq<Prim>, xs: seq<seq<int>>)
  {
    && v.List?
    && |xs| == |v.items|
    && forall j :: 0 <= j < |v.items| ==>
         && v.items[j].Rec?
         && Fits(fmt, xs[j])
         && Encode(v.items[j].r) == Ok(PackInts(fmt, xs[j]))
  }

  lemma ShapedItemsPack(v: Value, e: Schema)
    requires ShapedItems(v, e) && Codable(e) && Trailers(e) == [] && RawLength(e) > 0
    ensures PacksWith(v, Format(e), Chunks(v))
  {
    var xs := Chunks(v);
    forall j | 0 <= j < |v.items|
      ensures Fits(Format(e), xs[j]) && Encode(v.items[j].r) == Ok(PackInts(Format(e), xs[j]))
    {
      ItemEncode(v.items[j].r, e);
    }
  }

  /** Items `i..` of a record array serialize to their chunks packed with the
      item format repeated once per item. */
  predicate EncodesFrom(v: Value, i: nat, fmt: seq<Prim>, xs: seq<seq<int>>)
    requires v.List? && |xs| == |v.items| && i <= |v.items|
  {
    && Fits(Repeat(fmt, |v.items| - i), Concat(xs[i..]))
    && SerializeItems(v, i) == Ok(PackInts(Repeat(fmt, |v.items| - i), Concat(xs[i..])))
  }

  /** `variable_serialize` of a record array concatenates the items' packed
      chunks: the item format repeated, packed over all their integers. */
  lemma {:induction false} ChunksEncode(v: Value, i: nat, fmt: seq<Prim>, xs: seq<seq<int>>)
    requires PacksWith(v, fmt, xs) && i <= |v.items|
    ensures EncodesFrom(v, i, fmt, xs)
    decreases |v.items| - i
  {
    if i < |v.items| {
      ChunksEncode(v, i + 1, fmt, xs);
      ChunkEncodeStep(v, i, fmt, xs);
    } else {
      ChunkEncodeNil(v, fmt, xs);
    }
  }

  lemma ChunkEncodeNil(v: Value, fmt: seq<Prim>, xs: seq<seq<int>>)
    requires v.List? && |xs| == |v.items|
    ensures EncodesFrom(v, |v.items|, fmt, xs)
  {
    assert xs[|v.items|..] == [];
    assert PackInts(Repeat(fmt, 0), []) == [];
  }

  /** Item `i` packed with its chunk, in front of the rest of the items. */
  lemma ChunkEncodeStep(v: Value, i: nat, fmt: seq<Prim>, xs: seq<seq<int>>)
    requires PacksWith(v, fmt, xs) && i < |v.items|
    requires EncodesFrom(v, i + 1, fmt, xs)
    ensures EncodesFrom(v, i, fmt, xs)
  {
    var m := |v.items| - (i + 1);
    ConcatCons(xs, i);
    PackRepeatCons(fmt, m, xs[i], Concat(xs[i + 1..]));
    SerializeItemsCons(v, i, PackInts(fmt, xs[i]), PackInts(Repeat(fmt, m), Concat(xs[i + 1..])));
    assert m + 1 == |v.items| - i;
  }

  lemma ConcatCons(xs: seq<seq<int>>, i: nat)
    requires i < |xs|
    ensures Concat(xs[i..]) == xs[i] + Concat(xs[i + 1..])
  {
    assert xs[i..][1..] == xs[i + 1..];
  }

  /** One step of the item loop of `variable_serialize`. */
  lemma SerializeItemsCons(v: Value, i: nat, head: Bytes, rest: Bytes)
    requires v.List? && i < |v.items| && v.items[i].Rec?
    requires Encode(v.items[i].r) == Ok(head) && SerializeItems(v, i + 1) == Ok(rest)
    ensures SerializeItems(v, i) == Ok(head + rest)
  {
  }

  lemma ItemsEncode(v: Value, e: Schema)
    requires ShapedItems(v, e) && Codable(e) && Trailers(e) == [] && RawLength(e) > 0
    ensures Fits(Repeat(Format(e), |v.items|), ItemsInts(v, 0))
    ensures SerializeItems(v, 0) == Ok(PackInts(Repeat(Format(e), |v.items|), ItemsInts(v, 0)))
  {
    ShapedItemsPack(v, e);
    ChunksEncode(v, 0, Format(e), Chunks(v));
    ItemsIntsConcat(v, 0);
    assert Chunks(v)[0..] == Chunks(v);
  }

  /** Packing `n + 1` copies of a format is packing one, then `n`. */
  lemma PackRepeatCons(fmt: seq<Prim>, n: nat, x: seq<int>, rest: seq<int>)
    requires Fits(fmt, x) && Fits(Repeat(fmt, n), rest)
    ensures Fits(Repeat(fmt, n + 1), x + rest)
    ensures PackInts(Repeat(fmt, n + 1), x + rest) == PackInts(fmt, x) + PackInts(Repeat(fmt, n), rest)
  {
    RepeatCons(fmt, n + 1);
    PackIntsAppend(fmt, Repeat(fmt, n), x, rest);
  }

  /** `_make_self` reads item `r` back from its chunk `x`, wherever the chunk sits. */
  ghost predicate ReadsBack(e: Schema, x: seq<int>, r: Value)
    requires RawLength(e) > 0
  {
    && r.Rec?
    && |x| > 0
    && forall vals: seq<int>, pos: nat {:trigger MakeSelf(e, vals, pos, [])} :: pos + |x| <= |vals| && vals[pos..pos + |x|] == x ==>
         MakeSelf(e, vals, pos, []) == Ok((r.r, pos + |x|))
  }

  lemma ShapedItemsRead(v: Value, e: Schema)
    requires ShapedItems(v, e)
    requires Compiled(e) && Codable(e) && Trailers(e) == [] && RawLength(e) > 0
    ensures forall j :: 0 <= j < |v.items| ==> ReadsBack(e, Chunks(v)[j], v.items[j])
  {
    forall j | 0 <= j < |v.items|
      ensures ReadsBack(e, Chunks(v)[j], v.items[j])
    {
      assert Chunks(v)[j] == ValuesOf(v.items[j].r);
      ItemReadsBack(v.items[j], e);
    }
  }

  /** A shaped item is read back from its own integers. */
  lemma ItemReadsBack(r: Value, e: Schema)
    requires r.Rec? && r.r.schema == e && Shaped(r.r)
    requires Compiled(e) && Codable(e) && Trailers(e) == [] && RawLength(e) > 0
    ensures ReadsBack(e, ValuesOf(r.r), r)
  {
    ItemValues(r.r, e);
    RecordReadsBack(r.r, e, ValuesOf(r.r));
  }

  lemma RecordReadsBack(rr: Record, e: Schema, x: seq<int>)
    requires rr.schema == e && Shaped(rr)
    requires Compiled(e) && Codable(e) && Trailers(e) == [] && RawLength(e) > 0
    requires RawValues(rr) == Ok(Ints(x)) && |x| > 0
    ensures ReadsBack(e, x, Rec(rr))
  {
    forall vals: seq<int>, pos: nat | pos + |x| <= |vals| && vals[pos..pos + |x|] == x
      ensures MakeSelf(e, vals, pos, []) == Ok((rr, pos + |x|))
    {
      MakeSelfShaped(rr, vals, pos, x);
    }
  }

  /** The `while vals` loop of `variable_unserialize` cuts the concatenated
      chunks back into the items they came from. */
  lemma {:induction false} ChunksDecode(e: Schema, items: seq<Value>, xs: seq<seq<int>>, i: nat, vals: seq<int>, pos: nat)
    requires RawLength(e) > 0 && |xs| == |items| && i <= |items|
    requires forall j :: 0 <= j < |items| ==> ReadsBack(e, xs[j], items[j])
    requires pos <= |vals| && vals[pos..] == Concat(xs[i..])
    ensures MakeAll(e, vals, pos) == Ok(items[i..])
    decreases |items| - i
  {
    if i < |items| {
      var x := xs[i];
      ChunkSlices(xs, i, vals, pos);
      ChunksDecode(e, items, xs, i + 1, vals, pos + |x|);
      ChunkDecodeStep(e, items, xs, i, vals, pos);
    } else {
      ChunkDecodeNil(e, items, xs, vals, pos);
    }
  }

  lemma ChunkDecodeNil(e: Schema, items: seq<Value>, xs: seq<seq<int>>, vals: seq<int>, pos: nat)
    requires RawLength(e) > 0 && |xs| == |items|
    requires pos <= |vals| && vals[pos..] == Concat(xs[|items|..])
    ensures MakeAll(e, vals, pos) == Ok(items[|items|..])
  {
    assert xs[|items|..] == [] && items[|items|..] == [];
    assert |vals[pos..]| == 0;
  }

  /** The first chunk of the remaining values, and what follows it. */
  lemma ChunkSlices(xs: seq<seq<int>>, i: nat, vals: seq<int>, pos: nat)
    requires i < |xs| && pos <= |vals| && vals[pos..] == Concat(xs[i..])
    ensures pos + |xs[i]| <= |vals| && vals[pos..pos + |xs[i]|] == xs[i]
    ensures vals[pos + |xs[i]|..] == Concat(xs[i + 1..])
  {
    assert xs[i..][1..] == xs[i + 1..];
    assert vals[pos..] == xs[i] + Concat(xs[i + 1..]);
  }

  /** Item `i` read from its chunk, then the rest of the items. */
  lemma ChunkDecodeStep(e: Schema, items: seq<Value>, xs: seq<seq<int>>, i: nat, vals: seq<int>, pos: nat)
    requires RawLength(e) > 0 && |xs| == |items| && i < |items|
    requires ReadsBack(e, xs[i], items[i])
    requires pos + |xs[i]| <= |vals| && vals[pos..pos + |xs[i]|] == xs[i]
    requires MakeAll(e, vals, pos + |xs[i]|) == Ok(items[i + 1..])
    ensures MakeAll(e, vals, pos) == Ok(items[i..])
  {
    assert MakeSelf(e, vals, pos, []) == Ok((items[i].r, pos + |xs[i]|));
    MakeAllCons(e, vals, pos, items[i].r, pos + |xs[i]|, items[i + 1..]);
    assert items[i..] == [items[i]] + items[i + 1..];
  }

  /** One step of the `while vals` loop. */
  lemma MakeAllCons(e: Schema, vals: seq<int>, pos: nat, rec: Record, next: nat, rest: seq<Value>)
    requires RawLength(e) > 0 && pos < |vals|
    requires MakeSelf(e, vals, pos, []) == Ok((rec, next))
    requires MakeAll(e, vals, next) == Ok(rest)
    ensures MakeAll(e, vals, pos) == Ok([Rec(rec)] + rest)
  {
  }

  /** The single trailer of a codable class, of its declared shape, serializes
      to bytes that `variable_unserialize` reads back to the same value. */
  lemma TrailerRoundTrip(ty: FieldType, v: Value) returns (tail: Bytes)
    requires TypeDefined(ty) && TrailerCodable(ty) && ShapedTrailer(ty, v)
    ensures VariableSerialize(ty.elem, v) == Ok(tail)
    ensures TrailerValue(ty, tail) == Ok(v)
  {
    match ty.elem {
      case PrimElem(p) => tail := PrimTrailerRoundTrip(p, v);
      case RecordElem(e) => tail := RecordTrailerRoundTrip(e, v);
    }
  }

  /** An integer array trailer packs each item with the element code. */
  lemma PrimTrailerRoundTrip(p: Prim, v: Value) returns (tail: Bytes)
    requires v.List? && forall i :: 0 <= i < |v.items| ==> v.items[i].Int? && InRange(p, v.items[i].n)
    ensures VariableSerialize(PrimElem(p), v) == Ok(tail)
    ensures VariableUnserialize(PrimElem(p), tail) == Ok(v)
  {
    var n := |v.items|;
    var fmt := Repeat([p], n);
    var ys := seq(n, i requires 0 <= i < n => v.items[i].n);
    assert Fits(fmt, ys) && Ints(ys) == v.items by {
      RepeatOne(p, n);
    }
    PackOfInts(fmt, ys);
    tail := PackInts(fmt, ys);
    assert |tail| == n * Width(p) by {
      RepeatSize([p], n);
    }
    UnpackPack(fmt, ys);
    ElemAligned(PrimElem(p), n, tail);
  }

  /** A record array trailer concatenates the items' packed prefixes. */
  lemma RecordTrailerRoundTrip(e: Schema, v: Value) returns (tail: Bytes)
    requires Compiled(e) && Codable(e) && Trailers(e) == [] && RawLength(e) > 0
    requires ShapedItems(v, e)
    ensures VariableSerialize(RecordElem(e), v) == Ok(tail)
    ensures VariableUnserialize(RecordElem(e), tail) == Ok(v)
  {
    var n := |v.items|;
    var fmt := Repeat(Format(e), n);
    var ys := ItemsInts(v, 0);
    ItemsEncode(v, e);
    tail := PackInts(fmt, ys);
    assert |tail| == n * RawLength(e) by {
      RawLengthIsFormatSize(e);
      RepeatSize(Format(e), n);
    }
    assert UnpackInts(fmt, tail) == ys by {
      UnpackPack(fmt, ys);
    }
    assert MakeAll(e, ys, 0) == Ok(v.items) by {
      ShapedItemsRead(v, e);
      ItemsIntsConcat(v, 0);
      ChunksDecode(e, v.items, Chunks(v), 0, ys, 0);
      assert v.items[0..] == v.items;
    }
    ElemAligned(RecordElem(e), n, tail);
  }

  /** Bytes of `n` elements pass the alignment checks, with `n` elements counted. */
  lemma ElemAligned(elem: Elem, n: nat, bs: Bytes)
    requires ElemRawLength(elem).Ok? && ElemRawLength(elem).value > 0
    requires |bs| == n * ElemRawLength(elem).value
    ensures |bs| % ElemRawLength(elem).value == 0 && |bs| / ElemRawLength(elem).value == n
    ensures bs == [] <==> n == 0
  {
    MulMod(n, ElemRawLength(elem).value);
  }

  // ------------------------------------------------------------ the round trip

  /** `unserialize(serialize(r)) == r` for every record of a class the engine
      can decode whose attributes have their declared shapes. */
  lemma {:induction false} RoundTrip(rr: Record)
    requires Compiled(rr.schema) && Codable(rr.schema) && Shaped(rr)
    ensures Encode(rr).Ok?
    ensures Decode(rr.schema, Encode(rr).value) == Ok(rr)
  {
    var s := rr.schema;
    if IsEmpty(s) {
      EmptyRoundTrip(rr);
    } else if Trailers(s) == [] {
      FixedRoundTrip(rr);
    } else {
      OneTrailerRoundTrip(rr);
    }
  }

  /** A class with no fields serializes to no bytes and is built without reading. */
  lemma {:induction false} EmptyRoundTrip(rr: Record)
    requires Compiled(rr.schema) && Shaped(rr) && IsEmpty(rr.schema)
    ensures Encode(rr) == Ok([])
    ensures Decode(rr.schema, []) == Ok(rr)
  {
    assert AllFields(rr.schema) == [];
    assert rr.attrs == map[];
    ConstructAll(rr.schema, map[]);
  }

  /** A class without trailers serializes to exactly `raw_length` bytes. */
  lemma {:induction false} FixedRoundTrip(rr: Record)
    requires Compiled(rr.schema) && Codable(rr.schema) && Shaped(rr)
    requires !IsEmpty(rr.schema) && Trailers(rr.schema) == []
    ensures Encode(rr).Ok? && |Encode(rr).value| == RawLength(rr.schema)
    ensures Decode(rr.schema, Encode(rr).value) == Ok(rr)
  {
    var s := rr.schema;
    var xs := EncodeFixed(rr);
    var bs := PackInts(Format(s), xs);
    RawLengthIsFormatSize(s);
    assert bs[..RawLength(s)] == bs;
    UnpackPack(Format(s), xs);
    assert xs[0..0 + |xs|] == xs;
    MakeSelfShaped(rr, xs, 0, xs);
  }

  /** A class with one trailer serializes to its `raw_length`-byte prefix
      followed by the trailer's bytes. */
  lemma {:induction false} OneTrailerRoundTrip(rr: Record)
    requires Compiled(rr.schema) && Codable(rr.schema) && Shaped(rr)
    requires |Trailers(rr.schema)| == 1
    ensures Encode(rr).Ok? && |Encode(rr).value| >= RawLength(rr.schema)
    ensures Decode(rr.schema, Encode(rr).value) == Ok(rr)
  {
    var s := rr.schema;
    var xs, tail := OneTrailerEncode(rr);
    var prefix := PackInts(Format(s), xs);
    var bs := prefix + tail;
    assert bs[..RawLength(s)] == prefix && bs[RawLength(s)..] == tail;
    assert UnpackInts(Format(s), bs[..RawLength(s)]) == xs by {
      UnpackPack(Format(s), xs);
    }
    OneTrailerMake(rr, xs);
    DecodeOneTrailer(s, bs, rr.attrs[Trailers(s)[0].name], rr, |xs|);
  }

  /** The bytes of a record with one trailer: its packed fixed prefix, of
      `raw_length` bytes, then the trailer's bytes, which read back to its value. */
  lemma OneTrailerEncode(rr: Record) returns (xs: seq<int>, tail: Bytes)
    requires Compiled(rr.schema) && Codable(rr.schema) && Shaped(rr)
    requires |Trailers(rr.schema)| == 1
    ensures Trailers(rr.schema)[0].name in rr.attrs
    ensures RawValues(rr) == Ok(Ints(xs)) && Fits(Format(rr.schema), xs)
    ensures |PackInts(Format(rr.schema), xs)| == RawLength(rr.schema)
    ensures Encode(rr) == Ok(PackInts(Format(rr.schema), xs) + tail)
    ensures TrailerValue(Trailers(rr.schema)[0].ty, tail) == Ok(rr.attrs[Trailers(rr.schema)[0].name])
  {
    var s := rr.schema;
    xs := FixedValues(rr);
    tail := OneTrailerBytes(rr);
    assert Pack(Format(s), Ints(xs)) == Ok(PackInts(Format(s), xs)) by {
      PackOfInts(Format(s), xs);
    }
    assert EncodeNonEmpty(rr) == Ok(PackInts(Format(s), xs) + tail);
    RawLengthIsFormatSize(s);
  }

  /** The trailer loop of `serialize` over a single trailer yields bytes that
      read back to the trailer's value. */
  lemma OneTrailerBytes(rr: Record) returns (tail: Bytes)
    requires Compiled(rr.schema) && Codable(rr.schema) && Shaped(rr)
    requires |Trailers(rr.schema)| == 1
    ensures Trailers(rr.schema)[0].name in rr.attrs
    ensures TrailerBytes(rr, Trailers(rr.schema)) == Ok(tail)
    ensures TrailerValue(Trailers(rr.schema)[0].ty, tail) == Ok(rr.attrs[Trailers(rr.schema)[0].name])
  {
    var s := rr.schema;
    var t := Trailers(s)[0];
    assert t in Trailers(s);
    var v := rr.attrs[t.name];
    assert TypeDefined(t.ty) && TrailerCodable(t.ty) && ShapedTrailer(t.ty, v) by {
      FieldDefined(s, t);
    }
    tail := TrailerRoundTrip(t.ty, v);
    assert Trailers(s)[1..] == [];
    assert tail + [] == tail;
  }

  /** `_make_self` rebuilds a record with one trailer from its fixed values and
      the trailer's value. */
  lemma OneTrailerMake(rr: Record, xs: seq<int>)
    requires Compiled(rr.schema) && Codable(rr.schema) && Shaped(rr)
    requires |Trailers(rr.schema)| == 1 && Trailers(rr.schema)[0].name in rr.attrs
    requires RawValues(rr) == Ok(Ints(xs))
    ensures MakeSelf(rr.schema, xs, 0, [rr.attrs[Trailers(rr.schema)[0].name]]) == Ok((rr, |xs|))
  {
    var s := rr.schema;
    var v := rr.attrs[Trailers(s)[0].name];
    var kw := Restrict(rr.attrs, Names(Fixed(s)));
    assert xs[0..0 + |xs|] == xs;
    FixedFieldsRead(rr, xs, 0, xs);
    assert Construct(s, kw + TrailerKwargs(Trailers(s), [v])) == Ok(rr) by {
      OneTrailerKwargs(rr);
      ConstructAll(s, rr.attrs);
    }
    MakeSelfStep(s, xs, 0, [v], kw, |xs|);
  }

  /** `unserialize` of a class with one trailer, once the trailer's bytes and the
      fixed values have been read. */
  lemma DecodeOneTrailer(s: Schema, bs: Bytes, extra: Value, rec: Record, next: nat)
    requires !IsEmpty(s) && |bs| >= RawLength(s) && |Trailers(s)| == 1
    requires TrailerValue(Trailers(s)[0].ty, bs[RawLength(s)..]) == Ok(extra)
    requires FormatSize(Format(s)) == RawLength(s)
    requires MakeSelf(s, UnpackInts(Format(s), bs[..RawLength(s)]), 0, [extra]) == Ok((rec, next))
    ensures Decode(s, bs) == Ok(rec)
  {
  }

  /** The fixed attributes `_make_self` reads, with the one trailer value, are
      all of the record's attributes. */
  lemma {:induction false} OneTrailerKwargs(rr: Record)
    requires Shaped(rr) && |Trailers(rr.schema)| == 1
    ensures var t := Trailers(rr.schema)[0];
      t.name in rr.attrs &&
      Restrict(rr.attrs, Names(Fixed(rr.schema))) + TrailerKwargs(Trailers(rr.schema), [rr.attrs[t.name]]) == rr.attrs
  {
    var s := rr.schema;
    var t := Trailers(s)[0];
    assert t in Trailers(s);
    var v := rr.attrs[t.name];
    assert TrailerKwargs(Trailers(s), [v]) == map[t.name := v] by {
      assert Trailers(s)[..0] == [];
    }
    assert rr.attrs.Keys == Names(Fixed(s)) + {t.name} by {
      NamesAppend(Fixed(s), Trailers(s));
      assert Names(Trailers(s)) == {t.name};
    }
    RestrictPlusOne(rr.attrs, Names(Fixed(s)), t.name);
  }

  lemma RestrictPlusOne(m: map<string, Value>, ks: set<string>, k: string)
    requires m.Keys == ks + {k}
    ensures Restrict(m, ks) + map[k := m[k]] == m
  {
    var l := Restrict(m, ks) + map[k := m[k]];
    assert l.Keys == m.Keys;
  }

  // ------------------------------------------------------------ serialize as written

  /** A class whose fixed fields are primitives or, at any depth, classes of
      the same kind: its records hold no sequence in their fixed prefix. */
  predicate ScalarsOnly(s: Schema)
    decreases s
  {
    forall f :: f in Fixed(s) ==> f.ty.Primitive? || (f.ty.Nested? && ScalarsOnly(f.ty.s))
  }

  /** No fixed field of `s` nests a class whose fixed prefix holds a sequence. */
  predicate FlatNesting(s: Schema)
  {
    forall f :: f in Fixed(s) && f.ty.Nested? ==> ScalarsOnly(f.ty.s)
  }

  /** A class that declares no nested record at all. */
  predicate NoNestedFields(s: Schema)
  {
    forall i :: 0 <= i < |s.fields| ==> !s.fields[i].ty.Nested?
  }

  lemma NoNestedIsFlat(s: Schema)
    requires NoNestedFields(s)
    ensures FlatNesting(s)
  {
    forall f | f in Fixed(s)
      ensures !f.ty.Nested?
    {
      var i :| 0 <= i < |s.fields| && s.fields[i] == f;
    }
  }

  /** On a record of its declared shape whose class has scalars only, the
      flattening of `serialize` and `raw_values` as written agree. */
  lemma {:induction false} ScalarFieldsAsWritten(rr: Record, fs: seq<Field>)
    requires Shaped(rr) && ScalarsOnly(rr.schema)
    requires forall f :: f in fs ==> f in Fixed(rr.schema)
    ensures FlattenFields(rr, fs) == RawFieldsAsWritten(rr, fs)
    decreases rr, |fs|
  {
    if fs != [] {
      var f, rest := fs[0], fs[1..];
      assert f in Fixed(rr.schema);
      assert f.name in rr.attrs && ShapedFixed(f.ty, rr.attrs[f.name]);
      var v := rr.attrs[f.name];
      assert forall g :: g in rest ==> g in fs;
      ScalarFieldsAsWritten(rr, rest);
      if f.ty.Nested? {
        assert v.Rec? && Shaped(v.r) && ScalarsOnly(v.r.schema);
        ScalarFieldsAsWritten(v.r, Fixed(v.r.schema));
        assert FlattenValue(v) == RawValuesAsWritten(v.r);
      } else {
        assert v.Int?;
      }
    }
  }

  lemma {:induction false} SerializeFieldsAgree(rr: Record, fs: seq<Field>)
    requires Shaped(rr) && FlatNesting(rr.schema)
    requires forall f :: f in fs ==> f in Fixed(rr.schema)
    ensures FlattenFields(rr, fs) == SerializeFieldsAsWritten(rr, fs)
    decreases |fs|
  {
    if fs != [] {
      var f, rest := fs[0], fs[1..];
      assert f in Fixed(rr.schema);
      assert f.name in rr.attrs && ShapedFixed(f.ty, rr.attrs[f.name]);
      var v := rr.attrs[f.name];
      assert forall g :: g in rest ==> g in fs;
      SerializeFieldsAgree(rr, rest);
      if v.Rec? {
        assert f.ty.Nested? && Shaped(v.r) && ScalarsOnly(v.r.schema);
        ScalarFieldsAsWritten(v.r, Fixed(v.r.schema));
        assert FlattenValue(v) == RawValuesAsWritten(v.r);
      }
    }
  }

  /** The values `serialize` packs are those of the code as written for every
      record of its declared shape whose nested records hold scalars only:
      the two differ only on a record nesting a fixed array. */
  lemma SerializeAsWritten(rr: Record)
    requires Shaped(rr) && FlatNesting(rr.schema)
    ensures RawValues(rr) == SerializeValuesAsWritten(rr)
  {
    SerializeFieldsAgree(rr, Fixed(rr.schema));
  }
}
