/** Serialization and unserialization of records in fakeusb/serdes.py: the
    fixed prefix is flattened to a list of integers and packed with the class's
    struct format, each trailer is appended after it; unserialization unpacks
    the prefix, rebuilds nested records with the `_make_self` cursor and decodes
    the single trailer with `variable_unserialize`. */
module Codec {
  import opened Wrappers
  import opened Wire
  import opened Serdes
  import opened Records

  /** Integers as attribute values. */
  function Ints(xs: seq<int>): seq<Value>
  {
    seq(|xs|, i requires 0 <= i < |xs| => Int(xs[i]))
  }

  predicate AllInts(vs: seq<Value>)
  {
    forall i :: 0 <= i < |vs| ==> vs[i].Int?
  }

  function IntsOf(vs: seq<Value>): seq<int>
    requires AllInts(vs)
  {
    seq(|vs|, i requires 0 <= i < |vs| => vs[i].n)
  }

  /** `struct.pack(fmt, *vals)`: one integer per code, each in range, or struct.error. */
  function Pack(fmt: seq<Prim>, vals: seq<Value>): Result<Bytes, Error>
  {
    if AllInts(vals) && Fits(fmt, IntsOf(vals)) then Ok(PackInts(fmt, IntsOf(vals)))
    else Err(PackError)
  }

  // ---------------------------------------------------------------- serialize

  /** One fixed attribute's contribution to the values `serialize` packs: a
      record gives its raw values, a sequence its elements, an integer itself. */
  function FlattenValue(v: Value): Result<seq<Value>, Error>
    decreases v, 0
  {
    match v
    case Rec(rr) => RawValues(rr)
    case List(items) => Ok(items)
    case Int(_) => Ok([v])
  }

  /** `raw_values`, flattening every fixed attribute the way `serialize` does
      (see `RawValuesAsWritten` for the code as written). */
  function RawValues(rr: Record): Result<seq<Value>, Error>
    decreases rr, 2
  {
    FlattenFields(rr, Fixed(rr.schema))
  }

  /** The loop of `serialize` over the fields `fs`. */
  function FlattenFields(rr: Record, fs: seq<Field>): Result<seq<Value>, Error>
    decreases rr, 1, |fs|
  {
    if fs == [] then Ok([])
    else if fs[0].name !in rr.attrs then Err(MissingAttribute(fs[0].name))
    else
      var head :- FlattenValue(rr.attrs[fs[0].name]);
      var rest :- FlattenFields(rr, fs[1..]);
      Ok(head + rest)
  }

  /** `raw_values` as written: a nested record is flattened, but any other
      attribute, a fixed array included, is appended whole. */
  function RawValuesAsWritten(rr: Record): Result<seq<Value>, Error>
    decreases rr, 1
  {
    RawFieldsAsWritten(rr, Fixed(rr.schema))
  }

  function RawFieldsAsWritten(rr: Record, fs: seq<Field>): Result<seq<Value>, Error>
    decreases rr, 0, |fs|
  {
    if fs == [] then Ok([])
    else if fs[0].name !in rr.attrs then Err(MissingAttribute(fs[0].name))
    else
      var v := rr.attrs[fs[0].name];
      var head :- if v.Rec? then RawValuesAsWritten(v.r) else Ok([v]);
      var rest :- RawFieldsAsWritten(rr, fs[1..]);
      Ok(head + rest)
  }

  /** The values `serialize` hands to `struct.pack`, as written: a nested
      record contributes its `raw_values` as written, a sequence its items,
      an integer itself. */
  function SerializeValuesAsWritten(rr: Record): Result<seq<Value>, Error>
  {
    SerializeFieldsAsWritten(rr, Fixed(rr.schema))
  }

  function SerializeFieldsAsWritten(rr: Record, fs: seq<Field>): Result<seq<Value>, Error>
    decreases |fs|
  {
    if fs == [] then Ok([])
    else if fs[0].name !in rr.attrs then Err(MissingAttribute(fs[0].name))
    else
      var v := rr.attrs[fs[0].name];
      var head :- match v
        case Rec(r) => RawValuesAsWritten(r)
        case List(items) => Ok(items)
        case Int(_) => Ok([v]);
      var rest :- SerializeFieldsAsWritten(rr, fs[1..]);
      Ok(head + rest)
  }

  /** A class whose one field is a two-byte array, and a class holding it. */
  const ArrayHolder := Schema("ArrayHolder", None, [Field("a", ArrayOf(PrimElem(U8), 2), None)])
  const Wrapper := Schema("Wrapper", None, [Field("inner", Nested(ArrayHolder), None)])

  const HolderRecord := Record(ArrayHolder, map["a" := List([Int(1), Int(2)])])
  const WrapperRecord := Record(Wrapper, map["inner" := Rec(HolderRecord)])

  /** A record nesting a fixed array: `serialize` as written takes the
      nested record's `raw_values`, which hands the array whole to
      `struct.pack`, and a list cannot be packed into a `B`; flattening it, as
      `serialize` does one level up, gives the two bytes. */
  lemma NestedArrayAsWritten()
    ensures Format(Wrapper) == [U8, U8]
    ensures RawValuesAsWritten(WrapperRecord) == Ok([List([Int(1), Int(2)])])
    ensures SerializeValuesAsWritten(WrapperRecord) == RawValuesAsWritten(WrapperRecord)
    ensures Pack(Format(Wrapper), RawValuesAsWritten(WrapperRecord).value) == Err(PackError)
    ensures RawValues(WrapperRecord) == Ok([Int(1), Int(2)])
    ensures Pack(Format(Wrapper), RawValues(WrapperRecord).value) == Ok([1, 2])
  {
    HolderLayout();
    HolderAsWritten();
    HolderFlattened();
    assert PackInts([U8, U8], [1, 2]) == [1, 2];
  }

  lemma HolderAsWritten()
    ensures RawValuesAsWritten(WrapperRecord) == Ok([List([Int(1), Int(2)])])
    ensures SerializeValuesAsWritten(WrapperRecord) == Ok([List([Int(1), Int(2)])])
  {
    HolderLayout();
    var hs, ws := Fixed(ArrayHolder), Fixed(Wrapper);
    var v := List([Int(1), Int(2)]);
    assert [v] + [] == [v];
    assert RawFieldsAsWritten(HolderRecord, hs[1..]) == Ok([]);
    assert RawFieldsAsWritten(HolderRecord, hs) == Ok([v]);
    assert RawFieldsAsWritten(WrapperRecord, ws[1..]) == Ok([]);
    assert RawFieldsAsWritten(WrapperRecord, ws) == Ok([v]);
    assert SerializeFieldsAsWritten(WrapperRecord, ws[1..]) == Ok([]);
    assert SerializeFieldsAsWritten(WrapperRecord, ws) == Ok([v]);
  }

  lemma HolderFlattened()
    ensures RawValues(WrapperRecord) == Ok([Int(1), Int(2)])
  {
    HolderLayout();
    var hs, ws := Fixed(ArrayHolder), Fixed(Wrapper);
    var vs := [Int(1), Int(2)];
    assert vs + [] == vs;
    assert FlattenFields(HolderRecord, hs[1..]) == Ok([]);
    assert FlattenFields(HolderRecord, hs) == Ok(vs);
    assert FlattenValue(Rec(HolderRecord)) == Ok(vs);
    assert FlattenFields(WrapperRecord, ws[1..]) == Ok([]);
    assert FlattenFields(WrapperRecord, ws) == Ok(vs);
  }

  lemma HolderLayout()
    ensures Fixed(ArrayHolder) == ArrayHolder.fields && Format(ArrayHolder) == [U8, U8]
    ensures Fixed(Wrapper) == Wrapper.fields && Format(Wrapper) == [U8, U8]
  {
    assert ArrayHolder.fields[..0] == [] && Wrapper.fields[..0] == [];
    assert Fixed(ArrayHolder) == ArrayHolder.fields;
    assert Repeat([U8], 2) == [U8, U8];
    assert Format(ArrayHolder) == [U8, U8];
    assert Fixed(Wrapper) == Wrapper.fields;
    assert TypeFormat(Nested(ArrayHolder)) == [U8, U8];
    assert JoinFormats(Wrapper, Wrapper.fields[..0]) == [];
    assert JoinFormats(Wrapper, Wrapper.fields) == [U8, U8];
  }

  /** `serialize`: nothing for an empty class; otherwise the packed fixed prefix
      followed by each trailer's `variable_serialize`, in declaration order. */
  function Encode(rr: Record): Result<Bytes, Error>
    decreases rr, 4
  {
    if IsEmpty(rr.schema) then Ok([]) else EncodeNonEmpty(rr)
  }

  /** `serialize` of a class with at least one annotation. */
  function EncodeNonEmpty(rr: Record): Result<Bytes, Error>
    decreases rr, 3
  {
    var s := rr.schema;
    var vals :- RawValues(rr);
    var prefix :- Pack(Format(s), vals);
    var tail :- TrailerBytes(rr, Trailers(s));
    Ok(prefix + tail)
  }

  /** The trailer loop of `serialize` over the trailers `ts`. */
  function TrailerBytes(rr: Record, ts: seq<Field>): Result<Bytes, Error>
    decreases rr, 2, |ts|
  {
    if ts == [] then Ok([])
    else
      var t := ts[0];
      var head :-
        if !t.ty.ArrayOf? then Err(MissingAttribute("variable_serialize"))
        else if t.name !in rr.attrs then Err(MissingAttribute(t.name))
        else VariableSerialize(t.ty.elem, rr.attrs[t.name]);
      var rest :- TrailerBytes(rr, ts[1..]);
      Ok(head + rest)
  }

  /** `Array.variable_serialize`: the concatenated `serialize` of each item when
      the element type is a record class, `struct.pack` of the items otherwise. */
  function VariableSerialize(elem: Elem, v: Value): Result<Bytes, Error>
    decreases v, 1
  {
    if !v.List? then Err(NotIterable)
    else if elem.RecordElem? then SerializeItems(v, 0)
    else Pack(Repeat([elem.p], |v.items|), v.items)
  }

  /** From item `i` on, each item's own `serialize` (the item's class is the one
      it was built with). */
  function SerializeItems(v: Value, i: nat): Result<Bytes, Error>
    requires v.List? && i <= |v.items|
    decreases v, 0, |v.items| - i
  {
    if i == |v.items| then Ok([])
    else if !v.items[i].Rec? then Err(MissingAttribute("serialize"))
    else
      var head :- Encode(v.items[i].r);
      var rest :- SerializeItems(v, i + 1);
      Ok(head + rest)
  }

  // -------------------------------------------------------------- unserialize

  /** How many raw values `_make_self` takes for the fixed fields. */
  function Consumed(s: Schema): nat
    decreases s, 1
  {
    ConsumedFields(s, Fixed(s))
  }

  function ConsumedFields(s: Schema, fs: seq<Field>): nat
    requires forall f :: f in fs ==> f in s.fields
    decreases s, 0, |fs|
  {
    if fs == [] then 0
    else
      assert fs[0] in s.fields;
      TypeConsumed(fs[0].ty) + ConsumedFields(s, fs[1..])
  }

  /** How many raw values `_make_self` takes for one fixed field. */
  function TypeConsumed(ty: FieldType): nat
    decreases ty, 2
  {
    match ty
    case Primitive(_) => 1
    case Nested(e) => Consumed(e)
    case ArrayOf(_, n) => n
  }

  /** `_make_self(vals, trailer_vals)` with the value list read from `pos` on:
      the record and the position after the values it took. */
  function MakeSelf(s: Schema, vals: seq<int>, pos: nat, trailerVals: seq<Value>)
    : (r: Result<(Record, nat), Error>)
    requires pos <= |vals|
    ensures r.Ok? ==> r.value.1 == pos + Consumed(s) <= |vals|
    decreases s, 2
  {
    var (kwargs, next) :- MakeFields(s, Fixed(s), vals, pos, map[]);
    // `is_variable or trailer_vals` and a length check: together, the lengths differ
    if |trailerVals| != |Trailers(s)| then Err(TrailerValuesMismatch)
    else
      var rec :- Construct(s, kwargs + TrailerKwargs(Trailers(s), trailerVals));
      Ok((rec, next))
  }

  /** The loop of `_make_self` over the fixed fields `fs`. */
  function MakeFields(s: Schema, fs: seq<Field>, vals: seq<int>, pos: nat, kwargs: map<string, Value>)
    : (r: Result<(map<string, Value>, nat), Error>)
    requires forall f :: f in fs ==> f in s.fields
    requires pos <= |vals|
    ensures r.Ok? ==> r.value.1 == pos + ConsumedFields(s, fs) <= |vals|
    decreases s, 1, |fs|
  {
    if fs == [] then Ok((kwargs, pos))
    else
      assert fs[0] in s.fields;
      var (v, next) :- TakeField(fs[0].ty, vals, pos);
      MakeFields(s, fs[1..], vals, next, kwargs[fs[0].name := v])
  }

  /** One step of that loop: a primitive pops one value, a fixed array slices
      off its length, a nested record class makes itself from the values that
      follow. */
  function TakeField(ty: FieldType, vals: seq<int>, pos: nat): (r: Result<(Value, nat), Error>)
    requires pos <= |vals|
    ensures r.Ok? ==> r.value.1 == pos + TypeConsumed(ty) <= |vals|
    decreases ty, 3
  {
    match ty
    case Primitive(_) =>
      if pos < |vals| then Ok((Int(vals[pos]), pos + 1)) else Err(ValuesExhausted)
    case Nested(e) =>
      var (rec, next) :- MakeSelf(e, vals, pos, []);
      Ok((Rec(rec), next))
    case ArrayOf(_, n) =>
      if pos + n <= |vals| then Ok((List(Ints(vals[pos..pos + n])), pos + n)) else Err(ValuesExhausted)
  }

  /** The trailer values as keyword arguments, paired with the trailers in order. */
  function TrailerKwargs(ts: seq<Field>, tv: seq<Value>): map<string, Value>
    requires |ts| == |tv|
  {
    if ts == [] then map[]
    else TrailerKwargs(ts[..|ts| - 1], tv[..|tv| - 1])[ts[|ts| - 1].name := tv[|tv| - 1]]
  }

  /** An element type's `raw_length`; a record class without annotations has none. */
  function ElemRawLength(elem: Elem): Result<nat, Error>
  {
    match elem
    case PrimElem(p) => Ok(Width(p))
    case RecordElem(e) => if Declares(e) then Ok(RawLength(e)) else Err(MissingAttribute("raw_length"))
  }

  /** An element type's `_format`. */
  function ElemFormat(elem: Elem): seq<Prim>
  {
    match elem
    case PrimElem(p) => [p]
    case RecordElem(e) => Format(e)
  }

  /** `variable_unserialize` of an annotation: only arrays have it. */
  function TrailerValue(ty: FieldType, bs: Bytes): Result<Value, Error>
  {
    if ty.ArrayOf? then VariableUnserialize(ty.elem, bs)
    else Err(MissingAttribute("variable_unserialize"))
  }

  /** `Array.variable_unserialize`: the bytes must be a whole number of elements;
      they are unpacked with the element format repeated, and with a record
      element the values are cut into records with `_make_self` until none are
      left. */
  function VariableUnserialize(elem: Elem, bs: Bytes): Result<Value, Error>
  {
    var w :- ElemRawLength(elem);
    if w == 0 then Err(ZeroWidthElement)
    else if |bs| % w != 0 then Err(Misaligned)
    else if bs == [] then Ok(List([]))
    else
      var count := |bs| / w;
      assert FormatSize(Repeat(ElemFormat(elem), count)) == |bs| by {
        ElemFormatSize(elem, count);
        DivExact(|bs|, w);
      }
      var vals := UnpackInts(Repeat(ElemFormat(elem), count), bs);
      match elem
      case PrimElem(_) => Ok(List(Ints(vals)))
      case RecordElem(e) =>
        var recs :- MakeAll(e, vals, 0);
        Ok(List(recs))
  }

  lemma ElemFormatSize(elem: Elem, count: nat)
    requires ElemRawLength(elem).Ok?
    ensures FormatSize(Repeat(ElemFormat(elem), count)) == count * ElemRawLength(elem).value
  {
    RepeatSize(ElemFormat(elem), count);
    if elem.RecordElem? { RawLengthIsFormatSize(elem.s); }
  }

  /** The `while vals` loop: records made one after the other until the values
      run out. */
  function MakeAll(e: Schema, vals: seq<int>, pos: nat): Result<seq<Value>, Error>
    requires RawLength(e) > 0
    decreases |vals| - pos
  {
    if pos >= |vals| then Ok([])
    else
      var (rec, next) :- MakeSelf(e, vals, pos, []);
      ConsumedPositive(e);
      var rest :- MakeAll(e, vals, next);
      Ok([Rec(rec)] + rest)
  }

  /** `unserialize`: an empty class is built without reading; otherwise the
      fixed prefix is unpacked from the first `raw_length` bytes and the rest of
      the bytes go to the single trailer, if there is one. Bytes after the prefix
      of a class without trailers are ignored. */
  function Decode(s: Schema, bs: Bytes): Result<Record, Error>
  {
    if IsEmpty(s) then Construct(s, map[])
    else if |bs| < RawLength(s) then Err(Truncated)
    else
      assert FormatSize(Format(s)) == RawLength(s) by { RawLengthIsFormatSize(s); }
      var vals := UnpackInts(Format(s), bs[..RawLength(s)]);
      if |Trailers(s)| > 1 then Err(MultipleTrailers)
      else if |Trailers(s)| == 1 then
        var extra :- TrailerValue(Trailers(s)[0].ty, bs[RawLength(s)..]);
        var (rec, _) :- MakeSelf(s, vals, 0, [extra]);
        Ok(rec)
      else
        var (rec, _) :- MakeSelf(s, vals, 0, []);
        Ok(rec)
  }

  // ------------------------------------------------------ the loops, as methods

  /** The accumulated prefix of a loop in front of what the rest of the loop yields. */
  function Prepend<T>(acc: seq<T>, rest: Result<seq<T>, Error>): Result<seq<T>, Error>
  {
    if rest.Ok? then Ok(acc + rest.value) else rest
  }

  lemma PrependNil<T>(rest: Result<seq<T>, Error>)
    ensures Prepend([], rest) == rest
  {
    if rest.Ok? {
      assert [] + rest.value == rest.value;
    }
  }

  lemma PrependAssoc<T>(a: seq<T>, b: seq<T>, rest: Result<seq<T>, Error>)
    ensures Prepend(a, Prepend(b, rest)) == Prepend(a + b, rest)
  {
    if rest.Ok? {
      assert a + (b + rest.value) == a + b + rest.value;
    }
  }

  /** `serialize`: the loop flattening the fixed attributes, `struct.pack`, and
      the loop appending the trailers. */
  method Serialize(rr: Record) returns (r: Result<Bytes, Error>)
    ensures r == Encode(rr)
    decreases rr, 3
  {
    var s := rr.schema;
    if IsEmpty(s) {
      return Ok([]);
    }
    var vals := FlattenFixed(rr);
    if vals.Err? {
      return Err(vals.error);
    }
    var packed := Pack(Format(s), vals.value);
    if packed.Err? {
      return Err(packed.error);
    }
    var tail := SerializeTrailers(rr, Trailers(s));
    if tail.Err? {
      return Err(tail.error);
    }
    assert Encode(rr) == EncodeNonEmpty(rr);
    return Ok(packed.value + tail.value);
  }

  /** The loop of `serialize` flattening the fixed attributes: a nested record
      contributes its own raw values, an array its items, an integer itself. */
  method FlattenFixed(rr: Record) returns (r: Result<seq<Value>, Error>)
    ensures r == RawValues(rr)
    decreases rr, 2
  {
    var fs := Fixed(rr.schema);
    var vals: seq<Value> := [];
    var i := 0;
    assert fs[0..] == fs;
    PrependNil(RawValues(rr));
    while i < |fs|
      invariant 0 <= i <= |fs|
      invariant RawValues(rr) == Prepend(vals, FlattenFields(rr, fs[i..]))
    {
      var f := fs[i];
      assert fs[i..][1..] == fs[i + 1..];
      if f.name !in rr.attrs {
        return Err(MissingAttribute(f.name));
      }
      var attr := rr.attrs[f.name];
      var head: seq<Value>;
      match attr {
        case Rec(inner) =>
          var raw := RawValues(inner);
          if raw.Err? {
            return Err(raw.error);
          }
          head := raw.value;
        case List(items) =>
          head := items;
        case Int(_) =>
          head := [attr];
      }
      PrependAssoc(vals, head, FlattenFields(rr, fs[i + 1..]));
      vals := vals + head;
      i := i + 1;
    }
    assert fs[i..] == [] && vals + [] == vals;
    return Ok(vals);
  }

  /** The loop of `serialize` appending each trailer's `variable_serialize`. */
  method SerializeTrailers(rr: Record, ts: seq<Field>) returns (r: Result<Bytes, Error>)
    ensures r == TrailerBytes(rr, ts)
    decreases rr, 2, 0
  {
    var bs: Bytes := [];
    var j := 0;
    assert ts[0..] == ts;
    PrependNil(TrailerBytes(rr, ts));
    while j < |ts|
      invariant 0 <= j <= |ts|
      invariant TrailerBytes(rr, ts) == Prepend(bs, TrailerBytes(rr, ts[j..]))
    {
      var t := ts[j];
      assert ts[j..][1..] == ts[j + 1..];
      if !t.ty.ArrayOf? {
        return Err(MissingAttribute("variable_serialize"));
      }
      if t.name !in rr.attrs {
        return Err(MissingAttribute(t.name));
      }
      var more := SerializeTrailer(t.ty.elem, rr.attrs[t.name]);
      if more.Err? {
        return Err(more.error);
      }
      PrependAssoc(bs, more.value, TrailerBytes(rr, ts[j + 1..]));
      bs := bs + more.value;
      j := j + 1;
    }
    assert ts[j..] == [] && bs + [] == bs;
    return Ok(bs);
  }

  /** `Array.variable_serialize`, with its loop over the items of a record array. */
  method SerializeTrailer(elem: Elem, v: Value) returns (r: Result<Bytes, Error>)
    ensures r == VariableSerialize(elem, v)
    decreases v, 1
  {
    if !v.List? {
      return Err(NotIterable);
    }
    if elem.PrimElem? {
      return Pack(Repeat([elem.p], |v.items|), v.items);
    }
    var output: Bytes := [];
    var i := 0;
    PrependNil(SerializeItems(v, 0));
    while i < |v.items|
      invariant 0 <= i <= |v.items|
      invariant SerializeItems(v, 0) == Prepend(output, SerializeItems(v, i))
    {
      var item := v.items[i];
      if !item.Rec? {
        return Err(MissingAttribute("serialize"));
      }
      var bs := Serialize(item.r);
      if bs.Err? {
        return Err(bs.error);
      }
      PrependAssoc(output, bs.value, SerializeItems(v, i + 1));
      output := output + bs.value;
      i := i + 1;
    }
    assert output + [] == output;
    return Ok(output);
  }

  /** `_make_self`: the cursor loop over the fixed fields, then the loop pairing
      the trailers with their values, then the constructor. */
  method ReadRecord(s: Schema, vals: seq<int>, pos: nat, trailerVals: seq<Value>)
    returns (r: Result<(Record, nat), Error>)
    requires pos <= |vals|
    ensures r == MakeSelf(s, vals, pos, trailerVals)
    decreases s, 2
  {
    var fixed := ReadFields(s, vals, pos);
    if fixed.Err? {
      return Err(fixed.error);
    }
    var (kwargs, p) := fixed.value;
    var ts := Trailers(s);
    if |trailerVals| != |ts| {
      return Err(TrailerValuesMismatch);
    }
    kwargs := AddTrailers(kwargs, ts, trailerVals);
    var rec := Init(s, kwargs);
    if rec.Err? {
      return Err(rec.error);
    }
    return Ok((rec.value, p));
  }

  /** The loop of `_make_self` pairing each trailer with its value, on top of
      the keyword arguments read so far. */
  method AddTrailers(kwargs: map<string, Value>, ts: seq<Field>, tv: seq<Value>)
    returns (r: map<string, Value>)
    requires |ts| == |tv|
    ensures r == kwargs + TrailerKwargs(ts, tv)
  {
    r := kwargs;
    var j := 0;
    while j < |ts|
      invariant 0 <= j <= |ts|
      invariant r == kwargs + TrailerKwargs(ts[..j], tv[..j])
    {
      assert ts[..j + 1][..j] == ts[..j] && tv[..j + 1][..j] == tv[..j];
      r := r[ts[j].name := tv[j]];
      j := j + 1;
    }
    assert ts[..j] == ts && tv[..j] == tv;
  }

  /** The cursor loop of `_make_self` over the fixed fields. */
  method ReadFields(s: Schema, vals: seq<int>, pos: nat)
    returns (r: Result<(map<string, Value>, nat), Error>)
    requires pos <= |vals|
    ensures r == MakeFields(s, Fixed(s), vals, pos, map[])
    decreases s, 1
  {
    var fs := Fixed(s);
    var kwargs: map<string, Value> := map[];
    var p: nat := pos;
    var i := 0;
    while i < |fs|
      invariant 0 <= i <= |fs| && p <= |vals|
      invariant MakeFields(s, fs, vals, pos, map[]) == MakeFields(s, fs[i..], vals, p, kwargs)
    {
      var f := fs[i];
      assert f in s.fields;
      assert fs[i..][1..] == fs[i + 1..];
      var v: Value;
      match f.ty {
        case Primitive(_) =>
          if p >= |vals| {
            return Err(ValuesExhausted);
          }
          v := Int(vals[p]);
          p := p + 1;
        case Nested(e) =>
          var made := ReadRecord(e, vals, p, []);
          if made.Err? {
            return Err(made.error);
          }
          v := Rec(made.value.0);
          p := made.value.1;
        case ArrayOf(_, n) =>
          if p + n > |vals| {
            return Err(ValuesExhausted);
          }
          v := List(Ints(vals[p..p + n]));
          p := p + n;
      }
      kwargs := kwargs[f.name := v];
      i := i + 1;
    }
    return Ok((kwargs, p));
  }

  /** `Array.variable_unserialize`, with its `while vals` loop for record elements. */
  method UnserializeTrailer(ty: FieldType, bs: Bytes) returns (r: Result<Value, Error>)
    ensures r == TrailerValue(ty, bs)
  {
    if !ty.ArrayOf? {
      return Err(MissingAttribute("variable_unserialize"));
    }
    var elem := ty.elem;
    var width := ElemRawLength(elem);
    if width.Err? {
      return Err(width.error);
    }
    var w := width.value;
    if w == 0 {
      return Err(ZeroWidthElement);
    }
    if |bs| % w != 0 {
      return Err(Misaligned);
    }
    if bs == [] {
      return Ok(List([]));
    }
    var count := |bs| / w;
    ElemFormatSize(elem, count);
    DivExact(|bs|, w);
    var vals := UnpackInts(Repeat(ElemFormat(elem), count), bs);
    if elem.PrimElem? {
      return Ok(List(Ints(vals)));
    }
    var e := elem.s;
    var recs: seq<Value> := [];
    var p: nat := 0;
    PrependNil(MakeAll(e, vals, 0));
    while p < |vals|
      invariant p <= |vals|
      invariant MakeAll(e, vals, 0) == Prepend(recs, MakeAll(e, vals, p))
      decreases |vals| - p
    {
      var made := ReadRecord(e, vals, p, []);
      if made.Err? {
        return Err(made.error);
      }
      ConsumedPositive(e);
      PrependAssoc(recs, [Rec(made.value.0)], MakeAll(e, vals, made.value.1));
      recs := recs + [Rec(made.value.0)];
      p := made.value.1;
    }
    assert recs + [] == recs;
    return Ok(List(recs));
  }

  /** `unserialize`. */
  method Unserialize(s: Schema, bs: Bytes) returns (r: Result<Record, Error>)
    ensures r == Decode(s, bs)
  {
    if IsEmpty(s) {
      r := Init(s, map[]);
      return;
    }
    if |bs| < RawLength(s) {
      return Err(Truncated);
    }
    RawLengthIsFormatSize(s);
    var vals := UnpackInts(Format(s), bs[..RawLength(s)]);
    var ts := Trailers(s);
    if |ts| > 1 {
      return Err(MultipleTrailers);
    }
    var trailerVals: seq<Value> := [];
    if |ts| == 1 {
      var extra := UnserializeTrailer(ts[0].ty, bs[RawLength(s)..]);
      if extra.Err? {
        return Err(extra.error);
      }
      trailerVals := [extra.value];
    }
    var made := ReadRecord(s, vals, 0, trailerVals);
    if made.Err? {
      return Err(made.error);
    }
    return Ok(made.value.0);
  }

  // -------------------------------------------------------------- lemmas used above

  lemma {:induction false} TypeConsumedPositive(ty: FieldType)
    requires TypeRawLength(ty) > 0
    ensures TypeConsumed(ty) > 0
    decreases ty, 2
  {
    match ty
    case Primitive(_) =>
    case Nested(e) => ConsumedPositive(e);
    case ArrayOf(_, n) =>
  }

  /** A class with a non-empty fixed prefix takes at least one raw value. */
  lemma {:induction false} ConsumedPositive(s: Schema)
    requires RawLength(s) > 0
    ensures Consumed(s) > 0
    decreases s, 1
  {
    ConsumedFieldsPositive(s, Fixed(s));
  }

  lemma {:induction false} ConsumedFieldsPositive(s: Schema, fs: seq<Field>)
    requires forall f :: f in fs ==> f in s.fields
    requires SumRawLength(s, fs) > 0
    ensures ConsumedFields(s, fs) > 0
    decreases s, 0, |fs|
  {
    assert fs[0] in s.fields;
    SumRawLengthCons(s, fs);
    if TypeRawLength(fs[0].ty) > 0 {
      TypeConsumedPositive(fs[0].ty);
    } else {
      ConsumedFieldsPositive(s, fs[1..]);
    }
  }
}
