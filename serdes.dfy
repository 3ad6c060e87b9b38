/** The schema side of the record engine of fakeusb/serdes.py (the same code is
    repeated in fakeusb/protocol.py): field types, declared schemas, the values a
    record holds, and what the metaclass `Meta` compiles from a field list — the
    fixed prefix, the trailing variable fields, `raw_length` and the struct format. */
module Serdes {
  import opened Wrappers
  import opened Wire

  /** The element type of an `Array`: a primitive or a record class. */
  datatype Elem = PrimElem(p: Prim) | RecordElem(s: Schema)

  /** A field annotation: a primitive of `T`, a nested record class, or
      `Array(elem, length)`; `length == 0` is the unbounded array (the source
      tests `not length_`), which is a trailer. */
  datatype FieldType = Primitive(p: Prim) | Nested(s: Schema) | ArrayOf(elem: Elem, length: nat)

  /** One annotated class attribute, with the class-level default if it has one. */
  datatype Field = Field(name: string, ty: FieldType, default: Option<Value>)

  /** A record class: its name, its `type_id` when it declares one, and its
      annotations in declaration order. */
  datatype Schema = Schema(name: string, typeId: Option<nat>, fields: seq<Field>)

  /** An attribute value: an integer, a sequence (bytes, list and tuple alike),
      or a record. */
  datatype Value = Int(n: int) | List(items: seq<Value>) | Rec(r: Record)

  /** A record instance: its class and its attributes. */
  datatype Record = Record(schema: Schema, attrs: map<string, Value>)

  /** The exceptions the engine raises, named after what causes them. */
  datatype Error =
    | ConstantAfterTrailer(field: string)   // TypeError when the class is created
    | MissingField(field: string)           // KeyError from the constructor
    | UnexpectedFields(names: set<string>)  // KeyError from the constructor
    | PackError                             // struct.error while packing
    | Truncated                             // struct.error: fewer bytes than raw_length
    | MultipleTrailers                      // TypeError from unserialize
    | Misaligned                            // ValueError from variable_unserialize
    | ZeroWidthElement                      // ZeroDivisionError from variable_unserialize
    | TrailerValuesMismatch                 // ValueError from _make_self
    | ValuesExhausted                       // IndexError: pop from an empty value list
    | MissingAttribute(attribute: string)   // AttributeError
    | NotIterable                           // TypeError: a scalar where a sequence is needed
    | NotAnInteger                          // TypeError: arithmetic or indexing on a non-integer
    | InvalidValue                          // ValueError: a bad argument value
    | KeyNotFound(key: Value)               // KeyError from a dictionary lookup
    | Unhashable                            // TypeError: a list used as a dictionary key
    | IndexOutOfRange(index: int)           // IndexError from a list index

  /** A class gets `raw_length` (and so counts as a wire type) only when it
      declares annotations. */
  predicate Declares(s: Schema)
  {
    |s.fields| > 0
  }

  /** Annotations naming a record class without `raw_length` are skipped by the compiler. */
  predicate Ignored(f: Field)
  {
    f.ty.Nested? && !Declares(f.ty.s)
  }

  /** The annotation's `is_variable`: an unbounded array, or a record class that has trailers. */
  predicate IsVariable(ty: FieldType)
    decreases ty, 0
  {
    match ty
    case Primitive(_) => false
    case Nested(s) => |TrailersOf(s.fields)| > 0
    case ArrayOf(_, n) => n == 0
  }

  predicate IsFixedField(f: Field)
  {
    !Ignored(f) && !IsVariable(f.ty)
  }

  predicate IsTrailerField(f: Field)
  {
    !Ignored(f) && IsVariable(f.ty)
  }

  /** The trailers of a field list, in declaration order. */
  function TrailersOf(fs: seq<Field>): (r: seq<Field>)
    ensures forall f :: f in r ==> f in fs
    decreases fs, 1
  {
    if fs == [] then []
    else
      var init := fs[..|fs| - 1];
      var f := fs[|fs| - 1];
      TrailersOf(init) + (if !Ignored(f) && IsVariable(f.ty) then [f] else [])
  }

  /** The fixed (constant-length) fields of a field list, in declaration order. */
  function FixedOf(fs: seq<Field>): (r: seq<Field>)
    ensures forall f :: f in r ==> f in fs && IsFixedField(f)
  {
    if fs == [] then []
    else
      var init := fs[..|fs| - 1];
      var f := fs[|fs| - 1];
      FixedOf(init) + (if IsFixedField(f) then [f] else [])
  }

  /** The fields the compiler keeps, in declaration order. */
  function Kept(fs: seq<Field>): (r: seq<Field>)
    ensures forall f :: f in r ==> f in fs
  {
    if fs == [] then []
    else
      var init := fs[..|fs| - 1];
      var f := fs[|fs| - 1];
      Kept(init) + (if !Ignored(f) then [f] else [])
  }

  /** The compile error: some fixed field is declared after a trailer. */
  predicate FixedFollowsTrailer(fs: seq<Field>)
  {
    if fs == [] then false
    else
      var init := fs[..|fs| - 1];
      FixedFollowsTrailer(init) || (IsFixedField(fs[|fs| - 1]) && TrailersOf(init) != [])
  }

  function Fixed(s: Schema): seq<Field>
  {
    FixedOf(s.fields)
  }

  function Trailers(s: Schema): seq<Field>
  {
    TrailersOf(s.fields)
  }

  /** `_all_fields`: the fixed fields, then the trailers. */
  function AllFields(s: Schema): seq<Field>
  {
    Fixed(s) + Trailers(s)
  }

  /** `is_empty`: neither fixed fields nor trailers. */
  predicate IsEmpty(s: Schema)
  {
    Fixed(s) == [] && Trailers(s) == []
  }

  /** The byte width an annotation adds to the fixed prefix (its `raw_length`). */
  function TypeRawLength(ty: FieldType): nat
    decreases ty, 2
  {
    match ty
    case Primitive(p) => Width(p)
    case Nested(e) => RawLength(e)
    case ArrayOf(PrimElem(p), n) => n * Width(p)
    case ArrayOf(RecordElem(e), n) => n * RawLength(e)
  }

  /** `raw_length`: the sum of the fixed fields' widths. */
  function RawLength(s: Schema): nat
    decreases s, 1
  {
    SumRawLength(s, Fixed(s))
  }

  function SumRawLength(s: Schema, fs: seq<Field>): nat
    requires forall f :: f in fs ==> f in s.fields
    decreases s, 0, |fs|
  {
    if fs == [] then 0
    else
      assert fs[|fs| - 1] in s.fields;
      SumRawLength(s, fs[..|fs| - 1]) + TypeRawLength(fs[|fs| - 1].ty)
  }

  /** `n` copies of a format, one after the other (`fmt * n`). */
  function Repeat(fmt: seq<Prim>, n: nat): (r: seq<Prim>)
    ensures |r| == n * |fmt|
  {
    if n == 0 then [] else Repeat(fmt, n - 1) + fmt
  }

  /** The struct codes an annotation adds to the fixed-prefix format (its `_format`). */
  function TypeFormat(ty: FieldType): seq<Prim>
    decreases ty, 2
  {
    match ty
    case Primitive(p) => [p]
    case Nested(e) => Format(e)
    case ArrayOf(PrimElem(p), n) => Repeat([p], n)
    case ArrayOf(RecordElem(e), n) => Repeat(Format(e), n)
  }

  /** `_format`: the fixed fields' codes in declaration order. */
  function Format(s: Schema): seq<Prim>
    decreases s, 1
  {
    JoinFormats(s, Fixed(s))
  }

  function JoinFormats(s: Schema, fs: seq<Field>): seq<Prim>
    requires forall f :: f in fs ==> f in s.fields
    decreases s, 0, |fs|
  {
    if fs == [] then []
    else
      assert fs[|fs| - 1] in s.fields;
      JoinFormats(s, fs[..|fs| - 1]) + TypeFormat(fs[|fs| - 1].ty)
  }

  predicate DistinctNames(fs: seq<Field>)
  {
    forall i, j :: 0 <= i < j < |fs| ==> fs[i].name != fs[j].name
  }

  /** A class that exists: its own field list compiled, its annotation names are
      distinct (they are the keys of `__annotations__`), and every record class it
      mentions exists too. */
  predicate Compiled(s: Schema)
    decreases s, 1
  {
    && !FixedFollowsTrailer(s.fields)
    && DistinctNames(s.fields)
    && forall i :: 0 <= i < |s.fields| ==> TypeDefined(s.fields[i].ty)
  }

  /** An annotation that can be evaluated: `Array(E, n)` with `n > 0` reads
      `E.raw_length`, which a class without annotations lacks. */
  predicate TypeDefined(ty: FieldType)
    decreases ty, 0
  {
    match ty
    case Primitive(_) => true
    case Nested(e) => Compiled(e)
    case ArrayOf(PrimElem(_), _) => true
    case ArrayOf(RecordElem(e), n) => Compiled(e) && (n > 0 ==> Declares(e))
  }

  /** What `Meta.__new__` stores on the class. */
  datatype Layout = Layout(fixed: seq<Field>, trailers: seq<Field>, rawLength: nat, format: seq<Prim>)

  lemma {:induction false} FixedFollowsTrailerPrefix(fs: seq<Field>, i: nat)
    requires i <= |fs|
    requires FixedFollowsTrailer(fs[..i])
    ensures FixedFollowsTrailer(fs)
    decreases |fs| - i
  {
    if i < |fs| {
      assert fs[..i + 1][..i] == fs[..i];
      FixedFollowsTrailerPrefix(fs, i + 1);
    } else {
      assert fs[..i] == fs;
    }
  }

  /** `Meta.__new__`: one pass over the annotations, sorting them into fixed
      fields and trailers and accumulating `raw_length` and the format; a fixed
      field after a trailer is a TypeError. */
  method Compile(s: Schema) returns (r: Result<Layout, Error>)
    ensures r.Err? <==> FixedFollowsTrailer(s.fields)
    ensures r.Err? ==> r.error.ConstantAfterTrailer?
    ensures r.Ok? ==> r.value == Layout(Fixed(s), Trailers(s), RawLength(s), Format(s))
  {
    var fs := s.fields;
    var fixed: seq<Field> := [];
    var trailers: seq<Field> := [];
    var rawLength: nat := 0;
    var format: seq<Prim> := [];
    var i := 0;
    while i < |fs|
      invariant 0 <= i <= |fs|
      invariant fixed == FixedOf(fs[..i]) && trailers == TrailersOf(fs[..i])
      invariant rawLength == SumRawLength(s, fixed) && format == JoinFormats(s, fixed)
      invariant !FixedFollowsTrailer(fs[..i])
    {
      var f := fs[i];
      ClassifyNext(fs, i);
      if !Ignored(f) {
        if IsVariable(f.ty) {
          trailers := trailers + [f];
        } else {
          if trailers != [] {
            FixedFollowsTrailerPrefix(fs, i + 1);
            return Err(ConstantAfterTrailer(f.name));
          }
          assert (fixed + [f])[..|fixed|] == fixed;
          fixed := fixed + [f];
          rawLength := rawLength + TypeRawLength(f.ty);
          format := format + TypeFormat(f.ty);
        }
      }
      ghost var next := fs[..i + 1];
      assert !FixedFollowsTrailer(next);
      i := i + 1;
      assert fs[..i] == next;
    }
    assert fs[..i] == fs;
    return Ok(Layout(fixed, trailers, rawLength, format));
  }

  /** One more annotation: it joins the fixed fields or the trailers, or
      neither when it is skipped. */
  lemma ClassifyNext(fs: seq<Field>, i: nat)
    requires i < |fs|
    ensures FixedOf(fs[..i + 1]) == FixedOf(fs[..i]) + (if IsFixedField(fs[i]) then [fs[i]] else [])
    ensures TrailersOf(fs[..i + 1]) == TrailersOf(fs[..i]) + (if !Ignored(fs[i]) && IsVariable(fs[i].ty) then [fs[i]] else [])
    ensures FixedFollowsTrailer(fs[..i + 1]) == (FixedFollowsTrailer(fs[..i]) || (IsFixedField(fs[i]) && TrailersOf(fs[..i]) != []))
  {
    assert fs[..i + 1][..i] == fs[..i];
    assert fs[..i + 1][i] == fs[i];
  }

  /** When the class compiles, `_all_fields` is the kept annotations in declaration order. */
  lemma {:induction false} AllFieldsInDeclarationOrder(fs: seq<Field>)
    requires !FixedFollowsTrailer(fs)
    ensures FixedOf(fs) + TrailersOf(fs) == Kept(fs)
  {
    if fs != [] {
      var init := fs[..|fs| - 1];
      var f := fs[|fs| - 1];
      AllFieldsInDeclarationOrder(init);
      if IsFixedField(f) {
        assert TrailersOf(init) == [];
      }
    }
  }

  lemma {:induction false} KeptDistinct(fs: seq<Field>)
    requires DistinctNames(fs)
    ensures DistinctNames(Kept(fs))
  {
    if fs != [] {
      var init := fs[..|fs| - 1];
      var f := fs[|fs| - 1];
      assert DistinctNames(init) by {
        forall i, j | 0 <= i < j < |init| ensures init[i].name != init[j].name {
          assert init[i] == fs[i] && init[j] == fs[j];
        }
      }
      KeptDistinct(init);
      var k := Kept(init);
      forall g | g in k ensures g.name != f.name {
        assert g in init;
        var i :| 0 <= i < |init| && init[i] == g;
        assert fs[i] == g;
      }
    }
  }

  /** The attributes a record has: the kept annotations, each name once. */
  lemma AllFieldsDistinct(s: Schema)
    requires Compiled(s)
    ensures DistinctNames(AllFields(s))
  {
    AllFieldsInDeclarationOrder(s.fields);
    KeptDistinct(s.fields);
  }

  lemma {:induction false} RepeatSize(fmt: seq<Prim>, n: nat)
    ensures FormatSize(Repeat(fmt, n)) == n * FormatSize(fmt)
  {
    if n > 0 {
      RepeatSize(fmt, n - 1);
      FormatSizeAppend(Repeat(fmt, n - 1), fmt);
    }
  }

  /** The struct format packs exactly `raw_length` bytes: there is no padding, so
      the prefix the decoder slices off fits the format. */
  lemma {:induction false} RawLengthIsFormatSize(s: Schema)
    ensures FormatSize(Format(s)) == RawLength(s)
    decreases s, 1
  {
    JoinSize(s, Fixed(s));
  }

  lemma {:induction false} JoinSize(s: Schema, fs: seq<Field>)
    requires forall f :: f in fs ==> f in s.fields
    ensures FormatSize(JoinFormats(s, fs)) == SumRawLength(s, fs)
    decreases s, 0, |fs|
  {
    if fs != [] {
      var f := fs[|fs| - 1];
      assert f in s.fields;
      JoinSize(s, fs[..|fs| - 1]);
      TypeSize(f.ty);
      FormatSizeAppend(JoinFormats(s, fs[..|fs| - 1]), TypeFormat(f.ty));
    }
  }

  lemma {:induction false} TypeSize(ty: FieldType)
    ensures FormatSize(TypeFormat(ty)) == TypeRawLength(ty)
    decreases ty, 2
  {
    match ty
    case Primitive(p) =>
    case Nested(e) => RawLengthIsFormatSize(e);
    case ArrayOf(PrimElem(p), n) => RepeatSize([p], n);
    case ArrayOf(RecordElem(e), n) =>
      RawLengthIsFormatSize(e);
      RepeatSize(Format(e), n);
  }
  /** `raw_length` read from the front: the first field's width, then the rest. */
  lemma {:induction false} SumRawLengthCons(s: Schema, fs: seq<Field>)
    requires forall f :: f in fs ==> f in s.fields
    requires fs != []
    ensures SumRawLength(s, fs) == TypeRawLength(fs[0].ty) + SumRawLength(s, fs[1..])
  {
    if |fs| > 1 {
      var init := fs[..|fs| - 1];
      SumRawLengthCons(s, init);
      assert init[1..] == fs[1..][..|fs[1..]| - 1];
      assert fs[1..][|fs[1..]| - 1] == fs[|fs| - 1];
    } else {
      assert fs[..0] == [] && fs[1..] == [];
    }
  }

  /** The struct format read from the front: the first field's codes, then the rest. */
  lemma {:induction false} JoinFormatsCons(s: Schema, fs: seq<Field>)
    requires forall f :: f in fs ==> f in s.fields
    requires fs != []
    ensures JoinFormats(s, fs) == TypeFormat(fs[0].ty) + JoinFormats(s, fs[1..])
  {
    if |fs| > 1 {
      var init := fs[..|fs| - 1];
      JoinFormatsCons(s, init);
      assert init[1..] == fs[1..][..|fs[1..]| - 1];
      assert fs[1..][|fs[1..]| - 1] == fs[|fs| - 1];
    } else {
      assert fs[..0] == [] && fs[1..] == [];
    }
  }

  /** `fmt * n` read from the front. */
  lemma {:induction false} RepeatCons(fmt: seq<Prim>, n: nat)
    requires n > 0
    ensures Repeat(fmt, n) == fmt + Repeat(fmt, n - 1)
  {
    if n > 1 {
      RepeatCons(fmt, n - 1);
    }
  }
}
