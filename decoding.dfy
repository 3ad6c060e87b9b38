/** What `unserialize` and `variable_unserialize` of fakeusb/serdes.py read:
    the errors they raise and, for the bytes of an unbounded array, how many
    elements come back and which bytes each is read from. */
module Decoding {
  import opened Wrappers
  import opened Wire
  import opened Serdes
  import opened Records
  import opened Codec
  import opened CodecLaws

  // ------------------------------------------------------------ struct.unpack

  /** Unpacking two formats one after the other unpacks each from its own bytes. */
  lemma {:induction false} UnpackAppend(a: seq<Prim>, b: seq<Prim>, bs: Bytes)
    requires |bs| == FormatSize(a) + FormatSize(b)
    ensures FormatSize(a + b) == |bs|
    ensures UnpackInts(a + b, bs) == UnpackInts(a, bs[..FormatSize(a)]) + UnpackInts(b, bs[FormatSize(a)..])
  {
    FormatSizeAppend(a, b);
    if a == [] {
      assert a + b == b && bs[..0] == [] && bs[0..] == bs;
    } else {
      var w := Width(a[0]);
      UnpackAppend(a[1..], b, bs[w..]);
      UnpackAppendStep(a, b, bs);
    }
  }

  /** One step of that induction: the first code, then the rest of `a`. */
  lemma UnpackAppendStep(a: seq<Prim>, b: seq<Prim>, bs: Bytes)
    requires a != [] && |bs| == FormatSize(a) + FormatSize(b)
    requires FormatSize(a + b) == |bs|
    requires var w, m := Width(a[0]), FormatSize(a[1..]);
      && FormatSize(a[1..] + b) == |bs| - w
      && UnpackInts(a[1..] + b, bs[w..]) == UnpackInts(a[1..], bs[w..][..m]) + UnpackInts(b, bs[w..][m..])
    ensures UnpackInts(a + b, bs) == UnpackInts(a, bs[..FormatSize(a)]) + UnpackInts(b, bs[FormatSize(a)..])
  {
    var w, a1, n := Width(a[0]), a[1..], FormatSize(a);
    var rest := bs[w..];
    var m := FormatSize(a1);
    FrontOfAppend(a, b, bs);
    SlicePieces(bs, w, n, m);
    UnpackFront(a, bs[..n]);
    Regroup(UnpackInts(a + b, bs), UnpackInts(a, bs[..n]), UnpackInts(b, bs[n..]),
      DecodeUInt(bs[..w]), UnpackInts(a1, rest[..m]));
  }

  lemma FrontOfAppend(a: seq<Prim>, b: seq<Prim>, bs: Bytes)
    requires a != [] && FormatSize(a + b) == |bs|
    ensures Width(a[0]) <= |bs| && FormatSize(a[1..] + b) == |bs| - Width(a[0])
    ensures UnpackInts(a + b, bs) == [DecodeUInt(bs[..Width(a[0])])] + UnpackInts(a[1..] + b, bs[Width(a[0])..])
  {
    assert (a + b)[0] == a[0] && (a + b)[1..] == a[1..] + b;
    UnpackFront(a + b, bs);
  }

  lemma Regroup(whole: seq<int>, left: seq<int>, right: seq<int>, x: int, p: seq<int>)
    requires whole == [x] + (p + right) && left == [x] + p
    ensures whole == left + right
  {
  }

  /** `struct.unpack` reads the first code from the first bytes. */
  lemma UnpackFront(fmt: seq<Prim>, bs: Bytes)
    requires fmt != [] && |bs| == FormatSize(fmt)
    ensures Width(fmt[0]) <= |bs|
    ensures UnpackInts(fmt, bs) == [DecodeUInt(bs[..Width(fmt[0])])] + UnpackInts(fmt[1..], bs[Width(fmt[0])..])
  {
  }

  lemma SlicePieces(bs: Bytes, w: nat, n: nat, m: nat)
    requires w + m == n <= |bs|
    ensures bs[..n][..w] == bs[..w] && bs[..n][w..] == bs[w..][..m] && bs[w..][m..] == bs[n..]
  {
  }

  lemma ConsAssoc(x: int, p: seq<int>, q: seq<int>)
    ensures [x] + (p + q) == [x] + p + q
  {
  }

  /** `fmt * c` read from the front. */
  lemma UnpackRepeatFront(fmt: seq<Prim>, c: nat, bs: Bytes)
    requires c > 0 && |bs| == FormatSize(Repeat(fmt, c))
    ensures FormatSize(fmt) <= |bs| && |bs[FormatSize(fmt)..]| == FormatSize(Repeat(fmt, c - 1))
    ensures UnpackInts(Repeat(fmt, c), bs)
         == UnpackInts(fmt, bs[..FormatSize(fmt)]) + UnpackInts(Repeat(fmt, c - 1), bs[FormatSize(fmt)..])
  {
    RepeatCons(fmt, c);
    FormatSizeAppend(fmt, Repeat(fmt, c - 1));
    UnpackAppend(fmt, Repeat(fmt, c - 1), bs);
  }

  // ------------------------------------------------------------ the bytes of an array

  /** The bytes cut into consecutive slices of `w`, the last one shorter if
      they do not divide evenly. */
  function Pieces(bs: Bytes, w: nat): seq<Bytes>
    requires w > 0
    decreases |bs|
  {
    if bs == [] then []
    else if |bs| < w then [bs]
    else [bs[..w]] + Pieces(bs[w..], w)
  }

  function Join(pieces: seq<Bytes>): Bytes
  {
    if pieces == [] then [] else pieces[0] + Join(pieces[1..])
  }

  /** The slices, put back together, are the bytes. */
  lemma {:induction false} PiecesJoin(bs: Bytes, w: nat)
    requires w > 0
    ensures Join(Pieces(bs, w)) == bs
    decreases |bs|
  {
    if bs != [] && |bs| >= w {
      var rest := Pieces(bs[w..], w);
      assert Pieces(bs, w) == [bs[..w]] + rest;
      assert ([bs[..w]] + rest)[1..] == rest;
      PiecesJoin(bs[w..], w);
      assert Join(Pieces(bs, w)) == bs[..w] + Join(rest);
      assert bs[..w] + bs[w..] == bs;
    } else if bs != [] {
      assert Pieces(bs, w) == [bs] && [bs][1..] == [];
      assert bs + [] == bs;
    }
  }

  // ------------------------------------------------------------ _make_self reads its own values

  /** A result read at `from`, as if read at `to`: the position moves by the
      same amount. */
  function Moved<T>(r: Result<(T, nat), Error>, from: nat, to: nat): Result<(T, nat), Error>
  {
    if r.Ok? && r.value.1 >= from then Ok((r.value.0, r.value.1 - from + to)) else r
  }

  /** `_make_self` reads only the `Consumed(s)` values from `pos` on: on any
      list holding the same values from `pos2` it makes the same record, or
      fails the same way. */
  lemma {:induction false} MakeSelfWindow(s: Schema, vals: seq<int>, pos: nat, tv: seq<Value>, vals2: seq<int>, pos2: nat)
    requires pos + Consumed(s) <= |vals| && pos2 + Consumed(s) <= |vals2|
    requires vals[pos..pos + Consumed(s)] == vals2[pos2..pos2 + Consumed(s)]
    ensures MakeSelf(s, vals2, pos2, tv) == Moved(MakeSelf(s, vals, pos, tv), pos, pos2)
    decreases s, 2
  {
    MakeFieldsWindow(s, Fixed(s), vals, pos, map[], vals2, pos2);
  }

  lemma {:induction false} MakeFieldsWindow(s: Schema, fs: seq<Field>, vals: seq<int>, pos: nat, kwargs: map<string, Value>,
                                            vals2: seq<int>, pos2: nat)
    requires forall f :: f in fs ==> f in s.fields
    requires pos + ConsumedFields(s, fs) <= |vals| && pos2 + ConsumedFields(s, fs) <= |vals2|
    requires vals[pos..pos + ConsumedFields(s, fs)] == vals2[pos2..pos2 + ConsumedFields(s, fs)]
    ensures MakeFields(s, fs, vals2, pos2, kwargs) == Moved(MakeFields(s, fs, vals, pos, kwargs), pos, pos2)
    decreases s, 1, |fs|, 1
  {
    if fs != [] {
      var ty := fs[0].ty;
      WindowSplit(s, fs, vals, pos, vals2, pos2);
      TakeFieldWindow(ty, vals, pos, vals2, pos2);
      if TakeField(ty, vals, pos).Ok? {
        FieldsWindowTaken(s, fs, vals, pos, kwargs, vals2, pos2);
      } else {
        MakeFieldsStops(s, fs, vals, pos, kwargs);
        MakeFieldsStops(s, fs, vals2, pos2, kwargs);
      }
    }
  }

  lemma {:induction false} FieldsWindowTaken(s: Schema, fs: seq<Field>, vals: seq<int>, pos: nat, kwargs: map<string, Value>,
                                             vals2: seq<int>, pos2: nat)
    requires forall f :: f in fs ==> f in s.fields
    requires fs != [] && pos <= |vals| && pos2 <= |vals2| && TakeField(fs[0].ty, vals, pos).Ok?
    requires TakeField(fs[0].ty, vals2, pos2) == Moved(TakeField(fs[0].ty, vals, pos), pos, pos2)
    requires var c, total := TypeConsumed(fs[0].ty), ConsumedFields(s, fs);
      && total == c + ConsumedFields(s, fs[1..])
      && pos + total <= |vals| && pos2 + total <= |vals2|
      && vals[pos + c..pos + total] == vals2[pos2 + c..pos2 + total]
    ensures MakeFields(s, fs, vals2, pos2, kwargs) == Moved(MakeFields(s, fs, vals, pos, kwargs), pos, pos2)
    decreases s, 1, |fs|, 0
  {
    var c := TypeConsumed(fs[0].ty);
    var v := TakeField(fs[0].ty, vals, pos).value.0;
    assert forall f :: f in fs[1..] ==> f in fs;
    MakeFieldsWindow(s, fs[1..], vals, pos + c, kwargs[fs[0].name := v], vals2, pos2 + c);
    FieldsWindowStep(s, fs, vals, pos, kwargs, vals2, pos2, v, c);
  }

  /** The first field taken the same way in both lists, and the rest of the
      loop the same. */
  lemma FieldsWindowStep(s: Schema, fs: seq<Field>, vals: seq<int>, pos: nat, kwargs: map<string, Value>,
                         vals2: seq<int>, pos2: nat, v: Value, c: nat)
    requires forall f :: f in fs ==> f in s.fields
    requires fs != [] && pos + c <= |vals| && pos2 + c <= |vals2|
    requires TakeField(fs[0].ty, vals, pos) == Ok((v, pos + c))
    requires TakeField(fs[0].ty, vals2, pos2) == Ok((v, pos2 + c))
    requires var kw := kwargs[fs[0].name := v];
      MakeFields(s, fs[1..], vals2, pos2 + c, kw) == Moved(MakeFields(s, fs[1..], vals, pos + c, kw), pos + c, pos2 + c)
    ensures MakeFields(s, fs, vals2, pos2, kwargs) == Moved(MakeFields(s, fs, vals, pos, kwargs), pos, pos2)
  {
    var kw := kwargs[fs[0].name := v];
    MakeFieldsCons(s, fs, vals, pos, kwargs, v, pos + c);
    MakeFieldsCons(s, fs, vals2, pos2, kwargs, v, pos2 + c);
    MovedTwice(MakeFields(s, fs[1..], vals, pos + c, kw), pos, pos2, c);
  }

  lemma MovedTwice<T>(r: Result<(T, nat), Error>, pos: nat, pos2: nat, c: nat)
    requires r.Ok? ==> r.value.1 >= pos + c
    ensures Moved(r, pos + c, pos2 + c) == Moved(r, pos, pos2)
  {
  }

  /** The window of the first field and the window of the rest. */
  lemma WindowSplit(s: Schema, fs: seq<Field>, vals: seq<int>, pos: nat, vals2: seq<int>, pos2: nat)
    requires forall f :: f in fs ==> f in s.fields
    requires fs != []
    requires pos + ConsumedFields(s, fs) <= |vals| && pos2 + ConsumedFields(s, fs) <= |vals2|
    requires vals[pos..pos + ConsumedFields(s, fs)] == vals2[pos2..pos2 + ConsumedFields(s, fs)]
    ensures fs[0] in s.fields && forall f :: f in fs[1..] ==> f in s.fields
    ensures var c, total := TypeConsumed(fs[0].ty), ConsumedFields(s, fs);
      && total == c + ConsumedFields(s, fs[1..])
      && pos + total <= |vals| && pos2 + total <= |vals2|
      && vals[pos..pos + c] == vals2[pos2..pos2 + c]
      && vals[pos + c..pos + total] == vals2[pos2 + c..pos2 + total]
  {
    assert fs[0] in fs;
    SubWindows(vals, pos, vals2, pos2, TypeConsumed(fs[0].ty), ConsumedFields(s, fs));
  }

  /** Two equal windows agree on their first `c` values and on the rest. */
  lemma SubWindows(vals: seq<int>, pos: nat, vals2: seq<int>, pos2: nat, c: nat, total: nat)
    requires c <= total && pos + total <= |vals| && pos2 + total <= |vals2|
    requires vals[pos..pos + total] == vals2[pos2..pos2 + total]
    ensures vals[pos..pos + c] == vals2[pos2..pos2 + c]
    ensures vals[pos + c..pos + total] == vals2[pos2 + c..pos2 + total]
  {
    assert vals[pos..pos + c] == vals[pos..pos + total][..c];
    assert vals2[pos2..pos2 + c] == vals2[pos2..pos2 + total][..c];
    assert vals[pos + c..pos + total] == vals[pos..pos + total][c..];
    assert vals2[pos2 + c..pos2 + total] == vals2[pos2..pos2 + total][c..];
  }

  /** The loop stops at the first field it cannot take. */
  lemma MakeFieldsStops(s: Schema, fs: seq<Field>, vals: seq<int>, pos: nat, kwargs: map<string, Value>)
    requires forall f :: f in fs ==> f in s.fields
    requires fs != [] && pos <= |vals| && TakeField(fs[0].ty, vals, pos).Err?
    ensures MakeFields(s, fs, vals, pos, kwargs) == Err(TakeField(fs[0].ty, vals, pos).error)
  {
  }

  lemma {:induction false} TakeFieldWindow(ty: FieldType, vals: seq<int>, pos: nat, vals2: seq<int>, pos2: nat)
    requires pos + TypeConsumed(ty) <= |vals| && pos2 + TypeConsumed(ty) <= |vals2|
    requires vals[pos..pos + TypeConsumed(ty)] == vals2[pos2..pos2 + TypeConsumed(ty)]
    ensures TakeField(ty, vals2, pos2) == Moved(TakeField(ty, vals, pos), pos, pos2)
    decreases ty, 3
  {
    match ty {
      case Primitive(_) =>
        assert vals[pos] == vals[pos..pos + 1][0];
        assert vals2[pos2] == vals2[pos2..pos2 + 1][0];
      case Nested(e) =>
        MakeSelfWindow(e, vals, pos, [], vals2, pos2);
        NestedTaken(e, vals, pos);
        NestedTaken(e, vals2, pos2);
      case ArrayOf(_, n) =>
    }
  }

  lemma NestedTaken(e: Schema, vals: seq<int>, pos: nat)
    requires pos <= |vals|
    ensures TakeField(Nested(e), vals, pos) ==
      var m := MakeSelf(e, vals, pos, []);
      if m.Ok? then Ok((Rec(m.value.0), m.value.1)) else Err(m.error)
  {
  }

  // ------------------------------------------------------------ one element per slice

  /** `_make_self` takes one value per struct code of a codable class. */
  lemma {:induction false} ConsumedFormat(s: Schema)
    requires Codable(s)
    ensures Consumed(s) == |Format(s)|
    decreases s, 1
  {
    ConsumedFieldsFormat(s, Fixed(s));
  }

  lemma {:induction false} ConsumedFieldsFormat(s: Schema, fs: seq<Field>)
    requires forall f :: f in fs ==> f in s.fields && FixedCodable(f.ty)
    ensures ConsumedFields(s, fs) == |JoinFormats(s, fs)|
    decreases s, 0, |fs|
  {
    if fs != [] {
      assert fs[0] in fs;
      assert forall f :: f in fs[1..] ==> f in fs;
      JoinFormatsCons(s, fs);
      TypeConsumedFormat(fs[0].ty);
      ConsumedFieldsFormat(s, fs[1..]);
    }
  }

  lemma {:induction false} TypeConsumedFormat(ty: FieldType)
    requires FixedCodable(ty)
    ensures TypeConsumed(ty) == |TypeFormat(ty)|
    decreases ty, 2
  {
    match ty {
      case Primitive(_) =>
      case Nested(e) => ConsumedFormat(e);
      case ArrayOf(_, n) =>
    }
  }

  /** Integer `i` of `[p] * c` is read from slice `i` of the bytes. */
  lemma {:induction false} PrimPieces(p: Prim, c: nat, bs: Bytes)
    requires |bs| == FormatSize(Repeat([p], c))
    ensures |UnpackInts(Repeat([p], c), bs)| == c == |Pieces(bs, Width(p))|
    ensures forall i :: 0 <= i < c ==>
      |Pieces(bs, Width(p))[i]| == Width(p) && UnpackInts(Repeat([p], c), bs)[i] == DecodeUInt(Pieces(bs, Width(p))[i])
    decreases c
  {
    var w := Width(p);
    if c == 0 {
      assert bs == [];
    } else {
      assert FormatSize([p]) == w;
      UnpackRepeatFront([p], c, bs);
      PrimPieces(p, c - 1, bs[w..]);
      var head := UnpackInts([p], bs[..w]);
      assert head == [DecodeUInt(bs[..w])] by {
        UnpackFront([p], bs[..w]);
        assert bs[..w][..w] == bs[..w];
      }
      PiecesFront(bs, w);
      ConsInts(w, bs[..w], Pieces(bs[w..], w), UnpackInts(Repeat([p], c - 1), bs[w..]));
    }
  }

  lemma ConsInts(w: nat, piece: Bytes, pieces: seq<Bytes>, xs: seq<int>)
    requires |pieces| == |xs| && |piece| == w
    requires forall i :: 0 <= i < |xs| ==> |pieces[i]| == w && xs[i] == DecodeUInt(pieces[i])
    ensures forall i :: 0 <= i < |xs| + 1 ==>
      |([piece] + pieces)[i]| == w && ([DecodeUInt(piece)] + xs)[i] == DecodeUInt(([piece] + pieces)[i])
  {
    forall i | 0 <= i < |xs| + 1
      ensures |([piece] + pieces)[i]| == w && ([DecodeUInt(piece)] + xs)[i] == DecodeUInt(([piece] + pieces)[i])
    {
      if i > 0 {
        assert ([piece] + pieces)[i] == pieces[i - 1] && ([DecodeUInt(piece)] + xs)[i] == xs[i - 1];
      }
    }
  }

  /** Slices from the front. */
  lemma PiecesFront(bs: Bytes, w: nat)
    requires 0 < w <= |bs|
    ensures Pieces(bs, w) == [bs[..w]] + Pieces(bs[w..], w)
  {
  }

  /** `_make_self` read from `pos` on, and the records after it. */
  lemma MakeAllFront(e: Schema, vals: seq<int>, pos: nat) returns (rec: Record, restItems: seq<Value>)
    requires RawLength(e) > 0 && pos < |vals| && MakeAll(e, vals, pos).Ok?
    ensures pos + Consumed(e) <= |vals| && MakeSelf(e, vals, pos, []) == Ok((rec, pos + Consumed(e)))
    ensures MakeAll(e, vals, pos + Consumed(e)) == Ok(restItems)
    ensures MakeAll(e, vals, pos).value == [Rec(rec)] + restItems
  {
    rec := MakeSelf(e, vals, pos, []).value.0;
    restItems := MakeAll(e, vals, pos + Consumed(e)).value;
  }

  /** `_make_self` makes `item` from the values of `piece` alone. */
  predicate ReadFrom(e: Schema, piece: Bytes, item: Value)
  {
    && |piece| == FormatSize(Format(e)) && item.Rec?
    && MakeSelf(e, UnpackInts(Format(e), piece), 0, []) == Ok((item.r, Consumed(e)))
  }

  lemma ConsRead(e: Schema, piece: Bytes, item: Value, pieces: seq<Bytes>, items: seq<Value>)
    requires |pieces| == |items| && ReadFrom(e, piece, item)
    requires forall i :: 0 <= i < |items| ==> ReadFrom(e, pieces[i], items[i])
    ensures forall i :: 0 <= i < |items| + 1 ==> ReadFrom(e, ([piece] + pieces)[i], ([item] + items)[i])
  {
    forall i | 0 <= i < |items| + 1
      ensures ReadFrom(e, ([piece] + pieces)[i], ([item] + items)[i])
    {
      if i > 0 {
        assert ([piece] + pieces)[i] == pieces[i - 1] && ([item] + items)[i] == items[i - 1];
      }
    }
  }

  /** Record `i` of the `while vals` loop over `format * c` is made from the
      values of slice `i` of the bytes alone. */
  lemma {:induction false} RecordPieces(e: Schema, c: nat, bs: Bytes, vals: seq<int>, pos: nat)
    requires Codable(e) && RawLength(e) > 0 && ValsAt(Format(e), c, bs, vals, pos)
    requires MakeAll(e, vals, pos).Ok?
    ensures RawLength(e) == FormatSize(Format(e))
    ensures |MakeAll(e, vals, pos).value| == c == |Pieces(bs, RawLength(e))|
    ensures forall i :: 0 <= i < c ==> ReadFrom(e, Pieces(bs, RawLength(e))[i], MakeAll(e, vals, pos).value[i])
    decreases c
  {
    RawLengthIsFormatSize(e);
    var w := RawLength(e);
    if c == 0 {
      assert bs == [] && |vals[pos..]| == 0;
    } else {
      var rec, restItems := RecordFront(e, c, bs, vals, pos);
      RecordPieces(e, c - 1, bs[w..], vals, pos + Consumed(e));
      PiecesFront(bs, w);
      ConsRead(e, bs[..w], Rec(rec), Pieces(bs[w..], w), restItems);
    }
  }

  /** `vals` holds, from `pos` on, the values of `c` copies of `fmt` read from `bs`. */
  predicate ValsAt(fmt: seq<Prim>, c: nat, bs: Bytes, vals: seq<int>, pos: nat)
  {
    && |bs| == FormatSize(Repeat(fmt, c))
    && pos <= |vals| && vals[pos..] == UnpackInts(Repeat(fmt, c), bs)
  }

  /** The first record of the loop, read from the first slice, and the loop
      over the rest of the values. */
  lemma RecordFront(e: Schema, c: nat, bs: Bytes, vals: seq<int>, pos: nat) returns (rec: Record, restItems: seq<Value>)
    requires Codable(e) && RawLength(e) > 0 && c > 0 && ValsAt(Format(e), c, bs, vals, pos)
    requires MakeAll(e, vals, pos).Ok?
    ensures RawLength(e) <= |bs|
    ensures ValsAt(Format(e), c - 1, bs[RawLength(e)..], vals, pos + Consumed(e))
    ensures MakeAll(e, vals, pos + Consumed(e)) == Ok(restItems)
    ensures MakeAll(e, vals, pos).value == [Rec(rec)] + restItems
    ensures ReadFrom(e, bs[..RawLength(e)], Rec(rec))
  {
    var u0 := ValsNext(e, c, bs, vals, pos);
    ConsumedPositive(e);
    rec, restItems := MakeAllFront(e, vals, pos);
    FirstRead(e, vals, pos, bs[..RawLength(e)], u0, rec);
  }

  /** `FirstChunk` for the format of a record class. */
  lemma ValsNext(e: Schema, c: nat, bs: Bytes, vals: seq<int>, pos: nat) returns (u0: seq<int>)
    requires Codable(e) && c > 0 && ValsAt(Format(e), c, bs, vals, pos)
    ensures RawLength(e) <= |bs| && |bs[..RawLength(e)]| == FormatSize(Format(e))
    ensures u0 == UnpackInts(Format(e), bs[..RawLength(e)]) && |u0| == Consumed(e)
    ensures pos + Consumed(e) <= |vals| && vals[pos..pos + Consumed(e)] == u0[0..Consumed(e)]
    ensures ValsAt(Format(e), c - 1, bs[RawLength(e)..], vals, pos + Consumed(e))
  {
    RawLengthIsFormatSize(e);
    ConsumedFormat(e);
    u0 := FirstChunk(Format(e), c, bs, vals, pos);
  }

  lemma FirstRead(e: Schema, vals: seq<int>, pos: nat, piece: Bytes, u0: seq<int>, rec: Record)
    requires |piece| == FormatSize(Format(e)) && u0 == UnpackInts(Format(e), piece) && |u0| == Consumed(e)
    requires pos + Consumed(e) <= |vals| && vals[pos..pos + Consumed(e)] == u0[0..Consumed(e)]
    requires MakeSelf(e, vals, pos, []) == Ok((rec, pos + Consumed(e)))
    ensures ReadFrom(e, piece, Rec(rec))
  {
    MakeSelfWindow(e, vals, pos, [], u0, 0);
    assert Moved(MakeSelf(e, vals, pos, []), pos, 0) == Ok((rec, Consumed(e)));
    assert MakeSelf(e, u0, 0, []) == Ok((rec, Consumed(e)));
  }

  /** The values of the first copy of the format, and those of the rest. */
  lemma FirstChunk(fmt: seq<Prim>, c: nat, bs: Bytes, vals: seq<int>, pos: nat) returns (u0: seq<int>)
    requires c > 0 && ValsAt(fmt, c, bs, vals, pos)
    ensures FormatSize(fmt) <= |bs| && pos + |fmt| <= |vals|
    ensures u0 == UnpackInts(fmt, bs[..FormatSize(fmt)]) && |u0| == |fmt|
    ensures vals[pos..pos + |fmt|] == u0[0..|fmt|]
    ensures ValsAt(fmt, c - 1, bs[FormatSize(fmt)..], vals, pos + |fmt|)
  {
    UnpackRepeatFront(fmt, c, bs);
    var n := FormatSize(fmt);
    u0 := UnpackInts(fmt, bs[..n]);
    var back := UnpackInts(Repeat(fmt, c - 1), bs[n..]);
    assert vals[pos..] == u0 + back;
    SliceSplit(vals, pos, u0, back);
    assert |bs[n..]| == FormatSize(Repeat(fmt, c - 1)) && vals[pos + |fmt|..] == back;
  }

  lemma SliceSplit<T>(xs: seq<T>, pos: nat, front: seq<T>, back: seq<T>)
    requires pos <= |xs| && xs[pos..] == front + back
    ensures pos + |front| <= |xs| && xs[pos..pos + |front|] == front[0..|front|] && xs[pos + |front|..] == back
  {
    assert xs[pos..pos + |front|] == xs[pos..][..|front|];
    assert xs[pos + |front|..] == xs[pos..][|front|..];
  }

  /** A slice from which `_make_self` makes a record is one `unserialize`
      reads that record from. */
  lemma DecodePiece(e: Schema, piece: Bytes, r: Record, n: nat)
    requires RawLength(e) > 0 && |piece| == RawLength(e) && RawLength(e) == FormatSize(Format(e))
    requires MakeSelf(e, UnpackInts(Format(e), piece), 0, []) == Ok((r, n))
    ensures Decode(e, piece) == Ok(r)
  {
    assert Fixed(e) != [];
    assert |Trailers(e)| == 0;
    assert piece[..RawLength(e)] == piece;
  }

  // ------------------------------------------------------------ what unserialize raises

  /** `variable_unserialize`: an element type without `raw_length` or with a
      zero one fails, bytes that are not a whole number of elements raise
      ValueError, and no bytes give the empty tuple. */
  lemma VariableUnserializeErrors(elem: Elem, bs: Bytes)
    ensures ElemRawLength(elem).Err? ==> VariableUnserialize(elem, bs) == Err(ElemRawLength(elem).error)
    ensures ElemRawLength(elem) == Ok(0) ==> VariableUnserialize(elem, bs) == Err(ZeroWidthElement)
    ensures ElemRawLength(elem).Ok? && ElemRawLength(elem).value > 0 ==>
      && (|bs| % ElemRawLength(elem).value != 0 ==> VariableUnserialize(elem, bs) == Err(Misaligned))
      && VariableUnserialize(elem, []) == Ok(List([]))
    ensures elem.PrimElem? && |bs| % Width(elem.p) == 0 ==> VariableUnserialize(elem, bs).Ok?
  {
  }

  /** What `variable_unserialize` reads: as many elements as whole widths fit
      in the bytes, element `i` from slice `i` alone — an integer is the
      little-endian value of its slice, a record of a codable class is what
      `unserialize` reads from its slice. */
  lemma VariableUnserializeItems(elem: Elem, bs: Bytes)
    requires VariableUnserialize(elem, bs).Ok?
    ensures ElemRawLength(elem).Ok? && ElemRawLength(elem).value > 0
    ensures var w, v := ElemRawLength(elem).value, VariableUnserialize(elem, bs).value;
      && |bs| % w == 0 && v.List?
      && (elem.PrimElem? || Codable(elem.s) ==>
           && |v.items| == |bs| / w == |Pieces(bs, w)|
           && forall i :: 0 <= i < |v.items| ==> |Pieces(bs, w)[i]| == w)
      && (elem.PrimElem? ==>
           forall i :: 0 <= i < |v.items| ==> v.items[i] == Int(DecodeUInt(Pieces(bs, w)[i])))
      && (elem.RecordElem? && Codable(elem.s) ==>
           forall i :: 0 <= i < |v.items| ==> v.items[i].Rec? && Decode(elem.s, Pieces(bs, w)[i]) == Ok(v.items[i].r))
  {
    VariableUnserializeErrors(elem, bs);
    match elem {
      case PrimElem(p) => PrimItems(p, bs);
      case RecordElem(e) => RecordElemItems(e, bs);
    }
  }

  lemma RecordElemItems(e: Schema, bs: Bytes)
    requires VariableUnserialize(RecordElem(e), bs).Ok?
    ensures Declares(e) && RawLength(e) > 0 && |bs| % RawLength(e) == 0
    ensures var w, v := RawLength(e), VariableUnserialize(RecordElem(e), bs).value;
      && v.List?
      && (Codable(e) ==>
           && |v.items| == |bs| / w == |Pieces(bs, w)|
           && (forall i :: 0 <= i < |v.items| ==> |Pieces(bs, w)[i]| == w)
           && forall i :: 0 <= i < |v.items| ==> v.items[i].Rec? && Decode(e, Pieces(bs, w)[i]) == Ok(v.items[i].r))
  {
    VariableUnserializeErrors(RecordElem(e), bs);
    var v := VariableUnserialize(RecordElem(e), bs).value;
    if bs != [] {
      var count := |bs| / RawLength(e);
      ElemFormatSize(RecordElem(e), count);
      DivExact(|bs|, RawLength(e));
      if Codable(e) {
        RecordItems(e, bs, count, UnpackInts(Repeat(Format(e), count), bs), v);
      }
    } else {
      assert v == List([]) && Pieces(bs, RawLength(e)) == [];
    }
  }

  lemma PrimItems(p: Prim, bs: Bytes)
    requires |bs| % Width(p) == 0
    ensures VariableUnserialize(PrimElem(p), bs).Ok?
    ensures var w, v := Width(p), VariableUnserialize(PrimElem(p), bs).value;
      && v.List? && |v.items| == |bs| / w == |Pieces(bs, w)|
      && forall i :: 0 <= i < |v.items| ==> |Pieces(bs, w)[i]| == w && v.items[i] == Int(DecodeUInt(Pieces(bs, w)[i]))
  {
    var w := Width(p);
    if bs == [] {
      assert Pieces(bs, w) == [];
    } else {
      var count := |bs| / w;
      ElemFormatSize(PrimElem(p), count);
      DivExact(|bs|, w);
      PrimPieces(p, count, bs);
    }
  }

  lemma RecordItems(e: Schema, bs: Bytes, count: nat, vals: seq<int>, v: Value)
    requires Codable(e) && Declares(e) && RawLength(e) > 0 && bs != []
    requires |bs| % RawLength(e) == 0 && count == |bs| / RawLength(e)
    requires |bs| == FormatSize(Repeat(Format(e), count))
    requires vals == UnpackInts(Repeat(Format(e), count), bs)
    requires VariableUnserialize(RecordElem(e), bs) == Ok(v)
    ensures var w := RawLength(e);
      && v.List? && |v.items| == |bs| / w == |Pieces(bs, w)|
      && (forall i :: 0 <= i < |v.items| ==> |Pieces(bs, w)[i]| == w)
      && forall i :: 0 <= i < |v.items| ==> v.items[i].Rec? && Decode(e, Pieces(bs, w)[i]) == Ok(v.items[i].r)
  {
    var w := RawLength(e);
    assert vals[0..] == vals;
    assert MakeAll(e, vals, 0).Ok? && v == List(MakeAll(e, vals, 0).value);
    assert ValsAt(Format(e), count, bs, vals, 0);
    RecordPieces(e, count, bs, vals, 0);
    var items := MakeAll(e, vals, 0).value;
    forall i | 0 <= i < |items|
      ensures |Pieces(bs, w)[i]| == w && items[i].Rec? && Decode(e, Pieces(bs, w)[i]) == Ok(items[i].r)
    {
      assert ReadFrom(e, Pieces(bs, w)[i], items[i]);
      DecodePiece(e, Pieces(bs, w)[i], items[i].r, Consumed(e));
    }
  }

  /** `unserialize` of a class with annotations: fewer bytes than `raw_length`
      fail, more than one trailer raises TypeError, and the bytes after the
      prefix must be a whole number of the trailer's elements. */
  lemma DecodeErrors(s: Schema, bs: Bytes)
    requires !IsEmpty(s)
    ensures |bs| < RawLength(s) ==> Decode(s, bs) == Err(Truncated)
    ensures |bs| >= RawLength(s) && |Trailers(s)| > 1 ==> Decode(s, bs) == Err(MultipleTrailers)
    ensures |bs| >= RawLength(s) && |Trailers(s)| == 1 && Trailers(s)[0].ty.ArrayOf? ==>
      var elem := Trailers(s)[0].ty.elem;
      ElemRawLength(elem).Ok? && ElemRawLength(elem).value > 0 && (|bs| - RawLength(s)) % ElemRawLength(elem).value != 0 ==>
        Decode(s, bs) == Err(Misaligned)
  {
    if |bs| >= RawLength(s) && |Trailers(s)| == 1 && Trailers(s)[0].ty.ArrayOf? {
      VariableUnserializeErrors(Trailers(s)[0].ty.elem, bs[RawLength(s)..]);
    }
  }
}
