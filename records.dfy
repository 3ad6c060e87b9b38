/** Record construction in fakeusb/serdes.py (`Base.__init__` and `derive`):
    every field comes from the keyword arguments, else from the class
    default, else construction fails; unknown keywords fail too. */
module Records {
  import opened Wrappers
  import opened Serdes

  function Names(fs: seq<Field>): set<string>
  {
    set i | 0 <= i < |fs| :: fs[i].name
  }

  /** The field has a value to take: a keyword argument or a class default. */
  predicate Supplied(f: Field, kwargs: map<string, Value>)
  {
    f.name in kwargs || f.default.Some?
  }

  /** The value the constructor stores for a supplied field. */
  function Pick(f: Field, kwargs: map<string, Value>): Value
    requires Supplied(f, kwargs)
  {
    if f.name in kwargs then kwargs[f.name] else f.default.value
  }

  /** The constructor's loop over `_all_fields`, from field `fs[0]` on, with the
      attributes set so far and the keyword arguments not yet consumed; it yields
      the attributes and the leftover keywords. */
  function Fill(fs: seq<Field>, kwargs: map<string, Value>, attrs: map<string, Value>)
    : Result<(map<string, Value>, map<string, Value>), Error>
  {
    if fs == [] then Ok((attrs, kwargs))
    else
      var f := fs[0];
      if f.name in kwargs then Fill(fs[1..], kwargs - {f.name}, attrs[f.name := kwargs[f.name]])
      else if f.default.Some? then Fill(fs[1..], kwargs, attrs[f.name := f.default.value])
      else Err(MissingField(f.name))
  }

  /** `Base.__init__(**kwargs)`. */
  function Construct(s: Schema, kwargs: map<string, Value>): Result<Record, Error>
  {
    match Fill(AllFields(s), kwargs, map[])
    case Err(e) => Err(e)
    case Ok((attrs, rest)) =>
      if rest != map[] then Err(UnexpectedFields(rest.Keys)) else Ok(Record(s, attrs))
  }

  /** The constructor as the source runs it: a loop that moves each field's
      keyword out of `kwargs`, falling back to the default. */
  method Init(s: Schema, kwargs: map<string, Value>) returns (r: Result<Record, Error>)
    ensures r == Construct(s, kwargs)
  {
    var fs := AllFields(s);
    var kw := kwargs;
    var attrs: map<string, Value> := map[];
    var i := 0;
    while i < |fs|
      invariant 0 <= i <= |fs|
      invariant Fill(fs[i..], kw, attrs) == Fill(fs, kwargs, map[])
    {
      var f := fs[i];
      assert fs[i..][1..] == fs[i + 1..];
      if f.name in kw {
        attrs := attrs[f.name := kw[f.name]];
        kw := kw - {f.name};
      } else if f.default.Some? {
        attrs := attrs[f.name := f.default.value];
      } else {
        return Err(MissingField(f.name));
      }
      i := i + 1;
    }
    if kw != map[] {
      return Err(UnexpectedFields(kw.Keys));
    }
    return Ok(Record(s, attrs));
  }

  lemma DistinctTail(fs: seq<Field>)
    requires fs != [] && DistinctNames(fs)
    ensures DistinctNames(fs[1..])
    ensures fs[0].name !in Names(fs[1..])
    ensures Names(fs) == {fs[0].name} + Names(fs[1..])
  {
    var tail := fs[1..];
    assert forall i :: 0 <= i < |tail| ==> tail[i] == fs[i + 1];
    assert forall i :: 0 <= i < |tail| ==> tail[i].name != fs[0].name;
    forall n | n in Names(fs) ensures n in {fs[0].name} + Names(tail) {
      var i :| 0 <= i < |fs| && fs[i].name == n;
      if i > 0 { assert tail[i - 1].name == n; }
    }
  }

  /** Consuming the first field's keyword leaves the later fields as they were:
      in both branches of the loop the keywords left are `kwargs - {fs[0].name}`. */
  lemma ConsumeFirst(fs: seq<Field>, kwargs: map<string, Value>)
    requires fs != [] && DistinctNames(fs)
    ensures fs[0].name !in kwargs ==> kwargs - {fs[0].name} == kwargs
    ensures forall i :: 1 <= i < |fs| ==>
      (Supplied(fs[i], kwargs - {fs[0].name}) <==> Supplied(fs[i], kwargs))
    ensures forall i :: 1 <= i < |fs| && Supplied(fs[i], kwargs) ==>
      Pick(fs[i], kwargs - {fs[0].name}) == Pick(fs[i], kwargs)
  {
  }

  /** The constructor loop succeeds exactly when every field is supplied. */
  lemma {:induction false} FillOk(fs: seq<Field>, kwargs: map<string, Value>, attrs: map<string, Value>)
    requires DistinctNames(fs)
    ensures Fill(fs, kwargs, attrs).Ok? <==> forall i :: 0 <= i < |fs| ==> Supplied(fs[i], kwargs)
  {
    if fs != [] {
      var f := fs[0];
      DistinctTail(fs);
      ConsumeFirst(fs, kwargs);
      var tail := fs[1..];
      var kw' := kwargs - {f.name};
      if Supplied(f, kwargs) {
        var at' := attrs[f.name := Pick(f, kwargs)];
        assert Fill(fs, kwargs, attrs) == Fill(tail, kw', at');
        FillOk(tail, kw', at');
        assert forall i :: 0 <= i < |tail| ==> tail[i] == fs[i + 1];
      }
    }
  }

  /** On success the loop stores each field's keyword or default, keeps what was
      set before under other names, and leaves exactly the keywords that name no
      field. */
  lemma {:induction false} FillValue(fs: seq<Field>, kwargs: map<string, Value>, attrs: map<string, Value>)
    requires DistinctNames(fs)
    requires Fill(fs, kwargs, attrs).Ok?
    ensures var (a, rest) := Fill(fs, kwargs, attrs).value;
      && rest == kwargs - Names(fs)
      && a.Keys == attrs.Keys + Names(fs)
      && (forall i :: 0 <= i < |fs| ==> Supplied(fs[i], kwargs) && a[fs[i].name] == Pick(fs[i], kwargs))
      && (forall k :: k in attrs && k !in Names(fs) ==> a[k] == attrs[k])
  {
    if fs != [] {
      var f := fs[0];
      DistinctTail(fs);
      ConsumeFirst(fs, kwargs);
      var tail := fs[1..];
      var kw' := kwargs - {f.name};
      var at' := attrs[f.name := Pick(f, kwargs)];
      assert Fill(fs, kwargs, attrs) == Fill(tail, kw', at');
      FillValue(tail, kw', at');
      FillOk(tail, kw', at');
      FillOk(fs, kwargs, attrs);
      assert forall i :: 0 <= i < |tail| ==> tail[i] == fs[i + 1];
      assert kw' - Names(tail) == kwargs - Names(fs);
    }
  }

  /** The loop fails on the first field that is not supplied. */
  lemma {:induction false} FillFirstMissing(fs: seq<Field>, kwargs: map<string, Value>, attrs: map<string, Value>, i: nat)
    requires DistinctNames(fs)
    requires i < |fs| && !Supplied(fs[i], kwargs)
    requires forall j :: 0 <= j < i ==> Supplied(fs[j], kwargs)
    ensures Fill(fs, kwargs, attrs) == Err(MissingField(fs[i].name))
  {
    if i > 0 {
      var f := fs[0];
      assert Supplied(f, kwargs);
      DistinctTail(fs);
      ConsumeFirst(fs, kwargs);
      var tail := fs[1..];
      var kw' := kwargs - {f.name};
      var at' := attrs[f.name := Pick(f, kwargs)];
      assert Fill(fs, kwargs, attrs) == Fill(tail, kw', at');
      assert forall j :: 0 <= j < |tail| ==> tail[j] == fs[j + 1];
      FillFirstMissing(tail, kw', at', i - 1);
    }
  }

  lemma NamesIn(fs: seq<Field>, i: nat)
    requires i < |fs|
    ensures fs[i].name in Names(fs)
  {
  }

  lemma NamesCons(fs: seq<Field>)
    requires fs != []
    ensures Names(fs) == {fs[0].name} + Names(fs[1..])
  {
    var tail := fs[1..];
    forall n | n in Names(fs) ensures n in {fs[0].name} + Names(tail) {
      var i :| 0 <= i < |fs| && fs[i].name == n;
      if i > 0 { assert tail[i - 1].name == n; }
    }
    forall n | n in Names(tail) ensures n in Names(fs) {
      var i :| 0 <= i < |tail| && tail[i].name == n;
      assert fs[i + 1].name == n;
    }
  }

  lemma NamesAppend(a: seq<Field>, b: seq<Field>)
    ensures Names(a + b) == Names(a) + Names(b)
  {
    forall n | n in Names(a + b) ensures n in Names(a) + Names(b) {
      var i :| 0 <= i < |a + b| && (a + b)[i].name == n;
      if i < |a| { NamesIn(a, i); } else { NamesIn(b, i - |a|); }
    }
    forall n | n in Names(a) ensures n in Names(a + b) {
      var i :| 0 <= i < |a| && a[i].name == n;
      NamesIn(a + b, i);
    }
    forall n | n in Names(b) ensures n in Names(a + b) {
      var i :| 0 <= i < |b| && b[i].name == n;
      NamesIn(a + b, |a| + i);
    }
  }

  /** Building a record from exactly its fields' values keeps those values. */
  lemma ConstructAll(s: Schema, kwargs: map<string, Value>)
    requires Compiled(s)
    requires kwargs.Keys == Names(AllFields(s))
    ensures Construct(s, kwargs) == Ok(Record(s, kwargs))
  {
    var fs := AllFields(s);
    forall i | 0 <= i < |fs| ensures Supplied(fs[i], kwargs) {
      NamesIn(fs, i);
    }
    ConstructOk(s, kwargs);
    var r := Construct(s, kwargs).value;
    forall k | k in kwargs ensures k in r.attrs && r.attrs[k] == kwargs[k] {
      var i :| 0 <= i < |fs| && fs[i].name == k;
    }
    assert r.attrs == kwargs;
  }

  /** Construction strictness: a record is built exactly when every field is
      supplied and every keyword names a field; the record then holds, for each
      field, its keyword argument if given and its default otherwise, and nothing
      else. */
  lemma ConstructOk(s: Schema, kwargs: map<string, Value>)
    requires Compiled(s)
    ensures var fs := AllFields(s);
      Construct(s, kwargs).Ok? <==>
        (forall i :: 0 <= i < |fs| ==> Supplied(fs[i], kwargs)) && kwargs.Keys <= Names(fs)
    ensures var fs := AllFields(s);
      Construct(s, kwargs).Ok? ==>
        var r := Construct(s, kwargs).value;
        && r.schema == s
        && r.attrs.Keys == Names(fs)
        && forall i :: 0 <= i < |fs| ==> r.attrs[fs[i].name] == Pick(fs[i], kwargs)
  {
    var fs := AllFields(s);
    AllFieldsDistinct(s);
    FillOk(fs, kwargs, map[]);
    if Fill(fs, kwargs, map[]).Ok? {
      FillValue(fs, kwargs, map[]);
      var rest := Fill(fs, kwargs, map[]).value.1;
      assert rest == map[] <==> kwargs.Keys <= Names(fs) by {
        if rest == map[] {
          assert rest.Keys == {};
        } else {
          var k :| k in rest.Keys;
          assert k in kwargs && k !in Names(fs);
        }
      }
    }
  }

  /** A missing field is reported first: the first field of `_all_fields` with
      neither a keyword nor a default. */
  lemma ConstructMissing(s: Schema, kwargs: map<string, Value>, i: nat)
    requires Compiled(s)
    requires i < |AllFields(s)| && !Supplied(AllFields(s)[i], kwargs)
    requires forall j :: 0 <= j < i ==> Supplied(AllFields(s)[j], kwargs)
    ensures Construct(s, kwargs) == Err(MissingField(AllFields(s)[i].name))
  {
    AllFieldsDistinct(s);
    FillFirstMissing(AllFields(s), kwargs, map[], i);
  }

  /** With every field supplied, keywords that name no field are reported as
      unexpected, all of them. */
  lemma ConstructUnexpected(s: Schema, kwargs: map<string, Value>)
    requires Compiled(s)
    requires forall i :: 0 <= i < |AllFields(s)| ==> Supplied(AllFields(s)[i], kwargs)
    requires !(kwargs.Keys <= Names(AllFields(s)))
    ensures Construct(s, kwargs) == Err(UnexpectedFields(kwargs.Keys - Names(AllFields(s))))
  {
    var fs := AllFields(s);
    AllFieldsDistinct(s);
    FillOk(fs, kwargs, map[]);
    FillValue(fs, kwargs, map[]);
    var rest := Fill(fs, kwargs, map[]).value.1;
    var k :| k in kwargs.Keys && k !in Names(fs);
    assert k in rest;
  }

  /** `derive(**overrides)`: the record's fixed fields as keywords, overridden by
      `overrides`, passed to the constructor of the same class. Trailers are not
      carried over. */
  function Derive(r: Record, overrides: map<string, Value>): Result<Record, Error>
    requires Names(Fixed(r.schema)) <= r.attrs.Keys
  {
    Construct(r.schema, Merged(r, overrides))
  }

  /** The fixed fields and the trailers of a compiled schema have disjoint
      names, which together are the names of all fields. */
  lemma SplitNames(s: Schema)
    requires Compiled(s)
    ensures Names(AllFields(s)) == Names(Fixed(s)) + Names(Trailers(s))
    ensures forall i :: 0 <= i < |Trailers(s)| ==> Trailers(s)[i].name !in Names(Fixed(s))
  {
    var fs := AllFields(s);
    AllFieldsDistinct(s);
    forall n | n in Names(fs) ensures n in Names(Fixed(s)) + Names(Trailers(s)) {
      var i :| 0 <= i < |fs| && fs[i].name == n;
      if i < |Fixed(s)| { NamesIn(Fixed(s), i); } else { NamesIn(Trailers(s), i - |Fixed(s)|); }
    }
    forall n | n in Names(Fixed(s)) ensures n in Names(fs) {
      var i :| 0 <= i < |Fixed(s)| && Fixed(s)[i].name == n;
      NamesIn(fs, i);
    }
    forall n | n in Names(Trailers(s)) ensures n in Names(fs) {
      var i :| 0 <= i < |Trailers(s)| && Trailers(s)[i].name == n;
      NamesIn(fs, |Fixed(s)| + i);
    }
    forall i | 0 <= i < |Trailers(s)| ensures Trailers(s)[i].name !in Names(Fixed(s)) {
      assert fs[|Fixed(s)| + i] == Trailers(s)[i];
      forall j | 0 <= j < |Fixed(s)| ensures Fixed(s)[j].name != Trailers(s)[i].name {
        assert fs[j] == Fixed(s)[j];
      }
    }
  }

  /** The keywords `derive` passes to the constructor. */
  function Merged(r: Record, overrides: map<string, Value>): map<string, Value>
    requires Names(Fixed(r.schema)) <= r.attrs.Keys
  {
    (map n | n in Names(Fixed(r.schema)) :: r.attrs[n]) + overrides
  }

  /** Derive succeeds exactly when every trailer is given again (or has a
      default) and every override names a field. */
  lemma DeriveOk(r: Record, overrides: map<string, Value>)
    requires Compiled(r.schema)
    requires Names(Fixed(r.schema)) <= r.attrs.Keys
    ensures var ts := Trailers(r.schema);
      Derive(r, overrides).Ok? <==>
        (forall i :: 0 <= i < |ts| ==> Supplied(ts[i], overrides)) && overrides.Keys <= Names(AllFields(r.schema))
  {
    var s := r.schema;
    var fs := AllFields(s);
    var merged := Merged(r, overrides);
    ConstructOk(s, merged);
    SplitNames(s);
    forall i | 0 <= i < |Fixed(s)| ensures Supplied(fs[i], merged) {
      NamesIn(Fixed(s), i);
    }
    forall i | 0 <= i < |Trailers(s)| ensures Supplied(fs[|Fixed(s)| + i], merged) <==> Supplied(Trailers(s)[i], overrides) {
      assert fs[|Fixed(s)| + i] == Trailers(s)[i];
    }
    assert (forall i :: 0 <= i < |fs| ==> Supplied(fs[i], merged)) <==>
      (forall i :: 0 <= i < |Trailers(s)| ==> Supplied(Trailers(s)[i], overrides)) by {
      if forall i :: 0 <= i < |Trailers(s)| ==> Supplied(Trailers(s)[i], overrides) {
        forall i | 0 <= i < |fs| ensures Supplied(fs[i], merged) {
          if i >= |Fixed(s)| { assert Supplied(fs[|Fixed(s)| + (i - |Fixed(s)|)], merged); }
        }
      }
    }
  }

  /** What a derived record holds: the overrides, the old value of every fixed
      field not overridden, and for each trailer only its override or default. */
  lemma DeriveValue(r: Record, overrides: map<string, Value>)
    requires Compiled(r.schema)
    requires Names(Fixed(r.schema)) <= r.attrs.Keys
    requires Derive(r, overrides).Ok?
    ensures var d := Derive(r, overrides).value; var s := r.schema;
      && d.schema == s
      && d.attrs.Keys == Names(AllFields(s))
      && (forall i :: 0 <= i < |Fixed(s)| ==>
            var f := Fixed(s)[i];
            f.name in d.attrs && d.attrs[f.name] == if f.name in overrides then overrides[f.name] else r.attrs[f.name])
      && (forall i :: 0 <= i < |Trailers(s)| ==>
            var f := Trailers(s)[i];
            Supplied(f, overrides) && f.name in d.attrs && d.attrs[f.name] == Pick(f, overrides))
  {
    var s := r.schema;
    var fs := AllFields(s);
    var merged := Merged(r, overrides);
    ConstructOk(s, merged);
    SplitNames(s);
    var d := Derive(r, overrides).value;
    forall i | 0 <= i < |Fixed(s)|
      ensures Fixed(s)[i].name in d.attrs
      ensures d.attrs[Fixed(s)[i].name] == if Fixed(s)[i].name in overrides then overrides[Fixed(s)[i].name] else r.attrs[Fixed(s)[i].name]
    {
      NamesIn(Fixed(s), i);
      assert fs[i] == Fixed(s)[i];
    }
    forall i | 0 <= i < |Trailers(s)|
      ensures Supplied(Trailers(s)[i], overrides)
      ensures Trailers(s)[i].name in d.attrs && d.attrs[Trailers(s)[i].name] == Pick(Trailers(s)[i], overrides)
    {
      assert fs[|Fixed(s)| + i] == Trailers(s)[i];
      NamesIn(fs, |Fixed(s)| + i);
    }
  }
}
