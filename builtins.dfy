/** The Python built-ins the server code leans on, as the record model sees
    them: attribute access, `bytes(...)`, `ljust`, list indexing and slicing. */
module Builtins {
  import opened Wrappers
  import opened Wire
  import opened Serdes
  import opened Records
  import opened Codec

  /** `getattr(r, name)`. */
  function Attr(r: Record, name: string): Result<Value, Error>
  {
    if name in r.attrs then Ok(r.attrs[name]) else Err(MissingAttribute(name))
  }

  /** An attribute used as an integer (compared, shifted, masked, used as an index). */
  function IntAttr(r: Record, name: string): Result<int, Error>
  {
    var v :- Attr(r, name);
    if v.Int? then Ok(v.n) else Err(NotAnInteger)
  }

  /** A `bytes` object (or a list of small integers) as an attribute value. */
  function BytesValue(bs: Bytes): Value
  {
    List(Ints(bs))
  }

  /** `bytes(vs)`: every item an integer in 0..255, else TypeError or ValueError. */
  function ToBytes(vs: seq<Value>): (r: Result<Bytes, Error>)
    ensures r.Ok? <==> forall k :: 0 <= k < |vs| ==> vs[k].Int? && 0 <= vs[k].n < 0x100
    ensures r.Ok? ==> BytesValue(r.value) == List(vs)
  {
    if vs == [] then assert Ints([]) == []; Ok([])
    else if !vs[0].Int? then Err(NotAnInteger)
    else if !(0 <= vs[0].n < 0x100) then Err(InvalidValue)
    else
      var rest :- ToBytes(vs[1..]);
      var bs := [vs[0].n as byte] + rest;
      assert Ints(bs) == [vs[0]] + Ints(rest);
      assert vs == [vs[0]] + vs[1..];
      Ok(bs)
  }

  /** `bytes(v)` of any value: a sequence as `bytes(vs)`, an integer `n` as
      `n` zero bytes (ValueError when negative), a record object TypeError. */
  function BytesOf(v: Value): Result<Bytes, Error>
  {
    match v
    case List(vs) => ToBytes(vs)
    case Int(n) => if n < 0 then Err(InvalidValue) else Ok(seq(n, _ => 0))
    case Rec(_) => Err(NotIterable)
  }

  /** `s.ljust(n, fill)`: `s` padded with `fill` up to length `n`, never cut. */
  function Ljust<T>(s: seq<T>, n: nat, fill: T): (r: seq<T>)
    ensures |r| == if |s| < n then n else |s|
    ensures r[..|s|] == s
    ensures forall k :: |s| <= k < |r| ==> r[k] == fill
  {
    if |s| < n then s + seq(n - |s|, _ => fill) else s
  }

  /** The position `xs[i]` reads in a list of `n` items: negative indices count
      from the end, anything else out of range is IndexError. */
  function Position(i: int, n: nat): (r: Result<nat, Error>)
    ensures r.Ok? <==> -(n as int) <= i < n
    ensures r.Ok? ==> r.value < n && (r.value == i || r.value == i + n)
  {
    if 0 <= i < n then Ok(i)
    else if -(n as int) <= i < 0 then Ok(i + n)
    else Err(IndexOutOfRange(i))
  }

  /** `xs[i]`. */
  function Index<T>(xs: seq<T>, i: int): Result<T, Error>
  {
    var k :- Position(i, |xs|);
    Ok(xs[k])
  }

  /** Where a slice bound `i` falls in a list of `n` items (`xs[:i]` is `xs[..Bound(i, n)]`). */
  function SliceBound(i: int, n: nat): (r: nat)
    ensures r <= n
    ensures 0 <= i ==> r == if i < n then i else n
    ensures i < 0 ==> r == if -i < n then n + i else 0
  {
    if i < 0 then (if -i < n then n + i else 0)
    else if i < n then i else n
  }

  /** `derive` reads each fixed attribute first; a record lacking one fails there. */
  function Rederive(r: Record, overrides: map<string, Value>): Result<Record, Error>
  {
    if Names(Fixed(r.schema)) <= r.attrs.Keys then Derive(r, overrides)
    else Err(MissingAttribute(FirstAbsent(Fixed(r.schema), r.attrs)))
  }

  /** The first of the fields that `attrs` lacks (the empty name if none). */
  function FirstAbsent(fs: seq<Field>, attrs: map<string, Value>): string
  {
    if fs == [] then ""
    else if fs[0].name !in attrs then fs[0].name
    else FirstAbsent(fs[1..], attrs)
  }

  /** A record as a Python record object is: every field set, nothing else
      (the constructor guarantees it). */
  predicate Built(r: Record)
  {
    r.attrs.Keys == Names(AllFields(r.schema))
  }
}
