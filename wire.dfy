/** The wire primitives of the record engine (the enum `T` of fakeusb/serdes.py):
    unsigned integers of 1, 2 and 4 bytes, packed one after the other with no
    padding. The engine's struct format uses the host byte order; this model
    fixes it as little-endian, the order the expected bytes of the test-suite use. */
module Wire {

  type byte = x: int | 0 <= x < 0x100
  type Bytes = seq<byte>

  /** A struct pack code: B, H or I. */
  datatype Prim = U8 | U16 | U32

  /** The primitive's `raw_length`. */
  function Width(p: Prim): (w: nat)
    ensures 1 <= w <= 4
  {
    match p
    case U8 => 1
    case U16 => 2
    case U32 => 4
  }

  function Pow256(w: nat): (r: nat)
    ensures r >= 1
  {
    if w == 0 then 1 else 0x100 * Pow256(w - 1)
  }

  /** One more than the largest value the primitive can hold. */
  function Bound(p: Prim): nat
  {
    Pow256(Width(p))
  }

  predicate InRange(p: Prim, n: int)
  {
    0 <= n < Bound(p)
  }

  /** struct.pack of one value in `w` little-endian bytes. */
  function EncodeUInt(n: nat, w: nat): (r: Bytes)
    requires n < Pow256(w)
    ensures |r| == w
  {
    if w == 0 then []
    else
      assert n / 0x100 < Pow256(w - 1) by { DivBound(n, Pow256(w - 1)); }
      [n % 0x100] + EncodeUInt(n / 0x100, w - 1)
  }

  /** struct.unpack of one little-endian value. */
  function DecodeUInt(bs: Bytes): (n: nat)
    ensures n < Pow256(|bs|)
  {
    if bs == [] then 0
    else
      var rest := DecodeUInt(bs[1..]);
      MulBound(bs[0], rest, Pow256(|bs| - 1));
      bs[0] + 0x100 * rest
  }

  lemma DivBound(n: nat, p: nat)
    requires n < 0x100 * p
    ensures n / 0x100 < p
  {
  }

  lemma MulBound(b: nat, rest: nat, p: nat)
    requires b < 0x100 && rest < p
    ensures b + 0x100 * rest < 0x100 * p
  {
  }

  lemma {:induction false} DecodeEncodeUInt(n: nat, w: nat)
    requires n < Pow256(w)
    ensures DecodeUInt(EncodeUInt(n, w)) == n
  {
    if w > 0 {
      DivBound(n, Pow256(w - 1));
      var bs := EncodeUInt(n, w);
      assert bs[1..] == EncodeUInt(n / 0x100, w - 1);
      DecodeEncodeUInt(n / 0x100, w - 1);
    }
  }

  lemma {:induction false} EncodeDecodeUInt(bs: Bytes)
    ensures EncodeUInt(DecodeUInt(bs), |bs|) == bs
  {
    if bs != [] {
      EncodeDecodeUInt(bs[1..]);
      var n := DecodeUInt(bs);
      assert n % 0x100 == bs[0] && n / 0x100 == DecodeUInt(bs[1..]);
    }
  }

  /** struct.calcsize of a format: with no alignment, the sum of the widths. */
  function FormatSize(fmt: seq<Prim>): nat
  {
    if fmt == [] then 0 else Width(fmt[0]) + FormatSize(fmt[1..])
  }

  /** The values struct.pack accepts for a format: one per code, each in range. */
  predicate Fits(fmt: seq<Prim>, xs: seq<int>)
  {
    |xs| == |fmt| && forall i :: 0 <= i < |fmt| ==> InRange(fmt[i], xs[i])
  }

  function PackInts(fmt: seq<Prim>, xs: seq<int>): (r: Bytes)
    requires Fits(fmt, xs)
    ensures |r| == FormatSize(fmt)
  {
    if fmt == [] then []
    else
      assert Fits(fmt[1..], xs[1..]) by {
        forall i | 0 <= i < |fmt| - 1 ensures InRange(fmt[1..][i], xs[1..][i]) {
          assert InRange(fmt[i + 1], xs[i + 1]);
        }
      }
      assert InRange(fmt[0], xs[0]);
      EncodeUInt(xs[0], Width(fmt[0])) + PackInts(fmt[1..], xs[1..])
  }

  function UnpackInts(fmt: seq<Prim>, bs: Bytes): (xs: seq<int>)
    requires |bs| == FormatSize(fmt)
    ensures Fits(fmt, xs)
  {
    if fmt == [] then []
    else
      var w := Width(fmt[0]);
      var rest := UnpackInts(fmt[1..], bs[w..]);
      var x := DecodeUInt(bs[..w]);
      assert Fits(fmt, [x] + rest) by {
        forall i | 0 <= i < |fmt| ensures InRange(fmt[i], ([x] + rest)[i]) {
          if i > 0 { assert InRange(fmt[1..][i - 1], rest[i - 1]); }
        }
      }
      [x] + rest
  }

  /** Unpacking what was packed gives back the values. */
  lemma {:induction false} UnpackPack(fmt: seq<Prim>, xs: seq<int>)
    requires Fits(fmt, xs)
    ensures UnpackInts(fmt, PackInts(fmt, xs)) == xs
  {
    if fmt != [] {
      var bs := PackInts(fmt, xs);
      var w := Width(fmt[0]);
      assert InRange(fmt[0], xs[0]);
      assert bs[..w] == EncodeUInt(xs[0], w);
      assert bs[w..] == PackInts(fmt[1..], xs[1..]);
      DecodeEncodeUInt(xs[0], w);
      UnpackPack(fmt[1..], xs[1..]);
    }
  }

  /** Packing what was unpacked gives back the bytes. */
  lemma {:induction false} PackUnpack(fmt: seq<Prim>, bs: Bytes)
    requires |bs| == FormatSize(fmt)
    ensures PackInts(fmt, UnpackInts(fmt, bs)) == bs
  {
    if fmt != [] {
      var w := Width(fmt[0]);
      PackUnpack(fmt[1..], bs[w..]);
      EncodeDecodeUInt(bs[..w]);
      assert bs == bs[..w] + bs[w..];
    }
  }

  lemma {:induction false} FormatSizeAppend(a: seq<Prim>, b: seq<Prim>)
    ensures FormatSize(a + b) == FormatSize(a) + FormatSize(b)
  {
    if a != [] {
      assert (a + b)[1..] == a[1..] + b;
      FormatSizeAppend(a[1..], b);
    } else {
      assert a + b == b;
    }
  }

  lemma {:induction false} PackIntsAppend(a: seq<Prim>, b: seq<Prim>, xs: seq<int>, ys: seq<int>)
    requires Fits(a, xs) && Fits(b, ys)
    ensures Fits(a + b, xs + ys)
    ensures PackInts(a + b, xs + ys) == PackInts(a, xs) + PackInts(b, ys)
  {
    assert Fits(a + b, xs + ys) by {
      forall i | 0 <= i < |a + b| ensures InRange((a + b)[i], (xs + ys)[i]) {
        if i < |a| { assert InRange(a[i], xs[i]); } else { assert InRange(b[i - |a|], ys[i - |a|]); }
      }
    }
    if a != [] {
      assert (a + b)[1..] == a[1..] + b;
      assert (xs + ys)[1..] == xs[1..] + ys;
      assert Fits(a[1..], xs[1..]) by {
        forall i | 0 <= i < |a| - 1 ensures InRange(a[1..][i], xs[1..][i]) {
          assert InRange(a[i + 1], xs[i + 1]);
        }
      }
      PackIntsAppend(a[1..], b, xs[1..], ys);
    } else {
      assert a + b == b && xs + ys == ys;
    }
  }

  lemma DivExact(a: nat, w: nat)
    requires w > 0 && a % w == 0
    ensures a / w * w == a
  {
  }

  lemma {:induction false} MulAtLeast(k: nat, w: nat)
    requires k >= 1
    ensures k * w >= w
  {
    if k > 1 {
      MulAtLeast(k - 1, w);
      assert k * w == (k - 1) * w + w;
    }
  }

  /** `n` whole widths divide exactly into `n`. */
  lemma MulMod(n: nat, w: nat)
    requires w > 0
    ensures (n * w) % w == 0 && (n * w) / w == n
  {
    var a := n * w;
    var q := a / w;
    var r := a % w;
    assert a == q * w + r && 0 <= r < w;
    var d := n - q;
    assert d * w == r;
    MulSign(d, w);
  }

  lemma MulSign(k: int, w: int)
    requires w > 0
    ensures k >= 1 ==> k * w >= w
    ensures k <= -1 ==> k * w <= -w
  {
    if k >= 1 {
      MulAtLeast(k, w);
    } else if k <= -1 {
      MulAtLeast(-k, w);
    }
  }
}
