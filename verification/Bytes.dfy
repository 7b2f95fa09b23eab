/** Bytes and the little-endian `struct` formats the protocol is written in.

    A format is a sequence of codes. Packing is refused (`None`) exactly when `struct.pack`
    would raise: wrong number of values, or a value outside its code's range. */
module Bytes {
  import opened Numbers
  import opened Options

  type Byte = bv8

  function Val(b: Byte): (v: nat)
    ensures v < 256
  {
    b as int
  }

  /** The byte of a value, counted up from zero. */
  function ToByte(v: int): (b: Byte)
    requires 0 <= v < 256
    ensures Val(b) == v
  {
    if v == 0 then 0 else ToByte(v - 1) + 1
  }

  lemma SameVal(a: Byte, b: Byte)
    requires Val(a) == Val(b)
    ensures a == b
  {
  }

  lemma ByteOfVal(b: Byte)
    ensures ToByte(Val(b)) == b
  {
    SameVal(ToByte(Val(b)), b);
  }

  function Pow256(n: nat): (p: nat)
    ensures p >= 1
  {
    if n == 0 then 1 else 256 * Pow256(n - 1)
  }

  /** The `n` low bytes of `v`, least significant first. */
  function Little(v: nat, n: nat): (s: seq<Byte>)
    ensures |s| == n
  {
    if n == 0 then [] else [ToByte(v % 256)] + Little(v / 256, n - 1)
  }

  function FromLittle(s: seq<Byte>): (v: nat)
    ensures v < Pow256(|s|)
  {
    if s == [] then 0 else Val(s[0]) + 256 * FromLittle(s[1..])
  }

  lemma {:induction false} FromLittleOfLittle(v: nat, n: nat)
    requires v < Pow256(n)
    ensures FromLittle(Little(v, n)) == v
  {
    if n > 0 {
      FromLittleOfLittle(v / 256, n - 1);
      assert Little(v, n)[1..] == Little(v / 256, n - 1);
    }
  }

  lemma SplitLow(low: nat, high: nat)
    requires low < 256
    ensures (low + 256 * high) % 256 == low && (low + 256 * high) / 256 == high
  {
  }

  lemma LittleOfSum(b: Byte, high: nat, n: nat)
    requires n > 0
    ensures Little(Val(b) + 256 * high, n) == [b] + Little(high, n - 1)
  {
    SplitLow(Val(b), high);
    ByteOfVal(b);
  }

  lemma {:induction false} LittleOfFromLittle(s: seq<Byte>)
    ensures Little(FromLittle(s), |s|) == s
  {
    if s != [] {
      LittleOfFromLittle(s[1..]);
      LittleOfSum(s[0], FromLittle(s[1..]), |s|);
    }
  }

  datatype Code = U8 | U16 | U32 | I8 | I16 | I32

  function Width(c: Code): nat {
    match c
    case U8 | I8 => 1
    case U16 | I16 => 2
    case U32 | I32 => 4
  }

  /** How many values a code can carry. */
  function Span(c: Code): (p: nat)
    ensures p == Pow256(Width(c))
  {
    match c
    case U8 | I8 => 0x100
    case U16 | I16 => assert Pow256(2) == 256 * Pow256(1); 0x1_0000
    case U32 | I32 => assert Pow256(4) == 256 * Pow256(3) && Pow256(3) == 256 * Pow256(2)
                          && Pow256(2) == 256 * Pow256(1); 0x1_0000_0000
  }

  predicate Signed(c: Code) {
    c.I8? || c.I16? || c.I32?
  }

  predicate Fits(c: Code, v: int) {
    var span: int := Span(c);
    if Signed(c) then -span <= 2 * v < span else 0 <= v < span
  }

  /** Two's complement for the signed codes. */
  function PackOne(c: Code, v: int): (s: seq<Byte>)
    requires Fits(c, v)
    ensures |s| == Width(c)
  {
    Little(if v < 0 then v + Span(c) else v, Width(c))
  }

  function UnpackOne(c: Code, s: seq<Byte>): (v: int)
    requires |s| == Width(c)
    ensures Fits(c, v)
  {
    var w := FromLittle(s);
    if Signed(c) && 2 * w >= Span(c) then w - Span(c) else w
  }

  lemma UnpackPackOne(c: Code, v: int)
    requires Fits(c, v)
    ensures UnpackOne(c, PackOne(c, v)) == v
  {
    FromLittleOfLittle(if v < 0 then v + Span(c) else v, Width(c));
  }

  lemma PackUnpackOne(c: Code, s: seq<Byte>)
    requires |s| == Width(c)
    ensures PackOne(c, UnpackOne(c, s)) == s
  {
    var w, v := FromLittle(s), UnpackOne(c, s);
    assert w == if v < 0 then v + Span(c) else v;
    LittleOfFromLittle(s);
  }

  /** Length of the first `n` fields of a format. */
  function SizeTo(codes: seq<Code>, n: nat): nat
    requires n <= |codes|
  {
    if n == 0 then 0 else SizeTo(codes, n - 1) + Width(codes[n - 1])
  }

  function Size(codes: seq<Code>): nat {
    SizeTo(codes, |codes|)
  }

  predicate Packable(codes: seq<Code>, vs: seq<int>) {
    |codes| == |vs| && forall i :: 0 <= i < |vs| ==> Fits(codes[i], vs[i])
  }

  function PackTo(codes: seq<Code>, vs: seq<int>, n: nat): (s: seq<Byte>)
    requires Packable(codes, vs) && n <= |codes|
    ensures |s| == SizeTo(codes, n)
  {
    if n == 0 then [] else PackTo(codes, vs, n - 1) + PackOne(codes[n - 1], vs[n - 1])
  }

  function PackAll(codes: seq<Code>, vs: seq<int>): (s: seq<Byte>)
    requires Packable(codes, vs)
    ensures |s| == Size(codes)
  {
    PackTo(codes, vs, |codes|)
  }

  function UnpackTo(codes: seq<Code>, s: seq<Byte>, n: nat): (vs: seq<int>)
    requires n <= |codes| && |s| == SizeTo(codes, n)
    ensures |vs| == n && forall i :: 0 <= i < n ==> Fits(codes[i], vs[i])
    decreases n
  {
    if n == 0 then []
    else
      var cut := SizeTo(codes, n - 1);
      UnpackTo(codes, s[..cut], n - 1) + [UnpackOne(codes[n - 1], s[cut..])]
  }

  function UnpackAll(codes: seq<Code>, s: seq<Byte>): (vs: seq<int>)
    requires |s| == Size(codes)
    ensures Packable(codes, vs)
  {
    UnpackTo(codes, s, |codes|)
  }

  /** `Struct.pack`, with `None` for `struct.error`. */
  function Pack(codes: seq<Code>, vs: seq<int>): Option<seq<Byte>> {
    if Packable(codes, vs) then Some(PackAll(codes, vs)) else None
  }

  lemma UnpackSplit(codes: seq<Code>, init: seq<Byte>, last: seq<Byte>, n: nat)
    requires 0 < n <= |codes| && |init| == SizeTo(codes, n - 1) && |last| == Width(codes[n - 1])
    ensures |init + last| == SizeTo(codes, n)
    ensures UnpackTo(codes, init + last, n) == UnpackTo(codes, init, n - 1) + [UnpackOne(codes[n - 1], last)]
  {
    assert (init + last)[..|init|] == init;
    assert (init + last)[|init|..] == last;
  }

  lemma {:induction false} UnpackPackTo(codes: seq<Code>, vs: seq<int>, n: nat)
    requires Packable(codes, vs) && n <= |codes|
    ensures UnpackTo(codes, PackTo(codes, vs, n), n) == vs[..n]
    decreases n
  {
    if n > 0 {
      var code, v := codes[n - 1], vs[n - 1];
      UnpackPackTo(codes, vs, n - 1);
      UnpackPackOne(code, v);
      UnpackAppended(codes, PackTo(codes, vs, n - 1), PackOne(code, v), n, vs, v);
    }
  }

  lemma UnpackAppended(codes: seq<Code>, init: seq<Byte>, last: seq<Byte>, n: nat, vs: seq<int>, v: int)
    requires 0 < n <= |codes| == |vs| && |init| == SizeTo(codes, n - 1) && |last| == Width(codes[n - 1])
    requires UnpackTo(codes, init, n - 1) == vs[..n - 1] && UnpackOne(codes[n - 1], last) == v == vs[n - 1]
    ensures |init + last| == SizeTo(codes, n)
    ensures UnpackTo(codes, init + last, n) == vs[..n]
  {
    UnpackSplit(codes, init, last, n);
    assert vs[..n] == vs[..n - 1] + [v];
  }

  lemma UnpackPack(codes: seq<Code>, vs: seq<int>)
    requires Packable(codes, vs)
    ensures UnpackAll(codes, PackAll(codes, vs)) == vs
  {
    UnpackPackTo(codes, vs, |codes|);
  }

  lemma {:induction false} PackUnpackTo(codes: seq<Code>, s: seq<Byte>, vs: seq<int>, n: nat)
    requires n <= |codes| && |s| == SizeTo(codes, n)
    requires Packable(codes, vs) && UnpackTo(codes, s, n) == vs[..n]
    ensures PackTo(codes, vs, n) == s
    decreases n
  {
    if n > 0 {
      var cut := SizeTo(codes, n - 1);
      var init, last := s[..cut], s[cut..];
      assert s == init + last;
      UnpackSplit(codes, init, last, n);
      assert vs[..n] == vs[..n - 1] + [vs[n - 1]];
      PackUnpackTo(codes, init, vs, n - 1);
      PackUnpackOne(codes[n - 1], last);
    }
  }

  lemma PackUnpack(codes: seq<Code>, s: seq<Byte>)
    requires |s| == Size(codes)
    ensures PackAll(codes, UnpackAll(codes, s)) == s
  {
    var vs := UnpackAll(codes, s);
    assert vs[..|codes|] == vs;
    PackUnpackTo(codes, s, vs, |codes|);
  }

  /** Python's `s[lo:hi]` for nonnegative bounds: clipped, empty when they cross. */
  function Slice<T>(s: seq<T>, lo: nat, hi: nat): seq<T> {
    var b := MinInt(hi, |s|);
    s[MinInt(lo, b)..b]
  }
}
