/** Which corruptions of a frame its checksum is certain to report. */
module Detection {
  import opened Bytes
  import opened Codec
  import opened Crc
  import opened Numbers

  // ---- the stored checksum ----

  function High(v: bv16): Byte { (v >> 8) as Byte }

  function LowByte(v: bv16): Byte { (v & 0xFF) as Byte }

  lemma WordValue(v: bv16)
    ensures v as int == Val(LowByte(v)) + 256 * Val(High(v))
  {
  }

  lemma SwapSwaps(v: bv16)
    ensures LowByte(Swap16(v)) == High(v) && High(Swap16(v)) == LowByte(v)
  {
  }

  lemma SameDigits(a: nat, b: nat, c: nat, d: nat)
    requires a < 256 && c < 256 && a + 256 * b == c + 256 * d
    ensures a == c && b == d
  {
  }

  lemma WordOfBytes(v: bv16, w: bv16)
    requires LowByte(v) == LowByte(w) && High(v) == High(w)
    ensures v == w
  {
  }

  /** Equal stored checksums mean equal registers. */
  lemma ChecksumInjective(a: seq<Byte>, b: seq<Byte>)
    requires Checksum(a) == Checksum(b)
    ensures Crc.Of(a) == Crc.Of(b)
  {
    var x, y := Crc.Of(a), Crc.Of(b);
    WordValue(Swap16(x));
    WordValue(Swap16(y));
    SameDigits(Val(LowByte(Swap16(x))), Val(High(Swap16(x))), Val(LowByte(Swap16(y))), Val(High(Swap16(y))));
    SameVal(LowByte(Swap16(x)), LowByte(Swap16(y)));
    SameVal(High(Swap16(x)), High(Swap16(y)));
    SwapSwaps(x);
    SwapSwaps(y);
    WordOfBytes(x, y);
  }

  /** Two frames under the same header whose checksums both hold have equal registers. */
  lemma SameStored(raw: seq<Byte>, bad: seq<Byte>)
    requires |bad| == |raw| >= HEADER_LEN && bad[..NPL_LEN] == raw[..NPL_LEN]
    requires CrcOk(raw) && CrcOk(bad)
    ensures Crc.Of(Covered(raw)) == Crc.Of(Covered(bad))
  {
    ChecksumInjective(Covered(raw), Covered(bad));
  }

  lemma ReportedIff(raw: seq<Byte>)
    requires DecodeFrame(raw).Ok?
    ensures |raw| >= HEADER_LEN && DecodeFrame(raw).frame.crcOk == CrcOk(raw)
  {
  }

  /** A different register under the same header is reported. */
  lemma DifferenceReported(raw: seq<Byte>, bad: seq<Byte>)
    requires |bad| == |raw| >= HEADER_LEN && bad[..NPL_LEN] == raw[..NPL_LEN]
    requires CrcOk(raw) && Crc.Of(Covered(raw)) != Crc.Of(Covered(bad))
    ensures DecodeFrame(bad).Ok? ==> !DecodeFrame(bad).frame.crcOk
  {
    if DecodeFrame(bad).Ok? {
      ReportedIff(bad);
      if CrcOk(bad) {
        SameStored(raw, bad);
      }
    }
  }

  /** A change confined to sixteen consecutive bits of NPH and body is always reported. */
  lemma BurstReported(raw: seq<Byte>, bad: seq<Byte>, from: nat)
    requires |raw| >= HEADER_LEN && CrcOk(raw)
    requires |bad| == |raw| && bad[..NPL_LEN] == raw[..NPL_LEN]
    requires DifferInBurst(BitsOf(Covered(raw)), BitsOf(Covered(bad)), from)
    ensures DecodeFrame(bad).Ok? ==> !DecodeFrame(bad).frame.crcOk
  {
    BurstDetected(Covered(raw), Covered(bad), from);
    DifferenceReported(raw, bad);
  }

  ghost predicate Eights<T(!new)>(piece: T -> seq<bool>) {
    forall t :: |piece(t)| == 8
  }

  lemma {:induction false} FlatLength<T(!new)>(piece: T -> seq<bool>, data: seq<T>)
    requires Eights(piece)
    ensures |Flat(piece, data)| == 8 * |data|
  {
    if data != [] {
      FlatLength(piece, data[1..]);
    }
  }

  lemma {:induction false} FlatAt<T(!new)>(piece: T -> seq<bool>, data: seq<T>, i: nat, j: nat)
    requires Eights(piece) && i < |data| && j < 8
    ensures |Flat(piece, data)| == 8 * |data|
    ensures Flat(piece, data)[8 * i + j] == piece(data[i])[j]
    decreases i
  {
    FlatLength(piece, data);
    FlatLength(piece, data[1..]);
    if i > 0 {
      FlatAt(piece, data[1..], i - 1, j);
    }
  }

  lemma {:induction false} SameFlatSamePieces<T(!new)>(piece: T -> seq<bool>, a: seq<T>, b: seq<T>, i: nat)
    requires Eights(piece) && |a| == |b| && Flat(piece, a) == Flat(piece, b) && i < |a|
    ensures piece(a[i]) == piece(b[i])
  {
    forall j | 0 <= j < 8
      ensures piece(a[i])[j] == piece(b[i])[j]
    {
      FlatAt(piece, a, i, j);
      FlatAt(piece, b, i, j);
    }
  }

  lemma SamePiecesSameBits<T(!new)>(piece: T -> seq<bool>, a: seq<T>, b: seq<T>, n: nat)
    requires Eights(piece) && |a| == |b| && n < 8 * |a| && a[n / 8] == b[n / 8]
    ensures |Flat(piece, a)| == |Flat(piece, b)| == 8 * |a|
    ensures Flat(piece, a)[n] == Flat(piece, b)[n]
  {
    FlatAt(piece, a, n / 8, n % 8);
    FlatAt(piece, b, n / 8, n % 8);
  }

  lemma {:induction false} BitsDetermine<W(!new)>(low: W -> bool, half: W -> W, u: W, v: W, n: nat)
    requires forall x, y :: low(x) == low(y) && half(x) == half(y) ==> x == y
    requires LowBits(low, half, u, n) == LowBits(low, half, v, n) && Turns(half, u, n) == Turns(half, v, n)
    ensures u == v
    decreases n
  {
    if n > 0 {
      assert LowBits(low, half, u, n)[0] == low(u) && LowBits(low, half, v, n)[0] == low(v);
      assert LowBits(low, half, u, n)[1..] == LowBits(low, half, half(u), n - 1);
      assert LowBits(low, half, v, n)[1..] == LowBits(low, half, half(v), n - 1);
      BitsDetermine(low, half, half(u), half(v), n - 1);
    }
  }

  lemma HalvesDetermine(x: bv16, y: bv16)
    requires Low(x) == Low(y) && Half(x) == Half(y)
    ensures x == y
  {
    assert x & 1 == 1 || x & 1 == 0;
    assert y & 1 == 1 || y & 1 == 0;
  }

  lemma SameBitsSameByte(a: Byte, b: Byte)
    requires ByteBits(a) == ByteBits(b)
    ensures a == b
  {
    ByteRunsOut(a);
    ByteRunsOut(b);
    forall x: bv16, y: bv16 | Low(x) == Low(y) && Half(x) == Half(y)
      ensures x == y
    {
      HalvesDetermine(x, y);
    }
    BitsDetermine(Low, Half, a as bv16, b as bv16, 8);
  }

  lemma SameBitsSameBytes(a: seq<Byte>, b: seq<Byte>)
    requires |a| == |b| && BitsOf(a) == BitsOf(b)
    ensures a == b
  {
    forall i | 0 <= i < |a|
      ensures a[i] == b[i]
    {
      SameFlatSamePieces(ByteBits, a, b, i);
      SameBitsSameByte(a[i], b[i]);
    }
  }

  lemma TwoBytesAreABurst(a: seq<Byte>, b: seq<Byte>, at: nat)
    requires |a| == |b| && a != b
    requires forall i :: 0 <= i < |a| && i != at && i != at + 1 ==> a[i] == b[i]
    ensures DifferInBurst(BitsOf(a), BitsOf(b), 8 * at)
  {
    FlatLength(ByteBits, a);
    FlatLength(ByteBits, b);
    if BitsOf(a) == BitsOf(b) {
      SameBitsSameBytes(a, b);
    }
    forall n | 0 <= n < 8 * |a| && !(8 * at <= n < 8 * at + 16)
      ensures BitsOf(a)[n] == BitsOf(b)[n]
    {
      SamePiecesSameBits(ByteBits, a, b, n);
    }
  }

  /** Any change of NPH and body confined to one byte or to two neighbouring bytes is reported. */
  lemma TwoBytesReported(raw: seq<Byte>, bad: seq<Byte>, at: nat)
    requires |raw| >= HEADER_LEN && CrcOk(raw)
    requires |bad| == |raw| && bad[..NPL_LEN] == raw[..NPL_LEN] && Covered(bad) != Covered(raw)
    requires forall i :: 0 <= i < |raw| && i != at && i != at + 1 ==> raw[i] == bad[i]
    ensures DecodeFrame(bad).Ok? ==> !DecodeFrame(bad).frame.crcOk
  {
    var start := MaxInt(at - NPL_LEN, 0);
    var a, b := Covered(raw), Covered(bad);
    assert DataSize(raw) == DataSize(bad);
    forall i | 0 <= i < |a| && i != start && i != start + 1
      ensures a[i] == b[i]
    {
      assert a[i] == raw[NPL_LEN + i] && b[i] == bad[NPL_LEN + i];
    }
    TwoBytesAreABurst(a, b, start);
    BurstReported(raw, bad, 8 * start);
  }

  // ---- odd numbers of flipped bits ----

  function Flips(a: seq<bool>, b: seq<bool>): nat {
    if a == [] || b == [] then 0 else (if a[0] != b[0] then 1 else 0) + Flips(a[1..], b[1..])
  }

  lemma {:induction false} FlipsParity(a: seq<bool>, b: seq<bool>)
    requires |a| == |b|
    ensures Flips(a, b) % 2 == 1 <==> OddBits(a) != OddBits(b)
  {
    if a != [] {
      FlipsParity(a[1..], b[1..]);
    }
  }

  lemma OddFlipsDetected(a: seq<Byte>, b: seq<Byte>)
    requires |a| == |b| && Flips(BitsOf(a), BitsOf(b)) % 2 == 1
    ensures Crc.Of(a) != Crc.Of(b)
  {
    FlatLength(ByteBits, a);
    FlatLength(ByteBits, b);
    FlipsParity(BitsOf(a), BitsOf(b));
    ChecksumParity(a);
    ChecksumParity(b);
  }

  /** An odd number of flipped bits in NPH and body is always reported. */
  lemma OddFlipsReported(raw: seq<Byte>, bad: seq<Byte>)
    requires |raw| >= HEADER_LEN && CrcOk(raw)
    requires |bad| == |raw| && bad[..NPL_LEN] == raw[..NPL_LEN]
    requires Flips(BitsOf(Covered(raw)), BitsOf(Covered(bad))) % 2 == 1
    ensures DecodeFrame(bad).Ok? ==> !DecodeFrame(bad).frame.crcOk
  {
    OddFlipsDetected(Covered(raw), Covered(bad));
    DifferenceReported(raw, bad);
  }
}
