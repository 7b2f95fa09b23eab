/** Where every field lies on the wire, read from the bytes themselves. */
module Wire {
  import opened Bytes
  import opened Cells
  import opened Codec
  import opened Detection
  import opened Options
  import opened RoundTrip
  import Crc

  /** The number in two bytes, low byte first. */
  function Two(s: seq<Byte>, at: nat): nat
    requires at + 2 <= |s|
  {
    Val(s[at]) + 256 * Val(s[at + 1])
  }

  function Four(s: seq<Byte>, at: nat): nat
    requires at + 4 <= |s|
  {
    Two(s, at) + 65536 * Two(s, at + 2)
  }

  /** The number in one, two or four bytes. */
  function Read(s: seq<Byte>, at: nat, n: nat): nat
    requires at + n <= |s| && (n == 1 || n == 2 || n == 4)
  {
    if n == 1 then Val(s[at]) else if n == 2 then Two(s, at) else Four(s, at)
  }

  /** The same number with the highest of `8 * n` bits counted negative. */
  function Complement(v: nat, n: nat): int
    requires n == 1 || n == 2 || n == 4
  {
    if n == 1 then (if v < 128 then v else v - 256)
    else if n == 2 then (if v < 32768 then v else v - 65536)
    else if v < 2147483648 then v else v - 4294967296
  }

  // ---- formats ----

  lemma FromLittleTwo(s: seq<Byte>)
    requires |s| == 2
    ensures FromLittle(s) == Two(s, 0)
  {
    assert s[1..][1..] == [];
    assert FromLittle(s[1..]) == Val(s[1]) + 256 * FromLittle(s[1..][1..]);
  }

  lemma FromLittleIs(s: seq<Byte>, at: nat, n: nat)
    requires at + n <= |s| && (n == 1 || n == 2 || n == 4)
    ensures FromLittle(s[at..at + n]) == Read(s, at, n)
  {
    var w := s[at..at + n];
    if n == 1 {
      assert w[1..] == [];
    } else if n == 2 {
      FromLittleTwo(w);
    } else {
      FromLittleTwo(w[2..]);
      assert w[1..][1..] == w[2..];
      assert FromLittle(w[1..]) == Val(w[1]) + 256 * FromLittle(w[1..][1..]);
    }
  }

  function ValueOf(c: Code, v: nat): int {
    if Signed(c) then Complement(v, Width(c)) else v
  }

  lemma UnpackOneIs(c: Code, s: seq<Byte>, at: nat, w: seq<Byte>)
    requires at + Width(c) <= |s| && w == s[at..at + Width(c)]
    ensures UnpackOne(c, w) == ValueOf(c, Read(s, at, Width(c)))
  {
    FromLittleIs(s, at, Width(c));
  }

  lemma SliceOfSlice(s: seq<Byte>, at: nat, end: nat, cut: nat)
    requires at <= end <= cut <= |s|
    ensures s[..cut][at..end] == s[at..end]
  {
  }

  lemma UnpackStep(codes: seq<Code>, s: seq<Byte>, n: nat, i: nat, init: seq<Byte>, last: seq<Byte>)
    requires i < n <= |codes| && |s| == SizeTo(codes, n)
    requires init == s[..SizeTo(codes, n - 1)] && last == s[SizeTo(codes, n - 1)..]
    ensures i < n - 1 ==> UnpackTo(codes, s, n)[i] == UnpackTo(codes, init, n - 1)[i]
    ensures i == n - 1 ==> UnpackTo(codes, s, n)[i] == UnpackOne(codes[i], last)
  {
  }

  lemma {:induction false} UnpackToAt(codes: seq<Code>, s: seq<Byte>, n: nat, i: nat, at: nat, end: nat)
    requires i < n <= |codes| && |s| == SizeTo(codes, n)
    requires at == SizeTo(codes, i) && end == at + Width(codes[i])
    ensures end <= |s| && UnpackTo(codes, s, n)[i] == UnpackOne(codes[i], s[at..end])
    decreases n
  {
    var cut := SizeTo(codes, n - 1);
    var init := s[..cut];
    UnpackStep(codes, s, n, i, init, s[cut..]);
    if i < n - 1 {
      UnpackToAt(codes, init, n - 1, i, at, end);
      SliceOfSlice(s, at, end, cut);
    } else {
      assert s[cut..] == s[at..end];
    }
  }

  /** Field `i` of a format is read from its own bytes. */
  lemma UnpackAt(codes: seq<Code>, s: seq<Byte>, i: nat, at: nat, width: nat)
    requires |s| == Size(codes) && i < |codes| && at == SizeTo(codes, i) && width == Width(codes[i])
    ensures at + width <= |s| && UnpackAll(codes, s)[i] == ValueOf(codes[i], Read(s, at, width))
  {
    UnpackToAt(codes, s, |codes|, i, at, at + width);
    UnpackOneIs(codes[i], s, at, s[at..at + width]);
  }

  /** Where the fields of a format begin, and where the last one ends. */
  predicate Offsets(codes: seq<Code>, at: seq<nat>) {
    && |at| == |codes| + 1 && at[0] == 0
    && (forall i :: 0 <= i < |codes| ==> at[i + 1] == at[i] + Width(codes[i]))
  }

  lemma {:induction false} OffsetsAre(codes: seq<Code>, at: seq<nat>, i: nat)
    requires Offsets(codes, at) && i <= |codes|
    ensures at[i] == SizeTo(codes, i)
    decreases i
  {
    if i > 0 {
      OffsetsAre(codes, at, i - 1);
      assert at[i - 1 + 1] == at[i - 1] + Width(codes[i - 1]);
    }
  }

  /** Every field of a format is read from its own bytes. */
  lemma FormatAt(codes: seq<Code>, at: seq<nat>, s: seq<Byte>, vs: seq<int>, i: nat)
    requires Offsets(codes, at) && |s| == Size(codes) && vs == UnpackAll(codes, s) && i < |codes|
    ensures at[i] + Width(codes[i]) <= |s|
    ensures vs[i] == ValueOf(codes[i], Read(s, at[i], Width(codes[i])))
  {
    OffsetsAre(codes, at, i);
    UnpackAt(codes, s, i, at[i], Width(codes[i]));
  }

  lemma UnsignedAt(codes: seq<Code>, at: seq<nat>, s: seq<Byte>, vs: seq<int>)
    requires Offsets(codes, at) && |s| == Size(codes) && vs == UnpackAll(codes, s)
    requires forall i :: 0 <= i < |codes| ==> !Signed(codes[i])
    ensures forall i :: 0 <= i < |codes| ==>
              at[i] + Width(codes[i]) <= |s| && vs[i] == Read(s, at[i], Width(codes[i]))
  {
    forall i | 0 <= i < |codes|
      ensures at[i] + Width(codes[i]) <= |s| && vs[i] == Read(s, at[i], Width(codes[i]))
    {
      FormatAt(codes, at, s, vs, i);
    }
  }

  // ---- the navigation cell ----

  const NAV_AT: seq<nat> := [0, 4, 8, 12, 13, 14, 16, 18, 20, 22, 24, 25, 26]

  lemma NavOffsets()
    ensures Offsets(NAV, NAV_AT) && forall i :: 0 <= i < |NAV| ==> !Signed(NAV[i])
  {
  }

  /** The navigation cell of 26 bytes: the moment, the moduli of longitude and latitude, the byte of hemispheres
      and validity, and the rest of the fields. */
  lemma NavOnWire(p: seq<Byte>)
    requires |p| == 26
    ensures var nav := DecodeNav(p);
      && nav.timestamp == Four(p, 0)
      && nav.lon == Coord(Val(p[12]) / 64 % 2 == 1, Four(p, 4))
      && nav.lat == Coord(Val(p[12]) / 32 % 2 == 1, Four(p, 8))
      && nav.valid == (Val(p[12]) / 128 % 2 == 1) && nav.flags == Val(p[12]) && nav.battery == Val(p[13])
      && nav.speed == Two(p, 14) && nav.speedMax == Two(p, 16) && nav.course == Two(p, 18)
      && nav.track == Two(p, 20) && nav.altitude == Two(p, 22) && nav.nsat == Val(p[24]) && nav.pdop == Val(p[25])
  {
    NavSize();
    var vs := UnpackAll(NAV, p);
    NavOffsets();
    UnsignedAt(NAV, NAV_AT, p, vs);
    assert vs[0] == Read(p, NAV_AT[0], 4) && vs[1] == Read(p, NAV_AT[1], 4) && vs[2] == Read(p, NAV_AT[2], 4);
    assert vs[3] == Read(p, NAV_AT[3], 1) && vs[4] == Read(p, NAV_AT[4], 1) && vs[5] == Read(p, NAV_AT[5], 2);
    assert vs[6] == Read(p, NAV_AT[6], 2) && vs[7] == Read(p, NAV_AT[7], 2) && vs[8] == Read(p, NAV_AT[8], 2);
    assert vs[9] == Read(p, NAV_AT[9], 2) && vs[10] == Read(p, NAV_AT[10], 1) && vs[11] == Read(p, NAV_AT[11], 1);
  }

  // ---- all other cells ----

  /** Where the columns of a cell begin, and where its payload ends. */
  function CellAt(typ: int): seq<nat> {
    match typ
    case 2 => [0, 2, 4, 6, 8, 9, 10, 12, 14, 16, 18, 22, 23, 24, 25, 26]
    case 3 => [0, 4, 6, 7, 8, 9, 10, 11, 12, 13, 14]
    case 4 => [0, 4, 6, 7, 8, 9, 10, 11, 12, 13, 14, 15]
    case 8 => [0, 1, 3, 5, 6]
    case 10 => [0, 4, 8, 12, 16, 18, 20, 22, 23, 25, 27, 29, 31, 33, 37]
    case 15 => [0, 2, 6, 10, 14, 18, 22, 26, 30, 34, 38, 42, 46, 50]
    case 16 => [0, 4, 8]
    case _ => [0]
  }

  /** The external voltage, the temperature of the engine and that of type 16 may be negative. */
  predicate Negative(typ: int, i: nat) {
    (typ == 2 && i == 14) || (typ == 10 && i == 6) || (typ == 16 && i == 1)
  }

  ghost predicate Signs(typ: int, codes: seq<Code>) {
    forall i :: 0 <= i < |codes| ==> (Signed(codes[i]) <==> Negative(typ, i))
  }

  lemma SensorOffsets()
    ensures Offsets(LayoutOf(2).value.codes, CellAt(2))
  {
  }

  lemma CrownOffsets()
    ensures Offsets(LayoutOf(3).value.codes, CellAt(3))
  {
  }

  lemma IrmaOffsets()
    ensures Offsets(LayoutOf(4).value.codes, CellAt(4))
  {
  }

  lemma UsiOffsets()
    ensures Offsets(LayoutOf(8).value.codes, CellAt(8))
  {
  }

  lemma CanOffsets()
    ensures Offsets(LayoutOf(10).value.codes, CellAt(10))
  {
  }

  lemma LlsOffsets()
    ensures Offsets(LayoutOf(15).value.codes, CellAt(15))
  {
  }

  lemma TermoOffsets()
    ensures Offsets(LayoutOf(16).value.codes, CellAt(16))
  {
  }

  lemma CellOffsets(typ: int)
    requires LayoutOf(typ).Some?
    ensures Offsets(LayoutOf(typ).value.codes, CellAt(typ))
  {
    match typ
    case 2 => SensorOffsets();
    case 3 => CrownOffsets();
    case 4 => IrmaOffsets();
    case 8 => UsiOffsets();
    case 10 => CanOffsets();
    case 15 => LlsOffsets();
    case 16 => TermoOffsets();
  }

  lemma SensorSigns()
    ensures Signs(2, LayoutOf(2).value.codes)
  {
  }

  lemma CrownSigns()
    ensures Signs(3, LayoutOf(3).value.codes)
  {
  }

  lemma IrmaSigns()
    ensures Signs(4, LayoutOf(4).value.codes)
  {
  }

  lemma UsiSigns()
    ensures Signs(8, LayoutOf(8).value.codes)
  {
  }

  lemma CanSigns()
    ensures Signs(10, LayoutOf(10).value.codes)
  {
  }

  lemma LlsSigns()
    ensures Signs(15, LayoutOf(15).value.codes)
  {
  }

  lemma TermoSigns()
    ensures Signs(16, LayoutOf(16).value.codes)
  {
  }

  lemma CellSigns(typ: int)
    requires LayoutOf(typ).Some?
    ensures Signs(typ, LayoutOf(typ).value.codes)
  {
    match typ
    case 2 => SensorSigns();
    case 3 => CrownSigns();
    case 4 => IrmaSigns();
    case 8 => UsiSigns();
    case 10 => CanSigns();
    case 15 => LlsSigns();
    case 16 => TermoSigns();
  }

  lemma ColumnAt(typ: int, codes: seq<Code>, at: seq<nat>, p: seq<Byte>, vs: seq<int>, i: nat, n: nat)
    requires Offsets(codes, at) && Signs(typ, codes) && |p| == Size(codes) && vs == UnpackAll(codes, p)
    requires i < |codes| && n == at[i + 1] - at[i]
    ensures (n == 1 || n == 2 || n == 4) && at[i] + n <= |p|
    ensures vs[i] == if Negative(typ, i) then Complement(Read(p, at[i], n), n) else Read(p, at[i], n)
  {
    FormatAt(codes, at, p, vs, i);
  }

  /** Every column of a cell is read from its own bytes, the three that may be negative as two's complement. */
  lemma CellOnWire(typ: int, number: int, p: seq<Byte>, i: nat, n: nat)
    requires LayoutOf(typ).Some? && PayloadSize(typ) == Some(|p|)
    requires i + 1 < |CellAt(typ)| && (typ == 4 ==> i < 10) && n == CellAt(typ)[i + 1] - CellAt(typ)[i]
    ensures (n == 1 || n == 2 || n == 4) && CellAt(typ)[i] + n <= |p|
    ensures var fields := DecodeCell(typ, number, p).fields;
      var v := Read(p, CellAt(typ)[i], n);
      Column(i) in fields && fields[Column(i)] == if Negative(typ, i) then Complement(v, n) else v
  {
    var lay := LayoutOf(typ).value;
    PayloadSizes(typ);
    CellOffsets(typ);
    CellSigns(typ);
    var vs := UnpackAll(lay.codes, p);
    ColumnAt(typ, lay.codes, CellAt(typ), p, vs, i, n);
    FieldsDecoded(typ, number, p, lay, vs);
    ColumnVisible(typ, lay, i);
    FieldAt(lay, vs, Column(i));
  }

  lemma ColumnVisible(typ: int, lay: Layout, i: nat)
    requires LayoutOf(typ) == Some(lay) && WellFormed(lay) && i < |lay.codes| && (typ == 4 ==> i < 10)
    ensures Column(i) in Visible(lay)
  {
    assert lay.flags > 0 ==> typ == 4;
    assert Visible(lay)[i] == Column(i);
  }

  predicate Binary(ds: seq<int>) { forall i :: 0 <= i < |ds| ==> 0 <= ds[i] <= 1 }

  lemma TwoPacked(ds: seq<int>, rest: seq<int>)
    requires |ds| >= 2 && Binary(ds) && rest == ds[2..]
    ensures Packed(ds) == ds[0] + 2 * ds[1] + 4 * Packed(rest)
  {
    assert ds[1..][1..] == rest;
    assert Packed(ds[1..]) == ds[1] + 2 * Packed(rest);
  }

  lemma EightPacked(ds: seq<int>)
    requires |ds| == 8 && Binary(ds)
    ensures Packed(ds)
         == ds[0] + 2 * ds[1] + 4 * ds[2] + 8 * ds[3] + 16 * ds[4] + 32 * ds[5] + 64 * ds[6] + 128 * ds[7]
  {
    TwoPacked(ds, ds[2..]);
    TwoPacked(ds[2..], ds[4..]);
    TwoPacked(ds[4..], ds[6..]);
    TwoPacked(ds[6..], ds[8..]);
  }

  lemma FieldsDecoded(typ: int, number: int, p: seq<Byte>, lay: Layout, vs: seq<int>)
    requires LayoutOf(typ) == Some(lay) && PayloadSize(typ) == Some(|p|)
    ensures WellFormed(lay) && |p| == Size(lay.codes)
    ensures vs == UnpackAll(lay.codes, p) ==>
              && (lay.flags > 0 ==> vs[|vs| - 1] >= 0) && DecodeCell(typ, number, p).fields == FieldsOf(lay, vs)
  {
    LayoutsWellFormed(typ);
    PayloadSizes(typ);
    var values := UnpackAll(lay.codes, p);
    assert lay.flags > 0 ==> Fits(lay.codes[|values| - 1], values[|values| - 1]);
  }

  lemma FlagAt(number: int, p: seq<Byte>, i: nat)
    requires |p| == 15 && i < 8
    ensures var fields := DecodeCell(4, number, p).fields;
      FlagBit(i) in fields && fields[FlagBit(i)] == Digits(Val(p[14]), 8)[i]
  {
    LayoutsWellFormed(4);
    PayloadSizes(4);
    var lay := LayoutOf(4).value;
    var vs := UnpackAll(lay.codes, p);
    FieldsDecoded(4, number, p, lay, vs);
    LastByte(p, lay.codes, vs);
    FlagVisible(lay, i);
    FieldAt(lay, vs, FlagBit(i));
  }

  lemma LastByte(p: seq<Byte>, codes: seq<Code>, vs: seq<int>)
    requires codes == LayoutOf(4).value.codes && |p| == 15 == Size(codes) && vs == UnpackAll(codes, p)
    ensures |vs| == 11 && vs[10] == Val(p[14])
  {
    IrmaOffsets();
    IrmaSigns();
    ColumnAt(4, codes, CellAt(4), p, vs, 10, 1);
  }

  lemma FlagVisible(lay: Layout, i: nat)
    requires LayoutOf(4) == Some(lay) && WellFormed(lay) && i < 8
    ensures FlagBit(i) in Visible(lay)
  {
    assert Visible(lay)[10 + i] == FlagBit(i);
  }

  /** The door flags of type 4 are the bits of its last byte, the lowest first. */
  lemma FlagsOnWire(number: int, p: seq<Byte>, ds: seq<int>)
    requires |p| == 15 && |ds| == 8
    requires forall i :: 0 <= i < 8 ==> ds[i] == Get(DecodeCell(4, number, p).fields, FlagBit(i))
    ensures Binary(ds)
    ensures Val(p[14])
         == ds[0] + 2 * ds[1] + 4 * ds[2] + 8 * ds[3] + 16 * ds[4] + 32 * ds[5] + 64 * ds[6] + 128 * ds[7]
  {
    var digits := Digits(Val(p[14]), 8);
    forall i | 0 <= i < 8 ensures ds[i] == digits[i] {
      FlagAt(number, p, i);
    }
    assert ds == digits;
    assert Pow2(8) == 256;
    PackedOfDigits(Val(p[14]), 8);
    EightPacked(ds);
  }

  // ---- frames ----

  const NPL_AT: seq<nat> := [0, 2, 4, 6, 8, 9, 13, 15]
  const NPH_AT: seq<nat> := [0, 2, 4, 6, 10]
  const HANDSHAKE_AT: seq<nat> := [0, 2, 4, 6, 10, 14, 18]

  lemma HeaderOffsets()
    ensures Offsets(NPL, NPL_AT) && forall i :: 0 <= i < |NPL| ==> !Signed(NPL[i])
    ensures Offsets(NPH, NPH_AT) && forall i :: 0 <= i < |NPH| ==> !Signed(NPH[i])
  {
  }

  lemma HandshakeOffsets()
    ensures Offsets(HANDSHAKE, HANDSHAKE_AT) && forall i :: 0 <= i < |HANDSHAKE| ==> !Signed(HANDSHAKE[i])
  {
  }

  /** The first header: the mark 7E 7E, size, flags, checksum, type, unit and request. */
  lemma NplIs(s: seq<Byte>, vs: seq<int>)
    requires |s| == 15 == Size(NPL) && vs == UnpackAll(NPL, s)
    ensures vs == [Two(s, 0), Two(s, 2), Two(s, 4), Two(s, 6), Val(s[8]), Four(s, 9), Two(s, 13)]
  {
    HeaderOffsets();
    UnsignedAt(NPL, NPL_AT, s, vs);
    assert vs[0] == Read(s, NPL_AT[0], 2) && vs[1] == Read(s, NPL_AT[1], 2) && vs[2] == Read(s, NPL_AT[2], 2);
    assert vs[3] == Read(s, NPL_AT[3], 2) && vs[4] == Read(s, NPL_AT[4], 1) && vs[5] == Read(s, NPL_AT[5], 4);
    assert vs[6] == Read(s, NPL_AT[6], 2);
  }

  /** The second: service, type, flags and request. */
  lemma NphIs(s: seq<Byte>, vs: seq<int>)
    requires |s| == 10 == Size(NPH) && vs == UnpackAll(NPH, s)
    ensures vs == [Two(s, 0), Two(s, 2), Two(s, 4), Four(s, 6)]
  {
    HeaderOffsets();
    UnsignedAt(NPH, NPH_AT, s, vs);
    assert vs[0] == Read(s, NPH_AT[0], 2) && vs[1] == Read(s, NPH_AT[1], 2);
    assert vs[2] == Read(s, NPH_AT[2], 2) && vs[3] == Read(s, NPH_AT[3], 4);
  }

  lemma HandshakeIs(s: seq<Byte>, vs: seq<int>)
    requires |s| == 18 == Size(HANDSHAKE) && vs == UnpackAll(HANDSHAKE, s)
    ensures vs == [Two(s, 0), Two(s, 2), Two(s, 4), Four(s, 6), Four(s, 10), Four(s, 14)]
  {
    HandshakeOffsets();
    UnsignedAt(HANDSHAKE, HANDSHAKE_AT, s, vs);
    assert vs[0] == Read(s, HANDSHAKE_AT[0], 2) && vs[1] == Read(s, HANDSHAKE_AT[1], 2);
    assert vs[2] == Read(s, HANDSHAKE_AT[2], 2) && vs[3] == Read(s, HANDSHAKE_AT[3], 4);
    assert vs[4] == Read(s, HANDSHAKE_AT[4], 4) && vs[5] == Read(s, HANDSHAKE_AT[5], 4);
  }

  lemma InPart(s: seq<Byte>, from: nat, to: nat, w: seq<Byte>, at: nat)
    requires from <= to <= |s| && w == s[from..to]
    ensures at + 2 <= |w| ==> Two(w, at) == Two(s, from + at)
    ensures at + 4 <= |w| ==> Four(w, at) == Four(s, from + at)
  {
  }

  lemma SwapIs(c: bv16, lo: Byte, hi: Byte)
    requires lo == LowByte(c) && hi == High(c)
    ensures Swap16(c) as int == Val(hi) + 256 * Val(lo) && c as int == Val(lo) + 256 * Val(hi)
  {
    WordValue(c);
    SwapSwaps(c);
    WordValue(Swap16(c));
  }

  lemma DigitsSwapped(a: nat, b: nat, lo: nat, hi: nat)
    requires a < 256 && b < 256 && lo < 256 && hi < 256
    ensures a + 256 * b == hi + 256 * lo <==> 256 * a + b == lo + 256 * hi
  {
  }

  /** The checksum is stored with its high byte first. */
  lemma StoredIff(s: seq<Byte>, at: nat, data: seq<Byte>)
    requires at + 2 <= |s|
    ensures Two(s, at) == Checksum(data) <==> 256 * Val(s[at]) + Val(s[at + 1]) == Crc.Of(data) as int
  {
    var lo, hi := LowByte(Crc.Of(data)), High(Crc.Of(data));
    SwapIs(Crc.Of(data), lo, hi);
    DigitsSwapped(Val(s[at]), Val(s[at + 1]), Val(lo), Val(hi));
  }

  lemma HeadersAre(raw: seq<Byte>)
    requires |raw| >= 25
    ensures NplOf(raw)
         == [Two(raw, 0), Two(raw, 2), Two(raw, 4), Two(raw, 6), Val(raw[8]), Four(raw, 9), Two(raw, 13)]
    ensures NphOf(raw) == [Two(raw, 15), Two(raw, 17), Two(raw, 19), Four(raw, 21)]
  {
    Sizes();
    var npl, nph := raw[..15], raw[15..25];
    NplIs(npl, UnpackAll(NPL, npl));
    NphIs(nph, UnpackAll(NPH, nph));
    assert npl == raw[0..15];
  }

  lemma FieldsAre(raw: seq<Byte>)
    requires |raw| >= 25
    ensures NplOf(raw)[1] == Two(raw, 2) && NplOf(raw)[3] == Two(raw, 6) && NplOf(raw)[5] == Four(raw, 9)
    ensures NphOf(raw)[0] == Two(raw, 15) && NphOf(raw)[1] == Two(raw, 17) && NphOf(raw)[3] == Four(raw, 21)
  {
    HeadersAre(raw);
  }

  lemma SliceIs(raw: seq<Byte>, n: nat, end: nat)
    requires |raw| >= 25 && end == (if 15 + n <= |raw| then 15 + n else |raw|)
    ensures Slice(raw, 15, 15 + n) == raw[15..end]
    ensures Slice(raw, 25, 15 + n) == if end <= 25 then [] else raw[25..end]
  {
  }

  /** The bytes the checksum covers, and the body: what follows the headers, as far as the size reaches. */
  function End(raw: seq<Byte>): (end: nat)
    requires |raw| >= 25
    ensures 15 <= end <= |raw|
  {
    if 15 + Two(raw, 2) <= |raw| then 15 + Two(raw, 2) else |raw|
  }

  lemma PartsAre(raw: seq<Byte>)
    requires |raw| >= 25
    ensures Covered(raw) == raw[15..End(raw)]
    ensures BodyOf(raw) == if End(raw) <= 25 then [] else raw[25..End(raw)]
  {
    FieldsAre(raw);
    SliceIs(raw, Two(raw, 2), End(raw));
  }

  lemma Decoded(raw: seq<Byte>)
    requires DecodeFrame(raw).Ok?
    ensures var frame := DecodeFrame(raw).frame;
      && |raw| >= 25 && frame.raw == raw && frame.unitId == NplOf(raw)[5]
      && frame.serviceId == NphOf(raw)[0] && frame.nphType == NphOf(raw)[1] && frame.requestId == NphOf(raw)[3]
      && frame.crcOk == CrcOk(raw)
      && (frame.handshake.Some? <==> NphOf(raw)[0] == 0 && NphOf(raw)[1] == 100)
      && (frame.handshake.Some? ==> DecodeHandshake(BodyOf(raw)) == frame.handshake)
      && (frame.nav.Some? || frame.cells != [] ==> NphOf(raw)[0] == 1 && NphOf(raw)[1] == 101)
  {
  }

  lemma CrcIs(raw: seq<Byte>)
    requires |raw| >= 25
    ensures CrcOk(raw) <==> 256 * Val(raw[6]) + Val(raw[7]) == Crc.Of(raw[15..End(raw)]) as int
  {
    FieldsAre(raw);
    PartsAre(raw);
    StoredIff(raw, 6, raw[15..End(raw)]);
  }

  /** Where a decoder finds the fields of a frame, and when it calls the checksum right. */
  lemma FrameOnWire(raw: seq<Byte>)
    requires DecodeFrame(raw).Ok?
    ensures var frame := DecodeFrame(raw).frame;
      && |raw| >= 25
      && frame.unitId == Four(raw, 9) && frame.requestId == Four(raw, 21)
      && frame.serviceId == Two(raw, 15) && frame.nphType == Two(raw, 17)
      && (frame.crcOk <==> 256 * Val(raw[6]) + Val(raw[7]) == Crc.Of(raw[15..End(raw)]) as int)
      && (frame.handshake.Some? <==> Two(raw, 15) == 0 && Two(raw, 17) == 100)
      && (frame.nav.Some? || frame.cells != [] ==> Two(raw, 15) == 1 && Two(raw, 17) == 101)
  {
    Decoded(raw);
    FieldsAre(raw);
    CrcIs(raw);
  }

  lemma HandshakeBytes(raw: seq<Byte>, body: seq<Byte>, vs: seq<int>)
    requires |raw| >= 43 && body == raw[25..43] && |body| == 18 == Size(HANDSHAKE)
    requires vs == UnpackAll(HANDSHAKE, body)
    ensures vs == [Two(raw, 25), Two(raw, 27), Two(raw, 29), Four(raw, 31), Four(raw, 35), Four(raw, 39)]
  {
    HandshakeIs(body, vs);
  }

  lemma HandshakeFrom(body: seq<Byte>, vs: seq<int>)
    requires |body| == 18 == Size(HANDSHAKE) && vs == UnpackAll(HANDSHAKE, body)
    ensures |vs| == 6 && DecodeHandshake(body) == Some(Handshake(vs[0], vs[1], vs[2], vs[3], vs[4]))
  {
  }

  lemma HandshakeFields(raw: seq<Byte>, body: seq<Byte>)
    requires |raw| >= 43 && body == raw[25..43]
    ensures DecodeHandshake(body)
         == Some(Handshake(Two(raw, 25), Two(raw, 27), Two(raw, 29), Four(raw, 31), Four(raw, 35)))
  {
    Sizes();
    var vs := UnpackAll(HANDSHAKE, body);
    HandshakeFrom(body, vs);
    HandshakeBytes(raw, body, vs);
  }

  /** The fields of a handshake, in the 18 bytes of its body. */
  lemma HandshakeOnWire(raw: seq<Byte>)
    requires DecodeFrame(raw).Ok? && DecodeFrame(raw).frame.handshake.Some?
    ensures |raw| >= 25 && End(raw) == 43
    ensures DecodeFrame(raw).frame.handshake.value
         == Handshake(Two(raw, 25), Two(raw, 27), Two(raw, 29), Four(raw, 31), Four(raw, 35))
  {
    Decoded(raw);
    PartsAre(raw);
    assert |BodyOf(raw)| == 18;
    HandshakeFields(raw, raw[25..43]);
  }

  lemma HeadersRead(
      raw: seq<Byte>, npl: seq<int>, nph: seq<int>, size: int, crc: int, unitId: int,
      serviceId: int, nphType: int, requestId: int, flags: int)
    requires |raw| >= 25 && npl == NplOf(raw) == NplValues(size, crc, unitId)
    requires nph == NphOf(raw) == NphValues(serviceId, nphType, flags, requestId)
    ensures Two(raw, 0) == 0x7E7E && Two(raw, 2) == size && Two(raw, 4) == 0 && Two(raw, 6) == crc
    ensures Val(raw[8]) == 2 && Four(raw, 9) == unitId && Two(raw, 13) == 0
    ensures Two(raw, 15) == serviceId && Two(raw, 17) == nphType && Two(raw, 19) == flags
    ensures Four(raw, 21) == requestId % 0x1_0000_0000
  {
    HeadersAre(raw);
    assert npl[0] == Two(raw, 0) && npl[1] == Two(raw, 2) && npl[2] == Two(raw, 4) && npl[3] == Two(raw, 6);
    assert npl[4] == Val(raw[8]) && npl[5] == Four(raw, 9) && npl[6] == Two(raw, 13);
    assert nph[0] == Two(raw, 15) && nph[1] == Two(raw, 17) && nph[2] == Two(raw, 19) && nph[3] == Four(raw, 21);
  }

  lemma BodyLast(raw: seq<Byte>, head: seq<Byte>, body: seq<Byte>)
    requires |raw| >= 25 && raw[15..] == head + body && |raw| == 25 + |body|
    ensures raw[25..] == body
  {
    assert raw[25..] == raw[15..][10..];
  }

  /** The headers of a frame: mark, size, flags, checksum with its high byte first, type, unit and request; service,
      type of message, flags and request. */
  predicate Headed(raw: seq<Byte>, unitId: int, serviceId: int, nphType: int, requestId: int, flags: int)
    requires |raw| >= 25
  {
    && Two(raw, 0) == 0x7E7E && Two(raw, 2) == |raw| - 15 && Two(raw, 4) == 0
    && 256 * Val(raw[6]) + Val(raw[7]) == Crc.Of(raw[15..]) as int
    && Val(raw[8]) == 2 && Four(raw, 9) == unitId && Two(raw, 13) == 0
    && Two(raw, 15) == serviceId && Two(raw, 17) == nphType && Two(raw, 19) == flags
    && Four(raw, 21) == requestId % 0x1_0000_0000
  }

  lemma BuiltRead(
      raw: seq<Byte>, crc: int, unitId: int, serviceId: int, nphType: int, requestId: int, flags: int)
    requires |raw| >= 25 && NplOf(raw) == NplValues(|raw| - 15, crc, unitId)
    requires NphOf(raw) == NphValues(serviceId, nphType, flags, requestId)
    ensures Two(raw, 6) == crc
    ensures 256 * Val(raw[6]) + Val(raw[7]) == Crc.Of(raw[15..]) as int ==>
              Headed(raw, unitId, serviceId, nphType, requestId, flags)
  {
    HeadersRead(raw, NplOf(raw), NphOf(raw), |raw| - 15, crc, unitId, serviceId, nphType, requestId, flags);
  }

  lemma BuiltSum(raw: seq<Byte>, crc: int)
    requires |raw| >= 25 && Two(raw, 6) == crc == Checksum(raw[15..])
    ensures 256 * Val(raw[6]) + Val(raw[7]) == Crc.Of(raw[15..]) as int
  {
    StoredIff(raw, 6, raw[15..]);
  }

  lemma BuiltWords(
      raw: seq<Byte>, crc: int, unitId: int, serviceId: int, nphType: int, requestId: int, flags: int)
    requires |raw| >= 25 && NplOf(raw) == NplValues(|raw| - 15, crc, unitId) && crc == Checksum(raw[15..])
    requires NphOf(raw) == NphValues(serviceId, nphType, flags, requestId)
    ensures Headed(raw, unitId, serviceId, nphType, requestId, flags)
  {
    BuiltRead(raw, crc, unitId, serviceId, nphType, requestId, flags);
    BuiltSum(raw, crc);
  }

  lemma BuiltHeaders(
      unitId: int, serviceId: int, nphType: int, requestId: int, body: seq<Byte>, flags: int, raw: seq<Byte>)
    requires BuildFrame(unitId, serviceId, nphType, requestId, body, flags) == Some(raw)
    ensures |raw| == 25 + |body| && NplOf(raw) == NplValues(|raw| - 15, Checksum(raw[15..]), unitId)
    ensures NphOf(raw) == NphValues(serviceId, nphType, flags, requestId)
    ensures raw[25..] == body
  {
    BuiltFrame(unitId, serviceId, nphType, requestId, body, flags);
    BodyLast(raw, PackAll(NPH, NphOf(raw)), body);
  }

  /** A frame as it is built: its headers, and the body behind them. */
  lemma BuiltOnWire(
      unitId: int, serviceId: int, nphType: int, requestId: int, body: seq<Byte>, flags: int, raw: seq<Byte>)
    requires BuildFrame(unitId, serviceId, nphType, requestId, body, flags) == Some(raw)
    ensures |raw| == 25 + |body| && raw[25..] == body
    ensures Headed(raw, unitId, serviceId, nphType, requestId, flags)
  {
    BuiltHeaders(unitId, serviceId, nphType, requestId, body, flags, raw);
    BuiltWords(raw, Checksum(raw[15..]), unitId, serviceId, nphType, requestId, flags);
  }

  /** What a terminal introduces itself with: version 6.2, its number, and the largest packet it takes. */
  lemma HandshakeSent(unitId: int, requestId: int, raw: seq<Byte>)
    requires EncodeHandshake(unitId, requestId) == Some(raw)
    ensures |raw| == 43 && Headed(raw, unitId, 0, 100, requestId, 1)
    ensures Two(raw, 25) == 6 && Two(raw, 27) == 2 && Two(raw, 29) == 0
    ensures Four(raw, 31) == unitId && Four(raw, 35) == 65535 && Four(raw, 39) == 0
  {
    Sizes();
    var vs := [6, 2, 0, unitId, MAX_PACKET_SIZE, 0];
    var body := PackAll(HANDSHAKE, vs);
    BuiltOnWire(unitId, SERVICE_GENERIC, NPH_CONN_REQUEST, requestId, body, NPH_FLAG_REQUEST, raw);
    UnpackPack(HANDSHAKE, vs);
    HandshakeBytes(raw, body, vs);
  }

  /** What the server answers: to the unit and the request asked, with a code. */
  lemma ResultSent(frame: Frame, code: int, raw: seq<Byte>)
    requires EncodeResult(frame, code) == Some(raw)
    ensures |raw| == 29 && Headed(raw, frame.unitId, 0, 0, frame.requestId, 0) && Four(raw, 25) == code
  {
    var body := PackAll([U32], [code]);
    assert SizeTo([U32], 1) == SizeTo([U32], 0) + 4;
    BuiltOnWire(frame.unitId, SERVICE_GENERIC, NPH_RESULT, frame.requestId, body, 0, raw);
    UnpackPack([U32], [code]);
    UnpackAt([U32], body, 0, 0, 4);
    assert UnpackAll([U32], body)[0] == code;
    assert Four(body, 0) == Four(raw, 25);
  }

  /** What a terminal reports: a navigation cell numbered 0, then the other cells. */
  lemma ReportSent(unitId: int, requestId: int, nav: NavCell, extra: seq<Cell>, raw: seq<Byte>)
    requires EncodeRealtime(unitId, requestId, nav, extra) == Some(raw)
    ensures EncodeNav(nav).Some? && EncodeCells(extra).Some?
    ensures |raw| >= 53 && Headed(raw, unitId, 1, 101, requestId, 1)
    ensures Val(raw[25]) == 0 && Val(raw[26]) == 0
    ensures raw[27..53] == EncodeNav(nav).value && raw[53..] == EncodeCells(extra).value
  {
    NavRoundTrip(nav);
    var first, rest := EncodeNav(nav).value, EncodeCells(extra).value;
    var body := [ToByte(NAV_TYPE), ToByte(0)] + first + rest;
    BuiltOnWire(unitId, SERVICE_NAVDATA, NPH_REALTIME, requestId, body, NPH_FLAG_REQUEST, raw);
    ReportBytes(raw, first, rest);
  }

  lemma ReportBytes(raw: seq<Byte>, first: seq<Byte>, rest: seq<Byte>)
    requires |raw| >= 25 && |first| == 26 && raw[25..] == [ToByte(0), ToByte(0)] + first + rest
    ensures |raw| >= 53 && Val(raw[25]) == 0 && Val(raw[26]) == 0 && raw[27..53] == first && raw[53..] == rest
  {
    var body := raw[25..];
    assert body[2..28] == first && body[28..] == rest;
    assert raw[27..53] == body[2..28] && raw[53..] == body[28..];
  }
}
