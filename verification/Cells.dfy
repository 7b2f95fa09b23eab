/** Telemetry cells (`G6Cell*`): the navigation cell and the table of all other layouts.

    A coordinate is its sign bit and its modulus in units of 1e-7 degree, so that the zero of
    the western or southern hemisphere (`-0.0`) stays distinct from plain zero. */
module Cells {
  import opened Options
  import opened Bytes

  // ---- navigation cell ----

  const NAV_TYPE := 0
  const NAV: seq<Code> := [U32, U32, U32, U8, U8, U16, U16, U16, U16, U16, U8, U8]

  datatype Coord = Coord(positive: bool, raw: int)

  datatype NavCell = NavCell(
    timestamp: int, lon: Coord, lat: Coord, valid: bool, speed: int, speedMax: int, course: int,
    track: int, altitude: int, nsat: int, pdop: int, battery: int, flags: int)

  function Flag(b: bool, weight: nat): nat {
    if b then weight else 0
  }

  function BitSet(v: int, weight: int): bool
    requires weight > 0
  {
    v / weight % 2 == 1
  }

  /** The `extraDop` byte: alarm bits from `flags`, hemispheres and validity from the cell. */
  function ExtraDop(nav: NavCell): (dop: int)
    ensures 0 <= dop < 256
  {
    nav.flags % 32 + Flag(nav.lat.positive, 32) + Flag(nav.lon.positive, 64) + Flag(nav.valid, 128)
  }

  function NavValues(nav: NavCell): (vs: seq<int>)
    ensures |vs| == |NAV|
  {
    [nav.timestamp, nav.lon.raw, nav.lat.raw, ExtraDop(nav), nav.battery, nav.speed, nav.speedMax,
     nav.course, nav.track, nav.altitude, nav.nsat, nav.pdop]
  }

  function NavFromValues(vs: seq<int>): NavCell
    requires |vs| == |NAV|
  {
    var dop := vs[3];
    NavCell(vs[0], Coord(BitSet(dop, 64), vs[1]), Coord(BitSet(dop, 32), vs[2]), BitSet(dop, 128),
            vs[5], vs[6], vs[7], vs[8], vs[9], vs[10], vs[11], vs[4], dop)
  }

  function EncodeNav(nav: NavCell): Option<seq<Byte>> {
    Pack(NAV, NavValues(nav))
  }

  lemma NavSize()
    ensures Size(NAV) == NAV_SIZE
  {
    assert SizeTo(NAV, 6) == 16;
    assert SizeTo(NAV, 12) == NAV_SIZE;
  }

  function DecodeNav(payload: seq<Byte>): NavCell
    requires |payload| == NAV_SIZE
  {
    NavSize();
    NavFromValues(UnpackAll(NAV, payload))
  }

  /** What survives the wire: everything but the high bits of `flags`, which are recomputed. */
  function NormalNav(nav: NavCell): NavCell {
    nav.(flags := ExtraDop(nav))
  }

  lemma DopBits(low: int, n: bool, e: bool, v: bool)
    requires 0 <= low < 32
    ensures var dop := low + Flag(n, 32) + Flag(e, 64) + Flag(v, 128);
      dop % 32 == low && BitSet(dop, 32) == n && BitSet(dop, 64) == e && BitSet(dop, 128) == v
  {
  }

  lemma DopFromBits(dop: int)
    requires 0 <= dop < 256
    ensures dop == dop % 32 + Flag(BitSet(dop, 32), 32) + Flag(BitSet(dop, 64), 64) + Flag(BitSet(dop, 128), 128)
  {
  }

  lemma NavFromNavValues(nav: NavCell)
    ensures NavFromValues(NavValues(nav)) == NormalNav(nav)
  {
    DopBits(nav.flags % 32, nav.lat.positive, nav.lon.positive, nav.valid);
  }

  lemma NavValuesFromNav(vs: seq<int>)
    requires |vs| == |NAV| && 0 <= vs[3] < 256
    ensures NavValues(NavFromValues(vs)) == vs
  {
    DopFromBits(vs[3]);
  }

  lemma NavRoundTrip(nav: NavCell)
    requires EncodeNav(nav).Some?
    ensures |EncodeNav(nav).value| == NAV_SIZE
    ensures DecodeNav(EncodeNav(nav).value) == NormalNav(nav)
  {
    NavSize();
    var vs := NavValues(nav);
    UnpackPack(NAV, vs);
    NavFromNavValues(nav);
  }

  lemma NavBytesRoundTrip(payload: seq<Byte>)
    requires |payload| == NAV_SIZE
    ensures EncodeNav(DecodeNav(payload)) == Some(payload)
  {
    NavSize();
    var vs := UnpackAll(NAV, payload);
    assert Fits(NAV[3], vs[3]);
    NavValuesFromNav(vs);
    PackUnpack(NAV, payload);
  }

  // ---- all other cells ----

  /** A field is named by its column in the layout (names are distinct within a layout), a
      one-bit flag by its position in the flag byte. */
  datatype Field = Column(i: nat) | FlagBit(i: nat)

  /** A nonzero `flags` counts the one-bit flags packed into the last byte of the structure;
      outside, that byte is visible only as its flags. */
  datatype Layout = Layout(codes: seq<Code>, flags: nat) {
    function Names(): (ns: seq<Field>)
      ensures |ns| == |codes|
    {
      seq(|codes|, i requires 0 <= i < |codes| => Column(i))
    }

    function Bits(): (ns: seq<Field>)
      ensures |ns| == flags
    {
      seq(flags, i requires 0 <= i < flags => FlagBit(i))
    }
  }

  function LayoutOf(typ: int): Option<Layout> {
    match typ
    case 2 => Some(Layout([U16, U16, U16, U16, U8, U8, U16, U16, U16, U16, U32, U8, U8, U8, I8], 0))
    case 3 => Some(Layout([U32, U16, U8, U8, U8, U8, U8, U8, U8, U8], 0))
    case 4 => Some(Layout([U32, U16, U8, U8, U8, U8, U8, U8, U8, U8, U8], 8))
    case 8 => Some(Layout([U8, U16, U16, U8], 0))
    case 10 => Some(Layout([U32, U32, U32, U32, U16, U16, I16, U8, U16, U16, U16, U16, U16, U32], 0))
    case 15 => Some(Layout([U16, U32, U32, U32, U32, U32, U32, U32, U32, U32, U32, U32, U32], 0))
    case 16 => Some(Layout([U32, I32], 0))
    case _ => None
  }

  const NAV_SIZE := 26

  /** Payload length without the `[type][number]` header, per known type. */
  function PayloadSize(typ: int): Option<nat> {
    match typ
    case 0 => Some(NAV_SIZE)
    case 2 => Some(26)
    case 3 => Some(14)
    case 4 => Some(15)
    case 8 => Some(6)
    case 10 => Some(37)
    case 15 => Some(50)
    case 16 => Some(8)
    case _ => None
  }

  /** The lengths are those of the layouts. */
  lemma PayloadSizes(typ: int)
    requires LayoutOf(typ).Some?
    ensures PayloadSize(typ) == Some(Size(LayoutOf(typ).value.codes))
  {
    match typ
    case 2 => SensorSize(LayoutOf(2).value.codes);
    case 3 =>
      assert SizeTo(LayoutOf(3).value.codes, 5) == 9;
      assert SizeTo(LayoutOf(3).value.codes, 10) == 14;
    case 4 =>
      assert SizeTo(LayoutOf(4).value.codes, 6) == 10;
      assert SizeTo(LayoutOf(4).value.codes, 11) == 15;
    case 8 => assert SizeTo(LayoutOf(8).value.codes, 4) == 6;
    case 10 => CanSize(LayoutOf(10).value.codes);
    case 15 => TankSize(LayoutOf(15).value.codes);
    case 16 => assert SizeTo(LayoutOf(16).value.codes, 2) == 8;
  }

  lemma SensorSize(codes: seq<Code>)
    requires LayoutOf(2) == Some(Layout(codes, 0))
    ensures Size(codes) == 26
  {
    assert SizeTo(codes, 4) == 8;
    assert SizeTo(codes, 8) == 14;
    assert SizeTo(codes, 12) == 23;
    assert SizeTo(codes, 15) == 26;
  }

  lemma CanSize(codes: seq<Code>)
    requires LayoutOf(10) == Some(Layout(codes, 0))
    ensures Size(codes) == 37
  {
    assert SizeTo(codes, 4) == 16;
    assert SizeTo(codes, 8) == 23;
    assert SizeTo(codes, 12) == 31;
    assert SizeTo(codes, 14) == 37;
  }

  lemma TankSize(codes: seq<Code>)
    requires LayoutOf(15) == Some(Layout(codes, 0))
    ensures Size(codes) == 50
  {
    assert SizeTo(codes, 4) == 14;
    assert SizeTo(codes, 8) == 30;
    assert SizeTo(codes, 12) == 46;
    assert SizeTo(codes, 13) == 50;
  }

  datatype Cell = Cell(typ: int, number: int, fields: map<Field, int>)

  ghost predicate Distinct(names: seq<Field>) {
    forall i, j :: 0 <= i < j < |names| ==> names[i] != names[j]
  }

  /** What the codec relies on in every layout of the table. */
  predicate WellFormed(lay: Layout) {
    |lay.codes| > 0 && (lay.flags > 0 ==> lay.flags == 8 && lay.codes[|lay.codes| - 1] == U8)
  }

  lemma LayoutsWellFormed(typ: int)
    requires LayoutOf(typ).Some?
    ensures WellFormed(LayoutOf(typ).value)
    ensures 0 < typ < 256
  {
  }

  /** `dict(zip(names, values))`. */
  function Zip(names: seq<Field>, vs: seq<int>): map<Field, int>
    requires |names| == |vs|
  {
    if names == [] then map[]
    else
      var n := |names| - 1;
      Zip(names[..n], vs[..n])[names[n] := vs[n]]
  }

  function Get(fields: map<Field, int>, name: Field): int {
    if name in fields then fields[name] else 0
  }

  function Values(names: seq<Field>, fields: map<Field, int>): (vs: seq<int>)
    ensures |vs| == |names|
  {
    seq(|names|, i requires 0 <= i < |names| => Get(fields, names[i]))
  }

  lemma {:induction false} ZipKeys(names: seq<Field>, vs: seq<int>)
    requires |names| == |vs|
    ensures forall f :: f in Zip(names, vs) <==> f in names
  {
    if names != [] {
      var n := |names| - 1;
      ZipKeys(names[..n], vs[..n]);
      assert names == names[..n] + [names[n]];
    }
  }

  lemma {:induction false} ZipAt(names: seq<Field>, vs: seq<int>, i: nat)
    requires |names| == |vs| && Distinct(names) && i < |names|
    ensures names[i] in Zip(names, vs) && Zip(names, vs)[names[i]] == vs[i]
  {
    var n := |names| - 1;
    if i < n {
      ZipAt(names[..n], vs[..n], i);
    }
  }

  // ---- the flag byte ----

  /** Bit `i` of `v`, for `i` from 0 to `n - 1`. */
  function Digits(v: nat, n: nat): (ds: seq<int>)
    ensures |ds| == n && forall i :: 0 <= i < n ==> 0 <= ds[i] <= 1
    decreases n
  {
    if n == 0 then [] else [v % 2] + Digits(v / 2, n - 1)
  }

  /** The sum of `1 << i` over the nonzero entries. */
  function Packed(ds: seq<int>): (v: nat)
    ensures v < Pow2(|ds|)
  {
    if ds == [] then 0 else Flag(ds[0] != 0, 1) + 2 * Packed(ds[1..])
  }

  function Pow2(n: nat): nat {
    if n == 0 then 1 else 2 * Pow2(n - 1)
  }

  function Truth(ds: seq<int>): (ts: seq<int>)
    ensures |ts| == |ds|
  {
    seq(|ds|, i requires 0 <= i < |ds| => Flag(ds[i] != 0, 1))
  }

  lemma HalvesBack(low: nat, high: nat)
    requires low < 2
    ensures (low + 2 * high) % 2 == low && (low + 2 * high) / 2 == high
  {
  }

  lemma {:induction false} DigitsOfPacked(ds: seq<int>)
    ensures Digits(Packed(ds), |ds|) == Truth(ds)
  {
    if ds != [] {
      DigitsOfPacked(ds[1..]);
      var low, high := Flag(ds[0] != 0, 1), Packed(ds[1..]);
      HalvesBack(low, high);
      assert Digits(Packed(ds), |ds|) == [low] + Digits(high, |ds| - 1);
      assert Truth(ds) == [low] + Truth(ds[1..]);
    }
  }

  lemma {:induction false} PackedOfDigits(v: nat, n: nat)
    requires v < Pow2(n)
    ensures Packed(Digits(v, n)) == v
    decreases n
  {
    if n > 0 {
      PackedOfDigits(v / 2, n - 1);
      assert Digits(v, n)[1..] == Digits(v / 2, n - 1);
    }
  }

  // ---- cells as bytes ----

  function CellValues(lay: Layout, fields: map<Field, int>): (vs: seq<int>)
    requires WellFormed(lay)
    ensures |vs| == |lay.codes|
  {
    var vs := Values(lay.Names(), fields);
    if lay.flags == 0 then vs else vs[|vs| - 1 := Packed(Values(lay.Bits(), fields))]
  }

  function FieldsOf(lay: Layout, vs: seq<int>): map<Field, int>
    requires WellFormed(lay) && |vs| == |lay.codes|
    requires lay.flags > 0 ==> vs[|vs| - 1] >= 0
  {
    var last := |vs| - 1;
    if lay.flags == 0 then Zip(lay.Names(), vs)
    else (Zip(lay.Names(), vs) - {lay.Names()[last]}) + Zip(lay.Bits(), Digits(vs[last], lay.flags))
  }

  /** `None` stands for the exceptions of the source: unknown type, number or value out of range. */
  function EncodeCell(c: Cell): Option<seq<Byte>> {
    if LayoutOf(c.typ).None? || !(0 <= c.number < 256) then None
    else
      LayoutsWellFormed(c.typ);
      var lay := LayoutOf(c.typ).value;
      match Pack(lay.codes, CellValues(lay, c.fields))
      case None => None
      case Some(payload) => Some([ToByte(c.typ), ToByte(c.number)] + payload)
  }

  function DecodeCell(typ: int, number: int, payload: seq<Byte>): Cell
    requires LayoutOf(typ).Some? && PayloadSize(typ) == Some(|payload|)
  {
    LayoutsWellFormed(typ);
    PayloadSizes(typ);
    var lay := LayoutOf(typ).value;
    var vs := UnpackAll(lay.codes, payload);
    assert lay.flags > 0 ==> Fits(lay.codes[|vs| - 1], vs[|vs| - 1]);
    Cell(typ, number, FieldsOf(lay, vs))
  }

  /** The fields of a cell as a receiver sees them. */
  function Visible(lay: Layout): seq<Field>
    requires WellFormed(lay)
  {
    if lay.flags == 0 then lay.Names() else lay.Names()[..|lay.codes| - 1] + lay.Bits()
  }

  /** What survives the wire: missing fields become zero, unknown ones vanish, flags become 0 or 1. */
  function NormalFields(lay: Layout, fields: map<Field, int>): map<Field, int>
    requires WellFormed(lay)
  {
    map f | f in Visible(lay) :: if f.FlagBit? then Flag(Get(fields, f) != 0, 1) else Get(fields, f)
  }

  function NormalCell(c: Cell): Cell
    requires LayoutOf(c.typ).Some?
  {
    LayoutsWellFormed(c.typ);
    c.(fields := NormalFields(LayoutOf(c.typ).value, c.fields))
  }

  lemma FieldAt(lay: Layout, vs: seq<int>, f: Field)
    requires WellFormed(lay) && |vs| == |lay.codes| && (lay.flags > 0 ==> vs[|vs| - 1] >= 0)
    ensures f in FieldsOf(lay, vs) <==> f in Visible(lay)
    ensures f in Visible(lay) ==>
      FieldsOf(lay, vs)[f] == (if f.FlagBit? then Digits(vs[|vs| - 1], lay.flags)[f.i] else vs[f.i])
  {
    ZipKeys(lay.Names(), vs);
    if f.Column? && f.i < |vs| {
      assert lay.Names()[f.i] == f;
      ZipAt(lay.Names(), vs, f.i);
    }
    if lay.flags > 0 {
      var digits := Digits(vs[|vs| - 1], lay.flags);
      ZipKeys(lay.Bits(), digits);
      if f.FlagBit? && f.i < lay.flags {
        assert lay.Bits()[f.i] == f;
        ZipAt(lay.Bits(), digits, f.i);
      }
    }
  }

  lemma FieldsOfCellValues(lay: Layout, fields: map<Field, int>)
    requires WellFormed(lay)
    ensures FieldsOf(lay, CellValues(lay, fields)) == NormalFields(lay, fields)
  {
    var vs := CellValues(lay, fields);
    DigitsOfPacked(Values(lay.Bits(), fields));
    forall f
      ensures f in FieldsOf(lay, vs) <==> f in NormalFields(lay, fields)
      ensures f in NormalFields(lay, fields) ==> FieldsOf(lay, vs)[f] == NormalFields(lay, fields)[f]
    {
      FieldAt(lay, vs, f);
    }
  }

  lemma CellValuesOfFields(lay: Layout, vs: seq<int>)
    requires WellFormed(lay) && |vs| == |lay.codes|
    requires lay.flags > 0 ==> 0 <= vs[|vs| - 1] < 256
    ensures CellValues(lay, FieldsOf(lay, vs)) == vs
  {
    var fields := FieldsOf(lay, vs);
    forall i | 0 <= i < |vs|
      ensures CellValues(lay, fields)[i] == vs[i]
    {
      FieldAt(lay, vs, Column(i));
      if lay.flags > 0 && i == |vs| - 1 {
        FlagByteOfFields(lay, vs);
      } else {
        assert Visible(lay)[i] == Column(i);
      }
    }
  }

  lemma FlagByteOfFields(lay: Layout, vs: seq<int>)
    requires WellFormed(lay) && |vs| == |lay.codes| && lay.flags > 0 && 0 <= vs[|vs| - 1] < 256
    ensures Packed(Values(lay.Bits(), FieldsOf(lay, vs))) == vs[|vs| - 1]
  {
    var packed := vs[|vs| - 1];
    var digits := Digits(packed, 8);
    forall i | 0 <= i < 8
      ensures Values(lay.Bits(), FieldsOf(lay, vs))[i] == digits[i]
    {
      FieldAt(lay, vs, FlagBit(i));
      assert Visible(lay)[|vs| - 1 + i] == FlagBit(i);
    }
    assert Values(lay.Bits(), FieldsOf(lay, vs)) == digits;
    assert Pow2(8) == 256;
    PackedOfDigits(packed, 8);
  }

  /** Decoding an encoded cell gives the cell back, up to what `NormalFields` says. */
  lemma CellRoundTrip(c: Cell)
    requires EncodeCell(c).Some?
    ensures PayloadSize(c.typ).Some? && |EncodeCell(c).value| == 2 + PayloadSize(c.typ).value
    ensures Val(EncodeCell(c).value[0]) == c.typ && Val(EncodeCell(c).value[1]) == c.number
    ensures DecodeCell(c.typ, c.number, EncodeCell(c).value[2..]) == NormalCell(c)
  {
    LayoutsWellFormed(c.typ);
    PayloadSizes(c.typ);
    var lay := LayoutOf(c.typ).value;
    var vs := CellValues(lay, c.fields);
    var payload := PackAll(lay.codes, vs);
    assert EncodeCell(c).value[2..] == payload;
    UnpackPack(lay.codes, vs);
    FieldsOfCellValues(lay, c.fields);
  }

  /** Encoding a decoded cell gives its bytes back, the flag byte included. */
  lemma CellBytesRoundTrip(typ: int, number: int, payload: seq<Byte>)
    requires LayoutOf(typ).Some? && 0 <= number < 256
    requires PayloadSize(typ) == Some(|payload|)
    ensures typ < 256 && EncodeCell(DecodeCell(typ, number, payload)) == Some([ToByte(typ), ToByte(number)] + payload)
  {
    LayoutsWellFormed(typ);
    PayloadSizes(typ);
    var lay := LayoutOf(typ).value;
    var vs := UnpackAll(lay.codes, payload);
    assert Fits(lay.codes[|vs| - 1], vs[|vs| - 1]);
    CellValuesOfFields(lay, vs);
    PackUnpack(lay.codes, payload);
  }
}
