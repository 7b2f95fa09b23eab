/** Encoding followed by decoding, and decoding followed by encoding. */
module RoundTrip {
  import opened Options
  import opened Bytes
  import opened Cells
  import opened Codec

  lemma HeadersReadBack(nplVs: seq<int>, nphVs: seq<int>, body: seq<Byte>)
    requires Packable(NPL, nplVs) && Packable(NPH, nphVs)
    ensures var raw := PackAll(NPL, nplVs) + (PackAll(NPH, nphVs) + body);
      && |raw| == HEADER_LEN + |body| && raw[NPL_LEN..] == PackAll(NPH, nphVs) + body
      && raw[HEADER_LEN..] == body && NplOf(raw) == nplVs && NphOf(raw) == nphVs
  {
    Sizes();
    var npl, head := PackAll(NPL, nplVs), PackAll(NPH, nphVs);
    var raw := npl + (head + body);
    assert raw[..NPL_LEN] == npl;
    assert raw[NPL_LEN..HEADER_LEN] == head;
    UnpackPack(NPL, nplVs);
    UnpackPack(NPH, nphVs);
  }

  lemma ExactParts(raw: seq<Byte>)
    requires |raw| >= HEADER_LEN && DataSize(raw) == |raw| - NPL_LEN
    ensures Covered(raw) == raw[NPL_LEN..] && BodyOf(raw) == raw[HEADER_LEN..]
  {
  }

  /** The headers of a built frame read back as written, and its checksum holds. */
  lemma BuiltFrame(unitId: int, serviceId: int, nphType: int, requestId: int, body: seq<Byte>, flags: int)
    requires BuildFrame(unitId, serviceId, nphType, requestId, body, flags).Some?
    ensures var raw := BuildFrame(unitId, serviceId, nphType, requestId, body, flags).value;
      && |raw| == HEADER_LEN + |body| && 0 <= unitId
      && NplOf(raw) == NplValues(NPH_LEN + |body|, Checksum(raw[NPL_LEN..]), unitId)
      && NphOf(raw) == NphValues(serviceId, nphType, flags, requestId)
      && BodyOf(raw) == body && CrcOk(raw)
      && raw[NPL_LEN..] == PackAll(NPH, NphOf(raw)) + body
  {
    Sizes();
    var nphVs := NphValues(serviceId, nphType, flags, requestId);
    var nph := PackAll(NPH, nphVs) + body;
    var nplVs := NplValues(|nph|, Checksum(nph), unitId);
    HeadersReadBack(nplVs, nphVs, body);
    assert Fits(NPL[5], nplVs[5]);
    ExactParts(PackAll(NPL, nplVs) + nph);
  }

  lemma ScanOne<S>(take: Taker<S>, typ: int, number: int, payload: seq<Byte>, tail: seq<Byte>, found: S)
    requires 0 <= typ < 256 && 0 <= number < 256 && PayloadSize(typ) == Some(|payload|)
    ensures ScanCells(take, [ToByte(typ), ToByte(number)] + payload + tail, found)
         == ScanCells(take, tail, take(found, typ, number, payload))
  {
    var rest := [ToByte(typ), ToByte(number)] + payload + tail;
    assert rest[2..2 + |payload|] == payload;
    assert rest[2 + |payload|..] == tail;
  }

  /** A complete cell as it travels. */
  datatype Packet = Packet(typ: int, number: int, payload: seq<Byte>) {
    predicate Valid() {
      0 <= typ < 256 && 0 <= number < 256 && PayloadSize(typ) == Some(|payload|)
    }

    function Wire(): seq<Byte>
      requires Valid()
    {
      [ToByte(typ), ToByte(number)] + payload
    }
  }

  predicate Valid(ps: seq<Packet>) {
    forall i :: 0 <= i < |ps| ==> ps[i].Valid()
  }

  /** Packets of the layout table, hence not navigation. */
  predicate Known(ps: seq<Packet>) {
    forall i :: 0 <= i < |ps| ==> ps[i].Valid() && LayoutOf(ps[i].typ).Some?
  }

  function Wires(ps: seq<Packet>): seq<Byte>
    requires Valid(ps)
  {
    if ps == [] then [] else ps[0].Wire() + Wires(ps[1..])
  }

  function TakeAll<S>(take: Taker<S>, ps: seq<Packet>, found: S): S
    decreases |ps|
  {
    if ps == [] then found else TakeAll(take, ps[1..], take(found, ps[0].typ, ps[0].number, ps[0].payload))
  }

  lemma {:induction false} ScanPackets<S>(take: Taker<S>, ps: seq<Packet>, found: S)
    requires Valid(ps)
    ensures ScanCells(take, Wires(ps), found) == Scan(TakeAll(take, ps, found), false)
    decreases |ps|
  {
    if ps != [] {
      var p := ps[0];
      ScanOne(take, p.typ, p.number, p.payload, Wires(ps[1..]), found);
      ScanPackets(take, ps[1..], take(found, p.typ, p.number, p.payload));
    }
  }

  function CellPacket(c: Cell): Packet
    requires EncodeCell(c).Some?
  {
    Packet(c.typ, c.number, EncodeCell(c).value[2..])
  }

  function CellPackets(cells: seq<Cell>): seq<Packet>
    requires EncodeCells(cells).Some?
  {
    if cells == [] then [] else [CellPacket(cells[0])] + CellPackets(cells[1..])
  }

  function NormalCells(cells: seq<Cell>): seq<Cell>
    requires EncodeCells(cells).Some?
  {
    if cells == [] then [] else [NormalCell(cells[0])] + NormalCells(cells[1..])
  }

  lemma CellWire(c: Cell)
    requires EncodeCell(c).Some?
    ensures CellPacket(c).Valid() && CellPacket(c).Wire() == EncodeCell(c).value
  {
    CellRoundTrip(c);
    var bytes := EncodeCell(c).value;
    assert bytes == bytes[..2] + bytes[2..];
  }

  lemma {:induction false} CellWires(cells: seq<Cell>)
    requires EncodeCells(cells).Some?
    ensures Known(CellPackets(cells))
    ensures Wires(CellPackets(cells)) == EncodeCells(cells).value
  {
    if cells != [] {
      CellWire(cells[0]);
      CellWires(cells[1..]);
      assert CellPackets(cells)[1..] == CellPackets(cells[1..]);
    }
  }

  function Item(p: Packet): Cell
    requires p.Valid() && LayoutOf(p.typ).Some?
  {
    DecodeCell(p.typ, p.number, p.payload)
  }

  function Items(ps: seq<Packet>): seq<Cell>
    requires Known(ps)
  {
    if ps == [] then [] else [Item(ps[0])] + Items(ps[1..])
  }

  function Append(f: Found, c: Cell): Found {
    f.(cells := f.cells + [c])
  }

  /** Taking packet `i` appends cell `i`, whatever was found before. */
  ghost predicate Appends(take: Taker<Found>, ps: seq<Packet>, cells: seq<Cell>) {
    && |ps| == |cells|
    && forall i, f: Found :: 0 <= i < |ps| ==>
         take(f, ps[i].typ, ps[i].number, ps[i].payload) == Append(f, cells[i])
  }

  lemma {:induction false} TakeAllAppends(take: Taker<Found>, ps: seq<Packet>, cells: seq<Cell>, found: Found)
    requires Appends(take, ps, cells)
    ensures TakeAll(take, ps, found) == found.(cells := found.cells + cells)
    decreases |ps|
  {
    if ps == [] {
      assert found.cells + [] == found.cells;
    } else {
      var next := Append(found, cells[0]);
      assert take(found, ps[0].typ, ps[0].number, ps[0].payload) == next;
      TakeAllAppends(take, ps[1..], cells[1..], next);
      assert next.cells + cells[1..] == found.cells + cells;
    }
  }

  lemma TakeItem(p: Packet, f: Found)
    requires p.Valid() && LayoutOf(p.typ).Some?
    ensures Take(f, p.typ, p.number, p.payload) == Append(f, Item(p))
  {
    LayoutsWellFormed(p.typ);
  }

  lemma {:induction false} ItemAt(ps: seq<Packet>, i: nat)
    requires Known(ps) && i < |ps|
    ensures |Items(ps)| == |ps| && Items(ps)[i] == Item(ps[i])
  {
    if |ps| > 1 {
      ItemAt(ps[1..], if i == 0 then 0 else i - 1);
    }
  }

  lemma TakeItems(ps: seq<Packet>, found: Found)
    requires Known(ps)
    ensures TakeAll(Take, ps, found) == found.(cells := found.cells + Items(ps))
  {
    if ps != [] {
      ItemAt(ps, 0);
    }
    forall i, f: Found | 0 <= i < |ps|
      ensures Take(f, ps[i].typ, ps[i].number, ps[i].payload) == Append(f, Items(ps)[i])
    {
      ItemAt(ps, i);
      TakeItem(ps[i], f);
    }
    TakeAllAppends(Take, ps, Items(ps), found);
  }

  lemma CellItem(c: Cell)
    requires EncodeCell(c).Some?
    ensures CellPacket(c).Valid() && Item(CellPacket(c)) == NormalCell(c)
  {
    CellWire(c);
    CellRoundTrip(c);
  }

  lemma {:induction false} CellItems(cells: seq<Cell>)
    requires EncodeCells(cells).Some?
    ensures Known(CellPackets(cells)) && Items(CellPackets(cells)) == NormalCells(cells)
  {
    CellWires(cells);
    if cells != [] {
      CellItem(cells[0]);
      CellItems(cells[1..]);
      assert CellPackets(cells)[1..] == CellPackets(cells[1..]);
    }
  }

  /** A leading navigation cell is found, and the scan goes on behind it. */
  lemma ScanNavFirst(payload: seq<Byte>, tail: seq<Byte>)
    requires |payload| == NAV_SIZE
    ensures ScanCells(Take, [ToByte(NAV_TYPE), ToByte(0)] + payload + tail, NOTHING)
         == ScanCells(Take, tail, Found(Some(DecodeNav(payload)), []))
  {
    ScanOne(Take, NAV_TYPE, 0, payload, tail, NOTHING);
    assert Take(NOTHING, NAV_TYPE, 0, payload) == Found(Some(DecodeNav(payload)), []);
  }

  /** Cells behind a navigation cell are all found, to the last byte. */
  lemma ScanKnown(nav: NavCell, ps: seq<Packet>)
    requires Known(ps)
    ensures ScanCells(Take, Wires(ps), Found(Some(nav), [])) == Scan(Found(Some(nav), Items(ps)), false)
  {
    var start := Found(Some(nav), []);
    ScanPackets(Take, ps, start);
    TakeItems(ps, start);
    assert [] + Items(ps) == Items(ps);
  }

  lemma ScanRealtimeBody(nav: NavCell, extra: seq<Cell>)
    requires EncodeNav(nav).Some? && EncodeCells(extra).Some?
    ensures ScanCells(Take, [ToByte(NAV_TYPE), ToByte(0)] + EncodeNav(nav).value + EncodeCells(extra).value, NOTHING)
         == Scan(Found(Some(NormalNav(nav)), NormalCells(extra)), false)
  {
    NavRoundTrip(nav);
    ScanNavFirst(EncodeNav(nav).value, EncodeCells(extra).value);
    CellItems(extra);
    CellWires(extra);
    ScanKnown(NormalNav(nav), CellPackets(extra));
  }

  function RealtimeFrame(unitId: int, requestId: int, nav: NavCell, extra: seq<Cell>, raw: seq<Byte>): Frame
    requires EncodeCells(extra).Some?
  {
    Frame(unitId, SERVICE_NAVDATA, NPH_REALTIME, requestId % REQUEST_IDS, true,
          Some(NormalNav(nav)), NormalCells(extra), None, raw)
  }

  /** Whatever telemetry can be encoded at all comes back from `DecodeFrame`, checksum intact. */
  lemma RealtimeRoundTrip(unitId: int, requestId: int, nav: NavCell, extra: seq<Cell>)
    requires EncodeRealtime(unitId, requestId, nav, extra).Some?
    ensures var raw := EncodeRealtime(unitId, requestId, nav, extra).value;
      EncodeCells(extra).Some? && DecodeFrame(raw) == Ok(RealtimeFrame(unitId, requestId, nav, extra, raw))
  {
    var body := [ToByte(NAV_TYPE), ToByte(0)] + EncodeNav(nav).value + EncodeCells(extra).value;
    BuiltFrame(unitId, SERVICE_NAVDATA, NPH_REALTIME, requestId, body, NPH_FLAG_REQUEST);
    ScanRealtimeBody(nav, extra);
  }

  lemma HandshakeRoundTrip(unitId: int, requestId: int)
    requires EncodeHandshake(unitId, requestId).Some?
    ensures var raw := EncodeHandshake(unitId, requestId).value;
      DecodeFrame(raw) == Ok(Frame(unitId, SERVICE_GENERIC, NPH_CONN_REQUEST, requestId % REQUEST_IDS, true,
                                   None, [], Some(Handshake(6, 2, 0, unitId, MAX_PACKET_SIZE)), raw))
  {
    Sizes();
    var vs := [6, 2, 0, unitId, MAX_PACKET_SIZE, 0];
    BuiltFrame(unitId, SERVICE_GENERIC, NPH_CONN_REQUEST, requestId, PackAll(HANDSHAKE, vs), NPH_FLAG_REQUEST);
    UnpackPack(HANDSHAKE, vs);
  }

  /** The server's answer goes to the unit that asked, with the number of its request and the code. */
  lemma ResultRoundTrip(frame: Frame, code: int, body: seq<Byte>)
    requires Pack([U32], [code]) == Some(body) && EncodeResult(frame, code).Some?
    ensures var raw := EncodeResult(frame, code).value;
      && DecodeFrame(raw) == Ok(Frame(frame.unitId, SERVICE_GENERIC, NPH_RESULT, frame.requestId % REQUEST_IDS, true,
                                      None, [], None, raw))
      && |raw| >= HEADER_LEN && BodyOf(raw) == body
  {
    BuiltFrame(frame.unitId, SERVICE_GENERIC, NPH_RESULT, frame.requestId, body, 0);
  }

  // ---- from bytes and back to the same bytes ----

  predicate StartsWithCell(rest: seq<Byte>) {
    && |rest| >= 2 && LayoutOf(Val(rest[0])).Some? && PayloadSize(Val(rest[0])).Some?
    && |rest| >= 2 + PayloadSize(Val(rest[0])).value
  }

  function FirstPacket(rest: seq<Byte>): Packet
    requires StartsWithCell(rest)
  {
    Packet(Val(rest[0]), Val(rest[1]), rest[2..2 + PayloadSize(Val(rest[0])).value])
  }

  function AfterFirst(rest: seq<Byte>): (tail: seq<Byte>)
    requires StartsWithCell(rest)
    ensures |tail| < |rest|
  {
    rest[2 + PayloadSize(Val(rest[0])).value..]
  }

  /** Known cells, none of them navigation, up to the very last byte. */
  predicate CanonicalCells(rest: seq<Byte>)
    decreases |rest|
  {
    rest == [] || (StartsWithCell(rest) && CanonicalCells(AfterFirst(rest)))
  }

  predicate CanonicalBody(body: seq<Byte>) {
    |body| >= 2 + NAV_SIZE && Val(body[0]) == NAV_TYPE && Val(body[1]) == 0 && CanonicalCells(body[2 + NAV_SIZE..])
  }

  /** Header fields as the encoder writes them, exact length, intact checksum. */
  predicate CanonicalHeader(raw: seq<Byte>) {
    && |raw| >= HEADER_LEN
    && NplOf(raw)[0] == SIGNATURE && NplOf(raw)[1] == |raw| - NPL_LEN && NplOf(raw)[2] == 0
    && NplOf(raw)[4] == NPL_TYPE_NPH && NplOf(raw)[6] == 0
    && NphOf(raw)[0] == SERVICE_NAVDATA && NphOf(raw)[1] == NPH_REALTIME && NphOf(raw)[2] == NPH_FLAG_REQUEST
    && CrcOk(raw)
  }

  /** What can be read off the bytes of a realtime frame the encoder could have written. */
  predicate Canonical(raw: seq<Byte>) {
    CanonicalHeader(raw) && CanonicalBody(raw[HEADER_LEN..])
  }

  function PacketsOf(rest: seq<Byte>): seq<Packet>
    requires CanonicalCells(rest)
    decreases |rest|
  {
    if rest == [] then [] else [FirstPacket(rest)] + PacketsOf(AfterFirst(rest))
  }

  lemma FirstWire(rest: seq<Byte>)
    requires StartsWithCell(rest)
    ensures FirstPacket(rest).Valid() && FirstPacket(rest).Wire() + AfterFirst(rest) == rest
    ensures LayoutOf(FirstPacket(rest).typ).Some?
  {
    ByteOfVal(rest[0]);
    ByteOfVal(rest[1]);
  }

  lemma {:induction false} PacketsOfWires(rest: seq<Byte>)
    requires CanonicalCells(rest)
    ensures Known(PacketsOf(rest)) && Wires(PacketsOf(rest)) == rest
    decreases |rest|
  {
    if rest != [] {
      FirstWire(rest);
      PacketsOfWires(AfterFirst(rest));
      WiresCons(FirstPacket(rest), PacketsOf(AfterFirst(rest)));
    }
  }

  lemma WiresCons(p: Packet, ps: seq<Packet>)
    requires p.Valid() && LayoutOf(p.typ).Some? && Known(ps)
    ensures Known([p] + ps) && Wires([p] + ps) == p.Wire() + Wires(ps)
  {
    assert ([p] + ps)[1..] == ps;
  }

  lemma {:induction false} WiresCanonical(ps: seq<Packet>)
    requires Known(ps)
    ensures CanonicalCells(Wires(ps))
  {
    if ps != [] {
      var rest := Wires(ps);
      WiresCanonical(ps[1..]);
      assert rest[0] == ToByte(ps[0].typ);
      assert AfterFirst(rest) == Wires(ps[1..]);
    }
  }

  lemma {:induction false} ReencodePackets(ps: seq<Packet>)
    requires Known(ps)
    ensures EncodeCells(Items(ps)) == Some(Wires(ps))
  {
    if ps != [] {
      CellBytesRoundTrip(ps[0].typ, ps[0].number, ps[0].payload);
      ReencodePackets(ps[1..]);
      assert Items(ps)[1..] == Items(ps[1..]);
    }
  }

  lemma CanonicalBodyParts(first: seq<Byte>, rest: seq<Byte>)
    requires |first| == NAV_SIZE && CanonicalCells(rest)
    ensures CanonicalBody([ToByte(NAV_TYPE), ToByte(0)] + first + rest)
  {
    assert ([ToByte(NAV_TYPE), ToByte(0)] + first + rest)[2 + NAV_SIZE..] == rest;
  }

  lemma BuiltIsCanonical(unitId: int, requestId: int, body: seq<Byte>)
    requires BuildFrame(unitId, SERVICE_NAVDATA, NPH_REALTIME, requestId, body, NPH_FLAG_REQUEST).Some?
    requires CanonicalBody(body)
    ensures Canonical(BuildFrame(unitId, SERVICE_NAVDATA, NPH_REALTIME, requestId, body, NPH_FLAG_REQUEST).value)
  {
    BuiltFrame(unitId, SERVICE_NAVDATA, NPH_REALTIME, requestId, body, NPH_FLAG_REQUEST);
    var raw := BuildFrame(unitId, SERVICE_NAVDATA, NPH_REALTIME, requestId, body, NPH_FLAG_REQUEST).value;
    assert raw[HEADER_LEN..] == raw[NPL_LEN..][NPH_LEN..] == body;
  }

  lemma EncodedIsCanonical(unitId: int, requestId: int, nav: NavCell, extra: seq<Cell>)
    requires EncodeRealtime(unitId, requestId, nav, extra).Some?
    ensures Canonical(EncodeRealtime(unitId, requestId, nav, extra).value)
  {
    var first, rest := EncodeNav(nav).value, EncodeCells(extra).value;
    NavRoundTrip(nav);
    CellWires(extra);
    WiresCanonical(CellPackets(extra));
    CanonicalBodyParts(first, rest);
    BuiltIsCanonical(unitId, requestId, [ToByte(NAV_TYPE), ToByte(0)] + first + rest);
  }

  /** A canonical body scans completely, and what it yields encodes to the body again. */
  lemma CanonicalBodyReencodes(body: seq<Byte>)
    requires CanonicalBody(body)
    ensures var scan := ScanCells(Take, body, NOTHING);
      && !scan.truncated && scan.found.nav.Some?
      && EncodeNav(scan.found.nav.value).Some? && EncodeCells(scan.found.cells).Some?
      && body == [ToByte(NAV_TYPE), ToByte(0)] + EncodeNav(scan.found.nav.value).value
                 + EncodeCells(scan.found.cells).value
  {
    var payload, rest := body[2..2 + NAV_SIZE], body[2 + NAV_SIZE..];
    ByteOfVal(body[0]);
    ByteOfVal(body[1]);
    assert body == [ToByte(NAV_TYPE), ToByte(0)] + payload + rest;
    ScanNavFirst(payload, rest);
    PacketsOfWires(rest);
    ScanKnown(DecodeNav(payload), PacketsOf(rest));
    ReencodePackets(PacketsOf(rest));
    NavBytesRoundTrip(payload);
  }

  lemma HeadersBack(raw: seq<Byte>)
    requires |raw| >= HEADER_LEN
    ensures PackAll(NPL, NplOf(raw)) + (PackAll(NPH, NphOf(raw)) + raw[HEADER_LEN..]) == raw
    ensures PackAll(NPH, NphOf(raw)) + raw[HEADER_LEN..] == raw[NPL_LEN..]
  {
    Sizes();
    PackUnpack(NPL, raw[..NPL_LEN]);
    PackUnpack(NPH, raw[NPL_LEN..HEADER_LEN]);
  }

  lemma NplShape(vs: seq<int>, size: int, crc: int)
    requires |vs| == |NPL| && vs[0] == SIGNATURE && vs[1] == size && vs[2] == 0 && vs[3] == crc
    requires vs[4] == NPL_TYPE_NPH && vs[6] == 0
    ensures vs == NplValues(size, crc, vs[5])
  {
  }

  lemma NphShape(vs: seq<int>)
    requires Packable(NPH, vs)
    requires vs[0] == SERVICE_NAVDATA && vs[1] == NPH_REALTIME && vs[2] == NPH_FLAG_REQUEST
    ensures vs == NphValues(SERVICE_NAVDATA, NPH_REALTIME, NPH_FLAG_REQUEST, vs[3])
  {
    assert Fits(NPH[3], vs[3]);
  }

  lemma HeaderValues(raw: seq<Byte>)
    requires CanonicalHeader(raw)
    ensures Covered(raw) == raw[NPL_LEN..] && BodyOf(raw) == raw[HEADER_LEN..]
    ensures NplOf(raw) == NplValues(|raw| - NPL_LEN, Checksum(raw[NPL_LEN..]), NplOf(raw)[5])
    ensures NphOf(raw) == NphValues(SERVICE_NAVDATA, NPH_REALTIME, NPH_FLAG_REQUEST, NphOf(raw)[3])
  {
    ExactParts(raw);
    NplShape(NplOf(raw), |raw| - NPL_LEN, Checksum(raw[NPL_LEN..]));
    NphShape(NphOf(raw));
  }

  lemma Rebuild(raw: seq<Byte>, npl: seq<int>, nph: seq<int>)
    requires |raw| >= HEADER_LEN && npl == NplOf(raw) && nph == NphOf(raw)
    requires npl == NplValues(|raw| - NPL_LEN, Checksum(raw[NPL_LEN..]), npl[5])
    requires nph == NphValues(SERVICE_NAVDATA, NPH_REALTIME, NPH_FLAG_REQUEST, nph[3])
    ensures BuildFrame(npl[5], SERVICE_NAVDATA, NPH_REALTIME, nph[3], raw[HEADER_LEN..], NPH_FLAG_REQUEST) == Some(raw)
  {
    HeadersBack(raw);
    var head := PackAll(NPH, nph);
    assert Pack(NPH, nph) == Some(head);
    assert Pack(NPL, npl) == Some(PackAll(NPL, npl));
  }

  lemma CanonicalReencodes(raw: seq<Byte>)
    requires Canonical(raw)
    ensures DecodeFrame(raw).Ok?
    ensures var f := DecodeFrame(raw).frame;
      f.crcOk && f.nav.Some? && EncodeRealtime(f.unitId, f.requestId, f.nav.value, f.cells) == Some(raw)
  {
    HeaderValues(raw);
    CanonicalBodyReencodes(raw[HEADER_LEN..]);
    Rebuild(raw, NplOf(raw), NphOf(raw));
  }

  /** A frame that decodes with a navigation cell is reproduced byte for byte by re-encoding what
      was decoded exactly when it is canonical. */
  lemma ReencodeIffCanonical(raw: seq<Byte>)
    requires DecodeFrame(raw).Ok? && DecodeFrame(raw).frame.nav.Some?
    ensures var f := DecodeFrame(raw).frame;
      EncodeRealtime(f.unitId, f.requestId, f.nav.value, f.cells) == Some(raw) <==> Canonical(raw)
  {
    var f := DecodeFrame(raw).frame;
    if EncodeRealtime(f.unitId, f.requestId, f.nav.value, f.cells) == Some(raw) {
      EncodedIsCanonical(f.unitId, f.requestId, f.nav.value, f.cells);
    }
    if Canonical(raw) {
      CanonicalReencodes(raw);
    }
  }
}
