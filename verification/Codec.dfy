/** NDTP frames: `[NPL 15 bytes][NPH 10 bytes][body]`, little-endian, checksum byte-swapped. */
module Codec {
  import opened Options
  import opened Bytes
  import opened Cells
  import Crc

  const SIGNATURE := 0x7E7E
  const SIGNATURE_BYTE: Byte := 0x7E
  const NPL_TYPE_NPH := 2
  const NPL_LEN := 15
  const NPH_LEN := 10
  const HEADER_LEN := 25
  const NPL: seq<Code> := [U16, U16, U16, U16, U8, U32, U16]
  const NPH: seq<Code> := [U16, U16, U16, U32]
  const HANDSHAKE: seq<Code> := [U16, U16, U16, U32, U32, U32]
  const HANDSHAKE_LEN := 18

  const SERVICE_GENERIC := 0
  const SERVICE_NAVDATA := 1
  const NPH_RESULT := 0
  const NPH_CONN_REQUEST := 100
  const NPH_REALTIME := 101
  const NPH_FLAG_REQUEST := 1
  const MAX_PACKET_SIZE := 65535
  const REQUEST_IDS := 0x1_0000_0000

  datatype Handshake = Handshake(high: int, low: int, flags: int, peer: int, maxSize: int)

  datatype Frame = Frame(
    unitId: int, serviceId: int, nphType: int, requestId: int, crcOk: bool,
    nav: Option<NavCell>, cells: seq<Cell>, handshake: Option<Handshake>, raw: seq<Byte>)

  /** `StructError` is `struct.error` (raw shorter than its headers), `BodyError` is `ParseError`. */
  datatype Decoded = Ok(frame: Frame) | StructError | BodyError

  lemma Sizes()
    ensures Size(NPL) == NPL_LEN && Size(NPH) == NPH_LEN && Size(HANDSHAKE) == HANDSHAKE_LEN
  {
    assert SizeTo(NPL, 7) == NPL_LEN;
    assert SizeTo(NPH, 4) == NPH_LEN;
    assert SizeTo(HANDSHAKE, 6) == HANDSHAKE_LEN;
  }

  function Swap16(v: bv16): bv16 {
    ((v & 0xFF) << 8) | (v >> 8)
  }

  /** The checksum as the number stored in the NPL header. */
  function Checksum(data: seq<Byte>): (c: nat)
    ensures c < 0x1_0000
  {
    Swap16(Crc.Of(data)) as int
  }

  // ---- encoding ----

  function NplValues(size: int, crc: int, unitId: int): (vs: seq<int>)
    ensures |vs| == |NPL|
  {
    [SIGNATURE, size, 0, crc, NPL_TYPE_NPH, unitId, 0]
  }

  function NphValues(serviceId: int, nphType: int, flags: int, requestId: int): (vs: seq<int>)
    ensures |vs| == |NPH|
  {
    [serviceId, nphType, flags, requestId % REQUEST_IDS]
  }

  function BuildFrame(unitId: int, serviceId: int, nphType: int, requestId: int, body: seq<Byte>, flags: int)
    : Option<seq<Byte>>
  {
    match Pack(NPH, NphValues(serviceId, nphType, flags, requestId))
    case None => None
    case Some(head) =>
      var nph := head + body;
      match Pack(NPL, NplValues(|nph|, Checksum(nph), unitId))
      case None => None
      case Some(npl) => Some(npl + nph)
  }

  function EncodeHandshake(unitId: int, requestId: int): Option<seq<Byte>> {
    match Pack(HANDSHAKE, [6, 2, 0, unitId, MAX_PACKET_SIZE, 0])
    case None => None
    case Some(body) => BuildFrame(unitId, SERVICE_GENERIC, NPH_CONN_REQUEST, requestId, body, NPH_FLAG_REQUEST)
  }

  function EncodeCells(cells: seq<Cell>): Option<seq<Byte>> {
    if cells == [] then Some([])
    else
      match (EncodeCell(cells[0]), EncodeCells(cells[1..]))
      case (Some(first), Some(rest)) => Some(first + rest)
      case _ => None
  }

  function EncodeRealtime(unitId: int, requestId: int, nav: NavCell, extra: seq<Cell>): Option<seq<Byte>> {
    match (EncodeNav(nav), EncodeCells(extra))
    case (Some(first), Some(rest)) =>
      BuildFrame(unitId, SERVICE_NAVDATA, NPH_REALTIME, requestId,
                 [ToByte(NAV_TYPE), ToByte(0)] + first + rest, NPH_FLAG_REQUEST)
    case _ => None
  }

  /** The server's answer to a request. */
  function EncodeResult(frame: Frame, code: int): Option<seq<Byte>> {
    match Pack([U32], [code])
    case None => None
    case Some(body) => BuildFrame(frame.unitId, SERVICE_GENERIC, NPH_RESULT, frame.requestId, body, 0)
  }

  // ---- decoding ----

  /** What a scan has collected: the first navigation cell apart, all other cells in order. */
  datatype Found = Found(nav: Option<NavCell>, cells: seq<Cell>)

  const NOTHING := Found(None, [])

  type Taker<!S> = (S, int, int, seq<Byte>) -> S

  datatype Scan<S> = Scan(found: S, truncated: bool)

  /** Walks the `[type][number][payload]` cells of `rest`. An unknown type ends the walk without
      an error; a cell cut short ends it as truncated. */
  function ScanCells<S>(take: Taker<S>, rest: seq<Byte>, found: S): Scan<S>
    decreases |rest|
  {
    if |rest| < 2 then Scan(found, false)
    else
      match PayloadSize(Val(rest[0]))
      case None => Scan(found, false)
      case Some(size) =>
        if |rest| < 2 + size then Scan(found, true)
        else ScanCells(take, rest[2 + size..], take(found, Val(rest[0]), Val(rest[1]), rest[2..2 + size]))
  }

  /** One complete cell; a second navigation cell is dropped. (The walk only ever offers payloads
      of the right length.) */
  function Take(found: Found, typ: int, number: int, payload: seq<Byte>): Found {
    if PayloadSize(typ) != Some(|payload|) then found
    else if typ == NAV_TYPE && found.nav.None? then found.(nav := Some(DecodeNav(payload)))
    else if LayoutOf(typ).Some? then found.(cells := found.cells + [DecodeCell(typ, number, payload)])
    else found
  }

  lemma ScanStep<S>(take: Taker<S>, body: seq<Byte>, pos: nat, found: S)
    requires pos + 2 <= |body|
    ensures var size := PayloadSize(Val(body[pos]));
      ScanCells(take, body[pos..], found) ==
        if size.None? then Scan(found, false)
        else if pos + 2 + size.value > |body| then Scan(found, true)
        else ScanCells(take, body[pos + 2 + size.value..],
                       take(found, Val(body[pos]), Val(body[pos + 1]), body[pos + 2..pos + 2 + size.value]))
  {
    var rest := body[pos..];
    assert rest[0] == body[pos] && rest[1] == body[pos + 1];
    var size := PayloadSize(Val(body[pos]));
    if size.Some? && pos + 2 + size.value <= |body| {
      assert rest[2..2 + size.value] == body[pos + 2..pos + 2 + size.value];
      assert rest[2 + size.value..] == body[pos + 2 + size.value..];
    }
  }

  /** The scanning loop, whatever is done with a complete cell. */
  method ScanLoop<S>(take: Taker<S>, body: seq<Byte>, start: S) returns (scan: Scan<S>)
    ensures scan == ScanCells(take, body, start)
  {
    var found := start;
    assert body[0..] == body;
    var pos := 0;
    while pos + 2 <= |body|
      invariant 0 <= pos <= |body|
      invariant ScanCells(take, body[pos..], found) == ScanCells(take, body, start)
      decreases |body| - pos
    {
      ScanStep(take, body, pos, found);
      var typ, number := Val(body[pos]), Val(body[pos + 1]);
      match PayloadSize(typ) {
        case None =>
          return Scan(found, false);
        case Some(size) =>
          if pos + 2 + size > |body| {
            return Scan(found, true);
          }
          found := take(found, typ, number, body[pos + 2..pos + 2 + size]);
          pos := pos + 2 + size;
      }
    }
    scan := Scan(found, false);
  }

  /** The first navigation cell and the other cells of a body. */
  method DecodeCells(body: seq<Byte>) returns (scan: Scan<Found>)
    ensures scan == ScanCells(Take, body, NOTHING)
  {
    scan := ScanLoop(Take, body, NOTHING);
  }

  function DecodeHandshake(body: seq<Byte>): Option<Handshake> {
    if |body| != HANDSHAKE_LEN then None
    else
      Sizes();
      var vs := UnpackAll(HANDSHAKE, body);
      Some(Handshake(vs[0], vs[1], vs[2], vs[3], vs[4]))
  }

  function NplOf(raw: seq<Byte>): (vs: seq<int>)
    requires |raw| >= HEADER_LEN
    ensures |vs| == |NPL| && Packable(NPL, vs)
  {
    Sizes();
    UnpackAll(NPL, raw[..NPL_LEN])
  }

  function NphOf(raw: seq<Byte>): (vs: seq<int>)
    requires |raw| >= HEADER_LEN
    ensures |vs| == |NPH| && Packable(NPH, vs)
  {
    Sizes();
    UnpackAll(NPH, raw[NPL_LEN..HEADER_LEN])
  }

  function DataSize(raw: seq<Byte>): (n: nat)
    requires |raw| >= HEADER_LEN
  {
    assert Fits(NPL[1], NplOf(raw)[1]);
    NplOf(raw)[1]
  }

  /** The bytes the checksum covers: NPH and body, as far as `dataSize` reaches. */
  function Covered(raw: seq<Byte>): seq<Byte>
    requires |raw| >= HEADER_LEN
  {
    Slice(raw, NPL_LEN, NPL_LEN + DataSize(raw))
  }

  function BodyOf(raw: seq<Byte>): seq<Byte>
    requires |raw| >= HEADER_LEN
  {
    Slice(raw, HEADER_LEN, NPL_LEN + DataSize(raw))
  }

  predicate CrcOk(raw: seq<Byte>)
    requires |raw| >= HEADER_LEN
  {
    Checksum(Covered(raw)) == NplOf(raw)[3]
  }

  function DecodeFrame(raw: seq<Byte>): Decoded {
    if |raw| < HEADER_LEN then StructError
    else
      var npl, nph, body := NplOf(raw), NphOf(raw), BodyOf(raw);
      var frame := Frame(npl[5], nph[0], nph[1], nph[3], CrcOk(raw), None, [], None, raw);
      if nph[0] == SERVICE_GENERIC && nph[1] == NPH_CONN_REQUEST then
        match DecodeHandshake(body)
        case None => BodyError
        case Some(h) => Ok(frame.(handshake := Some(h)))
      else if nph[0] == SERVICE_NAVDATA && nph[1] == NPH_REALTIME then
        var scan := ScanCells(Take, body, NOTHING);
        if scan.truncated then BodyError else Ok(frame.(nav := scan.found.nav, cells := scan.found.cells))
      else Ok(frame)
  }
}
