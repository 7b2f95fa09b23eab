/** Frames the receiver accepts that are not reproduced by re-encoding what was decoded, for four of the ways
    of not being canonical. */
module Unreproduced {
  import opened Options
  import opened Bytes
  import opened Cells
  import opened Codec
  import opened RoundTrip

  const UNIT := 7

  /** The service header of a realtime report. */
  const REPORT: seq<int> := NphValues(SERVICE_NAVDATA, NPH_REALTIME, NPH_FLAG_REQUEST, 1)

  /** The transport header the encoder would write around this body. */
  function Header(body: seq<Byte>): seq<int> {
    NplValues(NPH_LEN + |body|, Checksum(PackAll(NPH, REPORT) + body), UNIT)
  }

  function Received(npl: seq<int>, body: seq<Byte>): (raw: seq<Byte>)
    requires Packable(NPL, npl)
  {
    PackAll(NPL, npl) + (PackAll(NPH, REPORT) + body)
  }

  /** Accepted with a navigation cell, but re-encoding gives other bytes or none. */
  predicate Lost(raw: seq<Byte>) {
    DecodeFrame(raw).Ok? &&
    var f := DecodeFrame(raw).frame;
    f.nav.Some? && EncodeRealtime(f.unitId, f.requestId, f.nav.value, f.cells) != Some(raw)
  }

  lemma HeaderFits(body: seq<Byte>)
    requires |body| < 0x1000
    ensures Packable(NPL, Header(body))
  {
  }

  lemma ReceivedReadsBack(npl: seq<int>, body: seq<Byte>)
    requires Packable(NPL, npl) && npl[1] == NPH_LEN + |body|
    ensures var raw := Received(npl, body);
      && |raw| == HEADER_LEN + |body| && raw[HEADER_LEN..] == body == BodyOf(raw)
      && NplOf(raw) == npl && NphOf(raw) == REPORT
      && (CrcOk(raw) <==> npl[3] == Header(body)[3])
  {
    HeadersReadBack(npl, REPORT, body);
    ExactParts(Received(npl, body));
  }

  /** A frame whose cells scan to a navigation cell is accepted; not canonical, it is not reproduced. */
  lemma LostFrame(npl: seq<int>, body: seq<Byte>, found: Found)
    requires Packable(NPL, npl) && npl[1] == NPH_LEN + |body|
    requires ScanCells(Take, body, NOTHING) == Scan(found, false) && found.nav.Some?
    requires !Canonical(Received(npl, body))
    ensures Lost(Received(npl, body)) && DecodeFrame(Received(npl, body)).frame.nav == found.nav
    ensures DecodeFrame(Received(npl, body)).frame.cells == found.cells
    ensures DecodeFrame(Received(npl, body)).frame.crcOk == CrcOk(Received(npl, body))
  {
    ReceivedReadsBack(npl, body);
    ReencodeIffCanonical(Received(npl, body));
  }

  lemma BodyNotCanonical(npl: seq<int>, body: seq<Byte>)
    requires Packable(NPL, npl) && npl[1] == NPH_LEN + |body| && !CanonicalBody(body)
    ensures !Canonical(Received(npl, body))
  {
    ReceivedReadsBack(npl, body);
  }

  lemma HeaderNotCanonical(npl: seq<int>, body: seq<Byte>)
    requires Packable(NPL, npl) && npl[1] == NPH_LEN + |body| && (npl[2] != 0 || npl[3] != Header(body)[3])
    ensures !Canonical(Received(npl, body))
    ensures npl[3] != Header(body)[3] ==> !CrcOk(Received(npl, body))
  {
    ReceivedReadsBack(npl, body);
  }

  /** A navigation cell and what follows it. */
  function NavThen(payload: seq<Byte>, tail: seq<Byte>): (body: seq<Byte>)
    ensures |body| == 2 + |payload| + |tail|
  {
    [ToByte(NAV_TYPE), ToByte(0)] + payload + tail
  }

  lemma ScanNavThen(payload: seq<Byte>, tail: seq<Byte>)
    requires |payload| == NAV_SIZE
    ensures ScanCells(Take, NavThen(payload, tail), NOTHING)
         == ScanCells(Take, tail, Found(Some(DecodeNav(payload)), []))
    ensures NavThen(payload, tail)[2 + NAV_SIZE..] == tail
  {
    ScanNavFirst(payload, tail);
  }

  /** What cannot be scanned as a cell makes the body it ends not canonical. */
  lemma TailNotCanonical(payload: seq<Byte>, tail: seq<Byte>)
    requires |payload| == NAV_SIZE && |tail| >= 2 && LayoutOf(Val(tail[0])).None?
    ensures !CanonicalBody(NavThen(payload, tail))
  {
    ScanNavThen(payload, tail);
    assert !StartsWithCell(tail);
  }

  /** Of two navigation cells the second is dropped. */
  lemma SecondNavLost(p1: seq<Byte>, p2: seq<Byte>)
    requires |p1| == |p2| == NAV_SIZE
    ensures var body := NavThen(p1, NavThen(p2, []));
      && Packable(NPL, Header(body)) && Lost(Received(Header(body), body))
      && DecodeFrame(Received(Header(body), body)).frame.nav == Some(DecodeNav(p1))
      && DecodeFrame(Received(Header(body), body)).frame.cells == []
  {
    var found, second := Found(Some(DecodeNav(p1)), []), NavThen(p2, []);
    var body := NavThen(p1, second);
    HeaderFits(body);
    TailNotCanonical(p1, second);
    BodyNotCanonical(Header(body), body);
    ScanNavThen(p1, second);
    ScanOne(Take, NAV_TYPE, 0, p2, [], found);
    assert Take(found, NAV_TYPE, 0, p2) == found;
    LostFrame(Header(body), body, found);
  }

  lemma UnknownEndsScan(tail: seq<Byte>, found: Found)
    requires |tail| >= 2 && PayloadSize(Val(tail[0])).None?
    ensures ScanCells(Take, tail, found) == Scan(found, false) && LayoutOf(Val(tail[0])).None?
  {
  }

  /** A cell of an unknown type ends the scan: it is lost with everything behind it. */
  lemma UnknownCellLost(payload: seq<Byte>, tail: seq<Byte>)
    requires |payload| == NAV_SIZE && 2 <= |tail| < 0x800 && PayloadSize(Val(tail[0])).None?
    ensures var body := NavThen(payload, tail);
      && Packable(NPL, Header(body)) && Lost(Received(Header(body), body))
      && DecodeFrame(Received(Header(body), body)).frame.cells == []
  {
    var found, body := Found(Some(DecodeNav(payload)), []), NavThen(payload, tail);
    UnknownEndsScan(tail, found);
    HeaderFits(body);
    TailNotCanonical(payload, tail);
    BodyNotCanonical(Header(body), body);
    ScanNavThen(payload, tail);
    LostFrame(Header(body), body, found);
  }

  lemma NavOnlyLost(payload: seq<Byte>, npl: seq<int>)
    requires |payload| == NAV_SIZE && Packable(NPL, npl) && npl[1] == NPH_LEN + 2 + NAV_SIZE
    requires npl[2] != 0 || npl[3] != Header(NavThen(payload, []))[3]
    ensures Lost(Received(npl, NavThen(payload, [])))
    ensures npl[3] != Header(NavThen(payload, []))[3] ==>
              !DecodeFrame(Received(npl, NavThen(payload, []))).frame.crcOk
  {
    HeaderNotCanonical(npl, NavThen(payload, []));
    ScanNavThen(payload, []);
    LostFrame(npl, NavThen(payload, []), Found(Some(DecodeNav(payload)), []));
  }

  lemma FieldSet(npl: seq<int>, k: nat, v: int)
    requires Packable(NPL, npl) && k < |NPL| && Fits(NPL[k], v)
    ensures Packable(NPL, npl[k := v])
  {
  }

  /** A reserved header field that is not zero is not kept. */
  lemma ReservedLost(payload: seq<Byte>)
    requires |payload| == NAV_SIZE
    ensures var body := NavThen(payload, []);
      Packable(NPL, Header(body)[2 := 1]) && Lost(Received(Header(body)[2 := 1], body))
  {
    var body := NavThen(payload, []);
    HeaderFits(body);
    FieldSet(Header(body), 2, 1);
    NavOnlyLost(payload, Header(body)[2 := 1]);
  }

  /** A wrong checksum is reported, and re-encoding writes the right one. */
  lemma WrongChecksumLost(payload: seq<Byte>, crc: nat)
    requires |payload| == NAV_SIZE && crc < 0x1_0000 && crc != Header(NavThen(payload, []))[3]
    ensures var body := NavThen(payload, []);
      && Packable(NPL, Header(body)[3 := crc]) && Lost(Received(Header(body)[3 := crc], body))
      && !DecodeFrame(Received(Header(body)[3 := crc], body)).frame.crcOk
  {
    var body := NavThen(payload, []);
    HeaderFits(body);
    FieldSet(Header(body), 3, crc);
    NavOnlyLost(payload, Header(body)[3 := crc]);
  }
}
