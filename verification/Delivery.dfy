/** What arrives when encoded frames travel behind garbage, in chunks of any size. */
module Delivery {
  import opened Options
  import opened Bytes
  import opened Cells
  import opened Codec
  import opened RoundTrip
  import opened Framing
  import opened Resync

  // ---- chunks ----

  function Concat(chunks: seq<seq<Byte>>): seq<Byte> {
    if chunks == [] then [] else chunks[0] + Concat(chunks[1..])
  }

  /** The frames cut and the bytes left after feeding the chunks one by one. */
  function FeedAll(max: int, buf: seq<Byte>, chunks: seq<seq<Byte>>): (seq<seq<Byte>>, seq<Byte>)
    decreases |chunks|
  {
    if chunks == [] then ([], buf)
    else
      var first := SplitStream(max, buf + chunks[0], false);
      var (raws, rest) := FeedAll(max, first.rest, chunks[1..]);
      (first.raws + raws, rest)
  }

  /** A buffer that is left over yields nothing until more arrives. */
  predicate Settled(max: int, buf: seq<Byte>) {
    SplitStream(max, buf, false).raws == [] && SplitStream(max, buf, false).rest == buf
  }

  lemma RestSettled(max: int, s: seq<Byte>, skipping: bool)
    ensures Settled(max, SplitStream(max, s, skipping).rest)
    decreases |s|
  {
    match MoveOn(max, s)
    case Wait =>
    case Garbage => RestSettled(max, s[1..], true);
    case FalseHeader => RestSettled(max, s[1..], false);
    case Cut(total) => RestSettled(max, s[total..], false);
  }

  /** However the stream is cut into chunks, the frames and the rest are those of the stream. */
  lemma {:induction false} AnyChunks(max: int, buf: seq<Byte>, chunks: seq<seq<Byte>>)
    requires Settled(max, buf)
    ensures var whole := SplitStream(max, buf + Concat(chunks), false);
      FeedAll(max, buf, chunks) == (whole.raws, whole.rest)
    decreases |chunks|
  {
    if chunks == [] {
      assert buf + [] == buf;
    } else {
      var first := SplitStream(max, buf + chunks[0], false);
      ChunkInvariance(max, buf, chunks[0], Concat(chunks[1..]));
      RestSettled(max, buf + chunks[0], false);
      AnyChunks(max, first.rest, chunks[1..]);
    }
  }

  /** What decoding yields, chunk by chunk. */
  function TallyFed(decode: Decoder, max: int, buf: seq<Byte>, chunks: seq<seq<Byte>>): Tally
    decreases |chunks|
  {
    if chunks == [] then ZERO
    else
      var first := SplitStream(max, buf + chunks[0], false);
      Plus(TallyAll(decode, first.raws), TallyFed(decode, max, first.rest, chunks[1..]))
  }

  lemma {:induction false} TallyFedIs(decode: Decoder, max: int, buf: seq<Byte>, chunks: seq<seq<Byte>>)
    ensures TallyFed(decode, max, buf, chunks) == TallyAll(decode, FeedAll(max, buf, chunks).0)
    decreases |chunks|
  {
    if chunks != [] {
      var first := SplitStream(max, buf + chunks[0], false);
      TallyFedIs(decode, max, first.rest, chunks[1..]);
      TallyConcat(decode, first.raws, FeedAll(max, first.rest, chunks[1..]).0);
    }
  }

  /** However the stream is cut into chunks, the decoded frames and the error counts are the same. */
  lemma AnyChunksTally(
      decode: Decoder, max: int, buf: seq<Byte>, chunks: seq<seq<Byte>>, chunks1: seq<seq<Byte>>)
    requires Settled(max, buf) && Concat(chunks) == Concat(chunks1)
    ensures TallyFed(decode, max, buf, chunks) == TallyFed(decode, max, buf, chunks1)
  {
    AnyChunks(max, buf, chunks);
    AnyChunks(max, buf, chunks1);
    TallyFedIs(decode, max, buf, chunks);
    TallyFedIs(decode, max, buf, chunks1);
  }

  lemma {:induction false} AllDecode(decode: Decoder, raws: seq<seq<Byte>>, frames: seq<Frame>)
    requires |raws| == |frames|
    requires forall i :: 0 <= i < |raws| ==> decode(raws[i]) == Ok(frames[i]) && frames[i].crcOk
    ensures TallyAll(decode, raws) == Tally(frames, |frames|, 0, 0)
  {
    if raws != [] {
      AllDecode(decode, raws[1..], frames[1..]);
      assert [frames[0]] + frames[1..] == frames;
    }
  }

  // ---- encoded frames are cut out as they were written ----

  /** A frame the decoder recognises at the start of its buffer. */
  predicate WellFramed(max: int, raw: seq<Byte>) {
    |raw| >= NPL_LEN && AtSignature(raw) && HeaderOk(max, raw) && |raw| == NPL_LEN + SizeField(raw)
  }

  lemma {:induction false} PrefixPacked(codes: seq<Code>, vs: seq<int>, k: nat, n: nat)
    requires Packable(codes, vs) && k <= n <= |codes|
    ensures SizeTo(codes, k) <= SizeTo(codes, n)
    ensures PackTo(codes, vs, n)[..SizeTo(codes, k)] == PackTo(codes, vs, k)
    decreases n
  {
    if k < n {
      PrefixPacked(codes, vs, k, n - 1);
    }
  }

  lemma EndOfPrefix<T>(all: seq<T>, before: seq<T>, last: seq<T>)
    requires |before| + |last| <= |all| && all[..|before| + |last|] == before + last
    ensures all[|before|..|before| + |last|] == last
  {
    assert all[|before|..|before| + |last|] == all[..|before| + |last|][|before|..];
  }

  /** Where field `k` of a packed structure lies, and what its bytes are. */
  lemma FieldPacked(codes: seq<Code>, vs: seq<int>, k: nat)
    requires Packable(codes, vs) && k < |codes|
    ensures SizeTo(codes, k) + Width(codes[k]) <= Size(codes)
    ensures PackAll(codes, vs)[SizeTo(codes, k)..SizeTo(codes, k) + Width(codes[k])] == PackOne(codes[k], vs[k])
  {
    PrefixPacked(codes, vs, k + 1, |codes|);
    assert PackTo(codes, vs, k + 1) == PackTo(codes, vs, k) + PackOne(codes[k], vs[k]);
    EndOfPrefix(PackAll(codes, vs), PackTo(codes, vs, k), PackOne(codes[k], vs[k]));
  }

  lemma Little1(v: nat)
    requires v < 256
    ensures Little(v, 1) == [ToByte(v)]
  {
    assert v % 256 == v;
    assert Little(v, 1) == [ToByte(v)] + Little(v / 256, 0);
  }

  lemma Little2(v: nat)
    requires v < 0x1_0000
    ensures Little(v, 2) == [ToByte(v % 256), ToByte(v / 256)]
  {
    var high := v / 256;
    assert high < 256 && high % 256 == high;
    Little1(high);
  }

  lemma NplOffsets()
    ensures SizeTo(NPL, 0) == 0 && SizeTo(NPL, 1) == 2 && SizeTo(NPL, 4) == 8
    ensures Size(NPL) == NPL_LEN
  {
    Sizes();
  }

  lemma TwoByteField(vs: seq<int>, k: nat, at: nat)
    requires Packable(NPL, vs) && k < |NPL| && NPL[k] == U16 && at == SizeTo(NPL, k)
    ensures 0 <= vs[k] < 0x1_0000 && at + 2 <= Size(NPL)
    ensures PackAll(NPL, vs)[at] == ToByte(vs[k] % 256) && PackAll(NPL, vs)[at + 1] == ToByte(vs[k] / 256)
  {
    assert Fits(NPL[k], vs[k]);
    FieldPacked(NPL, vs, k);
    Little2(vs[k]);
    var field := PackAll(NPL, vs)[at..at + 2];
    assert field == PackOne(U16, vs[k]) == [ToByte(vs[k] % 256), ToByte(vs[k] / 256)];
    assert PackAll(NPL, vs)[at] == field[0] && PackAll(NPL, vs)[at + 1] == field[1];
  }

  lemma OneByteField(vs: seq<int>, k: nat, at: nat)
    requires Packable(NPL, vs) && k < |NPL| && NPL[k] == U8 && at == SizeTo(NPL, k)
    ensures 0 <= vs[k] < 256 && at + 1 <= Size(NPL) && PackAll(NPL, vs)[at] == ToByte(vs[k])
  {
    assert Fits(NPL[k], vs[k]);
    FieldPacked(NPL, vs, k);
    Little1(vs[k]);
    var field := PackAll(NPL, vs)[at..at + 1];
    assert field == PackOne(U8, vs[k]);
    assert PackAll(NPL, vs)[at] == field[0];
  }

  lemma NplBytes(size: int, crc: int, unitId: int)
    requires Packable(NPL, NplValues(size, crc, unitId))
    ensures var npl := PackAll(NPL, NplValues(size, crc, unitId));
      |npl| == NPL_LEN && AtSignature(npl) && SizeField(npl) == size && Val(npl[8]) == NPL_TYPE_NPH
  {
    var vs := NplValues(size, crc, unitId);
    NplOffsets();
    TwoByteField(vs, 0, 0);
    TwoByteField(vs, 1, 2);
    OneByteField(vs, 4, 8);
    SameVal(ToByte(SIGNATURE % 256), SIGNATURE_BYTE);
    SameVal(ToByte(SIGNATURE / 256), SIGNATURE_BYTE);
  }

  lemma BuiltIsWellFramed(
      max: int, unitId: int, serviceId: int, nphType: int, requestId: int, body: seq<Byte>, flags: int)
    requires BuildFrame(unitId, serviceId, nphType, requestId, body, flags).Some?
    requires NPH_LEN + |body| <= max
    ensures WellFramed(max, BuildFrame(unitId, serviceId, nphType, requestId, body, flags).value)
  {
    Sizes();
    var nph := PackAll(NPH, NphValues(serviceId, nphType, flags, requestId)) + body;
    NplBytes(|nph|, Checksum(nph), unitId);
  }

  lemma {:induction false} FramesCutExactly(max: int, raws: seq<seq<Byte>>)
    requires forall i :: 0 <= i < |raws| ==> WellFramed(max, raws[i])
    ensures SplitStream(max, Concat(raws), false) == Split(raws, [], 0, false)
  {
    if raws != [] {
      var s, tail := Concat(raws), Concat(raws[1..]);
      FramesCutExactly(max, raws[1..]);
      MoveStays(max, raws[0], tail);
      assert s[..|raws[0]|] == raws[0] && s[|raws[0]|..] == tail;
      assert [raws[0]] + raws[1..] == raws;
    }
  }

  /** Bytes without a signature that do not end in the middle of one. */
  predicate Garbage(g: seq<Byte>) {
    && (forall i :: 0 <= i < |g| - 1 ==> !(g[i] == SIGNATURE_BYTE && g[i + 1] == SIGNATURE_BYTE))
    && (g != [] ==> g[|g| - 1] != SIGNATURE_BYTE)
  }

  lemma GarbageSkipped(max: int, g: seq<Byte>, s: seq<Byte>)
    requires Garbage(g)
    ensures SplitStream(max, g + s, false).raws == SplitStream(max, s, false).raws
    ensures SplitStream(max, g + s, false).rest == SplitStream(max, s, false).rest
  {
    if g == [] {
      assert g + s == s;
    } else {
      var t := g + s;
      forall i | 0 <= i < |g|
        ensures !AtSignature(t[i..])
      {
        assert t[i] == g[i];
        if i < |g| - 1 { assert t[i + 1] == g[i + 1]; }
      }
      SkipGarbage(max, t, |g|, false);
      assert t[|g|..] == s;
      FlagOnlyCounts(max, s, true);
    }
  }

  /** A stream of frames with garbage before, between and behind them. */
  function Noisy(garbage: seq<seq<Byte>>, raws: seq<seq<Byte>>): seq<Byte>
    requires |garbage| == |raws| + 1
    decreases |raws|
  {
    if raws == [] then garbage[0] else garbage[0] + (raws[0] + Noisy(garbage[1..], raws[1..]))
  }

  /** No garbage looks like the beginning of a frame, not even together with the frame behind it; what lies
      behind the last frame has no signature. */
  ghost predicate Noise(max: int, garbage: seq<seq<Byte>>, raws: seq<seq<Byte>>)
    requires |garbage| == |raws| + 1
    decreases |raws|
  {
    if raws == [] then Garbage(garbage[0])
    else Harmless(max, garbage[0], raws[0]) && Noise(max, garbage[1..], raws[1..])
  }

  /** Bytes without a signature are such garbage. */
  lemma GarbageIsHarmless(max: int, g: seq<Byte>, raw: seq<Byte>)
    requires Garbage(g)
    ensures Harmless(max, g, raw)
  {
    forall i | 0 <= i < |g| ensures !Plausible(max, g + raw, i) {
      assert (g + raw)[i] == g[i];
      if i < |g| - 1 { assert (g + raw)[i + 1] == g[i + 1]; }
    }
  }

  lemma FramedIsPlausible(max: int, raw: seq<Byte>)
    requires WellFramed(max, raw)
    ensures Plausible(max, raw, 0) && |raw| == FrameLength(raw, 0)
  {
  }

  lemma {:induction false} NoisyCutExactly(max: int, garbage: seq<seq<Byte>>, raws: seq<seq<Byte>>)
    requires |garbage| == |raws| + 1 && Noise(max, garbage, raws)
    requires forall i :: 0 <= i < |raws| ==> WellFramed(max, raws[i])
    ensures SplitStream(max, Noisy(garbage, raws), false).raws == raws
    ensures SplitStream(max, Noisy(garbage, raws), false).rest == []
    decreases |raws|
  {
    if raws == [] {
      assert garbage[0] + [] == garbage[0];
      GarbageSkipped(max, garbage[0], []);
    } else {
      NoisyCutExactly(max, garbage[1..], raws[1..]);
      FramedIsPlausible(max, raws[0]);
      FrameFound(max, garbage[0], raws[0], Noisy(garbage[1..], raws[1..]));
      assert [raws[0]] + raws[1..] == raws;
    }
  }

  // ---- end to end ----

  /** What the codec encodes: a report of a unit, the greeting a connection begins with, and the answer of a
      server to a frame. */
  datatype Sent =
    | Report(unitId: int, requestId: int, nav: NavCell, extra: seq<Cell>)
    | Hello(unitId: int, requestId: int)
    | Answer(asking: Frame, code: int)
  {
    function Encoded(): Option<seq<Byte>> {
      match this
      case Report(unitId, requestId, nav, extra) => EncodeRealtime(unitId, requestId, nav, extra)
      case Hello(unitId, requestId) => EncodeHandshake(unitId, requestId)
      case Answer(asking, code) => EncodeResult(asking, code)
    }

    /** The frame it is to arrive as. */
    function Arrived(raw: seq<Byte>): Frame
      requires Encoded().Some?
    {
      match this
      case Report(unitId, requestId, nav, extra) => RealtimeFrame(unitId, requestId, nav, extra, raw)
      case Hello(unitId, requestId) =>
        Frame(unitId, SERVICE_GENERIC, NPH_CONN_REQUEST, requestId % REQUEST_IDS, true, None, [],
              Some(Handshake(6, 2, 0, unitId, MAX_PACKET_SIZE)), raw)
      case Answer(asking, code) =>
        Frame(asking.unitId, SERVICE_GENERIC, NPH_RESULT, asking.requestId % REQUEST_IDS, true, None, [], None, raw)
    }
  }

  /** It can be encoded at all and its frame fits the receiver's limit. */
  predicate Fitting(max: int, s: Sent) { s.Encoded().Some? && |s.Encoded().value| <= NPL_LEN + max }

  predicate Sendable(max: int, all: seq<Sent>) { forall i :: 0 <= i < |all| ==> Fitting(max, all[i]) }

  function RawsOf(max: int, all: seq<Sent>): (raws: seq<seq<Byte>>)
    requires Sendable(max, all)
    ensures |raws| == |all|
  {
    seq(|all|, i requires 0 <= i < |all| => all[i].Encoded().value)
  }

  function FramesOf(max: int, all: seq<Sent>): (frames: seq<Frame>)
    requires Sendable(max, all)
    ensures |frames| == |all|
  {
    seq(|all|, i requires 0 <= i < |all| => all[i].Arrived(all[i].Encoded().value))
  }

  /** The parts a frame was built from. */
  lemma BuiltFrom(s: Sent)
    returns (unitId: int, serviceId: int, nphType: int, requestId: int, body: seq<Byte>, flags: int)
    requires s.Encoded().Some?
    ensures BuildFrame(unitId, serviceId, nphType, requestId, body, flags) == s.Encoded()
  {
    match s
    case Report(unit, request, nav, extra) =>
      return unit, SERVICE_NAVDATA, NPH_REALTIME, request,
        [ToByte(NAV_TYPE), ToByte(0)] + EncodeNav(nav).value + EncodeCells(extra).value, NPH_FLAG_REQUEST;
    case Hello(unit, request) =>
      return unit, SERVICE_GENERIC, NPH_CONN_REQUEST, request,
        Pack(HANDSHAKE, [6, 2, 0, unit, MAX_PACKET_SIZE, 0]).value, NPH_FLAG_REQUEST;
    case Answer(asking, code) =>
      return asking.unitId, SERVICE_GENERIC, NPH_RESULT, asking.requestId, Pack([U32], [code]).value, 0;
  }

  lemma SentWellFramed(max: int, s: Sent)
    requires Fitting(max, s)
    ensures WellFramed(max, s.Encoded().value)
  {
    var unitId, serviceId, nphType, requestId, body, flags := BuiltFrom(s);
    BuiltFrame(unitId, serviceId, nphType, requestId, body, flags);
    BuiltIsWellFramed(max, unitId, serviceId, nphType, requestId, body, flags);
  }

  /** A frame that arrives decodes to what was sent. */
  lemma SentDecodes(s: Sent)
    requires s.Encoded().Some?
    ensures DecodeFrame(s.Encoded().value) == Ok(s.Arrived(s.Encoded().value))
    ensures s.Arrived(s.Encoded().value).crcOk
  {
    match s
    case Report(unitId, requestId, nav, extra) => RealtimeRoundTrip(unitId, requestId, nav, extra);
    case Hello(unitId, requestId) => HandshakeRoundTrip(unitId, requestId);
    case Answer(asking, code) => ResultRoundTrip(asking, code, Pack([U32], [code]).value);
  }

  lemma AllTallied(decode: Decoder, max: int, all: seq<Sent>)
    requires decode == DecodeFrame && Sendable(max, all)
    ensures TallyAll(decode, RawsOf(max, all)) == Tally(FramesOf(max, all), |all|, 0, 0)
  {
    var raws, frames := RawsOf(max, all), FramesOf(max, all);
    forall i | 0 <= i < |raws|
      ensures decode(raws[i]) == Ok(frames[i]) && frames[i].crcOk
    {
      SentDecodes(all[i]);
    }
    AllDecode(decode, raws, frames);
  }

  /** Any encoded frames, the greeting of a connection among them, with garbage before, between and behind
      them, cut into chunks anywhere: the receiver gets exactly those frames in order, without errors and
      with nothing left over. */
  lemma FramesDelivered(max: int, garbage: seq<seq<Byte>>, all: seq<Sent>, chunks: seq<seq<Byte>>)
    requires |garbage| == |all| + 1 && Sendable(max, all) && Noise(max, garbage, RawsOf(max, all))
    requires Concat(chunks) == Noisy(garbage, RawsOf(max, all))
    ensures FeedAll(max, [], chunks) == (RawsOf(max, all), [])
    ensures TallyFed(DecodeFrame, max, [], chunks) == Tally(FramesOf(max, all), |all|, 0, 0)
  {
    var raws := RawsOf(max, all);
    forall i | 0 <= i < |raws|
      ensures WellFramed(max, raws[i])
    {
      SentWellFramed(max, all[i]);
    }
    NoisyCutExactly(max, garbage, raws);
    AnyChunks(max, [], chunks);
    assert [] + Concat(chunks) == Concat(chunks);
    TallyFedIs(DecodeFrame, max, [], chunks);
    AllTallied(DecodeFrame, max, all);
  }
}
