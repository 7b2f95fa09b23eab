/** The incremental TCP decoder: partial and glued frames, garbage, resynchronisation. */
module Framing {
  import opened Bytes
  import opened Codec
  import opened Numbers
  import opened Options

  // ---- what the bytes mean, one move at a time ----

  predicate AtSignature(s: seq<Byte>) {
    |s| >= 2 && s[0] == SIGNATURE_BYTE && s[1] == SIGNATURE_BYTE
  }

  function SizeField(s: seq<Byte>): (n: nat)
    requires |s| >= NPL_LEN
  {
    Val(s[2]) + 256 * Val(s[3])
  }

  predicate HeaderOk(max: int, s: seq<Byte>)
    requires |s| >= NPL_LEN
  {
    NPH_LEN <= SizeField(s) <= max && Val(s[8]) == NPL_TYPE_NPH
  }

  /** `Garbage` drops a byte that starts no signature, `FalseHeader` one that starts a signature
      with an implausible header, `Cut` takes a whole frame, `Wait` needs more bytes. */
  datatype Move = Wait | Garbage | FalseHeader | Cut(total: nat)

  function MoveOn(max: int, s: seq<Byte>): (m: Move)
    ensures m.Cut? ==> 0 < m.total <= |s|
    ensures s == [] ==> m == Wait
  {
    if s == [] || s == [SIGNATURE_BYTE] then Wait
    else if !AtSignature(s) then Garbage
    else if |s| < NPL_LEN then Wait
    else if !HeaderOk(max, s) then FalseHeader
    else if |s| < NPL_LEN + SizeField(s) then Wait
    else Cut(NPL_LEN + SizeField(s))
  }

  /** `raws` are the frames cut out in order, `rest` the bytes that wait for more. A run of
      garbage counts as one resynchronisation; `skipping` says that the last move was inside one. */
  datatype Split = Split(raws: seq<seq<Byte>>, rest: seq<Byte>, resyncs: nat, skipping: bool)

  function Prepend(raws: seq<seq<Byte>>, resyncs: nat, tail: Split): Split {
    Split(raws + tail.raws, tail.rest, resyncs + tail.resyncs, tail.skipping)
  }

  function Later(resyncs: nat, tail: Split): Split {
    tail.(resyncs := resyncs + tail.resyncs)
  }

  lemma PrependNone(resyncs: nat, tail: Split)
    ensures Prepend([], resyncs, tail) == Later(resyncs, tail)
  {
    assert [] + tail.raws == tail.raws;
  }

  function Fresh(skipping: bool): nat {
    if skipping then 0 else 1
  }

  function SplitStream(max: int, s: seq<Byte>, skipping: bool): Split
    decreases |s|
  {
    match MoveOn(max, s)
    case Wait => Split([], s, 0, skipping && |s| < 2)
    case Garbage => Later(Fresh(skipping), SplitStream(max, s[1..], true))
    case FalseHeader => Later(1, SplitStream(max, s[1..], false))
    case Cut(total) => Prepend([s[..total]], 0, SplitStream(max, s[total..], false))
  }

  lemma SameHeader(max: int, a: seq<Byte>, b: seq<Byte>)
    requires |a| >= NPL_LEN
    ensures SizeField(a + b) == SizeField(a) && HeaderOk(max, a + b) == HeaderOk(max, a)
  {
    assert (a + b)[2] == a[2] && (a + b)[3] == a[3] && (a + b)[8] == a[8];
  }

  /** More bytes never change a move that has been made. */
  lemma MoveStays(max: int, a: seq<Byte>, b: seq<Byte>)
    requires !MoveOn(max, a).Wait?
    ensures MoveOn(max, a + b) == MoveOn(max, a)
  {
    assert (a + b)[0] == a[0];
    if |a| >= 2 {
      assert (a + b)[1] == a[1];
    }
    if |a| >= NPL_LEN {
      SameHeader(max, a, b);
    }
  }

  lemma PrependTwice(r1: seq<seq<Byte>>, n1: nat, r2: seq<seq<Byte>>, n2: nat, tail: Split)
    ensures Prepend(r1, n1, Prepend(r2, n2, tail)) == Prepend(r1 + r2, n1 + n2, tail)
  {
    assert r1 + (r2 + tail.raws) == (r1 + r2) + tail.raws;
  }

  /** Scanning `a + b` is scanning `a` and then what it left followed by `b`. */
  lemma {:induction false} ScanAppend(max: int, a: seq<Byte>, b: seq<Byte>, skipping: bool)
    ensures var first := SplitStream(max, a, skipping);
      SplitStream(max, a + b, skipping)
        == Prepend(first.raws, first.resyncs, SplitStream(max, first.rest + b, first.skipping))
    decreases |a|
  {
    var m := MoveOn(max, a);
    if m.Wait? {
      WaitKeepsFlag(max, a, b, skipping);
    } else {
      MoveStays(max, a, b);
      var n := if m.Cut? then m.total else 1;
      assert (a + b)[n..] == a[n..] + b && (a + b)[..n] == a[..n];
      ScanAppend(max, a[n..], b, m.Garbage?);
      var tail := SplitStream(max, a[n..], m.Garbage?);
      var after := SplitStream(max, tail.rest + b, tail.skipping);
      if m.Cut? {
        PrependTwice([a[..n]], 0, tail.raws, tail.resyncs, after);
      }
    }
  }

  lemma WaitKeepsFlag(max: int, a: seq<Byte>, b: seq<Byte>, skipping: bool)
    requires MoveOn(max, a).Wait?
    ensures SplitStream(max, a + b, skipping) == Prepend([], 0, SplitStream(max, a + b, skipping && |a| < 2))
  {
    var tail := SplitStream(max, a + b, skipping);
    assert [] + tail.raws == tail.raws;
    if |a| >= 2 {
      assert AtSignature(a + b);
    }
  }

  /** The flag only matters for the count, and there only if the first move drops garbage. */
  lemma FlagOnlyCounts(max: int, s: seq<Byte>, skipping: bool)
    ensures var marked, plain := SplitStream(max, s, skipping), SplitStream(max, s, false);
      && marked.raws == plain.raws && marked.rest == plain.rest
      && plain.resyncs == marked.resyncs + (if skipping && MoveOn(max, s).Garbage? then 1 else 0)
  {
  }

  /** Cutting the stream anywhere changes neither the frames nor what is left, and it changes the
      resynchronisation count exactly when the cut falls inside a run of garbage: then by one. */
  lemma ChunkInvariance(max: int, buf: seq<Byte>, a: seq<Byte>, b: seq<Byte>)
    ensures
      var whole := SplitStream(max, buf + (a + b), false);
      var first := SplitStream(max, buf + a, false);
      var second := SplitStream(max, first.rest + b, false);
      && whole.raws == first.raws + second.raws
      && whole.rest == second.rest
      && first.resyncs + second.resyncs
         == whole.resyncs + (if first.skipping && MoveOn(max, first.rest + b).Garbage? then 1 else 0)
  {
    var first := SplitStream(max, buf + a, false);
    assert buf + (a + b) == (buf + a) + b;
    ScanAppend(max, buf + a, b, false);
    FlagOnlyCounts(max, first.rest + b, first.skipping);
  }

  /** Two garbage bytes fed one by one count twice, fed together once. */
  lemma ResyncsDependOnChunks()
    ensures var a: seq<Byte> := [0];
      && SplitStream(65535, a + a, false).resyncs == 1
      && SplitStream(65535, a, false).rest == [] && SplitStream(65535, a, false).resyncs == 1
  {
    var a: seq<Byte> := [0];
    assert (a + a)[1..] == a && a[1..] == [];
  }

  /** What waits is always shorter than one frame of the largest admitted size. */
  lemma {:induction false} RestIsShort(max: int, s: seq<Byte>, skipping: bool)
    ensures |SplitStream(max, s, skipping).rest| < NPL_LEN + MaxInt(max, 0)
    decreases |s|
  {
    match MoveOn(max, s)
    case Wait =>
    case Garbage => RestIsShort(max, s[1..], true);
    case FalseHeader => RestIsShort(max, s[1..], false);
    case Cut(total) => RestIsShort(max, s[total..], false);
  }

  // ---- counters ----

  /** What the decoder hands out and counts for the frames cut from the stream. Only the outcome
      of decoding matters here; the decoder below is built with `DecodeFrame`. */
  datatype Tally = Tally(out: seq<Frame>, frames: nat, crcErrors: nat, parseErrors: nat)

  type Decoder = seq<Byte> -> Decoded

  function TallyOne(decode: Decoder, raw: seq<Byte>): Tally {
    match decode(raw)
    case Ok(frame) => Tally([frame], 1, if frame.crcOk then 0 else 1, 0)
    case _ => Tally([], 0, 0, 1)
  }

  function Plus(a: Tally, b: Tally): Tally {
    Tally(a.out + b.out, a.frames + b.frames, a.crcErrors + b.crcErrors, a.parseErrors + b.parseErrors)
  }

  const ZERO := Tally([], 0, 0, 0)

  function TallyAll(decode: Decoder, raws: seq<seq<Byte>>): Tally {
    if raws == [] then ZERO else Plus(TallyOne(decode, raws[0]), TallyAll(decode, raws[1..]))
  }

  lemma PlusAssociates(a: Tally, b: Tally, c: Tally)
    ensures Plus(a, Plus(b, c)) == Plus(Plus(a, b), c)
  {
    assert a.out + (b.out + c.out) == (a.out + b.out) + c.out;
  }

  lemma {:induction false} TallyConcat(decode: Decoder, a: seq<seq<Byte>>, b: seq<seq<Byte>>)
    ensures TallyAll(decode, a + b) == Plus(TallyAll(decode, a), TallyAll(decode, b))
  {
    if a == [] {
      assert a + b == b;
      PlusZero(TallyAll(decode, b));
    } else {
      assert (a + b)[1..] == a[1..] + b;
      TallyConcat(decode, a[1..], b);
      PlusAssociates(TallyOne(decode, a[0]), TallyAll(decode, a[1..]), TallyAll(decode, b));
    }
  }

  function Broken(frames: seq<Frame>): nat {
    if frames == [] then 0 else (if frames[0].crcOk then 0 else 1) + Broken(frames[1..])
  }

  /** Every cut frame is given out or counted as undecodable, and those given out with a bad checksum are counted. */
  lemma {:induction false} TallyIs(decode: Decoder, raws: seq<seq<Byte>>)
    ensures var t := TallyAll(decode, raws);
      && t.frames == |t.out| && t.frames + t.parseErrors == |raws| && t.crcErrors == Broken(t.out)
      && (t.parseErrors == 0 ==> forall i :: 0 <= i < |raws| ==> decode(raws[i]) == Ok(t.out[i]))
  {
    if raws != [] {
      TallyIs(decode, raws[1..]);
      var t, rest := TallyAll(decode, raws), TallyAll(decode, raws[1..]);
      if decode(raws[0]).Ok? {
        assert t.out == [decode(raws[0]).frame] + rest.out && t.out[1..] == rest.out;
        assert forall i :: 0 < i < |raws| ==> raws[i] == raws[1..][i - 1];
      } else {
        assert t.out == rest.out;
      }
    }
  }

  // ---- searching for the signature ----

  /** `buf.find(SIGNATURE_BYTES)`: the first position of a signature, `None` for -1. */
  function FindSignature(s: seq<Byte>): (at: Option<nat>)
    ensures at.Some? ==> at.value < |s| && AtSignature(s[at.value..])
    ensures forall i :: 0 <= i < (if at.Some? then at.value else |s|) ==> !AtSignature(s[i..])
  {
    if s == [] then None
    else if AtSignature(s) then assert s[0..] == s; Some(0)
    else
      var at := FindSignature(s[1..]);
      assert forall i :: 0 < i < |s| ==> s[i..] == s[1..][i - 1..];
      if at.Some? then assert s[1..][at.value..] == s[at.value + 1..]; Some(at.value + 1) else None
  }

  lemma OneOfGarbage(max: int, s: seq<Byte>, skipping: bool, tail: Split)
    requires s != [] && s != [SIGNATURE_BYTE] && !AtSignature(s) && tail == SplitStream(max, s[1..], true)
    ensures SplitStream(max, s, skipping) == Later(Fresh(skipping), tail)
  {
    assert MoveOn(max, s) == Garbage;
  }

  /** No signature starts at the first `k` positions. */
  ghost predicate Silent(s: seq<Byte>, k: nat)
    requires k <= |s|
  {
    forall i :: 0 <= i < k ==> !AtSignature(s[i..])
  }

  lemma SilentBehind(s: seq<Byte>, k: nat)
    requires 0 < k <= |s| && Silent(s, k)
    ensures !AtSignature(s) && Silent(s[1..], k - 1)
  {
    assert s[0..] == s;
    forall i | 0 <= i < k - 1 ensures !AtSignature(s[1..][i..]) {
      assert s[1..][i..] == s[i + 1..];
    }
  }

  /** Dropping `k` bytes none of which starts a signature is one run of garbage. */
  lemma {:induction false} SkipGarbage(max: int, s: seq<Byte>, k: nat, skipping: bool)
    requires k <= |s| && Silent(s, k)
    requires k == |s| > 0 ==> s[|s| - 1] != SIGNATURE_BYTE
    ensures k > 0 ==> SplitStream(max, s, skipping) == Later(Fresh(skipping), SplitStream(max, s[k..], true))
    decreases k
  {
    if k > 0 {
      var tail := s[1..];
      assert tail[k - 1..] == s[k..];
      SilentBehind(s, k);
      OneOfGarbage(max, s, skipping, SplitStream(max, tail, true));
      if k > 1 {
        SkipGarbage(max, tail, k - 1, true);
      }
    }
  }

  lemma SkippedTo(max: int, s: seq<Byte>, at: nat)
    requires FindSignature(s) == Some(at)
    ensures SplitStream(max, s, false) == Later(if at > 0 then 1 else 0, SplitStream(max, s[at..], false))
  {
    var tail := SplitStream(max, s[at..], false);
    assert SplitStream(max, s[at..], true) == tail;
    if at == 0 {
      assert s[0..] == s;
    } else {
      SkipGarbage(max, s, at, false);
    }
  }

  lemma NothingFound(max: int, s: seq<Byte>)
    requires FindSignature(s) == None
    ensures var keep := if s != [] && s[|s| - 1] == SIGNATURE_BYTE then 1 else 0;
      var scan := SplitStream(max, s, false);
      scan.raws == [] && scan.rest == s[|s| - keep..] && scan.resyncs == (if |s| > keep then 1 else 0)
  {
    var keep := if s != [] && s[|s| - 1] == SIGNATURE_BYTE then 1 else 0;
    var rest := s[|s| - keep..];
    assert keep == 1 ==> rest == [SIGNATURE_BYTE];
    assert MoveOn(max, rest).Wait?;
    if |s| > keep {
      SkipGarbage(max, s, |s| - keep, false);
    } else {
      assert rest == s;
    }
  }

  lemma Extend(whole: Split, raws: seq<seq<Byte>>, n: nat, mid: Split, more: seq<seq<Byte>>, m: nat, tail: Split)
    requires whole == Prepend(raws, n, mid) && mid == Prepend(more, m, tail)
    ensures whole == Prepend(raws + more, n + m, tail)
  {
    PrependTwice(raws, n, more, m, tail);
  }

  predicate Waits(whole: Split, s: seq<Byte>, n: nat) {
    whole.raws == [] && whole.rest == s && whole.resyncs == n
  }

  /** A buffer that starts with a signature, `n` resynchronisations into the stream. */
  predicate AtMove(whole: Split, n: nat, max: int, s: seq<Byte>) {
    AtSignature(s) && whole == Later(n, SplitStream(max, s, false))
  }

  lemma HeaderIncomplete(whole: Split, n: nat, max: int, s: seq<Byte>)
    requires AtMove(whole, n, max, s) && |s| < NPL_LEN
    ensures Waits(whole, s, n)
  {
  }

  lemma HeaderRejected(whole: Split, n: nat, max: int, s: seq<Byte>)
    requires AtMove(whole, n, max, s) && |s| >= NPL_LEN && !HeaderOk(max, s)
    ensures whole == Later(n + 1, SplitStream(max, s[1..], false))
  {
  }

  lemma FrameIncomplete(whole: Split, n: nat, max: int, s: seq<Byte>)
    requires AtMove(whole, n, max, s) && |s| >= NPL_LEN && HeaderOk(max, s) && |s| < NPL_LEN + SizeField(s)
    ensures Waits(whole, s, n)
  {
  }

  lemma CutLater(raws: seq<seq<Byte>>, n: nat, here: Split, tail: Split)
    requires here == Prepend(raws, 0, tail)
    ensures Later(n, here) == Prepend(raws, n, tail)
  {
  }

  lemma CutNow(max: int, s: seq<Byte>, total: nat)
    requires |s| >= NPL_LEN && AtSignature(s) && HeaderOk(max, s) && total == NPL_LEN + SizeField(s) <= |s|
    ensures SplitStream(max, s, false) == Prepend([s[..total]], 0, SplitStream(max, s[total..], false))
  {
    assert MoveOn(max, s) == Cut(total);
  }

  lemma FrameComplete(whole: Split, n: nat, max: int, s: seq<Byte>, total: nat)
    requires AtMove(whole, n, max, s) && |s| >= NPL_LEN && HeaderOk(max, s) && total == NPL_LEN + SizeField(s) <= |s|
    ensures whole == Prepend([s[..total]], n, SplitStream(max, s[total..], false))
  {
    CutNow(max, s, total);
    CutLater([s[..total]], n, SplitStream(max, s, false), SplitStream(max, s[total..], false));
  }

  lemma PlusZero(t: Tally)
    ensures Plus(t, ZERO) == t && Plus(ZERO, t) == t
  {
    assert t.out + [] == t.out && [] + t.out == t.out;
  }

  lemma TallySingle(decode: Decoder, raws: seq<seq<Byte>>)
    requires |raws| == 1
    ensures TallyAll(decode, raws) == TallyOne(decode, raws[0])
  {
    assert raws[1..] == [];
    PlusZero(TallyOne(decode, raws[0]));
  }

  lemma TallyNext(decode: Decoder, cut: seq<seq<Byte>>, raw: seq<Byte>)
    ensures TallyAll(decode, cut + [raw]) == Plus(TallyAll(decode, cut), TallyOne(decode, raw))
  {
    TallyConcat(decode, cut, [raw]);
    TallySingle(decode, [raw]);
  }

  /** The tallies of the first frames, one after another. */
  ghost predicate Sums(decode: Decoder, cut: seq<seq<Byte>>, sums: seq<Tally>) {
    && |sums| == |cut| + 1 && sums[0] == ZERO
    && (forall i :: 0 <= i < |cut| ==> sums[i + 1] == Plus(sums[i], TallyOne(decode, cut[i])))
  }

  lemma SumsMore(decode: Decoder, cut: seq<seq<Byte>>, sums: seq<Tally>, raw: seq<Byte>, sum: Tally)
    requires Sums(decode, cut, sums) && sum == Plus(sums[|cut|], TallyOne(decode, raw))
    ensures Sums(decode, cut + [raw], sums + [sum])
  {
  }

  lemma {:induction false} SumsAll(decode: Decoder, cut: seq<seq<Byte>>, sums: seq<Tally>)
    requires Sums(decode, cut, sums)
    ensures TallyAll(decode, cut) == sums[|cut|]
  {
    if cut != [] {
      var n := |cut| - 1;
      assert cut == cut[..n] + [cut[n]];
      SumsAll(decode, cut[..n], sums[..n + 1]);
      TallyNext(decode, cut[..n], cut[n]);
    }
  }

  /** One more frame cut off the stream. */
  lemma FeedStep(whole: Split, cut: seq<seq<Byte>>, n: nat, before: Split, raw: seq<Byte>, m: nat, here: Split)
    requires whole == Prepend(cut, n, before) && before == Prepend([raw], m, here)
    ensures whole == Prepend(cut + [raw], n + m, here)
  {
    Extend(whole, cut, n, before, [raw], m, here);
  }

  /** Nothing more to cut. */
  lemma FeedEnd(whole: Split, cut: seq<seq<Byte>>, n: nat, before: Split, rest: seq<Byte>, m: nat)
    requires whole == Prepend(cut, n, before) && Waits(before, rest, m)
    ensures whole.raws == cut && whole.rest == rest && whole.resyncs == n + m
  {
    assert cut + [] == cut;
  }

  class FrameDecoder {
    const maxDataSize: int
    const decode: Decoder
    var crcErrors: nat
    var parseErrors: nat
    var resyncs: nat
    var frames: nat
    var buf: seq<Byte>

    constructor (max: int)
      ensures maxDataSize == max && decode == DecodeFrame && buf == []
      ensures crcErrors == parseErrors == resyncs == frames == 0
    {
      maxDataSize, decode := max, DecodeFrame;
      crcErrors, parseErrors, resyncs, frames := 0, 0, 0, 0;
      buf := [];
    }

    /** Drops bytes up to the first signature; without one, keeps at most a trailing `7E`. */
    method SkipToSignature() returns (found: bool)
      modifies this`buf, this`resyncs
      ensures |buf| <= |old(buf)| && resyncs >= old(resyncs)
      ensures found ==> AtSignature(buf)
      ensures found ==>
        SplitStream(maxDataSize, old(buf), false)
          == Later(resyncs - old(resyncs), SplitStream(maxDataSize, buf, false))
      ensures !found ==> Waits(SplitStream(maxDataSize, old(buf), false), buf, resyncs - old(resyncs))
    {
      var at := FindSignature(buf);
      if at == None {
        NothingFound(maxDataSize, buf);
        var keep := if buf != [] && buf[|buf| - 1] == SIGNATURE_BYTE then 1 else 0;
        if |buf| > keep {
          resyncs := resyncs + 1;
          buf := buf[|buf| - keep..];
        }
        return false;
      }
      SkippedTo(maxDataSize, buf, at.value);
      if at.value > 0 {
        resyncs := resyncs + 1;
        buf := buf[at.value..];
      } else {
        assert buf[0..] == buf;
      }
      return true;
    }

    /** Cuts the next whole frame off the buffer, or finds that more bytes are needed. */
    method NextRaw() returns (raw: Option<seq<Byte>>)
      modifies this`buf, this`resyncs
      ensures resyncs >= old(resyncs)
      ensures var scan := SplitStream(maxDataSize, old(buf), false);
        && (raw.None? ==> Waits(scan, buf, resyncs - old(resyncs)))
        && (raw.Some? ==>
              |buf| < |old(buf)| &&
              scan == Prepend([raw.value], resyncs - old(resyncs), SplitStream(maxDataSize, buf, false)))
    {
      ghost var whole := SplitStream(maxDataSize, buf, false);
      while true
        invariant |buf| <= |old(buf)| && resyncs >= old(resyncs)
        invariant whole == Later(resyncs - old(resyncs), SplitStream(maxDataSize, buf, false))
        decreases |buf|
      {
        var found := SkipToSignature();
        if !found {
          break;
        }
        ghost var n := resyncs - old(resyncs);
        if |buf| < NPL_LEN {
          HeaderIncomplete(whole, n, maxDataSize, buf);
          break;
        }
        if !HeaderOk(maxDataSize, buf) {
          HeaderRejected(whole, n, maxDataSize, buf);
          resyncs := resyncs + 1;
          buf := buf[1..];
          continue;
        }
        var total := NPL_LEN + SizeField(buf);
        if |buf| < total {
          FrameIncomplete(whole, n, maxDataSize, buf);
          break;
        }
        FrameComplete(whole, n, maxDataSize, buf, total);
        raw := Some(buf[..total]);
        buf := buf[total..];
        return;
      }
      raw := None;
    }

    /** Decodes a cut frame, updating the counters. */
    method Decode(raw: seq<Byte>) returns (frame: Option<Frame>)
      modifies this`frames, this`crcErrors, this`parseErrors
      ensures var t := TallyOne(decode, raw);
        && (match frame case None => t.out == [] case Some(f) => t.out == [f])
        && frames == old(frames) + t.frames && crcErrors == old(crcErrors) + t.crcErrors
        && parseErrors == old(parseErrors) + t.parseErrors
    {
      match decode(raw) {
        case Ok(f) =>
          frames := frames + 1;
          if !f.crcOk {
            crcErrors := crcErrors + 1;
          }
          return Some(f);
        case _ =>
          parseErrors := parseErrors + 1;
          return None;
      }
    }

    /** Appends bytes of the stream and hands out the frames they complete, in order. */
    method Feed(data: seq<Byte>) returns (out: seq<Frame>)
      modifies this
      ensures var scan := SplitStream(maxDataSize, old(buf) + data, false);
        var t := TallyAll(decode, scan.raws);
        && buf == scan.rest && resyncs == old(resyncs) + scan.resyncs
        && out == t.out && frames == old(frames) + t.frames
        && crcErrors == old(crcErrors) + t.crcErrors && parseErrors == old(parseErrors) + t.parseErrors
      ensures |buf| < NPL_LEN + MaxInt(maxDataSize, 0)
    {
      buf := buf + data;
      out := [];
      ghost var whole, cut: seq<seq<Byte>>, sum := SplitStream(maxDataSize, buf, false), [], ZERO;
      ghost var sums := [ZERO];
      RestIsShort(maxDataSize, buf, false);
      PrependNone(0, whole);
      while true
        invariant resyncs >= old(resyncs)
        invariant whole == Prepend(cut, resyncs - old(resyncs), SplitStream(maxDataSize, buf, false))
        invariant Sums(decode, cut, sums) && sum == sums[|cut|]
        invariant out == sum.out && frames == old(frames) + sum.frames
        invariant crcErrors == old(crcErrors) + sum.crcErrors && parseErrors == old(parseErrors) + sum.parseErrors
        decreases |buf|
      {
        ghost var before, count := SplitStream(maxDataSize, buf, false), resyncs - old(resyncs);
        var raw := NextRaw();
        ghost var n := resyncs - old(resyncs) - count;
        if raw == None {
          FeedEnd(whole, cut, count, before, buf, n);
          SumsAll(decode, cut, sums);
          return;
        }
        FeedStep(whole, cut, count, before, raw.value, n, SplitStream(maxDataSize, buf, false));
        sum := Plus(sum, TallyOne(decode, raw.value));
        SumsMore(decode, cut, sums, raw.value, sum);
        cut, sums := cut + [raw.value], sums + [sum];
        var frame := Decode(raw.value);
        out := if frame.Some? then out + [frame.value] else out;
      }
    }
  }
}
