/** Resynchronisation, byte by byte: where in a stream the next frame begins, whatever lies before it. */
module Resync {
  import opened Bytes
  import opened Codec
  import opened Framing

  /** The bytes at position `i` can begin a frame: 7E 7E, a little-endian size from 10 to `max`, two bytes
      further on the checksum, and the type 2. */
  predicate Plausible(max: int, t: seq<Byte>, i: nat) {
    && i + 15 <= |t|
    && t[i] == 0x7E && t[i + 1] == 0x7E
    && 10 <= Val(t[i + 2]) + 256 * Val(t[i + 3]) <= max
    && Val(t[i + 8]) == 2
  }

  /** How long the frame that begins at `i` says it is. */
  function FrameLength(t: seq<Byte>, i: nat): nat
    requires i + 15 <= |t|
  {
    15 + Val(t[i + 2]) + 256 * Val(t[i + 3])
  }

  /** No position before `k` can begin a frame. */
  ghost predicate NoneBefore(max: int, t: seq<Byte>, k: nat) { forall i :: 0 <= i < k ==> !Plausible(max, t, i) }

  lemma InSuffix(max: int, t: seq<Byte>, k: nat)
    requires k <= |t|
    ensures Plausible(max, t[k..], 0) <==> Plausible(max, t, k)
    ensures k + 15 <= |t| ==> FrameLength(t[k..], 0) == FrameLength(t, k)
  {
  }

  lemma InPrefix(max: int, a: seq<Byte>, b: seq<Byte>, i: nat)
    requires i + 15 <= |a|
    ensures Plausible(max, a + b, i) <==> Plausible(max, a, i)
    ensures FrameLength(a + b, i) == FrameLength(a, i)
  {
  }

  /** A byte that begins no frame is dropped as soon as that can be seen. */
  lemma ByteDropped(max: int, s: seq<Byte>)
    requires |s| >= 15 && !Plausible(max, s, 0)
    ensures MoveOn(max, s).Garbage? || MoveOn(max, s).FalseHeader?
  {
  }

  lemma {:induction false} BytesDropped(max: int, t: seq<Byte>, k: nat, skipping: bool)
    requires k + 14 <= |t| && NoneBefore(max, t, k)
    ensures SplitStream(max, t, skipping).raws == SplitStream(max, t[k..], false).raws
    ensures SplitStream(max, t, skipping).rest == SplitStream(max, t[k..], false).rest
    decreases k
  {
    if k == 0 {
      assert t[0..] == t;
      FlagOnlyCounts(max, t, skipping);
    } else {
      assert !Plausible(max, t, 0);
      ByteDropped(max, t);
      forall i | 0 <= i < k - 1 ensures !Plausible(max, t[1..], i) {
        assert !Plausible(max, t, i + 1);
      }
      BytesDropped(max, t[1..], k - 1, MoveOn(max, t).Garbage?);
      assert t[1..][k - 1..] == t[k..];
    }
  }

  predicate SignatureAt(t: seq<Byte>, i: nat) { i + 1 < |t| && t[i] == 0x7E && t[i + 1] == 0x7E }

  /** What dropping the first `k` bytes counts: one for every signature that begins no frame, one for every
      run of other bytes. `skipping` says that the bytes before were such a run. */
  function Dropped(t: seq<Byte>, k: nat, skipping: bool): nat
    requires k <= |t|
    decreases k
  {
    if k == 0 then 0
    else if SignatureAt(t, 0) then 1 + Dropped(t[1..], k - 1, false)
    else (if skipping then 0 else 1) + Dropped(t[1..], k - 1, true)
  }

  lemma NoneBeforeTail(max: int, t: seq<Byte>, k: nat)
    requires k > 0 && Plausible(max, t, k) && NoneBefore(max, t, k)
    ensures NoneBefore(max, t[1..], k - 1) && Plausible(max, t[1..], k - 1) && t[1..][k - 1..] == t[k..]
  {
    forall i | 0 <= i < k - 1 ensures !Plausible(max, t[1..], i) {
      assert !Plausible(max, t, i + 1);
    }
  }

  lemma OneDropped(max: int, t: seq<Byte>, skipping: bool)
    requires |t| >= 15 && !Plausible(max, t, 0)
    ensures SplitStream(max, t, skipping).resyncs
         == (if skipping && !SignatureAt(t, 0) then 0 else 1) + SplitStream(max, t[1..], !SignatureAt(t, 0)).resyncs
  {
    ByteDropped(max, t);
  }

  lemma {:induction false} DroppedAreCounted(max: int, t: seq<Byte>, k: nat, skipping: bool)
    requires Plausible(max, t, k) && NoneBefore(max, t, k)
    ensures SplitStream(max, t, skipping).resyncs
         == Dropped(t, k, skipping) + SplitStream(max, t[k..], false).resyncs
    decreases k
  {
    if k == 0 {
      assert t[0..] == t;
      FlagOnlyCounts(max, t, skipping);
    } else {
      OneDropped(max, t, skipping);
      NoneBeforeTail(max, t, k);
      DroppedAreCounted(max, t[1..], k - 1, !SignatureAt(t, 0));
    }
  }

  lemma PlausibleMoves(max: int, s: seq<Byte>)
    requires Plausible(max, s, 0)
    ensures MoveOn(max, s) == if FrameLength(s, 0) <= |s| then Cut(FrameLength(s, 0)) else Wait
  {
  }

  lemma HeadIsNext(max: int, s: seq<Byte>, n: nat)
    requires Plausible(max, s, 0) && n == FrameLength(s, 0)
    ensures var scan := SplitStream(max, s, false);
      if n <= |s| then
        var tail := SplitStream(max, s[n..], false);
        scan.raws == [s[..n]] + tail.raws && scan.rest == tail.rest
      else scan.raws == [] && scan.rest == s
  {
    PlausibleMoves(max, s);
  }

  /** The first position that can begin a frame does: everything before it is dropped, and the frame is cut
      out once all its bytes are there. */
  lemma FirstPlausibleIsNext(max: int, t: seq<Byte>, k: nat, s: seq<Byte>, n: nat)
    requires Plausible(max, t, k) && NoneBefore(max, t, k) && s == t[k..] && n == FrameLength(t, k)
    ensures var scan := SplitStream(max, t, false);
      if n <= |s| then
        var tail := SplitStream(max, s[n..], false);
        scan.raws == [s[..n]] + tail.raws && scan.rest == tail.rest
      else scan.raws == [] && scan.rest == s
  {
    BytesDropped(max, t, k, false);
    InSuffix(max, t, k);
    HeadIsNext(max, s, n);
  }

  /** Where nothing can begin a frame nothing is cut out, and less than one header is kept. */
  lemma {:induction false} NothingPlausible(max: int, t: seq<Byte>, skipping: bool)
    requires NoneBefore(max, t, |t|)
    ensures SplitStream(max, t, skipping).raws == [] && |SplitStream(max, t, skipping).rest| < 15
    decreases |t|
  {
    if |t| >= 15 {
      ByteDropped(max, t);
    }
    if !MoveOn(max, t).Wait? {
      forall i | 0 <= i < |t| - 1 ensures !Plausible(max, t[1..], i) {
        assert !Plausible(max, t, i + 1);
      }
      NothingPlausible(max, t[1..], MoveOn(max, t).Garbage?);
    }
  }

  /** Nothing in `g` can begin a frame, not even together with what follows it. */
  ghost predicate Harmless(max: int, g: seq<Byte>, next: seq<Byte>) { NoneBefore(max, g + next, |g|) }

  lemma HarmlessWithMore(max: int, g: seq<Byte>, raw: seq<Byte>, tail: seq<Byte>)
    requires |raw| >= 15 && Harmless(max, g, raw)
    ensures Harmless(max, g, raw + tail)
  {
    assert g + (raw + tail) == (g + raw) + tail;
    forall i | 0 <= i < |g| ensures !Plausible(max, g + (raw + tail), i) {
      InPrefix(max, g + raw, tail, i);
    }
  }

  lemma PlausibleBehind(max: int, g: seq<Byte>, raw: seq<Byte>, tail: seq<Byte>)
    requires Plausible(max, raw, 0)
    ensures var t := g + (raw + tail);
      && t[|g|..] == raw + tail && Plausible(max, t, |g|) && FrameLength(t, |g|) == FrameLength(raw, 0)
  {
    var t := g + (raw + tail);
    assert t[|g|..] == raw + tail;
    InSuffix(max, t, |g|);
    InPrefix(max, raw, tail, 0);
  }

  /** A frame behind such bytes is cut out exactly, signatures among them or not. */
  lemma FrameFound(max: int, g: seq<Byte>, raw: seq<Byte>, tail: seq<Byte>)
    requires Plausible(max, raw, 0) && |raw| == FrameLength(raw, 0) && Harmless(max, g, raw)
    ensures var scan, after := SplitStream(max, g + (raw + tail), false), SplitStream(max, tail, false);
      scan.raws == [raw] + after.raws && scan.rest == after.rest
  {
    HarmlessWithMore(max, g, raw, tail);
    PlausibleBehind(max, g, raw, tail);
    FirstPlausibleIsNext(max, g + (raw + tail), |g|, raw + tail, |raw|);
    assert (raw + tail)[..|raw|] == raw && (raw + tail)[|raw|..] == tail;
  }
}
