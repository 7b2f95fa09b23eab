/** CRC-16/Modbus (MODBUS over Serial Line V1.02, section 6.2.2) and what it detects.

    The detection theorems are about the bit stream the register consumes: bytes in order,
    least significant bit first. The inductions run over an abstract register, so that the
    solver unfolds the polynomial only in the one-step lemmas. */
module Crc {
  import opened Bytes
  import opened Numbers

  const INIT: bv16 := 0xFFFF
  const POLY: bv16 := 0xA001

  /** One turn of the register. */
  function Shift(x: bv16): bv16 {
    if x & 1 == 1 then (x >> 1) ^ POLY else x >> 1
  }

  function Turns<R>(turn: R -> R, x: R, n: nat): R
    decreases n
  {
    if n == 0 then x else Turns(turn, turn(x), n - 1)
  }

  function Absorb(crc: bv16, b: Byte): bv16 {
    Turns(Shift, crc ^ (b as bv16), 8)
  }

  function Run(crc: bv16, data: seq<Byte>): bv16
    decreases |data|
  {
    if data == [] then crc else Run(Absorb(crc, data[0]), data[1..])
  }

  function Of(data: seq<Byte>): bv16 {
    Run(INIT, data)
  }

  /** The double loop over bytes and bits. */
  method Crc16Modbus(data: seq<Byte>) returns (crc: bv16)
    ensures crc == Of(data)
  {
    crc := INIT;
    for i := 0 to |data|
      invariant Run(crc, data[i..]) == Of(data)
    {
      ghost var absorbed := Absorb(crc, data[i]);
      assert data[i..][1..] == data[i + 1..];
      crc := crc ^ (data[i] as bv16);
      for j := 0 to 8
        invariant Turns(Shift, crc, 8 - j) == absorbed
      {
        crc := if crc & 1 == 1 then (crc >> 1) ^ POLY else crc >> 1;
      }
    }
  }

  // ---- the same register, one bit at a time ----

  function Step(x: bv16, b: bool): bv16 {
    Shift(x ^ (if b then 1 else 0))
  }

  function Feed<R>(step: (R, bool) -> R, x: R, bits: seq<bool>): R
    decreases |bits|
  {
    if bits == [] then x else Feed(step, step(x, bits[0]), bits[1..])
  }

  /** The `n` lowest bits of a word, lowest first, for any way to read and halve it. */
  function LowBits<W>(low: W -> bool, half: W -> W, w: W, n: nat): (bits: seq<bool>)
    ensures |bits| == n
    decreases n
  {
    if n == 0 then [] else [low(w)] + LowBits(low, half, half(w), n - 1)
  }

  function Low(w: bv16): bool { w & 1 == 1 }

  function Half(w: bv16): bv16 { w >> 1 }

  function Mix(x: bv16, w: bv16): bv16 { x ^ w }

  function ByteBits(b: Byte): (bits: seq<bool>)
    ensures |bits| == 8
  {
    LowBits(Low, Half, b as bv16, 8)
  }

  function Flat<T>(piece: T -> seq<bool>, data: seq<T>): seq<bool> {
    if data == [] then [] else piece(data[0]) + Flat(piece, data[1..])
  }

  /** The transmission order of `data`: bit `8 * i + j` is bit `j` of byte `i`. */
  function BitsOf(data: seq<Byte>): seq<bool> {
    Flat(ByteBits, data)
  }

  lemma TurnWithLowBit(x: bv16, w: bv16)
    requires w & 1 == 1
    ensures Shift(x ^ w) == Step(x, true) ^ (w >> 1)
  {
    if x & 1 == 1 {} else {}
  }

  lemma TurnWithoutLowBit(x: bv16, w: bv16)
    requires w & 1 != 1
    ensures Shift(x ^ w) == Step(x, false) ^ (w >> 1)
  {
    if x & 1 == 1 {} else {}
  }

  lemma TurnSplits(x: bv16, w: bv16, mixed: bv16, low: bool, half: bv16, stepped: bv16, result: bv16)
    requires mixed == x ^ w && low == (w & 1 == 1) && half == w >> 1
    requires stepped == Step(x, low) && result == stepped ^ half
    ensures Shift(mixed) == result
  {
    if low {
      TurnWithLowBit(x, w);
    } else {
      TurnWithoutLowBit(x, w);
    }
  }

  lemma NamesMean(x: bv16, w: bv16, mixed: bv16, low: bool, half: bv16, stepped: bv16, result: bv16)
    requires mixed == Mix(x, w) && low == Low(w) && half == Half(w) && result == Mix(stepped, half)
    ensures mixed == x ^ w && low == (w & 1 == 1) && half == w >> 1 && result == stepped ^ half
  {
  }

  lemma LowBitFirstNamed(x: bv16, w: bv16, mixed: bv16, low: bool, half: bv16, stepped: bv16, result: bv16)
    requires mixed == Mix(x, w) && low == Low(w) && half == Half(w)
    requires stepped == Step(x, low) && result == Mix(stepped, half)
    ensures Shift(mixed) == result
  {
    NamesMean(x, w, mixed, low, half, stepped, result);
    TurnSplits(x, w, mixed, low, half, stepped, result);
  }

  lemma LowBitFirstAt(r: bv16, v: bv16)
    ensures Shift(Mix(r, v)) == Mix(Step(r, Low(v)), Half(v))
  {
    LowBitFirstNamed(r, v, Mix(r, v), Low(v), Half(v), Step(r, Low(v)), Mix(Step(r, Low(v)), Half(v)));
  }

  lemma LowBitFirst()
    ensures forall r, v :: Shift(Mix(r, v)) == Mix(Step(r, Low(v)), Half(v))
  {
    forall r, v
      ensures Shift(Mix(r, v)) == Mix(Step(r, Low(v)), Half(v))
    {
      LowBitFirstAt(r, v);
    }
  }

  /** If a turn of a register with a word mixed in consumes exactly the word's low bit, then
      turning `n` times is feeding `n` bits. */
  lemma {:induction false} TurnsFeedBits<R(!new), W(!new)>(
      turn: R -> R, step: (R, bool) -> R, mix: (R, W) -> R, low: W -> bool, half: W -> W,
      x: R, w: W, n: nat)
    requires forall r, v :: turn(mix(r, v)) == mix(step(r, low(v)), half(v))
    requires forall r :: mix(r, Turns(half, w, n)) == r
    ensures Turns(turn, mix(x, w), n) == Feed(step, x, LowBits(low, half, w, n))
    decreases n
  {
    if n == 0 {
      assert mix(x, Turns(half, w, 0)) == x;
    } else {
      assert Turns(half, w, n) == Turns(half, half(w), n - 1);
      TurnsFeedBits(turn, step, mix, low, half, step(x, low(w)), half(w), n - 1);
      assert LowBits(low, half, w, n)[1..] == LowBits(low, half, half(w), n - 1);
    }
  }

  lemma {:induction false} TurnsSplit<R>(turn: R -> R, x: R, m: nat, n: nat)
    ensures Turns(turn, x, m + n) == Turns(turn, Turns(turn, x, m), n)
    decreases m
  {
    if m > 0 {
      TurnsSplit(turn, turn(x), m - 1, n);
    }
  }

  lemma FourHalves(w: bv16)
    ensures Turns(Half, w, 4) == w >> 4
  {
    calc {
      Turns(Half, w, 4);
      Turns(Half, w >> 1, 3);
      Turns(Half, (w >> 1) >> 1, 2);
      Turns(Half, ((w >> 1) >> 1) >> 1, 1);
      (((w >> 1) >> 1) >> 1) >> 1;
      w >> 4;
    }
  }

  lemma ByteRunsOut(b: Byte)
    ensures Turns(Half, b as bv16, 8) == 0
  {
    var w := b as bv16;
    TurnsSplit(Half, w, 4, 4);
    FourHalves(w);
    FourHalves(w >> 4);
    assert (w >> 4) >> 4 == 0;
  }

  lemma WordRunsOut(w: bv16)
    ensures Turns(Half, w, 16) == 0
  {
    TurnsSplit(Half, w, 4, 12);
    TurnsSplit(Half, w >> 4, 4, 8);
    TurnsSplit(Half, (w >> 4) >> 4, 4, 4);
    FourHalves(w);
    FourHalves(w >> 4);
    FourHalves((w >> 4) >> 4);
    FourHalves(((w >> 4) >> 4) >> 4);
    assert (((w >> 4) >> 4) >> 4) >> 4 == 0;
  }

  lemma AbsorbIsBitSerial(x: bv16, b: Byte)
    ensures Absorb(x, b) == Feed(Step, x, ByteBits(b))
  {
    LowBitFirst();
    ByteRunsOut(b);
    MixZero();
    TurnsFeedBits(Shift, Step, Mix, Low, Half, x, b as bv16, 8);
  }

  lemma MixZero()
    ensures forall x :: Mix(x, 0) == x
  {
  }

  lemma {:induction false} FeedConcat<R>(step: (R, bool) -> R, x: R, a: seq<bool>, b: seq<bool>)
    ensures Feed(step, x, a + b) == Feed(step, Feed(step, x, a), b)
    decreases |a|
  {
    if a == [] {
      assert a + b == b;
    } else {
      assert (a + b)[1..] == a[1..] + b;
      FeedConcat(step, step(x, a[0]), a[1..], b);
    }
  }

  /** The byte loop computes the bit-serial register. */
  lemma {:induction false} RunIsBitSerial(x: bv16, data: seq<Byte>)
    ensures Run(x, data) == Feed(Step, x, BitsOf(data))
    decreases |data|
  {
    if data != [] {
      AbsorbIsBitSerial(x, data[0]);
      FeedConcat(Step, x, ByteBits(data[0]), BitsOf(data[1..]));
      RunIsBitSerial(Absorb(x, data[0]), data[1..]);
    }
  }

  // ---- bursts ----

  /** The register before a turn: the polynomial sets the top bit, so the top bit tells it was added. */
  function Unshift(w: bv16): bv16 {
    if w >= 0x8000 then ((w ^ POLY) << 1) | 1 else w << 1
  }

  lemma OddBack(u: bv16)
    requires u & 1 == 1
    ensures (u >> 1) ^ POLY >= 0x8000 && (((u >> 1) ^ POLY ^ POLY) << 1) | 1 == u
  {
  }

  lemma EvenBack(u: bv16)
    requires u & 1 != 1
    ensures u >> 1 < 0x8000 && (u >> 1) << 1 == u
  {
  }

  lemma UnshiftShift(u: bv16)
    ensures Unshift(Shift(u)) == u
  {
    if u & 1 == 1 {
      OddBack(u);
    } else {
      EvenBack(u);
    }
  }

  lemma Injective<R, S>(f: R -> S, back: S -> R, x: R, y: R)
    requires back(f(x)) == x && back(f(y)) == y && x != y
    ensures f(x) != f(y)
  {
  }

  lemma ShiftSeparates(u: bv16, v: bv16)
    requires u != v
    ensures Shift(u) != Shift(v)
  {
    UnshiftShift(u);
    UnshiftShift(v);
    Injective(Shift, Unshift, u, v);
  }

  lemma FlipSeparates(x: bv16, y: bv16)
    requires x != y
    ensures x ^ 1 != y ^ 1 && x ^ 0 != y ^ 0
  {
  }

  lemma StepSeparates(x: bv16, y: bv16, b: bool)
    requires x != y
    ensures Step(x, b) != Step(y, b)
  {
    FlipSeparates(x, y);
    if b {
      ShiftSeparates(x ^ 1, y ^ 1);
    } else {
      ShiftSeparates(x ^ 0, y ^ 0);
    }
  }

  lemma {:induction false} SameBitsKeepApart<R(!new)>(step: (R, bool) -> R, x: R, y: R, bits: seq<bool>)
    requires forall r, s, b :: r != s ==> step(r, b) != step(s, b)
    requires x != y
    ensures Feed(step, x, bits) != Feed(step, y, bits)
    decreases |bits|
  {
    if bits != [] {
      SameBitsKeepApart(step, step(x, bits[0]), step(y, bits[0]), bits[1..]);
    }
  }

  /** The highest differing bit is no lower than the highest set bit of `t`. */
  predicate Apart(x: bv16, y: bv16, t: bv16) {
    x ^ y >= t
  }

  lemma LowBitDrops(x: bv16)
    ensures (x ^ 1) >> 1 == x >> 1 && (x ^ 0) >> 1 == x >> 1
  {
  }

  /** A step halves the register and may add the polynomial. */
  lemma StepForm(x: bv16, b: bool)
    ensures Step(x, b) == x >> 1 || Step(x, b) == (x >> 1) ^ POLY
  {
    LowBitDrops(x);
    if b {
    } else {
    }
  }

  lemma HalfOfXor(x: bv16, y: bv16)
    ensures (x >> 1) ^ (y >> 1) == (x ^ y) >> 1
  {
  }

  lemma HalfMonotone(g: bv16, t: bv16)
    requires g >= t
    ensures g >> 1 >= t >> 1
  {
  }

  lemma NeitherAdds(x: bv16, y: bv16, t: bv16)
    requires x ^ y >= t
    ensures (x >> 1) ^ (y >> 1) >= t >> 1
  {
    HalfOfXor(x, y);
    HalfMonotone(x ^ y, t);
  }

  lemma OneAdds(x: bv16, y: bv16, t: bv16)
    ensures ((x >> 1) ^ POLY) ^ (y >> 1) >= t >> 1
    ensures (x >> 1) ^ ((y >> 1) ^ POLY) >= t >> 1
  {
  }

  lemma BothAdd(a: bv16, b: bv16)
    ensures (a ^ POLY) ^ (b ^ POLY) == a ^ b
  {
  }

  lemma HalvesApart(x: bv16, y: bv16, t: bv16, u: bv16, v: bv16)
    requires x ^ y >= t
    requires u == x >> 1 || u == (x >> 1) ^ POLY
    requires v == y >> 1 || v == (y >> 1) ^ POLY
    ensures u ^ v >= t >> 1
  {
    if u == x >> 1 {
      if v == y >> 1 {
        NeitherAdds(x, y, t);
      } else {
        OneAdds(x, y, t);
      }
    } else if v == y >> 1 {
      OneAdds(x, y, t);
    } else {
      BothAdd(x >> 1, y >> 1);
      NeitherAdds(x, y, t);
    }
  }

  lemma StepsApart(x: bv16, y: bv16, p: bool, q: bool, t: bv16, u: bv16, v: bv16)
    requires x ^ y >= t && u == Step(x, p) && v == Step(y, q)
    ensures u ^ v >= t >> 1
  {
    StepForm(x, p);
    StepForm(y, q);
    HalvesApart(x, y, t, u, v);
  }

  lemma ApartNamed(u: bv16, v: bv16, t: bv16, half: bv16)
    requires u ^ v >= t >> 1 && half == Half(t)
    ensures Apart(u, v, half)
  {
  }

  lemma GapNamed(x: bv16, y: bv16, p: bool, q: bool, t: bv16, u: bv16, v: bv16, half: bv16)
    requires Apart(x, y, t) && u == Step(x, p) && v == Step(y, q) && half == Half(t)
    ensures Apart(u, v, half)
  {
    StepsApart(x, y, p, q, t, u, v);
    ApartNamed(u, v, t, half);
  }

  lemma GapHalves(x: bv16, y: bv16, p: bool, q: bool, t: bv16)
    requires Apart(x, y, t)
    ensures Apart(Step(x, p), Step(y, q), Half(t))
  {
    GapNamed(x, y, p, q, t, Step(x, p), Step(y, q), Half(t));
  }

  /** Whatever bits arrive, one bit lowers the bound on the gap by at most one `lower`. */
  ghost predicate Fades<R(!new), T(!new)>(step: (R, bool) -> R, apart: (R, R, T) -> bool, lower: T -> T) {
    forall r, s, p, q, t {:trigger apart(step(r, p), step(s, q), lower(t))} ::
      apart(r, s, t) ==> apart(step(r, p), step(s, q), lower(t))
  }

  lemma GapFades()
    ensures Fades(Step, Apart, Half)
  {
    forall r, s, p, q, t | Apart(r, s, t)
      ensures Apart(Step(r, p), Step(s, q), Half(t))
    {
      GapHalves(r, s, p, q, t);
    }
  }

  lemma FadeOnce<R(!new), T(!new)>(
      step: (R, bool) -> R, apart: (R, R, T) -> bool, lower: T -> T, x: R, y: R, p: bool, q: bool, t: T)
    requires Fades(step, apart, lower) && apart(x, y, t)
    ensures apart(step(x, p), step(y, q), lower(t))
  {
  }

  lemma {:induction false} AnyBitsKeepApart<R(!new), T(!new)>(
      step: (R, bool) -> R, apart: (R, R, T) -> bool, lower: T -> T, x: R, y: R, a: seq<bool>, b: seq<bool>, t: T)
    requires Fades(step, apart, lower) && |a| == |b| && apart(x, y, t)
    ensures apart(Feed(step, x, a), Feed(step, y, b), Turns(lower, t, |a|))
    decreases |a|
  {
    if a != [] {
      FadeOnce(step, apart, lower, x, y, a[0], b[0], t);
      AnyBitsKeepApart(step, apart, lower, step(x, a[0]), step(y, b[0]), a[1..], b[1..], lower(t));
    }
  }

  lemma TopBitLasts(n: nat)
    requires n <= 15
    ensures Turns(Half, 0x8000, n) != 0
  {
    var low := Turns(Half, 0x8000, n);
    TurnsSplit(Half, 0x8000, n, 15 - n);
    TurnsSplit(Half, 0x8000, 4, 11);
    TurnsSplit(Half, 0x800, 4, 7);
    TurnsSplit(Half, 0x80, 4, 3);
    FourHalves(0x8000);
    FourHalves(0x800);
    FourHalves(0x80);
    assert Turns(Half, 8, 3) == Turns(Half, 4, 2) == Turns(Half, 2, 1) == 1;
    if low == 0 {
      ZeroStays(15 - n);
    }
  }

  lemma {:induction false} ZeroStays(n: nat)
    ensures Turns(Half, 0, n) == 0
    decreases n
  {
    if n > 0 {
      ZeroStays(n - 1);
    }
  }

  lemma SeparateForever(x: bv16, y: bv16, bits: seq<bool>)
    requires x != y
    ensures Feed(Step, x, bits) != Feed(Step, y, bits)
  {
    forall r: bv16, s: bv16, b | r != s
      ensures Step(r, b) != Step(s, b)
    {
      StepSeparates(r, s, b);
    }
    SameBitsKeepApart(Step, x, y, bits);
  }

  lemma FirstDifference(x: bv16, p: bool)
    ensures Apart(Step(x, p), Step(x, !p), 0x8000)
  {
    if x & 1 == 1 {} else {}
  }

  lemma ApartDiffers(x: bv16, y: bv16, t: bv16)
    requires Apart(x, y, t) && t != 0
    ensures x != y
  {
  }

  lemma {:induction false} BurstSeparates(x: bv16, a: seq<bool>, b: seq<bool>)
    requires |a| == |b| <= 16 && a != b
    ensures Feed(Step, x, a) != Feed(Step, x, b)
    decreases |a|
  {
    var u, v := Step(x, a[0]), Step(x, b[0]);
    if a[0] == b[0] {
      BurstSeparates(u, a[1..], b[1..]);
    } else {
      FirstDifference(x, a[0]);
      GapFades();
      AnyBitsKeepApart(Step, Apart, Half, u, v, a[1..], b[1..], 0x8000);
      TopBitLasts(|a| - 1);
      ApartDiffers(Feed(Step, u, a[1..]), Feed(Step, v, b[1..]), Turns(Half, 0x8000, |a| - 1));
    }
  }

  /** Two bit strings that differ only inside the window `[from, from + 16)`. */
  predicate DifferInBurst(a: seq<bool>, b: seq<bool>, from: nat) {
    |a| == |b| && a != b && forall i :: 0 <= i < |a| && !(from <= i < from + 16) ==> a[i] == b[i]
  }

  lemma BurstChangesRegister(x: bv16, a: seq<bool>, b: seq<bool>, from: nat)
    requires DifferInBurst(a, b, from)
    ensures Feed(Step, x, a) != Feed(Step, x, b)
  {
    var lo, hi := MinInt(from, |a|), MinInt(from + 16, |a|);
    var before, after := a[..lo], a[hi..];
    var u, v := a[lo..hi], b[lo..hi];
    assert before == b[..lo] && after == b[hi..];
    assert a == before + (u + after) && b == before + (v + after);
    assert u != v;
    var y := Feed(Step, x, before);
    FeedConcat(Step, x, before, u + after);
    FeedConcat(Step, x, before, v + after);
    FeedConcat(Step, y, u, after);
    FeedConcat(Step, y, v, after);
    BurstSeparates(y, u, v);
    SeparateForever(Feed(Step, y, u), Feed(Step, y, v), after);
  }

  /** Every change confined to sixteen consecutive bits of the message changes the checksum,
      whatever the length of the message and wherever the sixteen bits lie. */
  lemma BurstDetected(a: seq<Byte>, b: seq<Byte>, from: nat)
    requires DifferInBurst(BitsOf(a), BitsOf(b), from)
    ensures Of(a) != Of(b)
  {
    RunIsBitSerial(INIT, a);
    RunIsBitSerial(INIT, b);
    BurstChangesRegister(INIT, BitsOf(a), BitsOf(b), from);
  }

  // ---- parity ----

  function Xor(p: bool, q: bool): bool { p != q }

  /** Whether an odd number of bits is set. */
  function OddBits(bits: seq<bool>): bool {
    bits != [] && Xor(bits[0], OddBits(bits[1..]))
  }

  function OddWord(x: bv16): bool {
    OddBits(LowBits(Low, Half, x, 16))
  }

  /** Adding words adds their bits. */
  ghost predicate Bitwise<W(!new)>(low: W -> bool, half: W -> W, add: (W, W) -> W) {
    && (forall u, v {:trigger low(add(u, v))} :: low(add(u, v)) == Xor(low(u), low(v)))
    && (forall u, v {:trigger half(add(u, v))} :: half(add(u, v)) == add(half(u), half(v)))
  }

  lemma {:induction false} OddOfSum<W(!new)>(
      low: W -> bool, half: W -> W, add: (W, W) -> W, x: W, y: W, n: nat)
    requires Bitwise(low, half, add)
    ensures OddBits(LowBits(low, half, add(x, y), n))
         == Xor(OddBits(LowBits(low, half, x, n)), OddBits(LowBits(low, half, y, n)))
    decreases n
  {
    if n > 0 {
      OddOfSum(low, half, add, half(x), half(y), n - 1);
      FirstLowBit(low, half, x, n);
      FirstLowBit(low, half, y, n);
      FirstLowBit(low, half, add(x, y), n);
    }
  }

  lemma FirstLowBit<W>(low: W -> bool, half: W -> W, w: W, n: nat)
    requires n > 0
    ensures OddBits(LowBits(low, half, w, n)) == Xor(low(w), OddBits(LowBits(low, half, half(w), n - 1)))
  {
    assert LowBits(low, half, w, n)[1..] == LowBits(low, half, half(w), n - 1);
  }

  lemma {:induction false} LastBitZero<W>(low: W -> bool, half: W -> W, w: W, n: nat)
    requires !low(Turns(half, w, n))
    ensures OddBits(LowBits(low, half, w, n + 1)) == OddBits(LowBits(low, half, w, n))
    decreases n
  {
    FirstLowBit(low, half, w, n + 1);
    if n > 0 {
      FirstLowBit(low, half, w, n);
      LastBitZero(low, half, half(w), n - 1);
    } else {
      assert LowBits(low, half, half(w), 0) == [];
    }
  }

  lemma HalfParity(x: bv16)
    ensures OddWord(x) == Xor(Low(x), OddWord(Half(x)))
  {
    WordRunsOut(x);
    assert Turns(Half, x, 16) == Turns(Half, Half(x), 15);
    LastBitZero(Low, Half, Half(x), 15);
    FirstLowBit(Low, Half, x, 16);
  }

  lemma MixLow(x: bv16, y: bv16)
    ensures Low(Mix(x, y)) == Xor(Low(x), Low(y))
  {
  }

  lemma MixHalf(x: bv16, y: bv16)
    ensures Half(Mix(x, y)) == Mix(Half(x), Half(y))
  {
  }

  lemma MixLowEverywhere()
    ensures forall u, v {:trigger Low(Mix(u, v))} :: Low(Mix(u, v)) == Xor(Low(u), Low(v))
  {
    forall u, v
      ensures Low(Mix(u, v)) == Xor(Low(u), Low(v))
    {
      MixLow(u, v);
    }
  }

  lemma MixHalfEverywhere()
    ensures forall u, v {:trigger Half(Mix(u, v))} :: Half(Mix(u, v)) == Mix(Half(u), Half(v))
  {
    forall u, v
      ensures Half(Mix(u, v)) == Mix(Half(u), Half(v))
    {
      MixHalf(u, v);
    }
  }

  lemma MixIsBitwise()
    ensures Bitwise(Low, Half, Mix)
  {
    MixLowEverywhere();
    MixHalfEverywhere();
  }

  lemma SumParity(x: bv16, y: bv16)
    ensures OddWord(Mix(x, y)) == Xor(OddWord(x), OddWord(y))
  {
    MixIsBitwise();
    OddOfSum(Low, Half, Mix, x, y, 16);
  }

  lemma ZeroParity()
    ensures !OddWord(0)
  {
    SumParity(0, 0);
    assert Mix(0, 0) == 0;
  }

  lemma PolyParity()
    ensures OddWord(POLY) && OddWord(1)
  {
    ZeroParity();
    HalfParity(0xA001); HalfParity(0x5000); HalfParity(0x2800); HalfParity(0x1400);
    HalfParity(0xA00); HalfParity(0x500); HalfParity(0x280); HalfParity(0x140);
    HalfParity(0xA0); HalfParity(0x50); HalfParity(0x28); HalfParity(0x14);
    HalfParity(0xA); HalfParity(0x5); HalfParity(0x2); HalfParity(0x1);
  }

  lemma InitParity()
    ensures !OddWord(INIT)
  {
    ZeroParity();
    HalfParity(0xFFFF); HalfParity(0x7FFF); HalfParity(0x3FFF); HalfParity(0x1FFF);
    HalfParity(0xFFF); HalfParity(0x7FF); HalfParity(0x3FF); HalfParity(0x1FF);
    HalfParity(0xFF); HalfParity(0x7F); HalfParity(0x3F); HalfParity(0x1F);
    HalfParity(0xF); HalfParity(0x7); HalfParity(0x3); HalfParity(0x1);
  }

  /** The polynomial has an odd number of set bits, so a turn keeps the parity. */
  lemma ShiftParity(x: bv16)
    ensures OddWord(Shift(x)) == OddWord(x)
  {
    HalfParity(x);
    PolyParity();
    SumParity(Half(x), POLY);
  }

  lemma StepParity(x: bv16, b: bool)
    ensures OddWord(Step(x, b)) == Xor(OddWord(x), b)
  {
    if b {
      PolyParity();
      SumParity(x, 1);
      ShiftParity(Mix(x, 1));
    } else {
      MixZero();
      ShiftParity(Mix(x, 0));
    }
  }

  /** Every bit fed in flips the parity if it is set. */
  ghost predicate CountsBits<R(!new)>(step: (R, bool) -> R, odd: R -> bool) {
    forall r, b :: odd(step(r, b)) == Xor(odd(r), b)
  }

  lemma {:induction false} FeedParity<R(!new)>(step: (R, bool) -> R, odd: R -> bool, x: R, bits: seq<bool>)
    requires CountsBits(step, odd)
    ensures odd(Feed(step, x, bits)) == Xor(odd(x), OddBits(bits))
    decreases |bits|
  {
    if bits != [] {
      FeedParity(step, odd, step(x, bits[0]), bits[1..]);
    }
  }

  lemma StepCountsBits()
    ensures CountsBits(Step, OddWord)
  {
    forall r, b
      ensures OddWord(Step(r, b)) == Xor(OddWord(r), b)
    {
      StepParity(r, b);
    }
  }

  /** The checksum has odd parity exactly when the message has. */
  lemma ChecksumParity(data: seq<Byte>)
    ensures OddWord(Of(data)) == OddBits(BitsOf(data))
  {
    StepCountsBits();
    InitParity();
    RunIsBitSerial(INIT, data);
    FeedParity(Step, OddWord, INIT, BitsOf(data));
  }
}
