/** That the checksum is CRC-16/Modbus: its check value, and its polynomial in the coefficients of the
    register. */
module Modbus {
  import opened Bytes
  import opened Codec
  import opened Crc
  import opened Detection

  // ---- the polynomial ----

  /** The coefficients of the register, that of x^15 first: the register is reflected, its lowest bit is x^15. */
  function Coefficients(x: bv16): (bits: seq<bool>)
    ensures |bits| == 16
  {
    LowBits(Low, Half, x, 16)
  }

  lemma {:induction false} BitsOfSum<W(!new)>(
      low: W -> bool, half: W -> W, add: (W, W) -> W, x: W, y: W, n: nat, i: nat)
    requires Bitwise(low, half, add) && i < n
    ensures LowBits(low, half, add(x, y), n)[i] == Xor(LowBits(low, half, x, n)[i], LowBits(low, half, y, n)[i])
    decreases n
  {
    assert low(add(x, y)) == Xor(low(x), low(y)) && half(add(x, y)) == add(half(x), half(y));
    if i > 0 {
      BitsOfSum(low, half, add, half(x), half(y), n - 1, i - 1);
    }
  }

  lemma {:induction false} MoreBits<W>(low: W -> bool, half: W -> W, w: W, n: nat)
    ensures LowBits(low, half, w, n + 1)[..n] == LowBits(low, half, w, n)
    decreases n
  {
    if n > 0 {
      MoreBits(low, half, half(w), n - 1);
    }
  }

  lemma {:induction false} LastBit<W>(turn: W -> W, low: W -> bool, w: W, n: nat)
    ensures LowBits(low, turn, w, n + 1)[n] == low(Turns(turn, w, n))
    decreases n
  {
    assert LowBits(low, turn, w, n + 1) == [low(w)] + LowBits(low, turn, turn(w), n);
    if n > 0 {
      LastBit(turn, low, turn(w), n - 1);
    }
  }

  /** Halving moves every coefficient up by one. */
  lemma HalvedCoefficients(x: bv16, i: nat)
    requires i < 16
    ensures Coefficients(Half(x))[i] <==> i < 15 && Coefficients(x)[i + 1]
  {
    if i < 15 {
      MoreBits(Low, Half, Half(x), 15);
      assert Coefficients(x)[1..] == LowBits(Low, Half, Half(x), 15);
    } else {
      LastBit(Half, Low, Half(x), 15);
      WordRunsOut(x);
      assert Turns(Half, x, 16) == Turns(Half, Half(x), 15);
    }
  }

  lemma PolyHalves()
    ensures Half(0xA001) == 0x5000 && Low(0xA001) == true
    ensures Half(0x5000) == 0x2800 && Low(0x5000) == false
    ensures Half(0x2800) == 0x1400 && Low(0x2800) == false
    ensures Half(0x1400) == 0xA00 && Low(0x1400) == false
    ensures Half(0xA00) == 0x500 && Low(0xA00) == false
    ensures Half(0x500) == 0x280 && Low(0x500) == false
    ensures Half(0x280) == 0x140 && Low(0x280) == false
    ensures Half(0x140) == 0xA0 && Low(0x140) == false
    ensures Half(0xA0) == 0x50 && Low(0xA0) == false
    ensures Half(0x50) == 0x28 && Low(0x50) == false
    ensures Half(0x28) == 0x14 && Low(0x28) == false
    ensures Half(0x14) == 0xA && Low(0x14) == false
    ensures Half(0xA) == 0x5 && Low(0xA) == false
    ensures Half(0x5) == 0x2 && Low(0x5) == true
    ensures Half(0x2) == 0x1 && Low(0x2) == false
    ensures Half(0x1) == 0x0 && Low(0x1) == true
  {
  }

  lemma PolyBits()
    ensures Coefficients(POLY)
         == [true, false, false, false, false, false, false, false]
          + [false, false, false, false, false, true, false, true]
  {
    PolyHalves();
    assert LowBits(Low, Half, 0x1, 1) == [true] + LowBits(Low, Half, 0x0, 0);
    assert LowBits(Low, Half, 0x2, 2) == [false] + LowBits(Low, Half, 0x1, 1);
    assert LowBits(Low, Half, 0x5, 3) == [true] + LowBits(Low, Half, 0x2, 2);
    assert LowBits(Low, Half, 0xA, 4) == [false] + LowBits(Low, Half, 0x5, 3);
    assert LowBits(Low, Half, 0x14, 5) == [false] + LowBits(Low, Half, 0xA, 4);
    assert LowBits(Low, Half, 0x28, 6) == [false] + LowBits(Low, Half, 0x14, 5);
    assert LowBits(Low, Half, 0x50, 7) == [false] + LowBits(Low, Half, 0x28, 6);
    assert LowBits(Low, Half, 0xA0, 8) == [false] + LowBits(Low, Half, 0x50, 7);
    assert LowBits(Low, Half, 0x140, 9) == [false] + LowBits(Low, Half, 0xA0, 8);
    assert LowBits(Low, Half, 0x280, 10) == [false] + LowBits(Low, Half, 0x140, 9);
    assert LowBits(Low, Half, 0x500, 11) == [false] + LowBits(Low, Half, 0x280, 10);
    assert LowBits(Low, Half, 0xA00, 12) == [false] + LowBits(Low, Half, 0x500, 11);
    assert LowBits(Low, Half, 0x1400, 13) == [false] + LowBits(Low, Half, 0xA00, 12);
    assert LowBits(Low, Half, 0x2800, 14) == [false] + LowBits(Low, Half, 0x1400, 13);
    assert LowBits(Low, Half, 0x5000, 15) == [false] + LowBits(Low, Half, 0x2800, 14);
    assert LowBits(Low, Half, 0xA001, 16) == [true] + LowBits(Low, Half, 0x5000, 15);
  }

  lemma PolyCoefficients(i: nat)
    requires i < 16
    ensures Coefficients(POLY)[i] <==> i == 0 || i == 13 || i == 15
  {
    PolyBits();
  }

  lemma MovesUp(turned: bool, half: bool, above: bool, low: bool, i: nat, k: nat)
    requires k < 16 && i == 15 - k && (half <==> above) && (above ==> i < 15)
    requires turned == Xor(half, low && (i == 0 || i == 13 || i == 15))
    ensures turned == Xor(k > 0 && above, low && (k == 15 || k == 2 || k == 0))
  {
  }

  /** A turn of the register multiplies by x modulo x^16 + x^15 + x^2 + 1: every coefficient moves up by one, and
      the one that becomes that of x^16 is added to those of x^15, x^2 and 1. */
  lemma TurnTimesX(x: bv16, k: nat)
    requires k < 16
    ensures Coefficients(Shift(x))[15 - k] ==
              Xor(k > 0 && Coefficients(x)[15 - (k - 1)], Coefficients(x)[0] && (k == 15 || k == 2 || k == 0))
  {
    var i := 15 - k;
    TurnOf(x, Half(x), Low(x), Shift(x));
    HalvedCoefficients(x, i);
    LowIsFirst(x);
    TurnAdds(Half(x), Low(x), Shift(x), i);
    MovesUp(Coefficients(Shift(x))[i], Coefficients(Half(x))[i], i < 15 && Coefficients(x)[i + 1], Low(x), i, k);
  }

  lemma LowIsFirst(x: bv16)
    ensures Coefficients(x)[0] == Low(x)
  {
  }

  lemma TurnAdds(half: bv16, low: bool, turned: bv16, i: nat)
    requires i < 16 && turned == if low then Mix(half, POLY) else half
    ensures Coefficients(turned)[i] == Xor(Coefficients(half)[i], low && (i == 0 || i == 13 || i == 15))
  {
    PolyCoefficients(i);
    MixIsBitwise();
    BitsOfSum(Low, Half, Mix, half, POLY, 16, i);
  }

  /** Registers with the same coefficients are equal, so this fixes the turn. */
  lemma CoefficientsDetermine(x: bv16, y: bv16)
    requires Coefficients(x) == Coefficients(y)
    ensures x == y
  {
    WordRunsOut(x);
    WordRunsOut(y);
    forall u: bv16, v: bv16 | Low(u) == Low(v) && Half(u) == Half(v)
      ensures u == v
    {
      HalvesDetermine(u, v);
    }
    BitsDetermine(Low, Half, x, y, 16);
  }

  lemma Rearranged(a: bv16, b: bv16, p: bv16)
    ensures (a ^ p) ^ b == (a ^ b) ^ p && a ^ (b ^ p) == (a ^ b) ^ p && (a ^ p) ^ (b ^ p) == a ^ b
  {
  }

  lemma SumTurns(x: bv16, y: bv16, z: bv16, a: bv16, b: bv16)
    requires z == x ^ y && a == x >> 1 && b == y >> 1
    ensures z >> 1 == a ^ b && (z & 1 == 1) == Xor(x & 1 == 1, y & 1 == 1)
  {
  }

  lemma TurnOf(x: bv16, a: bv16, low: bool, turned: bv16)
    requires a == x >> 1 && low == (x & 1 == 1) && turned == Shift(x)
    ensures turned == (if low then a ^ POLY else a) == if low then Mix(a, POLY) else a
  {
  }

  lemma TurnSums(a: bv16, b: bv16, p: bool, q: bool, u: bv16, v: bv16, w: bv16)
    requires u == (if p then a ^ POLY else a) && v == (if q then b ^ POLY else b)
    requires w == if Xor(p, q) then (a ^ b) ^ POLY else a ^ b
    ensures w == u ^ v
  {
    Rearranged(a, b, POLY);
  }

  lemma TurnLinearNamed(x: bv16, y: bv16, z: bv16, u: bv16, v: bv16, w: bv16)
    requires z == x ^ y && u == Shift(x) && v == Shift(y) && w == Shift(z)
    ensures w == u ^ v
  {
    var a, b, p, q := x >> 1, y >> 1, x & 1 == 1, y & 1 == 1;
    SumTurns(x, y, z, a, b);
    TurnOf(x, a, p, u);
    TurnOf(y, b, q, v);
    TurnOf(z, a ^ b, Xor(p, q), w);
    TurnSums(a, b, p, q, u, v, w);
  }

  /** The register is linear over exclusive or. */
  lemma TurnLinear(x: bv16, y: bv16)
    ensures Shift(x ^ y) == Shift(x) ^ Shift(y)
  {
    TurnLinearNamed(x, y, x ^ y, Shift(x), Shift(y), Shift(x ^ y));
  }

  // ---- the check value ----

  lemma EightTurns(
      x0: bv16, x1: bv16, x2: bv16, x3: bv16, x4: bv16, x5: bv16, x6: bv16, x7: bv16, x8: bv16)
    requires Shift(x0) == x1 && Shift(x1) == x2 && Shift(x2) == x3 && Shift(x3) == x4
    requires Shift(x4) == x5 && Shift(x5) == x6 && Shift(x6) == x7 && Shift(x7) == x8
    ensures Turns(Shift, x0, 8) == x8
  {
    assert Turns(Shift, x4, 4) == x8;
  }

  lemma Digit1()
    ensures Absorb(0xFFFF, 0x31) == 0x947E
  {
    assert (0xFFFF as bv16) ^ (0x31 as bv16) == 0xFFCE;
    EightTurns(0xFFCE, 0x7FE7, 0x9FF2, 0x4FF9, 0x87FD, 0xE3FF, 0xD1FE, 0x68FF, 0x947E);
  }

  lemma Digit2()
    ensures Absorb(0x947E, 0x32) == 0xF595
  {
    assert (0x947E as bv16) ^ (0x32 as bv16) == 0x944C;
    EightTurns(0x944C, 0x4A26, 0x2513, 0xB288, 0x5944, 0x2CA2, 0x1651, 0xAB29, 0xF595);
  }

  lemma Digit3()
    ensures Absorb(0xF595, 0x33) == 0x7A75
  {
    assert (0xF595 as bv16) ^ (0x33 as bv16) == 0xF5A6;
    EightTurns(0xF5A6, 0x7AD3, 0x9D68, 0x4EB4, 0x275A, 0x13AD, 0xA9D7, 0xF4EA, 0x7A75);
  }

  lemma Digit4()
    ensures Absorb(0x7A75, 0x34) == 0x30BA
  {
    assert (0x7A75 as bv16) ^ (0x34 as bv16) == 0x7A41;
    EightTurns(0x7A41, 0x9D21, 0xEE91, 0xD749, 0xCBA5, 0xC5D3, 0xC2E8, 0x6174, 0x30BA);
  }

  lemma Digit5()
    ensures Absorb(0x30BA, 0x35) == 0xA471
  {
    assert (0x30BA as bv16) ^ (0x35 as bv16) == 0x308F;
    EightTurns(0x308F, 0xB846, 0x5C23, 0x8E10, 0x4708, 0x2384, 0x11C2, 0x8E1, 0xA471);
  }

  lemma Digit6()
    ensures Absorb(0xA471, 0x36) == 0x32E4
  {
    assert (0xA471 as bv16) ^ (0x36 as bv16) == 0xA447;
    EightTurns(0xA447, 0xF222, 0x7911, 0x9C89, 0xEE45, 0xD723, 0xCB90, 0x65C8, 0x32E4);
  }

  lemma Digit7()
    ensures Absorb(0x32E4, 0x37) == 0x9D73
  {
    assert (0x32E4 as bv16) ^ (0x37 as bv16) == 0x32D3;
    EightTurns(0x32D3, 0xB968, 0x5CB4, 0x2E5A, 0x172D, 0xAB97, 0xF5CA, 0x7AE5, 0x9D73);
  }

  lemma Digit8()
    ensures Absorb(0x9D73, 0x38) == 0x37DD
  {
    assert (0x9D73 as bv16) ^ (0x38 as bv16) == 0x9D4B;
    EightTurns(0x9D4B, 0xEEA4, 0x7752, 0x3BA9, 0xBDD5, 0xFEEB, 0xDF74, 0x6FBA, 0x37DD);
  }

  lemma Digit9()
    ensures Absorb(0x37DD, 0x39) == 0x4B37
  {
    assert (0x37DD as bv16) ^ (0x39 as bv16) == 0x37E4;
    EightTurns(0x37E4, 0x1BF2, 0xDF9, 0xA6FD, 0xF37F, 0xD9BE, 0x6CDF, 0x966E, 0x4B37);
  }

  lemma OneMore(crc: bv16, b: Byte, rest: seq<Byte>, next: bv16)
    requires Absorb(crc, b) == next
    ensures Run(crc, [b] + rest) == Run(next, rest)
  {
    assert ([b] + rest)[1..] == rest;
  }

  /** The checksum of the digits 1 to 9 as text. */
  lemma CheckValue()
    ensures Of([0x31, 0x32, 0x33, 0x34, 0x35, 0x36, 0x37, 0x38, 0x39]) == 0x4B37
  {
    Digit1(); Digit2(); Digit3(); Digit4(); Digit5(); Digit6(); Digit7(); Digit8(); Digit9();
    OneMore(0xFFFF, 0x31, [0x32, 0x33, 0x34, 0x35, 0x36, 0x37, 0x38, 0x39], 0x947E);
    OneMore(0x947E, 0x32, [0x33, 0x34, 0x35, 0x36, 0x37, 0x38, 0x39], 0xF595);
    OneMore(0xF595, 0x33, [0x34, 0x35, 0x36, 0x37, 0x38, 0x39], 0x7A75);
    OneMore(0x7A75, 0x34, [0x35, 0x36, 0x37, 0x38, 0x39], 0x30BA);
    OneMore(0x30BA, 0x35, [0x36, 0x37, 0x38, 0x39], 0xA471);
    OneMore(0xA471, 0x36, [0x37, 0x38, 0x39], 0x32E4);
    OneMore(0x32E4, 0x37, [0x38, 0x39], 0x9D73);
    OneMore(0x9D73, 0x38, [0x39], 0x37DD);
    OneMore(0x37DD, 0x39, [], 0x4B37);
  }

  /** In the header it stands with its bytes swapped. */
  lemma StoredCheckValue()
    ensures Checksum([0x31, 0x32, 0x33, 0x34, 0x35, 0x36, 0x37, 0x38, 0x39]) == 0x374B
  {
    CheckValue();
    assert Swap16(0x4B37) == 0x374B;
  }
}
