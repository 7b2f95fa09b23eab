/** Minimum, maximum and clipping on reals and integers. */
module Numbers {
  function Min(a: real, b: real): real { if a < b then a else b }

  function Max(a: real, b: real): real { if a < b then b else a }

  function Abs(v: real): real { if v < 0.0 then -v else v }

  function Clip(v: real, lo: real, hi: real): real { Min(Max(v, lo), hi) }

  function MinInt(a: int, b: int): int { if a < b then a else b }

  function MaxInt(a: int, b: int): int { if a < b then b else a }

  function ClipInt(v: int, lo: int, hi: int): int { MinInt(MaxInt(v, lo), hi) }

  lemma Positive(x: real, xx: real)
    requires xx == x * x
    ensures xx >= 0.0 && (x != 0.0 ==> xx > 0.0)
  {
    if x != 0.0 {
      var z := 1.0 / x;
      assert z * x == 1.0;
      assert (z * x) * (z * x) == (z * z) * xx;
    }
  }

  lemma PositiveProduct(a: real, b: real)
    requires a > 0.0 && b > 0.0
    ensures a * b > 0.0
  {
  }
}
