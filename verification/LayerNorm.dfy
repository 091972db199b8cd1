// ref_lnorm in tb/integration/npu_tb.h, row by row, in its own register widths.
module LayerNorm {
  import opened Common
  import opened Isqrt

  // Element i of a row, zero outside it.
  function Elem(x: seq<I8>): int -> int { i => if 0 <= i < |x| then x[i] else 0 }

  // The sum is kept in a 32-bit register.
  function Mean(x: Row): int { TruncDiv(Wrap32(Sum(|x|, Elem(x))), |x|) }

  function Square(d: int): nat { d * d }

  function SqDev(x: seq<I8>, mean: int): int -> int {
    i => if 0 <= i < |x| then Square(x[i] - mean) else 0
  }

  function SqDevs(x: seq<I8>, mean: int, k: nat): (s: nat)
  {
    SumNonNegative(k, SqDev(x, mean));
    Sum(k, SqDev(x, mean))
  }

  function VarSum(x: Row): nat { SqDevs(x, Mean(x), |x|) % 0x1_0000_0000 }

  // The mean lies between any bounds of the row.
  lemma {:induction false} MeanWithin(x: Row, lo: int, hi: int)
    requires Short(x) && forall i :: 0 <= i < |x| ==> lo <= x[i] <= hi
    ensures Mean(x) == TruncDiv(Sum(|x|, Elem(x)), |x|) && lo <= Mean(x) <= hi
  {
    SumOfRowFits(x, |x|);
    SumBounds(|x|, Elem(x), lo, hi);
    QuotientWithin(Sum(|x|, Elem(x)), |x|, lo, hi);
  }

  lemma {:induction false} SumOfRowFits(x: Row, k: nat)
    requires Short(x) && k <= |x|
    ensures FitsI32(Sum(k, Elem(x)))
  {
    SumBounds(k, Elem(x), -128, 127);
  }

  // The deviation of an INT8 value from the mean of an INT8 row.
  lemma {:induction false} DeviationBound(x: Row, i: nat)
    requires Short(x) && i < |x|
    ensures -255 <= x[i] - Mean(x) <= 255 && -128 <= Mean(x) <= 127
    ensures 0 <= SqDev(x, Mean(x))(i) <= 65025
  {
    MeanWithin(x, -128, 127);
    var d := x[i] - Mean(x);
    SquareBound(d);
  }

  lemma SquareBound(d: int)
    requires -255 <= d <= 255
    ensures 0 <= d * d <= 65025
  {
    if d >= 0 { SquareLe(d, 255); } else {
      SquareLe(-d, 255);
      assert d * d == (-d) * (-d);
    }
  }

  // Even 65535 of the worst deviations stay below 2^32.
  lemma {:induction false} VarSumFits(x: Row, k: nat)
    requires Short(x) && k <= |x|
    ensures 0 <= Sum(k, SqDev(x, Mean(x))) <= 65025 * k <= 65025 * 0xFFFF < 0x1_0000_0000
  {
    forall i | 0 <= i < k ensures 0 <= SqDev(x, Mean(x))(i) <= 65025 {
      DeviationBound(x, i);
    }
    SumBounds(k, SqDev(x, Mean(x)), 0, 65025);
  }

  function Variance(x: Row): nat {
    DivAtLeast(VarSum(x), |x|, 0);
    VarSum(x) / |x|
  }

  lemma {:induction false} VarianceBound(x: Row)
    requires Short(x)
    ensures 0 <= Variance(x) <= 65025
  {
    VarSumFits(x, |x|);
    DivWithin(VarSum(x), |x|, 65025);
  }

  // The argument of the root, in 32 bits.
  function Radicand(x: Row): U32 { (Variance(x) + 1) % 0x1_0000_0000 }

  // isqrt(variance + 1), guarded against zero.
  ghost function Std(x: Row): (d: nat)
    ensures d > 0
  {
    AtLeastOne(Root(Radicand(x)))
  }

  // In a short row the divisor has eight bits and the guard never acts.
  lemma {:induction false} DivisorRange(x: Row)
    requires Short(x)
    ensures Std(x) == Root(Variance(x) + 1) && 1 <= Std(x) <= 255
  {
    VarianceBound(x);
    RootRange(Variance(x) + 1, Root(Variance(x) + 1));
  }

  lemma {:induction false} RootRange(n: nat, r: nat)
    requires IsRoot(r, n) && 1 <= n < 0x1_0000
    ensures 1 <= r <= 255
  {
    if r > 255 { SquareLe(256, r); }
  }

  function AtLeastOne(d: nat): nat { if d == 0 then 1 else d }

  // Pass 3 for one element, step by step: widen, saturate to 32 bits, divide unsigned, restore the sign, clamp.
  function Normalize(diff: int, shift: nat, divisor: nat): I8
    requires divisor > 0
  {
    var neg := diff < 0;
    var absDiff := if neg then -diff else diff;
    var wide := absDiff * Pow2(shift) % 0x1_0000_0000_0000_0000;
    var scaled := if wide > 0xFFFF_FFFF then 0xFFFF_FFFF else wide;
    var quot := scaled / divisor;
    if neg then (if quot > 128 then -128 else -quot)
    else if quot > 127 then 127 else quot
  }

  lemma {:induction false} Pow2Monotone(a: nat, b: nat)
    requires a <= b
    ensures Pow2(a) <= Pow2(b)
    decreases b - a
  {
    if a < b {
      Pow2Monotone(a, b - 1);
    }
  }

  lemma {:induction false} WideFits(absDiff: nat, shift: nat)
    requires absDiff <= 255 && shift <= 31
    ensures 0 <= absDiff * Pow2(shift) <= 255 * 0x8000_0000
  {
    Pow2At31();
    Pow2Monotone(shift, 31);
    MulLe(0, absDiff, Pow2(shift));
    MulLe(absDiff, 255, Pow2(shift));
  }

  lemma Pow2At31()
    ensures Pow2(31) == 0x8000_0000
  {
    Pow2At16();
    assert Pow2(20) == 0x10_0000;
    assert Pow2(24) == 0x100_0000;
    assert Pow2(28) == 0x1000_0000;
  }

  // The saturating unsigned path computes the exact truncated quotient, clamped to INT8: saturation at
  // 2^32 - 1 only ever happens far outside the clamp.
  lemma {:induction false} NormalizeExact(diff: int, shift: nat, divisor: nat)
    requires -255 <= diff <= 255 && shift <= 31 && 1 <= divisor <= 255
    ensures Normalize(diff, shift, divisor) == Clamp8(TruncDiv(diff * Pow2(shift), divisor))
  {
    WideFits(Abs(diff), shift);
    ScaledSign(diff, Pow2(shift));
    SaturatedQuotient(Abs(diff) * Pow2(shift), divisor);
  }

  lemma {:induction false} SaturatedQuotient(wide: nat, divisor: nat)
    requires wide < 0x1_0000_0000_0000_0000 && 1 <= divisor <= 255
    ensures wide % 0x1_0000_0000_0000_0000 == wide
    ensures wide > 0xFFFF_FFFF ==> wide / divisor > 128 && 0xFFFF_FFFF / divisor > 128
    ensures wide / divisor >= 0
  {
    if wide > 0xFFFF_FFFF {
      DivAtLeast(wide, divisor, 200);
      DivAtLeast(0xFFFF_FFFF, divisor, 200);
    }
    DivAtLeast(wide, divisor, 0);
  }

  ghost function NormAt(x: Row, i: nat, shift: nat): I8
    requires i < |x|
  {
    Normalize(x[i] - Mean(x), shift, Std(x))
  }

  lemma {:induction false} TruncDivMonotone(a: int, b: int, n: nat)
    requires n > 0 && a <= b
    ensures TruncDiv(a, n) <= TruncDiv(b, n)
  {
    if a >= 0 {
      DivMonotone(a, b, n);
    } else if b < 0 {
      DivMonotone(-b, -a, n);
    } else {
      DivAtLeast(-a, n, 0);
      DivAtLeast(b, n, 0);
    }
  }

  lemma {:induction false} NormalizeMonotone(d: int, e: int, shift: nat, divisor: nat)
    requires -255 <= d <= e <= 255 && shift <= 31 && 1 <= divisor <= 255
    ensures Normalize(d, shift, divisor) <= Normalize(e, shift, divisor)
  {
    NormalizeExact(d, shift, divisor);
    NormalizeExact(e, shift, divisor);
    MulLe(d, e, Pow2(shift));
    TruncDivMonotone(d * Pow2(shift), e * Pow2(shift), divisor);
  }

  // Within a row the normalization keeps the order of its inputs.
  lemma {:induction false} NormMonotone(x: Row, i: nat, j: nat, shift: nat)
    requires Short(x) && i < |x| && j < |x| && x[i] <= x[j] && shift <= 31
    ensures NormAt(x, i, shift) <= NormAt(x, j, shift)
  {
    DivisorRange(x);
    DeviationBound(x, i);
    DeviationBound(x, j);
    NormalizeMonotone(x[i] - Mean(x), x[j] - Mean(x), shift, Std(x));
  }

  function Abs(x: int): nat { if x < 0 then -x else x }

  lemma {:induction false} NormalizeSign(d: int, shift: nat, divisor: nat)
    requires -255 <= d <= 255 && shift <= 31 && 1 <= divisor <= 255
    ensures var y := Normalize(d, shift, divisor);
            (y > 0 ==> d > 0) && (y < 0 ==> d < 0) && (y == 0 <==> Abs(d) * Pow2(shift) < divisor)
  {
    NormalizeExact(d, shift, divisor);
    var wide := Abs(d) * Pow2(shift);
    ScaledSign(d, Pow2(shift));
    if wide < divisor {
      QuotientIs(wide, divisor, 0, wide);
    } else {
      DivAtLeast(wide, divisor, 1);
    }
  }

  lemma ScaledSign(d: int, p: nat)
    ensures d * p == if d < 0 then -(Abs(d) * p) else Abs(d) * p
    ensures Abs(d) * p >= 0
  {}

  // An output is zero or has the sign of its deviation from the mean, and it is zero exactly when the
  // scaled deviation is smaller than the divisor.
  lemma {:induction false} NormSign(x: Row, i: nat, shift: nat)
    requires Short(x) && i < |x| && shift <= 31
    ensures NormAt(x, i, shift) > 0 ==> x[i] > Mean(x)
    ensures NormAt(x, i, shift) < 0 ==> x[i] < Mean(x)
    ensures NormAt(x, i, shift) == 0 <==> Abs(x[i] - Mean(x)) * Pow2(shift) < Std(x)
  {
    DivisorRange(x);
    DeviationBound(x, i);
    NormalizeSign(x[i] - Mean(x), shift, Std(x));
  }

  // A constant row normalizes to zeros.
  lemma {:induction false} ConstantRowIsZero(x: Row, i: nat, shift: nat)
    requires Short(x) && i < |x| && (forall j :: 0 <= j < |x| ==> x[j] == x[0]) && shift <= 31
    ensures NormAt(x, i, shift) == 0
  {
    MeanWithin(x, x[0], x[0]);
    DivisorRange(x);
    NormSign(x, i, shift);
  }

  // ---- The same in numbers ----

  // The mean is the truncated quotient of the sum of the row's elements by their number.
  lemma {:induction false} MeanMeaning(x: Row, elem: int -> int)
    requires Short(x) && forall i :: 0 <= i < |x| ==> elem(i) == x[i]
    ensures var sum, m := Sum(|x|, elem), Mean(x);
            if sum >= 0 then 0 <= m && m * |x| <= sum < (m + 1) * |x| else m <= 0 && (m - 1) * |x| < sum <= m * |x|
  {
    SumExtensional(|x|, elem, Elem(x));
    MeanWithin(x, -128, 127);
    TruncDivExact(Sum(|x|, elem), |x|);
  }

  // The divisor is the integer root of one more than the mean square deviation, both quotients rounded down.
  lemma {:induction false} DivisorMeaning(x: Row, dev: int -> int, v: nat)
    requires Short(x) && forall i :: 0 <= i < |x| ==> dev(i) == (x[i] - Mean(x)) * (x[i] - Mean(x))
    requires v * |x| <= Sum(|x|, dev) < (v + 1) * |x|
    ensures Std(x) * Std(x) <= v + 1 < (Std(x) + 1) * (Std(x) + 1)
  {
    SumExtensional(|x|, dev, SqDev(x, Mean(x)));
    VarSumFits(x, |x|);
    FloorIsQuotient(Sum(|x|, dev), |x|, v);
    DivisorRange(x);
    RootMeaning(v + 1, Std(x));
  }

  lemma RootMeaning(n: nat, r: nat)
    requires IsRoot(r, n)
    ensures r * r <= n < (r + 1) * (r + 1)
  {}

  // An output is the deviation times 2^shift, divided by the divisor toward zero and held between -128 and 127: q is
  // that quotient.
  lemma {:induction false} NormMeaning(x: Row, i: nat, shift: nat, q: int)
    requires Short(x) && i < |x| && shift <= 31
    requires var d, r := (x[i] - Mean(x)) * Pow2(shift), Std(x);
             if d >= 0 then 0 <= q && q * r <= d < (q + 1) * r else q <= 0 && (q - 1) * r < d <= q * r
    ensures NormAt(x, i, shift) == if q > 127 then 127 else if q < -128 then -128 else q
  {
    DivisorRange(x);
    DeviationBound(x, i);
    NormalizeExact(x[i] - Mean(x), shift, Std(x));
    TruncDivUnique((x[i] - Mean(x)) * Pow2(shift), Std(x), q);
  }

  // The specification of the whole call: rows one after another.
  ghost function NormRow(x: Row, shift: nat): (y: seq<I8>)
    ensures |y| == |x|
  {
    seq(|x|, i requires 0 <= i < |x| => NormAt(x, i, shift))
  }

  ghost function NormRows(input: seq<I8>, rows: nat, len: nat, shift: nat): (y: seq<I8>)
    requires (rows > 0 ==> len >= 1) && |input| >= rows * len
    ensures |y| == rows * len
  {
    if rows == 0 then []
    else
      RowSpan(rows - 1, rows, len);
      NormRows(input, rows - 1, len, shift) + NormRow(RowAt(input, rows - 1, len), shift)
  }

  // Output r * len + i is that of element i in row r.
  lemma {:induction false} NormRowsAt(input: seq<I8>, rows: nat, len: nat, shift: nat, r: nat, i: nat)
    requires 1 <= len && |input| >= rows * len && r < rows && i < len
    ensures 0 <= r * len && r * len + i < rows * len && (r + 1) * len <= rows * len
    ensures NormRows(input, rows, len, shift)[r * len + i] == NormAt(RowAt(input, r, len), i, shift)
  {
    RowSpan(r, rows, len);
    RowSpan(rows - 1, rows, len);
    var front, last := NormRows(input, rows - 1, len, shift), NormRow(RowAt(input, rows - 1, len), shift);
    if r < rows - 1 {
      RowSpan(r, rows - 1, len);
      NormRowsAt(input, rows - 1, len, shift, r, i);
      assert (front + last)[r * len + i] == front[r * len + i];
    } else {
      assert (front + last)[|front| + i] == last[i];
    }
  }

  // Pass 1 and the mean.
  method RowMean(x: Row) returns (mean: int)
    ensures mean == Mean(x)
  {
    var sum := 0;
    ghost var exact: int := 0;
    for i := 0 to |x|
      invariant sum == Wrap32(exact) && exact == Sum(i, Elem(x))
    {
      Wrap32Absorbs(exact, x[i]);
      sum := Wrap32(sum + x[i]);
      exact := exact + (x[i] as int);
    }
    mean := TruncDiv(sum, |x|);
  }

  // Pass 2 and the divisor, in unsigned 32-bit accumulation.
  method RowDivisor(x: Row, mean: int) returns (divisor: nat)
    requires mean == Mean(x)
    ensures divisor == Std(x)
  {
    var varSum := SumSquares(x, mean);
    var root := IsqrtHw((varSum / |x| + 1) % 0x1_0000_0000);
    divisor := root;
    if divisor == 0 { divisor := 1; }
  }

  method SumSquares(x: Row, mean: int) returns (varSum: nat)
    ensures varSum == SqDevs(x, mean, |x|) % 0x1_0000_0000
  {
    varSum := 0;
    for i := 0 to |x|
      invariant varSum == SqDevs(x, mean, i) % 0x1_0000_0000
    {
      var d := (x[i] as int) - mean;
      var square: nat := d * d;
      assert SqDevs(x, mean, i + 1) == SqDevs(x, mean, i) + square;
      ModAdds(SqDevs(x, mean, i), square, 0x1_0000_0000);
      varSum := (varSum + square) % 0x1_0000_0000;
    }
  }

  // Pass 3 for one element, in the source's statements.
  method NormalizeElement(diff: int, shift: nat, divisor: nat) returns (y: I8)
    requires divisor > 0
    ensures y == Normalize(diff, shift, divisor)
  {
    var neg := diff < 0;
    var absDiff := diff;
    if neg { absDiff := -diff; }
    var scaled := absDiff * Pow2(shift) % 0x1_0000_0000_0000_0000;
    if scaled > 0xFFFF_FFFF { scaled := 0xFFFF_FFFF; }
    var quot := scaled / divisor;
    if neg {
      if quot > 128 { y := -128; } else { y := -quot; }
    } else {
      if quot > 127 { y := 127; } else { y := quot; }
    }
  }

  // The three passes over the row at out[base..].
  method NormalizeRow(x: Row, shift: nat, out: array<I8>, base: nat)
    requires base + |x| <= out.Length
    modifies out
    ensures out[..base + |x|] == old(out[..base]) + NormRow(x, shift)
  {
    var mean := RowMean(x);
    var divisor := RowDivisor(x, mean);
    for i := 0 to |x|
      invariant out[..base] == old(out[..base])
      invariant forall j :: 0 <= j < i ==> out[base + j] == NormAt(x, j, shift)
    {
      var y := NormalizeElement(x[i] - mean, shift, divisor);
      out[base + i] := y;
    }
    assert out[..base + |x|] == out[..base] + out[base..base + |x|];
  }

  // One row of the output, given the rows before it.
  method RefLnormRow(input: seq<I8>, r: nat, len: nat, shift: nat, out: array<I8>)
    requires 1 <= len && 0 <= r * len <= (r + 1) * len <= out.Length <= |input|
    modifies out
    ensures out[..(r + 1) * len] == old(out[..r * len]) + NormRow(RowAt(input, r, len), shift)
  {
    Distribute(r, 1, len);
    var base := r * len;
    NormalizeRow(input[base..base + len], shift, out, base);
  }

  // A row's mean divides by its length.
  method RefLnorm(input: seq<I8>, rows: nat, len: nat, shift: nat) returns (out: array<I8>)
    requires (rows > 0 ==> len >= 1) && |input| >= rows * len
    ensures out[..] == NormRows(input, rows, len, shift)
  {
    Distribute(rows, 0, len);
    out := new I8[rows * len];
    for r := 0 to rows
      invariant 0 <= r * len <= out.Length
      invariant out[..r * len] == NormRows(input, r, len, shift)
    {
      RowSpan(r, rows, len);
      RefLnormRow(input, r, len, shift, out);
    }
  }
}
