// The repository's two other convolutions: ref_conv_int8 in sw/tests/integration/test_integration.c and
// conv2d_int8 in model/ref/conv_ref.py, against ref_conv.
module OtherConvs {
  import opened Common
  import opened Windows
  import opened Bench = Conv

  // ---- ref_conv_int8 in sw/tests/integration/test_integration.c ----

  // Shift and saturate first, activate last, and divide by four for the leaky activation.
  function FinishLate(acc: int, shift: nat, mode: int): I8 {
    var q := Clamp8(ShiftRight(acc, shift));
    if mode == ACT_RELU && q < 0 then 0
    else if mode == ACT_LEAKY_RELU && q < 0 then TruncDiv(q, 4)
    else q
  }

  // In numbers: f is the floor of the quotient by 2^shift, held between -128 and 127, then activated; a negative
  // quarter is rounded to zero.
  lemma {:induction false} FinishLateMeaning(acc: int, shift: nat, mode: int, f: int, q: int)
    requires f * Pow2(shift) <= acc < (f + 1) * Pow2(shift)
    requires q == if f > 127 then 127 else if f < -128 then -128 else f
    ensures q >= 0 || (mode != 1 && mode != 2) ==> FinishLate(acc, shift, mode) == q
    ensures q < 0 && mode == 1 ==> FinishLate(acc, shift, mode) == 0
    ensures q < 0 && mode == 2 ==> 4 * FinishLate(acc, shift, mode) - 4 < q <= 4 * FinishLate(acc, shift, mode) <= 0
  {
    ShiftRightFloor(acc, shift);
    FloorIsQuotient(acc, Pow2(shift), f);
  }

  method QuantizeLate(acc: int, shift: nat, mode: int) returns (y: I8)
    ensures y == FinishLate(acc, shift, mode)
  {
    ShiftRightFloor(acc, shift);
    var q := acc / Pow2(shift);
    if q > 127 { q := 127; }
    if q < -128 { q := -128; }
    if mode == ACT_RELU && q < 0 { q := 0; }
    if mode == ACT_LEAKY_RELU && q < 0 { q := -(-q / 4); }
    y := q;
  }

  // Taps outside the input are skipped, not multiplied by zero.
  function SkipTaps(v: Conv, oh: int, ow: int, f: int, i: int): int -> int {
    j => if v.Inside(oh * v.strideH + i - v.padH, ow * v.strideW + j - v.padW)
         then Sum(v.c, v.Channels(oh, ow, f, i, j)) else 0
  }

  function SkipWindow(v: Conv, oh: int, ow: int, f: int): int -> int {
    i => Sum(v.s, SkipTaps(v, oh, ow, f, i))
  }

  function CellLate(v: Conv, oh: int, ow: int, f: int, shift: nat, mode: int): I8 {
    FinishLate(Wrap32((if v.bias == [] then 0 else At(v.bias, f)) + Sum(v.r, SkipWindow(v, oh, ow, f))), shift, mode)
  }

  method AddChannelsInside(v: Conv, oh: nat, ow: nat, f: nat, i: nat, j: nat, acc: int, ghost before: int)
    returns (sum: int)
    requires v.Sized() && f < v.k && i < v.r && j < v.s && acc == Wrap32(before)
    requires v.Inside(oh * v.strideH + i - v.padH, ow * v.strideW + j - v.padW)
    ensures sum == Wrap32(before + Sum(v.c, v.Channels(oh, ow, f, i, j)))
  {
    sum := acc;
    ghost var terms := v.Channels(oh, ow, f, i, j);
    var ih, iw := oh * v.strideH + i - v.padH, ow * v.strideW + j - v.padW;
    for ch := 0 to v.c
      invariant sum == Wrap32(before + Sum(ch, terms))
    {
      PixelInBounds(v, ih, iw, ch);
      WeightInBounds(v, f, i, j, ch);
      var p := (v.act[(ih * v.w + iw) * v.c + ch] as int) * (v.wt[((f * v.r + i) * v.s + j) * v.c + ch] as int);
      assert p == terms(ch);
      Wrap32Absorbs(before + Sum(ch, terms), p);
      sum := Wrap32(sum + p);
    }
  }

  method ConvInt8Acc(v: Conv, oh: nat, ow: nat, f: nat) returns (acc: int)
    requires v.Sized() && f < v.k
    ensures acc == Wrap32((if v.bias == [] then 0 else At(v.bias, f)) + Sum(v.r, SkipWindow(v, oh, ow, f)))
  {
    acc := if v.bias == [] then 0 else v.bias[f];
    ghost var start, window, exact := acc, SkipWindow(v, oh, ow, f), acc;
    for i := 0 to v.r
      invariant acc == Wrap32(exact) && exact == start + Sum(i, window)
    {
      ghost var taps, rowStart := SkipTaps(v, oh, ow, f, i), exact;
      for j := 0 to v.s
        invariant acc == Wrap32(exact) && exact == rowStart + Sum(j, taps)
      {
        SkipTapAdds(v, oh, ow, f, i, j);
        exact := exact + taps(j);
        if !v.Inside(oh * v.strideH + i - v.padH, ow * v.strideW + j - v.padW) { continue; }
        acc := AddChannelsInside(v, oh, ow, f, i, j, acc, exact - taps(j));
      }
      SkipRowAdds(v, oh, ow, f, i);
    }
  }

  lemma SkipTapAdds(v: Conv, oh: nat, ow: nat, f: nat, i: nat, j: nat)
    ensures Sum(j + 1, SkipTaps(v, oh, ow, f, i)) == Sum(j, SkipTaps(v, oh, ow, f, i)) + SkipTaps(v, oh, ow, f, i)(j)
  {}

  lemma SkipRowAdds(v: Conv, oh: nat, ow: nat, f: nat, i: nat)
    ensures Sum(i + 1, SkipWindow(v, oh, ow, f))
         == Sum(i, SkipWindow(v, oh, ow, f)) + Sum(v.s, SkipTaps(v, oh, ow, f, i))
  {}

  // Skipping a tap outside the input adds what multiplying it by zero adds.
  lemma {:induction false} SkippingIsPadding(v: Conv, oh: int, ow: int, f: int)
    ensures Sum(v.r, SkipWindow(v, oh, ow, f)) == Sum(v.r, v.Window(oh, ow, f))
  {
    forall i | 0 <= i < v.r ensures SkipWindow(v, oh, ow, f)(i) == v.Window(oh, ow, f)(i) {
      forall j | 0 <= j < v.s ensures SkipTaps(v, oh, ow, f, i)(j) == v.Taps(oh, ow, f, i)(j) {
        if !v.Inside(oh * v.strideH + i - v.padH, ow * v.strideW + j - v.padW) {
          SumBounds(v.c, v.Channels(oh, ow, f, i, j), 0, 0);
        }
      }
      SumExtensional(v.s, SkipTaps(v, oh, ow, f, i), v.Taps(oh, ow, f, i));
    }
    SumExtensional(v.r, SkipWindow(v, oh, ow, f), v.Window(oh, ow, f));
  }

  lemma {:induction false} ShiftTwice(x: int, m: nat, n: nat)
    ensures ShiftRight(ShiftRight(x, m), n) == ShiftRight(x, m + n)
    decreases m
  {
    if m > 0 { ShiftTwice(x / 2, m - 1, n); }
  }

  lemma {:induction false} ShiftSign(x: int, n: nat)
    ensures ShiftRight(x, n) < 0 <==> x < 0
    ensures x == 0 ==> ShiftRight(x, n) == 0
    decreases n
  {
    if n > 0 { ShiftSign(x / 2, n - 1); }
  }

  // The shifted values at which an eighth rounded down and a quarter rounded to zero meet after clamping.
  predicate LeakyMeets(q: int) { -7 <= q <= -4 || -11 <= q <= -9 || -256 <= q <= -249 }

  // The two orders of activation and quantization agree always for NONE and RELU, and for the leaky activation
  // exactly on non-negative accumulators and the few values above.
  lemma {:induction false} FinishAgreesExactly(acc: int, shift: nat, mode: int)
    ensures Finish(acc, shift, mode) == FinishLate(acc, shift, mode)
       <==> mode != ACT_LEAKY_RELU || acc >= 0 || LeakyMeets(ShiftRight(acc, shift))
  {
    ShiftSign(acc, shift);
    ShiftSign(0, shift);
    if mode == ACT_LEAKY_RELU && acc < 0 {
      ShiftTwice(acc, LEAKY_SHIFT, shift);
      ShiftTwice(acc, shift, LEAKY_SHIFT);
      EighthAgainstQuarter(ShiftRight(acc, shift));
    }
  }

  lemma EighthAgainstQuarter(q: int)
    requires q < 0
    ensures Clamp8(ShiftRight(q, LEAKY_SHIFT)) == TruncDiv(Clamp8(q), 4) <==> LeakyMeets(q)
  {
    assert ShiftRight(q, 3) == ShiftRight(q / 2, 2) == ShiftRight(q / 2 / 2, 1) == q / 2 / 2 / 2;
  }

  lemma {:induction false} CellsAgree(v: Conv, oh: int, ow: int, f: int, shift: nat, mode: int)
    requires mode != ACT_LEAKY_RELU
    ensures CellLate(v, oh, ow, f, shift, mode) == v.Cell(oh, ow, f, shift, mode)
  {
    var sum, b := Sum(v.r, v.Window(oh, ow, f)), At(v.bias, f);
    SkippingIsPadding(v, oh, ow, f);
    Wrap32Absorbs(sum, b);
    assert b + sum == sum + b;
    FinishAgreesExactly(WithBias(Wrap32(sum), v.bias, f), shift, mode);
  }

  ghost function PixelLate(v: Conv, oh: int, ow: int, shift: nat, mode: int): seq<I8> {
    seq(v.k, f => CellLate(v, oh, ow, f, shift, mode))
  }

  ghost function LineLate(v: Conv, oh: int, shift: nat, mode: int): int -> seq<I8> {
    ow => PixelLate(v, oh, ow, shift, mode)
  }

  ghost function LinesLate(v: Conv, width: nat, shift: nat, mode: int): int -> seq<I8> {
    oh => Concat(width, LineLate(v, oh, shift, mode))
  }

  // Output sizes are kept in uint16_t.
  function HeightLate(v: Conv): nat requires v.strideH > 0 { v.OutH() % 0x1_0000 }
  function WidthLate(v: Conv): nat requires v.strideW > 0 { v.OutW() % 0x1_0000 }

  ghost function OutputLate(v: Conv, shift: nat, mode: int): seq<I8>
    requires v.strideH > 0 && v.strideW > 0
  {
    Concat(HeightLate(v), LinesLate(v, WidthLate(v), shift, mode))
  }

  // Position (oh, ow)'s values, in a line whose first one is at place `first`; nothing from place `end` on changes.
  method Int8Pixel(v: Conv, oh: nat, ow: nat, first: nat, shift: nat, mode: int, out: array<I8>, ghost at: nat,
                   ghost end: nat)
    requires v.Sized() && at == Steps(first, ow, v.k) && at + v.k <= end <= out.Length
    modifies out
    ensures out[..at + v.k] == old(out[..at]) + PixelLate(v, oh, ow, shift, mode)
    ensures out[end..] == old(out[end..])
  {
    StepsExact(first, ow, v.k);
    var base: nat := first + ow * v.k;
    for f := 0 to v.k
      invariant out[..base + f] == old(out[..base]) + PixelLate(v, oh, ow, shift, mode)[..f]
      invariant out[end..] == old(out[end..])
    {
      var acc := ConvInt8Acc(v, oh, ow, f);
      var y := QuantizeLate(acc, shift, mode);
      out[base + f] := y;
    }
  }

  // One line of output positions, the first one's values from place `first` on.
  method Int8Line(v: Conv, oh: nat, first: nat, width: nat, shift: nat, mode: int, out: array<I8>, ghost end: nat)
    requires v.Sized() && end == Steps(first, width, v.k) <= out.Length
    modifies out
    ensures out[..end] == old(out[..first]) + LinesLate(v, width, shift, mode)(oh)
    ensures out[end..] == old(out[end..])
  {
    ghost var start, line, done := out[..first], LineLate(v, oh, shift, mode), out[..first];
    ghost var at, rest := first, out[end..];
    for ow := 0 to width
      invariant at == Steps(first, ow, v.k) <= end && out[end..] == rest
      invariant out[..at] == done && done == start + Concat(ow, line)
    {
      MoreSteps(first, ow + 1, width, v.k);
      Int8Pixel(v, oh, ow, first, shift, mode, out, at, end);
      LatePixelAdds(v, oh, ow, shift, mode, start);
      at, done := at + v.k, done + PixelLate(v, oh, ow, shift, mode);
    }
  }

  lemma LatePixelAdds(v: Conv, oh: nat, ow: nat, shift: nat, mode: int, start: seq<I8>)
    ensures start + Concat(ow + 1, LineLate(v, oh, shift, mode))
         == start + Concat(ow, LineLate(v, oh, shift, mode)) + PixelLate(v, oh, ow, shift, mode)
  {}

  // ref_conv_int8 as a whole, into the caller's buffer.
  method RefConvInt8(v: Conv, shift: nat, mode: int, out: array<I8>)
    requires v.Sized() && v.strideH > 0 && v.strideW > 0
    requires 0 <= HeightLate(v) * WidthLate(v) * v.k <= out.Length
    modifies out
    ensures out[..] == OutputLate(v, shift, mode) + old(out[HeightLate(v) * WidthLate(v) * v.k..])
  {
    Int8Lines(v, HeightLate(v), WidthLate(v), shift, mode, out);
  }

  method Int8Lines(v: Conv, height: nat, width: nat, shift: nat, mode: int, out: array<I8>)
    requires v.Sized() && 0 <= height * width * v.k <= out.Length
    modifies out
    ensures out[..] == Concat(height, LinesLate(v, width, shift, mode)) + old(out[height * width * v.k..])
  {
    ghost var end := height * width * v.k;
    ghost var rest := out[end..];
    for oh := 0 to height
      invariant 0 <= oh * width * v.k <= end && out[end..] == rest
      invariant out[..oh * width * v.k] == Concat(oh, LinesLate(v, width, shift, mode))
    {
      LineSpan(oh, height, width, v.k);
      Distribute(oh * width, width, v.k);
      StepsExact(oh * width * v.k, width, v.k);
      ghost var next: nat := (oh * width + width) * v.k;
      ghost var tail := out[next..];
      Int8Line(v, oh, oh * width * v.k, width, shift, mode, out, next);
      assert out[end..] == tail[end - next..];
    }
    assert out[..] == out[..end] + out[end..];
  }

  // Element (oh, ow, f) of the buffer.
  lemma {:induction false} LateCell(v: Conv, shift: nat, mode: int, oh: nat, ow: nat, f: nat)
    requires v.strideH > 0 && v.strideW > 0 && oh < HeightLate(v) && ow < WidthLate(v) && f < v.k
    ensures var at := (oh * WidthLate(v) + ow) * v.k + f;
            0 <= at < |OutputLate(v, shift, mode)| == HeightLate(v) * WidthLate(v) * v.k &&
            OutputLate(v, shift, mode)[at] == CellLate(v, oh, ow, f, shift, mode)
  {
    var height, width := HeightLate(v), WidthLate(v);
    forall y ensures |LinesLate(v, width, shift, mode)(y)| == width * v.k {
      ConcatLength(width, v.k, LineLate(v, y, shift, mode));
    }
    ConcatAt(width, v.k, LineLate(v, oh, shift, mode), ow, f);
    ConcatAt(height, width * v.k, LinesLate(v, width, shift, mode), oh, ow * v.k + f);
    Reassociate(oh, width, v.k, ow);
    Reassociate(height, width, v.k, 0);
  }

  // And in numbers: the products by their indices, the accumulator, its floor and the late activation.
  lemma {:induction false} LateMeaning(v: Conv, shift: nat, mode: int, oh: nat, ow: nat, f: nat,
                                       term: (int, int, int) -> int, acc: int, x: int, q: int)
    requires v.Sized() && v.strideH > 0 && v.strideW > 0 && oh < HeightLate(v) && ow < WidthLate(v) && f < v.k
    requires WindowTerms(v, oh, ow, f, term) && FitsI32(acc)
    requires (acc - Sum(v.r, AllTerms(term, v.s, v.c)) - (if v.bias == [] then 0 else v.bias[f])) % 0x1_0000_0000 == 0
    requires x * Pow2(shift) <= acc < (x + 1) * Pow2(shift)
    requires q == if x > 127 then 127 else if x < -128 then -128 else x
    ensures var at := (oh * WidthLate(v) + ow) * v.k + f;
            0 <= at < |OutputLate(v, shift, mode)| &&
            var y := OutputLate(v, shift, mode)[at];
            if q >= 0 || (mode != 1 && mode != 2) then y == q
            else if mode == 1 then y == 0 else 4 * y - 4 < q <= 4 * y <= 0
  {
    LateCell(v, shift, mode, oh, ow, f);
    LateAccumulator(v, oh, ow, f, term, acc);
    FinishLateMeaning(acc, shift, mode, x, q);
    assert CellLate(v, oh, ow, f, shift, mode) == FinishLate(acc, shift, mode);
  }

  lemma {:induction false} LateAccumulator(v: Conv, oh: nat, ow: nat, f: nat, term: (int, int, int) -> int, acc: int)
    requires v.Sized() && f < v.k && WindowTerms(v, oh, ow, f, term) && FitsI32(acc)
    requires (acc - Sum(v.r, AllTerms(term, v.s, v.c)) - (if v.bias == [] then 0 else v.bias[f])) % 0x1_0000_0000 == 0
    ensures acc == Wrap32((if v.bias == [] then 0 else At(v.bias, f)) + Sum(v.r, SkipWindow(v, oh, ow, f)))
  {
    TermsAdd(v, oh, ow, f, term);
    SkippingIsPadding(v, oh, ow, f);
    var b, sum := if v.bias == [] then 0 else At(v.bias, f), Sum(v.r, SkipWindow(v, oh, ow, f));
    assert acc - (b + sum) == acc - sum - b;
    Wrap32Unique(b + sum, acc);
  }

  // The test's convolution and the bench's agree on every NONE and RELU job whose output sizes fit 16 bits.
  lemma {:induction false} ConvolutionsAgree(v: Conv, shift: nat, mode: int)
    requires v.Valid() && mode != ACT_LEAKY_RELU && v.OutH() < 0x1_0000 && v.OutW() < 0x1_0000
    ensures OutputLate(v, shift, mode) == v.Output(shift, mode)
  {
    var width := v.OutW();
    forall oh | 0 <= oh < v.OutH() ensures LinesLate(v, width, shift, mode)(oh) == v.Lines(width, shift, mode)(oh) {
      LinesAgree(v, oh, width, shift, mode);
    }
    ConcatExtensional(v.OutH(), LinesLate(v, width, shift, mode), v.Lines(width, shift, mode));
  }

  // And on no others, unless there is no output at all: cut sizes leave an output too short.
  lemma {:induction false} ConvolutionsAgreeExactly(v: Conv, shift: nat, mode: int)
    requires v.Valid() && mode != ACT_LEAKY_RELU
    ensures OutputLate(v, shift, mode) == v.Output(shift, mode)
       <==> (v.OutH() < 0x1_0000 && v.OutW() < 0x1_0000) || v.OutH() * v.OutW() * v.k == 0
  {
    var height, width: nat := v.OutH(), v.OutW();
    LateLength(v, height % 0x1_0000, width % 0x1_0000, shift, mode);
    OutputLength(v, height, width, shift, mode);
    if height < 0x1_0000 && width < 0x1_0000 {
      ConvolutionsAgree(v, shift, mode);
    } else {
      CutProduct(height % 0x1_0000, width % 0x1_0000, height, width, v.k);
    }
  }

  lemma {:induction false} LateLength(v: Conv, height: nat, width: nat, shift: nat, mode: int)
    ensures |Concat(height, LinesLate(v, width, shift, mode))| == height * width * v.k
  {
    forall oh ensures |LinesLate(v, width, shift, mode)(oh)| == width * v.k {
      ConcatLength(width, v.k, LineLate(v, oh, shift, mode));
    }
    ConcatLength(height, width * v.k, LinesLate(v, width, shift, mode));
    Reassociate(height, width, v.k, 0);
  }

  lemma {:induction false} OutputLength(v: Conv, height: nat, width: nat, shift: nat, mode: int)
    ensures |Concat(height, v.Lines(width, shift, mode))| == height * width * v.k
  {
    forall oh ensures |v.Lines(width, shift, mode)(oh)| == width * v.k {
      ConcatLength(width, v.k, v.LineOf(oh, shift, mode));
    }
    ConcatLength(height, width * v.k, v.Lines(width, shift, mode));
    Reassociate(height, width, v.k, 0);
  }

  // Cutting a factor makes a positive product smaller, and leaves a zero one zero.
  lemma {:induction false} CutProduct(a: nat, b: nat, c: nat, d: nat, k: nat)
    requires a <= c && b <= d && (a < c || b < d)
    ensures c * d * k != 0 ==> a * b * k < c * d * k
    ensures c * d * k == 0 ==> a * b * k == 0
  {
    Distribute(a, c - a, d);
    Distribute(b, d - b, a);
    Distribute(a * b, c * d - a * b, k);
    if c > 0 && d > 0 && k > 0 {
      CutPair(a, b, c, d);
      Distribute(1, c * d - a * b - 1, k);
    }
  }

  lemma CutPair(a: nat, b: nat, c: nat, d: nat)
    requires a <= c && b <= d && (a < c || b < d) && c > 0 && d > 0
    ensures a * b < c * d
  {
    if a < c {
      Distribute(a, c - a, d);
      Distribute(b, d - b, a);
      Distribute(1, c - a - 1, d);
    } else {
      Distribute(b, d - b, c);
      Distribute(1, d - b - 1, c);
    }
  }

  lemma {:induction false} LinesAgree(v: Conv, oh: int, width: nat, shift: nat, mode: int)
    requires mode != ACT_LEAKY_RELU
    ensures LinesLate(v, width, shift, mode)(oh) == v.Lines(width, shift, mode)(oh)
  {
    forall ow | 0 <= ow < width ensures LineLate(v, oh, shift, mode)(ow) == v.LineOf(oh, shift, mode)(ow) {
      PixelsAgree(v, oh, ow, shift, mode);
    }
    ConcatExtensional(width, LineLate(v, oh, shift, mode), v.LineOf(oh, shift, mode));
  }

  lemma {:induction false} PixelsAgree(v: Conv, oh: int, ow: int, shift: nat, mode: int)
    requires mode != ACT_LEAKY_RELU
    ensures PixelLate(v, oh, ow, shift, mode) == v.PixelOut(oh, ow, shift, mode)
  {
    forall f ensures CellLate(v, oh, ow, f, shift, mode) == v.Cell(oh, ow, f, shift, mode) {
      CellsAgree(v, oh, ow, f, shift, mode);
    }
  }

  // A leaky accumulator of -8 already tells them apart: -1 against -2.
  lemma LeakyDiffers()
    ensures Finish(-8, 0, ACT_LEAKY_RELU) == -1 && FinishLate(-8, 0, ACT_LEAKY_RELU) == -2
  {
    assert ShiftRight(-8, 3) == ShiftRight(-4, 2) == ShiftRight(-2, 1) == -1;
  }

  // ---- conv2d_int8 in model/ref/conv_ref.py ----

  // Python divides rounding down, C toward zero.
  function FloorSize(size: nat, pad: nat, filt: nat, stride: nat): int
    requires stride > 0
  {
    (size + 2 * pad - filt) / stride + 1
  }

  lemma {:induction false} FloorSizeExact(size: nat, pad: nat, filt: nat, stride: nat)
    requires stride > 0
    ensures var n := FloorSize(size, pad, filt, stride);
            (n - 1) * stride + filt <= size + 2 * pad < n * stride + filt
  {
    var room := size + 2 * pad - filt;
    assert room / stride * stride <= room < (room / stride + 1) * stride;
  }

  lemma {:induction false} SizesAgreeExactly(size: nat, pad: nat, filt: nat, stride: nat)
    requires stride > 0
    ensures FloorSize(size, pad, filt, stride) == OutDim(size, pad, filt, stride)
       <==> size + 2 * pad >= filt || (size + 2 * pad - filt) % stride == 0
  {
    var d := size + 2 * pad - filt;
    if d < 0 {
      var q, m := d / stride, d % stride;
      assert d == q * stride + m;
      if m == 0 {
        QuotientIs(-d, stride, -q, 0);
      } else {
        NegativeQuotient(d, q, m, stride);
      }
    }
  }

  lemma NegativeQuotient(d: int, q: int, m: int, n: nat)
    requires d < 0 && d == q * n + m && 0 < m < n
    ensures -d / n == -q - 1
  {
    assert q < 0;
    assert -d == (-q - 1) * n + (n - m);
    QuotientIs(-d, n, -q - 1, n - m);
  }

  // Rectify, shift, then max and min instead of two conditional assignments.
  function FinishPython(acc: int, shift: nat): I8 {
    var s := ShiftRight(if acc < 0 then 0 else acc, shift);
    var low := if s < 127 then s else 127;
    if low > -128 then low else -128
  }

  // In numbers, as for the bench's.
  lemma {:induction false} FinishPythonMeaning(acc: int, shift: nat, f: int)
    requires f * Pow2(shift) <= (if acc < 0 then 0 else acc) < (f + 1) * Pow2(shift)
    ensures FinishPython(acc, shift) == if f > 127 then 127 else if f < -128 then -128 else f
  {
    var v := if acc < 0 then 0 else acc;
    ShiftRightFloor(v, shift);
    FloorIsQuotient(v, Pow2(shift), f);
  }

  method QuantizePython(acc: int, shift: nat) returns (y: I8)
    ensures y == FinishPython(acc, shift)
  {
    var v := acc;
    if v < 0 { v := 0; }
    ShiftRightFloor(v, shift);
    v := v / Pow2(shift);
    if v > 127 { v := 127; }
    if v < -128 { v := -128; }
    y := v;
  }

  // All three finish a RELU accumulator alike, and none of them can produce a negative value.
  lemma {:induction false} ThreeFinishesAgree(acc: int, shift: nat)
    ensures FinishPython(acc, shift) == Finish(acc, shift, ACT_RELU) == FinishLate(acc, shift, ACT_RELU)
    ensures 0 <= FinishPython(acc, shift) <= 127
  {
    FinishAgreesExactly(acc, shift, ACT_RELU);
    ShiftSign(if acc < 0 then 0 else acc, shift);
  }

  // ---- conv2d_int8: its own loops over nested arrays ----

  // v is the job whose flat tensors hold the nested ones row by row.
  ghost predicate Flattens(v: Conv, act: array3<I8>, weight: array4<I8>)
    reads act, weight
  {
    v.h == act.Length0 && v.w == act.Length1 && v.c == act.Length2 &&
    v.k == weight.Length0 && v.r == weight.Length1 && v.s == weight.Length2 && v.c == weight.Length3 &&
    (forall ih, iw, ch :: 0 <= ih < v.h && 0 <= iw < v.w && 0 <= ch < v.c ==>
      act[ih, iw, ch] == v.Pixel(ih, iw, ch)) &&
    (forall f, i, j, ch :: 0 <= f < v.k && 0 <= i < v.r && 0 <= j < v.s && 0 <= ch < v.c ==>
      weight[f, i, j, ch] == v.Weight(f, i, j, ch))
  }

  // The job's numbers and bias, as the call gives them.
  ghost predicate Matches(v: Conv, bias: Option<seq<I8>>, strideH: nat, strideW: nat, padH: nat, padW: nat) {
    strideH == v.strideH && strideW == v.strideW && padH == v.padH && padW == v.padW &&
    if bias == None then v.bias == [] else v.bias == bias.value && |bias.value| >= v.k
  }

  // Where element x of a flat h-by-w-by-c array sits in the nested one.
  lemma {:induction false} CellIn(x: nat, h: nat, w: nat, c: nat)
    requires x < h * w * c
    ensures c > 0 && w > 0 && 0 <= x / c / w < h && 0 <= x / c % w < w && 0 <= x % c < c
  {
    Distribute(0, h, w);
    QuotientBelow(x, c, h * w);
    QuotientBelow(x / c, w, h);
  }

  lemma PairIn(q: nat, k: nat, r: nat)
    requires q < k * r
    ensures r > 0 && 0 <= q / r < k && 0 <= q % r < r
  {
    QuotientBelow(q, r, k);
  }

  // And back again.
  lemma {:induction false} CellAt(h: nat, w: nat, c: nat, ih: nat, iw: nat, ch: nat)
    requires ih < h && iw < w && ch < c
    ensures ih * w + iw >= 0
    ensures var x := (ih * w + iw) * c + ch;
            0 <= x < h * w * c && x / c / w == ih && x / c % w == iw && x % c == ch
  {
    Flat(ih, iw, h, w);
    Flat(ih * w + iw, ch, h * w, c);
  }

  function Area(h: nat, w: nat): (n: nat)
    ensures n == h * w
  {
    Distribute(0, h, w);
    h * w
  }

  function Volume(h: nat, w: nat, c: nat): nat { Area(Area(h, w), c) }

  ghost function ActElement(act: array3<I8>, x: nat): I8
    requires x < Volume(act.Length0, act.Length1, act.Length2)
    reads act
  {
    CellIn(x, act.Length0, act.Length1, act.Length2);
    act[x / act.Length2 / act.Length1, x / act.Length2 % act.Length1, x % act.Length2]
  }

  ghost function FlatAct(act: array3<I8>): (s: seq<I8>)
    reads act
    ensures |s| == Volume(act.Length0, act.Length1, act.Length2)
  {
    var n := Volume(act.Length0, act.Length1, act.Length2);
    seq(n, x requires 0 <= x < n reads act => ActElement(act, x))
  }

  ghost function WeightElement(weight: array4<I8>, x: nat): I8
    requires x < Volume(Area(weight.Length0, weight.Length1), weight.Length2, weight.Length3)
    reads weight
  {
    var r, s, c := weight.Length1, weight.Length2, weight.Length3;
    CellIn(x, Area(weight.Length0, r), s, c);
    PairIn(x / c / s, weight.Length0, r);
    weight[x / c / s / r, x / c / s % r, x / c % s, x % c]
  }

  ghost function FlatWeight(weight: array4<I8>): (s: seq<I8>)
    reads weight
    ensures |s| == Volume(Area(weight.Length0, weight.Length1), weight.Length2, weight.Length3)
  {
    var n := Volume(Area(weight.Length0, weight.Length1), weight.Length2, weight.Length3);
    seq(n, x requires 0 <= x < n reads weight => WeightElement(weight, x))
  }

  // The job a call describes.
  ghost function JobOf(act: array3<I8>, weight: array4<I8>, bias: Option<seq<I8>>,
                       strideH: nat, strideW: nat, padH: nat, padW: nat): Conv
    reads act, weight
  {
    Conv(FlatAct(act), FlatWeight(weight), if bias == None then [] else bias.value,
         act.Length0, act.Length1, act.Length2, weight.Length0, weight.Length1, weight.Length2,
         strideH, strideW, padH, padW)
  }

  lemma {:induction false} JobFlattens(act: array3<I8>, weight: array4<I8>, bias: Option<seq<I8>>,
                                       strideH: nat, strideW: nat, padH: nat, padW: nat)
    requires weight.Length3 == act.Length2 && (bias.Some? ==> |bias.value| >= weight.Length0)
    ensures var v := JobOf(act, weight, bias, strideH, strideW, padH, padW);
            v.Sized() && Flattens(v, act, weight) && Matches(v, bias, strideH, strideW, padH, padW)
  {
    var v := JobOf(act, weight, bias, strideH, strideW, padH, padW);
    forall ih, iw, ch | 0 <= ih < v.h && 0 <= iw < v.w && 0 <= ch < v.c
      ensures act[ih, iw, ch] == v.Pixel(ih, iw, ch)
    {
      FlatActAt(act, ih, iw, ch);
    }
    forall f, i, j, ch | 0 <= f < v.k && 0 <= i < v.r && 0 <= j < v.s && 0 <= ch < v.c
      ensures weight[f, i, j, ch] == v.Weight(f, i, j, ch)
    {
      Flat(f, i, v.k, v.r);
      FlatWeightAt(weight, f * v.r + i, f, i, j, ch);
    }
  }

  lemma {:induction false} FlatActAt(act: array3<I8>, ih: nat, iw: nat, ch: nat)
    requires ih < act.Length0 && iw < act.Length1 && ch < act.Length2
    ensures At(FlatAct(act), (ih * act.Length1 + iw) * act.Length2 + ch) == act[ih, iw, ch]
  {
    CellAt(act.Length0, act.Length1, act.Length2, ih, iw, ch);
  }

  lemma {:induction false} FlatWeightAt(weight: array4<I8>, q: nat, f: nat, i: nat, j: nat, ch: nat)
    requires f < weight.Length0 && i < weight.Length1 && j < weight.Length2 && ch < weight.Length3
    requires q < Area(weight.Length0, weight.Length1) && q / weight.Length1 == f && q % weight.Length1 == i
    ensures At(FlatWeight(weight), (q * weight.Length2 + j) * weight.Length3 + ch) == weight[f, i, j, ch]
  {
    var s, c := weight.Length2, weight.Length3;
    CellAt(Area(weight.Length0, weight.Length1), s, c, q, j, ch);
    WeightElementIs(weight, (q * s + j) * c + ch, q, f, i, j, ch);
  }

  lemma {:induction false} WeightElementIs(weight: array4<I8>, x: nat, q: nat, f: nat, i: nat, j: nat, ch: nat)
    requires f < weight.Length0 && i < weight.Length1 && j < weight.Length2 && ch < weight.Length3
    requires x < Volume(Area(weight.Length0, weight.Length1), weight.Length2, weight.Length3)
    requires x / weight.Length3 / weight.Length2 == q && x / weight.Length3 % weight.Length2 == j
    requires x % weight.Length3 == ch && q / weight.Length1 == f && q % weight.Length1 == i
    ensures WeightElement(weight, x) == weight[f, i, j, ch]
  {}

  function CellPython(v: Conv, oh: int, ow: int, f: int, shift: nat): I8 {
    FinishPython(WithBias(Wrap32(Sum(v.r, v.Window(oh, ow, f))), v.bias, f), shift)
  }

  method PythonChannels(act: array3<I8>, weight: array4<I8>, ghost v: Conv, oh: nat, ow: nat, f: nat, i: nat, j: nat,
                        strideH: nat, strideW: nat, padH: nat, padW: nat, acc: int, ghost before: int)
    returns (sum: int)
    requires Flattens(v, act, weight) && f < v.k && i < v.r && j < v.s && acc == Wrap32(before)
    requires strideH == v.strideH && strideW == v.strideW && padH == v.padH && padW == v.padW
    ensures sum == Wrap32(before + Sum(v.c, v.Channels(oh, ow, f, i, j)))
  {
    sum := acc;
    ghost var terms := v.Channels(oh, ow, f, i, j);
    for ch := 0 to act.Length2
      invariant sum == Wrap32(before + Sum(ch, terms))
    {
      var ih, iw := oh * strideH + i - padH, ow * strideW + j - padW;
      var a: I8 := 0;
      if !(ih < 0 || iw < 0 || ih >= act.Length0 || iw >= act.Length1) {
        a := act[ih, iw, ch];
      }
      var p := (a as int) * (weight[f, i, j, ch] as int);
      assert p == terms(ch);
      Wrap32Absorbs(before + Sum(ch, terms), p);
      sum := Wrap32(sum + p);
    }
  }

  method PythonTaps(act: array3<I8>, weight: array4<I8>, ghost v: Conv, oh: nat, ow: nat, f: nat, i: nat,
                    strideH: nat, strideW: nat, padH: nat, padW: nat, acc: int, ghost before: int)
    returns (sum: int)
    requires Flattens(v, act, weight) && f < v.k && i < v.r && acc == Wrap32(before)
    requires strideH == v.strideH && strideW == v.strideW && padH == v.padH && padW == v.padW
    ensures sum == Wrap32(before + Sum(v.s, v.Taps(oh, ow, f, i)))
  {
    sum := acc;
    ghost var terms, exact := v.Taps(oh, ow, f, i), before;
    for j := 0 to weight.Length2
      invariant sum == Wrap32(exact) && exact == before + Sum(j, terms)
    {
      sum := PythonChannels(act, weight, v, oh, ow, f, i, j, strideH, strideW, padH, padW, sum, exact);
      TapAdds(v, oh, ow, f, i, j);
      exact := exact + Sum(v.c, v.Channels(oh, ow, f, i, j));
    }
  }

  // One output: accumulate, bias, rectify, shift, clamp.
  method PythonCell(act: array3<I8>, weight: array4<I8>, bias: Option<seq<I8>>, ghost v: Conv, oh: nat, ow: nat, f: nat,
                    strideH: nat, strideW: nat, padH: nat, padW: nat, shift: nat)
    returns (y: I8)
    requires Flattens(v, act, weight) && f < v.k && Matches(v, bias, strideH, strideW, padH, padW)
    ensures y == CellPython(v, oh, ow, f, shift)
  {
    var acc := 0;
    ghost var terms, exact := v.Window(oh, ow, f), 0;
    for i := 0 to weight.Length1
      invariant acc == Wrap32(exact) && exact == Sum(i, terms)
    {
      acc := PythonTaps(act, weight, v, oh, ow, f, i, strideH, strideW, padH, padW, acc, exact);
      FilterRowAdds(v, oh, ow, f, i);
      exact := exact + Sum(v.s, v.Taps(oh, ow, f, i));
    }
    if bias != None { acc := Wrap32(acc + bias.value[f]); }
    y := QuantizePython(acc, shift);
  }

  // Every output before (oh, ow, f), in loop order, is in place.
  ghost predicate DoneUpTo(v: Conv, out: array3<I8>, oh: int, ow: int, f: int, shift: nat)
    reads out
  {
    forall y, x, g :: 0 <= y < out.Length0 && 0 <= x < out.Length1 && 0 <= g < out.Length2 &&
                      (y < oh || (y == oh && (x < ow || (x == ow && g < f)))) ==>
      out[y, x, g] == CellPython(v, y, x, g, shift)
  }

  method PythonPixel(act: array3<I8>, weight: array4<I8>, bias: Option<seq<I8>>, ghost v: Conv, oh: nat, ow: nat,
                     strideH: nat, strideW: nat, padH: nat, padW: nat, shift: nat, out: array3<I8>)
    requires Flattens(v, act, weight) && Matches(v, bias, strideH, strideW, padH, padW) && out != act
    requires oh < out.Length0 && ow < out.Length1 && out.Length2 == v.k && DoneUpTo(v, out, oh, ow, 0, shift)
    modifies out
    ensures DoneUpTo(v, out, oh, ow + 1, 0, shift)
  {
    for f := 0 to weight.Length0
      invariant DoneUpTo(v, out, oh, ow, f, shift)
    {
      var y := PythonCell(act, weight, bias, v, oh, ow, f, strideH, strideW, padH, padW, shift);
      out[oh, ow, f] := y;
    }
  }

  method PythonLine(act: array3<I8>, weight: array4<I8>, bias: Option<seq<I8>>, ghost v: Conv, oh: nat,
                    strideH: nat, strideW: nat, padH: nat, padW: nat, shift: nat, out: array3<I8>)
    requires Flattens(v, act, weight) && Matches(v, bias, strideH, strideW, padH, padW) && out != act
    requires oh < out.Length0 && out.Length2 == v.k && DoneUpTo(v, out, oh, 0, 0, shift)
    modifies out
    ensures DoneUpTo(v, out, oh + 1, 0, 0, shift)
  {
    for ow := 0 to out.Length1
      invariant DoneUpTo(v, out, oh, ow, 0, shift)
    {
      PythonPixel(act, weight, bias, v, oh, ow, strideH, strideW, padH, padW, shift, out);
    }
  }

  // Every call with matching channel counts and a bias for each filter.
  method Conv2dInt8(act: array3<I8>, weight: array4<I8>, bias: Option<seq<I8>>,
                    strideH: nat, strideW: nat, padH: nat, padW: nat, shift: nat)
    returns (out: array3<I8>)
    requires weight.Length3 == act.Length2 && (bias.Some? ==> |bias.value| >= weight.Length0)
    requires strideH > 0 && strideW > 0 && FloorSize(act.Length0, padH, weight.Length1, strideH) >= 0
    requires FloorSize(act.Length1, padW, weight.Length2, strideW) >= 0
    ensures var v := JobOf(act, weight, bias, strideH, strideW, padH, padW);
            out.Length0 == FloorH(v) && out.Length1 == FloorW(v) && out.Length2 == v.k &&
            forall oh, ow, f :: 0 <= oh < out.Length0 && 0 <= ow < out.Length1 && 0 <= f < out.Length2 ==>
              out[oh, ow, f] == CellPython(v, oh, ow, f, shift)
  {
    ghost var v := JobOf(act, weight, bias, strideH, strideW, padH, padW);
    JobFlattens(act, weight, bias, strideH, strideW, padH, padW);
    var outH := FloorSize(act.Length0, padH, weight.Length1, strideH);
    var outW := FloorSize(act.Length1, padW, weight.Length2, strideW);
    out := new I8[outH, outW, weight.Length0];
    for oh := 0 to outH
      invariant v == JobOf(act, weight, bias, strideH, strideW, padH, padW)
      invariant DoneUpTo(v, out, oh, 0, 0, shift)
    {
      PythonLine(act, weight, bias, v, oh, strideH, strideW, padH, padW, shift, out);
    }
  }

  function FloorH(v: Conv): int requires v.strideH > 0 { FloorSize(v.h, v.padH, v.r, v.strideH) }
  function FloorW(v: Conv): int requires v.strideW > 0 { FloorSize(v.w, v.padW, v.s, v.strideW) }

  // A Python output in numbers.
  lemma {:induction false} PythonMeaning(v: Conv, shift: nat, oh: nat, ow: nat, f: nat,
                                         term: (int, int, int) -> int, acc: int, q: int)
    requires v.Sized() && f < v.k && WindowTerms(v, oh, ow, f, term) && FitsI32(acc)
    requires (acc - Sum(v.r, AllTerms(term, v.s, v.c)) - (if v.bias == [] then 0 else v.bias[f])) % 0x1_0000_0000 == 0
    requires q * Pow2(shift) <= (if acc < 0 then 0 else acc) < (q + 1) * Pow2(shift)
    ensures CellPython(v, oh, ow, f, shift) == if q > 127 then 127 else if q < -128 then -128 else q
  {
    TermsAdd(v, oh, ow, f, term);
    AccumulatorIs(Sum(v.r, v.Window(oh, ow, f)), v.bias, f, acc);
    FinishPythonMeaning(acc, shift, q);
  }

  // Where the sizes agree, Python's convolution is the bench's with RELU, element for element; and so is the
  // test's when the sizes fit 16 bits.
  lemma {:induction false} PythonAgrees(v: Conv, shift: nat, oh: nat, ow: nat, f: nat)
    requires v.Valid() && FloorH(v) == v.OutH() && FloorW(v) == v.OutW()
    requires oh < v.OutH() && ow < v.OutW() && f < v.k
    ensures var at := (oh * v.OutW() + ow) * v.k + f;
            0 <= at < |v.Output(shift, ACT_RELU)| &&
            v.Output(shift, ACT_RELU)[at] == CellPython(v, oh, ow, f, shift) &&
            (v.OutH() < 0x1_0000 && v.OutW() < 0x1_0000 ==>
              OutputLate(v, shift, ACT_RELU) == v.Output(shift, ACT_RELU))
  {
    ConvCell(v, shift, ACT_RELU, oh, ow, f);
    ThreeFinishesAgree(WithBias(Wrap32(Sum(v.r, v.Window(oh, ow, f))), v.bias, f), shift);
    if v.OutH() < 0x1_0000 && v.OutW() < 0x1_0000 { ConvolutionsAgree(v, shift, ACT_RELU); }
  }
}
