// ref_gemm and ref_conv in tb/integration/npu_tb.h.
module Conv {
  import opened Common
  import opened Windows

  const ACT_RELU := 1
  const ACT_LEAKY_RELU := 2
  const LEAKY_SHIFT: nat := 3

  // An element of a flat tensor, zero outside it.
  function At(a: seq<I8>, i: int): int { if 0 <= i < |a| then a[i] else 0 }

  // ---- Post-processing ----

  function Activate(acc: int, mode: int): int {
    if mode == ACT_RELU then (if acc < 0 then 0 else acc)
    else if mode == ACT_LEAKY_RELU then (if acc < 0 then ShiftRight(acc, LEAKY_SHIFT) else acc)
    else acc
  }

  // Activate, shift, saturate.
  function Finish(acc: int, shift: nat, mode: int): I8 {
    Clamp8(ShiftRight(Activate(acc, mode), shift))
  }

  // What it computes, in numbers: v is the activated accumulator, f the floor of its quotient by 2^shift, and the
  // result is f held between -128 and 127. The leaky activation is a floor itself.
  lemma {:induction false} FinishMeaning(acc: int, shift: nat, mode: int, v: int, f: int)
    requires mode == 1 ==> v == if acc < 0 then 0 else acc
    requires mode == 2 && acc < 0 ==> 8 * v <= acc < 8 * v + 8
    requires mode != 1 && !(mode == 2 && acc < 0) ==> v == acc
    requires f * Pow2(shift) <= v < (f + 1) * Pow2(shift)
    ensures Finish(acc, shift, mode) == if f > 127 then 127 else if f < -128 then -128 else f
  {
    if mode == 2 && acc < 0 {
      ShiftRightFloor(acc, LEAKY_SHIFT);
      assert Pow2(3) == 8;
    }
    ShiftRightFloor(v, shift);
    FloorIsQuotient(v, Pow2(shift), f);
  }

  // The source's statements for it.
  method Quantize(acc: int, shift: nat, mode: int) returns (y: I8)
    ensures y == Finish(acc, shift, mode)
  {
    var v := acc;
    if mode == ACT_RELU {
      if v < 0 { v := 0; }
    } else if mode == ACT_LEAKY_RELU {
      ShiftRightFloor(acc, LEAKY_SHIFT);
      if v < 0 { v := v / Pow2(LEAKY_SHIFT); }
    }
    ShiftRightFloor(v, shift);
    v := v / Pow2(shift);
    if v > 127 { v := 127; }
    if v < -128 { v := -128; }
    y := v;
  }

  // No bias array means no bias.
  function WithBias(acc: int, bias: seq<I8>, i: int): int {
    if bias == [] then acc else Wrap32(acc + At(bias, i))
  }

  // ---- Matrix product ----

  // a is m by q, b is q by n, row-major.
  datatype Gemm = Gemm(a: seq<I8>, b: seq<I8>, bias: seq<I8>, m: nat, n: nat, q: nat) {
    predicate Valid() { |a| >= m * q && |b| >= q * n && (bias == [] || |bias| >= n) }

    function Dot(row: int, col: int): int -> int {
      k => At(a, row * q + k) * At(b, k * n + col)
    }

    function Cell(row: int, col: int, shift: nat, mode: int): I8 {
      Finish(WithBias(Wrap32(Sum(q, Dot(row, col))), bias, col), shift, mode)
    }

    ghost function Row(row: int, shift: nat, mode: int): seq<I8> {
      seq(n, col => Cell(row, col, shift, mode))
    }

    ghost function RowOf(shift: nat, mode: int): int -> seq<I8> { row => Row(row, shift, mode) }

    ghost function Output(shift: nat, mode: int): seq<I8> { Concat(m, RowOf(shift, mode)) }
  }

  // Element (row, col) of the output.
  lemma {:induction false} GemmCell(g: Gemm, shift: nat, mode: int, row: nat, col: nat)
    requires row < g.m && col < g.n
    ensures |g.Output(shift, mode)| == g.m * g.n && 0 <= row * g.n + col < g.m * g.n
    ensures g.Output(shift, mode)[row * g.n + col] == g.Cell(row, col, shift, mode)
  {
    ConcatAt(g.m, g.n, g.RowOf(shift, mode), row, col);
  }

  // The same in numbers: `total` is the sum of the q products and the bias, `acc` its 32-bit value, v and f as in
  // FinishMeaning.
  lemma {:induction false} GemmMeaning(g: Gemm, shift: nat, mode: int, row: nat, col: nat, term: int -> int,
                                       acc: int, v: int, f: int)
    requires g.Valid() && row < g.m && col < g.n
    requires forall k :: 0 <= k < g.q && 0 <= row * g.q + k < |g.a| && 0 <= k * g.n + col < |g.b| ==>
               term(k) == (g.a[row * g.q + k] as int) * (g.b[k * g.n + col] as int)
    requires FitsI32(acc) && (acc - Sum(g.q, term) - (if g.bias == [] then 0 else g.bias[col])) % 0x1_0000_0000 == 0
    requires mode == 1 ==> v == if acc < 0 then 0 else acc
    requires mode == 2 && acc < 0 ==> 8 * v <= acc < 8 * v + 8
    requires mode != 1 && !(mode == 2 && acc < 0) ==> v == acc
    requires f * Pow2(shift) <= v < (f + 1) * Pow2(shift)
    ensures 0 <= row * g.n + col < |g.Output(shift, mode)|
    ensures g.Output(shift, mode)[row * g.n + col] == if f > 127 then 127 else if f < -128 then -128 else f
  {
    GemmCell(g, shift, mode, row, col);
    forall k | 0 <= k < g.q ensures term(k) == g.Dot(row, col)(k) { GemmTerm(g, row, col, k); }
    SumExtensional(g.q, term, g.Dot(row, col));
    AccumulatorIs(Sum(g.q, term), g.bias, col, acc);
    FinishMeaning(acc, shift, mode, v, f);
  }

  lemma {:induction false} AccumulatorIs(sum: int, bias: seq<I8>, i: nat, acc: int)
    requires (bias == [] || i < |bias|) && FitsI32(acc)
    requires (acc - sum - (if bias == [] then 0 else bias[i])) % 0x1_0000_0000 == 0
    ensures acc == WithBias(Wrap32(sum), bias, i)
  {
    var total := sum + (if bias == [] then 0 else bias[i]);
    Wrap32Unique(total, acc);
    if bias != [] { Wrap32Absorbs(sum, bias[i]); }
  }

  method GemmAcc(g: Gemm, row: nat, col: nat) returns (acc: int)
    requires g.Valid() && row < g.m && col < g.n
    ensures acc == Wrap32(Sum(g.q, g.Dot(row, col)))
  {
    acc := 0;
    ghost var terms := g.Dot(row, col);
    for k := 0 to g.q
      invariant acc == Wrap32(Sum(k, terms))
    {
      GemmTerm(g, row, col, k);
      var p := (g.a[row * g.q + k] as int) * (g.b[k * g.n + col] as int);
      Wrap32Absorbs(Sum(k, terms), p);
      acc := Wrap32(acc + p);
    }
  }

  lemma {:induction false} GemmTerm(g: Gemm, row: nat, col: nat, k: nat)
    requires g.Valid() && row < g.m && col < g.n && k < g.q
    ensures 0 <= row * g.q + k < |g.a| && 0 <= k * g.n + col < |g.b|
    ensures g.Dot(row, col)(k) == (g.a[row * g.q + k] as int) * (g.b[k * g.n + col] as int)
  {
    Flat(row, k, g.m, g.q);
    Flat(k, col, g.q, g.n);
  }

  method GemmRow(g: Gemm, row: nat, shift: nat, mode: int, out: array<I8>)
    requires g.Valid() && row < g.m && 0 <= row * g.n && row * g.n + g.n <= out.Length
    modifies out
    ensures out[..row * g.n + g.n] == old(out[..row * g.n]) + g.Row(row, shift, mode)
  {
    var base := row * g.n;
    for col := 0 to g.n
      invariant out[..base + col] == old(out[..base]) + g.Row(row, shift, mode)[..col]
    {
      var acc := GemmAcc(g, row, col);
      acc := AddBias(acc, g.bias, g.n, col);
      var y := Quantize(acc, shift, mode);
      out[base + col] := y;
    }
  }

  method AddBias(acc: int, bias: seq<I8>, n: nat, i: nat) returns (sum: int)
    requires i < n && (bias == [] || |bias| >= n)
    ensures sum == WithBias(acc, bias, i)
  {
    sum := acc;
    if bias != [] { sum := Wrap32(sum + bias[i]); }
  }

  method RefGemm(g: Gemm, shift: nat, mode: int) returns (out: array<I8>)
    requires g.Valid()
    ensures out[..] == g.Output(shift, mode)
  {
    Distribute(g.m, 0, g.n);
    out := new I8[g.m * g.n];
    for row := 0 to g.m
      invariant 0 <= row * g.n <= out.Length
      invariant out[..row * g.n] == Concat(row, g.RowOf(shift, mode))
    {
      RowSpan(row, g.m, g.n);
      GemmRow(g, row, shift, mode, out);
    }
  }

  // ---- Convolution ----

  // NHWC activations of shape h, w, c; weights of shape k, r, s, c.
  datatype Conv = Conv(act: seq<I8>, wt: seq<I8>, bias: seq<I8>, h: nat, w: nat, c: nat, k: nat, r: nat, s: nat,
                       strideH: nat, strideW: nat, padH: nat, padW: nat) {
    function OutH(): int requires strideH > 0 { OutDim(h, padH, r, strideH) }
    function OutW(): int requires strideW > 0 { OutDim(w, padW, s, strideW) }

    // Every array is as large as its shape says.
    predicate Sized() {
      |act| >= h * w * c && |wt| >= k * r * s * c && (bias == [] || |bias| >= k)
    }

    predicate Valid() { Sized() && strideH > 0 && strideW > 0 && OutH() >= 0 && OutW() >= 0 }

    predicate Inside(ih: int, iw: int) { 0 <= ih < h && 0 <= iw < w }

    // The zero-padded input.
    function Pixel(ih: int, iw: int, ch: int): int {
      if Inside(ih, iw) then At(act, (ih * w + iw) * c + ch) else 0
    }

    function Weight(f: int, i: int, j: int, ch: int): int {
      At(wt, ((f * r + i) * s + j) * c + ch)
    }

    // The products of one tap, of one filter row, and of the whole window.
    function Channels(oh: int, ow: int, f: int, i: int, j: int): int -> int {
      ch => Pixel(oh * strideH + i - padH, ow * strideW + j - padW, ch) * Weight(f, i, j, ch)
    }

    function Taps(oh: int, ow: int, f: int, i: int): int -> int {
      j => Sum(c, Channels(oh, ow, f, i, j))
    }

    function Window(oh: int, ow: int, f: int): int -> int {
      i => Sum(s, Taps(oh, ow, f, i))
    }

    function Cell(oh: int, ow: int, f: int, shift: nat, mode: int): I8 {
      Finish(WithBias(Wrap32(Sum(r, Window(oh, ow, f))), bias, f), shift, mode)
    }

    ghost function PixelOut(oh: int, ow: int, shift: nat, mode: int): seq<I8> {
      seq(k, f => Cell(oh, ow, f, shift, mode))
    }

    ghost function LineOf(oh: int, shift: nat, mode: int): int -> seq<I8> {
      ow => PixelOut(oh, ow, shift, mode)
    }

    ghost function Lines(width: nat, shift: nat, mode: int): int -> seq<I8> {
      oh => Concat(width, LineOf(oh, shift, mode))
    }

    ghost function Output(shift: nat, mode: int): seq<I8>
      requires Valid()
    {
      Concat(OutH(), Lines(OutW(), shift, mode))
    }
  }

  // Every guarded activation read and every weight read lies inside its array.
  lemma {:induction false} PixelInBounds(v: Conv, ih: nat, iw: nat, ch: nat)
    requires v.Sized() && v.Inside(ih, iw) && ch < v.c
    ensures 0 <= (ih * v.w + iw) * v.c + ch < |v.act|
  {
    Flat(ih, iw, v.h, v.w);
    Flat(ih * v.w + iw, ch, v.h * v.w, v.c);
  }

  lemma {:induction false} WeightInBounds(v: Conv, f: nat, i: nat, j: nat, ch: nat)
    requires v.Sized() && f < v.k && i < v.r && j < v.s && ch < v.c
    ensures 0 <= ((f * v.r + i) * v.s + j) * v.c + ch < |v.wt|
  {
    Flat(f, i, v.k, v.r);
    Flat(f * v.r + i, j, v.k * v.r, v.s);
    Flat((f * v.r + i) * v.s + j, ch, v.k * v.r * v.s, v.c);
  }

  method AddChannels(v: Conv, oh: nat, ow: nat, f: nat, i: nat, j: nat, acc: int, ghost before: int)
    returns (sum: int)
    requires v.Sized() && f < v.k && i < v.r && j < v.s && acc == Wrap32(before)
    ensures sum == Wrap32(before + Sum(v.c, v.Channels(oh, ow, f, i, j)))
  {
    sum := acc;
    ghost var terms := v.Channels(oh, ow, f, i, j);
    for ch := 0 to v.c
      invariant sum == Wrap32(before + Sum(ch, terms))
    {
      var ih := oh * v.strideH + i - v.padH;
      var iw := ow * v.strideW + j - v.padW;
      var a: I8 := 0;
      if !(ih < 0 || iw < 0 || ih >= v.h || iw >= v.w) {
        PixelInBounds(v, ih, iw, ch);
        a := v.act[(ih * v.w + iw) * v.c + ch];
      }
      WeightInBounds(v, f, i, j, ch);
      var p := (a as int) * (v.wt[((f * v.r + i) * v.s + j) * v.c + ch] as int);
      assert p == terms(ch);
      Wrap32Absorbs(before + Sum(ch, terms), p);
      sum := Wrap32(sum + p);
    }
  }

  lemma TapAdds(v: Conv, oh: nat, ow: nat, f: nat, i: nat, j: nat)
    ensures Sum(j + 1, v.Taps(oh, ow, f, i)) == Sum(j, v.Taps(oh, ow, f, i)) + Sum(v.c, v.Channels(oh, ow, f, i, j))
  {}

  method AddTaps(v: Conv, oh: nat, ow: nat, f: nat, i: nat, acc: int, ghost before: int) returns (sum: int)
    requires v.Sized() && f < v.k && i < v.r && acc == Wrap32(before)
    ensures sum == Wrap32(before + Sum(v.s, v.Taps(oh, ow, f, i)))
  {
    sum := acc;
    ghost var terms, exact := v.Taps(oh, ow, f, i), before;
    for j := 0 to v.s
      invariant sum == Wrap32(exact)
      invariant exact == before + Sum(j, terms)
    {
      sum := AddChannels(v, oh, ow, f, i, j, sum, exact);
      TapAdds(v, oh, ow, f, i, j);
      exact := exact + Sum(v.c, v.Channels(oh, ow, f, i, j));
    }
  }

  lemma FilterRowAdds(v: Conv, oh: nat, ow: nat, f: nat, i: nat)
    ensures Sum(i + 1, v.Window(oh, ow, f)) == Sum(i, v.Window(oh, ow, f)) + Sum(v.s, v.Taps(oh, ow, f, i))
  {}

  method ConvAcc(v: Conv, oh: nat, ow: nat, f: nat) returns (acc: int)
    requires v.Sized() && f < v.k
    ensures acc == Wrap32(Sum(v.r, v.Window(oh, ow, f)))
  {
    acc := 0;
    ghost var terms, exact := v.Window(oh, ow, f), 0;
    for i := 0 to v.r
      invariant acc == Wrap32(exact)
      invariant exact == Sum(i, terms)
    {
      acc := AddTaps(v, oh, ow, f, i, acc, exact);
      FilterRowAdds(v, oh, ow, f, i);
      exact := exact + Sum(v.s, v.Taps(oh, ow, f, i));
    }
  }

  method ConvPixel(v: Conv, oh: nat, ow: nat, shift: nat, mode: int, out: array<I8>, base: nat)
    requires v.Sized() && base + v.k <= out.Length
    modifies out
    ensures out[..base + v.k] == old(out[..base]) + v.PixelOut(oh, ow, shift, mode)
  {
    for f := 0 to v.k
      invariant out[..base + f] == old(out[..base]) + v.PixelOut(oh, ow, shift, mode)[..f]
    {
      var acc := ConvAcc(v, oh, ow, f);
      acc := AddBias(acc, v.bias, v.k, f);
      var y := Quantize(acc, shift, mode);
      out[base + f] := y;
    }
  }

  // One line of output positions; the position (oh, 0) is number `first`.
  method ConvLine(v: Conv, oh: nat, first: nat, width: nat, shift: nat, mode: int, out: array<I8>)
    requires v.Sized() && 0 <= first * v.k <= (first + width) * v.k <= out.Length
    modifies out
    ensures out[..(first + width) * v.k] == old(out[..first * v.k]) + v.Lines(width, shift, mode)(oh)
  {
    ghost var start, line, done := out[..first * v.k], v.LineOf(oh, shift, mode), out[..first * v.k];
    for ow := 0 to width
      invariant 0 <= (first + ow) * v.k <= out.Length
      invariant out[..(first + ow) * v.k] == done
      invariant done == start + Concat(ow, line)
    {
      RowSpan(first + ow, first + width, v.k);
      ConvPixel(v, oh, ow, shift, mode, out, (first + ow) * v.k);
      PixelAdds(v, oh, ow, shift, mode, start);
      done := done + v.PixelOut(oh, ow, shift, mode);
    }
  }

  lemma PixelAdds(v: Conv, oh: nat, ow: nat, shift: nat, mode: int, start: seq<I8>)
    ensures start + Concat(ow + 1, v.LineOf(oh, shift, mode))
         == start + Concat(ow, v.LineOf(oh, shift, mode)) + v.PixelOut(oh, ow, shift, mode)
  {}

  method RefConv(v: Conv, shift: nat, mode: int) returns (out: array<I8>)
    requires v.Valid()
    ensures out[..] == v.Output(shift, mode)
  {
    var height, width := v.OutH(), v.OutW();
    Distribute(height, 0, width);
    Distribute(height * width, 0, v.k);
    out := new I8[height * width * v.k];
    for oh := 0 to height
      invariant 0 <= oh * width * v.k <= out.Length
      invariant out[..oh * width * v.k] == Concat(oh, v.Lines(width, shift, mode))
    {
      LineSpan(oh, height, width, v.k);
      ConvLine(v, oh, oh * width, width, shift, mode, out);
    }
  }

  // ---- Convolution is a matrix product over patches ----

  ghost function PixelChannels(v: Conv, ih: int, iw: int): (p: seq<I8>)
    ensures |p| == v.c
  {
    seq(v.c, ch => v.Pixel(ih, iw, ch))
  }

  ghost function PatchTaps(v: Conv, oh: int, ow: int, i: int): int -> seq<I8> {
    j => PixelChannels(v, oh * v.strideH + i - v.padH, ow * v.strideW + j - v.padW)
  }

  ghost function PatchRows(v: Conv, oh: int, ow: int): int -> seq<I8> {
    i => Concat(v.s, PatchTaps(v, oh, ow, i))
  }

  // The window of one output position, laid out in one row.
  ghost function Patch(v: Conv, oh: int, ow: int): seq<I8> { Concat(v.r, PatchRows(v, oh, ow)) }

  ghost function PatchLine(v: Conv, oh: int): int -> seq<I8> { ow => Patch(v, oh, ow) }

  ghost function PatchLines(v: Conv, width: nat): int -> seq<I8> {
    oh => Concat(width, PatchLine(v, oh))
  }

  ghost function WeightColumns(v: Conv): int -> seq<I8> {
    q => seq(v.k, f => At(v.wt, f * (v.r * v.s * v.c) + q))
  }

  // The im2col matrix times the transposed weights.
  ghost function Im2col(v: Conv, height: nat, width: nat): Gemm {
    Gemm(Concat(height, PatchLines(v, width)), Concat(v.r * v.s * v.c, WeightColumns(v)), v.bias,
         height * width, v.k, v.r * v.s * v.c)
  }

  lemma {:induction false} FilterRowElement(v: Conv, oh: int, ow: int, i: nat, j: nat, ch: nat)
    requires j < v.s && ch < v.c
    ensures var row := PatchRows(v, oh, ow)(i);
            0 <= j * v.c + ch < |row| == v.s * v.c &&
            row[j * v.c + ch] == v.Pixel(oh * v.strideH + i - v.padH, ow * v.strideW + j - v.padW, ch)
  {
    TapLengths(v, oh, ow, i);
    ConcatAt(v.s, v.c, PatchTaps(v, oh, ow, i), j, ch);
    assert PatchTaps(v, oh, ow, i)(j)
        == PixelChannels(v, oh * v.strideH + i - v.padH, ow * v.strideW + j - v.padW);
  }

  lemma {:induction false} PatchElement(v: Conv, oh: int, ow: int, i: nat, j: nat, ch: nat)
    requires i < v.r && j < v.s && ch < v.c
    ensures var e := (i * v.s + j) * v.c + ch;
            0 <= e < |Patch(v, oh, ow)| == v.r * v.s * v.c && j * v.c + ch < |PatchRows(v, oh, ow)(i)| &&
            j * v.c + ch >= 0 && Patch(v, oh, ow)[e] == PatchRows(v, oh, ow)(i)[j * v.c + ch]
  {
    PatchRowLengths(v, oh, ow);
    FilterRowElement(v, oh, ow, i, j, ch);
    ConcatAt(v.r, v.s * v.c, PatchRows(v, oh, ow), i, j * v.c + ch);
    Reassociate(i, v.s, v.c, j);
    Reassociate(v.r, v.s, v.c, 0);
  }

  lemma TapLengths(v: Conv, oh: int, ow: int, i: int)
    ensures forall j :: |PatchTaps(v, oh, ow, i)(j)| == v.c
  {
    forall j ensures |PatchTaps(v, oh, ow, i)(j)| == v.c {
      assert PatchTaps(v, oh, ow, i)(j)
          == PixelChannels(v, oh * v.strideH + i - v.padH, ow * v.strideW + j - v.padW);
    }
  }

  lemma {:induction false} PatchRowLengths(v: Conv, oh: int, ow: int)
    ensures forall i :: 0 <= i < v.r ==> |PatchRows(v, oh, ow)(i)| == v.s * v.c
  {
    forall i | 0 <= i < v.r ensures |PatchRows(v, oh, ow)(i)| == v.s * v.c {
      TapLengths(v, oh, ow, i);
      ConcatLength(v.s, v.c, PatchTaps(v, oh, ow, i));
    }
  }

  lemma {:induction false} PatchLength(v: Conv, oh: int, ow: int)
    ensures |Patch(v, oh, ow)| == v.r * v.s * v.c
  {
    PatchRowLengths(v, oh, ow);
    ConcatLength(v.r, v.s * v.c, PatchRows(v, oh, ow));
    Reassociate(v.r, v.s, v.c, 0);
  }

  lemma {:induction false} LineLength(v: Conv, width: nat, oh: int)
    ensures forall ow :: |PatchLine(v, oh)(ow)| == v.r * v.s * v.c
    ensures |PatchLines(v, width)(oh)| == width * (v.r * v.s * v.c)
  {
    forall ow ensures |PatchLine(v, oh)(ow)| == v.r * v.s * v.c { PatchLength(v, oh, ow); }
    ConcatLength(width, v.r * v.s * v.c, PatchLine(v, oh));
  }

  lemma {:induction false} LineLengths(v: Conv, width: nat)
    ensures forall oh :: |PatchLines(v, width)(oh)| == width * (v.r * v.s * v.c)
  {
    forall oh ensures |PatchLines(v, width)(oh)| == width * (v.r * v.s * v.c) { LineLength(v, width, oh); }
  }

  // Row (oh, ow) of the im2col matrix is that position's patch.
  lemma {:induction false} MatrixElement(v: Conv, height: nat, width: nat, oh: nat, ow: nat, e: nat)
    requires oh < height && ow < width && e < v.r * v.s * v.c
    ensures |Patch(v, oh, ow)| == v.r * v.s * v.c
    ensures At(Im2col(v, height, width).a, (oh * width + ow) * (v.r * v.s * v.c) + e) == Patch(v, oh, ow)[e]
  {
    var len := v.r * v.s * v.c;
    LineLengths(v, width);
    LineLength(v, width, oh);
    ConcatAt(width, len, PatchLine(v, oh), ow, e);
    ConcatAt(height, width * len, PatchLines(v, width), oh, ow * len + e);
    Reassociate(oh, width, len, ow);
  }

  lemma {:induction false} WeightElement(v: Conv, height: nat, width: nat, f: nat, i: nat, j: nat, ch: nat)
    requires f < v.k && i < v.r && j < v.s && ch < v.c
    ensures At(Im2col(v, height, width).b, ((i * v.s + j) * v.c + ch) * v.k + f) == v.Weight(f, i, j, ch)
  {
    EntryBound(v.r, v.s, v.c, i, j, ch);
    WeightIndex(f, v.r, v.s, v.c, i, j);
    ColumnElement(v, v.r * v.s * v.c, (i * v.s + j) * v.c + ch, f);
  }

  lemma EntryBound(r: nat, s: nat, c: nat, i: nat, j: nat, ch: nat)
    requires i < r && j < s && ch < c
    ensures 0 <= (i * s + j) * c + ch < r * s * c
  {
    Flat(i, j, r, s);
    Flat(i * s + j, ch, r * s, c);
  }

  lemma {:induction false} ColumnElement(v: Conv, size: nat, e: nat, f: nat)
    requires size == v.r * v.s * v.c && e < size && f < v.k
    ensures At(Concat(size, WeightColumns(v)), e * v.k + f) == At(v.wt, f * size + e)
  {
    ConcatAt(size, v.k, WeightColumns(v), e, f);
  }

  lemma {:induction false} WeightIndex(f: nat, r: nat, s: nat, c: nat, i: nat, j: nat)
    ensures ((f * r + i) * s + j) * c == f * (r * s * c) + (i * s + j) * c
  {
    Reassociate(f, r, s, i);
    Reassociate(f, r * s, c, i * s + j);
    assert (f * r + i) * s + j == f * (r * s) + (i * s + j);
  }

  // One product of the matrix form is the product of one tap and channel.
  lemma {:induction false} DotIsTap(v: Conv, height: nat, width: nat, oh: nat, ow: nat, f: nat, i: nat, j: nat, ch: nat)
    requires oh < height && ow < width && f < v.k && i < v.r && j < v.s && ch < v.c
    ensures Im2col(v, height, width).Dot(oh * width + ow, f)((i * v.s + j) * v.c + ch)
         == v.Channels(oh, ow, f, i, j)(ch)
  {
    PatchElement(v, oh, ow, i, j, ch);
    FilterRowElement(v, oh, ow, i, j, ch);
    MatrixElement(v, height, width, oh, ow, (i * v.s + j) * v.c + ch);
    WeightElement(v, height, width, f, i, j, ch);
  }

  // The triple sum over taps and channels is one sum over the flattened index, level by level.
  lemma {:induction false} TapSum(v: Conv, oh: nat, ow: nat, f: nat, i: nat, j: nat, d: int -> int)
    requires forall ch :: 0 <= ch < v.c ==> v.Channels(oh, ow, f, i, j)(ch) == d((i * v.s + j) * v.c + ch)
    ensures v.Taps(oh, ow, f, i)(j) == Rows(v.c, d)(i * v.s + j)
  {
    RowIs(v.c, v.Channels(oh, ow, f, i, j), d, i * v.s + j);
  }

  lemma {:induction false} DotTapSum(v: Conv, height: nat, width: nat, oh: nat, ow: nat, f: nat, i: nat, j: nat,
                                     d: int -> int)
    requires oh < height && ow < width && f < v.k && i < v.r && j < v.s
    requires d == Im2col(v, height, width).Dot(oh * width + ow, f)
    ensures v.Taps(oh, ow, f, i)(j) == Rows(v.c, d)(i * v.s + j)
  {
    forall ch | 0 <= ch < v.c ensures v.Channels(oh, ow, f, i, j)(ch) == d((i * v.s + j) * v.c + ch) {
      DotIsTap(v, height, width, oh, ow, f, i, j, ch);
    }
    TapSum(v, oh, ow, f, i, j, d);
  }

  lemma {:induction false} FilterRowSum(v: Conv, height: nat, width: nat, oh: nat, ow: nat, f: nat, i: nat,
                                        d: int -> int)
    requires oh < height && ow < width && f < v.k && i < v.r
    requires d == Im2col(v, height, width).Dot(oh * width + ow, f)
    ensures v.Window(oh, ow, f)(i) == Rows(v.s, Rows(v.c, d))(i)
  {
    var taps, g := v.Taps(oh, ow, f, i), Rows(v.c, d);
    forall j | 0 <= j < v.s ensures taps(j) == g(i * v.s + j) {
      DotTapSum(v, height, width, oh, ow, f, i, j, d);
    }
    RowIs(v.s, taps, g, i);
  }

  lemma {:induction false} WindowSum(v: Conv, height: nat, width: nat, oh: nat, ow: nat, f: nat, d: int -> int)
    requires oh < height && ow < width && f < v.k
    requires d == Im2col(v, height, width).Dot(oh * width + ow, f)
    ensures Sum(v.r, v.Window(oh, ow, f)) == Sum(v.r * v.s * v.c, d)
  {
    var window, g := v.Window(oh, ow, f), Rows(v.c, d);
    forall i | 0 <= i < v.r ensures window(i) == Rows(v.s, g)(i) {
      FilterRowSum(v, height, width, oh, ow, f, i, d);
    }
    SumExtensional(v.r, window, Rows(v.s, g));
    SumFlatten3(v.r, v.s, v.c, d);
  }

  lemma {:induction false} CellIsGemmCell(v: Conv, height: nat, width: nat, oh: nat, ow: nat, f: nat,
                                          shift: nat, mode: int)
    requires oh < height && ow < width && f < v.k
    ensures v.Cell(oh, ow, f, shift, mode) == Im2col(v, height, width).Cell(oh * width + ow, f, shift, mode)
  {
    WindowSum(v, height, width, oh, ow, f, Im2col(v, height, width).Dot(oh * width + ow, f));
  }

  // ref_conv is ref_gemm on the patch matrix, for every shape, stride, padding, shift and activation,
  // wrapping accumulators included.
  lemma {:induction false} ConvIsGemm(v: Conv, shift: nat, mode: int)
    requires v.Valid()
    ensures v.Output(shift, mode) == Im2col(v, v.OutH(), v.OutW()).Output(shift, mode)
  {
    LinesAreGemmRows(v, v.OutH(), v.OutW(), shift, mode);
  }

  lemma {:induction false} LinesAreGemmRows(v: Conv, height: nat, width: nat, shift: nat, mode: int)
    ensures Concat(height, v.Lines(width, shift, mode)) == Im2col(v, height, width).Output(shift, mode)
  {
    var rows, lines := Im2col(v, height, width).RowOf(shift, mode), v.Lines(width, shift, mode);
    forall oh | 0 <= oh < height ensures lines(oh) == Blocks(width, rows)(oh) {
      LineIsGemmRows(v, height, width, oh, shift, mode, rows);
    }
    ConcatExtensional(height, lines, Blocks(width, rows));
    ConcatFlatten(height, width, rows);
  }

  lemma {:induction false} LineIsGemmRows(v: Conv, height: nat, width: nat, oh: nat, shift: nat, mode: int,
                                          rows: int -> seq<I8>)
    requires oh < height && rows == Im2col(v, height, width).RowOf(shift, mode)
    ensures v.Lines(width, shift, mode)(oh) == Blocks(width, rows)(oh)
  {
    var line := v.LineOf(oh, shift, mode);
    forall ow | 0 <= ow < width ensures line(ow) == rows(oh * width + ow) {
      PixelIsGemmRow(v, height, width, oh, ow, shift, mode);
    }
    BlockIs(width, line, rows, oh);
  }

  lemma {:induction false} PixelIsGemmRow(v: Conv, height: nat, width: nat, oh: nat, ow: nat, shift: nat, mode: int)
    requires oh < height && ow < width
    ensures v.PixelOut(oh, ow, shift, mode) == Im2col(v, height, width).Row(oh * width + ow, shift, mode)
  {
    forall f | 0 <= f < v.k
      ensures v.Cell(oh, ow, f, shift, mode) == Im2col(v, height, width).Cell(oh * width + ow, f, shift, mode)
    {
      CellIsGemmCell(v, height, width, oh, ow, f, shift, mode);
    }
  }

  // Element (oh, ow, f) of the output.
  lemma {:induction false} ConvCell(v: Conv, shift: nat, mode: int, oh: nat, ow: nat, f: nat)
    requires v.Valid() && oh < v.OutH() && ow < v.OutW() && f < v.k
    ensures var at := (oh * v.OutW() + ow) * v.k + f;
            0 <= at < |v.Output(shift, mode)| == v.OutH() * v.OutW() * v.k &&
            v.Output(shift, mode)[at] == v.Cell(oh, ow, f, shift, mode)
  {
    var g := Im2col(v, v.OutH(), v.OutW());
    ConvIsGemm(v, shift, mode);
    Flat(oh, ow, v.OutH(), v.OutW());
    GemmCell(g, shift, mode, oh * v.OutW() + ow, f);
    CellIsGemmCell(v, v.OutH(), v.OutW(), oh, ow, f, shift, mode);
  }

  // The products of one window, by their indices: an activation outside the input counts as zero.
  ghost predicate WindowTerms(v: Conv, oh: nat, ow: nat, f: nat, term: (int, int, int) -> int) {
    forall i, j, ch :: 0 <= i < v.r && 0 <= j < v.s && 0 <= ch < v.c ==>
      TermIs(v, oh * v.strideH + i - v.padH, ow * v.strideW + j - v.padW, ((f * v.r + i) * v.s + j) * v.c + ch, ch,
             term(i, j, ch))
  }

  ghost predicate TermIs(v: Conv, ih: int, iw: int, at: int, ch: int, t: int) {
    if 0 <= ih < v.h && 0 <= iw < v.w then
      0 <= (ih * v.w + iw) * v.c + ch < |v.act| && 0 <= at < |v.wt| ==>
        t == (v.act[(ih * v.w + iw) * v.c + ch] as int) * (v.wt[at] as int)
    else t == 0
  }

  ghost function TapTerms(term: (int, int, int) -> int, i: int, j: int): int -> int { ch => term(i, j, ch) }

  ghost function RowTerms(term: (int, int, int) -> int, i: int, c: nat): int -> int {
    j => Sum(c, TapTerms(term, i, j))
  }

  ghost function AllTerms(term: (int, int, int) -> int, s: nat, c: nat): int -> int {
    i => Sum(s, RowTerms(term, i, c))
  }

  lemma {:induction false} TermIsProduct(v: Conv, oh: nat, ow: nat, f: nat, i: nat, j: nat, ch: nat,
                                         term: (int, int, int) -> int)
    requires v.Sized() && f < v.k && i < v.r && j < v.s && ch < v.c && WindowTerms(v, oh, ow, f, term)
    ensures term(i, j, ch) == v.Channels(oh, ow, f, i, j)(ch)
  {
    var ih, iw := oh * v.strideH + i - v.padH, ow * v.strideW + j - v.padW;
    assert TermIs(v, ih, iw, ((f * v.r + i) * v.s + j) * v.c + ch, ch, term(i, j, ch));
    WeightInBounds(v, f, i, j, ch);
    if v.Inside(ih, iw) { PixelInBounds(v, ih, iw, ch); }
  }

  lemma {:induction false} TermsAdd(v: Conv, oh: nat, ow: nat, f: nat, term: (int, int, int) -> int)
    requires v.Sized() && f < v.k && WindowTerms(v, oh, ow, f, term)
    ensures Sum(v.r, AllTerms(term, v.s, v.c)) == Sum(v.r, v.Window(oh, ow, f))
  {
    forall i | 0 <= i < v.r ensures AllTerms(term, v.s, v.c)(i) == v.Window(oh, ow, f)(i) {
      forall j | 0 <= j < v.s ensures RowTerms(term, i, v.c)(j) == v.Taps(oh, ow, f, i)(j) {
        forall ch | 0 <= ch < v.c ensures TapTerms(term, i, j)(ch) == v.Channels(oh, ow, f, i, j)(ch) {
          TermIsProduct(v, oh, ow, f, i, j, ch, term);
        }
        SumExtensional(v.c, TapTerms(term, i, j), v.Channels(oh, ow, f, i, j));
      }
      SumExtensional(v.s, RowTerms(term, i, v.c), v.Taps(oh, ow, f, i));
    }
    SumExtensional(v.r, AllTerms(term, v.s, v.c), v.Window(oh, ow, f));
  }

  // There is such a list of products for every window.
  lemma {:induction false} TermsExist(v: Conv, oh: nat, ow: nat, f: nat)
    requires v.Sized() && f < v.k
    ensures WindowTerms(v, oh, ow, f, (i, j, ch) => v.Channels(oh, ow, f, i, j)(ch))
  {
    forall i, j, ch | 0 <= i < v.r && 0 <= j < v.s && 0 <= ch < v.c
      ensures TermIs(v, oh * v.strideH + i - v.padH, ow * v.strideW + j - v.padW, ((f * v.r + i) * v.s + j) * v.c + ch,
                     ch, v.Channels(oh, ow, f, i, j)(ch))
    {}
  }

  // An output of the convolution in numbers, as for the matrix product.
  lemma {:induction false} ConvMeaning(v: Conv, shift: nat, mode: int, oh: nat, ow: nat, f: nat,
                                       term: (int, int, int) -> int, acc: int, x: int, q: int)
    requires v.Valid() && oh < v.OutH() && ow < v.OutW() && f < v.k && WindowTerms(v, oh, ow, f, term)
    requires FitsI32(acc)
    requires (acc - Sum(v.r, AllTerms(term, v.s, v.c)) - (if v.bias == [] then 0 else v.bias[f])) % 0x1_0000_0000 == 0
    requires mode == 1 ==> x == if acc < 0 then 0 else acc
    requires mode == 2 && acc < 0 ==> 8 * x <= acc < 8 * x + 8
    requires mode != 1 && !(mode == 2 && acc < 0) ==> x == acc
    requires q * Pow2(shift) <= x < (q + 1) * Pow2(shift)
    ensures var at := (oh * v.OutW() + ow) * v.k + f;
            0 <= at < |v.Output(shift, mode)| &&
            v.Output(shift, mode)[at] == if q > 127 then 127 else if q < -128 then -128 else q
  {
    ConvCell(v, shift, mode, oh, ow, f);
    TermsAdd(v, oh, ow, f, term);
    AccumulatorIs(Sum(v.r, v.Window(oh, ow, f)), v.bias, f, acc);
    FinishMeaning(acc, shift, mode, x, q);
  }

  // The output has a line for every window of r lines that fits the padded input, and a column for every window of
  // s columns. Where the window does not fit, truncation still gives one if less than a stride is missing.
  lemma {:induction false} OutputSizes(v: Conv, o: nat)
    requires v.strideH > 0 && v.strideW > 0
    ensures o < v.OutH() <==> o * v.strideH + v.r <= v.h + 2 * v.padH || (o == 0 && v.r < v.h + 2 * v.padH + v.strideH)
    ensures o < v.OutW() <==> o * v.strideW + v.s <= v.w + 2 * v.padW || (o == 0 && v.s < v.w + 2 * v.padW + v.strideW)
  {
    OutDimExact(v.h, v.padH, v.r, v.strideH, o);
    OutDimExact(v.w, v.padW, v.s, v.strideW, o);
  }

  // The matrix form is a legal call of ref_gemm.
  lemma {:induction false} Im2colValid(v: Conv, height: nat, width: nat)
    requires v.Sized()
    ensures Im2col(v, height, width).Valid()
  {
    var len := v.r * v.s * v.c;
    LineLengths(v, width);
    ConcatLength(height, width * len, PatchLines(v, width));
    ConcatLength(len, v.k, WeightColumns(v));
    Reassociate(height, width, len, 0);
  }

  // ---- When the accumulator is wide enough ----

  lemma ProductBounds(a: int, b: int)
    requires -128 <= a <= 127 && -128 <= b <= 127
    ensures -16384 <= a * b <= 16384
  {
    SignedScale(a, b, 128);
  }

  lemma SignedScale(a: int, b: int, n: int)
    requires 0 - n <= a <= n && 0 - n <= b <= n
    ensures -(n * n) <= a * b <= n * n
  {
    assert (n - a) * (n - b) == n * n - n * b - a * n + a * b;
    assert (n + a) * (n + b) == n * n + n * b + a * n + a * b;
    assert (n - a) * (n + b) == n * n + n * b - a * n - a * b;
    assert (n + a) * (n - b) == n * n - n * b + a * n - a * b;
    Distribute(0, n - a, n - b);
    Distribute(0, n + a, n + b);
    Distribute(0, n - a, n + b);
    Distribute(0, n + a, n - b);
  }

  // Up to 131071 products and a bias never leave 32 bits, at any point of the accumulation.
  lemma {:induction false} GemmAccFits(g: Gemm, row: int, col: int, k: nat)
    requires k <= g.q <= 131071
    ensures FitsI32(Sum(k, g.Dot(row, col))) && FitsI32(Sum(k, g.Dot(row, col)) + At(g.bias, col))
  {
    forall i | 0 <= i < k ensures -16384 <= g.Dot(row, col)(i) <= 16384 {
      ProductBounds(At(g.a, row * g.q + i), At(g.b, i * g.n + col));
    }
    SumBounds(k, g.Dot(row, col), -16384, 16384);
  }

  // One more product of -128 by -128 and they can.
  lemma {:induction false} GemmAccOverflows(g: Gemm, row: nat, col: nat)
    requires g.Valid() && row < g.m && col < g.n && g.q >= 131072
    requires (forall i :: 0 <= i < |g.a| ==> g.a[i] == -128) && (forall i :: 0 <= i < |g.b| ==> g.b[i] == -128)
    ensures !FitsI32(Sum(g.q, g.Dot(row, col)))
  {
    forall k | 0 <= k < g.q ensures g.Dot(row, col)(k) == 16384 { GemmTerm(g, row, col, k); }
    SumBounds(g.q, g.Dot(row, col), 16384, 16384);
  }

  // The same for the convolution, in its own loop order.
  lemma {:induction false} ConvAccFits(v: Conv, oh: int, ow: int, f: int, i: nat, j: nat, ch: nat)
    requires i < v.r && j < v.s && ch <= v.c && v.r * v.s * v.c <= 131071
    ensures FitsI32(Sum(i, v.Window(oh, ow, f)) + Sum(j, v.Taps(oh, ow, f, i)) + Sum(ch, v.Channels(oh, ow, f, i, j)))
  {
    WindowBounds(v, oh, ow, f, i);
    FilterRowBounds(v, oh, ow, f, i, j);
    ChannelBounds(v, oh, ow, f, i, j, ch);
    TapsSoFar(i, j, ch, v.r, v.s, v.c);
  }

  lemma {:induction false} ChannelBounds(v: Conv, oh: int, ow: int, f: int, i: nat, j: nat, ch: nat)
    ensures -16384 * ch <= Sum(ch, v.Channels(oh, ow, f, i, j)) <= 16384 * ch
  {
    forall x | 0 <= x < ch ensures -16384 <= v.Channels(oh, ow, f, i, j)(x) <= 16384 {
      ProductBounds(v.Pixel(oh * v.strideH + i - v.padH, ow * v.strideW + j - v.padW, x), v.Weight(f, i, j, x));
    }
    SumBounds(ch, v.Channels(oh, ow, f, i, j), -16384, 16384);
  }

  lemma {:induction false} FilterRowBounds(v: Conv, oh: int, ow: int, f: int, i: nat, j: nat)
    ensures -16384 * (j * v.c) <= Sum(j, v.Taps(oh, ow, f, i)) <= 16384 * (j * v.c)
  {
    forall x | 0 <= x < j ensures -16384 * v.c <= v.Taps(oh, ow, f, i)(x) <= 16384 * v.c {
      ChannelBounds(v, oh, ow, f, i, x, v.c);
    }
    ScaledBounds(j, v.Taps(oh, ow, f, i), v.c);
  }

  lemma {:induction false} WindowBounds(v: Conv, oh: int, ow: int, f: int, i: nat)
    ensures -16384 * (i * (v.s * v.c)) <= Sum(i, v.Window(oh, ow, f)) <= 16384 * (i * (v.s * v.c))
  {
    forall x | 0 <= x < i ensures -16384 * (v.s * v.c) <= v.Window(oh, ow, f)(x) <= 16384 * (v.s * v.c) {
      FilterRowBounds(v, oh, ow, f, x, v.s);
    }
    ScaledBounds(i, v.Window(oh, ow, f), v.s * v.c);
  }

  lemma {:induction false} ScaledBounds(n: nat, f: int -> int, m: nat)
    requires forall i :: 0 <= i < n ==> -16384 * m <= f(i) <= 16384 * m
    ensures -16384 * (n * m) <= Sum(n, f) <= 16384 * (n * m)
  {
    SumBounds(n, f, -16384 * m, 16384 * m);
    assert n * (16384 * m) == 16384 * (n * m);
    assert n * (-16384 * m) == -16384 * (n * m);
  }

  lemma {:induction false} TapsSoFar(i: nat, j: nat, ch: nat, r: nat, s: nat, c: nat)
    requires i < r && j < s && ch <= c
    ensures i * (s * c) + j * c + ch <= r * s * c
  {
    Reassociate(i, s, c, j);
    Flat(i, j, r, s);
    RowSpan(i * s + j, r * s, c);
  }
}
