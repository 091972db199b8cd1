// ref_pool in tb/integration/npu_tb.h.
module Pool {
  import opened Common
  import opened Windows

  const MAX_POOL := 0

  function Max(a: I8, b: I8): I8 { if b > a then b else a }

  // NHWC input of shape h, w, c.
  datatype Pool = Pool(input: seq<I8>, h: nat, w: nat, c: nat, r: nat, s: nat,
                       strideH: nat, strideW: nat, padH: nat, padW: nat, mode: int) {
    function OutH(): int requires strideH > 0 { OutDim(h, padH, r, strideH) }
    function OutW(): int requires strideW > 0 { OutDim(w, padW, s, strideW) }

    // The average divides by the window's area.
    predicate Sized() { |input| >= h * w * c && (mode != MAX_POOL ==> r > 0 && s > 0) }

    predicate Valid() { Sized() && strideH > 0 && strideW > 0 && OutH() >= 0 && OutW() >= 0 }

    predicate Inside(ih: int, iw: int) { 0 <= ih < h && 0 <= iw < w }

    predicate Covers(oh: int, ow: int, i: int, j: int) {
      Inside(oh * strideH + i - padH, ow * strideW + j - padW)
    }

    // What window position (i, j) of output (oh, ow) reads in channel ch; `pad` outside the input.
    function Tap(oh: int, ow: int, ch: int, i: int, j: int, pad: I8): I8 {
      if Covers(oh, ow, i, j) then Read(oh * strideH + i - padH, ow * strideW + j - padW, ch) else pad
    }

    function Read(ih: int, iw: int, ch: int): I8 {
      var at := (ih * w + iw) * c + ch;
      if 0 <= at < |input| then input[at] else 0
    }

    function MaxInRow(oh: int, ow: int, ch: int, i: int, n: nat): I8 {
      if n == 0 then -128 else Max(MaxInRow(oh, ow, ch, i, n - 1), Tap(oh, ow, ch, i, n - 1, -128))
    }

    function MaxInRows(oh: int, ow: int, ch: int, n: nat): I8 {
      if n == 0 then -128 else Max(MaxInRows(oh, ow, ch, n - 1), MaxInRow(oh, ow, ch, n - 1, s))
    }

    function RowTaps(oh: int, ow: int, ch: int, i: int): int -> int { j => Tap(oh, ow, ch, i, j, 0) }

    function WindowTaps(oh: int, ow: int, ch: int): int -> int { i => Sum(s, RowTaps(oh, ow, ch, i)) }

    function Cell(oh: int, ow: int, ch: int): I8
      requires Sized()
    {
      if mode == MAX_POOL then MaxInRows(oh, ow, ch, r) else
        AreaPositive(r, s);
        Average(Wrap32(Sum(r, WindowTaps(oh, ow, ch))), r * s)
    }

    ghost function PixelOut(oh: int, ow: int): seq<I8>
      requires Sized()
    {
      seq(c, ch => Cell(oh, ow, ch))
    }

    ghost function LineOf(oh: int): int -> seq<I8>
      requires Sized()
    {
      ow => PixelOut(oh, ow)
    }

    ghost function Lines(width: nat): int -> seq<I8>
      requires Sized()
    {
      oh => Concat(width, LineOf(oh))
    }

    ghost function Output(): seq<I8>
      requires Valid()
    {
      Concat(OutH(), Lines(OutW()))
    }
  }

  lemma AreaPositive(r: nat, s: nat)
    requires r > 0 && s > 0
    ensures r * s > 0
  {}

  // Unsigned division of the magnitude, sign restored, clamped. -2^31 has no 32-bit magnitude but an unsigned one.
  function Average(sum: int, area: nat): I8
    requires area > 0
  {
    var quot := (if sum < 0 then -sum else sum) / area;
    Clamp8(if sum < 0 then -quot else quot)
  }

  // ---- What the cells mean ----

  lemma {:induction false} MaxInRowIsGreatest(p: Pool, oh: int, ow: int, ch: int, i: int, n: nat)
    ensures var m := p.MaxInRow(oh, ow, ch, i, n);
            (forall j :: 0 <= j < n ==> p.Tap(oh, ow, ch, i, j, -128) <= m) && m >= -128 &&
            (m == -128 || exists j :: 0 <= j < n && p.Tap(oh, ow, ch, i, j, -128) == m)
  {
    if n > 0 { MaxInRowIsGreatest(p, oh, ow, ch, i, n - 1); }
  }

  lemma {:induction false} MaxInRowsIsGreatest(p: Pool, oh: int, ow: int, ch: int, n: nat)
    ensures var m := p.MaxInRows(oh, ow, ch, n);
            (forall i, j :: 0 <= i < n && 0 <= j < p.s ==> p.Tap(oh, ow, ch, i, j, -128) <= m) && m >= -128 &&
            (m == -128 || exists i, j :: 0 <= i < n && 0 <= j < p.s && p.Tap(oh, ow, ch, i, j, -128) == m)
  {
    if n > 0 {
      MaxInRowsIsGreatest(p, oh, ow, ch, n - 1);
      MaxInRowIsGreatest(p, oh, ow, ch, n - 1, p.s);
    }
  }

  // A max-pool output is the greatest covered input of its window, or -128 when nothing exceeds that.
  lemma {:induction false} MaxCellIsGreatest(p: Pool, oh: int, ow: int, ch: int)
    requires p.Sized() && p.mode == MAX_POOL
    ensures forall i, j :: 0 <= i < p.r && 0 <= j < p.s && p.Covers(oh, ow, i, j) ==>
              p.Tap(oh, ow, ch, i, j, -128) <= p.Cell(oh, ow, ch)
    ensures p.Cell(oh, ow, ch) == -128 ||
            (exists i, j :: 0 <= i < p.r && 0 <= j < p.s && p.Covers(oh, ow, i, j) &&
                            p.Tap(oh, ow, ch, i, j, -128) == p.Cell(oh, ow, ch))
  {
    MaxInRowsIsGreatest(p, oh, ow, ch, p.r);
    var m := p.Cell(oh, ow, ch);
    if m != -128 {
      var i, j :| 0 <= i < p.r && 0 <= j < p.s && p.Tap(oh, ow, ch, i, j, -128) == m;
      assert p.Covers(oh, ow, i, j);
    }
  }

  // An average lies between any bounds of its zero-padded window, so the clamp never acts, whenever the sum
  // fits its 32-bit register.
  lemma {:induction false} AverageWithin(p: Pool, oh: int, ow: int, ch: int, lo: int, hi: int)
    requires p.Sized() && p.mode != MAX_POOL && FitsI32(Sum(p.r, p.WindowTaps(oh, ow, ch))) && -128 <= lo && hi <= 127
    requires forall i, j :: 0 <= i < p.r && 0 <= j < p.s ==> lo <= p.Tap(oh, ow, ch, i, j, 0) <= hi
    ensures p.Cell(oh, ow, ch) == TruncDiv(Sum(p.r, p.WindowTaps(oh, ow, ch)), p.r * p.s)
    ensures lo <= p.Cell(oh, ow, ch) <= hi
  {
    AreaPositive(p.r, p.s);
    WindowSumWithin(p, oh, ow, ch, lo, hi);
    AverageExact(Sum(p.r, p.WindowTaps(oh, ow, ch)), p.r * p.s, lo, hi);
  }

  // It always does for windows of up to 2^24 positions...
  lemma {:induction false} WindowSumFits(p: Pool, oh: int, ow: int, ch: int)
    requires p.r * p.s <= 0x100_0000
    ensures FitsI32(Sum(p.r, p.WindowTaps(oh, ow, ch)))
  {
    WindowSumWithin(p, oh, ow, ch, -128, 127);
    AreaNonNegative(p.r, p.s);
  }

  // ...and a larger window of -128 everywhere overflows it.
  lemma {:induction false} WindowSumOverflows(p: Pool, oh: int, ow: int, ch: int)
    requires p.r * p.s > 0x100_0000
    requires forall i, j :: 0 <= i < p.r && 0 <= j < p.s ==> p.Tap(oh, ow, ch, i, j, 0) == -128
    ensures !FitsI32(Sum(p.r, p.WindowTaps(oh, ow, ch)))
  {
    WindowSumWithin(p, oh, ow, ch, -128, -128);
  }

  lemma AreaNonNegative(r: nat, s: nat)
    ensures r * s >= 0
  {}

  lemma {:induction false} AverageExact(sum: int, area: nat, lo: int, hi: int)
    requires 0 < area && FitsI32(sum) && -128 <= lo && hi <= 127 && area * lo <= sum <= area * hi
    ensures Wrap32(sum) == sum && lo <= TruncDiv(sum, area) <= hi && Average(sum, area) == TruncDiv(sum, area)
  {
    QuotientWithin(sum, area, lo, hi);
  }

  lemma {:induction false} WindowSumWithin(p: Pool, oh: int, ow: int, ch: int, lo: int, hi: int)
    requires forall i, j :: 0 <= i < p.r && 0 <= j < p.s ==> lo <= p.Tap(oh, ow, ch, i, j, 0) <= hi
    ensures p.r * p.s * lo <= Sum(p.r, p.WindowTaps(oh, ow, ch)) <= p.r * p.s * hi
  {
    forall i | 0 <= i < p.r ensures p.s * lo <= p.WindowTaps(oh, ow, ch)(i) <= p.s * hi {
      RowSumWithin(p, oh, ow, ch, i, lo, hi);
    }
    SumBounds(p.r, p.WindowTaps(oh, ow, ch), p.s * lo, p.s * hi);
    MulAssociative(p.r, p.s, lo);
    MulAssociative(p.r, p.s, hi);
  }

  lemma MulAssociative(a: int, b: int, c: int)
    ensures a * (b * c) == a * b * c
  {}

  lemma {:induction false} RowSumWithin(p: Pool, oh: int, ow: int, ch: int, i: nat, lo: int, hi: int)
    requires forall j :: 0 <= j < p.s ==> lo <= p.Tap(oh, ow, ch, i, j, 0) <= hi
    ensures p.s * lo <= Sum(p.s, p.RowTaps(oh, ow, ch, i)) <= p.s * hi
  {
    SumBounds(p.s, p.RowTaps(oh, ow, ch, i), lo, hi);
  }

  // A covered position is read in bounds, and its tap is what is read.
  lemma {:induction false} CoveredTap(p: Pool, oh: nat, ow: nat, ch: nat, i: nat, j: nat)
    requires p.Sized() && p.Covers(oh, ow, i, j) && ch < p.c
    ensures var at := ((oh * p.strideH + i - p.padH) * p.w + (ow * p.strideW + j - p.padW)) * p.c + ch;
            0 <= at < |p.input| && forall pad :: p.Tap(oh, ow, ch, i, j, pad) == p.input[at]
  {
    var ih, iw := oh * p.strideH + i - p.padH, ow * p.strideW + j - p.padW;
    Flat(ih, iw, p.h, p.w);
    Flat(ih * p.w + iw, ch, p.h * p.w, p.c);
  }

  // ---- The same by the input's own indices ----

  // A max-pool output is at least every input its window meets...
  lemma {:induction false} MaxAbove(p: Pool, oh: nat, ow: nat, ch: nat, i: nat, j: nat)
    requires p.Sized() && p.mode == 0 && ch < p.c && i < p.r && j < p.s
    ensures var ih, iw := oh * p.strideH + i - p.padH, ow * p.strideW + j - p.padW;
            0 <= ih < p.h && 0 <= iw < p.w ==>
              0 <= (ih * p.w + iw) * p.c + ch < |p.input| &&
              p.input[(ih * p.w + iw) * p.c + ch] <= p.Cell(oh, ow, ch)
  {
    MaxCellIsGreatest(p, oh, ow, ch);
    if p.Covers(oh, ow, i, j) { CoveredTap(p, oh, ow, ch, i, j); }
  }

  // ...and one of them or -128.
  lemma {:induction false} MaxAttained(p: Pool, oh: nat, ow: nat, ch: nat) returns (i: nat, j: nat)
    requires p.Sized() && p.mode == 0 && ch < p.c
    ensures var ih, iw := oh * p.strideH + i - p.padH, ow * p.strideW + j - p.padW;
            p.Cell(oh, ow, ch) == -128 ||
            (i < p.r && j < p.s && 0 <= ih < p.h && 0 <= iw < p.w && 0 <= (ih * p.w + iw) * p.c + ch < |p.input| &&
             p.input[(ih * p.w + iw) * p.c + ch] == p.Cell(oh, ow, ch))
  {
    MaxCellIsGreatest(p, oh, ow, ch);
    i, j := 0, 0;
    if p.Cell(oh, ow, ch) != -128 {
      var y, x :| 0 <= y < p.r && 0 <= x < p.s && p.Covers(oh, ow, y, x) &&
                  p.Tap(oh, ow, ch, y, x, -128) == p.Cell(oh, ow, ch);
      i, j := y, x;
      CoveredTap(p, oh, ow, ch, i, j);
    }
  }

  // The elements of one window: zero where it leaves the input.
  ghost predicate WindowElements(p: Pool, oh: nat, ow: nat, ch: nat, elem: (int, int) -> int) {
    forall i, j :: 0 <= i < p.r && 0 <= j < p.s ==>
      ElementIs(p, oh * p.strideH + i - p.padH, ow * p.strideW + j - p.padW, ch, elem(i, j))
  }

  ghost predicate ElementIs(p: Pool, ih: int, iw: int, ch: int, e: int) {
    if 0 <= ih < p.h && 0 <= iw < p.w then
      0 <= (ih * p.w + iw) * p.c + ch < |p.input| ==> e == p.input[(ih * p.w + iw) * p.c + ch]
    else e == 0
  }

  ghost function RowElements(elem: (int, int) -> int, i: int): int -> int { j => elem(i, j) }

  ghost function AllElements(elem: (int, int) -> int, s: nat): int -> int { i => Sum(s, RowElements(elem, i)) }

  lemma {:induction false} ElementIsTap(p: Pool, oh: nat, ow: nat, ch: nat, i: nat, j: nat, elem: (int, int) -> int)
    requires p.Sized() && ch < p.c && i < p.r && j < p.s && WindowElements(p, oh, ow, ch, elem)
    ensures elem(i, j) == p.Tap(oh, ow, ch, i, j, 0)
  {
    assert ElementIs(p, oh * p.strideH + i - p.padH, ow * p.strideW + j - p.padW, ch, elem(i, j));
    if p.Covers(oh, ow, i, j) { CoveredTap(p, oh, ow, ch, i, j); }
  }

  lemma {:induction false} ElementsAdd(p: Pool, oh: nat, ow: nat, ch: nat, elem: (int, int) -> int)
    requires p.Sized() && ch < p.c && WindowElements(p, oh, ow, ch, elem)
    ensures Sum(p.r, AllElements(elem, p.s)) == Sum(p.r, p.WindowTaps(oh, ow, ch))
  {
    forall i | 0 <= i < p.r ensures AllElements(elem, p.s)(i) == p.WindowTaps(oh, ow, ch)(i) {
      forall j | 0 <= j < p.s ensures RowElements(elem, i)(j) == p.RowTaps(oh, ow, ch, i)(j) {
        ElementIsTap(p, oh, ow, ch, i, j, elem);
      }
      SumExtensional(p.s, RowElements(elem, i), p.RowTaps(oh, ow, ch, i));
    }
    SumExtensional(p.r, AllElements(elem, p.s), p.WindowTaps(oh, ow, ch));
  }

  // There are such elements for every window.
  lemma {:induction false} ElementsExist(p: Pool, oh: nat, ow: nat, ch: nat)
    requires p.Sized() && ch < p.c
    ensures WindowElements(p, oh, ow, ch, (i, j) => p.Tap(oh, ow, ch, i, j, 0))
  {
    forall i, j | 0 <= i < p.r && 0 <= j < p.s
      ensures ElementIs(p, oh * p.strideH + i - p.padH, ow * p.strideW + j - p.padW, ch, p.Tap(oh, ow, ch, i, j, 0))
    {}
  }

  // An average is the quotient of exactly their sum by the window's area, truncated.
  lemma {:induction false} AverageMeaning(p: Pool, oh: nat, ow: nat, ch: nat, elem: (int, int) -> int)
    requires p.Sized() && p.mode != 0 && ch < p.c && WindowElements(p, oh, ow, ch, elem)
    requires FitsI32(Sum(p.r, AllElements(elem, p.s)))
    ensures var sum, y := Sum(p.r, AllElements(elem, p.s)), p.Cell(oh, ow, ch);
            if sum >= 0 then 0 <= y && y * (p.r * p.s) <= sum < (y + 1) * (p.r * p.s)
            else y <= 0 && (y - 1) * (p.r * p.s) < sum <= y * (p.r * p.s)
  {
    ElementsAdd(p, oh, ow, ch, elem);
    AreaPositive(p.r, p.s);
    AverageWithin(p, oh, ow, ch, -128, 127);
    TruncDivExact(Sum(p.r, p.WindowTaps(oh, ow, ch)), p.r * p.s);
  }

  // The output has a line for every window of r lines that fits the padded input, and a column for every window of
  // s columns; and the first of each if less than a stride is missing.
  lemma {:induction false} OutputSizes(p: Pool, o: nat)
    requires p.strideH > 0 && p.strideW > 0
    ensures o < p.OutH() <==> o * p.strideH + p.r <= p.h + 2 * p.padH || (o == 0 && p.r < p.h + 2 * p.padH + p.strideH)
    ensures o < p.OutW() <==> o * p.strideW + p.s <= p.w + 2 * p.padW || (o == 0 && p.s < p.w + 2 * p.padW + p.strideW)
  {
    OutDimExact(p.h, p.padH, p.r, p.strideH, o);
    OutDimExact(p.w, p.padW, p.s, p.strideW, o);
  }

  // Element (oh, ow, ch) of the output.
  lemma {:induction false} PoolCell(p: Pool, oh: nat, ow: nat, ch: nat)
    requires p.Valid() && oh < p.OutH() && ow < p.OutW() && ch < p.c
    ensures var at := (oh * p.OutW() + ow) * p.c + ch;
            0 <= at < |p.Output()| == p.OutH() * p.OutW() * p.c && p.Output()[at] == p.Cell(oh, ow, ch)
  {
    var height, width := p.OutH(), p.OutW();
    forall y ensures |p.Lines(width)(y)| == width * p.c { ConcatLength(width, p.c, p.LineOf(y)); }
    ConcatAt(width, p.c, p.LineOf(oh), ow, ch);
    ConcatAt(height, width * p.c, p.Lines(width), oh, ow * p.c + ch);
    Reassociate(oh, width, p.c, ow);
    Reassociate(height, width, p.c, 0);
  }

  // ---- The loops ----

  method MaxRow(p: Pool, oh: nat, ow: nat, ch: nat, i: nat, start: I8) returns (maxVal: I8)
    requires p.Sized() && ch < p.c && start >= -128
    ensures maxVal == Max(start, p.MaxInRow(oh, ow, ch, i, p.s))
  {
    maxVal := start;
    for j := 0 to p.s
      invariant maxVal == Max(start, p.MaxInRow(oh, ow, ch, i, j))
    {
      var ih, iw := oh * p.strideH + i - p.padH, ow * p.strideW + j - p.padW;
      if ih >= 0 && ih < p.h && iw >= 0 && iw < p.w {
        CoveredTap(p, oh, ow, ch, i, j);
        var v := p.input[(ih * p.w + iw) * p.c + ch];
        if v > maxVal { maxVal := v; }
      }
    }
  }

  method MaxCell(p: Pool, oh: nat, ow: nat, ch: nat) returns (maxVal: I8)
    requires p.Sized() && ch < p.c
    ensures maxVal == p.MaxInRows(oh, ow, ch, p.r)
  {
    maxVal := -128;
    for i := 0 to p.r
      invariant maxVal == p.MaxInRows(oh, ow, ch, i) >= -128
    {
      maxVal := MaxRow(p, oh, ow, ch, i, maxVal);
    }
  }

  method SumRow(p: Pool, oh: nat, ow: nat, ch: nat, i: nat, start: int, ghost before: int) returns (sum: int)
    requires p.Sized() && ch < p.c && start == Wrap32(before)
    ensures sum == Wrap32(before + Sum(p.s, p.RowTaps(oh, ow, ch, i)))
  {
    sum := start;
    ghost var taps, exact := p.RowTaps(oh, ow, ch, i), before;
    for j := 0 to p.s
      invariant sum == Wrap32(exact) && exact == before + Sum(j, taps)
    {
      var ih, iw := oh * p.strideH + i - p.padH, ow * p.strideW + j - p.padW;
      Wrap32Absorbs(exact, taps(j));
      exact := exact + taps(j);
      if ih >= 0 && ih < p.h && iw >= 0 && iw < p.w {
        CoveredTap(p, oh, ow, ch, i, j);
        sum := Wrap32(sum + p.input[(ih * p.w + iw) * p.c + ch]);
      }
    }
  }

  method AddRow(p: Pool, oh: nat, ow: nat, ch: nat, i: nat, start: int) returns (sum: int)
    requires p.Sized() && ch < p.c && start == Wrap32(Sum(i, p.WindowTaps(oh, ow, ch)))
    ensures sum == Wrap32(Sum(i + 1, p.WindowTaps(oh, ow, ch)))
  {
    sum := SumRow(p, oh, ow, ch, i, start, Sum(i, p.WindowTaps(oh, ow, ch)));
    WindowAdds(p, oh, ow, ch, i);
  }

  method SumWindow(p: Pool, oh: nat, ow: nat, ch: nat) returns (sum: int)
    requires p.Sized() && ch < p.c
    ensures sum == Wrap32(Sum(p.r, p.WindowTaps(oh, ow, ch)))
  {
    sum := 0;
    for i := 0 to p.r
      invariant sum == Wrap32(Sum(i, p.WindowTaps(oh, ow, ch)))
    {
      sum := AddRow(p, oh, ow, ch, i, sum);
    }
  }

  lemma WindowAdds(p: Pool, oh: nat, ow: nat, ch: nat, i: nat)
    ensures Sum(i + 1, p.WindowTaps(oh, ow, ch))
         == Sum(i, p.WindowTaps(oh, ow, ch)) + Sum(p.s, p.RowTaps(oh, ow, ch, i))
  {}

  method Divide(sum: int, area: nat) returns (y: I8)
    requires area > 0
    ensures y == Average(sum, area)
  {
    var neg := sum < 0;
    var absSum: nat := if neg then -sum else sum;
    var quot := absSum / area;
    var result := if neg then -quot else quot;
    if result > 127 { result := 127; }
    if result < -128 { result := -128; }
    y := result;
  }

  method PoolPixel(p: Pool, oh: nat, ow: nat, out: array<I8>, base: nat)
    requires p.Sized() && base + p.c <= out.Length
    modifies out
    ensures out[..base + p.c] == old(out[..base]) + p.PixelOut(oh, ow)
  {
    for ch := 0 to p.c
      invariant out[..base + ch] == old(out[..base]) + p.PixelOut(oh, ow)[..ch]
    {
      var cell;
      if p.mode == MAX_POOL {
        cell := MaxCell(p, oh, ow, ch);
      } else {
        AreaPositive(p.r, p.s);
        var sum := SumWindow(p, oh, ow, ch);
        cell := Divide(sum, p.r * p.s);
      }
      out[base + ch] := cell;
    }
  }

  method PoolLine(p: Pool, oh: nat, first: nat, width: nat, out: array<I8>)
    requires p.Sized() && 0 <= first * p.c <= (first + width) * p.c <= out.Length
    modifies out
    ensures out[..(first + width) * p.c] == old(out[..first * p.c]) + p.Lines(width)(oh)
  {
    ghost var start, line, done := out[..first * p.c], p.LineOf(oh), out[..first * p.c];
    for ow := 0 to width
      invariant 0 <= (first + ow) * p.c <= out.Length
      invariant out[..(first + ow) * p.c] == done && done == start + Concat(ow, line)
    {
      RowSpan(first + ow, first + width, p.c);
      PoolPixel(p, oh, ow, out, (first + ow) * p.c);
      PixelAdds(p, oh, ow, start);
      done := done + p.PixelOut(oh, ow);
    }
  }

  lemma PixelAdds(p: Pool, oh: nat, ow: nat, start: seq<I8>)
    requires p.Sized()
    ensures start + Concat(ow + 1, p.LineOf(oh)) == start + Concat(ow, p.LineOf(oh)) + p.PixelOut(oh, ow)
  {}

  method RefPool(p: Pool) returns (out: array<I8>)
    requires p.Valid()
    ensures out[..] == p.Output()
  {
    var height, width := p.OutH(), p.OutW();
    Distribute(height, 0, width);
    Distribute(height * width, 0, p.c);
    out := new I8[height * width * p.c];
    for oh := 0 to height
      invariant 0 <= oh * width * p.c <= out.Length
      invariant out[..oh * width * p.c] == Concat(oh, p.Lines(width))
    {
      LineSpan(oh, height, width, p.c);
      PoolLine(p, oh, oh * width, width, out);
    }
  }
}
