// sw/runtime/tensor_desc.c and sw/uapi/lgnpu_tensor.h: descriptor checks and the NCHW to NHWC copy.
module Layout {
  import opened Common

  const LAYOUT_NHWC := 0
  const LAYOUT_NCHW := 1
  const LAYOUT_COUNT := 2
  const INT_MAX := 0x7FFF_FFFF

  datatype TensorDesc = TensorDesc(baseAddr: U16, n: U16, h: U16, w: U16, c: U16, layout: U32)

  datatype TensorErr = Ok | NullPtr | ZeroDim | BatchUnsup | LayoutUnknown | Overflow | BufTooSmall

  function Validate(desc: Option<TensorDesc>): TensorErr {
    match desc
    case None => NullPtr
    case Some(d) =>
      if d.n == 0 || d.h == 0 || d.w == 0 || d.c == 0 then ZeroDim
      else if d.n != 1 then BatchUnsup
      else if d.layout >= LAYOUT_COUNT then LayoutUnknown
      else if MulOverflows(d.h, d.w) || MulOverflows(d.h * d.w % 0x1_0000_0000, d.c) then Overflow
      else Ok
  }

  // __builtin_mul_overflow into a uint32_t.
  predicate MulOverflows(a: U32, b: U32) { a * b >= 0x1_0000_0000 }

  function ElementCount(d: TensorDesc): int { d.n * d.h * d.w * d.c }

  // A descriptor passes exactly when it is a single image of positive size in a known layout whose element
  // count fits 32 bits.
  lemma {:induction false} ValidateExact(d: TensorDesc)
    ensures Validate(Some(d)) == Ok
       <==> d.n == 1 && d.h > 0 && d.w > 0 && d.c > 0 && d.layout < LAYOUT_COUNT && ElementCount(d) < 0x1_0000_0000
    ensures Validate(Some(d)) == Ok ==> ElementCount(d) == d.h * d.w * d.c
  {
    PlaneFits(d.h, d.w);
  }

  // And which error it gets otherwise, in the order of the checks.
  lemma {:induction false} ValidateErrors(desc: Option<TensorDesc>)
    ensures Validate(desc) == NullPtr <==> desc == None
    ensures desc.Some? ==>
              var d := desc.value;
              (Validate(desc) == ZeroDim <==> d.n * d.h * d.w * d.c == 0) &&
              (Validate(desc) == BatchUnsup <==> d.n > 1 && d.h * d.w * d.c > 0) &&
              (Validate(desc) == LayoutUnknown <==> d.n == 1 && d.h * d.w * d.c > 0 && d.layout > 1) &&
              (Validate(desc) == Overflow <==> d.n == 1 && d.h * d.w * d.c >= 0x1_0000_0000 && d.layout <= 1)
    ensures Validate(desc) != BufTooSmall
  {
    if desc.Some? {
      var d := desc.value;
      PlaneFits(d.h, d.w);
      ZeroProduct(d.h, d.w);
      ZeroProduct(d.h * d.w, d.c);
      ZeroProduct(d.n, d.h * d.w * d.c);
      assert d.n * d.h * d.w * d.c == d.n * (d.h * d.w * d.c);
    }
  }

  lemma ZeroProduct(a: nat, b: nat)
    ensures a * b >= 0 && (a * b == 0 <==> a == 0 || b == 0)
  {
    if a > 0 && b > 0 { Distribute(1, a - 1, b); }
    Distribute(0, a, b);
  }

  lemma PlaneFits(h: U16, w: U16)
    ensures 0 <= h * w < 0x1_0000_0000 && h * w % 0x1_0000_0000 == h * w
  {
    RowSpan(h, 0x1_0000, 0x1_0000);
    Distribute(0, h, w);
    Distribute(h, 0, 0x1_0000 - w);
    assert h * (0x1_0000 - w) == h * 0x1_0000 - h * w;
  }

  // Byte offset of element (n, h, w, c) in NHWC order.
  function NhwcOffset(d: TensorDesc, n: int, h: int, w: int, c: int): int {
    d.baseAddr + (((n * d.h + h) * d.w + w) * d.c + c)
  }

  // The same element in a source in NCHW order.
  function NchwIndex(d: TensorDesc, h: int, w: int, c: int): int { (c * d.h + h) * d.w + w }

  // ---- Copying along a permutation ----

  // Position x of an m-by-n matrix, read in the order of the transposed one.
  function Transpose(m: nat, n: nat): int -> int {
    x => if n > 0 then (x % n) * m + x / n else 0
  }

  lemma {:induction false} TransposeAt(m: nat, n: nat, i: nat, j: nat)
    requires i < m && j < n
    ensures Transpose(m, n)(i * n + j) == j * m + i && 0 <= i * n + j < m * n && 0 <= j * m + i < m * n
  {
    Flat(i, j, m, n);
    Flat(j, i, n, m);
  }

  // Transposing is a bijection of [0, m * n), and transposing back is its inverse.
  lemma {:induction false} TransposeInverse(m: nat, n: nat, x: nat)
    requires x < m * n
    ensures 0 <= Transpose(m, n)(x) < m * n && Transpose(n, m)(Transpose(m, n)(x)) == x
  {
    Distribute(m, 0, n);
    assert n > 0;
    var i, j := x / n, x % n;
    QuotientBelow(x, n, m);
    TransposeAt(m, n, i, j);
    TransposeAt(n, m, j, i);
  }

  // A block of a buffer filled in source order: source element t goes to place pos(t), and place p is to hold
  // source element idx(p).
  datatype Copy = Copy(was: seq<I8>, from: seq<I8>, base: nat, size: nat, idx: int -> int, pos: int -> int) {
    ghost predicate Permutes() {
      && base + size <= |was| && base + size <= |from|
      && (forall t :: 0 <= t < size ==> 0 <= pos(t) < size && idx(pos(t)) == t)
      && (forall p :: 0 <= p < size ==> 0 <= idx(p) < size && pos(idx(p)) == p)
    }

    // The buffer after the first t source elements have been written.
    ghost function After(t: nat): (now: seq<I8>)
      ensures |now| == |was|
    {
      if t == 0 then was else
        var s, q := After(t - 1), base + pos(t - 1);
        if 0 <= q < |s| && base + t - 1 < |from| then s[q := from[base + t - 1]] else s
    }
  }

  // What has been written is in place and nothing else has changed.
  lemma {:induction false} AfterMeaning(v: Copy, t: nat, q: nat)
    requires v.Permutes() && t <= v.size && q < |v.was|
    ensures v.base <= q < v.base + v.size && v.idx(q - v.base) < t
            ==> v.After(t)[q] == v.from[v.base + v.idx(q - v.base)]
    ensures !(v.base <= q < v.base + v.size && v.idx(q - v.base) < t) ==> v.After(t)[q] == v.was[q]
  {
    if t > 0 {
      AfterMeaning(v, t - 1, q);
      assert v.idx(v.pos(t - 1)) == t - 1;
      if v.base <= q < v.base + v.size && v.idx(q - v.base) == t - 1 {
        assert q - v.base == v.pos(t - 1);
      }
    }
  }

  // One image at element `base`: channel planes of hw elements become hw places of c channels.
  ghost function ImageCopy(was: seq<I8>, from: seq<I8>, base: nat, hw: nat, c: nat): Copy
    requires hw * c >= 0
  {
    Copy(was, from, base, hw * c, Transpose(hw, c), Transpose(c, hw))
  }

  lemma {:induction false} ImagePermutes(was: seq<I8>, from: seq<I8>, base: nat, hw: nat, c: nat)
    requires 0 <= hw * c && base + hw * c <= |was| && base + hw * c <= |from|
    ensures ImageCopy(was, from, base, hw, c).Permutes()
  {
    var v := ImageCopy(was, from, base, hw, c);
    forall t | 0 <= t < v.size ensures 0 <= v.pos(t) < v.size && v.idx(v.pos(t)) == t {
      TransposeInverse(c, hw, t);
    }
    forall p | 0 <= p < v.size ensures 0 <= v.idx(p) < v.size && v.pos(v.idx(p)) == p {
      TransposeInverse(hw, c, p);
    }
  }

  // ---- The loops ----

  // A row of source elements, from number t on, goes to every `channels`-th place from `at` on.
  ghost predicate RowGoes(v: Copy, t: int, at: int, width: nat, channels: nat) {
    0 <= t && t + width <= v.size && 0 <= at &&
    forall w :: 0 <= w < width ==> v.pos(t + w) == at + w * channels && 0 <= at + w * channels < v.size
  }

  // All rows of channel plane c do, whose first element is number `first`; wc places lie between two rows.
  ghost predicate PlaneGoes(v: Copy, c: nat, first: int, height: nat, width: nat, channels: nat, wc: nat) {
    v.base + v.size <= |v.was| && v.base + v.size <= |v.from| &&
    forall h :: 0 <= h < height ==> RowGoes(v, Steps(first, h, width), Steps(c, h, wc), width, channels)
  }

  // All planes of the image do, of hw elements each.
  ghost predicate ImageGoes(v: Copy, height: nat, width: nat, channels: nat, hw: nat, wc: nat) {
    v.size == Steps(0, channels, hw) && (forall first :: PlaneEnd(first, height, width, hw)) &&
    forall c :: 0 <= c < channels ==> PlaneGoes(v, c, Steps(0, c, hw), height, width, channels, wc)
  }

  predicate PlaneEnd(first: int, height: nat, width: nat, hw: nat) { Steps(first, height, width) == first + hw }

  lemma {:induction false} ImageRows(v: Copy, height: nat, width: nat, channels: nat, hw: nat, wc: nat)
    requires v.base + v.size <= |v.was| && v.base + v.size <= |v.from| && v.size == hw * channels
    requires v.pos == Transpose(channels, hw) && hw == height * width && wc == width * channels
    ensures ImageGoes(v, height, width, channels, hw, wc)
  {
    StepsExact(0, channels, hw);
    Swapped(hw, channels);
    forall first ensures PlaneEnd(first, height, width, hw) { StepsExact(first, height, width); }
    forall c | 0 <= c < channels
      ensures PlaneGoes(v, c, Steps(0, c, hw), height, width, channels, wc)
    {
      PlaneRows(v, height, width, channels, hw, wc, c);
    }
  }

  lemma {:induction false} PlaneRows(v: Copy, height: nat, width: nat, channels: nat, hw: nat, wc: nat, c: nat)
    requires v.base + v.size <= |v.was| && v.base + v.size <= |v.from| && v.size == hw * channels
    requires v.pos == Transpose(channels, hw) && hw == height * width && wc == width * channels && c < channels
    ensures PlaneGoes(v, c, Steps(0, c, hw), height, width, channels, wc)
  {
    forall h | 0 <= h < height
      ensures RowGoes(v, Steps(Steps(0, c, hw), h, width), Steps(c, h, wc), width, channels)
    {
      RowPlaces(v, height, width, channels, hw, wc, c, h, Steps(Steps(0, c, hw), h, width), Steps(c, h, wc));
    }
  }

  lemma {:induction false} RowPlaces(v: Copy, height: nat, width: nat, channels: nat, hw: nat, wc: nat, c: nat, h: nat,
                                     t: int, at: int)
    requires v.size == hw * channels && v.pos == Transpose(channels, hw)
    requires hw == height * width && wc == width * channels && c < channels && h < height
    requires t == Steps(Steps(0, c, hw), h, width) && at == Steps(c, h, wc)
    ensures RowGoes(v, t, at, width, channels)
  {
    StepsExact(0, c, hw);
    StepsExact(c * hw, h, width);
    StepsExact(c, h, wc);
    RowBounds(height, width, channels, c, h);
    forall w | 0 <= w < width
      ensures v.pos(t + w) == at + w * channels && 0 <= at + w * channels < v.size
    {
      ElementPlace(height, width, channels, c, h, w);
    }
  }

  lemma RowBounds(height: nat, width: nat, channels: nat, c: nat, h: nat)
    requires c < channels && h < height
    ensures 0 <= c * (height * width) + h * width && 0 <= c + h * (width * channels)
    ensures c * (height * width) + h * width + width <= height * width * channels
  {
    RowSpan(h, height, width);
    RowSpan(c, channels, height * width);
    Swapped(height * width, channels);
    Distribute(0, width, channels);
    Distribute(0, h, width * channels);
  }

  lemma {:induction false} ElementPlace(height: nat, width: nat, channels: nat, c: nat, h: nat, w: nat)
    requires c < channels && h < height && w < width
    ensures height * width >= 0
    ensures var at := c + h * (width * channels) + w * channels;
            Transpose(channels, height * width)(c * (height * width) + h * width + w) == at &&
            0 <= at < height * width * channels
  {
    Flat(h, w, height, width);
    TransposeAt(channels, height * width, c, h * width + w);
    Reassociate(h, width, channels, w);
  }

  lemma Swapped(a: int, b: int)
    ensures a * b == b * a
  {}

  // The subscript w * C is computed in int; this is its value where int wraps around.
  function Subscript(w: nat, channels: nat): int { Wrap32(w * channels) }

  predicate FitsInt(w: nat, channels: nat) { w * channels <= INT_MAX }

  // Every subscript of a row fits an int.
  predicate SubscriptsFit(width: nat, channels: nat) { forall w :: 0 <= w < width ==> FitsInt(w, channels) }

  lemma SubscriptFits(w: nat, channels: nat)
    requires FitsInt(w, channels)
    ensures Subscript(w, channels) == w * channels >= 0
  {
    Distribute(0, w, channels);
  }

  // The innermost loop. An overflowing product has no defined meaning in C: the loops stop there and say so, and
  // nothing is promised of the destination then.
  method CopyRow(dst: array<I8>, src: array<I8>, dh: nat, sh: nat, width: nat, channels: nat,
                 ghost v: Copy, ghost t: nat, ghost at: nat)
    returns (defined: bool)
    requires dst != src && v.from == src[..] && sh == v.base + t && dh == v.base + at
    requires v.base + v.size <= dst.Length && v.base + v.size <= src.Length
    requires RowGoes(v, t, at, width, channels) && dst[..] == v.After(t)
    modifies dst
    ensures defined <==> SubscriptsFit(width, channels)
    ensures defined ==> dst[..] == v.After(t + width)
  {
    for w := 0 to width
      invariant SubscriptsFit(w, channels) && dst[..] == v.After(t + w)
    {
      assert v.pos(t + w) == at + w * channels;
      if !FitsInt(w, channels) { return false; }
      SubscriptFits(w, channels);
      dst[dh + Subscript(w, channels)] := src[sh + w];
    }
    return true;
  }

  method ConvertRow(dst: array<I8>, src: array<I8>, dc: nat, sc: nat, width: nat, channels: nat, wc: nat, h: nat,
                    ghost v: Copy, ghost c: nat, ghost first: nat)
    returns (defined: bool)
    requires dst != src && v.from == src[..] && dc == v.base + c && sc == v.base + first
    requires v.base + v.size <= dst.Length && v.base + v.size <= src.Length
    requires RowGoes(v, Steps(first, h, width), Steps(c, h, wc), width, channels)
    requires dst[..] == v.After(Steps(first, h, width))
    modifies dst
    ensures defined <==> SubscriptsFit(width, channels)
    ensures defined ==> dst[..] == v.After(Steps(first, h + 1, width))
  {
    ghost var t, at := Steps(first, h, width), Steps(c, h, wc);
    assert t + width == Steps(first, h + 1, width);
    StepsExact(first, h, width);
    StepsExact(c, h, wc);
    var dh, sh := dc + h * wc, sc + h * width;
    assert dh == v.base + at && sh == v.base + t;
    defined := CopyRow(dst, src, dh, sh, width, channels, v, t, at);
  }

  // One channel plane, whose first element is number `first`.
  method ConvertChannel(dst: array<I8>, src: array<I8>, dc: nat, sc: nat, height: nat, width: nat, channels: nat,
                        wc: nat, ghost v: Copy, ghost c: nat, ghost first: nat)
    returns (defined: bool)
    requires dst != src && v.from == src[..] && |v.was| == dst.Length && dc == v.base + c && sc == v.base + first
    requires PlaneGoes(v, c, first, height, width, channels, wc) && dst[..] == v.After(first)
    modifies dst
    ensures defined <==> height == 0 || SubscriptsFit(width, channels)
    ensures defined ==> dst[..] == v.After(Steps(first, height, width))
  {
    for h := 0 to height
      invariant dst[..] == v.After(Steps(first, h, width))
      invariant h == 0 || SubscriptsFit(width, channels)
    {
      defined := ConvertRow(dst, src, dc, sc, width, channels, wc, h, v, c, first);
      if !defined { return; }
    }
    return true;
  }

  method ConvertImage(dst: array<I8>, src: array<I8>, base: nat, height: nat, width: nat, channels: nat,
                      hw: nat, wc: nat, ghost v: Copy)
    returns (defined: bool)
    requires dst != src && v.from == src[..] && v.base == base && |v.was| == dst.Length
    requires ImageGoes(v, height, width, channels, hw, wc) && dst[..] == v.was
    modifies dst
    ensures defined <==> height == 0 || channels == 0 || SubscriptsFit(width, channels)
    ensures defined ==> dst[..] == v.After(v.size)
  {
    for c := 0 to channels
      invariant dst[..] == v.After(Steps(0, c, hw))
      invariant c == 0 || height == 0 || SubscriptsFit(width, channels)
    {
      ghost var first := Steps(0, c, hw);
      StepsExact(0, c, hw);
      assert PlaneEnd(first, height, width, hw) && Steps(first, height, width) == Steps(0, c + 1, hw);
      defined := ConvertChannel(dst, src, base + c, base + c * hw, height, width, channels, wc, v, c, first);
      if !defined { return; }
    }
    return true;
  }

  // ---- Whole conversions ----

  // The destination after the first n images.
  ghost function Images(was: seq<I8>, from: seq<I8>, hw: nat, c: nat, n: nat): (now: seq<I8>)
    requires hw * c >= 0
    ensures |now| == |was|
  {
    if n == 0 then was else
      Distribute(0, n - 1, hw * c);
      ImageCopy(Images(was, from, hw, c, n - 1), from, (n - 1) * (hw * c), hw, c).After(hw * c)
  }

  method ConvertNchwToNhwc(dst: array<I8>, src: array<I8>, n: nat, height: nat, width: nat, channels: nat)
    returns (defined: bool)
    requires dst != src
    requires 0 <= n * (height * width * channels) <= dst.Length && n * (height * width * channels) <= src.Length
    requires height * width * channels >= 0
    modifies dst
    ensures defined <==> n == 0 || height == 0 || channels == 0 || SubscriptsFit(width, channels)
    ensures defined ==> dst[..] == Images(old(dst[..]), src[..], height * width, channels, n)
  {
    Distribute(0, height, width);
    Distribute(0, width, channels);
    var hw, wc: nat := height * width, width * channels;
    var hwc: nat := hw * channels;
    ghost var was := dst[..];
    for i := 0 to n
      invariant dst[..] == Images(was, src[..], hw, channels, i)
      invariant i == 0 || height == 0 || channels == 0 || SubscriptsFit(width, channels)
    {
      RowSpan(i, n, hwc);
      ghost var v := ImageCopy(dst[..], src[..], i * hwc, hw, channels);
      ImageRows(v, height, width, channels, hw, wc);
      defined := ConvertImage(dst, src, i * hwc, height, width, channels, hw, wc, v);
      if !defined { return; }
    }
    return true;
  }

  // In the filled block, place (h, w, c) holds the source's (c, h, w), and reading places back along the
  // permutation gives the source.
  lemma {:induction false} ImageMeaning(v: Copy, base: nat, hw: nat, channels: nat, s: nat, c: nat)
    requires hw * channels >= 0 && v == ImageCopy(v.was, v.from, base, hw, channels)
    requires base + hw * channels <= |v.was| && base + hw * channels <= |v.from|
    requires s < hw && c < channels
    ensures 0 <= s * channels + c < hw * channels && 0 <= c * hw + s < hw * channels
    ensures v.After(v.size)[base + (s * channels + c)] == v.from[base + (c * hw + s)]
    ensures v.pos(c * hw + s) == s * channels + c
  {
    TransposeAt(hw, channels, s, c);
    TransposeAt(channels, hw, c, s);
    ImagePermutes(v.was, v.from, base, hw, channels);
    PlaceMeaning(v, s * channels + c, c * hw + s);
  }

  lemma {:induction false} PlaceMeaning(v: Copy, place: nat, element: nat)
    requires v.Permutes() && place < v.size && element < v.size && v.idx(place) == element
    ensures v.After(v.size)[v.base + place] == v.from[v.base + element]
  {
    AfterMeaning(v, v.size, v.base + place);
  }

  // Every place of the block is one (h, w, c), so the copy is a permutation and leaves no place unwritten;
  // outside the block nothing changes.
  lemma {:induction false} ImageCovers(v: Copy, base: nat, hw: nat, channels: nat, q: nat)
    requires hw * channels >= 0 && v == ImageCopy(v.was, v.from, base, hw, channels)
    requires base + hw * channels <= |v.was| && base + hw * channels <= |v.from| && q < |v.was|
    ensures if base <= q < base + hw * channels
            then 0 <= v.idx(q - base) < v.size && v.pos(v.idx(q - base)) == q - base &&
                 v.After(v.size)[q] == v.from[base + v.idx(q - base)]
            else v.After(v.size)[q] == v.was[q]
  {
    ImagePermutes(v.was, v.from, base, hw, channels);
    AfterMeaning(v, v.size, q);
  }

  // The element-wise promise, in the terms of the two index formulas.
  ghost predicate Converted(d: TensorDesc, now: seq<I8>, was: seq<I8>, from: seq<I8>) {
    0 <= d.h * d.w * d.c <= |now| && |now| == |was| && d.h * d.w * d.c <= |from| &&
    (forall h, w, c :: 0 <= h < d.h && 0 <= w < d.w && 0 <= c < d.c ==>
      0 <= NhwcOffset(d, 0, h, w, c) - d.baseAddr < d.h * d.w * d.c &&
      0 <= NchwIndex(d, h, w, c) < d.h * d.w * d.c &&
      now[NhwcOffset(d, 0, h, w, c) - d.baseAddr] == from[NchwIndex(d, h, w, c)]) &&
    now[d.h * d.w * d.c..] == was[d.h * d.w * d.c..]
  }

  // In numbers: element (h, w, c) of the one, element (c, h, w) of the other, and nothing behind them.
  lemma ConvertedAt(d: TensorDesc, now: seq<I8>, was: seq<I8>, from: seq<I8>, h: nat, w: nat, c: nat, q: nat)
    requires Converted(d, now, was, from) && h < d.h && w < d.w && c < d.c && d.h * d.w * d.c <= q < |was|
    ensures 0 <= (h * d.w + w) * d.c + c < |now| && 0 <= (c * d.h + h) * d.w + w < |from|
    ensures now[(h * d.w + w) * d.c + c] == from[(c * d.h + h) * d.w + w]
    ensures |now| == |was| && now[q] == was[q]
  {
    assert NhwcOffset(d, 0, h, w, c) - d.baseAddr == (h * d.w + w) * d.c + c;
    assert NchwIndex(d, h, w, c) == (c * d.h + h) * d.w + w;
    var size := d.h * d.w * d.c;
    assert now[size..][q - size] == was[size..][q - size];
  }

  lemma {:induction false} ImagesConvert(d: TensorDesc, was: seq<I8>, from: seq<I8>)
    requires 0 <= d.h * d.w * d.c <= |was| && d.h * d.w * d.c <= |from|
    ensures Converted(d, Images(was, from, d.h * d.w, d.c, 1), was, from)
  {
    Distribute(0, d.h, d.w);
    var hw, size: nat := d.h * d.w, d.h * d.w * d.c;
    var v := ImageCopy(was, from, 0, hw, d.c);
    var now := v.After(size);
    assert Images(was, from, hw, d.c, 1) == now;
    forall h, w, c | 0 <= h < d.h && 0 <= w < d.w && 0 <= c < d.c
      ensures 0 <= NhwcOffset(d, 0, h, w, c) - d.baseAddr < size && 0 <= NchwIndex(d, h, w, c) < size
      ensures now[NhwcOffset(d, 0, h, w, c) - d.baseAddr] == from[NchwIndex(d, h, w, c)]
    {
      Flat(h, w, d.h, d.w);
      ImageMeaning(v, 0, hw, d.c, h * d.w + w, c);
      Reassociate(c, d.h, d.w, h);
    }
    forall q | size <= q < |was| ensures now[q] == was[q] { ImageCovers(v, 0, hw, d.c, q); }
  }

  // Which error, if any, and in which order the checks are made.
  function Outcome(noDst: bool, noSrc: bool, desc: Option<TensorDesc>, bufBytes: nat): TensorErr {
    if noDst || noSrc then NullPtr
    else if Validate(desc) != Ok then Validate(desc)
    else if bufBytes < ElementCount(desc.value) then BufTooSmall
    else Ok
  }

  method ConvertToNhwc(dst: array?<I8>, src: array?<I8>, desc: Option<TensorDesc>, bufBytes: nat)
    returns (err: TensorErr, defined: bool)
    requires dst != null ==> dst.Length >= bufBytes
    requires src != null ==> src.Length >= bufBytes
    requires desc.Some? && desc.value.layout == LAYOUT_NCHW && dst != null ==> dst != src
    modifies if dst == null then {} else {dst}
    ensures err == Outcome(dst == null, src == null, desc, bufBytes)
    ensures err != Ok && dst != null ==> dst[..] == old(dst[..])
    ensures err == Ok ==> desc.Some? && dst != null && src != null && 0 <= ElementCount(desc.value) <= bufBytes
    ensures !defined <==> err == Ok && desc.value.layout == LAYOUT_NCHW && !SubscriptsFit(desc.value.w, desc.value.c)
    ensures err == Ok && desc.value.layout == LAYOUT_NHWC ==>
              dst[..] == old(src[..])[..ElementCount(desc.value)] + old(dst[..])[ElementCount(desc.value)..]
    ensures err == Ok && desc.value.layout == LAYOUT_NCHW && defined ==>
              Converted(desc.value, dst[..], old(dst[..]), old(src[..]))
  {
    defined := true;
    if dst == null || src == null { return NullPtr, true; }
    err := Validate(desc);
    if err != Ok { return; }
    var d := desc.value;
    ValidateExact(d);
    var total := ElementCount(d);
    if bufBytes < total { return BufTooSmall, true; }
    CountNonNegative(d.h, d.w, d.c);
    if d.layout == LAYOUT_NHWC {
      forall i | 0 <= i < total { dst[i] := src[i]; }
      return Ok, true;
    }
    ImagesConvert(d, dst[..], src[..]);
    defined := ConvertNchwToNhwc(dst, src, d.n, d.h, d.w, d.c);
  }

  lemma CountNonNegative(h: nat, w: nat, c: nat)
    ensures h * w * c >= 0
  {
    Distribute(0, h, w);
    Distribute(0, h * w, c);
  }

  // ---- The subscript's width ----

  // Every subscript of the inner loop fits exactly when the last one does.
  lemma {:induction false} LastSubscriptDecides(width: nat, channels: nat)
    ensures SubscriptsFit(width, channels) <==> width == 0 || (width - 1) * channels <= INT_MAX
  {
    if width > 0 {
      assert FitsInt(width - 1, channels) <==> (width - 1) * channels <= INT_MAX;
      forall w | 0 <= w < width ensures FitsInt(width - 1, channels) ==> FitsInt(w, channels) {
        Distribute(w, width - 1 - w, channels);
      }
    }
  }

  // With int wrapping around, the subscripts are right exactly then; otherwise some subscript is negative.
  lemma {:induction false} SubscriptsExact(width: nat, channels: nat)
    requires 0 < width <= 0xFFFF && channels <= 0xFFFF
    ensures (forall w :: 0 <= w < width ==> Subscript(w, channels) == w * channels) <==> SubscriptsFit(width, channels)
    ensures !SubscriptsFit(width, channels) ==> exists w :: 0 <= w < width && Subscript(w, channels) < 0
  {
    LastSubscriptDecides(width, channels);
    if SubscriptsFit(width, channels) {
      forall w | 0 <= w < width ensures Subscript(w, channels) == w * channels { SubscriptFits(w, channels); }
    } else {
      SomeSubscriptNegative(width - 1, channels);
      var w: nat :| w < width && Subscript(w, channels) < 0;
      Distribute(0, w, channels);
    }
  }

  // The first multiple of `channels` past INT_MAX wraps to a negative int.
  lemma {:induction false} SomeSubscriptNegative(last: nat, channels: nat)
    requires channels <= 0xFFFF
    ensures last * channels > INT_MAX ==> exists w :: 0 <= w <= last && Subscript(w, channels) < 0
  {
    if last > 0 {
      SomeSubscriptNegative(last - 1, channels);
      Distribute(last - 1, 1, channels);
      JustPastMax(last * channels);
      assert INT_MAX < last * channels <= INT_MAX + 0xFFFF ==> Subscript(last, channels) < 0;
    }
  }

  lemma JustPastMax(x: int)
    ensures INT_MAX < x <= INT_MAX + 0xFFFF ==> Wrap32(x) < 0
  {}

  // The validator lets such descriptors through: one row of 65535 by 65535 elements.
  lemma {:induction false} ValidButTooWide()
    ensures var d := TensorDesc(0, 1, 1, 65535, 65535, LAYOUT_NCHW);
            Validate(Some(d)) == Ok && !SubscriptsFit(d.w, d.c)
  {
    ValidateExact(TensorDesc(0, 1, 1, 65535, 65535, LAYOUT_NCHW));
    LastSubscriptDecides(65535, 65535);
  }
}
