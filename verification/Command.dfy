// The 16-word command descriptor: the C builders of sw/runtime/command_builder.c, the field
// extraction of rtl/control/npu_cmd_decode.sv and the per-opcode views of include/pkg/npu_cmd_pkg.sv.
module Command {
  import opened Common

  const OP_CONV := 1
  const OP_GEMM := 2
  const OP_SOFTMAX := 3
  const OP_VEC := 4
  const OP_LNORM := 5
  const OP_POOL := 6

  const WORDS := 16

  type Descriptor = w: seq<U32> | |w| == 16 witness [0, 0, 0, 0, 0, 0, 0, 0, 0, 0, 0, 0, 0, 0, 0, 0]

  datatype ConvCmd = ConvCmd(
    opcode: int, actInAddr: int, actOutAddr: int, weightAddr: int, biasAddr: int,
    inH: int, inW: int, inC: int, outK: int, filtR: int, filtS: int,
    strideH: int, strideW: int, padH: int, padW: int, outH: int, outW: int,
    quantShift: int, actMode: int)

  function Low16(w: U32): U16 { w % 0x1_0000 }
  function High16(w: U32): U16 { w / 0x1_0000 }

  // The S_CHECK packing of the collected words.
  function DecodeCmd(w: Descriptor): ConvCmd {
    ConvCmd(w[0] % 16, Low16(w[1]), Low16(w[2]), Low16(w[3]), Low16(w[4]),
            Low16(w[5]), Low16(w[6]), Low16(w[7]), Low16(w[8]), Low16(w[9]), Low16(w[10]),
            Low16(w[11]), Low16(w[12]), Low16(w[13]), Low16(w[14]), High16(w[13]), High16(w[14]),
            w[15] % 32, w[15] / 32 % 4)
  }

  // The opcode test of S_CHECK: everything but the six known opcodes raises decode_err.
  predicate KnownOpcode(w: Descriptor) {
    var op := w[0] % 16;
    op == OP_CONV || op == OP_GEMM || op == OP_SOFTMAX || op == OP_VEC || op == OP_LNORM || op == OP_POOL
  }

  // Which bits of any descriptor the decoder takes: words 0 and 15 as the bits above a field and the fields...
  lemma {:induction false} DecodeEnds(w: Descriptor, above: nat, opcode: nat, top: nat, mode: nat, shift: nat,
                                      pool: nat)
    requires w[0] == 16 * above + opcode && opcode < 16
    requires w[15] == 128 * top + 32 * mode + 2 * shift + pool && mode < 4 && shift < 16 && pool < 2
    ensures var c := DecodeCmd(w);
            c.opcode == opcode && c.actMode == mode && c.quantShift == 2 * shift + pool && PoolView(c).poolMode == pool
  {
    FieldAt(w[0], 16, above, opcode);
    FieldAt(w[15], 32, 4 * top + mode, 2 * shift + pool);
    FieldAt(4 * top + mode, 4, top, mode);
    FieldAt(2 * shift + pool, 2, shift, pool);
  }

  lemma FieldAt(x: nat, size: nat, above: nat, field: nat)
    requires size > 0 && x == above * size + field && field < size
    ensures x / size == above && x % size == field
  {
    DivUnique(x, size, above, field);
  }

  // ...and of the others the low halves, and the high halves of words 13 and 14.
  lemma {:induction false} DecodeHalves(w: Descriptor, k: nat, high: nat, low: nat)
    requires 1 <= k <= 14 && w[k] == high * 65536 + low && low < 65536
    ensures var c := DecodeCmd(w);
            low == [c.opcode, c.actInAddr, c.actOutAddr, c.weightAddr, c.biasAddr, c.inH, c.inW, c.inC, c.outK,
                    c.filtR, c.filtS, c.strideH, c.strideW, c.padH, c.padW][k] &&
            (k == 13 ==> c.outH == high) && (k == 14 ==> c.outW == high)
  {
    FieldAt(w[k], 65536, high, low);
  }

  // Exactly the codes 0 and 7 to 15 of the low four bits of word 0 are reserved; the other bits do not matter.
  lemma {:induction false} ReservedOpcodes(w: Descriptor)
    ensures KnownOpcode(w) <==> 1 <= w[0] % 16 <= 6
  {}

  // Backend views

  datatype GemmCmd = GemmCmd(aAddr: int, cAddr: int, bAddr: int, biasAddr: int, m: int, n: int, k: int,
                             quantShift: int, actMode: int)
  datatype SoftmaxCmd = SoftmaxCmd(inAddr: int, outAddr: int, numRows: int, rowLen: int)
  datatype VecCmd = VecCmd(aAddr: int, outAddr: int, bAddr: int, length: int, vecOp: int, quantShift: int, actMode: int)
  datatype LnormCmd = LnormCmd(inAddr: int, outAddr: int, numRows: int, rowLen: int, normShift: int)
  datatype PoolCmd = PoolCmd(inAddr: int, outAddr: int, inH: int, inW: int, inC: int, poolR: int, poolS: int,
                             strideH: int, strideW: int, padH: int, padW: int, outH: int, outW: int, poolMode: int)

  function GemmView(c: ConvCmd): GemmCmd {
    GemmCmd(c.actInAddr, c.actOutAddr, c.weightAddr, c.biasAddr, c.inH, c.inW, c.inC, c.quantShift, c.actMode)
  }

  function SoftmaxView(c: ConvCmd): SoftmaxCmd {
    SoftmaxCmd(c.actInAddr, c.actOutAddr, c.inH, c.inW)
  }

  function VecView(c: ConvCmd): VecCmd {
    VecCmd(c.actInAddr, c.actOutAddr, c.weightAddr, c.inH, c.inW % 2, c.quantShift, c.actMode)
  }

  function LnormView(c: ConvCmd): LnormCmd {
    LnormCmd(c.actInAddr, c.actOutAddr, c.inH, c.inW, c.quantShift)
  }

  function PoolView(c: ConvCmd): PoolCmd {
    PoolCmd(c.actInAddr, c.actOutAddr, c.inH, c.inW, c.inC, c.filtR, c.filtS,
            c.strideH, c.strideW, c.padH, c.padW, c.outH, c.outW, c.quantShift % 2)
  }

  // Builder parameters

  datatype ConvParams = ConvParams(
    actInAddr: U16, actOutAddr: U16, weightAddr: U16, biasAddr: U16, inH: U16, inW: U16, inC: U16, outK: U16,
    filtR: U16, filtS: U16, strideH: U16, strideW: U16, padH: U16, padW: U16, outH: U16, outW: U16,
    quantShift: Byte, actMode: Byte)
  datatype GemmParams = GemmParams(aAddr: U16, cAddr: U16, bAddr: U16, biasAddr: U16, m: U16, n: U16, k: U16,
                                   quantShift: Byte, actMode: Byte)
  datatype SoftmaxParams = SoftmaxParams(inAddr: U16, outAddr: U16, numRows: U16, rowLen: U16)
  datatype VecParams = VecParams(aAddr: U16, outAddr: U16, bAddr: U16, length: U16, vecOp: Byte, quantShift: Byte,
                                 actMode: Byte)
  datatype LnormParams = LnormParams(inAddr: U16, outAddr: U16, numRows: U16, rowLen: U16, normShift: Byte)
  datatype PoolParams = PoolParams(
    inAddr: U16, outAddr: U16, inH: U16, inW: U16, inC: U16, poolR: U16, poolS: U16,
    strideH: U16, strideW: U16, padH: U16, padW: U16, outH: U16, outW: U16, poolMode: Byte)

  // derive_out_dim: a caller-supplied size wins; otherwise 32-bit unsigned arithmetic cut to 16 bits.
  function DeriveOutDim(inDim: U16, pad: U16, filt: U16, stride: U16, provided: U16): U16 {
    if provided != 0 then provided
    else if stride == 0 then 0
    else (((inDim + 2 * pad - filt) % 0x1_0000_0000) / stride + 1) % 0x1_0000_0000 % 0x1_0000
  }

  // Window n (counting from 0) of a padded dimension fits when it ends inside it.
  predicate WindowFits(n: nat, inDim: nat, pad: nat, filt: nat, stride: nat) {
    n * stride + filt <= inDim + 2 * pad
  }

  // The number of windows that fit.
  function WindowCount(inDim: nat, pad: nat, filt: nat, stride: nat): nat
    requires stride > 0
  {
    if filt <= inDim + 2 * pad then (inDim + 2 * pad - filt) / stride + 1 else 0
  }

  lemma {:induction false} WindowCountExact(inDim: nat, pad: nat, filt: nat, stride: nat)
    requires stride > 0
    ensures forall n: nat :: n < WindowCount(inDim, pad, filt, stride) <==> WindowFits(n, inDim, pad, filt, stride)
  {
    forall n: nat
      ensures n < WindowCount(inDim, pad, filt, stride) <==> WindowFits(n, inDim, pad, filt, stride)
    {
      var room := inDim + 2 * pad - filt;
      assert 0 <= n * stride;
      if room >= 0 {
        var q := room / stride;
        assert q * stride <= room < (q + 1) * stride;
        if n <= q { MulLe(n, q, stride); } else { MulLe(q + 1, n, stride); }
      }
    }
  }

  // With no size supplied and a filter that fits, the derived size is the window count exactly when
  // that count is a 16-bit number.
  lemma DeriveOutDimExact(inDim: U16, pad: U16, filt: U16, stride: U16)
    requires stride > 0 && filt <= inDim + 2 * pad
    ensures DeriveOutDim(inDim, pad, filt, stride, 0) == WindowCount(inDim, pad, filt, stride) <==>
            WindowCount(inDim, pad, filt, stride) < 0x1_0000
  {
    var room := inDim + 2 * pad - filt;
    assert room % 0x1_0000_0000 == room;
    QuotientBound(room, stride);
    var n := room / stride + 1;
    assert n % 0x1_0000_0000 == n;
  }

  lemma QuotientBound(a: nat, b: nat)
    requires b > 0
    ensures 0 <= a / b <= a
  {
    var q := a / b;
    assert q * b <= a;
    MulLe(1, b, q);
  }

  // Where the filter does not fit no window does. The wrapped subtraction then yields zero exactly when the
  // stride divides 2^16 and the filter overhangs the input by at most one stride.
  lemma {:induction false} DeriveOutDimMisfitExact(inDim: U16, pad: U16, filt: U16, stride: U16)
    requires stride > 0 && filt > inDim + 2 * pad
    ensures WindowCount(inDim, pad, filt, stride) == 0
    ensures DeriveOutDim(inDim, pad, filt, stride, 0) == 0 <==>
            0x1_0000 % stride == 0 && filt - inDim - 2 * pad <= stride
  {
    var overhang := filt - inDim - 2 * pad;
    assert (inDim + 2 * pad - filt) % 0x1_0000_0000 == 0x1_0000_0000 - overhang;
    var q := (0x1_0000_0000 - overhang) / stride;
    QuotientBound(0x1_0000_0000 - overhang, stride);
    LowHalfZero(q + 1);
    if (q + 1) % 0x1_0000 == 0 {
      CarryMeansDivides(overhang, stride, q, (q + 1) / 0x1_0000);
    }
    if 0x1_0000 % stride == 0 && overhang <= stride {
      DividesMeansCarry(overhang, stride, 0x1_0000 / stride);
    }
  }

  lemma LowHalfZero(n: nat)
    requires n <= 0x1_0000_0000
    ensures n % 0x1_0000_0000 % 0x1_0000 == n % 0x1_0000
  {}

  // A quotient just below a multiple of 2^16 leaves the divisor no room but to divide 2^16.
  lemma {:induction false} CarryMeansDivides(overhang: nat, stride: nat, q: nat, k: nat)
    requires 0 < overhang < 0x1_0000 && 0 < stride < 0x1_0000
    requires q == (0x1_0000_0000 - overhang) / stride && q + 1 == k * 0x1_0000
    ensures 0x1_0000 % stride == 0 && overhang <= stride
  {
    var m := k * stride;
    assert q * stride <= 0x1_0000_0000 - overhang < q * stride + stride;
    assert q * stride + stride == m * 0x1_0000 by {
      assert (q + 1) * stride == q * stride + stride;
      assert k * 0x1_0000 * stride == m * 0x1_0000;
    }
    assert m == 0x1_0000;
    DivUnique(0x1_0000, stride, k, 0);
  }

  lemma {:induction false} DividesMeansCarry(overhang: nat, stride: nat, k: nat)
    requires 0 < overhang <= stride < 0x1_0000 && k == 0x1_0000 / stride && 0x1_0000 % stride == 0
    ensures ((0x1_0000_0000 - overhang) / stride + 1) % 0x1_0000 == 0
  {
    assert k * stride == 0x1_0000;
    var q := k * 0x1_0000 - 1;
    assert q * stride == 0x1_0000_0000 - stride by {
      assert q * stride == k * 0x1_0000 * stride - stride;
      assert k * 0x1_0000 * stride == k * stride * 0x1_0000;
    }
    DivUnique(0x1_0000_0000 - overhang, stride, q, stride - overhang);
  }

  // A size that was given wins, a stride of zero derives zero, and nothing else matters then.
  lemma DeriveOutDimBranches(inDim: U16, pad: U16, filt: U16, stride: U16, provided: U16)
    ensures provided > 0 ==> DeriveOutDim(inDim, pad, filt, stride, provided) == provided
    ensures DeriveOutDim(inDim, pad, filt, 0, 0) == 0
  {}

  // A 65535-wide input, padded by one, has 65537 windows of one element; the derived size is 1.
  lemma DeriveOutDimOverflows()
    ensures DeriveOutDim(65535, 1, 1, 1, 0) == 1 && WindowCount(65535, 1, 1, 1) == 65537
  {}

  // A 3-wide filter on a 1-wide unpadded input does not fit, yet the derived size is 65535.
  lemma DeriveOutDimOnMisfit()
    ensures DeriveOutDim(1, 0, 3, 1, 0) == 0xFFFF && WindowCount(1, 0, 3, 1) == 0
  {}

  // Descriptor words

  function ShiftMode(shift: Byte, mode: Byte): U32 { shift % 32 + 32 * (mode % 4) }
  function PadOut(pad: U16, out: U16): U32 { pad + 0x1_0000 * out }

  function ConvWord(p: ConvParams, i: int): U32 {
    match i
    case 0 => OP_CONV case 1 => p.actInAddr case 2 => p.actOutAddr case 3 => p.weightAddr
    case 4 => p.biasAddr case 5 => p.inH case 6 => p.inW case 7 => p.inC case 8 => p.outK
    case 9 => p.filtR case 10 => p.filtS case 11 => p.strideH case 12 => p.strideW
    case 13 => PadOut(p.padH, DeriveOutDim(p.inH, p.padH, p.filtR, p.strideH, p.outH))
    case 14 => PadOut(p.padW, DeriveOutDim(p.inW, p.padW, p.filtS, p.strideW, p.outW))
    case 15 => ShiftMode(p.quantShift, p.actMode)
    case _ => 0
  }

  function ConvWords(p: ConvParams): Descriptor { seq(WORDS, i => ConvWord(p, i)) }

  function GemmWord(p: GemmParams, i: int): U32 {
    match i
    case 0 => OP_GEMM case 1 => p.aAddr case 2 => p.cAddr case 3 => p.bAddr case 4 => p.biasAddr
    case 5 => p.m case 6 => p.n case 7 => p.k case 15 => ShiftMode(p.quantShift, p.actMode)
    case _ => 0
  }

  function GemmWords(p: GemmParams): Descriptor { seq(WORDS, i => GemmWord(p, i)) }

  function SoftmaxWord(p: SoftmaxParams, i: int): U32 {
    match i
    case 0 => OP_SOFTMAX case 1 => p.inAddr case 2 => p.outAddr case 5 => p.numRows
    case 6 => p.rowLen
    case _ => 0
  }

  function SoftmaxWords(p: SoftmaxParams): Descriptor { seq(WORDS, i => SoftmaxWord(p, i)) }

  function VecWord(p: VecParams, i: int): U32 {
    match i
    case 0 => OP_VEC case 1 => p.aAddr case 2 => p.outAddr case 3 => p.bAddr case 5 => p.length
    case 6 => p.vecOp case 15 => ShiftMode(p.quantShift, p.actMode)
    case _ => 0
  }

  function VecWords(p: VecParams): Descriptor { seq(WORDS, i => VecWord(p, i)) }

  function LnormWord(p: LnormParams, i: int): U32 {
    match i
    case 0 => OP_LNORM case 1 => p.inAddr case 2 => p.outAddr case 5 => p.numRows case 6 => p.rowLen
    case 15 => p.normShift % 32
    case _ => 0
  }

  function LnormWords(p: LnormParams): Descriptor { seq(WORDS, i => LnormWord(p, i)) }

  function PoolWord(p: PoolParams, i: int): U32 {
    match i
    case 0 => OP_POOL case 1 => p.inAddr case 2 => p.outAddr case 5 => p.inH case 6 => p.inW
    case 7 => p.inC case 9 => p.poolR case 10 => p.poolS case 11 => p.strideH case 12 => p.strideW
    case 13 => PadOut(p.padH, DeriveOutDim(p.inH, p.padH, p.poolR, p.strideH, p.outH))
    case 14 => PadOut(p.padW, DeriveOutDim(p.inW, p.padW, p.poolS, p.strideW, p.outW))
    case 15 => p.poolMode % 2
    case _ => 0
  }

  function PoolWords(p: PoolParams): Descriptor { seq(WORDS, i => PoolWord(p, i)) }

  lemma PadOutSplits(pad: U16, out: U16)
    ensures Low16(PadOut(pad, out)) == pad && High16(PadOut(pad, out)) == out
  {}

  lemma ShiftModeSplits(shift: Byte, mode: Byte)
    ensures ShiftMode(shift, mode) % 32 == shift % 32 && ShiftMode(shift, mode) / 32 % 4 == mode % 4
  {}

  // Round trips: what the hardware sees is what the caller asked for.

  // The command a convolution request stands for.
  function ConvIntent(p: ConvParams): ConvCmd {
    ConvCmd(
      OP_CONV, p.actInAddr, p.actOutAddr, p.weightAddr, p.biasAddr, p.inH, p.inW, p.inC, p.outK, p.filtR, p.filtS,
      p.strideH, p.strideW, p.padH, p.padW,
      DeriveOutDim(p.inH, p.padH, p.filtR, p.strideH, p.outH),
      DeriveOutDim(p.inW, p.padW, p.filtS, p.strideW, p.outW),
      p.quantShift % 32, p.actMode % 4)
  }

  lemma ConvRoundTrip(p: ConvParams)
    ensures KnownOpcode(ConvWords(p)) && DecodeCmd(ConvWords(p)) == ConvIntent(p)
  {
    PadOutSplits(p.padH, DeriveOutDim(p.inH, p.padH, p.filtR, p.strideH, p.outH));
    PadOutSplits(p.padW, DeriveOutDim(p.inW, p.padW, p.filtS, p.strideW, p.outW));
    ShiftModeSplits(p.quantShift, p.actMode);
  }

  // And the commands the other requests stand for, as their backends see them.
  function GemmIntent(p: GemmParams): GemmCmd {
    GemmCmd(p.aAddr, p.cAddr, p.bAddr, p.biasAddr, p.m, p.n, p.k, p.quantShift % 32, p.actMode % 4)
  }

  function VecIntent(p: VecParams): VecCmd {
    VecCmd(p.aAddr, p.outAddr, p.bAddr, p.length, p.vecOp % 2, p.quantShift % 32, p.actMode % 4)
  }

  // A size the caller gives is the size the hardware sees.
  lemma {:induction false} GivenSizesDecoded(p: ConvParams, q: PoolParams)
    ensures var c := DecodeCmd(ConvWords(p)); (p.outH > 0 ==> c.outH == p.outH) && (p.outW > 0 ==> c.outW == p.outW)
    ensures var c := PoolView(DecodeCmd(PoolWords(q)));
            (q.outH > 0 ==> c.outH == q.outH) && (q.outW > 0 ==> c.outW == q.outW)
  {
    ConvRoundTrip(p);
    PoolRoundTrip(q);
  }

  lemma GemmRoundTrip(p: GemmParams)
    ensures KnownOpcode(GemmWords(p)) && DecodeCmd(GemmWords(p)).opcode == OP_GEMM
    ensures GemmView(DecodeCmd(GemmWords(p))) == GemmIntent(p)
  {
    ShiftModeSplits(p.quantShift, p.actMode);
  }

  lemma SoftmaxRoundTrip(p: SoftmaxParams)
    ensures KnownOpcode(SoftmaxWords(p)) && DecodeCmd(SoftmaxWords(p)).opcode == OP_SOFTMAX
    ensures SoftmaxView(DecodeCmd(SoftmaxWords(p))) == SoftmaxCmd(p.inAddr, p.outAddr, p.numRows, p.rowLen)
  {
    assert DecodeCmd(SoftmaxWords(p)).inH == p.numRows;
  }

  lemma VecRoundTrip(p: VecParams)
    ensures KnownOpcode(VecWords(p)) && DecodeCmd(VecWords(p)).opcode == OP_VEC
    ensures VecView(DecodeCmd(VecWords(p))) == VecIntent(p)
  {
    ShiftModeSplits(p.quantShift, p.actMode);
  }

  // docs/spec/command_format.md reads any non-zero vec_op as MUL; the view keeps bit 0 only, so the
  // two agree exactly on zero and on odd values.
  lemma VecOpDocumentedReading(p: VecParams)
    ensures ((VecView(DecodeCmd(VecWords(p))).vecOp == 1) == (p.vecOp != 0)) <==> (p.vecOp == 0 || p.vecOp % 2 == 1)
  {
    VecRoundTrip(p);
  }

  lemma LnormRoundTrip(p: LnormParams)
    ensures KnownOpcode(LnormWords(p)) && DecodeCmd(LnormWords(p)).opcode == OP_LNORM
    ensures LnormView(DecodeCmd(LnormWords(p))) ==
            LnormCmd(p.inAddr, p.outAddr, p.numRows, p.rowLen, p.normShift % 32)
  {
    assert DecodeCmd(LnormWords(p)).quantShift == p.normShift % 32;
  }

  function PoolIntent(p: PoolParams): PoolCmd {
    PoolCmd(p.inAddr, p.outAddr, p.inH, p.inW, p.inC, p.poolR, p.poolS, p.strideH, p.strideW, p.padH, p.padW,
            DeriveOutDim(p.inH, p.padH, p.poolR, p.strideH, p.outH),
            DeriveOutDim(p.inW, p.padW, p.poolS, p.strideW, p.outW), p.poolMode % 2)
  }

  lemma PoolRoundTrip(p: PoolParams)
    ensures KnownOpcode(PoolWords(p)) && DecodeCmd(PoolWords(p)).opcode == OP_POOL
    ensures PoolView(DecodeCmd(PoolWords(p))) == PoolIntent(p)
  {
    PadOutSplits(p.padH, DeriveOutDim(p.inH, p.padH, p.poolR, p.strideH, p.outH));
    PadOutSplits(p.padW, DeriveOutDim(p.inW, p.padW, p.poolS, p.strideW, p.outW));
  }

  // A size that was given is the size derived.
  lemma ProvidedWins(inDim: U16, pad: U16, filt: U16, stride: U16, a: U16, b: U16)
    requires DeriveOutDim(inDim, pad, filt, stride, a) == DeriveOutDim(inDim, pad, filt, stride, b)
    requires a == 0 <==> b == 0
    ensures a == b
  {}

  // Packing loses nothing: in-range parameters are recovered from the words. A size is recovered when both
  // calls give it or both leave it to be derived.
  lemma ConvPackingInjective(p: ConvParams, q: ConvParams)
    requires ConvWords(p) == ConvWords(q)
    requires p.quantShift < 32 && p.actMode < 4 && q.quantShift < 32 && q.actMode < 4
    requires (p.outH == 0 <==> q.outH == 0) && (p.outW == 0 <==> q.outW == 0)
    ensures p == q
  {
    ConvRoundTrip(p);
    ConvRoundTrip(q);
    IntentInjective(p, q);
  }

  lemma IntentInjective(p: ConvParams, q: ConvParams)
    requires ConvIntent(p) == ConvIntent(q)
    requires p.quantShift < 32 && p.actMode < 4 && q.quantShift < 32 && q.actMode < 4
    requires (p.outH == 0 <==> q.outH == 0) && (p.outW == 0 <==> q.outW == 0)
    ensures p == q
  {
    ProvidedWins(p.inH, p.padH, p.filtR, p.strideH, p.outH, q.outH);
    ProvidedWins(p.inW, p.padW, p.filtS, p.strideW, p.outW, q.outW);
  }

  lemma GemmPackingInjective(p: GemmParams, q: GemmParams)
    requires GemmWords(p) == GemmWords(q)
    requires p.quantShift < 32 && p.actMode < 4 && q.quantShift < 32 && q.actMode < 4
    ensures p == q
  {
    GemmRoundTrip(p);
    GemmRoundTrip(q);
    GemmIntentInjective(p, q);
  }

  lemma GemmIntentInjective(p: GemmParams, q: GemmParams)
    requires GemmIntent(p) == GemmIntent(q)
    requires p.quantShift < 32 && p.actMode < 4 && q.quantShift < 32 && q.actMode < 4
    ensures p == q
  {}

  lemma SoftmaxPackingInjective(p: SoftmaxParams, q: SoftmaxParams)
    requires SoftmaxWords(p) == SoftmaxWords(q)
    ensures p == q
  {
    SoftmaxRoundTrip(p);
    SoftmaxRoundTrip(q);
  }

  lemma VecPackingInjective(p: VecParams, q: VecParams)
    requires VecWords(p) == VecWords(q)
    requires p.vecOp < 2 && p.quantShift < 32 && p.actMode < 4 && q.vecOp < 2 && q.quantShift < 32 && q.actMode < 4
    ensures p == q
  {
    VecRoundTrip(p);
    VecRoundTrip(q);
    VecIntentInjective(p, q);
  }

  lemma VecIntentInjective(p: VecParams, q: VecParams)
    requires VecIntent(p) == VecIntent(q)
    requires p.vecOp < 2 && p.quantShift < 32 && p.actMode < 4 && q.vecOp < 2 && q.quantShift < 32 && q.actMode < 4
    ensures p == q
  {}

  lemma LnormPackingInjective(p: LnormParams, q: LnormParams)
    requires LnormWords(p) == LnormWords(q) && p.normShift < 32 && q.normShift < 32
    ensures p == q
  {
    LnormRoundTrip(p);
    LnormRoundTrip(q);
  }

  lemma PoolPackingInjective(p: PoolParams, q: PoolParams)
    requires PoolWords(p) == PoolWords(q) && p.poolMode < 2 && q.poolMode < 2
    requires (p.outH == 0 <==> q.outH == 0) && (p.outW == 0 <==> q.outW == 0)
    ensures p == q
  {
    PoolRoundTrip(p);
    PoolRoundTrip(q);
  }

  // The six operations' descriptors are pairwise distinct, whatever their parameters.
  lemma {:induction false} OpcodeSeparates(a: ConvParams, b: GemmParams, c: SoftmaxParams, d: VecParams,
                                           e: LnormParams, f: PoolParams)
    ensures var all := [ConvWords(a), GemmWords(b), SoftmaxWords(c), VecWords(d), LnormWords(e), PoolWords(f)];
            forall i, j :: 0 <= i < j < 6 ==> all[i] != all[j]
  {
    var all := [ConvWords(a), GemmWords(b), SoftmaxWords(c), VecWords(d), LnormWords(e), PoolWords(f)];
    assert all[0][0] == 1 && all[1][0] == 2 && all[2][0] == 3 && all[3][0] == 4 && all[4][0] == 5 && all[5][0] == 6;
  }

  // The builders

  method Clear(desc: array<int>)
    requires desc.Length == WORDS
    modifies desc
    ensures forall j :: 0 <= j < WORDS ==> desc[j] == 0
  {
    for i := 0 to WORDS
      invariant forall j :: 0 <= j < i ==> desc[j] == 0
    {
      desc[i] := 0;
    }
  }

  // Words 9 to 15 of a convolution: filter, strides, padding with the output size above it, and word 15.
  method StoreConvWindows(desc: array<int>, v: ConvParams)
    requires desc.Length == WORDS
    modifies desc
    ensures forall i :: 0 <= i < 9 ==> desc[i] == old(desc[i])
    ensures forall i :: 9 <= i < WORDS ==> desc[i] == ConvWord(v, i)
  {
    var outH := DeriveOutDim(v.inH, v.padH, v.filtR, v.strideH, v.outH);
    var outW := DeriveOutDim(v.inW, v.padW, v.filtS, v.strideW, v.outW);
    desc[9] := v.filtR;
    desc[10] := v.filtS;
    desc[11] := v.strideH;
    desc[12] := v.strideW;
    desc[13] := PadOut(v.padH, outH);
    desc[14] := PadOut(v.padW, outW);
    desc[15] := ShiftMode(v.quantShift, v.actMode);
  }

  // The same words of a pooling.
  method StorePoolWindows(desc: array<int>, v: PoolParams)
    requires desc.Length == WORDS
    modifies desc
    ensures forall i :: 0 <= i < 9 ==> desc[i] == old(desc[i])
    ensures forall i :: 9 <= i < WORDS ==> desc[i] == PoolWord(v, i)
  {
    var outH := DeriveOutDim(v.inH, v.padH, v.poolR, v.strideH, v.outH);
    var outW := DeriveOutDim(v.inW, v.padW, v.poolS, v.strideW, v.outW);
    desc[9] := v.poolR;
    desc[10] := v.poolS;
    desc[11] := v.strideH;
    desc[12] := v.strideW;
    desc[13] := PadOut(v.padH, outH);
    desc[14] := PadOut(v.padW, outW);
    desc[15] := v.poolMode % 2;
  }

  method BuildConv(desc: array?<int>, p: Option<ConvParams>) returns (rc: int)
    requires desc != null ==> desc.Length == WORDS
    modifies desc
    ensures rc == if desc == null || p.None? then -1 else 0
    ensures desc != null ==> desc[..] == if p.None? then old(desc[..]) else ConvWords(p.value)
  {
    if desc == null || p.None? {
      return -1;
    }
    Clear(desc);
    var v := p.value;
    desc[0], desc[1], desc[2] := OP_CONV, v.actInAddr, v.actOutAddr;
    desc[3], desc[4], desc[5] := v.weightAddr, v.biasAddr, v.inH;
    desc[6], desc[7], desc[8] := v.inW, v.inC, v.outK;
    StoreConvWindows(desc, v);
    return 0;
  }

  method BuildGemm(desc: array?<int>, p: Option<GemmParams>) returns (rc: int)
    requires desc != null ==> desc.Length == WORDS
    modifies desc
    ensures rc == if desc == null || p.None? then -1 else 0
    ensures desc != null ==> desc[..] == if p.None? then old(desc[..]) else GemmWords(p.value)
  {
    if desc == null || p.None? {
      return -1;
    }
    Clear(desc);
    var v := p.value;
    desc[0], desc[1], desc[2] := OP_GEMM, v.aAddr, v.cAddr;
    desc[3], desc[4], desc[5] := v.bAddr, v.biasAddr, v.m;
    desc[6], desc[7], desc[15] := v.n, v.k, ShiftMode(v.quantShift, v.actMode);
    assert forall i :: 0 <= i < WORDS ==> desc[i] == GemmWord(p.value, i);
    return 0;
  }

  method BuildSoftmax(desc: array?<int>, p: Option<SoftmaxParams>) returns (rc: int)
    requires desc != null ==> desc.Length == WORDS
    modifies desc
    ensures rc == if desc == null || p.None? then -1 else 0
    ensures desc != null ==> desc[..] == if p.None? then old(desc[..]) else SoftmaxWords(p.value)
  {
    if desc == null || p.None? {
      return -1;
    }
    Clear(desc);
    desc[0], desc[1], desc[2] := OP_SOFTMAX, p.value.inAddr, p.value.outAddr;
    desc[5], desc[6] := p.value.numRows, p.value.rowLen;
    assert forall i :: 0 <= i < WORDS ==> desc[i] == SoftmaxWord(p.value, i);
    return 0;
  }

  method BuildVec(desc: array?<int>, p: Option<VecParams>) returns (rc: int)
    requires desc != null ==> desc.Length == WORDS
    modifies desc
    ensures rc == if desc == null || p.None? then -1 else 0
    ensures desc != null ==> desc[..] == if p.None? then old(desc[..]) else VecWords(p.value)
  {
    if desc == null || p.None? {
      return -1;
    }
    Clear(desc);
    var v := p.value;
    desc[0], desc[1], desc[2] := OP_VEC, v.aAddr, v.outAddr;
    desc[3], desc[5], desc[6] := v.bAddr, v.length, v.vecOp;
    desc[15] := ShiftMode(v.quantShift, v.actMode);
    assert forall i :: 0 <= i < WORDS ==> desc[i] == VecWord(p.value, i);
    return 0;
  }

  method BuildLnorm(desc: array?<int>, p: Option<LnormParams>) returns (rc: int)
    requires desc != null ==> desc.Length == WORDS
    modifies desc
    ensures rc == if desc == null || p.None? then -1 else 0
    ensures desc != null ==> desc[..] == if p.None? then old(desc[..]) else LnormWords(p.value)
  {
    if desc == null || p.None? {
      return -1;
    }
    Clear(desc);
    desc[0], desc[1], desc[2] := OP_LNORM, p.value.inAddr, p.value.outAddr;
    desc[5], desc[6] := p.value.numRows, p.value.rowLen;
    desc[15] := p.value.normShift % 32;
    assert forall i :: 0 <= i < WORDS ==> desc[i] == LnormWord(p.value, i);
    return 0;
  }

  method BuildPool(desc: array?<int>, p: Option<PoolParams>) returns (rc: int)
    requires desc != null ==> desc.Length == WORDS
    modifies desc
    ensures rc == if desc == null || p.None? then -1 else 0
    ensures desc != null ==> desc[..] == if p.None? then old(desc[..]) else PoolWords(p.value)
  {
    if desc == null || p.None? {
      return -1;
    }
    var v := p.value;
    Clear(desc);
    desc[0], desc[1], desc[2] := OP_POOL, v.inAddr, v.outAddr;
    desc[5], desc[6], desc[7] := v.inH, v.inW, v.inC;
    StorePoolWindows(desc, v);
    return 0;
  }
}
