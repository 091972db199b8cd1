// The output sizes ref_conv and ref_pool compute in tb/integration/npu_tb.h, against the command builder's.
module Windows {
  import opened Common
  import Command

  function OutDim(size: nat, pad: nat, filt: nat, stride: nat): int
    requires stride > 0
  {
    TruncDiv(size + 2 * pad - filt, stride) + 1
  }

  // With sizes of 16 bits that fit a window, the command builder derives this very size.
  lemma {:induction false} OutDimIsDerived(size: U16, pad: U16, filt: U16, stride: U16)
    requires stride > 0 && filt <= size + 2 * pad && OutDim(size, pad, filt, stride) < 0x1_0000
    ensures Command.DeriveOutDim(size, pad, filt, stride, 0) == OutDim(size, pad, filt, stride)
  {
    Command.DeriveOutDimExact(size, pad, filt, stride);
  }

  // The windows counted: all that fit, and the first one if less than a stride is missing.
  lemma {:induction false} OutDimExact(size: nat, pad: nat, filt: nat, stride: nat, o: nat)
    requires stride > 0
    ensures o < OutDim(size, pad, filt, stride) <==>
            o * stride + filt <= size + 2 * pad || (o == 0 && filt < size + 2 * pad + stride)
  {
    var room := size + 2 * pad - filt;
    var q := TruncDiv(room, stride);
    TruncDivExact(room, stride);
    Distribute(0, o, stride);
    if room >= 0 {
      if o <= q { MulLe(o, q, stride); } else { MulLe(q + 1, o, stride); }
    } else if q <= -1 {
      MulLe(q, -1, stride);
    }
  }

  // Without padding every read of every window is inside the input, and one window more would not be.
  lemma {:induction false} UnpaddedReadsInside(size: nat, filt: nat, stride: nat, o: nat, i: nat)
    requires stride > 0 && filt <= size && i < filt
    ensures o < OutDim(size, 0, filt, stride) ==> 0 <= o * stride + i - 0 < size
    ensures o >= OutDim(size, 0, filt, stride) ==> o * stride + (filt - 1) >= size
  {
    Command.WindowCountExact(size, 0, filt, stride);
    assert Command.WindowFits(o, size, 0, filt, stride) <==> o < Command.WindowCount(size, 0, filt, stride);
  }
}
