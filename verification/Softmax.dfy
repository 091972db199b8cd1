// softmax_exp_approx and ref_softmax in tb/integration/npu_tb.h.
module Softmax {
  import opened Common

  function ExpInt(i: nat): (e: nat)
    requires i < 8
    ensures 60 <= e <= 65535
  {
    match i
    case 0 => 65535 case 1 => 24109 case 2 => 8869 case 3 => 3263
    case 4 => 1200 case 5 => 442 case 6 => 162 case _ => 60
  }

  function ExpFrac(j: nat): (e: nat)
    requires j < 32
    ensures 24874 <= e <= 65535
  {
    match j
    case 0 => 65535 case 1 => 63519 case 2 => 61564 case 3 => 59670
    case 4 => 57834 case 5 => 56055 case 6 => 54330 case 7 => 52659
    case 8 => 51039 case 9 => 49468 case 10 => 47946 case 11 => 46471
    case 12 => 45042 case 13 => 43656 case 14 => 42313 case 15 => 41011
    case 16 => 39749 case 17 => 38526 case 18 => 37341 case 19 => 36192
    case 20 => 35078 case 21 => 33999 case 22 => 32953 case 23 => 31939
    case 24 => 30957 case 25 => 30004 case 26 => 29081 case 27 => 28186
    case 28 => 27319 case 29 => 26479 case 30 => 25664 case _ => 24874
  }

  // ---- The tables follow the exponential ----

  // One entry of the coarse table is 65535/e to the nearest integer: 1/e lies between the sums of its series
  // 1/2! - 1/3! + 1/4! - ... up to 1/9! and up to 1/8!.
  lemma FirstEntryIsNearest()
    ensures (2 * ExpInt(1) - 1) * 362_880 <= 2 * 65535 * (181_440 - 60_480 + 15_120 - 3_024 + 504 - 72 + 9 - 1)
    ensures 2 * 65535 * (20_160 - 6_720 + 1_680 - 336 + 56 - 8 + 1) <= (2 * ExpInt(1) + 1) * 40_320
  {}

  // Each entry times the first step is the next entry, in units of 65535 and up to rounding: the coarse table's
  // steps are the powers of 1/e...
  lemma CoarseStep(i: nat)
    requires i < 7
    ensures -65535 < ExpInt(i) * ExpInt(1) - 65535 * ExpInt(i + 1) < 65535
  {}

  // ...and thirty-two steps of the fine table make one of the coarse one.
  lemma FineStep(j: nat)
    requires j < 32
    ensures var next := if j < 31 then ExpFrac(j + 1) else ExpInt(1);
            -67_000 < ExpFrac(j) * ExpFrac(1) - 65535 * next < 67_000
  {}

  lemma FirstEntries()
    ensures ExpInt(0) == 65535 && ExpFrac(0) == 65535
  {}

  // The approximation is the high word of the product of the two entries that bits 7..5 and 4..0 select.
  lemma {:induction false} ApproxMeaning(i: nat, j: nat)
    requires i < 8 && j < 32
    ensures 0 <= 32 * i + j < 256
    ensures var y := Approx(32 * i + j); y * 65536 <= ExpInt(i) * ExpFrac(j) < (y + 1) * 65536
  {
    var d := 32 * i + j;
    assert d / 32 == i && d % 32 == j;
    ProductFits(d);
  }

  function Product(diff: nat): nat
    requires diff < 256
  {
    ExpInt(diff / 32) * ExpFrac(diff % 32) % 0x1_0000_0000
  }

  function Approx(diff: nat): nat
    requires diff < 256
  {
    Product(diff) / 0x1_0000 % 0x1_0000
  }

  lemma {:induction false} ProductFits(diff: nat)
    requires diff < 256
    ensures Product(diff) == ExpInt(diff / 32) * ExpFrac(diff % 32)
    ensures 60 * 24874 <= Product(diff) <= 65535 * 65535
  {
    MulBounds(ExpInt(diff / 32), ExpFrac(diff % 32));
  }

  lemma MulBounds(a: nat, b: nat)
    requires 60 <= a <= 65535 && 24874 <= b <= 65535
    ensures 60 * 24874 <= a * b <= 65535 * 65535
  {
    LeftScale(a, 24874, b);
    LeftScale(a, b, 65535);
  }

  // One step down the table, inside a block of 32 or across its edge.
  lemma {:induction false} ProductStep(diff: nat)
    requires diff < 255
    ensures Product(diff + 1) <= Product(diff)
  {
    ProductFits(diff);
    ProductFits(diff + 1);
    var i, j := diff / 32, diff % 32;
    if j < 31 {
      assert (diff + 1) / 32 == i && (diff + 1) % 32 == j + 1;
      FracStep(j);
      LeftScale(ExpInt(i), ExpFrac(j + 1), ExpFrac(j));
    } else {
      assert (diff + 1) / 32 == i + 1 && (diff + 1) % 32 == 0;
      EdgeStep(i);
    }
  }

  lemma FracStep(j: nat)
    requires j < 31
    ensures ExpFrac(j + 1) <= ExpFrac(j)
  {}

  lemma LeftScale(a: nat, b: nat, c: nat)
    requires b <= c
    ensures a * b <= a * c
  {}

  lemma EdgeStep(i: nat)
    requires i < 7
    ensures ExpInt(i + 1) * ExpFrac(0) <= ExpInt(i) * ExpFrac(31)
  {}

  // The approximation never increases with the distance from the maximum.
  lemma {:induction false} ApproxAntitone(d: nat, e: nat)
    requires d <= e < 256
    ensures Approx(e) <= Approx(d)
    decreases e
  {
    if d < e {
      ApproxAntitone(d, e - 1);
      ProductStep(e - 1);
      ProductFits(e - 1);
      HighWordOrder(Product(e), Product(e - 1));
    }
  }

  lemma HighWordOrder(a: nat, b: nat)
    requires a <= b < 0x1_0000_0000
    ensures a / 0x1_0000 % 0x1_0000 <= b / 0x1_0000 % 0x1_0000
  {}

  lemma {:induction false} ApproxRange(d: nat)
    requires d < 256
    ensures 22 <= Approx(d) <= 65534 && Approx(0) == 65534
  {
    ProductFits(d);
    ApproxAntitone(0, d);
  }

  // All the row arithmetic needs of the table: its first entry, its range and its order.
  predicate IsTable(exp: int -> int) {
    && exp(0) == 65534
    && (forall d :: 0 <= d < 256 ==> 22 <= exp(d) <= 65534)
    && (forall d, e :: 0 <= d <= e < 256 ==> exp(e) <= exp(d))
  }

  type Table = exp: int -> int | IsTable(exp) witness ExpTable()

  // The source's table.
  function ExpTable(): (exp: int -> int)
    ensures IsTable(exp)
    ensures forall d :: 0 <= d < 256 ==> exp(d) == Approx(d)
  {
    TableFacts();
    d => if 0 <= d < 256 then Approx(d) else 0
  }

  lemma {:induction false} TableFacts()
    ensures Approx(0) == 65534
    ensures forall d :: 0 <= d < 256 ==> 22 <= Approx(d) <= 65534
    ensures forall d, e :: 0 <= d <= e < 256 ==> Approx(e) <= Approx(d)
  {
    ApproxRange(0);
    forall d | 0 <= d < 256 ensures 22 <= Approx(d) <= 65534 { ApproxRange(d); }
    forall d, e | 0 <= d <= e < 256 ensures Approx(e) <= Approx(d) { ApproxAntitone(d, e); }
  }

  predicate IsMax(m: int, x: seq<I8>) {
    (forall i :: 0 <= i < |x| ==> x[i] <= m) && exists i :: 0 <= i < |x| && x[i] == m
  }

  ghost function MaxOf(x: Row): (m: I8)
    ensures IsMax(m, x)
  {
    MaxExists(x);
    var m: I8 :| IsMax(m, x);
    m
  }

  lemma {:induction false} MaxExists(x: seq<I8>)
    requires |x| > 0
    ensures exists m: I8 :: IsMax(m, x)
  {
    if |x| == 1 {
      assert IsMax(x[0], x);
    } else {
      MaxExists(x[1..]);
      var m: I8 :| IsMax(m, x[1..]);
      var k :| 0 <= k < |x[1..]| && x[1..][k] == m;
      assert x[k + 1] == m;
      forall i | 0 < i < |x| ensures x[i] <= m { assert x[i] == x[1..][i - 1]; }
      assert IsMax(if x[0] > m then x[0] else m, x);
    }
  }

  // The weight of element i, zero outside the row.
  ghost function Weights(exp: Table, x: Row): int -> int {
    i => if 0 <= i < |x| then exp(MaxOf(x) - x[i]) else 0
  }

  ghost function Total(exp: Table, x: Row): int { Sum(|x|, Weights(exp, x)) }

  // The largest element weighs 65534, so the sum is at least that; 65535 weights stay below 2^32.
  lemma {:induction false} TotalRange(exp: Table, x: Row)
    ensures 65534 <= Total(exp, x) && (Short(x) ==> Total(exp, x) < 0x1_0000_0000)
    ensures forall i :: 0 <= i < |x| ==> Weights(exp, x)(i) <= Total(exp, x)
  {
    WeightsRange(exp, x);
    forall i | 0 <= i < |x| ensures Weights(exp, x)(i) <= Total(exp, x) {
      PartOfSum(|x|, Weights(exp, x), i);
    }
    SumBounds(|x|, Weights(exp, x), 0, 65534);
  }

  lemma {:induction false} WeightsRange(exp: Table, x: Row)
    ensures forall i :: 0 <= i < |x| ==> 22 <= Weights(exp, x)(i) <= 65534
    ensures exists i :: 0 <= i < |x| && Weights(exp, x)(i) == 65534
  {
    forall i | 0 <= i < |x| ensures 22 <= Weights(exp, x)(i) <= 65534 {
      assert 22 <= exp(MaxOf(x) - x[i]) <= 65534;
    }
    var k :| 0 <= k < |x| && x[k] == MaxOf(x);
    assert Weights(exp, x)(k) == 65534;
  }

  lemma {:induction false} PartOfSum(n: nat, f: int -> int, i: nat)
    requires i < n && forall j :: 0 <= j < n ==> f(j) >= 0
    ensures f(i) <= Sum(n, f)
  {
    SumNonNegative(n - 1, f);
    if i < n - 1 { PartOfSum(n - 1, f, i); }
  }

  // The floor of an element's share of 127.
  ghost function Share(exp: Table, x: Row, i: nat): int
    requires i < |x|
  {
    TotalRange(exp, x);
    127 * Weights(exp, x)(i) / Total(exp, x)
  }

  // Every share lies in [0, 127].
  lemma {:induction false} ShareRange(exp: Table, x: Row, i: nat)
    requires i < |x|
    ensures 0 <= Share(exp, x, i) <= 127
    ensures Share(exp, x, i) * Total(exp, x) <= 127 * Weights(exp, x)(i) < (Share(exp, x, i) + 1) * Total(exp, x)
  {
    WeightsRange(exp, x);
    TotalRange(exp, x);
    FloorShare(Weights(exp, x)(i), Total(exp, x));
  }

  lemma {:induction false} FloorShare(w: nat, total: nat)
    requires w <= total && 0 < total
    ensures 0 <= 127 * w / total <= 127
    ensures 127 * w / total * total <= 127 * w < (127 * w / total + 1) * total
  {
    var q := 127 * w / total;
    assert q * total <= 127 * w < (q + 1) * total;
    if q > 127 { LeftScale(total, 128, q); }
  }

  ghost function Shares(exp: Table, x: Row): int -> int {
    i => if 0 <= i < |x| then Share(exp, x, i) else 0
  }

  // The shares of a row add up to at most 127 and, flooring losing less than one each, to more than 127 - N.
  lemma {:induction false} RowTotal(exp: Table, x: Row)
    ensures 127 - |x| < Sum(|x|, Shares(exp, x)) <= 127
  {
    TotalRange(exp, x);
    SharesVersusWeights(exp, x, |x|);
    var s, t := Sum(|x|, Shares(exp, x)), Total(exp, x);
    assert s * t < 128 * t;
    CancelLt(s, 128, t);
    CancelLt(127, s + |x|, t);
  }

  lemma CancelLt(a: int, b: int, t: nat)
    requires t > 0 && a * t < b * t
    ensures a < b
  {}

  lemma {:induction false} SharesVersusWeights(exp: Table, x: Row, k: nat)
    requires k <= |x|
    ensures Sum(k, Shares(exp, x)) * Total(exp, x) <= 127 * Sum(k, Weights(exp, x))
    ensures k > 0 ==> 127 * Sum(k, Weights(exp, x)) < (Sum(k, Shares(exp, x)) + k) * Total(exp, x)
  {
    if k > 0 {
      SharesVersusWeights(exp, x, k - 1);
      ShareRange(exp, x, k - 1);
      AddShares(Sum(k - 1, Shares(exp, x)), Share(exp, x, k - 1), k - 1, Total(exp, x));
    }
  }

  lemma AddShares(s: int, q: int, k: nat, t: int)
    ensures (s + q) * t == s * t + q * t
    ensures (s + q + k + 1) * t == (s + k) * t + (q + 1) * t
  {}

  // A larger input never gets a smaller output.
  lemma {:induction false} ShareMonotone(exp: Table, x: Row, i: nat, j: nat)
    requires i < |x| && j < |x| && x[i] <= x[j]
    ensures Share(exp, x, i) <= Share(exp, x, j)
  {
    TotalRange(exp, x);
    WeightsRange(exp, x);
    assert exp(MaxOf(x) - x[i]) <= exp(MaxOf(x) - x[j]);
    DivMonotone(127 * Weights(exp, x)(i), 127 * Weights(exp, x)(j), Total(exp, x));
  }

  // Adding one constant to a whole row, as long as it stays INT8, changes no output.
  lemma {:induction false} ShiftInvariant(exp: Table, x: Row, y: Row, c: int, i: nat)
    requires |x| == |y| && i < |x|
    requires forall j :: 0 <= j < |x| ==> y[j] == x[j] + c
    ensures Share(exp, x, i) == Share(exp, y, i)
  {
    assert IsMax(MaxOf(x) + c, y) by {
      var k :| 0 <= k < |x| && x[k] == MaxOf(x);
      assert y[k] == MaxOf(x) + c;
    }
    assert MaxOf(y) == MaxOf(x) + c;
    SumExtensional(|x|, Weights(exp, x), Weights(exp, y));
  }

  // A constant row gets 127 / N everywhere.
  lemma {:induction false} ConstantRow(exp: Table, x: Row, i: nat)
    requires i < |x| && forall j :: 0 <= j < |x| ==> x[j] == x[0]
    ensures Share(exp, x, i) == 127 / |x|
  {
    assert MaxOf(x) == x[0];
    forall j | 0 <= j < |x| ensures Weights(exp, x)(j) == 65534 {}
    SumBounds(|x|, Weights(exp, x), 65534, 65534);
    ScaledQuotient(127, |x|, 65534);
  }

  lemma {:induction false} ScaledQuotient(a: nat, n: nat, w: nat)
    requires n > 0 && w > 0
    ensures n * w > 0 && a * w / (n * w) == a / n
  {
    var q, r := a / n, a % n;
    Distribute(1, n - 1, w);
    Distribute(q * n, r, w);
    Reassociate(q, n, w, 0);
    Distribute(r, n - r, w);
    Distribute(1, n - r - 1, w);
    QuotientIs(a * w, n * w, q, r * w);
  }

  // Pass 3 for one element: a 32-bit product, an 8-bit quotient, the clamp.
  function Quotient(e: nat, sum: nat): I8
    requires sum > 0
  {
    var quot := e * 127 % 0x1_0000_0000 / sum % 256;
    if quot > 127 then 127 else quot
  }

  lemma {:induction false} QuotientExact(e: nat, sum: nat)
    requires e <= 65534 && e <= sum && 0 < sum
    ensures Quotient(e, sum) == 127 * e / sum <= 127
  {
    FloorShare(e, sum);
  }

  // The sum as its 32-bit register holds it.
  ghost function SumRegister(exp: Table, x: Row): nat { Total(exp, x) % 0x1_0000_0000 }

  // The output for element i. A register of zero, which only rows longer than 65535 can reach, has none.
  ghost function Output(exp: Table, x: Row, i: nat): I8
    requires i < |x|
  {
    WeightsRange(exp, x);
    if SumRegister(exp, x) == 0 then 0 else Quotient(Weights(exp, x)(i), SumRegister(exp, x))
  }

  // In a short row nothing wraps and the clamp never acts: the output is the share.
  lemma {:induction false} OutputIsShare(exp: Table, x: Row, i: nat)
    requires Short(x) && i < |x|
    ensures SumRegister(exp, x) == Total(exp, x) > 0 && Output(exp, x, i) == Share(exp, x, i)
  {
    RegisterExact(exp, x);
    var w, total := Weights(exp, x)(i), Total(exp, x);
    TotalRange(exp, x);
    WeightsRange(exp, x);
    QuotientExact(w, total);
  }

  lemma RegisterExact(exp: Table, x: Row)
    requires Short(x)
    ensures SumRegister(exp, x) == Total(exp, x) > 0
  {
    TotalRange(exp, x);
  }

  // The output in numbers, with the source's table: m is the row's maximum, w the high words of the two tables'
  // products, and y the floor of 127 times one weight over their sum.
  lemma {:induction false} SoftmaxMeaning(exp: Table, x: Row, i: nat, m: I8, w: int -> int)
    requires forall d :: 0 <= d < 256 ==> exp(d) == Approx(d)
    requires Short(x) && i < |x| && (forall k :: 0 <= k < |x| ==> x[k] <= m) && exists k :: 0 <= k < |x| && x[k] == m
    requires forall k :: 0 <= k < |x| ==> WeightIs(m - x[k], w(k))
    ensures var y := Output(exp, x, i); y * Sum(|x|, w) <= 127 * w(i) < (y + 1) * Sum(|x|, w)
  {
    forall k | 0 <= k < |x| ensures w(k) == exp(m - x[k]) { WeightIsApprox(m - x[k], w(k)); }
    ShareOfSum(exp, x, i, m, w);
  }

  lemma {:induction false} ShareOfSum(exp: Table, x: Row, i: nat, m: I8, w: int -> int)
    requires Short(x) && i < |x| && IsMax(m, x) && forall k :: 0 <= k < |x| ==> w(k) == exp(m - x[k])
    ensures var y := Output(exp, x, i); y * Sum(|x|, w) <= 127 * w(i) < (y + 1) * Sum(|x|, w)
  {
    assert m == MaxOf(x);
    SumExtensional(|x|, w, Weights(exp, x));
    OutputIsShare(exp, x, i);
    ShareRange(exp, x, i);
  }

  predicate WeightIs(d: nat, w: int)
    requires d < 256
  {
    w * 65536 <= ExpInt(d / 32) * ExpFrac(d % 32) < (w + 1) * 65536
  }

  lemma WeightIsApprox(d: nat, w: int)
    requires d < 256
    ensures WeightIs(d, w) <==> w == Approx(d)
  {
    ApproxMeaning(d / 32, d % 32);
  }

  ghost function SoftmaxRow(exp: Table, x: Row): (y: seq<I8>)
    ensures |y| == |x|
  {
    seq(|x|, i requires 0 <= i < |x| => Output(exp, x, i))
  }

  ghost function SoftmaxRows(exp: Table, input: seq<I8>, rows: nat, len: nat): (y: seq<I8>)
    requires 1 <= len && |input| >= rows * len
    ensures |y| == rows * len
  {
    if rows == 0 then []
    else
      RowSpan(rows - 1, rows, len);
      SoftmaxRows(exp, input, rows - 1, len) + SoftmaxRow(exp, RowAt(input, rows - 1, len))
  }

  // Output r * len + i is that of element i in row r.
  lemma {:induction false} SoftmaxRowsAt(exp: Table, input: seq<I8>, rows: nat, len: nat, r: nat, i: nat)
    requires 1 <= len && |input| >= rows * len && r < rows && i < len
    ensures 0 <= r * len && r * len + i < rows * len && (r + 1) * len <= rows * len
    ensures SoftmaxRows(exp, input, rows, len)[r * len + i] == Output(exp, RowAt(input, r, len), i)
  {
    RowSpan(r, rows, len);
    RowSpan(rows - 1, rows, len);
    var front, last := SoftmaxRows(exp, input, rows - 1, len), SoftmaxRow(exp, RowAt(input, rows - 1, len));
    if r < rows - 1 {
      RowSpan(r, rows - 1, len);
      SoftmaxRowsAt(exp, input, rows - 1, len, r, i);
      assert (front + last)[r * len + i] == front[r * len + i];
    } else {
      assert (front + last)[|front| + i] == last[i];
    }
  }

  // No row's sum register is zero, so no output divides by zero.
  ghost predicate Divides(exp: Table, input: seq<I8>, rows: nat, len: nat)
    requires 1 <= len && |input| >= rows * len
  {
    if rows == 0 then true
    else
      RowSpan(rows - 1, rows, len);
      Divides(exp, input, rows - 1, len) && SumRegister(exp, RowAt(input, rows - 1, len)) > 0
  }

  lemma {:induction false} ShortRowsDivide(exp: Table, input: seq<I8>, rows: nat, len: nat)
    requires 1 <= len <= 0xFFFF && |input| >= rows * len
    ensures Divides(exp, input, rows, len)
  {
    if rows > 0 {
      RowSpan(rows - 1, rows, len);
      ShortRowsDivide(exp, input, rows - 1, len);
      OutputIsShare(exp, RowAt(input, rows - 1, len), 0);
    }
  }

  lemma {:induction false} DividesAt(exp: Table, input: seq<I8>, rows: nat, len: nat, r: nat)
    requires 1 <= len && |input| >= rows * len && r < rows && Divides(exp, input, rows, len)
    ensures (r + 1) * len <= rows * len && SumRegister(exp, RowAt(input, r, len)) > 0
  {
    RowSpan(r, rows, len);
    RowSpan(rows - 1, rows, len);
    if r < rows - 1 { DividesAt(exp, input, rows - 1, len, r); }
  }

  method RowMax(x: Row) returns (maxVal: I8)
    ensures IsMax(maxVal, x) && maxVal == MaxOf(x)
  {
    maxVal := -128;
    for i := 0 to |x|
      invariant forall j :: 0 <= j < i ==> x[j] <= maxVal
      invariant i > 0 ==> exists j :: 0 <= j < i && x[j] == maxVal
      invariant i == 0 ==> maxVal == -128
    {
      if x[i] > maxVal { maxVal := x[i]; }
    }
  }

  // The source subtracts the two values as unsigned bytes.
  function ByteDiff(maxVal: I8, v: I8): nat {
    (Unsigned(maxVal) - Unsigned(v)) % 256
  }

  function Unsigned(v: I8): nat { if v < 0 then v + 256 else v }

  lemma ByteDiffExact(maxVal: I8, v: I8)
    requires v <= maxVal
    ensures ByteDiff(maxVal, v) == maxVal - v
  {}

  // No wrap: the byte difference is the true distance, so its table entry is the element's weight.
  lemma WeightFromBytes(exp: Table, x: Row, i: nat)
    requires i < |x|
    ensures exp(ByteDiff(MaxOf(x), x[i])) == Weights(exp, x)(i)
  {
    ByteDiffExact(MaxOf(x), x[i]);
  }

  method RowSum(exp: Table, x: Row, maxVal: I8) returns (sum: nat)
    requires maxVal == MaxOf(x)
    ensures sum == SumRegister(exp, x)
  {
    ghost var weights := Weights(exp, x);
    WeightsRange(exp, x);
    forall i | 0 <= i < |x| ensures weights(i) == exp(ByteDiff(maxVal, x[i])) { WeightFromBytes(exp, x, i); }
    sum := SumUp(exp, x, maxVal, weights);
  }

  // Pass 2 in its 32-bit register.
  method SumUp(exp: int -> int, x: seq<I8>, maxVal: I8, ghost weights: int -> int) returns (sum: nat)
    requires forall i :: 0 <= i < |x| ==> weights(i) == exp(ByteDiff(maxVal, x[i])) && weights(i) >= 0
    ensures Sum(|x|, weights) >= 0 && sum == Sum(|x|, weights) % 0x1_0000_0000
  {
    sum := 0;
    ghost var exact: nat := 0;
    for i := 0 to |x|
      invariant exact == Sum(i, weights) && sum == exact % 0x1_0000_0000
    {
      assert weights(i) >= 0;
      var e := exp(ByteDiff(maxVal, x[i]));
      ModAdds(exact, e, 0x1_0000_0000);
      sum := (sum + e) % 0x1_0000_0000;
      exact := exact + e;
    }
  }

  lemma {:induction false} OutputFromBytes(exp: Table, x: Row, i: nat)
    requires i < |x| && SumRegister(exp, x) > 0
    ensures var e := exp(ByteDiff(MaxOf(x), x[i]));
            e >= 0 && Quotient(e, SumRegister(exp, x)) == Output(exp, x, i)
  {
    WeightsRange(exp, x);
    WeightFromBytes(exp, x, i);
  }

  // The statements for one output.
  method DivideShare(e: nat, sum: nat) returns (y: I8)
    requires sum > 0
    ensures y == Quotient(e, sum)
  {
    var numer := e * 127 % 0x1_0000_0000;
    DivAtLeast(numer, sum, 0);
    var quot := numer / sum % 256;
    if quot > 127 { quot := 127; }
    y := quot;
  }

  // Pass 3: `row` is what it writes.
  method WriteRow(exp: Table, x: Row, maxVal: I8, sum: nat, out: array<I8>, base: nat, ghost row: seq<I8>)
    requires base + |x| <= out.Length && |row| == |x| && sum > 0
    requires forall j :: 0 <= j < |x| ==>
               exp(ByteDiff(maxVal, x[j])) >= 0 && Quotient(exp(ByteDiff(maxVal, x[j])), sum) == row[j]
    modifies out
    ensures out[..base + |x|] == old(out[..base]) + row
  {
    for i := 0 to |x|
      invariant out[..base + i] == old(out[..base]) + row[..i]
    {
      var y := DivideShare(exp(ByteDiff(maxVal, x[i])), sum);
      out[base + i] := y;
    }
  }

  // Three passes over one row.
  method SoftmaxOneRow(exp: Table, x: Row, out: array<I8>, base: nat)
    requires base + |x| <= out.Length && SumRegister(exp, x) > 0
    modifies out
    ensures out[..base + |x|] == old(out[..base]) + SoftmaxRow(exp, x)
  {
    var maxVal := RowMax(x);
    var sum := RowSum(exp, x, maxVal);
    forall j | 0 <= j < |x|
      ensures exp(ByteDiff(maxVal, x[j])) >= 0
      ensures Quotient(exp(ByteDiff(maxVal, x[j])), sum) == SoftmaxRow(exp, x)[j]
    {
      OutputFromBytes(exp, x, j);
    }
    WriteRow(exp, x, maxVal, sum, out, base, SoftmaxRow(exp, x));
  }

  method RefSoftmaxRow(exp: Table, input: seq<I8>, r: nat, len: nat, out: array<I8>)
    requires 1 <= len && 0 <= r * len <= (r + 1) * len <= out.Length <= |input|
    requires SumRegister(exp, RowAt(input, r, len)) > 0
    modifies out
    ensures out[..(r + 1) * len] == old(out[..r * len]) + SoftmaxRow(exp, RowAt(input, r, len))
  {
    Distribute(r, 1, len);
    var base := r * len;
    SoftmaxOneRow(exp, input[base..base + len], out, base);
  }

  // Rows of length zero are passed over. The call divides by each row's sum register.
  method RefSoftmax(input: seq<I8>, rows: nat, len: nat) returns (out: array<I8>)
    requires |input| >= rows * len && (len > 0 ==> Divides(ExpTable(), input, rows, len))
    ensures out[..] == if len == 0 then [] else SoftmaxRows(ExpTable(), input, rows, len)
  {
    if len == 0 { return new I8[0]; }
    out := RefSoftmaxRows(ExpTable(), input, rows, len);
  }

  method RefSoftmaxRows(exp: Table, input: seq<I8>, rows: nat, len: nat) returns (out: array<I8>)
    requires 1 <= len && |input| >= rows * len && Divides(exp, input, rows, len)
    ensures out[..] == SoftmaxRows(exp, input, rows, len)
  {
    Distribute(rows, 0, len);
    out := new I8[rows * len];
    for r := 0 to rows
      invariant 0 <= r * len <= out.Length
      invariant out[..r * len] == SoftmaxRows(exp, input, r, len)
    {
      DividesAt(exp, input, rows, len, r);
      RowSpan(r, rows, len);
      RefSoftmaxRow(exp, input, r, len, out);
    }
  }
}
