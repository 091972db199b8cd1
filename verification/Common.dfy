// Fixed-width integers, C arithmetic and finite sums shared by the other modules.
module Common {
  datatype Option<+T> = None | Some(value: T)

  type U16 = x: int | 0 <= x < 0x1_0000
  type U20 = x: int | 0 <= x < 0x10_0000
  type U32 = x: int | 0 <= x < 0x1_0000_0000
  type I8 = x: int | -128 <= x <= 127
  type Byte = x: int | 0 <= x < 256

  // A row of a normalization, and one whose length fits a command's 16-bit field.
  type Row = x: seq<I8> | 1 <= |x| witness [0]
  predicate Short(x: Row) { |x| <= 0xFFFF }

  predicate FitsI32(x: int) {
    -0x8000_0000 <= x < 0x8000_0000
  }

  // Two's complement wrap-around of a 32-bit register.
  function Wrap32(x: int): (r: int)
    ensures FitsI32(r)
    decreases if x >= 0x8000_0000 then x else if x < -0x8000_0000 then -x else 0
  {
    if x >= 0x8000_0000 then Wrap32(x - 0x1_0000_0000)
    else if x < -0x8000_0000 then Wrap32(x + 0x1_0000_0000)
    else x
  }

  // Wrapping an intermediate result does not change the final one.
  lemma {:induction false} Wrap32Absorbs(x: int, y: int)
    ensures Wrap32(Wrap32(x) + y) == Wrap32(x + y)
    decreases if x >= 0x8000_0000 then x else if x < -0x8000_0000 then -x else 0
  {
    if x >= 0x8000_0000 {
      Wrap32Absorbs(x - 0x1_0000_0000, y);
      WrapOnce(x - 0x1_0000_0000 + y);
    } else if x < -0x8000_0000 {
      Wrap32Absorbs(x + 0x1_0000_0000, y);
      WrapOnce(x + y);
    }
  }

  // The wrapped value is the one 32-bit number that differs from x by a multiple of 2^32.
  lemma {:induction false} Wrap32Unique(x: int, y: int)
    requires FitsI32(y)
    ensures y == Wrap32(x) <==> (y - x) % 0x1_0000_0000 == 0
    decreases if x >= 0x8000_0000 then x else if x < -0x8000_0000 then -x else 0
  {
    if x >= 0x8000_0000 {
      Wrap32Unique(x - 0x1_0000_0000, y);
      ModPeriod(y - x);
    } else if x < -0x8000_0000 {
      Wrap32Unique(x + 0x1_0000_0000, y);
      ModPeriod(y - x - 0x1_0000_0000);
    } else {
      NearZero(y - x);
    }
  }

  lemma ModPeriod(z: int)
    ensures (z + 0x1_0000_0000) % 0x1_0000_0000 == z % 0x1_0000_0000
  {}

  lemma NearZero(z: int)
    requires -0x1_0000_0000 < z < 0x1_0000_0000
    ensures z % 0x1_0000_0000 == 0 <==> z == 0
  {}

  lemma {:induction false} WrapOnce(x: int)
    ensures Wrap32(x + 0x1_0000_0000) == Wrap32(x)
  {
    if x >= -0x8000_0000 {
      assert Wrap32(x + 0x1_0000_0000) == Wrap32(x + 0x1_0000_0000 - 0x1_0000_0000);
    }
  }

  // C's integer division: truncation toward zero.
  function TruncDiv(a: int, b: int): int
    requires b > 0
  {
    if a >= 0 then a / b else -(-a / b)
  }

  // Truncation: the quotient has the sign of a, and its product with b is at most b - 1 nearer to zero than a.
  lemma {:induction false} TruncDivExact(a: int, b: int)
    requires b > 0
    ensures a >= 0 ==> TruncDiv(a, b) >= 0 && TruncDiv(a, b) * b <= a < (TruncDiv(a, b) + 1) * b
    ensures a < 0 ==> TruncDiv(a, b) <= 0 && (TruncDiv(a, b) - 1) * b < a <= TruncDiv(a, b) * b
  {
    var m := if a >= 0 then a else -a;
    var q := m / b;
    DivAtLeast(m, b, 0);
    assert q * b <= m < (q + 1) * b;
    assert (-q) * b == -(q * b) && (-q - 1) * b == -((q + 1) * b);
  }

  lemma {:induction false} TruncDivUnique(a: int, b: int, q: int)
    requires b > 0
    requires if a >= 0 then 0 <= q && q * b <= a < (q + 1) * b else q <= 0 && (q - 1) * b < a <= q * b
    ensures q == TruncDiv(a, b)
  {
    if a >= 0 {
      FloorIsQuotient(a, b, q);
    } else {
      assert (-q) * b == -(q * b) && (-q + 1) * b == -((q - 1) * b);
      FloorIsQuotient(-a, b, -q);
    }
  }

  lemma {:induction false} QuotientWithin(s: int, n: nat, lo: int, hi: int)
    requires n > 0 && n * lo <= s <= n * hi
    ensures lo <= TruncDiv(s, n) <= hi
  {
    if s >= 0 {
      DivWithin(s, n, hi);
      DivAtLeast(s, n, lo);
    } else {
      DivWithin(-s, n, -lo);
      DivAtLeast(-s, n, -hi);
    }
  }

  lemma {:induction false} DivWithin(a: nat, n: nat, hi: int)
    requires n > 0 && a <= n * hi
    ensures a / n <= hi
  {
    var q := a / n;
    assert q * n <= a;
    if q > hi { ProductGap(q - 1, hi, n); }
  }

  lemma {:induction false} DivAtLeast(a: nat, n: nat, lo: int)
    requires n > 0 && n * lo <= a
    ensures lo <= a / n
  {
    var q := a / n;
    assert a < (q + 1) * n;
    if lo > 0 { ProductGap(lo, q, n); }
  }

  lemma {:induction false} DivMonotone(a: nat, b: nat, n: nat)
    requires n > 0 && a <= b
    ensures a / n <= b / n
  {
    assert a / n * n <= a;
    DivAtLeast(b, n, a / n);
  }

  // A sum reduced step by step is the sum reduced once.
  lemma ModAdds(a: nat, b: nat, m: nat)
    requires m > 0
    ensures (a % m + b) % m == (a + b) % m
  {
    var q, r := a / m, (a % m + b) % m;
    var k := (a % m + b) / m;
    assert a + b == (q + k) * m + r;
    DivUnique(a + b, m, q + k, r);
  }

  function Clamp8(x: int): I8 {
    if x > 127 then 127 else if x < -128 then -128 else x
  }

  function Pow2(n: nat): (p: nat)
    ensures p >= 1
  {
    if n == 0 then 1 else 2 * Pow2(n - 1)
  }

  // Arithmetic right shift of a two's complement value, one place at a time, rounding down.
  function ShiftRight(x: int, n: nat): int
    decreases n
  {
    if n == 0 then x else ShiftRight(x / 2, n - 1)
  }

  // It is the floor of the quotient by 2^n.
  lemma {:induction false} ShiftRightFloor(x: int, n: nat)
    ensures ShiftRight(x, n) * Pow2(n) <= x < (ShiftRight(x, n) + 1) * Pow2(n)
    ensures ShiftRight(x, n) == x / Pow2(n)
    decreases n
  {
    if n > 0 {
      ShiftRightFloor(x / 2, n - 1);
      FloorOfHalf(x, Pow2(n - 1), ShiftRight(x / 2, n - 1));
    }
    FloorIsQuotient(x, Pow2(n), ShiftRight(x, n));
  }

  lemma FloorOfHalf(x: int, p: nat, f: int)
    requires f * p <= x / 2 < (f + 1) * p
    ensures f * (2 * p) <= x < (f + 1) * (2 * p)
  {
    var a, b := f * p, (f + 1) * p;
    assert f * (2 * p) == 2 * a && (f + 1) * (2 * p) == 2 * b;
  }

  lemma {:induction false} FloorIsQuotient(x: int, p: nat, f: int)
    requires p > 0 && f * p <= x < (f + 1) * p
    ensures f == x / p
  {
    var q := x / p;
    assert q * p <= x < (q + 1) * p;
    if f < q { MulLe(f + 1, q, p); }
    if q < f { MulLe(q + 1, f, p); }
  }

  lemma Pow2Doubles(n: nat)
    ensures Pow2(0) == 1 && Pow2(n + 1) == 2 * Pow2(n)
  {}

  // f(0) + ... + f(n - 1)
  function Sum(n: nat, f: int -> int): int {
    if n == 0 then 0 else Sum(n - 1, f) + f(n - 1)
  }

  lemma {:induction false} SumExtensional(n: nat, f: int -> int, g: int -> int)
    requires forall i :: 0 <= i < n ==> f(i) == g(i)
    ensures Sum(n, f) == Sum(n, g)
  {
    if n > 0 { SumExtensional(n - 1, f, g); }
  }

  lemma {:induction false} SumNonNegative(n: nat, f: int -> int)
    requires forall j :: 0 <= j < n ==> f(j) >= 0
    ensures Sum(n, f) >= 0
  {
    if n > 0 { SumNonNegative(n - 1, f); }
  }

  lemma {:induction false} SumSplit(m: nat, n: nat, f: int -> int)
    ensures Sum(m + n, f) == Sum(m, f) + Sum(n, i => f(m + i))
    decreases n
  {
    if n > 0 {
      SumSplit(m, n - 1, f);
      assert Sum(m + n, f) == Sum(m + n - 1, f) + f(m + n - 1);
      SumExtensional(n - 1, i => f(m + i), i => f(m + i));
    }
  }

  // The sum over the rows of an m-by-n grid, row by row.
  function Rows(n: nat, f: int -> int): int -> int {
    i => Sum(n, j => f(i * n + j))
  }

  lemma {:induction false} RowIs(n: nat, line: int -> int, f: int -> int, i: int)
    requires forall j :: 0 <= j < n ==> line(j) == f(i * n + j)
    ensures Sum(n, line) == Rows(n, f)(i)
  {
    SumExtensional(n, line, j => f(i * n + j));
  }

  lemma {:induction false} SumNextRow(base: nat, n: nat, f: int -> int, i: int)
    requires base == i * n
    ensures Sum(base + n, f) == Sum(base, f) + Rows(n, f)(i)
  {
    SumSplit(base, n, f);
    RowIs(n, j => f(base + j), f, i);
  }

  lemma {:induction false} SumFlatten(m: nat, n: nat, f: int -> int)
    ensures Sum(m, Rows(n, f)) == Sum(m * n, f)
  {
    if m > 0 {
      SumFlatten(m - 1, n, f);
      Distribute(m - 1, 1, n);
      SumNextRow((m - 1) * n, n, f, m - 1);
    }
  }

  // Row r of a matrix of rows of length len.
  lemma RowSpan(r: nat, rows: nat, len: nat)
    requires r < rows
    ensures 0 <= r * len && r * len + len == (r + 1) * len <= rows * len
  {
    Distribute(r, 1, len);
    Distribute(r + 1, rows - r - 1, len);
    Distribute(0, r, len);
  }

  lemma Distribute(a: nat, b: nat, c: nat)
    ensures (a + b) * c == a * c + b * c
    ensures a * c >= 0 && b * c >= 0
  {}

  // Where n equal steps lead.
  function Steps(start: int, n: nat, step: nat): (end: int)
    ensures end >= start
  {
    if n == 0 then start else Steps(start, n - 1, step) + step
  }

  lemma {:induction false} StepsExact(start: int, n: nat, step: nat)
    ensures Steps(start, n, step) == start + n * step
  {
    if n > 0 {
      StepsExact(start, n - 1, step);
      Distribute(n - 1, 1, step);
    }
  }

  lemma {:induction false} MoreSteps(start: int, m: nat, n: nat, step: nat)
    requires m <= n
    ensures Steps(start, m, step) <= Steps(start, n, step)
  {
    if m < n { MoreSteps(start, m, n - 1, step); }
  }

  // Row r of a flat array of rows.
  function RowAt(input: seq<I8>, r: nat, len: nat): (x: Row)
    requires 1 <= len && (r + 1) * len <= |input|
    ensures |x| == len
  {
    RowSpan(r, r + 1, len);
    input[r * len..r * len + len]
  }

  lemma {:induction false} SumFlatten3(m: nat, n: nat, p: nat, f: int -> int)
    ensures Sum(m, Rows(n, Rows(p, f))) == Sum(m * n * p, f)
  {
    Distribute(0, m, n);
    var mn: nat := m * n;
    SumFlatten(m, n, Rows(p, f));
    SumFlatten(mn, p, f);
  }

  lemma {:induction false} LineSpan(oh: nat, height: nat, width: nat, k: nat)
    requires oh < height
    ensures 0 <= oh * width * k <= (oh * width + width) * k == (oh + 1) * width * k <= height * width * k
  {
    RowSpan(oh, height, width);
    Distribute(oh * width, width, k);
    Distribute(oh * width + width, height * width - (oh * width + width), k);
  }

  lemma Reassociate(i: nat, m: nat, n: nat, j: nat)
    ensures i * (m * n) + j * n == (i * m + j) * n
  {}

  // Position j of row i lies inside an m-by-n grid, and is found again by dividing.
  lemma {:induction false} Flat(i: nat, j: nat, m: nat, n: nat)
    requires i < m && j < n
    ensures 0 <= i * n <= i * n + j < m * n
    ensures (i * n + j) / n == i && (i * n + j) % n == j
  {
    RowSpan(i, m, n);
    DivUnique(i * n + j, n, i, j);
  }

  lemma {:induction false} DivUnique(x: nat, n: nat, q: nat, r: nat)
    requires r < n && x == q * n + r
    ensures x / n == q && x % n == r
  {
    QuotientIs(x, n, q, r);
  }

  lemma {:induction false} QuotientIs(n: nat, d: nat, q: nat, r: nat)
    requires d > 0 && n == q * d + r && r < d
    ensures n / d == q
  {
    var k := n / d;
    assert k * d <= n < (k + 1) * d;
    ProductGap(k, q, d);
    ProductGap(q, k, d);
  }

  lemma ProductGap(a: nat, b: nat, d: nat)
    requires d > 0
    ensures a * d < (b + 1) * d ==> a <= b
  {
    if a > b {
      assert (b + 1) * d <= a * d;
    }
  }

  lemma {:induction false} QuotientBelow(n: nat, p: nat, b: nat)
    requires p > 0 && n < b * p
    ensures n / p < b
  {
    if b > 0 {
      ProductGap(n / p, b - 1, p);
    }
  }

  lemma MulLe(a: int, b: int, c: nat)
    requires a <= b
    ensures a * c <= b * c
  {}

  // f(0) + ... + f(n - 1) as sequences.
  function Concat<T>(n: nat, f: int -> seq<T>): seq<T> {
    if n == 0 then [] else Concat(n - 1, f) + f(n - 1)
  }

  lemma {:induction false} ConcatExtensional<T>(n: nat, f: int -> seq<T>, g: int -> seq<T>)
    requires forall i :: 0 <= i < n ==> f(i) == g(i)
    ensures Concat(n, f) == Concat(n, g)
  {
    if n > 0 { ConcatExtensional(n - 1, f, g); }
  }

  // Element j of block i sits at i * n + j when all blocks have length n.
  lemma {:induction false} ConcatAt<T>(m: nat, n: nat, f: int -> seq<T>, i: nat, j: nat)
    requires i < m && j < n && forall b :: 0 <= b < m ==> |f(b)| == n
    ensures |Concat(m, f)| == m * n && 0 <= i * n + j < m * n && Concat(m, f)[i * n + j] == f(i)[j]
  {
    Flat(i, j, m, n);
    ConcatLength(m, n, f);
    ConcatLength(m - 1, n, f);
    if i < m - 1 {
      Flat(i, j, m - 1, n);
      ConcatAt(m - 1, n, f, i, j);
    }
  }

  lemma {:induction false} ConcatLength<T>(m: nat, n: nat, f: int -> seq<T>)
    requires forall b :: 0 <= b < m ==> |f(b)| == n
    ensures |Concat(m, f)| == m * n
  {
    if m > 0 {
      ConcatLength(m - 1, n, f);
      Distribute(m - 1, 1, n);
    }
  }

  lemma {:induction false} ConcatSplit<T>(m: nat, n: nat, f: int -> seq<T>)
    ensures Concat(m + n, f) == Concat(m, f) + Concat(n, i => f(m + i))
    decreases n
  {
    if n > 0 {
      ConcatSplit(m, n - 1, f);
      ConcatExtensional(n - 1, i => f(m + i), i => f(m + i));
      assert Concat(m + n, f) == Concat(m + n - 1, f) + f(m + n - 1);
    }
  }

  // Blocks of blocks.
  function Blocks<T>(n: nat, f: int -> seq<T>): int -> seq<T> {
    i => Concat(n, j => f(i * n + j))
  }

  lemma {:induction false} BlockIs<T>(n: nat, line: int -> seq<T>, f: int -> seq<T>, i: int)
    requires forall j :: 0 <= j < n ==> line(j) == f(i * n + j)
    ensures Concat(n, line) == Blocks(n, f)(i)
  {
    ConcatExtensional(n, line, j => f(i * n + j));
  }

  lemma {:induction false} ConcatNextBlock<T>(base: nat, n: nat, f: int -> seq<T>, i: int)
    requires base == i * n
    ensures Concat(base + n, f) == Concat(base, f) + Blocks(n, f)(i)
  {
    ConcatSplit(base, n, f);
    BlockIs(n, j => f(base + j), f, i);
  }

  lemma {:induction false} ConcatFlatten<T>(m: nat, n: nat, f: int -> seq<T>)
    ensures Concat(m, Blocks(n, f)) == Concat(m * n, f)
  {
    if m > 0 {
      ConcatFlatten(m - 1, n, f);
      Distribute(m - 1, 1, n);
      ConcatNextBlock((m - 1) * n, n, f, m - 1);
    }
  }

  // Two transfers side by side: what stays in order across one boundary stays in order across both.
  lemma Abut<T>(a: seq<T>, b: seq<T>, c: seq<T>, m: seq<T>, d: seq<T>, e: seq<T>, f: seq<T>)
    requires a + b == c + m && m + d == e + f
    ensures a + (b + d) == (c + e) + f
  {
    assert a + (b + d) == (a + b) + d;
    assert (c + m) + d == c + (m + d);
    assert c + (e + f) == (c + e) + f;
  }

  // A log followed by what is in transit absorbs what enters when the transit hands over what leaves.
  lemma HandOver<T>(all: seq<T>, log: seq<T>, before: seq<T>, enter: seq<T>, leave: seq<T>, after: seq<T>)
    requires all == log + before && leave + after == before + enter
    ensures all + enter == (log + leave) + after
  {
    assert (log + before) + enter == log + (before + enter);
    assert log + (leave + after) == (log + leave) + after;
  }

  lemma {:induction false} SumBounds(n: nat, f: int -> int, lo: int, hi: int)
    requires forall i :: 0 <= i < n ==> lo <= f(i) <= hi
    ensures n * lo <= Sum(n, f) <= n * hi
  {
    if n > 0 {
      SumBounds(n - 1, f, lo, hi);
      assert n * lo == (n - 1) * lo + lo;
      assert n * hi == (n - 1) * hi + hi;
    }
  }
}
