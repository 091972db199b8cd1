// isqrt_hw in tb/integration/npu_tb.h: digit-by-digit square root in 32- and 16-bit registers.
module Isqrt {
  import opened Common

  predicate IsRoot(r: nat, n: nat) { r * r <= n < (r + 1) * (r + 1) }

  lemma RootUnique(r: nat, s: nat, n: nat)
    requires IsRoot(r, n) && IsRoot(s, n)
    ensures r == s
  {
    if r < s {
      SquareLe(r + 1, s);
    } else if s < r {
      SquareLe(s + 1, r);
    }
  }

  lemma SquareLe(a: nat, b: nat)
    requires a <= b
    ensures a * a <= b * b
  {
    assert a * a <= a * b <= b * b;
  }

  // The integer square root, counted up one number at a time.
  ghost function Root(n: nat): (r: nat)
    ensures IsRoot(r, n)
  {
    if n == 0 then 0
    else
      var s := Root(n - 1);
      if (s + 1) * (s + 1) <= n then
        assert (s + 2) * (s + 2) == (s + 1) * (s + 1) + 2 * s + 3;
        s + 1
      else s
  }

  function Pow4(i: nat): (p: nat)
    ensures p >= 1
  {
    if i == 0 then 1 else 4 * Pow4(i - 1)
  }

  // Two more bits of n below the ones already shifted in.
  lemma {:induction false} NextDigits(n: nat, p: nat)
    requires p > 0
    ensures n / p == 4 * (n / (4 * p)) + n / p % 4
  {
    var q := n / p;
    var a, b := q / 4, q % 4;
    var r := n - q * p;
    assert 0 <= r < p;
    assert n == a * (4 * p) + (b * p + r);
    assert 0 <= b * p + r < 4 * p by {
      assert b * p <= 3 * p;
    }
    QuotientIs(n, 4 * p, a, b * p + r);
  }

  // One digit of the root: the remainder invariant survives either outcome of the trial.
  lemma {:induction false} DigitStep(m: nat, r: nat, digit: nat)
    requires r * r <= m && m - r * r <= 2 * r && digit < 4
    ensures var rem := 4 * (m - r * r) + digit;
            var trial := 4 * r + 1;
            if rem >= trial
            then rem - trial == (4 * m + digit) - (2 * r + 1) * (2 * r + 1) && rem - trial <= 2 * (2 * r + 1)
            else rem == (4 * m + digit) - (2 * r) * (2 * r) && rem <= 2 * (2 * r)
  {
    assert (2 * r + 1) * (2 * r + 1) == 4 * (r * r) + 4 * r + 1;
    assert (2 * r) * (2 * r) == 4 * (r * r);
  }

  // A root of a number below 4^k has at most k bits.
  lemma {:induction false} RootBits(m: nat, r: nat, b: nat)
    requires r * r <= m < b * b
    ensures r < b
  {
    if r >= b { SquareLe(b, r); }
  }

  lemma {:induction false} PowSquares(i: nat)
    ensures Pow4(i) == Pow2(i) * Pow2(i)
  {
    if i > 0 {
      PowSquares(i - 1);
      assert Pow2(i) * Pow2(i) == 4 * (Pow2(i - 1) * Pow2(i - 1));
    }
  }

  lemma {:induction false} PrefixBound(n: U32, i: nat)
    requires i <= 16
    ensures n / Pow4(i) < Pow2(16 - i) * Pow2(16 - i)
  {
    PowSplit(16 - i, i);
    PowSquares(16 - i);
    PowSquares(16);
    Pow2At16();
    QuotientBelow(n, Pow4(i), Pow4(16 - i));
  }

  lemma Pow2At16()
    ensures Pow2(16) == 0x1_0000 && Pow2(15) == 0x8000
  {
    assert Pow2(4) == 16;
    assert Pow2(8) == 256;
    assert Pow2(12) == 4096;
  }

  lemma {:induction false} PowSplit(a: nat, b: nat)
    ensures Pow4(a + b) == Pow4(a) * Pow4(b)
  {
    if a > 0 {
      PowSplit(a - 1, b);
      assert Pow4(a + b) == 4 * (Pow4(a - 1) * Pow4(b));
    }
  }

  lemma {:induction false} Pow2Halves(k: nat)
    requires k < 16
    ensures Pow2(k + 1) == 2 * Pow2(k) && Pow2(k) <= 0x8000
    decreases 16 - k
  {
    if k < 15 {
      Pow2Halves(k + 1);
    } else {
      Pow2At16();
    }
  }

  // The state after the bits of n from position 2i upward have been consumed.
  predicate RootState(n: U32, i: nat, result: nat, rem: nat) {
    i <= 16 && result < Pow2(16 - i) && result * result <= n / Pow4(i) &&
    rem == n / Pow4(i) - result * result && rem <= 2 * result
  }

  // One round, in exact arithmetic, and the widths it needs.
  lemma {:induction false} RootRound(n: U32, i: nat, result: nat, rem: nat)
    requires i > 0 && RootState(n, i, result, rem)
    ensures var digit := n / Pow4(i - 1) % 4;
            var rem' := 4 * rem + digit;
            var trial := 4 * result + 1;
            result < 0x8000 && rem < 0x1_0000 &&
            (rem' >= trial ==> RootState(n, i - 1, 2 * result + 1, rem' - trial)) &&
            (rem' < trial ==> RootState(n, i - 1, 2 * result, rem'))
  {
    var digit := n / Pow4(i - 1) % 4;
    var m := n / Pow4(i);
    NextDigits(n, Pow4(i - 1));
    DigitStep(m, result, digit);
    PrefixBound(n, i - 1);
    Pow2Halves(16 - i);
    var r := if 4 * rem + digit >= 4 * result + 1 then 2 * result + 1 else 2 * result;
    RootBits(n / Pow4(i - 1), r, Pow2(16 - (i - 1)));
  }

  lemma RootStateEnds(n: U32, result: nat, rem: nat)
    requires RootState(n, 0, result, rem)
    ensures IsRoot(result, n) && result == Root(n)
  {
    assert Pow4(0) == 1 && n / 1 == n;
    assert (result + 1) * (result + 1) == result * result + 2 * result + 1;
    RootUnique(result, Root(n), n);
  }

  lemma RootStateStarts(n: U32, i: nat)
    requires i == 16
    ensures RootState(n, i, 0, 0)
  {
    TopPrefix(n, i);
    assert Pow2(0) == 1;
  }

  lemma TopPrefix(n: U32, i: nat)
    requires i == 16
    ensures n / Pow4(i) == 0
  {
    PowSquares(i);
    Pow2At16();
    QuotientIs(n, Pow4(i), 0, n);
  }

  // One round as the registers do it: the values shifted left wrap at 32 and 16 bits.
  function RoundRem(rem: nat, digit: nat): nat { rem * 4 % 0x1_0000_0000 + digit }
  function RoundTrial(result: nat): nat { result * 4 % 0x1_0000_0000 + 1 }
  function RoundShift(result: nat): nat { result * 2 % 0x1_0000 }

  lemma RegistersWideEnough(result: nat, rem: nat, digit: nat)
    requires result < 0x8000 && rem < 0x1_0000
    ensures RoundRem(rem, digit) == 4 * rem + digit && RoundTrial(result) == 4 * result + 1
    ensures RoundShift(result) == 2 * result
  {}

  // The loop body for digit position i - 1.
  method Round(n: U32, i: nat, result: nat, rem: nat) returns (result': nat, rem': nat)
    requires i > 0 && RootState(n, i, result, rem)
    ensures RootState(n, i - 1, result', rem')
  {
    RootRound(n, i, result, rem);
    var digit := n / Pow4(i - 1) % 4;
    RegistersWideEnough(result, rem, digit);
    rem' := RoundRem(rem, digit);
    var trial := RoundTrial(result);
    if rem' >= trial {
      rem' := rem' - trial;
      result' := RoundShift(result) + 1;
    } else {
      result' := RoundShift(result);
    }
  }

  method IsqrtHw(n: U32) returns (result: U16)
    ensures IsRoot(result, n)
    ensures result == Root(n)
  {
    var r, rem := 0, 0;
    var i := 16;
    RootStateStarts(n, i);
    while i > 0
      invariant 0 <= i <= 16 && r >= 0 && rem >= 0
      invariant RootState(n, i, r, rem)
    {
      r, rem := Round(n, i, r, rem);
      i := i - 1;
    }
    RootStateEnds(n, r, rem);
    RootFits(n, r);
    result := r;
  }

  lemma RootFits(n: U32, r: nat)
    requires IsRoot(r, n)
    ensures r < 0x1_0000
  {
    RootBits(n, r, 0x1_0000);
  }
}
