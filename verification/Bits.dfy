/** Powers of two, bit lengths and masks on unbounded naturals. */
module Bits {

  function Pow2(n: nat): (r: nat)
    ensures r > 0
  {
    if n == 0 then 1 else 2 * Pow2(n - 1)
  }

  lemma {:induction false} Pow2Monotone(m: nat, n: nat)
    requires m <= n
    ensures Pow2(m) <= Pow2(n)
    ensures m < n ==> 2 * Pow2(m) <= Pow2(n)
  {
    if m < n { Pow2Monotone(m, n - 1); }
  }

  /** Number of significant bits of a word: 32 minus the count of leading zeros, and 0 for 0. */
  function CalcBits(n: nat): (r: nat)
    ensures n < Pow2(r)
    ensures n > 0 ==> r > 0 && Pow2(r - 1) <= n
  {
    if n == 0 then 0 else 1 + CalcBits(n / 2)
  }

  /** Bitwise conjunction, written out on the binary digits. */
  function BitAnd(a: nat, b: nat): nat {
    if a == 0 || b == 0 then 0 else (if a % 2 == 1 && b % 2 == 1 then 1 else 0) + 2 * BitAnd(a / 2, b / 2)
  }

  /** Masking with 2^k - 1 is the identity below 2^k and wraps 2^k to 0. */
  lemma {:induction false} MaskWraps(x: nat, k: nat)
    requires x <= Pow2(k)
    ensures BitAnd(x, Pow2(k) - 1) == if x == Pow2(k) then 0 else x
  {
    if k > 0 && x > 0 {
      var p, m := Pow2(k - 1), Pow2(k) - 1;
      assert m / 2 == p - 1 && m % 2 == 1;
      assert BitAnd(x, m) == x % 2 + 2 * BitAnd(x / 2, p - 1);
      MaskWraps(x / 2, k - 1);
    }
  }

  /** Clearing the lowest set bit leaves nothing exactly for the powers of two. */
  lemma {:induction false} PowerOfTwoTest(c: nat)
    requires c > 0
    ensures BitAnd(c, c - 1) == 0 <==> c == Pow2(CalcBits(c - 1))
  {
    if c % 2 == 0 {
      assert (c - 1) / 2 == c / 2 - 1;
      PowerOfTwoTest(c / 2);
    } else if c > 1 {
      BitAndSelf(c / 2);
      assert CalcBits(c - 1) > 0;
    }
  }

  lemma {:induction false} BitAndSelf(n: nat)
    ensures BitAnd(n, n) == n
  {
    if n > 0 { BitAndSelf(n / 2); }
  }

  lemma {:induction false} CalcBitsOfPow2(n: nat)
    ensures CalcBits(Pow2(n)) == n + 1
  {
    if n > 0 { CalcBitsOfPow2(n - 1); }
  }

  function Shr(x: nat, n: nat): nat {
    if n == 0 then x else Shr(x / 2, n - 1)
  }

  /** A right shift by n brings a value below 2^(k+n) under 2^k. */
  lemma {:induction false} ShrBound(x: nat, n: nat, k: nat)
    requires x < Pow2(k + n)
    ensures Shr(x, n) < Pow2(k)
  {
    if n > 0 { ShrBound(x / 2, n - 1, k); }
  }

  function BitXor(a: nat, b: nat): nat {
    if a == 0 then b else if b == 0 then a else (if a % 2 != b % 2 then 1 else 0) + 2 * BitXor(a / 2, b / 2)
  }
}
