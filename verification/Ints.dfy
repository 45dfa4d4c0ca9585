/** types/int.go: integers of at most 255 bits. The width is a parameter. */
module Ints {
  import opened Basics
  import opened Arith
  import opened Varints

  /** big.Int's BitLen, of the magnitude. */
  function BitLength(x: int): nat {
    BitLen(Abs(x))
  }

  /** A number of n bits lies between the powers of two. */
  lemma {:induction false} BitLenBounds(x: nat)
    requires x > 0
    ensures BitLen(x) > 0 && Pow2(BitLen(x) - 1) <= x < Pow2(BitLen(x))
    decreases x
  {
    if x > 1 {
      BitLenBounds(x / 2);
    } else {
      assert Pow2(0) == 1;
    }
  }

  lemma {:induction false} Pow2Monotone(m: nat, n: nat)
    requires m <= n
    ensures Pow2(m) <= Pow2(n)
    decreases n
  {
    if m < n {
      Pow2Monotone(m, n - 1);
    }
  }

  lemma {:induction false} Pow2Add(m: nat, n: nat)
    ensures Pow2(m) * Pow2(n) == Pow2(m + n)
    decreases m
  {
    if m > 0 {
      Pow2Add(m - 1, n);
      assert 2 * Pow2(m - 1) * Pow2(n) == 2 * (Pow2(m - 1) * Pow2(n));
    }
  }

  /** The bit-length checks bound the magnitude by a power of two. */
  lemma BitLengthWithin(x: int, bits: nat)
    ensures BitLength(x) <= bits <==> Abs(x) < Pow2(bits)
  {
    if x != 0 {
      var n := BitLength(x);
      BitLenBounds(Abs(x));
      if n <= bits {
        Pow2Monotone(n, bits);
      } else {
        Pow2Monotone(bits, n - 1);
      }
    }
  }

  /** Int.Mul: a check of the factors' lengths, then one of the product's. */
  function Mul(a: int, b: int, bits: nat): Result<int> {
    if BitLength(a) + BitLength(b) - 1 > bits then Panic
    else if BitLength(a * b) > bits then Panic
    else Ok(a * b)
  }

  lemma ProductLength(a: nat, b: nat)
    requires a > 0 && b > 0
    ensures BitLen(a * b) >= BitLen(a) + BitLen(b) - 1
  {
    hide Pow2, BitLen;
    BitLenBounds(a);
    BitLenBounds(b);
    var p, q := BitLen(a) - 1, BitLen(b) - 1;
    Pow2Add(p, q);
    ProductsOrdered(Pow2(p), a, Pow2(q), b);
    LongerThan(a * b, p + q);
  }

  lemma ProductsOrdered(x: nat, a: nat, y: nat, b: nat)
    requires x <= a && y <= b
    ensures x * y <= a * b
  {
    MulMono(x, y, b);
    MulMono(b, x, a);
  }

  lemma LongerThan(x: nat, n: nat)
    requires x >= Pow2(n)
    ensures BitLen(x) >= n + 1
  {
    BitLenBounds(x);
    if BitLen(x) <= n {
      Pow2Monotone(BitLen(x), n);
    }
  }

  /** The early check on the factors never refuses a product that fits: Mul panics exactly if the product
      has too many bits. */
  lemma MulIsExact(a: int, b: int, bits: nat)
    requires BitLength(a) <= bits && BitLength(b) <= bits
    ensures Mul(a, b, bits) == if Abs(a * b) < Pow2(bits) then Ok(a * b) else Panic
  {
    BitLengthWithin(a * b, bits);
    hide Pow2;
    if a != 0 && b != 0 {
      ProductLength(Abs(a), Abs(b));
      AbsProduct(a, b);
    } else {
      assert a * b == 0 && BitLength(0) == 0;
    }
  }
}
