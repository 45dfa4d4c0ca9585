/** Division and multiplication facts used by the number models. */
module Arith {
  function Abs(x: int): nat {
    if x < 0 then -x else x
  }

  lemma AbsProduct(a: int, b: int)
    ensures Abs(a * b) == Abs(a) * Abs(b)
  {
  }

  /** big.Int.Quo: division truncated toward zero. */
  function Quo(a: int, b: int): int
    requires b != 0
  {
    if a >= 0 then
      if b > 0 then a / b else -(a / -b)
    else
      if b > 0 then -(-a / b) else -a / -b
  }

  lemma MulMono(k: int, a: int, b: int)
    requires k >= 0 && a <= b
    ensures k * a <= k * b
  {
    var d := b - a;
    assert k * b == k * a + k * d;
    assert k * d >= 0;
  }

  /** A multiple of k strictly between -k and k is zero. */
  lemma MulSmall(k: int, d: int)
    requires k > 0
    ensures d >= 1 ==> k * d >= k
    ensures d <= -1 ==> k * d <= -k
  {
    if d >= 1 {
      MulMono(k, 1, d);
    } else {
      MulMono(k, d, -1 + (if d > -1 then d + 1 else 0));
    }
  }

  /** Quotient and remainder are determined by their equation. */
  lemma DivModUnique(x: int, k: int, q: int, r: int)
    requires k > 0 && 0 <= r < k && x == k * q + r
    ensures x / k == q && x % k == r
  {
    var d := q - x / k;
    assert x == k * (x / k) + x % k;
    assert k * d == k * q - k * (x / k);
    MulSmall(k, d);
  }

  lemma DivModFacts(x: int, k: int)
    requires k > 0
    ensures x == k * (x / k) + x % k && 0 <= x % k < k
  {
  }

  /** The quotient is the largest multiplier that fits. */
  lemma DivAtLeast(x: int, k: int, q: int)
    requires k > 0
    ensures q <= x / k <==> k * q <= x
  {
    DivModFacts(x, k);
    var d := x / k - q;
    assert k * d == k * (x / k) - k * q;
    MulSmall(k, d);
  }
}
