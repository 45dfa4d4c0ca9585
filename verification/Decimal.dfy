/** types/decimal.go: fixed-point numbers with 18 decimal places. A number is modelled by its scaled
    integer, the d.i of the source. */
module Decimal {
  import opened Basics
  import opened Arith

  const PRECISION := 18

  /** 10^18, the scaled 1. */
  const ONE: int := 1_000_000_000_000_000_000

  /** The smallest magnitude of more than 255 + 60 bits, 2^315. */
  function Bound(): (b: int)
    ensures b > ONE * ONE
  {
    0x8_000000_000000_000000_000000_000000_000000_000000_000000_000000_000000_000000_000000_000000
  }

  predicate Fits(x: int) {
    -Bound() < x < Bound()
  }

  function Checked(x: int): Result<int> {
    if Fits(x) then Ok(x) else Panic
  }

  // Rounding

  /** q is the multiple of 10^18 nearest to x, and the even one of two equally near. */
  ghost predicate IsHalfEven(x: int, q: int) {
    && 2 * Abs(x - q * ONE) <= ONE
    && (2 * Abs(x - q * ONE) == ONE ==> q % 2 == 0)
  }

  /** q is the smallest multiple of 10^18 that is not below x. */
  ghost predicate IsCeiling(x: int, q: int) {
    q * ONE - ONE < x <= q * ONE
  }

  /** q is x / 10^18 without the fraction. */
  ghost predicate IsTruncation(x: int, q: int) {
    if x >= 0 then q * ONE <= x < q * ONE + ONE else q * ONE - ONE < x <= q * ONE
  }

  function Round(x: int): int
    decreases x < 0
  {
    if x < 0 then
      -Round(-x)
    else
      var quo, rem := x / ONE, x % ONE;
      if rem == 0 then quo
      else if rem < ONE / 2 then quo
      else if rem > ONE / 2 then quo + 1
      else if quo % 2 == 0 then quo
      else quo + 1
  }

  function RoundUp(x: int): int {
    if x < 0 then -Truncate(-x)
    else if x % ONE == 0 then x / ONE
    else x / ONE + 1
  }

  function Truncate(x: int): int {
    Quo(x, ONE)
  }

  lemma RoundIsHalfEven(x: int)
    ensures IsHalfEven(x, Round(x))
    decreases x < 0
  {
    if x < 0 {
      RoundIsHalfEven(-x);
    }
  }

  lemma HalfEvenUnique(x: int, q: int, r: int)
    requires IsHalfEven(x, q) && IsHalfEven(x, r)
    ensures q == r
  {
  }

  lemma RoundOdd(x: int)
    ensures Round(-x) == -Round(x)
  {
  }

  lemma RoundMonotone(x: int, y: int)
    requires x <= y
    ensures Round(x) <= Round(y)
  {
    RoundIsHalfEven(x);
    RoundIsHalfEven(y);
  }

  lemma TruncateIsTruncation(x: int)
    ensures IsTruncation(x, Truncate(x))
  {
  }

  /** A big.Int, which the chop functions change in place. */
  class BigInt {
    var value: int

    constructor (value: int)
      ensures this.value == value
    {
      this.value := value;
    }

    method Neg()
      modifies this
      ensures value == -old(value)
    {
      value := -value;
    }

    method ChopPrecisionAndRound()
      modifies this
      ensures value == Round(old(value)) && IsHalfEven(old(value), value)
      decreases value < 0
    {
      RoundIsHalfEven(value);
      hide IsHalfEven;
      if value < 0 {
        Neg();
        ChopPrecisionAndRound();
        Neg();
        return;
      }
      var rem := value % ONE;
      value := value / ONE;
      if rem == 0 {
        return;
      }
      if rem < ONE / 2 {
        return;
      } else if rem > ONE / 2 {
        value := value + 1;
      } else if value % 2 != 0 {
        value := value + 1;
      }
    }

    method ChopPrecisionAndTruncate()
      modifies this
      ensures value == Truncate(old(value)) && IsTruncation(old(value), value)
    {
      value := Quo(value, ONE);
    }

    method ChopPrecisionAndRoundUp()
      modifies this
      ensures value == RoundUp(old(value)) && IsCeiling(old(value), value)
    {
      if value < 0 {
        Neg();
        ChopPrecisionAndTruncate();
        Neg();
        return;
      }
      var rem := value % ONE;
      value := value / ONE;
      if rem != 0 {
        value := value + 1;
      }
    }
  }

  // Products

  function Mul(d: int, d2: int): Result<int> {
    Checked(Round(d * d2))
  }

  function MulTruncate(d: int, d2: int): Result<int> {
    Checked(Truncate(d * d2))
  }

  /** The product is the exact one rounded half to even, and panics exactly if that does not fit. */
  lemma MulIsNearest(d: int, d2: int, r: int)
    ensures IsHalfEven(d * d2, r) ==> Mul(d, d2) == Checked(r)
    ensures Mul(d, d2).Ok? ==> IsHalfEven(d * d2, Mul(d, d2).value)
  {
    hide Fits;
    RoundIsHalfEven(d * d2);
    if IsHalfEven(d * d2, r) {
      HalfEvenUnique(d * d2, r, Round(d * d2));
    }
  }

  /** The truncated product is the exact one without its last 18 digits. */
  lemma MulTruncateIsTruncation(d: int, d2: int)
    ensures MulTruncate(d, d2).Ok? ==> IsTruncation(d * d2, MulTruncate(d, d2).value)
    ensures MulTruncate(d, d2).Panic? <==> !Fits(Truncate(d * d2))
  {
    hide Fits;
    TruncateIsTruncation(d * d2);
  }

  lemma FitsSign(x: int)
    ensures Fits(-x) <==> Fits(x)
  {
  }

  lemma MulSigns(d: int, d2: int)
    ensures Mul(-d, d2) == Mul(d, -d2)
    ensures Mul(d, d2) == Panic <==> Mul(-d, d2) == Panic
    ensures Mul(d, d2).Ok? ==> Mul(-d, d2) == Ok(-Mul(d, d2).value)
  {
    hide Fits;
    assert (-d) * d2 == d * (-d2) == -(d * d2);
    RoundOdd(d * d2);
    FitsSign(Round(d * d2));
  }

  lemma MulMonotone(d: int, e: int, d2: int)
    requires d <= e && d2 >= 0 && Mul(d, d2).Ok? && Mul(e, d2).Ok?
    ensures Mul(d, d2).value <= Mul(e, d2).value
  {
    hide Fits;
    MulMono(d2, d, e);
    RoundMonotone(d * d2, e * d2);
  }

  /** Whole numbers multiply exactly. */
  lemma MulWhole(a: int, b: int)
    ensures Mul(a * ONE, b * ONE) == Checked(a * b * ONE)
  {
    hide Fits;
    assert (a * ONE) * (b * ONE) == (a * b * ONE) * ONE;
    MulIsNearest(a * ONE, b * ONE, a * b * ONE);
  }

  // Quotients

  /** The truncated quotient with 18 digits more than the result keeps. */
  function LongQuo(d: int, d2: int): int
    requires d2 != 0
  {
    Quo(d * ONE * ONE, d2)
  }

  function QuoRound(d: int, d2: int): Result<int> {
    if d2 == 0 then Panic else Checked(Round(LongQuo(d, d2)))
  }

  function QuoTruncate(d: int, d2: int): Result<int> {
    if d2 == 0 then Panic else Checked(Truncate(LongQuo(d, d2)))
  }

  function QuoRoundUp(d: int, d2: int): Result<int> {
    if d2 == 0 then Panic else Checked(RoundUp(LongQuo(d, d2)))
  }

  lemma NestedDivision(x: nat, b: int)
    requires b > 0
    ensures x * ONE / b / ONE == x / b
  {
    var q := x * ONE / b;
    var m := q / ONE;
    DivModFacts(x * ONE, b);
    MulMono(b, m * ONE, q);
    MulMono(b, q + 1, (m + 1) * ONE);
    assert b * (m * ONE) == (b * m) * ONE && b * ((m + 1) * ONE) == (b * m + b) * ONE;
    assert b * (q + 1) == b * q + b;
    DivModUnique(x, b, m, x - b * m);
  }

  /** The magnitude of the long quotient. */
  function Magnitude(d: int, d2: int): (q: int)
    requires d2 != 0
    ensures q >= 0
  {
    DivAtLeast(Abs(d) * ONE * ONE, Abs(d2), 0);
    Abs(d) * ONE * ONE / Abs(d2)
  }

  predicate SameSign(d: int, d2: int) {
    d < 0 <==> d2 < 0
  }

  lemma LongQuoSign(d: int, d2: int)
    requires d2 != 0
    ensures LongQuo(d, d2) == if SameSign(d, d2) then Magnitude(d, d2) else -Magnitude(d, d2)
  {
  }

  /** Dividing twice loses nothing: the truncated quotient is that of the exact ratio. */
  lemma QuoTruncateExact(d: int, d2: int)
    requires d2 != 0
    ensures QuoTruncate(d, d2) == Checked(Quo(d * ONE, d2))
  {
    hide Fits;
    LongQuoSign(d, d2);
    hide LongQuo;
    var n, q := Abs(d) * ONE, Magnitude(d, d2);
    NestedDivision(n, Abs(d2));
    assert Truncate(LongQuo(d, d2)) == if SameSign(d, d2) then q / ONE else -(q / ONE);
    assert Quo(d * ONE, d2) == if SameSign(d, d2) then n / Abs(d2) else -(n / Abs(d2));
  }

  /** A truncated quotient is short of the exact ratio by less than one, and never past it. */
  lemma QuoClose(a: int, b: int)
    requires b != 0
    ensures Abs(a - Quo(a, b) * b) < Abs(b) && Abs(Quo(a, b) * b) <= Abs(a)
  {
    var m := Abs(b);
    var q := Abs(a) / m;
    QuoProduct(a, b);
    DivModFacts(Abs(a), m);
    DivAtLeast(Abs(a), m, 0);
    MulMono(m, 0, q);
    ShortBy(a, m * q, Quo(a, b) * b, m);
  }

  lemma ShortBy(a: int, p: int, x: int, m: int)
    requires 0 <= p <= Abs(a) < p + m && x == if a >= 0 then p else -p
    ensures Abs(a - x) < m && Abs(x) <= Abs(a)
  {
  }

  lemma QuoProduct(a: int, b: int)
    requires b != 0
    ensures Quo(a, b) * b == if a >= 0 then Abs(b) * (Abs(a) / Abs(b)) else -(Abs(b) * (Abs(a) / Abs(b)))
  {
    var m, q := Abs(b), Abs(a) / Abs(b);
    assert Quo(a, b) == if SameSign(a, b) then q else -q;
    hide Quo;
    assert q * b == b * q && -q * b == -(b * q) && m * q == if b < 0 then -(b * q) else b * q;
  }

  lemma Distribute(r: int, q: int, d2: int)
    ensures (r * ONE - q) * d2 == r * d2 * ONE - q * d2
  {
  }

  /** The rounded quotient is the long one rounded half to even, and panics exactly if that does not fit. */
  lemma QuoIsNearest(d: int, d2: int, r: int)
    requires d2 != 0
    ensures IsHalfEven(Quo(d * ONE * ONE, d2), r) ==> QuoRound(d, d2) == Checked(r)
    ensures QuoRound(d, d2).Ok? ==> IsHalfEven(Quo(d * ONE * ONE, d2), QuoRound(d, d2).value)
  {
    hide Fits, Quo;
    var q := Quo(d * ONE * ONE, d2);
    RoundIsHalfEven(q);
    if IsHalfEven(q, r) {
      HalfEvenUnique(q, r, Round(q));
    }
  }

  lemma RoundUpIsCeiling(x: int, r: int)
    ensures IsCeiling(x, RoundUp(x)) && (IsCeiling(x, r) ==> r == RoundUp(x))
  {
  }

  /** The quotient rounded up is the ceiling of the long one, and panics exactly if that does not fit. */
  lemma QuoUpIsCeiling(d: int, d2: int, r: int)
    requires d2 != 0
    ensures IsCeiling(Quo(d * ONE * ONE, d2), r) ==> QuoRoundUp(d, d2) == Checked(r)
    ensures QuoRoundUp(d, d2).Ok? ==> IsCeiling(Quo(d * ONE * ONE, d2), QuoRoundUp(d, d2).value)
  {
    hide Fits, Quo;
    RoundUpIsCeiling(Quo(d * ONE * ONE, d2), r);
  }

  /** Division by zero panics. */
  lemma NoQuotient(d: int)
    ensures QuoRound(d, 0) == QuoTruncate(d, 0) == QuoRoundUp(d, 0) == Panic
  {
  }

  /** The rounded quotient is within 1/2 + 10^-18 units in the last place of the exact ratio. */
  lemma QuoNearlyNearest(d: int, d2: int)
    requires QuoRound(d, d2).Ok?
    ensures 2 * ONE * Abs(QuoRound(d, d2).value * d2 - d * ONE) <= (ONE + 2) * Abs(d2)
  {
    hide Fits;
    var q, r := LongQuo(d, d2), QuoRound(d, d2).value;
    RoundIsHalfEven(q);
    ProductBound(r * ONE - q, d2);
    Distribute(r, q, d2);
    QuoClose(d * ONE * ONE, d2);
    TwoErrors(d * ONE, r * d2, q * d2, Abs(d2));
  }

  lemma TwoErrors(n: int, x: int, y: int, m: int)
    requires 2 * Abs(x * ONE - y) <= ONE * m && Abs(n * ONE - y) < m
    ensures 2 * ONE * Abs(x - n) <= (ONE + 2) * m
  {
  }

  lemma ProductBound(e: int, d2: int)
    requires 2 * Abs(e) <= ONE
    ensures 2 * Abs(e * d2) <= ONE * Abs(d2)
  {
    MulMono(Abs(d2), 2 * Abs(e), ONE);
    assert Abs(e * d2) == Abs(e) * Abs(d2);
  }

  /** The three quotients differ by at most one unit, in this order. */
  lemma QuoOrder(d: int, d2: int)
    requires d2 != 0 && (SameSign(d, d2) || d == 0)
    requires QuoTruncate(d, d2).Ok? && QuoRound(d, d2).Ok? && QuoRoundUp(d, d2).Ok?
    ensures QuoTruncate(d, d2).value <= QuoRound(d, d2).value <= QuoRoundUp(d, d2).value <= QuoTruncate(d, d2).value + 1
  {
    hide Fits;
    LongQuoSign(d, d2);
    hide LongQuo;
  }

  /** c is the ceiling of the exact ratio n / m. */
  ghost predicate IsCeilingOf(n: int, m: int, c: int)
    requires m != 0
  {
    if m > 0 then (c - 1) * m < n <= c * m else (c - 1) * -m < -n <= c * -m
  }

  /** QuoRoundUp rounds up to the ceiling of the exact ratio exactly if the long quotient is negative, is
      itself exact, or does not end in 18 zeros. */
  ghost predicate RoundsUpExactly(d: int, d2: int)
    requires d2 != 0
  {
    || !SameSign(d, d2)
    || Abs(d) * ONE * ONE % Abs(d2) == 0
    || Abs(d) * ONE * ONE / Abs(d2) % ONE != 0
  }

  /** Ceilings compared through n * 10^18 == whole * 10^18 + part + r, where part is a multiple of m. */
  lemma CeilingCases(n: int, m: int, whole: int, part: int, r: int)
    requires m > 0 && 0 <= r < m && n * ONE == whole * ONE + part + r
    ensures part == 0 ==> (whole - m < n <= whole <==> r == 0)
    ensures m <= part <= m * (ONE - 1) ==> whole < n <= whole + m
  {
  }

  lemma RoundUpNonNegative(n: int, m: int)
    requires n >= 0 && m > 0
    ensures IsCeilingOf(n, m, RoundUp(n * ONE / m)) <==>
              n * ONE % m == 0 || n * ONE / m % ONE != 0
  {
    var q, r := n * ONE / m, n * ONE % m;
    DivModFacts(n * ONE, m);
    DivAtLeast(n * ONE, m, 0);
    CeilingOfMultiple(n, m, q, r);
  }

  lemma CeilingOfMultiple(n: int, m: int, q: int, r: int)
    requires m > 0 && q >= 0 && 0 <= r < m && n * ONE == m * q + r
    ensures IsCeilingOf(n, m, RoundUp(q)) <==> r == 0 || q % ONE != 0
  {
    var f, g := q / ONE, q % ONE;
    var whole, part := m * f, m * g;
    assert m * q == whole * ONE + part by {
      assert q == f * ONE + g;
      assert m * (f * ONE) == whole * ONE;
    }
    MulMono(m, 0, g);
    MulMono(m, g, ONE - 1);
    if g > 0 {
      MulMono(m, 1, g);
    }
    CeilingCases(n, m, whole, part, r);
    assert (f - 1) * m == whole - m && f * m == whole && (f + 1) * m == whole + m;
  }

  lemma RoundUpNegative(d: int, d2: int)
    requires d2 != 0 && !SameSign(d, d2)
    ensures IsCeilingOf(d * ONE, d2, RoundUp(LongQuo(d, d2)))
  {
    LongQuoSign(d, d2);
    hide LongQuo;
    var n, m := Abs(d) * ONE, Abs(d2);
    var c := n / m;
    NestedDivision(n, m);
    DivAtLeast(n, m, 0);
    assert RoundUp(LongQuo(d, d2)) == -c;
    DivModFacts(n, m);
    assert -c * m == -(m * c) && (-c - 1) * m == -(m * c) - m;
  }

  lemma QuoRoundUpExact(d: int, d2: int)
    requires d2 != 0
    ensures QuoRoundUp(d, d2).Ok? ==>
              (IsCeilingOf(d * ONE, d2, QuoRoundUp(d, d2).value) <==> RoundsUpExactly(d, d2))
    ensures IsCeilingOf(d * ONE, d2, RoundUp(LongQuo(d, d2))) <==> RoundsUpExactly(d, d2)
  {
    hide Fits;
    if SameSign(d, d2) {
      LongQuoSign(d, d2);
      hide LongQuo, RoundUp;
      RoundUpNonNegative(Abs(d) * ONE, Abs(d2));
    } else {
      RoundUpNegative(d, d2);
    }
  }

  lemma NoRemainder(n: int, d2: int, q: int, r: int)
    requires 0 <= r < d2 <= ONE && n * ONE == d2 * q + r && q % ONE == 0
    ensures r == 0
  {
    var f := q / ONE;
    assert q == f * ONE;
    assert d2 * (f * ONE) == (d2 * f) * ONE;
    var t := n - d2 * f;
    assert r == t * ONE;
  }

  /** It does so for every divisor between 0 and 1. */
  lemma SmallDivisor(d: int, d2: int)
    requires 0 < d2 <= ONE
    ensures RoundsUpExactly(d, d2)
  {
    if d >= 0 {
      var n := d * ONE;
      var q, r := n * ONE / d2, n * ONE % d2;
      DivModFacts(n * ONE, d2);
      if q % ONE == 0 {
        NoRemainder(n, d2, q, r);
      }
    }
  }

  /** A divisor above 10^18 brings the smallest number to zero. */
  lemma NotTheCeiling()
    ensures QuoRoundUp(1, ONE * ONE + 1) == Ok(0)
    ensures !IsCeilingOf(1 * ONE, ONE * ONE + 1, 0)
  {
    DivModUnique(ONE * ONE, ONE * ONE + 1, 0, ONE * ONE);
  }

  function Ceil(d: int): int {
    var quo := Quo(d, ONE);
    if d - quo * ONE <= 0 then quo * ONE else (quo + 1) * ONE
  }

  /** The smallest whole number that is not below d. */
  lemma CeilIsSmallestWhole(d: int)
    ensures Ceil(d) % ONE == 0 && Ceil(d) - ONE < d <= Ceil(d)
  {
  }
}
