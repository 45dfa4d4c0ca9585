/** Square-and-multiply powers: Power of types/decimal.go and RelativePow of types/uint.go. */
module Powers {
  import opened Basics
  import opened Arith
  import opened Decimal
  import opened PowerErrors

  lemma {:induction false} PowSquare(m: int, n: nat)
    ensures Pow(m, 2 * n) == Pow(m * m, n)
  {
    if n > 0 {
      PowSquare(m, n - 1);
      assert Pow(m, 2 * n) == m * (m * Pow(m, 2 * n - 2)) == m * m * Pow(m, 2 * (n - 1));
    }
  }

  /** One halving of the exponent: an odd exponent moves a factor to t. */
  lemma Halve(t: int, m: int, i: nat)
    requires i > 0
    ensures i % 2 == 0 ==> t * Pow(m, i) == t * Pow(m * m, i / 2)
    ensures i % 2 == 1 ==> t * Pow(m, i) == t * m * Pow(m * m, (i - 1) / 2)
  {
    PowSquare(m, i / 2);
    if i % 2 == 1 {
      assert Pow(m, i) == m * Pow(m, i - 1);
      assert t * (m * Pow(m, i - 1)) == t * m * Pow(m, i - 1);
    }
  }

  /** A nonzero factor does not make a magnitude smaller. */
  lemma Grows(a: int, b: int)
    requires b != 0
    ensures Abs(a * b) >= Abs(a)
  {
    AbsProduct(a, b);
    MulMono(Abs(a), 1, Abs(b));
  }

  lemma {:induction false} PowNonzero(m: int, n: nat)
    requires m != 0
    ensures Pow(m, n) != 0
  {
    if n > 0 {
      PowNonzero(m, n - 1);
    }
  }

  lemma ZeroPow(n: nat)
    requires n > 0
    ensures Pow(0, n) == 0
  {
  }

  lemma Regroup(t: int, m: int, p: int)
    ensures t * (m * (m * p)) == t * m * (m * p)
    ensures t * (m * (m * p)) == m * m * (t * p)
  {
    assert t * (m * (m * p)) == t * m * (m * p);
    assert t * m * (m * p) == m * (t * (m * p));
    assert t * (m * p) == m * (t * p);
    assert m * (m * (t * p)) == m * m * (t * p);
  }

  /** What is multiplied on the way is not larger than the power itself. */
  lemma PartsAreSmaller(t: int, m: int, i: nat)
    requires i > 1 && (t == 0 ==> m == 0)
    ensures Abs(t * Pow(m, i)) >= Abs(t * m)
    ensures Abs(t * Pow(m, i)) >= Abs(m * m)
  {
    var p := Pow(m, i - 2);
    assert Pow(m, i - 1) == m * p && Pow(m, i) == m * (m * p);
    if m != 0 {
      PowNonzero(m, i - 1);
      PowNonzero(m, i - 2);
      hide Pow;
      Regroup(t, m, p);
      Grows(t * m, m * p);
      Grows(m * m, t * p);
    }
  }

  lemma LargerDoesNotFit(a: int, b: int)
    requires Abs(a) <= Abs(b) && !Fits(a * ONE)
    ensures !Fits(b * ONE)
  {
  }

  /** A product of numbers between zero and one that are close to powers. */
  lemma MulClose(d: int, x: int, y: int, a: nat, b: nat)
    requires 0 <= d <= ONE && b > 0 && Close(ONE, d, x, a) && Close(ONE, d, y, b)
    ensures Mul(x, y).Ok? && Close(ONE, d, Mul(x, y).value, a + b)
  {
    var z := Round(x * y);
    RoundIsHalfEven(x * y);
    assert Nearest(ONE, x, y, z);
    hide Near, Round;
    CloseProduct(ONE, d, x, y, z, a, b);
    assert Fits(z) by { assert ONE < Bound(); }
  }

  /** One round on exponents: what is left stays the same. */
  lemma ExponentStep(a: nat, s: nat, i: nat)
    ensures i % 2 == 0 ==> a + s * i == a + (s + s) * (i / 2)
    ensures i % 2 == 1 ==> a + s * i == a + s + (s + s) * ((i - 1) / 2)
  {
    var j := i / 2;
    assert (s + s) * j == s * (2 * j);
    if i % 2 == 1 {
      assert s * (2 * j + 1) == s * (2 * j) + s;
    }
  }

  /** Multiplying by one only checks the size. */
  lemma MulOne(d: int)
    ensures Mul(d, ONE) == Checked(d) && Mul(ONE, d) == Checked(d)
  {
    hide Fits;
    MulIsNearest(d, ONE, d);
    MulIsNearest(ONE, d, d);
  }

  lemma MulFits(d: int, v: int)
    requires Mul(d, d) == Ok(v)
    ensures Checked(v) == Ok(v)
  {
  }

  /** Dec.Power. On whole numbers it is exact, and it panics exactly if the power itself does not fit. Up to the
      second power it is the number, or its rounded square. For numbers from zero to one it never panics and is
      within (power - 1) / 2 units in the last place of the exact power. */
  method Power(d: int, power: nat) returns (r: Result<int>)
    ensures d % ONE == 0 ==> r == Checked(Pow(d / ONE, power) * ONE)
    ensures power == 0 ==> r == Ok(ONE)
    ensures power == 1 ==> r == Checked(d)
    ensures power == 2 ==> r == Mul(d, d)
    ensures 0 <= d <= ONE && power >= 1 ==> r.Ok? && 0 <= r.value <= ONE && Near(ONE, d, r.value, power)
  {
    hide Checked, Fits, Mul, Pow, Near;
    if power == 0 {
      assert Pow(d / ONE, power) == 1 && Checked(1 * ONE) == Ok(ONE) by { PowZero(d / ONE); }
      return Ok(ONE);
    }
    ghost var k := d / ONE;
    ghost var t, m := 1, k;
    var square, tmp, i := d, ONE, power;
    ghost var small := 0 <= d <= ONE;
    ghost var a: nat, s: nat := 0, 1;
    if small {
      CloseStart(ONE, d);
    }
    while i > 1
      invariant i >= 1
      invariant d % ONE == 0 ==> tmp == t * ONE && square == m * ONE && t * Pow(m, i) == Pow(k, power)
      invariant t == 0 ==> m == 0
      invariant small ==> Close(ONE, d, tmp, a) && Close(ONE, d, square, s) && s > 0 && a + s * i == power
      invariant power <= 2 ==> tmp == ONE && if i == power then square == d else Mul(d, d) == Ok(square)
      invariant i <= power
    {
      Halve(t, m, i);
      PartsAreSmaller(t, m, i);
      MulWhole(m, m);
      MulWhole(t, m);
      ExponentStep(a, s, i);
      if small {
        MulClose(d, tmp, square, a, s);
        MulClose(d, square, square, s, s);
      }
      if i % 2 == 0 {
        i := i / 2;
      } else {
        var product := Mul(tmp, square);
        if product.Panic? {
          PanicMeansTooLarge(t * m, Pow(k, power), d);
          return Panic;
        }
        WholeValue(t * m);
        tmp := product.value;
        i := (i - 1) / 2;
        t := t * m;
        a := a + s;
      }
      var next := Mul(square, square);
      if next.Panic? {
        PanicMeansTooLarge(m * m, Pow(k, power), d);
        return Panic;
      }
      WholeValue(m * m);
      square := next.value;
      m := m * m;
      s := s + s;
    }
    r := Mul(square, tmp);
    MulWhole(m, t);
    assert Pow(m, 1) == m by { PowOne(m); }
    LastProduct(d, power, square, tmp, a, s);
  }

  lemma LastProduct(d: int, power: nat, square: int, tmp: int, a: nat, s: nat)
    requires 0 <= d <= ONE ==> Close(ONE, d, tmp, a) && Close(ONE, d, square, s) && s > 0 && a + s * 1 == power
    ensures 0 <= d <= ONE ==> Mul(square, tmp).Ok? && Close(ONE, d, Mul(square, tmp).value, power)
    ensures tmp == ONE ==> Mul(square, tmp) == Checked(square)
    ensures Mul(d, d) == Ok(square) ==> Checked(square) == Ok(square)
  {
    hide Checked, Fits, Mul, Pow, Near, Close;
    assert Mul(square, tmp) == Mul(tmp, square) by { MulCommutes(square, tmp); }
    if 0 <= d <= ONE {
      MulClose(d, tmp, square, a, s);
    }
    if tmp == ONE {
      MulOne(square);
    }
    if Mul(d, d) == Ok(square) {
      MulFits(d, square);
    }
  }

  lemma MulCommutes(x: int, y: int)
    ensures Mul(x, y) == Mul(y, x)
  {
    assert x * y == y * x;
  }

  lemma PowZero(m: int)
    ensures Pow(m, 0) == 1 && Checked(1 * ONE) == Ok(ONE)
  {
  }

  lemma PowOne(m: int)
    ensures Pow(m, 1) == m
  {
    assert Pow(m, 0) == 1;
  }

  lemma WholeValue(a: int)
    ensures Checked(a * ONE).Ok? ==> Checked(a * ONE).value == a * ONE
  {
  }

  lemma PanicMeansTooLarge(a: int, b: int, d: int)
    requires d % ONE == 0 ==> Checked(a * ONE).Panic? && Abs(a) <= Abs(b)
    ensures d % ONE == 0 ==> Checked(b * ONE).Panic?
  {
    if d % ONE == 0 {
      LargerDoesNotFit(a, b);
    }
  }

  // RelativePow

  /** 2^256: a Uint has at most 256 bits. */
  function UintBound(): (bound: int)
    ensures bound > 0
  {
    0x1_00000000_00000000_00000000_00000000_00000000_00000000_00000000_00000000
  }

  /** A product of two numbers scaled by b, rounded half up to the scale. Each operation is checked. */
  function ScaledMul(x: nat, y: nat, b: nat, bound: int): Result<nat> {
    Nonnegative(x, y);
    if x * y >= bound || x * y + b / 2 >= bound || b == 0 then Panic
    else
      var q := (x * y + b / 2) / b;
      if q < bound then Ok(q) else Panic
  }

  lemma Nonnegative(x: int, y: int)
    requires x >= 0 && y >= 0
    ensures x * y >= 0
  {
  }

  /** Multiples of the scale multiply exactly. */
  lemma ScaledWhole(s: nat, t: nat, b: nat, bound: int)
    requires b > 0 && s * b >= 0 && t * b >= 0 && ScaledMul(s * b, t * b, b, bound).Ok?
    ensures ScaledMul(s * b, t * b, b, bound).value == s * t * b
  {
    SquareScale(s, t, b);
    Nonnegative(s, t);
    Nonnegative(s * t, b);
    RoundedBack(s * t * b, b);
  }

  lemma SquareScale(s: int, t: int, b: int)
    ensures (s * b) * (t * b) == s * t * (b * b)
    ensures (s * b) * (t * b) == b * (s * t * b)
  {
  }

  lemma RoundedBack(x: int, b: int)
    requires b > 0 && x >= 0
    ensures (b * x + b / 2) / b == x && b * x >= x
  {
    DivModUnique(b * x + b / 2, b, x, b / 2);
    MulMono(x, 1, b);
  }

  lemma ScaledBound(u: int, b: int, power: int)
    requires u <= power
    ensures u * (b * b) <= power * b * b
  {
    MulMono(b * b, u, power);
    assert power * b * b == power * (b * b);
  }

  /** The product fits if the scale squared, times a bound on it, does. */
  lemma ScaledFits(s: nat, t: nat, b: nat, power: int, bound: int)
    requires b > 0 && s * b >= 0 && t * b >= 0
    requires s * t <= power && power * b * b + b / 2 < bound
    ensures ScaledMul(s * b, t * b, b, bound).Ok?
  {
    SquareScale(s, t, b);
    ScaledBound(s * t, b, power);
    Nonnegative(s, t);
    Nonnegative(s * t, b);
    RoundedBack(s * t * b, b);
  }

  /** The last product is the power itself: it fits only if the scale squared, times the power, does. */
  lemma LastFits(s: nat, t: nat, b: nat, bound: int)
    requires s * b >= 0 && t * b >= 0 && ScaledMul(s * b, t * b, b, bound).Ok?
    ensures s * t * b * b + b / 2 < bound
  {
    SquareScale(s, t, b);
    assert s * t * b * b == s * t * (b * b);
  }

  /** What RelativePow multiplies on the way is not larger than the power. */
  lemma FactorsOfPower(t: int, m: int, i: nat)
    requires i > 0 && t > 0 && m > 0
    ensures 0 < m * m <= t * Pow(m * m, i) && 0 < t * (m * m) <= t * Pow(m * m, i)
  {
    var s, p := m * m, Pow(m * m, i - 1);
    assert s > 0;
    PowPositive(s, i - 1);
    assert Pow(s, i) == s * p;
    hide Pow;
    Factors(t, s, p);
  }

  lemma Factors(t: int, s: int, p: int)
    requires t > 0 && s > 0 && p > 0
    ensures 0 < s <= t * s <= t * (s * p)
  {
    MulMono(s, 1, t);
    MulMono(t * s, 1, p);
    assert t * s * p == t * (s * p);
  }

  lemma {:induction false} PowPositive(m: int, n: nat)
    requires m > 0
    ensures Pow(m, n) > 0
  {
    if n > 0 {
      PowPositive(m, n - 1);
    }
  }

  /** The loop state on multiples of the scale: what is left to multiply makes up the power. */
  ghost predicate Raising(b: nat, power: int, z: nat, x: nat, t: int, m: int, i: nat) {
    z == t * b && x == m * b && t > 0 && m > 0 && t * Pow(m * m, i) == power
  }

  /** One round: the square, and with an odd exponent the product. */
  lemma OneRound(b: nat, power: int, z: nat, x: nat, t: int, m: int, i: nat, bound: int)
    requires b > 0 && i > 0 && Raising(b, power, z, x, t, m, i)
    ensures ScaledMul(x, x, b, bound).Ok? ==>
              var x' := ScaledMul(x, x, b, bound).value;
              && (i % 2 == 0 ==> Raising(b, power, z, x', t, m * m, i / 2))
              && (i % 2 == 1 && ScaledMul(z, x', b, bound).Ok? ==>
                    Raising(b, power, ScaledMul(z, x', b, bound).value, x', t * (m * m), m * m, i / 2))
    ensures power * b * b + b / 2 < bound ==>
              ScaledMul(x, x, b, bound).Ok? && ScaledMul(z, ScaledMul(x, x, b, bound).value, b, bound).Ok?
    ensures i == 1 && ScaledMul(x, x, b, bound).Ok? && ScaledMul(z, ScaledMul(x, x, b, bound).value, b, bound).Ok? ==>
              power * b * b + b / 2 < bound
  {
    assert i == 1 ==> t * (m * m) == power by {
      PowOne(m * m);
    }
    FactorsOfPower(t, m, i);
    Halve(t, m * m, i);
    hide Pow, ScaledMul;
    if power * b * b + b / 2 < bound {
      ScaledFits(m, m, b, power, bound);
    }
    if ScaledMul(x, x, b, bound).Ok? {
      ScaledWhole(m, m, b, bound);
      if power * b * b + b / 2 < bound {
        ScaledFits(t, m * m, b, power, bound);
      }
      if ScaledMul(z, ScaledMul(x, x, b, bound).value, b, bound).Ok? {
        ScaledWhole(t, m * m, b, bound);
        LastFits(t, m * m, b, bound);
      }
    }
  }

  /** A scaled product of numbers of at most the scale that are close to powers. */
  lemma ScaledClose(d: nat, x: nat, y: nat, b: nat, bound: int, m: nat, n: nat)
    requires 0 < b && d <= b && n > 0 && Close(b, d, x, m) && Close(b, d, y, n)
    ensures ScaledMul(x, y, b, bound).Ok? ==> Close(b, d, ScaledMul(x, y, b, bound).value, m + n)
    ensures b * b + b / 2 < bound ==> ScaledMul(x, y, b, bound).Ok?
  {
    Nonnegative(x, y);
    var q := (x * y + b / 2) / b;
    assert Nearest(b, x, y, q) by { HalfUp(x * y, b); }
    assert 0 <= x * y <= b * b by {
      MulMono(x, y, b);
      MulMono(b, x, b);
    }
    hide Near, Pow;
    CloseProduct(b, d, x, y, q, m, n);
    AtMostSquare(b);
  }

  lemma AtMostSquare(b: nat)
    ensures b <= b * b
  {
    if b > 0 {
      MulMono(b, 1, b);
    }
  }

  /** Adding half the scale and dividing rounds to a nearest number. */
  lemma HalfUp(p: int, b: int)
    requires b > 0
    ensures 2 * Abs((p + b / 2) / b * b - p) <= b
  {
    DivModFacts(p + b / 2, b);
    assert b * ((p + b / 2) / b) == (p + b / 2) / b * b;
  }

  /** Raises a multiple of the scale to a power exactly whenever it returns. It panics exactly if something is
      multiplied at all and the power times the scale squared does not fit with half the scale to spare. Up to the
      second power the result is the scale, the number, or its square rounded half up. A number of at most the
      scale is raised to within (n - 1) / 2 units. */
  method RelativePow(x: nat, n: nat, b: nat) returns (r: Result<nat>)
    ensures b > 0 && x % b == 0 && r.Ok? ==> r.value == Pow(x / b, n) * b
    ensures b > 0 && x % b == 0 && n >= 2 && x > 0 ==>
              (r.Ok? <==> Pow(x / b, n) * b * b + b / 2 < UintBound())
    ensures n <= 1 || x == 0 ==> r == Ok(if n == 0 then b else if n == 1 then x else 0)
    ensures b == 0 && n >= 2 ==> r == if x == 0 then Ok(0) else Panic
    ensures b > 0 && x > 0 && n == 2 ==>
              var q := (x * x + b / 2) / b;
              && (r.Ok? <==> x * x + b / 2 < UintBound() && b * q + b / 2 < UintBound())
              && (r.Ok? ==> r.value == q)
    ensures 0 < b && x <= b && n >= 1 && r.Ok? ==> r.value <= b && Near(b, x, r.value, n)
    ensures 0 < b && x <= b && b * b + b / 2 < UintBound() ==> r.Ok?
  {
    hide Pow, Raising, ScaledMul, UintBound, Near;
    ghost var k := if b > 0 then x / b else 0;
    if x == 0 {
      assert n > 0 ==> Pow(0, n) == 0 by { if n > 0 { ZeroPow(n); } }
      assert Pow(0, 0) == 1 by { PowZero(0); }
      assert b > 0 && n > 0 ==> Near(b, 0, 0, n) by { if b > 0 && n > 0 { NearZero(b, n); } }
      return Ok(if n == 0 then b else 0);
    }
    var z: nat := if n % 2 == 0 then b else x;
    var scaled: nat, i := x, n / 2;
    ghost var whole := b > 0 && x % b == 0;
    ghost var t, m := if n % 2 == 0 then 1 else k, k;
    ghost var small := 0 < b && x <= b;
    ghost var a: nat, s: nat := n % 2, 1;
    if whole {
      FirstRound(x, n, b);
    }
    if small {
      CloseStart(b, x);
    }
    while i > 0
      invariant 0 <= i
      invariant whole ==> Raising(b, Pow(k, n), z, scaled, t, m, i)
      invariant i <= n / 2 && (i == 0 ==> n <= 1 || b > 0)
      invariant n >= 2 && i == 0 && whole ==> Pow(k, n) * b * b + b / 2 < UintBound()
      invariant i == n / 2 ==> scaled == x && z == if n % 2 == 0 then b else x
      invariant small ==> Close(b, x, z, a) && Close(b, x, scaled, s) && s > 0 && a + (s + s) * i == n
      invariant n == 2 && i == 0 ==> Second(x, b) == Ok(z)
    {
      if whole {
        OneRound(b, Pow(k, n), z, scaled, t, m, i, UintBound());
      }
      ExponentStep(a, s + s, i);
      if small {
        ScaledClose(x, scaled, scaled, b, UintBound(), s, s);
      }
      var squared := ScaledMul(scaled, scaled, b, UintBound());
      assert b == 0 ==> squared.Panic? by { NoScale(scaled, UintBound()); }
      if squared.Panic? {
        SecondPower(x, b);
        return Panic;
      }
      scaled := squared.value;
      s := s + s;
      if i % 2 == 1 {
        if small {
          ScaledClose(x, z, scaled, b, UintBound(), a, s);
        }
        var product := ScaledMul(z, scaled, b, UintBound());
        if product.Panic? {
          SecondPower(x, b);
          return Panic;
        }
        z := product.value;
        t := t * (m * m);
        a := a + s;
      }
      m := m * m;
      i := i / 2;
    }
    if whole {
      LastRound(b, Pow(k, n), z, scaled, t, m);
    }
    SecondPower(x, b);
    r := Ok(z);
  }

  /** The square, scaled back, times one. */
  ghost function Second(x: nat, b: nat): Result<nat> {
    match ScaledMul(x, x, b, UintBound())
    case Panic => Panic
    case Ok(q) => ScaledMul(b, q, b, UintBound())
  }

  lemma SecondPower(x: nat, b: nat)
    ensures b > 0 ==>
              var q := (x * x + b / 2) / b;
              && (Second(x, b).Ok? <==> x * x + b / 2 < UintBound() && b * q + b / 2 < UintBound())
              && (Second(x, b).Ok? ==> Second(x, b).value == q)
  {
    hide UintBound;
    if b > 0 {
      SquareScaled(x, b, UintBound());
    }
  }

  lemma SquareScaled(x: nat, b: nat, bound: int)
    requires b > 0
    ensures var q := (x * x + b / 2) / b;
            && q >= 0
            && ScaledMul(x, x, b, bound) == (if x * x + b / 2 < bound then Ok(q) else Panic)
            && ScaledMul(b, q, b, bound) == (if b * q + b / 2 < bound then Ok(q) else Panic)
  {
    Nonnegative(x, x);
    var q := (x * x + b / 2) / b;
    DivAtLeast(x * x + b / 2, b, 0);
    DivModFacts(x * x + b / 2, b);
    RoundedBack(q, b);
    Nonnegative(b, q);
  }

  lemma NearZero(b: int, n: nat)
    requires b > 0 && n > 0
    ensures Near(b, 0, 0, n)
  {
    ZeroPow(n);
    PowBetween(0, b, n);
    hide Pow;
    MulMono(Pow(b, n), 0, n - 1);
  }

  lemma NoScale(x: nat, bound: int)
    ensures ScaledMul(x, x, 0, bound) == Panic
  {
  }

  lemma FirstRound(x: nat, n: nat, b: nat)
    requires b > 0 && x > 0 && x % b == 0
    ensures var k := x / b;
            Raising(b, Pow(k, n), if n % 2 == 0 then b else x, x, if n % 2 == 0 then 1 else k, k, n / 2)
  {
    var k := x / b;
    DivModFacts(x, b);
    assert k > 0;
    FirstHalving(k, n);
  }

  lemma LastRound(b: nat, power: int, z: nat, x: nat, t: int, m: int)
    requires Raising(b, power, z, x, t, m, 0)
    ensures z == power * b
  {
    assert Pow(m * m, 0) == 1;
  }

  lemma FirstHalving(k: int, n: nat)
    ensures (if n % 2 == 0 then 1 else k) * Pow(k * k, n / 2) == Pow(k, n)
  {
    if n > 0 {
      Halve(1, k, n);
    }
  }
}
