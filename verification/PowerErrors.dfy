/** Powers of numbers between zero and one by rounded products: how far they are from the exact power. */
module PowerErrors {
  import opened Arith

  function Pow(b: int, n: nat): int {
    if n == 0 then 1 else b * Pow(b, n - 1)
  }

  lemma {:induction false} PowAdd(b: int, m: nat, n: nat)
    ensures Pow(b, m + n) == Pow(b, m) * Pow(b, n)
  {
    if m > 0 {
      PowAdd(b, m - 1, n);
      assert Pow(b, m + n) == b * Pow(b, m - 1 + n);
      assert b * (Pow(b, m - 1) * Pow(b, n)) == b * Pow(b, m - 1) * Pow(b, n);
    }
  }

  lemma {:induction false} PowBetween(d: int, c: int, n: nat)
    requires 0 <= d <= c && c > 0
    ensures 0 <= Pow(d, n) <= Pow(c, n) && Pow(c, n) > 0
  {
    if n > 0 {
      PowBetween(d, c, n - 1);
      MulMono(d, 0, Pow(d, n - 1));
      MulMono(d, Pow(d, n - 1), Pow(c, n - 1));
      MulMono(Pow(c, n - 1), d, c);
      assert c * Pow(c, n - 1) > 0;
    }
  }

  /** The scaled number x is within (m - 1) / 2 units in the last place of the m-th power of d, where one is scaled
      to c: |x / c - (d / c)^m| <= (m - 1) / (2 c). */
  ghost predicate Near(c: int, d: int, x: int, m: nat) {
    2 * Abs(x * Pow(c, m) - Pow(d, m) * c) <= (m - 1) * Pow(c, m)
  }

  /** z is x * y scaled back, rounded to a nearest number. */
  ghost predicate Nearest(c: int, x: int, y: int, z: int) {
    2 * Abs(z * c - x * y) <= c
  }

  lemma ErrorTimes(e: int, E: int, v: int, w: int)
    requires 2 * Abs(e) <= E && 0 <= v <= w
    ensures 2 * Abs(e * v) <= E * w
  {
    AbsProduct(e, v);
    MulMono(v, 2 * Abs(e), E);
    MulMono(E, v, w);
    assert 2 * (Abs(e) * v) == v * (2 * Abs(e)) && v * E == E * v;
  }

  /** The errors of two factors. */
  lemma TwoErrors(u: int, u': int, v: int, v': int, E: int, F: int, s: int, t: int)
    requires 2 * Abs(u - u') <= E && 2 * Abs(v - v') <= F && 0 <= v <= s && 0 <= u' <= t
    ensures 2 * Abs(u * v - u' * v') <= E * s + F * t
  {
    ErrorTimes(u - u', E, v, s);
    ErrorTimes(v - v', F, u', t);
    assert u * v - u' * v' == (u - u') * v + (v - v') * u';
  }

  lemma Bounds(c: int, p: int, q: int, z: int)
    requires c > 0 && 0 <= p <= c * c && q == c * z && 2 * Abs(q - p) <= c
    ensures 0 <= z <= c
  {
    if z < 0 {
      MulMono(c, z, -1);
    } else if z > c {
      MulMono(c, c + 1, z);
    }
  }

  lemma ProductBounds(c: int, x: int, y: int, z: int)
    requires c > 0 && 0 <= x <= c && 0 <= y <= c && Nearest(c, x, y, z)
    ensures 0 <= z <= c
  {
    assert 0 <= x * y <= c * c by {
      MulMono(x, 0, y);
      MulMono(x, y, c);
      MulMono(c, x, c);
    }
    Bounds(c, x * y, z * c, z);
  }

  /** Multiplying by one changes nothing. */
  lemma TimesOne(c: int, y: int, z: int)
    requires c > 0 && Nearest(c, c, y, z)
    ensures z == y
  {
    assert z * c - c * y == c * (z - y);
    MulSmall(c, z - y);
  }

  lemma Cancel(c: int, x: int, y: int)
    requires c > 0 && c * x <= c * y
    ensures x <= y
  {
    if x > y {
      MulMono(c, y + 1, x);
    }
  }

  /** The product of powers is the power of the sum, with one more rounding error. */
  lemma NearProduct(c: int, d: int, x: int, y: int, z: int, a: nat, b: nat)
    requires c > 0 && 0 <= d <= c && 0 <= x <= c && 0 <= y <= c && a >= 1 && b >= 1
    requires Near(c, d, x, a) && Near(c, d, y, b) && Nearest(c, x, y, z)
    ensures Near(c, d, z, a + b)
  {
    var p, q, e, f := Pow(c, a), Pow(c, b), Pow(d, a), Pow(d, b);
    PowBetween(d, c, a);
    PowBetween(d, c, b);
    PowAdd(c, a, b);
    PowAdd(d, a, b);
    assert 2 * Abs(x * p - e * c) <= (a - 1) * p && 2 * Abs(y * q - f * c) <= (b - 1) * q;
    hide Pow;
    Combined(c, x, y, z, p, q, e, f, a, b);
  }

  lemma Combined(c: int, x: int, y: int, z: int, p: int, q: int, e: int, f: int, a: nat, b: nat)
    requires c > 0 && 0 <= y <= c && p > 0 && q > 0 && 0 <= e <= p && Nearest(c, x, y, z)
    requires 2 * Abs(x * p - e * c) <= (a - 1) * p && 2 * Abs(y * q - f * c) <= (b - 1) * q
    ensures 2 * Abs(z * (p * q) - e * f * c) <= (a + b - 1) * (p * q)
  {
    var w := p * q;
    assert w > 0;
    FactorErrors(c, x, y, p, q, e, f, a, b);
    ErrorTimes(z * c - x * y, c, w, w);
    LastError(c, x * y, z, w, e * f, a, b);
  }

  lemma FactorErrors(c: int, x: int, y: int, p: int, q: int, e: int, f: int, a: nat, b: nat)
    requires c > 0 && 0 <= y <= c && p > 0 && q > 0 && 0 <= e <= p
    requires 2 * Abs(x * p - e * c) <= (a - 1) * p && 2 * Abs(y * q - f * c) <= (b - 1) * q
    ensures 2 * Abs(x * y * (p * q) - e * f * (c * c)) <= (a + b - 2) * (c * (p * q))
  {
    MulMono(q, 0, y);
    MulMono(q, y, c);
    MulMono(c, 0, e);
    MulMono(c, e, p);
    TwoErrors(x * p, e * c, y * q, f * c, (a - 1) * p, (b - 1) * q, c * q, c * p);
    Rearrange(c, x, y, p, q, e, f);
    Collect(c, p, q, a - 1, b - 1);
  }

  lemma Rearrange(c: int, x: int, y: int, p: int, q: int, e: int, f: int)
    ensures x * p * (y * q) == x * y * (p * q) && e * c * (f * c) == e * f * (c * c)
  {
    assert x * p * (y * q) == x * (p * (y * q)) == x * (y * (p * q));
    assert e * c * (f * c) == e * (c * (f * c)) == e * (f * (c * c));
  }

  lemma Collect(c: int, p: int, q: int, k: int, l: int)
    ensures k * p * (c * q) + l * q * (c * p) == (k + l) * (c * (p * q))
  {
    assert k * p * (c * q) == k * (p * (c * q)) == k * (c * (p * q));
    assert l * q * (c * p) == l * (q * (c * p)) == l * (c * (p * q));
  }

  /** Both kinds of errors together, with the scale taken out again. */
  lemma LastError(c: int, xy: int, z: int, w: int, ef: int, a: nat, b: nat)
    requires c > 0 && 2 * Abs((z * c - xy) * w) <= c * w
    requires 2 * Abs(xy * w - ef * (c * c)) <= (a + b - 2) * (c * w)
    ensures 2 * Abs(z * w - ef * c) <= (a + b - 1) * w
  {
    var g := z * w - ef * c;
    Split(c, xy, z, w, ef);
    Triangle((z * c - xy) * w, xy * w - ef * (c * c), c * w, (a + b - 2) * (c * w));
    Sum(c, w, a + b - 2);
    AbsProduct(c, g);
    Twice(c, Abs(g));
    Cancel(c, 2 * Abs(g), (a + b - 1) * w);
  }

  lemma Split(c: int, xy: int, z: int, w: int, ef: int)
    ensures c * (z * w - ef * c) == (z * c - xy) * w + (xy * w - ef * (c * c))
  {
    assert c * (z * w) == z * c * w && c * (ef * c) == ef * (c * c);
    assert (z * c - xy) * w == z * c * w - xy * w;
    assert c * (z * w - ef * c) == c * (z * w) - c * (ef * c);
  }

  lemma Triangle(s: int, t: int, E: int, F: int)
    requires 2 * Abs(s) <= E && 2 * Abs(t) <= F
    ensures 2 * Abs(s + t) <= E + F
  {
  }

  lemma Sum(c: int, w: int, n: int)
    ensures c * w + n * (c * w) == c * ((n + 1) * w)
  {
    assert c * ((n + 1) * w) == (n + 1) * (c * w);
  }

  lemma Twice(c: int, g: int)
    ensures c * (2 * g) == 2 * (c * g)
  {
  }

  // The state of square and multiply

  /** A product so far: nothing yet, or close to a power. */
  ghost predicate Close(c: int, d: int, x: int, m: nat) {
    0 <= x <= c && if m == 0 then x == c else Near(c, d, x, m)
  }

  lemma CloseStart(c: int, d: int)
    requires c > 0 && 0 <= d <= c
    ensures Close(c, d, c, 0) && Close(c, d, d, 1)
  {
    assert Pow(c, 0) == 1 && Pow(d, 0) == 1 && Pow(c, 1) == c && Pow(d, 1) == d;
  }

  lemma CloseProduct(c: int, d: int, x: int, y: int, z: int, a: nat, b: nat)
    requires c > 0 && 0 <= d <= c && b > 0 && Close(c, d, x, a) && Close(c, d, y, b) && Nearest(c, x, y, z)
    ensures Close(c, d, z, a + b)
  {
    ProductBounds(c, x, y, z);
    if a == 0 {
      TimesOne(c, y, z);
    } else {
      NearProduct(c, d, x, y, z, a, b);
    }
  }
}
