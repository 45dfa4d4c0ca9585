/** Base 128 varints of the Protocol Buffers encoding, as types/types.pb.go and encoding/binary write and
    read them. Words are 64 bits wide. */
module Varints {
  import opened Basics
  import opened ByteOrder
  import opened Arith

  /** Seven bits to a byte, the low ones first; every byte but the last has the high bit set. */
  function Varint(v: nat): (b: Bytes)
    ensures b != []
  {
    if v < 128 then [v] else [v % 128 + 128] + Varint(v / 128)
  }

  // Sizes

  /** math/bits.Len64: the number of bits needed. */
  function BitLen(x: nat): nat {
    if x == 0 then 0 else 1 + BitLen(x / 2)
  }

  /** sovTypes: (Len64(x | 1) + 6) / 7. */
  function Sov(x: nat): nat {
    (BitLen(if x % 2 == 0 then x + 1 else x) + 6) / 7
  }

  lemma BitLenOdd(x: nat)
    requires x > 0
    ensures BitLen(if x % 2 == 0 then x + 1 else x) == BitLen(x)
  {
  }

  lemma BitLenSmall(x: nat)
    requires x < 128
    ensures BitLen(x) <= 7
  {
    assert BitLen(x / 2 / 2 / 2 / 2 / 2 / 2) <= 1;
    assert BitLen(x / 2 / 2 / 2 / 2) <= 3;
    assert BitLen(x / 2 / 2) <= 5;
  }

  lemma BitLenShift(x: nat)
    requires x >= 128
    ensures BitLen(x) == 7 + BitLen(x / 128)
  {
    var a := x / 2;
    var b := a / 2;
    var c := b / 2;
    var d := c / 2;
    var e := d / 2;
    var f := e / 2;
    assert BitLen(x) == 1 + BitLen(a) && BitLen(a) == 1 + BitLen(b);
    assert BitLen(b) == 1 + BitLen(c) && BitLen(c) == 1 + BitLen(d);
    assert BitLen(d) == 1 + BitLen(e) && BitLen(e) == 1 + BitLen(f);
    assert BitLen(f) == 1 + BitLen(f / 2) && f / 2 == x / 128;
  }

  /** The computed size is the length of the encoding. */
  lemma {:induction false} SovIsLength(x: nat)
    ensures Sov(x) == |Varint(x)|
  {
    if x < 128 {
      BitLenSmall(if x % 2 == 0 then x + 1 else x);
    } else {
      SovIsLength(x / 128);
      BitLenOdd(x);
      BitLenShift(x);
      BitLenOdd(x / 128);
    }
  }

  /** Writes the varint so that it ends in front of the offset, and returns where it starts. */
  method EncodeVarint(a: array<Byte>, offset: nat, v: nat) returns (base: nat)
    requires Sov(v) <= offset <= a.Length
    modifies a
    ensures base == offset - Sov(v)
    ensures a[..base] == old(a[..base]) && a[base..offset] == Varint(v) && a[offset..] == old(a[offset..])
  {
    hide Sov;
    SovIsLength(v);
    base := offset - Sov(v);
    var at, rest := base, v;
    while rest >= 128
      invariant base <= at && at + |Varint(rest)| == offset
      invariant a[..base] == old(a[..base]) && a[offset..] == old(a[offset..])
      invariant a[base..at] + Varint(rest) == Varint(v)
    {
      assert Varint(rest) == [rest % 128 + 128] + Varint(rest / 128);
      a[at] := rest % 128 + 128;
      rest := rest / 128;
      at := at + 1;
    }
    a[at] := rest;
  }

  // Reading

  datatype Reading = Read(value: Uint64, next: nat) | Overflow | UnexpectedEOF

  function Pow2(n: nat): (p: nat)
    ensures p > 0
  {
    if n == 0 then 1 else 2 * Pow2(n - 1)
  }

  lemma Pow2Seven(n: nat)
    ensures Pow2(n + 7) == 128 * Pow2(n)
  {
    assert Pow2(n + 7) == 4 * Pow2(n + 5) == 16 * Pow2(n + 3) == 64 * Pow2(n + 1);
  }

  /** A word shifted left within 64 bits. */
  function Shifted(x: nat, shift: nat): nat {
    x * Pow2(shift) % TWO_64
  }

  /** The bits below a shift and bits shifted by it are disjoint, so the bitwise or is a sum. */
  function Or(low: nat, high: nat): Uint64 {
    (low + high) % TWO_64
  }

  /** The read loop from the byte at i on: at most ten bytes, the last one without the high bit. */
  function ReadFrom(d: Bytes, i: nat, shift: nat, acc: nat): (r: Reading)
    ensures r.Read? ==> i < r.next <= |d|
    decreases |d| - i
  {
    if shift >= 64 then Overflow
    else if i >= |d| then UnexpectedEOF
    else
      var v := Or(acc, Shifted(d[i] % 128, shift));
      if d[i] < 128 then Read(v, i + 1) else ReadFrom(d, i + 1, shift + 7, v)
  }

  method ReadVarint(d: Bytes, i: nat) returns (r: Reading)
    ensures r == ReadFrom(d, i, 0, 0)
  {
    var shift, at, value := 0, i, 0;
    while true
      invariant 0 <= shift && i <= at && 0 <= value && ReadFrom(d, at, shift, value) == ReadFrom(d, i, 0, 0)
      decreases |d| - at
    {
      if shift >= 64 {
        return Overflow;
      }
      if at >= |d| {
        return UnexpectedEOF;
      }
      var b := d[at];
      at := at + 1;
      value := Or(value, Shifted(b % 128, shift));
      if b < 128 {
        return Read(value, at);
      }
      shift := shift + 7;
    }
  }

  /** The encoding of v stands at index i. */
  ghost predicate StandsAt(d: Bytes, i: nat, v: nat) {
    i + |Varint(v)| <= |d| && d[i..i + |Varint(v)|] == Varint(v)
  }

  lemma ReadStep(d: Bytes, i: nat, shift: nat, acc: nat)
    requires shift < 64 && i < |d| && acc + d[i] % 128 * Pow2(shift) < TWO_64
    ensures var v := acc + d[i] % 128 * Pow2(shift);
            ReadFrom(d, i, shift, acc) == if d[i] < 128 then Read(v, i + 1) else ReadFrom(d, i + 1, shift + 7, v)
  {
    hide Pow2;
    Product(d[i] % 128, Pow2(shift));
    NoWrap(acc, d[i] % 128, shift);
    hide Or, Shifted;
  }

  lemma Product(x: nat, p: nat)
    ensures x * p >= 0
  {
  }

  lemma NoWrap(acc: nat, x: nat, shift: nat)
    requires x * Pow2(shift) >= 0 && acc + x * Pow2(shift) < TWO_64
    ensures Or(acc, Shifted(x, shift)) == acc + x * Pow2(shift)
  {
    hide Pow2;
    var y := x * Pow2(shift);
    assert y % TWO_64 == y;
  }

  /** Reading what was written. */
  lemma {:induction false} ReadWritten(d: Bytes, i: nat, v: nat, shift: nat, acc: nat)
    requires StandsAt(d, i, v) && (shift == 0 || v > 0) && acc + v * Pow2(shift) < TWO_64
    ensures ReadFrom(d, i, shift, acc) == Read(acc + v * Pow2(shift), i + |Varint(v)|)
    decreases v
  {
    var p := Pow2(shift);
    assert shift < 64 by {
      if shift >= 64 {
        LargeShift(shift, v);
      }
    }
    assert d[i] == Varint(v)[0];
    if v < 128 {
      hide ReadFrom, Pow2;
      ReadStep(d, i, shift, acc);
    } else {
      StandsNext(d, i, v);
      Pow2Seven(shift);
      assert |Varint(v)| == 1 + |Varint(v / 128)|;
      hide ReadFrom, Pow2, StandsAt, Varint;
      ShiftParts(v, p);
      ReadStep(d, i, shift, acc);
      ReadWritten(d, i + 1, v / 128, shift + 7, acc + v % 128 * p);
    }
  }

  lemma ShiftParts(v: nat, p: nat)
    ensures v * p == v % 128 * p + v / 128 * (128 * p)
    ensures v % 128 * p >= 0 && v / 128 * (128 * p) >= 0
  {
    assert v == v % 128 + 128 * (v / 128);
    assert (v % 128 + 128 * (v / 128)) * p == v % 128 * p + 128 * (v / 128) * p;
  }

  lemma StandsNext(d: Bytes, i: nat, v: nat)
    requires StandsAt(d, i, v) && v >= 128
    ensures StandsAt(d, i + 1, v / 128) && d[i] == v % 128 + 128
  {
    var n := |Varint(v)|;
    assert Varint(v)[1..] == Varint(v / 128);
    assert d[i + 1..i + n] == d[i..i + n][1..];
  }

  lemma Pow2At64()
    ensures Pow2(64) == TWO_64
  {
    assert Pow2(1) == 2 && Pow2(0) == 1;
    hide Pow2;
    Pow2Seven(1);
    Pow2Seven(8);
    Pow2Seven(15);
    Pow2Seven(22);
    Pow2Seven(29);
    Pow2Seven(36);
    Pow2Seven(43);
    Pow2Seven(50);
    Pow2Seven(57);
  }

  lemma {:induction false} LargeShift(shift: nat, v: nat)
    requires shift >= 64 && v > 0
    ensures v * Pow2(shift) >= Pow2(shift) >= TWO_64
    decreases shift
  {
    if shift == 64 {
      Pow2At64();
    } else {
      LargeShift(shift - 1, v);
    }
    hide Pow2;
    AtLeastOnce(v, Pow2(shift));
  }

  lemma AtLeastOnce(v: nat, p: nat)
    requires v > 0
    ensures v * p >= p
  {
    assert v * p == (v - 1) * p + p && (v - 1) * p >= 0;
  }

  /** Every 64-bit word is read back, and the reader stops right behind it. */
  lemma RoundTrip(before: Bytes, v: Uint64, after: Bytes)
    ensures ReadFrom(before + Varint(v) + after, |before|, 0, 0) == Read(v, |before + Varint(v)|)
  {
    var d := before + Varint(v) + after;
    assert d[|before|..|before| + |Varint(v)|] == Varint(v);
    assert Pow2(0) == 1;
    hide ReadFrom, Pow2, Varint;
    ReadWritten(d, |before|, v, 0, 0);
  }

  lemma {:induction false} ShortVarint(v: nat, k: nat)
    requires k > 0 && v < Pow2(7 * k)
    ensures |Varint(v)| <= k
    decreases k
  {
    if v >= 128 {
      Pow2Seven(7 * (k - 1));
      assert Pow2(0) == 1;
      ShortVarint(v / 128, k - 1);
    }
  }

  /** A word takes at most ten bytes. */
  lemma TenBytes(v: Uint64)
    ensures |Varint(v)| <= 10
  {
    hide Varint;
    assert Pow2(70) >= TWO_64 by {
      Pow2At64();
      Pow2Seven(63);
      assert Pow2(64) == 2 * Pow2(63);
    }
    hide Pow2;
    ShortVarint(v, 10);
  }

  // Any input

  /** The first byte from i on that ends a varint, or the end of the input. */
  function LastByte(bz: Bytes, i: nat): (k: nat)
    requires i <= |bz|
    ensures i <= k <= |bz| && (k < |bz| ==> bz[k] < 128)
    ensures forall j :: i <= j < k ==> bz[j] >= 128
    decreases |bz| - i
  {
    if i == |bz| || bz[i] < 128 then i else LastByte(bz, i + 1)
  }

  /** Exactly which input is read: a varint of at most ten bytes that ends. Where it ends early, and where it is
      longer, there is an error of its own. */
  lemma {:induction false} EveryVarint(d: Bytes, i: nat, j: nat, shift: nat, acc: nat)
    requires i <= j <= |d| && j <= i + 10 && shift == 7 * (j - i)
    ensures var k, r := LastByte(d, j), ReadFrom(d, j, shift, acc);
            if k >= i + 10 then r == Overflow
            else if k == |d| then r == UnexpectedEOF
            else r.Read? && r.next == k + 1
    decreases |d| - j
  {
    hide Or, Shifted;
    if j < i + 10 && j < |d| && d[j] >= 128 {
      EveryVarint(d, i, j + 1, shift + 7, Or(acc, Shifted(d[j] % 128, shift)));
    }
  }

  /** The number that groups of seven bits stand for, the lowest first. */
  function Groups(b: Bytes): nat {
    if b == [] then 0 else b[0] % 128 + 128 * Groups(b[1..])
  }

  lemma ModSum(a: int, b: int, m: int)
    requires m > 0
    ensures (a + b % m) % m == (a + b) % m
  {
    var q, r := b / m, b % m;
    assert b == m * q + r;
    var s, t := (a + r) / m, (a + r) % m;
    assert a + b == m * (s + q) + t by { assert m * (s + q) == m * s + m * q; }
    DivModUnique(a + b, m, s + q, t);
  }

  lemma NextValue(acc: int, x: int, p: int, g: int)
    ensures ((acc + x * p % TWO_64) % TWO_64 + 128 * p * g) % TWO_64 == (acc + p * (x + 128 * g)) % TWO_64
  {
    ModSum(acc, x * p, TWO_64);
    ModSum(128 * p * g, acc + x * p, TWO_64);
    assert p * (x + 128 * g) == x * p + 128 * p * g;
  }

  lemma GroupsStep(d: Bytes, j: nat, n: nat)
    requires j < n <= |d|
    ensures Groups(d[j..n]) == d[j] % 128 + 128 * Groups(d[j + 1..n])
  {
    assert d[j..n][0] == d[j] && d[j..n][1..] == d[j + 1..n];
  }

  lemma NoGroups(d: Bytes, j: nat)
    requires j <= |d|
    ensures Groups(d[j..j]) == 0
  {
  }

  lemma OneGroup(d: Bytes, j: nat, shift: nat, acc: Uint64)
    requires ReadFrom(d, j, shift, acc).Read?
    ensures j < |d|
    ensures var next: Uint64 := (acc + d[j] % 128 * Pow2(shift) % TWO_64) % TWO_64;
            ReadFrom(d, j, shift, acc) == if d[j] < 128 then Read(next, j + 1) else ReadFrom(d, j + 1, shift + 7, next)
  {
    hide Pow2;
  }

  /** What is read is the number that the groups stand for, within 64 bits. */
  lemma {:induction false} VarintValue(d: Bytes, j: nat, shift: nat, acc: Uint64)
    requires ReadFrom(d, j, shift, acc).Read?
    ensures var r := ReadFrom(d, j, shift, acc);
            r.value == (acc + Pow2(shift) * Groups(d[j..r.next])) % TWO_64
    decreases |d| - j
  {
    Pow2Seven(shift);
    hide ReadFrom, Groups, Pow2;
    OneGroup(d, j, shift, acc);
    var n := ReadFrom(d, j, shift, acc).next;
    var x, g := d[j] % 128, Groups(d[j + 1..n]);
    GroupsStep(d, j, n);
    NextValue(acc, x, Pow2(shift), g);
    if d[j] < 128 {
      NoGroups(d, j + 1);
    } else {
      VarintValue(d, j + 1, shift + 7, (acc + x * Pow2(shift) % TWO_64) % TWO_64);
    }
  }
}
