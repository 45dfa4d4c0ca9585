/** Byte strings under the order of Go's bytes.Compare, which sorts every key of a store. */
module ByteOrder {
  import opened Basics

  type Byte = b: int | 0 <= b < 256

  type Bytes = seq<Byte>

  /** bytes.Compare: -1, 0 or 1, the first differing byte decides and a proper prefix is smaller. */
  function Compare(a: Bytes, b: Bytes): (c: int)
    ensures -1 <= c <= 1
  {
    if a == [] then
      if b == [] then 0 else -1
    else if b == [] then
      1
    else if a[0] != b[0] then
      if a[0] < b[0] then -1 else 1
    else
      Compare(a[1..], b[1..])
  }

  predicate Less(a: Bytes, b: Bytes) {
    Compare(a, b) < 0
  }

  /** Order of keys in the direction of an iteration. */
  predicate Before(ascending: bool, a: Bytes, b: Bytes) {
    if ascending then Less(a, b) else Less(b, a)
  }

  /** Membership of a key in the half-open range of an iterator; an absent end is unbounded. */
  predicate InDomain(key: Bytes, start: Bytes, end: Option<Bytes>) {
    !Less(key, start) && (end.None? || Less(key, end.value))
  }

  /** Comparison with exchanged arguments, and equality exactly at zero. */
  lemma {:induction false} CompareFlips(a: Bytes, b: Bytes)
    ensures Compare(b, a) == -Compare(a, b)
    ensures Compare(a, b) == 0 <==> a == b
  {
    if a != [] && b != [] && a[0] == b[0] {
      CompareFlips(a[1..], b[1..]);
      assert a == [a[0]] + a[1..] && b == [b[0]] + b[1..];
    }
  }

  lemma {:induction false} LessTransitive(a: Bytes, b: Bytes, c: Bytes)
    requires Less(a, b) && Less(b, c)
    ensures Less(a, c)
  {
    if a != [] && b != [] && c != [] && a[0] == b[0] == c[0] {
      LessTransitive(a[1..], b[1..], c[1..]);
    }
  }

  /** Byte strings are totally and strictly ordered, in either direction. */
  lemma OrderLaws(ascending: bool)
    ensures forall a: Bytes, b: Bytes {:trigger Before(ascending, a, b)} ::
              Before(ascending, a, b) ==> a != b && !Before(ascending, b, a)
    ensures forall a: Bytes, b: Bytes {:trigger Before(ascending, a, b)} ::
              a == b || Before(ascending, a, b) || Before(ascending, b, a)
    ensures forall a: Bytes, b: Bytes, c: Bytes {:trigger Before(ascending, a, b), Before(ascending, b, c)} ::
              Before(ascending, a, b) && Before(ascending, b, c) ==> Before(ascending, a, c)
  {
    forall a: Bytes, b: Bytes
      ensures Before(ascending, a, b) ==> a != b && !Before(ascending, b, a)
      ensures a == b || Before(ascending, a, b) || Before(ascending, b, a)
    {
      CompareFlips(a, b);
    }
    forall a: Bytes, b: Bytes, c: Bytes | Before(ascending, a, b) && Before(ascending, b, c)
      ensures Before(ascending, a, c)
    {
      BeforeTransitive(a, b, c, ascending);
    }
  }

  lemma BeforeStrict(a: Bytes, b: Bytes, ascending: bool)
    ensures Before(ascending, a, b) ==> a != b && !Before(ascending, b, a)
  {
    CompareFlips(a, b);
  }

  lemma BeforeTransitive(a: Bytes, b: Bytes, c: Bytes, ascending: bool)
    requires Before(ascending, a, b) && Before(ascending, b, c)
    ensures Before(ascending, a, c)
  {
    if ascending {
      LessTransitive(a, b, c);
    } else {
      LessTransitive(c, b, a);
    }
  }

  lemma BeforeTotal(a: Bytes, b: Bytes, ascending: bool)
    ensures a == b || Before(ascending, a, b) || Before(ascending, b, a)
  {
    CompareFlips(a, b);
  }

  /** Removing a common prefix keeps the comparison. */
  lemma {:induction false} CompareCommonPrefix(p: Bytes, a: Bytes, b: Bytes)
    ensures Compare(p + a, p + b) == Compare(a, b)
  {
    if p == [] {
      assert p + a == a && p + b == b;
    } else {
      assert (p + a)[1..] == p[1..] + a && (p + b)[1..] == p[1..] + b;
      CompareCommonPrefix(p[1..], a, b);
    }
  }
}
