/** types/decimal.go, SortableDecBytes: decimals as bytes, and how those sort. */
module SortableDec {
  import opened Basics
  import opened ByteOrder
  import opened Arith
  import opened Decimal
  import opened DecimalText

  /** MaxSortableDec, the quotient of 1 and the smallest decimal. */
  const MAX_SORTABLE: int := ONE * ONE

  lemma MaxSortableIsQuotient()
    ensures QuoRound(ONE, 1) == Ok(MAX_SORTABLE)
  {
  }

  /** The bytes of a text without characters above 255. */
  function Ascii(s: string): (b: Bytes)
    ensures |b| == |s|
  {
    seq(|s|, i requires 0 <= i < |s| => s[i] as int % 256)
  }

  lemma AsciiConcat(s: string, t: string)
    ensures Ascii(s + t) == Ascii(s) + Ascii(t)
  {
  }

  /** fmt.Sprintf("%037s", s). */
  function PadLeft(s: string, w: nat): string {
    if |s| >= w then s else Zeros(w - |s|) + s
  }

  function SortableDecBytes(d: int): Result<Bytes> {
    if Abs(d) > MAX_SORTABLE then Panic
    else if d == MAX_SORTABLE then Ok(Ascii("max"))
    else if d == -MAX_SORTABLE then Ok(Ascii("--"))
    else if d < 0 then Ok(Ascii("-" + PadLeft(Text(Abs(d)), PRECISION * 2 + 1)))
    else Ok(Ascii(PadLeft(Text(d), PRECISION * 2 + 1)))
  }

  /** 18 digits, the point, and 18 digits. */
  function Places(n: nat): string {
    Fixed(n / ONE, PRECISION) + "." + Fixed(n % ONE, PRECISION)
  }

  lemma PadWith(z: string, s: string, w: nat)
    requires z == Zeros(|z|) && |z| + |s| == w
    ensures PadLeft(s, w) == z + s
  {
    if z == "" {
      assert z + s == s;
    }
  }

  /** A number below the largest has at most 18 digits in front of the point, so padding fills them up. */
  lemma PaddedPlaces(n: nat)
    requires n < MAX_SORTABLE
    ensures PadLeft(Text(n), PRECISION * 2 + 1) == Places(n) && |Places(n)| == PRECISION * 2 + 1
  {
    var w := n / ONE;
    assert Drop(w, PRECISION) == 0 by {
      hide Drop, Ten;
      OneIsTen();
      DropDivides(w, PRECISION);
    }
    hide Digits, Drop, Fixed, PadLeft, Zeros;
    var digits, rest := Digits(w), "." + Fixed(n % ONE, PRECISION);
    DigitsPadded(w, PRECISION);
    FixedDenotes(n % ONE, PRECISION);
    FixedDenotes(w, PRECISION);
    ZerosLength(PRECISION - |digits|);
    Associates(digits, ".", Fixed(n % ONE, PRECISION));
    Associates(Fixed(w, PRECISION), ".", Fixed(n % ONE, PRECISION));
    Associates(Zeros(PRECISION - |digits|), digits, rest);
    assert Text(n) == digits + rest by { PlainText(n); }
    PadWith(Zeros(PRECISION - |digits|), digits + rest, PRECISION * 2 + 1);
  }

  lemma Associates(a: string, b: string, c: string)
    ensures a + b + c == a + (b + c)
  {
  }

  lemma PlainText(n: nat)
    ensures Text(n) == Unsigned(n)
  {
    hide Unsigned;
    assert "" + Unsigned(n) == Unsigned(n);
  }

  lemma {:induction false} LessExtends(p: Bytes, q: Bytes, x: Bytes, y: Bytes)
    requires |p| == |q| && Less(p, q)
    ensures Less(p + x, q + y)
  {
    assert (p + x)[1..] == p[1..] + x && (q + y)[1..] == q[1..] + y;
    if p[0] == q[0] {
      LessExtends(p[1..], q[1..], x, y);
    }
  }

  lemma FixedStep(n: nat, w: nat)
    requires w > 0
    ensures Ascii(Fixed(n, w)) == Ascii(Fixed(n / 10, w - 1)) + Ascii([Digit(n % 10)])
    ensures |Fixed(n / 10, w - 1)| == w - 1
  {
    AsciiConcat(Fixed(n / 10, w - 1), [Digit(n % 10)]);
    FixedDenotes(n / 10, w - 1);
  }

  lemma DigitsSort(a: nat, b: nat)
    requires a < b < 10
    ensures Less(Ascii([Digit(a)]), Ascii([Digit(b)]))
  {
  }

  /** Numbers written with the same number of digits sort by value. */
  lemma {:induction false} FixedSorts(a: nat, b: nat, w: nat)
    requires a < b < Ten(w)
    ensures Less(Ascii(Fixed(a, w)), Ascii(Fixed(b, w)))
    decreases w
  {
    assert b / 10 < Ten(w - 1);
    hide Ascii, Digit, Fixed, Less, Ten;
    FixedStep(a, w);
    FixedStep(b, w);
    var x, y := Ascii([Digit(a % 10)]), Ascii([Digit(b % 10)]);
    var p, q := Ascii(Fixed(a / 10, w - 1)), Ascii(Fixed(b / 10, w - 1));
    if a / 10 < b / 10 {
      FixedSorts(a / 10, b / 10, w - 1);
      LessExtends(p, q, x, y);
    } else {
      DigitsSort(a % 10, b % 10);
      PrefixKeepsOrder(p, x, y);
    }
  }

  lemma PlacesSort(a: nat, b: nat)
    requires a < b < MAX_SORTABLE
    ensures Less(Ascii(Places(a)), Ascii(Places(b)))
  {
    hide Ascii, Fixed, Less, Ten;
    OneIsTen();
    var va, vb, fa, fb := a / ONE, b / ONE, a % ONE, b % ONE;
    var ra, rb := "." + Fixed(fa, PRECISION), "." + Fixed(fb, PRECISION);
    AsciiConcat(Fixed(va, PRECISION), ra);
    AsciiConcat(Fixed(vb, PRECISION), rb);
    AsciiConcat(".", Fixed(fa, PRECISION));
    AsciiConcat(".", Fixed(fb, PRECISION));
    assert Places(a) == Fixed(va, PRECISION) + ra && Places(b) == Fixed(vb, PRECISION) + rb;
    FixedDenotes(va, PRECISION);
    FixedDenotes(vb, PRECISION);
    if va < vb {
      FixedSorts(va, vb, PRECISION);
      LessExtends(Ascii(Fixed(va, PRECISION)), Ascii(Fixed(vb, PRECISION)), Ascii(ra), Ascii(rb));
    } else {
      FixedSorts(fa, fb, PRECISION);
      assert Less(Ascii(ra), Ascii(rb)) by {
        PrefixKeepsOrder(Ascii("."), Ascii(Fixed(fa, PRECISION)), Ascii(Fixed(fb, PRECISION)));
      }
      PrefixKeepsOrder(Ascii(Fixed(va, PRECISION)), Ascii(ra), Ascii(rb));
    }
  }

  lemma PrefixKeepsOrder(p: Bytes, a: Bytes, b: Bytes)
    ensures Less(p + a, p + b) <==> Less(a, b)
  {
    CompareCommonPrefix(p, a, b);
  }

  /** Where a decimal is put: the largest and the smallest get the sentinels, and the order among the
      other negative numbers is reversed, because a longer magnitude sorts higher. */
  predicate SortsBefore(a: int, b: int) {
    if -MAX_SORTABLE < a < 0 && -MAX_SORTABLE < b < 0 then b < a else a < b
  }

  lemma Encoding(d: int)
    requires Abs(d) < MAX_SORTABLE
    ensures SortableDecBytes(d) == Ok(if d < 0 then Ascii("-") + Ascii(Places(Abs(d))) else Ascii(Places(d)))
  {
    hide Ascii, PadLeft, Places, Text;
    PaddedPlaces(Abs(d));
    AsciiConcat("-", Places(Abs(d)));
  }

  lemma DigitByte(s: string, t: string)
    requires s != "" && AllDigits(s)
    ensures 48 <= Ascii(s + t)[0] <= 57
  {
    assert IsDigit(s[0]);
  }

  lemma StartsWithDigit(n: nat)
    ensures var b := Ascii(Places(n)); b != [] && 48 <= b[0] <= 57
  {
    hide AllDigits, Ascii, Fixed, Value;
    var whole, rest := Fixed(n / ONE, PRECISION), "." + Fixed(n % ONE, PRECISION);
    FixedDenotes(n / ONE, PRECISION);
    assert Places(n) == whole + rest;
    DigitByte(whole, rest);
  }

  lemma FirstByteDecides(a: Bytes, b: Bytes)
    requires a != [] && b != [] && a[0] < b[0]
    ensures Less(a, b)
  {
  }

  lemma Sentinels()
    ensures SortableDecBytes(MAX_SORTABLE) == Ok(Ascii("max")) && Ascii("max")[0] == 109
    ensures SortableDecBytes(-MAX_SORTABLE) == Ok(Ascii("-") + [45]) && Ascii("-") == [45]
  {
    assert Ascii("--") == Ascii("-") + [45];
  }

  /** Byte order is numeric order, except among the negative numbers. */
  lemma EncodingSorts(a: int, b: int)
    requires Abs(a) <= MAX_SORTABLE && Abs(b) <= MAX_SORTABLE && SortsBefore(a, b)
    ensures Less(SortableDecBytes(a).value, SortableDecBytes(b).value)
  {
    hide Ascii, Less, Places, SortableDecBytes;
    Sentinels();
    StartsWithDigit(Abs(a));
    StartsWithDigit(Abs(b));
    if Abs(a) < MAX_SORTABLE {
      Encoding(a);
    }
    if Abs(b) < MAX_SORTABLE {
      Encoding(b);
    }
    if a < 0 && -MAX_SORTABLE <= b < 0 {
      if a == -MAX_SORTABLE {
        FirstByteDecides([45], Ascii(Places(-b)));
        PrefixKeepsOrder(Ascii("-"), [45], Ascii(Places(-b)));
      } else {
        PlacesSort(-a, -b);
        PrefixKeepsOrder(Ascii("-"), Ascii(Places(-a)), Ascii(Places(-b)));
      }
    } else if a < 0 || b == MAX_SORTABLE {
      FirstByteDecides(SortableDecBytes(a).value, SortableDecBytes(b).value);
    } else {
      PlacesSort(a, b);
    }
  }

  /** Exactly the decimals of at most 10^18 have sortable bytes. */
  lemma SortableExactly(d: int)
    ensures SortableDecBytes(d).Ok? <==> -ONE * ONE <= d <= ONE * ONE
  {
    hide Ascii, PadLeft, Text;
  }

  /** Two decimals in bounds sort by their bytes exactly as SortsBefore says. */
  lemma SortableOrder(a: int, b: int)
    requires Abs(a) <= MAX_SORTABLE && Abs(b) <= MAX_SORTABLE
    ensures SortableDecBytes(a).Ok? && SortableDecBytes(b).Ok?
    ensures Less(SortableDecBytes(a).value, SortableDecBytes(b).value) <==> SortsBefore(a, b)
  {
    assert SortableDecBytes(a).Ok? && SortableDecBytes(b).Ok?;
    hide Less, SortableDecBytes;
    if SortsBefore(a, b) {
      EncodingSorts(a, b);
    } else {
      if a != b {
        EncodingSorts(b, a);
      }
      LessAsymmetric(SortableDecBytes(b).value, SortableDecBytes(a).value);
    }
  }

  lemma LessAsymmetric(a: Bytes, b: Bytes)
    ensures Less(a, b) ==> a != b && !Less(b, a)
  {
    CompareFlips(a, b);
  }
}
