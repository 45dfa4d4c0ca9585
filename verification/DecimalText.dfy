/** types/decimal.go, String and NewDecFromStr: decimals as text. */
module DecimalText {
  import opened Basics
  import opened Arith
  import opened Decimal

  // Digit strings

  function Digit(d: nat): char
    requires d < 10
  {
    '0' + d as char
  }

  predicate IsDigit(c: char) {
    '0' <= c <= '9'
  }

  predicate AllDigits(s: string) {
    forall i :: 0 <= i < |s| ==> IsDigit(s[i])
  }

  /** big.Int's text of a non-negative number: no leading zero. */
  function Digits(n: nat): string {
    if n < 10 then [Digit(n)] else Digits(n / 10) + [Digit(n % 10)]
  }

  /** The last w decimal digits of a number. */
  function Fixed(n: nat, w: nat): string
    decreases w
  {
    if w == 0 then "" else Fixed(n / 10, w - 1) + [Digit(n % 10)]
  }

  function Zeros(w: nat): string {
    seq(w, _ => '0')
  }

  /** The number that a string of digits denotes. */
  function Value(s: string): nat
    requires AllDigits(s)
  {
    if s == "" then 0 else Value(s[..|s| - 1]) * 10 + (s[|s| - 1] - '0') as nat
  }

  /** 10^w. */
  function Ten(w: nat): (p: nat)
    ensures p > 0
  {
    if w == 0 then 1 else 10 * Ten(w - 1)
  }

  lemma {:induction false} DigitsDenote(n: nat)
    ensures Digits(n) != "" && AllDigits(Digits(n)) && Value(Digits(n)) == n
  {
    if n < 10 {
      assert Digits(n)[..0] == "";
    } else {
      DigitsDenote(n / 10);
      assert Digits(n)[..|Digits(n)| - 1] == Digits(n / 10);
    }
  }

  lemma {:induction false} FixedDenotes(n: nat, w: nat)
    ensures |Fixed(n, w)| == w && AllDigits(Fixed(n, w)) && Value(Fixed(n, w)) == n % Ten(w)
    decreases w
  {
    if w == 0 {
      assert n % 1 == 0;
    } else {
      FixedDenotes(n / 10, w - 1);
      assert Fixed(n, w)[..w - 1] == Fixed(n / 10, w - 1);
      SplitLastDigit(n, Ten(w - 1));
    }
  }

  lemma SplitLastDigit(n: nat, p: int)
    requires p > 0
    ensures n % (10 * p) == n / 10 % p * 10 + n % 10 && n / (10 * p) == n / 10 / p
  {
    DivModFacts(n / 10, p);
    assert n == 10 * p * (n / 10 / p) + (n / 10 % p * 10 + n % 10);
    DivModUnique(n, 10 * p, n / 10 / p, n / 10 % p * 10 + n % 10);
  }

  lemma ShiftIn(a: int, p: int, b: int, c: int)
    ensures (a * p + b) * 10 + c == a * (10 * p) + (b * 10 + c)
  {
  }

  lemma {:induction false} ValueConcat(s: string, t: string)
    requires AllDigits(s) && AllDigits(t)
    ensures AllDigits(s + t) && Value(s + t) == Value(s) * Ten(|t|) + Value(t)
    decreases |t|
  {
    if t == "" {
      assert s + t == s;
    } else {
      var front, last := t[..|t| - 1], (t[|t| - 1] - '0') as nat;
      ValueConcat(s, front);
      assert (s + t)[..|s + t| - 1] == s + front;
      ShiftIn(Value(s), Ten(|front|), Value(front), last);
    }
  }

  lemma {:induction false} ZerosDenote(w: nat)
    ensures AllDigits(Zeros(w)) && Value(Zeros(w)) == 0
  {
    if w > 0 {
      ZerosDenote(w - 1);
      assert Zeros(w)[..w - 1] == Zeros(w - 1);
    }
  }

  lemma {:induction false} TenAdd(m: nat, n: nat)
    ensures Ten(m) * Ten(n) == Ten(m + n)
  {
    if m > 0 {
      TenAdd(m - 1, n);
      assert 10 * Ten(m - 1) * Ten(n) == 10 * (Ten(m - 1) * Ten(n));
    }
  }

  lemma OneIsTen()
    ensures Ten(PRECISION) == ONE
  {
    assert Ten(3) == 10 * Ten(2) && Ten(2) == 10 * Ten(1) && Ten(1) == 10 * Ten(0);
    TenAdd(3, 3);
    TenAdd(6, 6);
    TenAdd(12, 6);
  }

  // Splitting the digits of a number

  /** The number without its last w digits. */
  function Drop(n: nat, w: nat): nat
    decreases w
  {
    if w == 0 then n else Drop(n / 10, w - 1)
  }

  lemma {:induction false} DropDivides(n: nat, w: nat)
    ensures Drop(n, w) == n / Ten(w)
    decreases w
  {
    if w > 0 {
      DropDivides(n / 10, w - 1);
      SplitLastDigit(n, Ten(w - 1));
    }
  }

  /** A number with more than w digits: the leading ones, then the last w. */
  lemma {:induction false} DigitsSplit(n: nat, w: nat)
    requires Drop(n, w) > 0
    ensures Digits(n) == Digits(Drop(n, w)) + Fixed(n, w)
    decreases w
  {
    if w == 0 {
      assert Digits(n) + "" == Digits(n);
    } else {
      DropZero(w - 1);
      DigitsSplit(n / 10, w - 1);
    }
  }

  lemma {:induction false} DropZero(w: nat)
    ensures Drop(0, w) == 0
  {
    if w > 0 {
      DropZero(w - 1);
    }
  }

  lemma {:induction false} FixedZero(w: nat)
    ensures Fixed(0, w) == Zeros(w)
  {
    if w > 0 {
      FixedZero(w - 1);
    }
  }

  /** A number with at most w digits, padded with zeros. */
  lemma {:induction false} DigitsPadded(n: nat, w: nat)
    requires w > 0 && Drop(n, w) == 0
    ensures |Digits(n)| <= w && Fixed(n, w) == Zeros(w - |Digits(n)|) + Digits(n)
    decreases w
  {
    if n < 10 {
      FixedZero(w - 1);
    } else {
      DigitsPadded(n / 10, w - 1);
    }
  }

  lemma AddTens(n: nat, q: nat)
    ensures (n + 10 * q) / 10 == n / 10 + q && (n + 10 * q) % 10 == n % 10
  {
  }

  /** Only the last w digits count. */
  lemma {:induction false} FixedMod(n: nat, w: nat, k: nat)
    ensures Fixed(n + k * Ten(w), w) == Fixed(n, w)
    decreases w
  {
    if w > 0 {
      var q := k * Ten(w - 1);
      assert k * Ten(w) == 10 * q;
      AddTens(n, q);
      FixedMod(n / 10, w - 1, k);
    }
  }

  // Printing

  function Unsigned(n: nat): string {
    Digits(n / ONE) + "." + Fixed(n % ONE, PRECISION)
  }

  function Sign(neg: bool): string {
    if neg then "-" else ""
  }

  /** A decimal as text: the sign, the whole part, and all 18 decimal places. */
  function Text(d: int): string {
    Sign(d < 0) + Unsigned(Abs(d))
  }

  lemma LastPlaces(n: nat)
    ensures Fixed(n % ONE, PRECISION) == Fixed(n, PRECISION) && Drop(n, PRECISION) == n / ONE
  {
    hide Fixed, Drop, Ten;
    OneIsTen();
    DropDivides(n, PRECISION);
    FixedMod(n % ONE, PRECISION, n / ONE);
  }

  /** The digits of a number without a whole part, after "0." and padding. */
  lemma FractionOnly(n: nat)
    requires |Digits(n)| <= PRECISION
    ensures Unsigned(n) == "0." + Zeros(PRECISION - |Digits(n)|) + Digits(n)
  {
    hide Digits, Drop, Fixed, Zeros;
    LastPlaces(n);
    if Drop(n, PRECISION) > 0 {
      DigitsSplit(n, PRECISION);
      DigitsDenote(Drop(n, PRECISION));
      FixedDenotes(n, PRECISION);
    } else {
      DigitsPadded(n, PRECISION);
      assert Digits(0) == "0" by { DigitsOfZero(); }
    }
  }

  lemma DigitsOfZero()
    ensures Digits(0) == "0"
  {
  }

  /** The digits of a larger number, with a point in front of the last 18. */
  lemma WithWholePart(n: nat)
    requires |Digits(n)| > PRECISION
    ensures var place := |Digits(n)| - PRECISION;
            Unsigned(n) == Digits(n)[..place] + "." + Digits(n)[place..]
  {
    hide Digits, Drop, Fixed, Zeros;
    LastPlaces(n);
    if Drop(n, PRECISION) == 0 {
      DigitsPadded(n, PRECISION);
    } else {
      DigitsSplit(n, PRECISION);
      FixedDenotes(n, PRECISION);
    }
  }

  /** Go's copy into a buffer at an offset. */
  method Copy(dst: array<char>, at: nat, src: string)
    requires at + |src| <= dst.Length
    modifies dst
    ensures dst[..] == old(dst[..at]) + src + old(dst[at + |src|..])
  {
    for i := 0 to |src|
      invariant forall j :: 0 <= j < at || at + i <= j < dst.Length ==> dst[j] == old(dst[j])
      invariant forall j :: 0 <= j < i ==> dst[at + j] == src[j]
    {
      dst[at + i] := src[i];
    }
    assert forall j :: at <= j < at + |src| ==> dst[j] == src[j - at];
  }

  /** Case 1 of String: a buffer with "0.", zeros, and the digits. */
  method PurelyDecimal(digits: string) returns (s: string)
    requires |digits| <= PRECISION
    ensures s == "0." + Zeros(PRECISION - |digits|) + digits
  {
    var bz := new char[PRECISION + 2];
    bz[0], bz[1] := '0', '.';
    var place := 2 + (PRECISION - |digits|);
    for i := 2 to place
      invariant bz[..2] == "0." && forall j :: 2 <= j < i ==> bz[j] == '0'
    {
      bz[i] := '0';
    }
    assert bz[..place] == "0." + Zeros(PRECISION - |digits|);
    Copy(bz, place, digits);
    s := bz[..];
  }

  /** Case 2 of String: a buffer with a point put in front of the last 18 digits. */
  method WithPoint(digits: string) returns (s: string)
    requires |digits| > PRECISION
    ensures var place := |digits| - PRECISION; s == digits[..place] + "." + digits[place..]
  {
    var place := |digits| - PRECISION;
    var bz := new char[|digits| + 1];
    Copy(bz, 0, digits[..place]);
    assert bz[..place] == digits[..place];
    bz[place] := '.';
    assert bz[..place + 1] == digits[..place] + ".";
    Copy(bz, place + 1, digits[place..]);
    s := bz[..];
  }

  method String(d: int) returns (s: string)
    ensures s == Text(d)
  {
    hide Digits, Fixed, Unsigned, Zeros;
    var isNeg := d < 0;
    var n := if isNeg then -d else d;
    var bzInt := Digits(n);
    if |bzInt| <= PRECISION {
      s := PurelyDecimal(bzInt);
      FractionOnly(n);
    } else {
      s := WithPoint(bzInt);
      WithWholePart(n);
    }
    s := Sign(isNeg) + s;
  }

  // Parsing

  datatype Parse = Parsed(d: int) | EmptyStr | InvalidLength | InvalidStr | TooPrecise | NotANumber

  /** strings.Split at every point. */
  function Split(s: string): (parts: seq<string>)
    ensures parts != []
  {
    if s == "" then [""]
    else
      var rest := Split(s[1..]);
      if s[0] == '.' then [""] + rest else [[s[0]] + rest[0]] + rest[1..]
  }

  /** big.Int's SetString in base 10: an optional sign, then one digit or more. */
  function SetString(s: string): Option<int> {
    if s != "" && (s[0] == '-' || s[0] == '+') then
      if s[1..] != "" && AllDigits(s[1..]) then
        var n: int := Value(s[1..]);
        Some(if s[0] == '-' then -n else n)
      else None
    else
      if s != "" && AllDigits(s) then Some(Value(s)) else None
  }

  function NewDecFromStr(str: string): Parse {
    if str == "" then EmptyStr
    else if str[0] == '-' then Unparsed(true, str[1..])
    else Unparsed(false, str)
  }

  /** The text after the sign. */
  function Unparsed(neg: bool, str: string): Parse {
    if str == "" then EmptyStr
    else
      var strs := Split(str);
      if |strs| > 2 then InvalidStr
      else if |strs| == 2 && (strs[0] == "" || strs[1] == "") then InvalidLength
      else
        var lenDecs := if |strs| == 2 then |strs[1]| else 0;
        var combined := if |strs| == 2 then strs[0] + strs[1] else strs[0];
        if lenDecs > PRECISION then TooPrecise
        else
          match SetString(combined + Zeros(PRECISION - lenDecs))
          case None => NotANumber
          case Some(n) => Parsed(if neg then -n else n)
  }

  // Which texts are read

  /** Where the first point stands; the length if there is none. */
  function PointAt(s: string): (p: nat)
    ensures p <= |s| && (p < |s| ==> s[p] == '.')
    ensures forall i :: 0 <= i < p ==> s[i] != '.'
  {
    if s == "" || s[0] == '.' then 0 else 1 + PointAt(s[1..])
  }

  predicate HasPoint(s: string) {
    PointAt(s) < |s|
  }

  lemma {:induction false} SplitAtFirst(s: string)
    ensures Split(s) == if HasPoint(s) then [s[..PointAt(s)]] + Split(s[PointAt(s) + 1..]) else [s]
  {
    if s != "" {
      var p := PointAt(s);
      if s[0] == '.' {
        assert s[..p] == "";
      } else {
        SplitAtFirst(s[1..]);
        assert [s[0]] + s[1..] == s && [s[0]] + s[1..][..p - 1] == s[..p];
        assert p < |s| ==> s[1..][p..] == s[p + 1..];
      }
    }
  }

  function AfterMinus(str: string): string {
    if str != "" && str[0] == '-' then str[1..] else str
  }

  /** What stands in front of the first point, and behind it. */
  function Front(s: string): string {
    s[..PointAt(s)]
  }

  function Fraction(s: string): string {
    if HasPoint(s) then s[PointAt(s) + 1..] else ""
  }

  predicate IsSign(c: char) {
    c == '-' || c == '+'
  }

  /** A text without the sign that big.Int takes. */
  function Unsign(s: string): string {
    if s != "" && IsSign(s[0]) then s[1..] else s
  }

  /** The text without its point is digits, after at most one sign. */
  predicate SignedDigits(s: string) {
    AllDigits(Unsign(Front(s) + Fraction(s)))
  }

  /** At most one point, with something on both sides of it and at most 18 characters behind it, and
      nothing else but digits after at most one sign. */
  predicate Readable(s: string) {
    && s != "" && !HasPoint(Fraction(s)) && |Fraction(s)| <= PRECISION
    && (HasPoint(s) ==> Front(s) != "" && Fraction(s) != "")
    && SignedDigits(s)
  }

  /** The number that such a text denotes. */
  function Denoted(s: string): int
    requires s != "" && SignedDigits(s) && |Fraction(s)| <= PRECISION
  {
    var n: int := Value(Unsign(Front(s) + Fraction(s))) * Ten(PRECISION - |Fraction(s)|);
    if s[0] == '-' then -n else n
  }

  /** Zeros at the end change neither whether a text is a number nor its sign, and shift its value. */
  lemma ZerosShift(s: string, k: nat)
    requires s != "" && (k > 0 || |s| > 1 || !IsSign(s[0]))
    ensures SetString(s + Zeros(k)) ==
            if !AllDigits(Unsign(s)) then None
            else
              var n: int := Value(Unsign(s)) * Ten(k);
              Some(if s[0] == '-' then -n else n)
  {
    hide Value, Ten;
    var digits, t := Unsign(s), s + Zeros(k);
    assert Unsign(t) == digits + Zeros(k);
    ZerosDenote(k);
    if AllDigits(digits) {
      ValueConcat(digits, Zeros(k));
    } else {
      var i :| 0 <= i < |digits| && !IsDigit(digits[i]);
      assert !IsDigit(Unsign(t)[i]);
    }
  }

  /** What NewDecFromStr does with every text. */
  lemma EveryText(str: string)
    ensures var s := AfterMinus(str);
            NewDecFromStr(str) ==
            if s == "" then EmptyStr
            else if HasPoint(Fraction(s)) then InvalidStr
            else if HasPoint(s) && (Front(s) == "" || Fraction(s) == "") then InvalidLength
            else if |Fraction(s)| > PRECISION then TooPrecise
            else if !SignedDigits(s) then NotANumber
            else Parsed(if str[0] == '-' then -Denoted(s) else Denoted(s))
  {
    var s := AfterMinus(str);
    SplitAtFirst(s);
    SplitAtFirst(Fraction(s));
    hide Value, Zeros, Ten, SetString, Split, PointAt, AllDigits;
    if s != "" && !HasPoint(Fraction(s)) && |Fraction(s)| <= PRECISION
       && (HasPoint(s) ==> Front(s) != "" && Fraction(s) != "")
    {
      var combined := Front(s) + Fraction(s);
      assert !HasPoint(s) ==> combined == s;
      assert combined[0] == s[0];
      ZerosShift(combined, PRECISION - |Fraction(s)|);
    }
  }

  /** A text is accepted exactly if what follows one optional minus is readable, and then it is read as the
      number it denotes. */
  lemma AcceptedTexts(str: string)
    ensures NewDecFromStr(str).Parsed? <==> Readable(AfterMinus(str))
    ensures Readable(AfterMinus(str)) ==>
              var d := Denoted(AfterMinus(str)); NewDecFromStr(str) == Parsed(if str[0] == '-' then -d else d)
  {
    hide NewDecFromStr, AfterMinus, Front, Fraction, HasPoint, SignedDigits, Denoted;
    EveryText(str);
  }

  /** The documented form: digits, and if there is a point, 1 to 18 digits behind it; all after one
      optional minus. */
  predicate Documented(str: string) {
    var s := AfterMinus(str);
    && Front(s) != "" && AllDigits(Front(s))
    && (HasPoint(s) ==> 1 <= |Fraction(s)| <= PRECISION && AllDigits(Fraction(s)))
  }

  /** The documented texts are exactly the accepted ones that have a digit, and so no second sign, behind
      the optional minus. */
  lemma DocumentedTexts(str: string)
    ensures Documented(str) <==>
              NewDecFromStr(str).Parsed? && var s := AfterMinus(str); s != "" && IsDigit(s[0])
  {
    var s := AfterMinus(str);
    assert Front(s) != "" ==> s != "" && Front(s)[0] == s[0];
    assert s != "" && IsDigit(s[0]) ==> Front(s) != "";
    assert AllDigits(Fraction(s)) ==> !HasPoint(Fraction(s));
    DigitsOfBoth(Front(s), Fraction(s));
    hide NewDecFromStr, AfterMinus, AllDigits, PointAt;
    AcceptedTexts(str);
  }

  lemma DigitsOfBoth(a: string, b: string)
    ensures AllDigits(a + b) <==> AllDigits(a) && AllDigits(b)
  {
    assert forall i :: 0 <= i < |a| ==> (a + b)[i] == a[i];
    assert forall i :: 0 <= i < |b| ==> (a + b)[|a| + i] == b[i];
    forall i | 0 <= i < |a + b|
      ensures AllDigits(a) && AllDigits(b) ==> IsDigit((a + b)[i])
    {
      assert (a + b)[i] == if i < |a| then a[i] else b[i - |a|];
    }
  }

  /** Behind the sign that NewDecFromStr takes off, big.Int takes another: two minus signs are read as a
      positive number, even without any digit. */
  lemma DoubleMinus(w: string)
    requires AllDigits(w)
    ensures NewDecFromStr("--" + w) == Parsed(Value(w) * ONE) && !Documented("--" + w)
  {
    hide AfterMinus, Denoted, Documented, NewDecFromStr, Readable, Ten, Value;
    SecondSign(w);
    SignedDenotes(w);
    AcceptedTexts("--" + w);
    DocumentedTexts("--" + w);
    OneIsTen();
  }

  lemma SecondSign(w: string)
    ensures var str := "--" + w; AfterMinus(str) == "-" + w && str[0] == '-'
  {
    assert ("--" + w)[1..] == "-" + w;
  }

  lemma SignedDenotes(w: string)
    requires AllDigits(w)
    ensures var s := "-" + w; Readable(s) && Denoted(s) == -(Value(w) * Ten(PRECISION))
  {
    hide Value, Ten;
    var s := "-" + w;
    assert s[1..] == w && !HasPoint(s) && Front(s) + Fraction(s) == s;
  }

  // Numbers that are printed are read

  lemma PointBehind(w: string, f: string)
    requires w != "" && AllDigits(w) && AllDigits(f)
    ensures var s := w + "." + f;
            s != "" && IsDigit(s[0]) && HasPoint(s) && Front(s) == w && Fraction(s) == f && !HasPoint(f)
  {
    var s := w + "." + f;
    assert s[|w|] == '.' && forall i :: 0 <= i < |w| ==> s[i] == w[i];
    assert PointAt(s) == |w|;
  }

  lemma SignTaken(neg: bool, s: string)
    requires s != "" && IsDigit(s[0])
    ensures var str := Sign(neg) + s; AfterMinus(str) == s && (str[0] == '-' <==> neg)
  {
    var str := Sign(neg) + s;
    assert if neg then str[1..] == s else str == s;
  }

  /** A text that starts with a digit and has only digits besides a proper point is readable. */
  lemma PlainDigits(s: string)
    requires s != "" && IsDigit(s[0]) && !HasPoint(Fraction(s)) && |Fraction(s)| <= PRECISION
    requires HasPoint(s) ==> Fraction(s) != ""
    requires AllDigits(Front(s) + Fraction(s))
    ensures Readable(s) && Denoted(s) == Value(Front(s) + Fraction(s)) * Ten(PRECISION - |Fraction(s)|)
  {
    hide AllDigits, Value, Ten;
    assert Front(s) != "" && (Front(s) + Fraction(s))[0] == s[0];
  }

  lemma ReadsPlain(neg: bool, s: string)
    requires s != "" && IsDigit(s[0]) && !HasPoint(Fraction(s)) && |Fraction(s)| <= PRECISION
    requires HasPoint(s) ==> Fraction(s) != ""
    requires AllDigits(Front(s) + Fraction(s))
    ensures var n: int := Value(Front(s) + Fraction(s)) * Ten(PRECISION - |Fraction(s)|);
            NewDecFromStr(Sign(neg) + s) == Parsed(if neg then -n else n)
  {
    hide AfterMinus, AllDigits, Denoted, Fraction, Front, HasPoint, NewDecFromStr, Readable, Sign, Ten, Value;
    SignTaken(neg, s);
    PlainDigits(s);
    AcceptedTexts(Sign(neg) + s);
  }

  /** Every number written with a point and at most 18 decimal places is read exactly. */
  lemma ReadsFraction(neg: bool, w: string, f: string)
    requires w != "" && f != "" && AllDigits(w) && AllDigits(f) && |f| <= PRECISION
    ensures var n := Value(w) * ONE + Value(f) * Ten(PRECISION - |f|);
            NewDecFromStr(Sign(neg) + (w + "." + f)) == Parsed(if neg then -n else n)
  {
    hide AllDigits, Fraction, Front, HasPoint, IsDigit, NewDecFromStr, Sign, Ten, Value;
    PointBehind(w, f);
    FractionValue(w, f);
    ReadsPlain(neg, w + "." + f);
  }

  lemma FractionValue(w: string, f: string)
    requires AllDigits(w) && AllDigits(f) && |f| <= PRECISION
    ensures AllDigits(w + f)
    ensures Value(w + f) * Ten(PRECISION - |f|) == Value(w) * ONE + Value(f) * Ten(PRECISION - |f|)
  {
    hide Value, Ten;
    ValueConcat(w, f);
    TenAdd(|f|, PRECISION - |f|);
    OneIsTen();
    Scale(Value(w), Ten(|f|), Value(f), Ten(PRECISION - |f|));
  }

  lemma Scale(w: int, p: int, f: int, q: int)
    ensures (w * p + f) * q == w * (p * q) + f * q
  {
  }

  /** Every whole number is read exactly. */
  lemma ReadsWhole(neg: bool, w: string)
    requires w != "" && AllDigits(w)
    ensures var n := Value(w) * ONE; NewDecFromStr(Sign(neg) + w) == Parsed(if neg then -n else n)
  {
    assert IsDigit(w[0]) && Front(w) == w && Fraction(w) == "" && w + "" == w;
    hide AllDigits, Fraction, Front, NewDecFromStr, Sign, Ten, Value;
    ReadsPlain(neg, w);
    OneIsTen();
  }

  /** What String prints, NewDecFromStr reads back, for every decimal. */
  lemma RoundTrip(d: int)
    ensures NewDecFromStr(Text(d)) == Parsed(d)
  {
    hide Value, Digits, Fixed, NewDecFromStr, Sign;
    var n := Abs(d);
    DigitsDenote(n / ONE);
    FixedDenotes(n % ONE, PRECISION);
    OneIsTen();
    ReadsFraction(d < 0, Digits(n / ONE), Fixed(n % ONE, PRECISION));
    assert Ten(0) == 1;
  }

  lemma ZerosLength(w: nat)
    ensures |Zeros(w)| == w
  {
  }
}
