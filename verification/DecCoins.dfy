/** types/dec_coin.go: what decimal coin sets do beyond coin sets. An amount is a scaled decimal. */
module DecCoins {
  import opened Basics
  import opened ByteOrder
  import opened Decimal
  import opened CoinSpec
  import opened Coins

  /** What is kept are coins of the set. */
  lemma {:induction false} NonZeroIsPart(s: seq<Coin>)
    ensures forall i :: 0 <= i < |NonZero(s)| ==> NonZero(s)[i] in s && NonZero(s)[i].amount != 0
  {
    if s != [] {
      NonZeroIsPart(s[1..]);
    }
  }

  ghost predicate NonNegative(s: seq<Coin>) {
    forall i :: 0 <= i < |s| ==> s[i].amount >= 0
  }

  lemma PartKeeps(s: seq<Coin>)
    ensures NonNegative(s) ==> Positive(NonZero(s))
    ensures ValidDenoms(s) ==> ValidDenoms(NonZero(s))
  {
    hide Less, NonZero, ValidDenom;
    NonZeroIsPart(s);
  }

  /** Dropping the zeros of a sorted set of non-negative amounts leaves a canonical set. */
  lemma NonZeroCanonical(s: seq<Coin>)
    requires Sorted(s) && ValidDenoms(s) && NonNegative(s)
    ensures Canonical(NonZero(s)) && NoZero(NonZero(s))
    ensures forall d :: AmountIn(NonZero(s), d) == AmountIn(s, d)
  {
    hide NonZero, NonNegative, Sorted, ValidDenoms;
    forall d: Bytes
      ensures AmountIn(NonZero(s), d) == AmountIn(s, d)
    {
      NonZeroKeeps(s, [], d);
    }
    NonZeroKeeps(s, [], []);
    PartKeeps(s);
  }

  // TruncateDecimal

  function Whole(x: int): int {
    x / ONE
  }

  function Rest(x: int): int {
    x % ONE
  }

  function Same(x: int): int {
    x
  }

  /** A function of the amounts of a denom, added up over all coins. */
  ghost function TotalOf(s: seq<Coin>, f: int -> int, d: Bytes): int {
    if s == [] then 0
    else
      var last := s[|s| - 1];
      TotalOf(s[..|s| - 1], f, d) + if last.denom == d then f(last.amount) else 0
  }

  /** One decimal coin: the whole part as a coin, which panics above 255 bits, and the rest. */
  function TruncateCoin(c: Coin): Result<(Coin, Coin)> {
    var truncated := Truncate(c.amount);
    if !Within(truncated, IntBound()) then Panic
    else if !Fits(c.amount - truncated * ONE) then Panic
    else if !ValidDenom(c.denom) || truncated < 0 || c.amount - truncated * ONE < 0 then Panic
    else Ok((Coin(c.denom, truncated), Coin(c.denom, c.amount - truncated * ONE)))
  }

  /** No coin can be split whose denom is invalid or whose amount is negative. */
  predicate Faulty(c: Coin) {
    !ValidDenom(c.denom) || c.amount < 0
  }

  lemma TruncateCoinSplits(c: Coin)
    ensures TruncateCoin(c) == if Faulty(c) || Whole(c.amount) >= IntBound() then Panic
                               else Ok((Coin(c.denom, Whole(c.amount)), Coin(c.denom, Rest(c.amount))))
  {
    hide ValidDenom;
  }

  /** A valid set whose amounts are within the bound. */
  ghost predicate Holds(s: seq<Coin>, bound: int) {
    Canonical(s) && AllWithin(s, bound)
  }

  lemma OneCoin(c: Coin, d: Bytes)
    ensures AmountIn([c], d) == if d == c.denom then c.amount else 0
  {
    assert [c][1..] == [];
  }

  /** The coins of a sum have denoms of the summands. */
  lemma {:induction false} SumDenoms(a: seq<Coin>, b: seq<Coin>)
    requires ValidDenoms(a) && ValidDenoms(b)
    ensures ValidDenoms(Sum(a, b))
    decreases |a| + |b|
  {
    hide ValidDenom, Less;
    PartKeeps(a);
    PartKeeps(b);
    if a != [] && b != [] {
      SumDenoms(a[1..], b);
      SumDenoms(a[1..], b[1..]);
      SumDenoms(a, b[1..]);
    }
  }

  /** A sum that does not overflow holds within the bound. */
  lemma SumHolds(s: seq<Coin>, c: Coin, bound: int)
    requires Holds(s, bound) && ValidDenom(c.denom) && c.amount > 0 && Within(c.amount, bound)
    requires Within(AmountIn(s, c.denom) + c.amount, bound)
    ensures Holds(Sum(s, [c]), bound)
  {
    hide ValidDenom, Sum, Sorted;
    var t := Sum(s, [c]);
    assert Sorted([c]) by { Single(c); }
    SumDenoms(s, [c]);
    SumAdds(s, [c], [], []);
    forall i | 0 <= i < |t|
      ensures 0 < t[i].amount && Within(t[i].amount, bound)
    {
      var d := t[i].denom;
      AmountAt(t, i);
      SumAdds(s, [c], [], d);
      OneCoin(c, d);
      NoNegativeAmount(s, d);
      AmountWithin(s, d, bound);
    }
  }

  lemma Single(c: Coin)
    ensures Sorted([c])
  {
  }

  /** One more coin overflows exactly if the amount of its denom does. */
  lemma OneMoreOverflows(s: seq<Coin>, c: Coin, bound: int)
    requires AllWithin(s, bound) && bound > 0
    ensures Overflows(s, [c], bound) <==> !Within(AmountIn(s, c.denom) + c.amount, bound)
  {
    hide AllWithin;
    forall d: Bytes
      ensures Both(s, [c], d) == AmountIn(s, d) + if d == c.denom then c.amount else 0
      ensures d != c.denom ==> Within(Both(s, [c], d), bound)
    {
      OneCoin(c, d);
      AmountWithin(s, d, bound);
    }
    assert Overflows(s, [c], bound) <==> !Within(Both(s, [c], c.denom), bound);
  }

  /** Adds a coin unless it is zero, as the loops over decimal coins do. */
  method AddUnlessZero(s: seq<Coin>, c: Coin, bound: int) returns (r: Result<seq<Coin>>)
    ensures r == if c.amount == 0 then Ok(s) else CheckedSum(s, [c], bound)
    ensures Holds(s, bound) && ValidDenom(c.denom) && 0 <= c.amount < bound ==>
              && (r.Panic? <==> AmountIn(s, c.denom) + c.amount >= bound)
              && (r.Ok? ==>
                    && Holds(r.value, bound)
                    && forall d :: AmountIn(r.value, d) == AmountIn(s, d) + if d == c.denom then c.amount else 0)
  {
    hide CheckedSum, AmountIn, ValidDenom, Holds;
    if Holds(s, bound) && ValidDenom(c.denom) && 0 <= c.amount < bound {
      OneMore(s, c, bound);
    }
    if c.amount == 0 {
      return Ok(s);
    }
    r := Add(s, [c], bound);
  }

  lemma OneMore(s: seq<Coin>, c: Coin, bound: int)
    requires Holds(s, bound) && ValidDenom(c.denom) && 0 <= c.amount < bound
    ensures Within(AmountIn(s, c.denom), bound) && AmountIn(s, c.denom) >= 0
    ensures c.amount > 0 ==>
              && Summable(s, [c], bound)
              && (CheckedSum(s, [c], bound).Panic? <==> AmountIn(s, c.denom) + c.amount >= bound)
    ensures c.amount > 0 && AmountIn(s, c.denom) + c.amount < bound ==>
              && CheckedSum(s, [c], bound) == Ok(Sum(s, [c])) && Holds(Sum(s, [c]), bound)
              && forall d :: AmountIn(Sum(s, [c]), d) == AmountIn(s, d) + if d == c.denom then c.amount else 0
  {
    hide CheckedSum, Sum, Sorted, ValidDenom, Overflows;
    NoNegativeAmount(s, c.denom);
    AmountWithin(s, c.denom, bound);
    if c.amount > 0 {
      assert Sorted([c]) by { Single(c); }
      CheckedSumMeaning(s, [c], bound);
      OneMoreOverflows(s, c, bound);
      if AmountIn(s, c.denom) + c.amount < bound {
        SumHolds(s, c, bound);
        forall d: Bytes
          ensures AmountIn(Sum(s, [c]), d) == AmountIn(s, d) + if d == c.denom then c.amount else 0
        {
          SumAdds(s, [c], [], d);
          OneCoin(c, d);
        }
      }
    }
  }

  /** A coin is faulty, or the whole parts or the rests of some denom add up to too much. */
  ghost predicate Unsplittable(s: seq<Coin>) {
    || (exists i :: 0 <= i < |s| && Faulty(s[i]))
    || (exists d :: TotalOf(s, Whole, d) >= IntBound())
    || (exists d :: TotalOf(s, Rest, d) >= Bound())
  }

  /** What TruncateDecimal has built from the first n coins. */
  ghost predicate SplitSoFar(s: seq<Coin>, n: nat, truncated: seq<Coin>, change: seq<Coin>)
    requires n <= |s|
  {
    && Holds(truncated, IntBound()) && Holds(change, Bound())
    && forall d ::
         AmountIn(truncated, d) == TotalOf(s[..n], Whole, d) && AmountIn(change, d) == TotalOf(s[..n], Rest, d)
  }

  lemma TotalGrows(s: seq<Coin>, n: nat, f: int -> int, d: Bytes)
    requires n < |s|
    ensures TotalOf(s[..n + 1], f, d) ==
            TotalOf(s[..n], f, d) + if d == s[n].denom then f(s[n].amount) else 0
  {
    assert s[..n + 1][..n] == s[..n];
  }

  lemma {:induction false} TotalGrowsTo(s: seq<Coin>, n: nat, d: Bytes)
    requires n <= |s| && forall i :: 0 <= i < |s| ==> !Faulty(s[i])
    ensures TotalOf(s[..n], Whole, d) <= TotalOf(s, Whole, d) && TotalOf(s[..n], Rest, d) <= TotalOf(s, Rest, d)
    ensures TotalOf(s, Whole, d) >= 0 && TotalOf(s, Rest, d) >= 0
  {
    hide ValidDenom, IntBound;
    if n == |s| {
      assert s[..n] == s;
      if s != [] {
        TotalGrowsTo(s[..|s| - 1], 0, d);
      }
    } else {
      assert s[..|s| - 1][..n] == s[..n];
      TotalGrowsTo(s[..|s| - 1], n, d);
    }
  }

  /** What is split so far can only grow, unless a faulty coin follows. */
  lemma FailsEarly(s: seq<Coin>, n: nat)
    requires n < |s|
    requires var d := s[n].denom;
             || Faulty(s[n])
             || TotalOf(s[..n + 1], Whole, d) >= IntBound() || TotalOf(s[..n + 1], Rest, d) >= Bound()
    ensures Unsplittable(s)
  {
    hide TotalOf, Faulty, IntBound, Bound;
    if forall i :: 0 <= i < |s| ==> !Faulty(s[i]) {
      TotalGrowsTo(s, n + 1, s[n].denom);
    }
  }

  /** In a sorted set every denom occurs once. */
  lemma {:induction false} TotalSorted(s: seq<Coin>, f: int -> int, d: Bytes)
    requires Sorted(s) && f(0) == 0
    ensures TotalOf(s, f, d) == f(AmountIn(s, d))
  {
    if s != [] {
      var front, last := s[..|s| - 1], s[|s| - 1];
      assert s == front + [last];
      TotalSorted(front, f, d);
      if last.denom == d {
        AmountAt(s, |s| - 1);
        forall i | 0 <= i < |front|
          ensures front[i].denom != d
        {
          CompareFlips(s[i].denom, last.denom);
        }
        AmountNowhere(front, d);
      } else {
        AmountFront(front, [last], d);
      }
    }
  }

  /** Nothing is lost. */
  lemma {:induction false} SplitIsComplete(s: seq<Coin>, d: Bytes)
    ensures TotalOf(s, Same, d) == TotalOf(s, Whole, d) * ONE + TotalOf(s, Rest, d)
  {
    if s != [] {
      SplitIsComplete(s[..|s| - 1], d);
    }
  }

  /** A sorted set can be split exactly if every coin can. */
  lemma SortedUnsplittable(s: seq<Coin>)
    requires Sorted(s)
    ensures Unsplittable(s) <==>
            exists i :: 0 <= i < |s| && (Faulty(s[i]) || Whole(s[i].amount) >= IntBound())
  {
    assert ONE < Bound();
    hide TotalOf, Faulty, Sorted, IntBound, Bound;
    forall d: Bytes
      ensures TotalOf(s, Whole, d) == Whole(AmountIn(s, d)) && TotalOf(s, Rest, d) == Rest(AmountIn(s, d))
    {
      TotalSorted(s, Whole, d);
      TotalSorted(s, Rest, d);
    }
    assert forall d :: TotalOf(s, Rest, d) < ONE;
    forall i | 0 <= i < |s|
      ensures AmountIn(s, s[i].denom) == s[i].amount
    {
      AmountAt(s, i);
    }
    if d :| TotalOf(s, Whole, d) >= IntBound() {
      if forall i :: 0 <= i < |s| ==> s[i].denom != d {
        AmountNowhere(s, d);
      }
    }
  }

  /** Splits decimal coins into whole coins and change, losing nothing. It panics exactly if a coin is faulty
      or the parts of some denom add up to too much. The change of a sorted set is below one. */
  method TruncateDecimal(s: seq<Coin>) returns (r: Result<(seq<Coin>, seq<Coin>)>)
    ensures r.Panic? <==> Unsplittable(s)
    ensures r.Ok? ==>
              var (truncated, change) := r.value;
              && Canonical(truncated) && Canonical(change)
              && forall d :: TotalOf(s, Same, d) == AmountIn(truncated, d) * ONE + AmountIn(change, d)
    ensures r.Ok? && Sorted(s) ==>
              var (truncated, change) := r.value;
              && AllWithin(change, ONE)
              && forall d :: AmountIn(s, d) == AmountIn(truncated, d) * ONE + AmountIn(change, d)
  {
    hide Faulty, TotalOf, AmountIn, Unsplittable, Holds, IntBound, Bound, Sorted, AllWithin, ValidDenom;
    var truncated: seq<Coin>, change: seq<Coin> := [], [];
    assert SplitSoFar(s, 0, [], []) by { NothingSplit(s); }
    for n := 0 to |s|
      invariant SplitSoFar(s, n, truncated, change)
      invariant forall i :: 0 <= i < n ==> !Faulty(s[i])
    {
      TruncateCoinSplits(s[n]);
      var split := TruncateCoin(s[n]);
      if split.Panic? {
        FailsAtOnce(s, n, truncated, change);
        return Panic;
      }
      SplitGrows(s, n, truncated, change);
      var whole := AddUnlessZero(truncated, split.value.0, IntBound());
      if whole.Panic? {
        return Panic;
      }
      var rest := AddUnlessZero(change, split.value.1, Bound());
      if rest.Panic? {
        return Panic;
      }
      truncated, change := whole.value, rest.value;
    }
    assert s[..|s|] == s;
    SplitMeans(s, truncated, change);
    r := Ok((truncated, change));
  }

  lemma NothingSplit(s: seq<Coin>)
    ensures SplitSoFar(s, 0, [], [])
  {
  }

  /** A coin that cannot be split. */
  lemma FailsAtOnce(s: seq<Coin>, n: nat, truncated: seq<Coin>, change: seq<Coin>)
    requires n < |s| && SplitSoFar(s, n, truncated, change)
    requires Faulty(s[n]) || Whole(s[n].amount) >= IntBound()
    ensures Unsplittable(s)
  {
    hide TotalOf, Faulty, IntBound, Bound, Unsplittable;
    TotalGrows(s, n, Whole, s[n].denom);
    NoNegativeAmount(truncated, s[n].denom);
    FailsEarly(s, n);
  }

  /** What one more coin does to the totals, and when it is too much. */
  lemma SplitGrows(s: seq<Coin>, n: nat, truncated: seq<Coin>, change: seq<Coin>)
    requires n < |s| && SplitSoFar(s, n, truncated, change) && !Faulty(s[n])
    ensures ValidDenom(s[n].denom) && 0 <= Whole(s[n].amount) && 0 <= Rest(s[n].amount) < Bound()
    ensures forall d :: TotalOf(s[..n + 1], Whole, d) ==
                        AmountIn(truncated, d) + if d == s[n].denom then Whole(s[n].amount) else 0
    ensures forall d :: TotalOf(s[..n + 1], Rest, d) ==
                        AmountIn(change, d) + if d == s[n].denom then Rest(s[n].amount) else 0
    ensures AmountIn(truncated, s[n].denom) + Whole(s[n].amount) >= IntBound() ==> Unsplittable(s)
    ensures AmountIn(change, s[n].denom) + Rest(s[n].amount) >= Bound() ==> Unsplittable(s)
  {
    assert ONE < Bound();
    hide TotalOf, IntBound, Bound, Unsplittable, ValidDenom, Holds, AmountIn;
    forall d: Bytes
      ensures TotalOf(s[..n + 1], Whole, d) ==
              AmountIn(truncated, d) + if d == s[n].denom then Whole(s[n].amount) else 0
      ensures TotalOf(s[..n + 1], Rest, d) ==
              AmountIn(change, d) + if d == s[n].denom then Rest(s[n].amount) else 0
    {
      TotalGrows(s, n, Whole, d);
      TotalGrows(s, n, Rest, d);
    }
    var d := s[n].denom;
    if TotalOf(s[..n + 1], Whole, d) >= IntBound() || TotalOf(s[..n + 1], Rest, d) >= Bound() {
      FailsEarly(s, n);
    }
  }

  /** What has been built from all coins. */
  lemma SplitMeans(s: seq<Coin>, truncated: seq<Coin>, change: seq<Coin>)
    requires SplitSoFar(s, |s|, truncated, change) && forall i :: 0 <= i < |s| ==> !Faulty(s[i])
    ensures !Unsplittable(s) && Canonical(truncated) && Canonical(change)
    ensures forall d :: TotalOf(s, Same, d) == AmountIn(truncated, d) * ONE + AmountIn(change, d)
    ensures Sorted(s) ==>
              && AllWithin(change, ONE)
              && forall d :: AmountIn(s, d) == AmountIn(truncated, d) * ONE + AmountIn(change, d)
  {
    assert s[..|s|] == s;
    hide TotalOf, Faulty, IntBound, Bound, Sorted, ValidDenom, AmountIn;
    forall d: Bytes
      ensures TotalOf(s, Whole, d) < IntBound() && TotalOf(s, Rest, d) < Bound()
      ensures TotalOf(s, Same, d) == AmountIn(truncated, d) * ONE + AmountIn(change, d)
    {
      AmountWithin(truncated, d, IntBound());
      AmountWithin(change, d, Bound());
      SplitIsComplete(s, d);
    }
    if Sorted(s) {
      SortedSplit(s, truncated, change);
    }
  }

  lemma SortedSplit(s: seq<Coin>, truncated: seq<Coin>, change: seq<Coin>)
    requires Sorted(s) && Canonical(change)
    requires forall d :: AmountIn(change, d) == TotalOf(s, Rest, d)
    requires forall d :: TotalOf(s, Same, d) == AmountIn(truncated, d) * ONE + AmountIn(change, d)
    ensures AllWithin(change, ONE)
    ensures forall d :: AmountIn(s, d) == AmountIn(truncated, d) * ONE + AmountIn(change, d)
  {
    hide TotalOf, Sorted, ValidDenoms, AmountIn;
    forall d: Bytes
      ensures AmountIn(s, d) == AmountIn(truncated, d) * ONE + AmountIn(change, d)
    {
      TotalSorted(s, Same, d);
    }
    forall i | 0 <= i < |change|
      ensures change[i].amount < ONE
    {
      AmountAt(change, i);
      TotalSorted(s, Rest, change[i].denom);
    }
  }

  // Intersect

  function Min(x: int, y: int): int {
    if x < y then x else y
  }

  /** Each coin of a with the smaller of both amounts. */
  function Smaller(a: seq<Coin>, b: seq<Coin>): seq<Coin> {
    seq(|a|, i requires 0 <= i < |a| => Coin(a[i].denom, Min(a[i].amount, AmountIn(b, a[i].denom))))
  }

  lemma {:induction false} SmallerAmount(a: seq<Coin>, b: seq<Coin>, d: Bytes)
    requires Positive(b)
    ensures AmountIn(a, d) != 0 ==> AmountIn(Smaller(a, b), d) == Min(AmountIn(a, d), AmountIn(b, d))
    ensures (forall i :: 0 <= i < |a| ==> a[i].denom != d) ==> AmountIn(Smaller(a, b), d) == 0
  {
    if a != [] {
      SmallerAmount(a[1..], b, d);
      assert Smaller(a, b)[1..] == Smaller(a[1..], b);
    }
  }

  /** The set with the smaller amount of every denom. */
  lemma IntersectionIsMinimum(a: seq<Coin>, b: seq<Coin>)
    requires Canonical(a) && Canonical(b)
    ensures Canonical(NonZero(Smaller(a, b)))
    ensures forall d :: AmountIn(NonZero(Smaller(a, b)), d) == Min(AmountIn(a, d), AmountIn(b, d))
  {
    forall i | 0 <= i < |a|
      ensures Smaller(a, b)[i].amount >= 0
    {
      NoNegativeAmount(b, a[i].denom);
    }
    assert Sorted(Smaller(a, b)) && ValidDenoms(Smaller(a, b));
    hide Sorted, NonZero, ValidDenoms, Smaller;
    NonZeroCanonical(Smaller(a, b));
    forall d: Bytes
      ensures AmountIn(NonZero(Smaller(a, b)), d) == Min(AmountIn(a, d), AmountIn(b, d))
    {
      NoNegativeAmount(b, d);
      SmallerAmount(a, b, d);
      OccursIffNonZero(a, d);
    }
  }

  /** Each coin with the smaller of both amounts, without the zeros. On valid sets that is the set with the smaller
      amount of every denom. */
  method Intersect(a: seq<Coin>, b: seq<Coin>) returns (r: Result<seq<Coin>>)
    ensures Canonical(a) && Canonical(b) ==>
              && r.Ok? && Canonical(r.value)
              && forall d :: AmountIn(r.value, d) == Min(AmountIn(a, d), AmountIn(b, d))
    ensures Sorted(b) && ValidDenoms(a) ==> r == Ok(NonZero(Smaller(a, b)))
    ensures r.Panic? <==> !ValidDenoms(a)
  {
    hide AmountOf, NonZero, Sorted, ValidDenom;
    var res := new Coin[|a|](i requires 0 <= i < |a| => a[i]);
    for i := 0 to |a|
      invariant Sorted(b) && ValidDenoms(a) ==> forall j :: 0 <= j < i ==> res[j] == Smaller(a, b)[j]
      invariant forall j :: 0 <= j < i ==> ValidDenom(a[j].denom)
    {
      var amount := AmountOf(b, a[i].denom);
      AmountOfInvalid(b, a[i].denom);
      if Sorted(b) && ValidDenoms(a) {
        AmountOfIsLinear(b, a[i].denom);
      }
      if amount.Panic? {
        return Panic;
      }
      res[i] := Coin(a[i].denom, Min(a[i].amount, amount.value));
    }
    assert Sorted(b) && ValidDenoms(a) ==> res[0..] == Smaller(a, b);
    if Canonical(a) && Canonical(b) {
      IntersectionIsMinimum(a, b);
    }
    var n := RemoveZeroCoins(res, 0);
    r := Ok(res[0..n]);
  }
}
