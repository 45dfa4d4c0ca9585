/** types/coin.go: coin sets. The methods that types/dec_coin.go repeats for decimal coins are the same up
    to the bound on amounts, which is a parameter here. */
module Coins {
  import opened Basics
  import opened ByteOrder
  import opened CoinSpec

  /** 2^255: an Int has at most 255 bits. */
  function IntBound(): (b: int)
    ensures b > 0
  {
    0x80000000_00000000_00000000_00000000_00000000_00000000_00000000_00000000
  }

  predicate Lower(b: Byte) {
    97 <= b <= 122
  }

  /** A letter and 2 to 63 letters, digits and slashes, all lower case. */
  predicate ValidDenom(d: Bytes) {
    && 3 <= |d| <= 64 && Lower(d[0])
    && forall i :: 1 <= i < |d| ==> Lower(d[i]) || 48 <= d[i] <= 57 || d[i] == 47
  }

  ghost predicate ValidDenoms(s: seq<Coin>) {
    forall i :: 0 <= i < |s| ==> ValidDenom(s[i].denom)
  }

  /** Sorted, positive, every denom valid. */
  ghost predicate Canonical(s: seq<Coin>) {
    Sorted(s) && Positive(s) && ValidDenoms(s)
  }

  // Lookup

  /** AmountOf, a binary search; an invalid denom panics. */
  function AmountOf(s: seq<Coin>, denom: Bytes): Result<int> {
    if !ValidDenom(denom) then Panic
    else if s == [] then Ok(0)
    else if |s| == 1 then Ok(if s[0].denom == denom then s[0].amount else 0)
    else
      var mid := |s| / 2;
      if Less(denom, s[mid].denom) then AmountOf(s[..mid], denom)
      else if denom == s[mid].denom then Ok(s[mid].amount)
      else AmountOf(s[mid + 1..], denom)
  }

  lemma {:induction false} AmountConcat(s: seq<Coin>, t: seq<Coin>, d: Bytes)
    requires forall i :: 0 <= i < |s| ==> s[i].denom != d
    ensures AmountIn(s + t, d) == AmountIn(t, d)
  {
    if s == [] {
      assert s + t == t;
    } else {
      AmountConcat(s[1..], t, d);
      assert (s + t)[1..] == s[1..] + t;
    }
  }

  lemma {:induction false} AmountFront(s: seq<Coin>, t: seq<Coin>, d: Bytes)
    requires forall i :: 0 <= i < |t| ==> t[i].denom != d
    ensures AmountIn(s + t, d) == AmountIn(s, d)
  {
    if s == [] {
      assert s + t == t;
      AmountNowhere(t, d);
    } else {
      AmountFront(s[1..], t, d);
      assert (s + t)[1..] == s[1..] + t;
    }
  }

  /** An invalid denom panics, whatever the set. */
  lemma AmountOfInvalid(s: seq<Coin>, denom: Bytes)
    ensures AmountOf(s, denom).Panic? ==> !ValidDenom(denom)
    ensures !ValidDenom(denom) ==> AmountOf(s, denom) == Panic
  {
    hide ValidDenom, Less;
    if ValidDenom(denom) {
      AmountOfReturns(s, denom);
    }
  }

  lemma {:induction false} AmountOfReturns(s: seq<Coin>, denom: Bytes)
    requires ValidDenom(denom)
    ensures AmountOf(s, denom).Ok?
    decreases |s|
  {
    hide ValidDenom, Less;
    if |s| > 1 {
      var mid := |s| / 2;
      AmountOfReturns(s[..mid], denom);
      AmountOfReturns(s[mid + 1..], denom);
    }
  }

  /** On sorted sets the binary search finds what a linear search finds. */
  lemma {:induction false} AmountOfIsLinear(s: seq<Coin>, denom: Bytes)
    requires Sorted(s) && ValidDenom(denom)
    ensures AmountOf(s, denom) == Ok(AmountIn(s, denom))
    decreases |s|
  {
    if |s| > 1 {
      var mid := |s| / 2;
      assert s == s[..mid] + s[mid..];
      assert s == s[..mid + 1] + s[mid + 1..];
      hide ValidDenom;
      CompareFlips(denom, s[mid].denom);
      if Less(denom, s[mid].denom) {
        forall i | mid <= i < |s|
          ensures s[i].denom != denom
        {
          NotEqualAbove(denom, s, mid, i);
        }
        AmountOfIsLinear(s[..mid], denom);
        AmountFront(s[..mid], s[mid..], denom);
      } else if denom != s[mid].denom {
        forall i | 0 <= i <= mid
          ensures s[i].denom != denom
        {
          NotEqualBelow(denom, s, mid, i);
        }
        AmountOfIsLinear(s[mid + 1..], denom);
        AmountConcat(s[..mid + 1], s[mid + 1..], denom);
      } else {
        AmountAt(s, mid);
      }
    }
  }

  lemma NotEqualAbove(denom: Bytes, s: seq<Coin>, mid: nat, i: nat)
    requires Sorted(s) && mid <= i < |s| && Less(denom, s[mid].denom)
    ensures s[i].denom != denom
  {
    if mid < i {
      LessTransitive(denom, s[mid].denom, s[i].denom);
    }
    CompareFlips(denom, s[i].denom);
  }

  lemma NotEqualBelow(denom: Bytes, s: seq<Coin>, mid: nat, i: nat)
    requires Sorted(s) && i <= mid < |s| && Less(s[mid].denom, denom)
    ensures s[i].denom != denom
  {
    if i < mid {
      LessTransitive(s[i].denom, s[mid].denom, denom);
    }
    CompareFlips(denom, s[i].denom);
  }

  // Addition

  /** Go's append(coins[:i], coins[i+1:]...) on the first l elements: everything after i moves one place down. */
  method RemoveAt(a: array<Coin>, i: nat, l: nat)
    requires i < l <= a.Length
    modifies a
    ensures a[..i] == old(a[..i]) && a[i..l - 1] == old(a[i + 1..l])
  {
    for j := i to l - 1
      invariant forall k :: 0 <= k < i ==> a[k] == old(a[k])
      invariant forall k :: i <= k < j ==> a[k] == old(a[k + 1])
      invariant forall k :: j <= k < l ==> a[k] == old(a[k])
    {
      a[j] := a[j + 1];
    }
  }

  lemma NonZeroStep(s: seq<Coin>)
    requires s != []
    ensures NonZero(s) == if s[0].amount == 0 then NonZero(s[1..]) else [s[0]] + NonZero(s[1..])
  {
  }

  /** Removes the zeros of a[from..] in place: what is left is a[from..n]. */
  method RemoveZeroCoins(a: array<Coin>, from: nat) returns (n: nat)
    requires from <= a.Length
    modifies a
    ensures from <= n <= a.Length && a[from..n] == NonZero(old(a[from..])) && a[..from] == old(a[..from])
    ensures NoZero(old(a[from..])) ==> a[..] == old(a[..])
  {
    hide NonZero;
    ghost var before := a[from..];
    var l := a.Length;
    n := from;
    assert a[from..n] == [] && a[n..l] == before;
    while n < l
      invariant from <= n <= l <= a.Length && a[..from] == old(a[..from])
      invariant a[from..n] + NonZero(a[n..l]) == NonZero(before)
      invariant NoZero(before) ==> l == a.Length && a[..] == old(a[..])
      decreases l - n
    {
      NonZeroStep(a[n..l]);
      assert a[n..l][1..] == a[n + 1..l];
      assert NoZero(before) ==> a[n] == before[n - from];
      if a[n].amount == 0 {
        RemoveOne(a, from, n, l);
        l := l - 1;
      } else {
        assert a[from..n + 1] == a[from..n] + [a[n]];
        n := n + 1;
      }
    }
    assert NonZero(a[n..l]) == [] by { NothingLeft(a[n..l]); }
  }

  lemma NothingLeft(s: seq<Coin>)
    requires s == []
    ensures NonZero(s) == []
  {
  }

  method RemoveOne(a: array<Coin>, from: nat, n: nat, l: nat)
    requires from <= n < l <= a.Length
    modifies a
    ensures a[..from] == old(a[..from]) && a[from..n] == old(a[from..n]) && a[n..l - 1] == old(a[n + 1..l])
  {
    RemoveAt(a, n, l);
    assert a[..from] == a[..n][..from] && a[from..n] == a[..n][from..];
  }

  lemma PrependTwice(x: seq<Coin>, y: seq<Coin>, r: Result<seq<Coin>>)
    ensures Prepend(x, Prepend(y, r)) == Prepend(x + y, r)
  {
    if r.Ok? {
      assert x + (y + r.value) == x + y + r.value;
    }
  }

  lemma PrependNothing(r: Result<seq<Coin>>)
    ensures Prepend([], r) == r
  {
    if r.Ok? {
      assert [] + r.value == r.value;
    }
  }

  /** One round of the merge. */
  lemma CheckedStep(a: seq<Coin>, b: seq<Coin>, bound: int)
    requires a != [] && b != []
    ensures CheckedSum(a, b, bound) ==
            if Less(a[0].denom, b[0].denom) then Prepend(Keep(a[0]), CheckedSum(a[1..], b, bound))
            else if a[0].denom == b[0].denom then
              if !Within(a[0].amount + b[0].amount, bound) then Panic
              else Prepend(Keep(Coin(a[0].denom, a[0].amount + b[0].amount)), CheckedSum(a[1..], b[1..], bound))
            else Prepend(Keep(b[0]), CheckedSum(a, b[1..], bound))
  {
  }

  lemma CheckedEnd(a: seq<Coin>, b: seq<Coin>, bound: int)
    ensures a == [] ==> CheckedSum(a, b, bound) == Ok(NonZero(b))
    ensures b == [] ==> CheckedSum(a, b, bound) == Ok(NonZero(a))
  {
  }

  /** The merge loop of safeAdd. */
  method MergeAdd(a: array<Coin>, b: array<Coin>, bound: int) returns (r: Result<seq<Coin>>)
    modifies a, b
    ensures r == CheckedSum(old(a[..]), old(b[..]), bound)
    ensures NoZero(old(a[..])) ==> a[..] == old(a[..])
    ensures NoZero(old(b[..])) ==> b[..] == old(b[..])
  {
    hide CheckedSum, Less, NonZero;
    ghost var s, t := a[..], b[..];
    var sum: seq<Coin> := [];
    var i, j := 0, 0;
    assert Prepend(sum, CheckedSum(s[i..], t[j..], bound)) == CheckedSum(s, t, bound) by {
      assert s[0..] == s && t[0..] == t;
      PrependNothing(CheckedSum(s, t, bound));
    }
    while i < a.Length && j < b.Length
      invariant 0 <= i <= |s| && 0 <= j <= |t| && a[..] == s && b[..] == t
      invariant Prepend(sum, CheckedSum(s[i..], t[j..], bound)) == CheckedSum(s, t, bound)
      decreases a.Length - i + b.Length - j
    {
      var coinA, coinB := a[i], b[j];
      CheckedStep(s[i..], t[j..], bound);
      assert s[i..][1..] == s[i + 1..] && t[j..][1..] == t[j + 1..];
      var next;
      if Less(coinA.denom, coinB.denom) {
        next := coinA;
        i := i + 1;
      } else if coinA.denom == coinB.denom {
        if !Within(coinA.amount + coinB.amount, bound) {
          return Panic;
        }
        next := Coin(coinA.denom, coinA.amount + coinB.amount);
        i, j := i + 1, j + 1;
      } else {
        next := coinB;
        j := j + 1;
      }
      PrependTwice(sum, Keep(next), CheckedSum(s[i..], t[j..], bound));
      sum := sum + Keep(next);
    }
    CheckedEnd(s[i..], t[j..], bound);
    if i == a.Length {
      if j == b.Length {
        assert NonZero(t[j..]) == [] by { NothingLeft(t[j..]); }
        assert sum + [] == sum;
        return Ok(sum);
      }
      var n := RemoveZeroCoins(b, j);
      assert b[j..n] == NonZero(t[j..]);
      r := Ok(sum + b[j..n]);
    } else {
      var n := RemoveZeroCoins(a, i);
      assert a[i..n] == NonZero(s[i..]);
      r := Ok(sum + a[i..n]);
    }
  }

  /** Sorted sets of amounts within the bound. */
  ghost predicate Summable(a: seq<Coin>, b: seq<Coin>, bound: int) {
    bound > 0 && Sorted(a) && Sorted(b) && AllWithin(a, bound) && AllWithin(b, bound)
  }

  /** safeAdd is the checked merge. Of sorted sets that is the sum of both amounts of every denom, sorted and
      without zeros, and a panic exactly if some sum overflows. A set without zeros is left as it was. */
  method SafeAdd(a: array<Coin>, b: array<Coin>, bound: int) returns (r: Result<seq<Coin>>)
    modifies a, b
    ensures r == CheckedSum(old(a[..]), old(b[..]), bound)
    ensures Summable(old(a[..]), old(b[..]), bound) ==>
              r == if Overflows(old(a[..]), old(b[..]), bound) then Panic else Ok(Sum(old(a[..]), old(b[..])))
    ensures NoZero(old(a[..])) ==> a[..] == old(a[..])
    ensures NoZero(old(b[..])) ==> b[..] == old(b[..])
  {
    hide CheckedSum, Overflows, Sorted, AllWithin, NoZero, Sum;
    if Summable(a[..], b[..], bound) {
      CheckedSumMeaning(a[..], b[..], bound);
    }
    r := MergeAdd(a, b, bound);
  }

  method ToArray(s: seq<Coin>) returns (a: array<Coin>)
    ensures fresh(a) && a[..] == s
  {
    a := new Coin[|s|](i requires 0 <= i < |s| => s[i]);
  }

  /** Add, whose variadic arguments are a new slice. */
  method Add(a: seq<Coin>, b: seq<Coin>, bound: int) returns (r: Result<seq<Coin>>)
    ensures r == CheckedSum(a, b, bound)
    ensures Summable(a, b, bound) ==> r == if Overflows(a, b, bound) then Panic else Ok(Sum(a, b))
  {
    hide CheckedSum, Overflows, Summable, NoZero, Sum;
    var x := ToArray(a);
    var y := ToArray(b);
    r := SafeAdd(x, y, bound);
  }

  // Subtraction and comparison

  method Negative(s: seq<Coin>) returns (res: seq<Coin>)
    ensures res == Negated(s)
  {
    res := [];
    for i := 0 to |s|
      invariant res == Negated(s[..i])
    {
      assert s[..i + 1] == s[..i] + [s[i]];
      res := res + [Coin(s[i].denom, -s[i].amount)];
    }
    assert s[..|s|] == s;
  }

  method IsAnyNegative(s: seq<Coin>) returns (b: bool)
    ensures b <==> exists i :: 0 <= i < |s| && s[i].amount < 0
  {
    for i := 0 to |s|
      invariant forall j :: 0 <= j < i ==> s[j].amount >= 0
    {
      if s[i].amount < 0 {
        return true;
      }
    }
    b := false;
  }

  /** a holds at least the amount of b in every denom. */
  ghost predicate Covers(a: seq<Coin>, b: seq<Coin>) {
    forall d :: AmountIn(a, d) >= AmountIn(b, d)
  }

  lemma {:induction false} NoNegativeAmount(s: seq<Coin>, d: Bytes)
    requires Positive(s)
    ensures AmountIn(s, d) >= 0
  {
    if s != [] {
      NoNegativeAmount(s[1..], d);
    }
  }

  /** Covering is decided by the coins of b. */
  lemma CoversByCoins(a: seq<Coin>, b: seq<Coin>)
    requires Positive(a) && Sorted(b)
    ensures Covers(a, b) <==> forall i :: 0 <= i < |b| ==> AmountIn(a, b[i].denom) >= b[i].amount
  {
    hide Sorted;
    forall i | 0 <= i < |b|
      ensures AmountIn(b, b[i].denom) == b[i].amount
    {
      AmountAt(b, i);
    }
    if forall i :: 0 <= i < |b| ==> AmountIn(a, b[i].denom) >= b[i].amount {
      forall d: Bytes
        ensures AmountIn(a, d) >= AmountIn(b, d)
      {
        NoNegativeAmount(a, d);
        if forall i :: 0 <= i < |b| ==> b[i].denom != d {
          AmountNowhere(b, d);
        }
      }
    }
  }

  /** The amount of every coin of b is reached. */
  ghost predicate Reaches(a: seq<Coin>, b: seq<Coin>) {
    forall i :: 0 <= i < |b| ==> AmountIn(a, b[i].denom) >= b[i].amount
  }

  /** Looks up the coins of b one by one. Nothing has to be covered in an empty b, and an empty a covers no coin at
      all, not even a zero one. On valid sets this is covering in every denom. */
  method IsAllGTE(a: seq<Coin>, b: seq<Coin>) returns (r: Result<bool>)
    ensures Canonical(a) && Canonical(b) ==> r == Ok(Covers(a, b))
    ensures Sorted(a) && ValidDenoms(b) ==> r == Ok(b == [] || (a != [] && Reaches(a, b)))
    ensures r.Panic? ==> !ValidDenoms(b)
  {
    hide AmountOf, Covers, Sorted, ValidDenom;
    if Canonical(a) && Canonical(b) {
      CoversByCoins(a, b);
    }
    if b == [] {
      return Ok(true);
    }
    if a == [] {
      assert AmountIn(a, b[0].denom) == 0;
      return Ok(false);
    }
    for i := 0 to |b|
      invariant Sorted(a) && ValidDenoms(b) ==> forall j :: 0 <= j < i ==> AmountIn(a, b[j].denom) >= b[j].amount
    {
      var amount := AmountOf(a, b[i].denom);
      AmountOfInvalid(a, b[i].denom);
      if Sorted(a) && ValidDenoms(b) {
        AmountOfIsLinear(a, b[i].denom);
      }
      if amount.Panic? {
        return Panic;
      }
      if b[i].amount > amount.value {
        return Ok(false);
      }
    }
    r := Ok(true);
  }

  lemma NegatedKeeps(s: seq<Coin>, bound: int)
    ensures Sorted(s) ==> Sorted(Negated(s))
    ensures AllWithin(s, bound) ==> AllWithin(Negated(s), bound)
  {
  }

  /** Differences of positive amounts do not overflow. */
  lemma DifferencesFit(a: seq<Coin>, b: seq<Coin>, bound: int)
    requires Positive(a) && Positive(b) && AllWithin(a, bound) && AllWithin(b, bound) && bound > 0
    ensures !Overflows(a, Negated(b), bound)
  {
    forall d: Bytes
      ensures Within(Both(a, Negated(b), d), bound)
    {
      NegatedAmount(b, d);
      NoNegativeAmount(a, d);
      NoNegativeAmount(b, d);
      AmountWithin(a, d, bound);
      AmountWithin(b, d, bound);
    }
  }

  /** The difference has a negative coin exactly if a does not cover b. */
  lemma NegativeMeansUncovered(a: seq<Coin>, b: seq<Coin>)
    requires Sorted(a) && Sorted(b)
    ensures var diff := Sum(a, Negated(b));
            Covers(a, b) <==> forall i :: 0 <= i < |diff| ==> diff[i].amount >= 0
  {
    hide Sum, Sorted, Negated;
    var diff := Sum(a, Negated(b));
    NegatedKeeps(b, 0);
    SumAdds(a, Negated(b), [], []);
    forall d: Bytes
      ensures AmountIn(diff, d) == AmountIn(a, d) - AmountIn(b, d)
    {
      SumAdds(a, Negated(b), [], d);
      NegatedAmount(b, d);
    }
    forall i | 0 <= i < |diff|
      ensures AmountIn(diff, diff[i].denom) == diff[i].amount
    {
      AmountAt(diff, i);
    }
    if forall i :: 0 <= i < |diff| ==> diff[i].amount >= 0 {
      forall d: Bytes
        ensures AmountIn(diff, d) >= 0
      {
        if forall i :: 0 <= i < |diff| ==> diff[i].denom != d {
          AmountNowhere(diff, d);
        }
      }
    }
  }

  lemma NegatedSummable(a: seq<Coin>, b: seq<Coin>, bound: int)
    requires Summable(a, b, bound)
    ensures Summable(a, Negated(b), bound)
  {
    hide Sorted, AllWithin;
    NegatedKeeps(b, bound);
  }

  /** SafeSub of sorted sets panics exactly if some difference overflows, which no difference of positive
      amounts does, and reports a negative amount exactly if b is not covered. */
  method SafeSub(a: array<Coin>, b: seq<Coin>, bound: int) returns (r: Result<(seq<Coin>, bool)>)
    modifies a
    ensures r.Panic? <==> CheckedSum(old(a[..]), Negated(b), bound).Panic?
    ensures r.Ok? ==>
              && CheckedSum(old(a[..]), Negated(b), bound) == Ok(r.value.0)
              && (r.value.1 <==> exists i :: 0 <= i < |r.value.0| && r.value.0[i].amount < 0)
    ensures Summable(old(a[..]), b, bound) ==>
              r == if Overflows(old(a[..]), Negated(b), bound) then Panic
                   else Ok((Sum(old(a[..]), Negated(b)), !Covers(old(a[..]), b)))
    ensures Summable(old(a[..]), b, bound) && Positive(old(a[..])) && Positive(b) ==> r.Ok?
    ensures NoZero(old(a[..])) ==> a[..] == old(a[..])
  {
    hide CheckedSum, Covers, Overflows, Summable, Sum, Negated, NoZero;
    ghost var s := a[..];
    if Summable(s, b, bound) {
      NegatedSummable(s, b, bound);
      UncoveredSummable(s, b, bound);
    }
    var negative := Negative(b);
    var n := ToArray(negative);
    var diff := SafeAdd(a, n, bound);
    if diff.Panic? {
      return Panic;
    }
    var hasNeg := IsAnyNegative(diff.value);
    r := Ok((diff.value, hasNeg));
  }

  lemma UncoveredSummable(a: seq<Coin>, b: seq<Coin>, bound: int)
    requires Summable(a, b, bound)
    ensures var diff := Sum(a, Negated(b));
            Covers(a, b) <==> forall i :: 0 <= i < |diff| ==> diff[i].amount >= 0
    ensures Positive(a) && Positive(b) ==> !Overflows(a, Negated(b), bound)
  {
    hide Covers, Overflows, Sorted, AllWithin, Sum, Negated;
    NegativeMeansUncovered(a, b);
    if Positive(a) && Positive(b) {
      DifferencesFit(a, b, bound);
    }
  }

  ghost function Denoms(s: seq<Coin>): set<Bytes> {
    set i | 0 <= i < |s| :: s[i].denom
  }

  lemma {:induction false} DenomsCount(s: seq<Coin>)
    requires Sorted(s)
    ensures |Denoms(s)| == |s|
  {
    if s != [] {
      TailSorted(s);
      DenomsCount(s[1..]);
      var d := s[0].denom;
      forall i | 0 <= i < |s[1..]|
        ensures s[1..][i].denom != d
      {
        CompareFlips(d, s[1..][i].denom);
      }
      assert forall i :: 0 < i < |s| ==> s[i] == s[1..][i - 1];
      assert Denoms(s) == {d} + Denoms(s[1..]);
    } else {
      assert Denoms(s) == {};
    }
  }

  /** In a valid set a denom occurs exactly if its amount is not zero. */
  lemma OccursIffNonZero(s: seq<Coin>, d: Bytes)
    requires Sorted(s) && Positive(s)
    ensures d in Denoms(s) <==> AmountIn(s, d) != 0
  {
    if d in Denoms(s) {
      var i :| 0 <= i < |s| && s[i].denom == d;
      AmountAt(s, i);
    } else {
      AmountNowhere(s, d);
    }
  }

  lemma SubsetIsNoLonger(a: seq<Coin>, b: seq<Coin>)
    requires Sorted(a) && Sorted(b) && Denoms(a) <= Denoms(b)
    ensures |a| <= |b|
  {
    DenomsCount(a);
    DenomsCount(b);
    SubsetCardinality(Denoms(a), Denoms(b));
  }

  lemma {:induction false} SubsetCardinality(x: set<Bytes>, y: set<Bytes>)
    requires x <= y
    ensures |x| <= |y|
  {
    if x != {} {
      var e :| e in x;
      SubsetCardinality(x - {e}, y - {e});
    }
  }

  /** Every denom of a has an amount in b that is not zero, and a is not longer. */
  ghost predicate Occurring(a: seq<Coin>, b: seq<Coin>) {
    |a| <= |b| && forall i :: 0 <= i < |a| ==> AmountIn(b, a[i].denom) != 0
  }

  lemma OccurringIsSubset(a: seq<Coin>, b: seq<Coin>)
    requires Sorted(a) && Sorted(b) && Positive(b)
    ensures Occurring(a, b) <==> Denoms(a) <= Denoms(b)
  {
    hide Denoms, Sorted, AmountIn;
    forall i | 0 <= i < |a|
      ensures a[i].denom in Denoms(b) <==> AmountIn(b, a[i].denom) != 0
      ensures a[i].denom in Denoms(a)
    {
      OccursIffNonZero(b, a[i].denom);
      Occurs(a, i);
    }
    if Denoms(a) <= Denoms(b) {
      SubsetIsNoLonger(a, b);
    }
    if Occurring(a, b) {
      AllOccur(a, b);
    }
  }

  method DenomsSubsetOf(a: seq<Coin>, b: seq<Coin>) returns (r: Result<bool>)
    ensures Canonical(a) && Canonical(b) ==> r == Ok(Denoms(a) <= Denoms(b))
    ensures Sorted(b) && ValidDenoms(a) ==> r == Ok(Occurring(a, b))
    ensures r.Panic? ==> !ValidDenoms(a)
  {
    hide AmountOf, Denoms, Sorted, ValidDenom;
    if Canonical(a) && Canonical(b) {
      OccurringIsSubset(a, b);
    }
    if |a| > |b| {
      return Ok(false);
    }
    for i := 0 to |a|
      invariant Sorted(b) && ValidDenoms(a) ==> forall j :: 0 <= j < i ==> AmountIn(b, a[j].denom) != 0
    {
      var amount := AmountOf(b, a[i].denom);
      AmountOfInvalid(b, a[i].denom);
      if Sorted(b) && ValidDenoms(a) {
        AmountOfIsLinear(b, a[i].denom);
      }
      if amount.Panic? {
        return Panic;
      }
      if amount.value == 0 {
        return Ok(false);
      }
    }
    r := Ok(true);
  }

  lemma Occurs(s: seq<Coin>, i: nat)
    requires i < |s|
    ensures s[i].denom in Denoms(s)
  {
  }

  lemma AllOccur(a: seq<Coin>, b: seq<Coin>)
    requires forall j :: 0 <= j < |a| ==> a[j].denom in Denoms(b)
    ensures Denoms(a) <= Denoms(b)
  {
    hide Denoms;
    forall d | d in Denoms(a)
      ensures d in Denoms(b)
    {
      OccursSomewhere(a, d);
    }
  }

  lemma OccursSomewhere(s: seq<Coin>, d: Bytes)
    requires d in Denoms(s)
    ensures exists i :: 0 <= i < |s| && s[i].denom == d
  {
  }

  /** a is not empty and exceeds the amount of every coin of b. */
  ghost predicate Exceeds(a: seq<Coin>, b: seq<Coin>) {
    a != [] && forall i :: 0 <= i < |b| ==> AmountIn(a, b[i].denom) > b[i].amount
  }

  /** What exceeds every coin of b has every denom of b. */
  lemma ExceedingHasDenoms(a: seq<Coin>, b: seq<Coin>)
    requires Sorted(a) && Positive(a) && Sorted(b) && Positive(b) && Exceeds(a, b)
    ensures Occurring(b, a)
  {
    hide Denoms, Sorted;
    forall j | 0 <= j < |b|
      ensures b[j].denom in Denoms(a)
    {
      OccursIffNonZero(a, b[j].denom);
    }
    AllOccur(b, a);
    OccurringIsSubset(b, a);
  }

  method IsAllGT(a: seq<Coin>, b: seq<Coin>) returns (r: Result<bool>)
    ensures Canonical(a) && Canonical(b) ==> r == Ok(Exceeds(a, b))
    ensures Sorted(a) && ValidDenoms(b) ==> r == Ok(Exceeds(a, b) && Occurring(b, a))
    ensures r.Panic? ==> !ValidDenoms(b)
  {
    hide AmountOf, Denoms, Sorted, ValidDenom;
    if a == [] {
      return Ok(false);
    }
    if b == [] {
      return Ok(true);
    }
    if Canonical(a) && Canonical(b) && Exceeds(a, b) {
      ExceedingHasDenoms(a, b);
    }
    var subset := DenomsSubsetOf(b, a);
    if subset != Ok(true) {
      return subset;
    }
    for i := 0 to |b|
      invariant Sorted(a) && ValidDenoms(b) ==> forall j :: 0 <= j < i ==> AmountIn(a, b[j].denom) > b[j].amount
    {
      var amount := AmountOf(a, b[i].denom);
      AmountOfInvalid(a, b[i].denom);
      if Sorted(a) && ValidDenoms(b) {
        AmountOfIsLinear(a, b[i].denom);
      }
      if amount.Panic? {
        return Panic;
      }
      if !(amount.value > b[i].amount) {
        return Ok(false);
      }
    }
    r := Ok(true);
  }

  // Validity

  predicate NoUpper(d: Bytes) {
    forall i :: 0 <= i < |d| ==> !(65 <= d[i] <= 90)
  }

  /** Positive, sorted, the first denom valid and the others without capital letters. */
  ghost predicate Accepted(s: seq<Coin>) {
    && Sorted(s) && Positive(s) && (s != [] ==> ValidDenom(s[0].denom))
    && forall i, j :: 1 <= i < |s| && 0 <= j < |s[i].denom| ==> !(65 <= s[i].denom[j] <= 90)
  }

  lemma AcceptedDenoms(s: seq<Coin>)
    ensures (forall i, j :: 1 <= i < |s| && 0 <= j < |s[i].denom| ==> !(65 <= s[i].denom[j] <= 90)) <==>
              forall i :: 1 <= i < |s| ==> NoUpper(s[i].denom)
  {
  }

  /** IsValid accepts every canonical set. What it accepts is canonical exactly if every denom is valid. */
  method IsValid(s: seq<Coin>) returns (b: bool)
    ensures b <==> Accepted(s)
    ensures Canonical(s) ==> b
    ensures b ==> (Canonical(s) <==> ValidDenoms(s))
  {
    AcceptedDenoms(s);
    hide NoUpper, Less, ValidDenom;
    forall i | 0 <= i < |s|
      ensures ValidDenom(s[i].denom) ==> NoUpper(s[i].denom)
    {
      if ValidDenom(s[i].denom) {
        ValidIsLower(s[i].denom);
      }
    }
    if s == [] {
      return true;
    }
    if !ValidDenom(s[0].denom) || !(s[0].amount > 0) {
      return false;
    }
    for i := 1 to |s|
      invariant Positive(s[..i]) && Sorted(s[..i]) && forall j :: 1 <= j < i ==> NoUpper(s[j].denom)
    {
      if !NoUpper(s[i].denom) || !Less(s[i - 1].denom, s[i].denom) || !(s[i].amount > 0) {
        return false;
      }
      SortedSnoc(s, i);
    }
    assert s[..|s|] == s;
    b := true;
  }

  lemma SortedSnoc(s: seq<Coin>, i: nat)
    requires 1 <= i < |s| && Sorted(s[..i]) && Less(s[i - 1].denom, s[i].denom)
    ensures Sorted(s[..i + 1])
  {
    hide Less;
    var t := s[..i + 1];
    forall j, k | 0 <= j < k < |t|
      ensures Less(t[j].denom, t[k].denom)
    {
      if k == i && j < i - 1 {
        assert Less(s[..i][j].denom, s[..i][i - 1].denom);
        LessTransitive(s[j].denom, s[i - 1].denom, s[i].denom);
      } else if k < i {
        assert t[j] == s[..i][j] && t[k] == s[..i][k];
      }
    }
  }

  lemma ValidIsLower(d: Bytes)
    requires ValidDenom(d)
    ensures NoUpper(d)
  {
  }

  /** Beyond the first coin IsValid lets an invalid denom through, here one of a single letter. */
  lemma InvalidDenomAccepted()
    ensures var s := [Coin([97, 97, 97], 1), Coin([98], 1)];
            Accepted(s) && !Canonical(s)
  {
    var s := [Coin([97, 97, 97], 1), Coin([98], 1)];
    assert !ValidDenom(s[1].denom);
  }
}
