/** Coin sets as sorted sequences, and the amounts they stand for (types/coin.go, types/dec_coin.go). The
    amounts of Coins are integers of at most 255 bits, those of DecCoins are scaled decimals. */
module CoinSpec {
  import opened Basics
  import opened ByteOrder

  datatype Coin = Coin(denom: Bytes, amount: int)

  /** Denoms strictly ascend. */
  ghost predicate Sorted(s: seq<Coin>) {
    forall i, j :: 0 <= i < j < |s| ==> Less(s[i].denom, s[j].denom)
  }

  ghost predicate NoZero(s: seq<Coin>) {
    forall i :: 0 <= i < |s| ==> s[i].amount != 0
  }

  ghost predicate Positive(s: seq<Coin>) {
    forall i :: 0 <= i < |s| ==> s[i].amount > 0
  }

  /** The amount of the first coin with the denom, 0 if there is none. */
  function AmountIn(s: seq<Coin>, denom: Bytes): int {
    if s == [] then 0
    else if s[0].denom == denom then s[0].amount
    else AmountIn(s[1..], denom)
  }

  /** Every denom comes after the given one. */
  ghost predicate Above(low: Bytes, s: seq<Coin>) {
    forall i :: 0 <= i < |s| ==> Less(low, s[i].denom)
  }

  lemma {:induction false} AboveHasNone(low: Bytes, s: seq<Coin>)
    requires Above(low, s)
    ensures AmountIn(s, low) == 0
  {
    if s != [] {
      CompareFlips(low, s[0].denom);
      assert s[0].denom != low;
      AboveHasNone(low, s[1..]);
    }
  }

  lemma TailSorted(s: seq<Coin>)
    requires Sorted(s) && s != []
    ensures Sorted(s[1..]) && Above(s[0].denom, s[1..])
  {
  }

  lemma ConsSorted(c: Coin, s: seq<Coin>)
    requires Sorted(s) && Above(c.denom, s)
    ensures Sorted([c] + s)
  {
  }

  lemma AboveTransitive(low: Bytes, c: Coin, s: seq<Coin>)
    requires Less(low, c.denom) && Above(c.denom, s)
    ensures Above(low, s)
  {
    forall i | 0 <= i < |s|
      ensures Less(low, s[i].denom)
    {
      LessTransitive(low, c.denom, s[i].denom);
    }
  }

  /** The coin at an index is the amount of its denom. */
  lemma {:induction false} AmountAt(s: seq<Coin>, i: nat)
    requires Sorted(s) && i < |s|
    ensures AmountIn(s, s[i].denom) == s[i].amount
  {
    if i > 0 {
      CompareFlips(s[0].denom, s[i].denom);
      AmountAt(s[1..], i - 1);
    }
  }

  lemma {:induction false} AmountNowhere(s: seq<Coin>, denom: Bytes)
    requires forall i :: 0 <= i < |s| ==> s[i].denom != denom
    ensures AmountIn(s, denom) == 0
  {
    if s != [] {
      AmountNowhere(s[1..], denom);
    }
  }

  /** Sorted sets without zeros are determined by their amounts. */
  lemma {:induction false} SameAmountsSameCoins(a: seq<Coin>, b: seq<Coin>)
    requires Sorted(a) && Sorted(b) && NoZero(a) && NoZero(b)
    requires forall d :: AmountIn(a, d) == AmountIn(b, d)
    ensures a == b
    decreases |a|
  {
    assert a != [] ==> AmountIn(a, a[0].denom) == AmountIn(b, a[0].denom);
    assert b != [] ==> AmountIn(a, b[0].denom) == AmountIn(b, b[0].denom);
    if a != [] {
      SameHead(a, b);
      forall d: Bytes
        ensures AmountIn(a[1..], d) == AmountIn(b[1..], d)
      {
        AboveHasNone(a[0].denom, a[1..]);
        AboveHasNone(b[0].denom, b[1..]);
        assert AmountIn(a, d) == AmountIn(b, d);
      }
      SameAmountsSameCoins(a[1..], b[1..]);
      assert a == [a[0]] + a[1..] && b == [b[0]] + b[1..];
    }
  }

  lemma SameHead(a: seq<Coin>, b: seq<Coin>)
    requires Sorted(a) && Sorted(b) && NoZero(a) && NoZero(b) && a != [] && b != []
    requires forall d :: AmountIn(a, d) == AmountIn(b, d)
    ensures a[0] == b[0]
  {
    var x, y := a[0].denom, b[0].denom;
    assert AmountIn(a, x) == AmountIn(b, x) && AmountIn(a, y) == AmountIn(b, y);
    CompareFlips(x, y);
    if Less(x, y) {
      AboveTransitive(x, b[0], b[1..]);
      AboveHasNone(x, b[1..]);
    } else if Less(y, x) {
      AboveTransitive(y, a[0], a[1..]);
      AboveHasNone(y, a[1..]);
    }
  }

  // Addition

  function Keep(c: Coin): seq<Coin> {
    if c.amount == 0 then [] else [c]
  }

  function NonZero(s: seq<Coin>): seq<Coin> {
    if s == [] then [] else Keep(s[0]) + NonZero(s[1..])
  }

  /** Two sorted sets merged by denom, amounts of common denoms added, zeros dropped. */
  function Sum(a: seq<Coin>, b: seq<Coin>): seq<Coin>
    decreases |a| + |b|
  {
    if a == [] then NonZero(b)
    else if b == [] then NonZero(a)
    else if Less(a[0].denom, b[0].denom) then Keep(a[0]) + Sum(a[1..], b)
    else if a[0].denom == b[0].denom then Keep(Coin(a[0].denom, a[0].amount + b[0].amount)) + Sum(a[1..], b[1..])
    else Keep(b[0]) + Sum(a, b[1..])
  }

  /** Putting a coin in front of coins above it. */
  lemma KeepInFront(c: Coin, s: seq<Coin>, low: Bytes)
    requires Sorted(s) && NoZero(s) && Above(c.denom, s)
    ensures Sorted(Keep(c) + s) && NoZero(Keep(c) + s)
    ensures Less(low, c.denom) ==> Above(low, Keep(c) + s)
  {
    hide Less, Sorted;
    ConsSorted(c, s);
    if Less(low, c.denom) {
      AboveTransitive(low, c, s);
    }
    assert [] + s == s;
  }

  lemma KeepAmount(c: Coin, s: seq<Coin>, d: Bytes)
    requires Above(c.denom, s)
    ensures AmountIn(Keep(c) + s, d) == if d == c.denom then c.amount else AmountIn(s, d)
  {
    AboveHasNone(c.denom, s);
    if c.amount == 0 {
      assert [] + s == s;
    } else {
      assert ([c] + s)[1..] == s;
    }
  }

  lemma {:induction false} NonZeroKeeps(s: seq<Coin>, low: Bytes, d: Bytes)
    requires Sorted(s)
    ensures Sorted(NonZero(s)) && NoZero(NonZero(s)) && AmountIn(NonZero(s), d) == AmountIn(s, d)
    ensures Above(low, s) ==> Above(low, NonZero(s))
  {
    if s != [] {
      TailSorted(s);
      hide Sorted, Less, Keep;
      NonZeroKeeps(s[1..], s[0].denom, d);
      KeepInFront(s[0], NonZero(s[1..]), low);
      KeepAmount(s[0], NonZero(s[1..]), d);
    }
  }

  /** The merged set is sorted, has no zeros, and holds the sum of both amounts of every denom. */
  lemma {:induction false} SumAdds(a: seq<Coin>, b: seq<Coin>, low: Bytes, d: Bytes)
    requires Sorted(a) && Sorted(b)
    ensures Sorted(Sum(a, b)) && NoZero(Sum(a, b))
    ensures AmountIn(Sum(a, b), d) == AmountIn(a, d) + AmountIn(b, d)
    ensures Above(low, a) && Above(low, b) ==> Above(low, Sum(a, b))
    decreases |a| + |b|
  {
    if a == [] {
      NonZeroKeeps(b, low, d);
    } else if b == [] {
      NonZeroKeeps(a, low, d);
    } else {
      SumStep(a, b, low, d);
    }
  }

  lemma {:induction false} SumStep(a: seq<Coin>, b: seq<Coin>, low: Bytes, d: Bytes)
    requires Sorted(a) && Sorted(b) && a != [] && b != []
    ensures Sorted(Sum(a, b)) && NoZero(Sum(a, b))
    ensures AmountIn(Sum(a, b), d) == AmountIn(a, d) + AmountIn(b, d)
    ensures Above(low, a) && Above(low, b) ==> Above(low, Sum(a, b))
    decreases |a| + |b|, 0
  {
    TailSorted(a);
    TailSorted(b);
    assert Above(low, a) ==> Less(low, a[0].denom);
    assert Above(low, b) ==> Less(low, b[0].denom);
    AboveHasNone(a[0].denom, a[1..]);
    AboveHasNone(b[0].denom, b[1..]);
    CompareFlips(a[0].denom, b[0].denom);
    var x, y := a[0].denom, b[0].denom;
    if Less(x, y) {
      WholeAbove(x, b);
      hide Sorted, Less, Keep, Above;
      SumAdds(a[1..], b, x, d);
      KeepInFront(a[0], Sum(a[1..], b), low);
      KeepAmount(a[0], Sum(a[1..], b), d);
      AboveHasNone(x, b);
    } else if x == y {
      hide Sorted, Less, Keep, Above;
      SumAdds(a[1..], b[1..], x, d);
      var c := Coin(x, a[0].amount + b[0].amount);
      KeepInFront(c, Sum(a[1..], b[1..]), low);
      KeepAmount(c, Sum(a[1..], b[1..]), d);
    } else {
      WholeAbove(y, a);
      hide Sorted, Less, Keep, Above;
      SumAdds(a, b[1..], y, d);
      KeepInFront(b[0], Sum(a, b[1..]), low);
      KeepAmount(b[0], Sum(a, b[1..]), d);
      AboveHasNone(y, a);
    }
  }

  lemma WholeAbove(low: Bytes, s: seq<Coin>)
    requires Sorted(s) && s != [] && Less(low, s[0].denom)
    ensures Above(low, s)
  {
    forall i | 0 <= i < |s|
      ensures Less(low, s[i].denom)
    {
      if i > 0 {
        LessTransitive(low, s[0].denom, s[i].denom);
      }
    }
  }

  lemma SumCommutes(a: seq<Coin>, b: seq<Coin>)
    requires Sorted(a) && Sorted(b)
    ensures Sum(a, b) == Sum(b, a)
  {
    hide Sum, Sorted;
    forall d: Bytes
      ensures AmountIn(Sum(a, b), d) == AmountIn(Sum(b, a), d)
    {
      SumAdds(a, b, [], d);
      SumAdds(b, a, [], d);
    }
    SumAdds(a, b, [], []);
    SumAdds(b, a, [], []);
    SameAmountsSameCoins(Sum(a, b), Sum(b, a));
  }

  lemma SumAssociates(a: seq<Coin>, b: seq<Coin>, c: seq<Coin>)
    requires Sorted(a) && Sorted(b) && Sorted(c)
    ensures Sum(Sum(a, b), c) == Sum(a, Sum(b, c))
  {
    hide Sum, Sorted;
    SumAdds(a, b, [], []);
    SumAdds(b, c, [], []);
    forall d: Bytes
      ensures AmountIn(Sum(Sum(a, b), c), d) == AmountIn(Sum(a, Sum(b, c)), d)
    {
      SumAdds(a, b, [], d);
      SumAdds(b, c, [], d);
      SumAdds(Sum(a, b), c, [], d);
      SumAdds(a, Sum(b, c), [], d);
    }
    SumAdds(Sum(a, b), c, [], []);
    SumAdds(a, Sum(b, c), [], []);
    SameAmountsSameCoins(Sum(Sum(a, b), c), Sum(a, Sum(b, c)));
  }

  function Negated(s: seq<Coin>): seq<Coin> {
    seq(|s|, i requires 0 <= i < |s| => Coin(s[i].denom, -s[i].amount))
  }

  lemma {:induction false} NegatedAmount(s: seq<Coin>, d: Bytes)
    ensures AmountIn(Negated(s), d) == -AmountIn(s, d)
  {
    if s != [] {
      NegatedAmount(s[1..], d);
      assert Negated(s)[1..] == Negated(s[1..]);
    }
  }

  /** Subtracting what was added gives back a set without zeros. */
  lemma SubtractionUndoesAddition(a: seq<Coin>, b: seq<Coin>)
    requires Sorted(a) && NoZero(a) && Sorted(b)
    ensures Sum(Sum(a, b), Negated(b)) == a
  {
    assert Sorted(Negated(b));
    hide Sum, Sorted, Negated;
    SumAdds(a, b, [], []);
    forall d: Bytes
      ensures AmountIn(Sum(Sum(a, b), Negated(b)), d) == AmountIn(a, d)
    {
      SumAdds(a, b, [], d);
      SumAdds(Sum(a, b), Negated(b), [], d);
      NegatedAmount(b, d);
    }
    SumAdds(Sum(a, b), Negated(b), [], []);
    SameAmountsSameCoins(Sum(Sum(a, b), Negated(b)), a);
  }

  // Overflow

  predicate Within(x: int, bound: int) {
    -bound < x < bound
  }

  /** The amounts of both sets together. */
  function Both(a: seq<Coin>, b: seq<Coin>, d: Bytes): int {
    AmountIn(a, d) + AmountIn(b, d)
  }

  /** Some denom's amounts add up to more than the bound admits. */
  ghost predicate Overflows(a: seq<Coin>, b: seq<Coin>, bound: int) {
    exists d :: !Within(Both(a, b, d), bound)
  }

  function Prepend(s: seq<Coin>, r: Result<seq<Coin>>): Result<seq<Coin>> {
    match r
    case Panic => Panic
    case Ok(rest) => Ok(s + rest)
  }

  /** The merge with the check of every addition. */
  function CheckedSum(a: seq<Coin>, b: seq<Coin>, bound: int): Result<seq<Coin>>
    decreases |a| + |b|
  {
    if a == [] then Ok(NonZero(b))
    else if b == [] then Ok(NonZero(a))
    else if Less(a[0].denom, b[0].denom) then Prepend(Keep(a[0]), CheckedSum(a[1..], b, bound))
    else if a[0].denom == b[0].denom then
      if !Within(a[0].amount + b[0].amount, bound) then Panic
      else Prepend(Keep(Coin(a[0].denom, a[0].amount + b[0].amount)), CheckedSum(a[1..], b[1..], bound))
    else Prepend(Keep(b[0]), CheckedSum(a, b[1..], bound))
  }

  ghost predicate AllWithin(s: seq<Coin>, bound: int) {
    forall i :: 0 <= i < |s| ==> Within(s[i].amount, bound)
  }

  lemma {:induction false} AmountWithin(s: seq<Coin>, d: Bytes, bound: int)
    requires AllWithin(s, bound) && bound > 0
    ensures Within(AmountIn(s, d), bound)
  {
    if s != [] {
      AmountWithin(s[1..], d, bound);
    }
  }

  lemma {:induction false} CheckedSumIsSum(a: seq<Coin>, b: seq<Coin>, bound: int)
    ensures CheckedSum(a, b, bound).Ok? ==> CheckedSum(a, b, bound).value == Sum(a, b)
    decreases |a| + |b|
  {
    hide Less;
    if a != [] && b != [] {
      CheckedSumIsSum(a[1..], b, bound);
      CheckedSumIsSum(a[1..], b[1..], bound);
      CheckedSumIsSum(a, b[1..], bound);
    }
  }

  lemma {:induction false} CheckedSumPanics(a: seq<Coin>, b: seq<Coin>, bound: int)
    requires Sorted(a) && Sorted(b) && AllWithin(a, bound) && AllWithin(b, bound) && bound > 0
    ensures CheckedSum(a, b, bound).Panic? <==> Overflows(a, b, bound)
    decreases |a| + |b|
  {
    if a == [] || b == [] {
      forall d: Bytes
        ensures Within(Both(a, b, d), bound)
      {
        AmountWithin(a, d, bound);
        AmountWithin(b, d, bound);
      }
    } else {
      TailSorted(a);
      TailSorted(b);
      var x, y := a[0].denom, b[0].denom;
      CompareFlips(x, y);
      var a', b' := if Less(y, x) then a else a[1..], if Less(x, y) then b else b[1..];
      CheckedSumPanics(a', b', bound);
      var low := if Less(y, x) then y else x;
      forall d: Bytes
        ensures d != low ==> Both(a, b, d) == Both(a', b', d)
        ensures Both(a', b', low) == 0
      {
        HeadsGone(a, b, d);
      }
      assert Within(Both(a, b, low), bound) <==> x != y || Within(a[0].amount + b[0].amount, bound) by {
        HeadAmounts(a, b, bound);
      }
      hide Sorted, Less, Both, AllWithin, Keep;
      if d :| !Within(Both(a, b, d), bound) {
        assert d == low || !Within(Both(a', b', d), bound);
      }
      if d :| !Within(Both(a', b', d), bound) {
        assert !Within(Both(a, b, d), bound);
      }
    }
  }

  lemma HeadsGone(a: seq<Coin>, b: seq<Coin>, d: Bytes)
    requires Sorted(a) && Sorted(b) && a != [] && b != []
    ensures var x, y := a[0].denom, b[0].denom;
            var a', b' := if Less(y, x) then a else a[1..], if Less(x, y) then b else b[1..];
            var low := if Less(y, x) then y else x;
            (d != low ==> Both(a, b, d) == Both(a', b', d)) && Both(a', b', low) == 0
  {
    var x, y := a[0].denom, b[0].denom;
    CompareFlips(x, y);
    AboveHasNone(x, a[1..]);
    AboveHasNone(y, b[1..]);
    if Less(x, y) {
      WholeAbove(x, b);
      AboveHasNone(x, b);
    } else if Less(y, x) {
      WholeAbove(y, a);
      AboveHasNone(y, a);
    }
  }

  lemma HeadAmounts(a: seq<Coin>, b: seq<Coin>, bound: int)
    requires Sorted(a) && Sorted(b) && a != [] && b != [] && AllWithin(a, bound) && AllWithin(b, bound)
    ensures var x, y := a[0].denom, b[0].denom;
            var low := if Less(y, x) then y else x;
            Within(Both(a, b, low), bound) <==> x != y || Within(a[0].amount + b[0].amount, bound)
  {
    var x, y := a[0].denom, b[0].denom;
    CompareFlips(x, y);
    if Less(x, y) {
      WholeAbove(x, b);
      AboveHasNone(x, b);
    } else if Less(y, x) {
      WholeAbove(y, a);
      AboveHasNone(y, a);
    }
  }

  /** The checked merge is the plain one, unless some denom's amounts add up to too much. */
  lemma CheckedSumMeaning(a: seq<Coin>, b: seq<Coin>, bound: int)
    requires Sorted(a) && Sorted(b) && AllWithin(a, bound) && AllWithin(b, bound) && bound > 0
    ensures CheckedSum(a, b, bound) == if Overflows(a, b, bound) then Panic else Ok(Sum(a, b))
  {
    hide CheckedSum, Sum, Sorted, AllWithin, Overflows;
    CheckedSumPanics(a, b, bound);
    CheckedSumIsSum(a, b, bound);
  }
}
