/** store/types/gas.go: gas meters over 64-bit unsigned integers. */
module Gas {
  import opened Basics

  /** basicGasMeter and infiniteGasMeter. */
  datatype Meter = Basic(limit: Uint64, consumed: Uint64) | Infinite(consumed: Uint64)

  datatype Charge = Charged | OutOfGas | Overflow

  /** The sum, or 0 together with the overflow flag. */
  function AddOverflow(a: Uint64, b: Uint64): (Uint64, bool) {
    if TWO_64 - 1 - a < b then (0, true) else (a + b, false)
  }

  /** ConsumeGas: the consumption is recorded even when the charge panics, and lost on overflow. */
  function Consume(m: Meter, amount: Uint64): (Meter, Charge) {
    var (consumed, overflow) := AddOverflow(m.consumed, amount);
    var after := m.(consumed := consumed);
    if overflow then
      (after, Overflow)
    else if after.Basic? && after.consumed > after.limit then
      (after, OutOfGas)
    else
      (after, Charged)
  }

  predicate IsPastLimit(m: Meter) {
    m.Basic? && m.consumed > m.limit
  }

  predicate IsOutOfGas(m: Meter) {
    m.Basic? && m.consumed >= m.limit
  }

  /** What a meter reports to the block: the smaller one of what it has counted and its limit. */
  function ConsumedToLimit(m: Meter): (g: Uint64)
    ensures g <= m.consumed && (m.Basic? ==> g <= m.limit) && (g == m.consumed || (m.Basic? && g == m.limit))
  {
    if IsPastLimit(m) then m.limit else m.consumed
  }

  function Limit(m: Meter): Uint64 {
    if m.Basic? then m.limit else 0
  }

  /** Charges in order, up to the first that panics. */
  function ConsumeAll(m: Meter, amounts: seq<Uint64>): (Meter, Charge)
    decreases |amounts|
  {
    if amounts == [] then (m, Charged)
    else
      var (after, charge) := Consume(m, amounts[0]);
      if charge == Charged then ConsumeAll(after, amounts[1..]) else (after, charge)
  }

  function Total(amounts: seq<Uint64>): nat {
    if amounts == [] then 0 else amounts[0] + Total(amounts[1..])
  }

  /** A meter is out of gas exactly if it admits no further unit. */
  lemma OutOfGasExactly(m: Meter)
    ensures IsOutOfGas(m) <==> m.Basic? && !(m.consumed < m.limit)
    ensures m.Basic? ==> (IsOutOfGas(m) <==> Consume(m, 1).1 != Charged)
  {
  }

  /** The total stays within 64 bits and the limit. */
  predicate Admits(m: Meter, total: nat) {
    total < TWO_64 && (m.Basic? ==> total <= m.limit)
  }

  /** A meter admits a sequence of charges exactly if their total stays within 64 bits and its limit, and then
      it has counted exactly that total. Otherwise it ends past its limit, or has lost the count. */
  lemma {:induction false} MeterAdmits(m: Meter, amounts: seq<Uint64>)
    ensures var (after, charge) := ConsumeAll(m, amounts);
            var total := m.consumed + Total(amounts);
            && (charge == Charged <==> amounts == [] || Admits(m, total))
            && (charge == Charged ==> total < TWO_64 && after == m.(consumed := total))
            && (charge == Charged && amounts != [] ==> ConsumedToLimit(after) == total)
            && (charge == OutOfGas ==> IsPastLimit(after) && ConsumedToLimit(after) == after.limit == Limit(m))
            && (charge == Overflow ==> after == m.(consumed := 0))
    decreases |amounts|
  {
    if amounts != [] {
      if Admits(m, m.consumed + amounts[0]) {
        OneAdmitted(m, amounts);
        hide ConsumeAll;
        MeterAdmits(m.(consumed := m.consumed + amounts[0]), amounts[1..]);
      } else {
        OneRefused(m, amounts);
      }
    }
  }

  /** What is charged before i is admitted, and with the charge at i it is not. */
  predicate StopsAt(m: Meter, amounts: seq<Uint64>, i: nat) {
    && i < |amounts|
    && (i == 0 || Admits(m, m.consumed + Total(amounts[..i])))
    && !Admits(m, m.consumed + Total(amounts[..i]) + amounts[i])
  }

  /** Where and how a meter stops: past the limit the charge that panics is still counted, out of 64 bits the
      whole count is lost, for either kind of meter. */
  lemma MeterStops(m: Meter, amounts: seq<Uint64>, i: nat)
    requires StopsAt(m, amounts, i)
    ensures var total := m.consumed + Total(amounts[..i]) + amounts[i];
            ConsumeAll(m, amounts) == if total >= TWO_64 then (m.(consumed := 0), Overflow)
                                      else (m.(consumed := total), OutOfGas)
  {
    hide ConsumeAll, Consume, Total;
    MeterAdmits(m, amounts[..i]);
    assert amounts[..i] + amounts[i..] == amounts;
    ConsumeConcat(m, amounts[..i], amounts[i..]);
    OneRefused(ConsumeAll(m, amounts[..i]).0, amounts[i..]);
  }

  lemma OneAdmitted(m: Meter, amounts: seq<Uint64>)
    requires amounts != [] && Admits(m, m.consumed + amounts[0])
    ensures ConsumeAll(m, amounts) == ConsumeAll(m.(consumed := m.consumed + amounts[0]), amounts[1..])
  {
  }

  lemma OneRefused(m: Meter, amounts: seq<Uint64>)
    requires amounts != [] && !Admits(m, m.consumed + amounts[0])
    ensures var total := m.consumed + amounts[0];
            ConsumeAll(m, amounts) == if total >= TWO_64 then (m.(consumed := 0), Overflow)
                                      else (m.(consumed := total), OutOfGas)
  {
  }

  lemma {:induction false} ConsumeConcat(m: Meter, a: seq<Uint64>, b: seq<Uint64>)
    ensures var (after, charge) := ConsumeAll(m, a);
            ConsumeAll(m, a + b) == if charge == Charged then ConsumeAll(after, b) else (after, charge)
    decreases |a|
  {
    hide Consume;
    if a == [] {
      assert a + b == b;
    } else {
      assert (a + b)[1..] == a[1..] + b;
      ConsumeConcat(Consume(m, a[0]).0, a[1..], b);
    }
  }
}
