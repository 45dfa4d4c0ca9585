/** Programs over a store that open nested cache-wraps, and the plain map they amount to. */
module Nesting {
  import opened Basics
  import opened ByteOrder
  import opened Listing
  import opened MergeSpec
  import opened Iterators
  import opened CacheKV
  import opened KVStores

  /** One call on a store. */
  datatype Op =
    | Get(key: Bytes)
    | Set(key: Bytes, value: Bytes)
    | Delete(key: Bytes)
    | Scan(start: Bytes, end: Option<Bytes>, ascending: bool)

  datatype Answer = Nothing | Value(value: Option<Bytes>) | Pairs(pairs: seq<Pair<Bytes>>)

  /** What a call does to a plain map. */
  function Applied(m: Contents, op: Op): Contents {
    match op
    case Get(_) => m
    case Set(k, v) => m[k := v]
    case Delete(k) => m - {k}
    case Scan(_, _, _) => m
  }

  /** What a call on a plain map answers. */
  ghost function Answered(m: Contents, op: Op): Answer {
    match op
    case Get(k) => Value(Lookup(m, k))
    case Set(_, _) => Nothing
    case Delete(_) => Nothing
    case Scan(start, end, ascending) => Pairs(Listed(Window(m, start, end), ascending))
  }

  /** What is read after a call: the value set, nothing where a key was deleted, and elsewhere what was there. */
  lemma ReadsBack(m: Contents, op: Op, key: Bytes)
    ensures Lookup(Applied(m, op), key) ==
            if op.Set? && op.key == key then Some(op.value)
            else if op.Delete? && op.key == key then None
            else Lookup(m, key)
  {
  }

  /** Calls in order; Nest runs a program on a new cache-wrap and then writes it back or drops it. */
  datatype Program = Done | Then(op: Op, rest: Program) | Nest(inner: Program, write: bool, rest: Program)

  /** The same program on a plain map: a written wrap is inlined, a dropped one leaves no trace. */
  function Replay(m: Contents, p: Program): Contents
    decreases p
  {
    match p
    case Done => m
    case Then(op, rest) => Replay(Applied(m, op), rest)
    case Nest(inner, write, rest) => Replay(if write then Replay(m, inner) else m, rest)
  }

  ghost function Replies(m: Contents, p: Program): seq<Answer>
    decreases p
  {
    match p
    case Done => []
    case Then(op, rest) => [Answered(m, op)] + Replies(Applied(m, op), rest)
    case Nest(inner, write, rest) =>
      Replies(m, inner) + Replies(if write then Replay(m, inner) else m, rest)
  }

  /** The calls of a program whose effects survive, in order. */
  function Surviving(p: Program): seq<Op> {
    match p
    case Done => []
    case Then(op, rest) => [op] + Surviving(rest)
    case Nest(inner, write, rest) => (if write then Surviving(inner) else []) + Surviving(rest)
  }

  function ApplyAll(m: Contents, ops: seq<Op>): Contents
    decreases |ops|
  {
    if ops == [] then m else ApplyAll(Applied(m, ops[0]), ops[1..])
  }

  lemma {:induction false} ApplyAllConcat(m: Contents, a: seq<Op>, b: seq<Op>)
    ensures ApplyAll(m, a + b) == ApplyAll(ApplyAll(m, a), b)
    decreases |a|
  {
    if a == [] {
      assert a + b == b;
    } else {
      assert (a + b)[1..] == a[1..] + b;
      ApplyAllConcat(Applied(m, a[0]), a[1..], b);
    }
  }

  /** Running a program with nested wraps is replaying its surviving calls one after the other. */
  lemma {:induction false} ReplayIsFlat(m: Contents, p: Program)
    ensures Replay(m, p) == ApplyAll(m, Surviving(p))
    decreases p
  {
    match p
    case Done =>
    case Then(op, rest) =>
      ReplayIsFlat(Applied(m, op), rest);
      assert Surviving(p)[1..] == Surviving(rest);
    case Nest(inner, write, rest) =>
      ReplayIsFlat(m, inner);
      var kept := if write then Surviving(inner) else [];
      var middle := if write then Replay(m, inner) else m;
      ReplayIsFlat(middle, rest);
      ApplyAllConcat(m, kept, Surviving(rest));
  }

  /** Every call of a program, in order, each with the calls whose effects it sees. */
  function Visible(p: Program): seq<(seq<Op>, Op)> {
    match p
    case Done => []
    case Then(op, rest) => [([], op)] + Behind([op], Visible(rest))
    case Nest(inner, write, rest) => Visible(inner) + Behind(if write then Surviving(inner) else [], Visible(rest))
  }

  /** The same calls after others. */
  function Behind(first: seq<Op>, calls: seq<(seq<Op>, Op)>): seq<(seq<Op>, Op)> {
    seq(|calls|, i requires 0 <= i < |calls| => (first + calls[i].0, calls[i].1))
  }

  /** Every answer is that of a plain map on which exactly the calls that are visible there have been made. */
  ghost predicate AnswersTo(m: Contents, calls: seq<(seq<Op>, Op)>, answers: seq<Answer>) {
    |answers| == |calls| && forall i :: 0 <= i < |calls| ==> answers[i] == Answered(ApplyAll(m, calls[i].0), calls[i].1)
  }

  lemma AnswersBehind(m: Contents, first: seq<Op>, calls: seq<(seq<Op>, Op)>, answers: seq<Answer>)
    requires AnswersTo(ApplyAll(m, first), calls, answers)
    ensures AnswersTo(m, Behind(first, calls), answers)
  {
    hide ApplyAll, Answered;
    forall i | 0 <= i < |calls|
      ensures answers[i] == Answered(ApplyAll(m, Behind(first, calls)[i].0), calls[i].1)
    {
      ApplyAllConcat(m, first, calls[i].0);
    }
  }

  lemma AnswersConcat(m: Contents, a: seq<(seq<Op>, Op)>, x: seq<Answer>, b: seq<(seq<Op>, Op)>, y: seq<Answer>)
    requires AnswersTo(m, a, x) && AnswersTo(m, b, y)
    ensures AnswersTo(m, a + b, x + y)
  {
    hide ApplyAll, Answered;
  }

  lemma {:induction false} RepliesSeeTheRest(m: Contents, p: Program)
    ensures AnswersTo(m, Visible(p), Replies(m, p))
    decreases p
  {
    match p
    case Done =>
    case Then(op, rest) =>
      assert ApplyAll(m, [op]) == Applied(m, op) by { assert [op][1..] == []; }
      assert AnswersTo(m, [([], op)], [Answered(m, op)]);
      RepliesSeeTheRest(Applied(m, op), rest);
      hide ApplyAll, Answered, Applied, AnswersTo;
      AnswersBehind(m, [op], Visible(rest), Replies(Applied(m, op), rest));
      AnswersConcat(m, [([], op)], [Answered(m, op)], Behind([op], Visible(rest)), Replies(Applied(m, op), rest));
    case Nest(inner, write, rest) =>
      var kept := if write then Surviving(inner) else [];
      var middle := if write then Replay(m, inner) else m;
      ReplayIsFlat(m, inner);
      assert ApplyAll(m, kept) == middle;
      RepliesSeeTheRest(m, inner);
      RepliesSeeTheRest(middle, rest);
      hide ApplyAll, Answered, AnswersTo, Replay, Surviving;
      AnswersBehind(m, kept, Visible(rest), Replies(middle, rest));
      AnswersConcat(m, Visible(inner), Replies(m, inner), Behind(kept, Visible(rest)), Replies(middle, rest));
  }

  /** A scan answers with the pairs of the map whose keys lie from the start up to the end, all of them, each
      once, in the order asked for. */
  lemma ScanAnswers(m: Contents, start: Bytes, end: Option<Bytes>, ascending: bool)
    ensures var answer := Answered(m, Scan(start, end, ascending));
            && answer.Pairs?
            && (forall i, j :: 0 <= i < j < |answer.pairs| ==>
                  if ascending then Less(answer.pairs[i].key, answer.pairs[j].key)
                  else Less(answer.pairs[j].key, answer.pairs[i].key))
            && forall k, v :: Pair(k, v) in answer.pairs <==>
                                k in m && m[k] == v && !Less(k, start) && (end.Some? ==> Less(k, end.value))
  {
    var w := Window(m, start, end);
    var pairs := Listed(w, ascending);
    ListedOrdered(w, ascending);
    hide Listed, Less;
    forall k, v
      ensures Pair(k, v) in pairs <==> k in w && w[k] == v
    {
      if Pair(k, v) in pairs {
        var i :| 0 <= i < |pairs| && pairs[i] == Pair(k, v);
      }
    }
    forall i, j | 0 <= i < j < |pairs|
      ensures if ascending then Less(pairs[i].key, pairs[j].key) else Less(pairs[j].key, pairs[i].key)
    {
      assert Before(ascending, pairs[i].key, pairs[j].key);
    }
  }

  /** Reads an iterator to its end, asking Valid, Key and Value before each Next. */
  method Drain(it: Source) returns (pairs: seq<Pair<Bytes>>)
    requires it.Sound()
    modifies it.Repr()
    ensures it.Sound() && it.Remaining() == []
    ensures pairs == old(it.Remaining())
  {
    hide Source.Remaining, Source.Sound;
    pairs := [];
    var valid := it.Valid();
    while valid
      invariant it.Sound() && valid == (it.Remaining() != [])
      invariant pairs + it.Remaining() == old(it.Remaining())
      decreases |it.Remaining()|
    {
      var k := it.Key();
      var v := it.Value();
      pairs := pairs + [Pair(k.value, v.value)];
      var ok := it.Next();
      valid := it.Valid();
    }
  }

  /** One call on the top of a stack answers and acts as on a plain map, and touches nothing else: no level
      below a write buffer and nothing outside a prefix. */
  method Do(s: KVStore, op: Op) returns (answer: Answer)
    requires s.Sound()
    modifies s.Repr()
    ensures s.Sound()
    ensures answer == Answered(old(s.View()), op)
    ensures s.Levels() == old(s.Levels())[0 := Applied(old(s.View()), op)]
  {
    hide KVStore.Levels, KVStore.Sound, Listed, Lookup, Window, Source.Remaining, Source.Sound;
    answer := Nothing;
    match op {
      case Get(k) =>
        var v := s.Get(k);
        answer := Value(v);
      case Set(k, v) =>
        s.Set(k, v);
      case Delete(k) =>
        s.Delete(k);
      case Scan(start, end, ascending) =>
        var it := s.Iterator(start, end, ascending);
        var pairs := Drain(it);
        answer := Pairs(pairs);
    }
  }

  /** Any program, nested to any depth, answers and acts on the stack as on a plain map. Nothing else that
      the store it runs on stands on changes. */
  method Run(s: KVStore, p: Program) returns (answers: seq<Answer>)
    requires s.Sound()
    modifies s.Repr()
    ensures s.Sound()
    ensures answers == Replies(old(s.View()), p)
    ensures s.Levels() == old(s.Levels())[0 := Replay(old(s.View()), p)]
    decreases p, 0
  {
    hide KVStore.Levels, KVStore.Sound, Applied, Answered;
    match p {
      case Done =>
        answers := [];
      case Then(op, rest) =>
        var first := Do(s, op);
        var others := Run(s, rest);
        answers := [first] + others;
      case Nest(inner, write, rest) =>
        var first := RunNested(s, inner, write);
        var others := Run(s, rest);
        answers := first + others;
    }
  }

  method RunNested(s: KVStore, inner: Program, write: bool) returns (answers: seq<Answer>)
    requires s.Sound()
    modifies s.Repr()
    ensures s.Sound()
    ensures answers == Replies(old(s.View()), inner)
    ensures s.Levels() == old(s.Levels())[0 := if write then Replay(old(s.View()), inner) else old(s.View())]
    decreases inner, 1
  {
    var wrap := new Store(s);
    answers := Run(Wrapped(wrap), inner);
    if write {
      wrap.Write();
    }
    Unwrapped(wrap);
  }

  /** What a write buffer says about the store under it. */
  lemma Unwrapped(wrap: Store)
    requires wrap.Sound()
    ensures wrap.parent.Sound() && wrap.parent.Levels() == wrap.Levels()[1..]
  {
  }

  /** A stack of write buffers only, down to a mounted store. */
  ghost predicate Straight(s: KVStore)
    decreases s.Repr()
  {
    match s
    case Mounted(_) => true
    case Wrapped(b) => b in b.Repr && b.parent.Repr() == b.Repr - {b} && Straight(b.parent)
    case Prefixed(_) => false
  }

  /** Writing every buffer of a stack, innermost first, brings all levels to the view from the top. */
  method WriteDown(s: Store)
    requires s.Sound() && Straight(Wrapped(s))
    modifies s.Repr
    ensures s.Sound() && |s.Levels()| == |old(s.Levels())|
    ensures forall i :: 0 <= i < |s.Levels()| ==> s.Levels()[i] == old(s.View())
    decreases s.Repr
  {
    s.Write();
    match s.parent {
      case Mounted(m) => assert s.Below() == [m.data];
      case Wrapped(below) =>
        OnBuffer(s, below);
        WriteDown(below);
        assert s.Linked();
        OnBuffer(s, below);
        NothingBuffered(s.Below()[0]);
    }
  }

  lemma OnBuffer(s: Store, below: Store)
    requires s.Linked() && s.parent == Wrapped(below)
    ensures below.Sound() && below.Levels() == s.Below() && below.Repr == s.Repr - {s}
  {
    assert s.parent.Sound() && s.parent.Levels() == s.Below();
  }

  /** Everything that can be read through a store, by iterating over all of it. */
  method ReadAll(s: KVStore) returns (m: Contents)
    requires s.Sound()
    modifies s.Repr()
    ensures s.Sound() && s.Levels() == old(s.Levels()) && m == s.View()
  {
    hide Binds, Bindings, Listed, Ordered, Window, KVStore.Levels, KVStore.Sound, Source.Remaining, Source.Sound;
    var it := s.Iterator([], None, true);
    var pairs := Drain(it);
    WholeWindow(s.View());
    ListedOrdered(s.View(), true);
    BindingsUnique(pairs, s.View(), true);
    m := Collect(pairs);
  }

  lemma WholeWindow(m: Contents)
    ensures Window(m, [], None) == m
  {
  }

  method Collect(pairs: seq<Pair<Bytes>>) returns (m: Contents)
    ensures m == Bindings(pairs)
  {
    m := map[];
    for i := 0 to |pairs|
      invariant m == Bindings(pairs[..i])
    {
      assert pairs[..i + 1][..i] == pairs[..i];
      m := m[pairs[i].key := pairs[i].value];
    }
    assert pairs[..|pairs|] == pairs;
  }
}
