/** store/iavl/store.go, iavlIterator: a producer goroutine that funnels a range of the tree into an
    unbuffered channel, an initializer goroutine that fetches the first pair, and the consumer that calls
    the iterator's methods. The steps of the three interleave arbitrarily. */
module IavlIterator {
  import opened Basics
  import opened ByteOrder
  import opened Listing

  type Item = Pair<Bytes>

  datatype Call = Valid | Key | Value | Next | Close

  datatype Reply = Flag(flag: bool) | Data(data: Bytes) | Nothing | Panicked

  /** Offering: inside IterateRange, with the next pair to send if there is one. Finished: iterCh closed. */
  datatype Producer = Offering | Leaving | Finished

  /** Fetching: receiving from iterCh. Done: initCh closed. */
  datatype Initializer = Fetching | Fetched(got: Option<Item>) | Signalling | Done

  /** Waiting: in waitInit. Receiving and Received: inside Next. Draining: in the loop of Close. */
  datatype Consumer = Idle | Waiting(call: Call) | Receiving | Received(got: Option<Item>) | Draining

  /** Beyond the iterator and its goroutines: the calls answered up to the first Close and those answered
      later, and the pair that is left for the latter, which is current when Close begins or is stored by the
      initializer afterwards. */
  datatype State = State(
    producer: Producer,
    sent: nat,
    initializer: Initializer,
    consumer: Consumer,
    current: Option<Item>,
    invalid: bool,
    quit: bool,
    crashed: bool,
    log: seq<(Call, Reply)>,
    later: seq<(Call, Reply)>,
    kept: seq<Item>)

  datatype Action =
    | Begin(call: Call)
    | Proceed
    | SendToInitializer | SendToNext | SendToClose
    | LeaveOnQuit | LeaveAtEnd | CloseIterCh
    | InitializerSeesEnd | NextSeesEnd | CloseReturns
    | InitializerStores | InitializerSignals | NextStores

  predicate Internal(a: Action) {
    !a.Begin?
  }

  function Start(): State {
    State(Offering, 0, Fetching, Idle, None, false, false, false, [], [], [])
  }

  predicate CanSend(items: seq<Item>, s: State) {
    s.producer == Offering && s.sent < |items|
  }

  /** setNext and setInvalid; both panic outside any call if the iterator is invalid already. */
  function Store(s: State, got: Option<Item>): State {
    if s.invalid then s.(crashed := true)
    else if got.Some? then s.(current := got)
    else s.(invalid := true)
  }

  function Answer(s: State, call: Call, reply: Reply): State {
    if s.quit then s.(consumer := Idle, later := s.later + [(call, reply)])
    else s.(consumer := Idle, log := s.log + [(call, reply)])
  }

  /** Once the iterator is closed, what it shows is all that is left. */
  function Remember(s: State): State {
    if s.quit then s.(kept := if s.invalid || s.current.None? then [] else [s.current.value]) else s
  }

  /** A call after waitInit. */
  function Proceeds(s: State, call: Call): State {
    match call
    case Valid => Answer(s, call, Flag(!s.invalid))
    case Key =>
      Answer(s, call, if s.invalid then Panicked else Data(if s.current.None? then [] else s.current.value.key))
    case Value =>
      Answer(s, call, if s.invalid then Panicked else Data(if s.current.None? then [] else s.current.value.value))
    case Next => if s.invalid then Answer(s, call, Panicked) else s.(consumer := Receiving)
    case Close => s
  }

  /** What an action does, if it can happen. */
  function Step(items: seq<Item>, s: State, a: Action): Option<State> {
    match a
    case Begin(call) =>
      if s.consumer != Idle then None
      else if call == Close then
        if s.quit then Some(Answer(s, Close, Panicked)) else Some(Remember(s.(quit := true, consumer := Draining)))
      else Some(s.(consumer := Waiting(call)))
    case Proceed =>
      if s.consumer.Waiting? && s.consumer.call != Close && s.initializer == Done
      then Some(Proceeds(s, s.consumer.call)) else None
    case SendToInitializer =>
      if CanSend(items, s) && s.initializer == Fetching
      then Some(s.(sent := s.sent + 1, initializer := Fetched(Some(items[s.sent])))) else None
    case SendToNext =>
      if CanSend(items, s) && s.consumer == Receiving
      then Some(s.(sent := s.sent + 1, consumer := Received(Some(items[s.sent])))) else None
    case SendToClose =>
      if CanSend(items, s) && s.consumer == Draining then Some(s.(sent := s.sent + 1)) else None
    case LeaveOnQuit =>
      if CanSend(items, s) && s.quit then Some(s.(producer := Leaving)) else None
    case LeaveAtEnd =>
      if s.producer == Offering && s.sent >= |items| then Some(s.(producer := Leaving)) else None
    case CloseIterCh =>
      if s.producer == Leaving then Some(s.(producer := Finished)) else None
    case InitializerSeesEnd =>
      if s.producer == Finished && s.initializer == Fetching then Some(s.(initializer := Fetched(None))) else None
    case NextSeesEnd =>
      if s.producer == Finished && s.consumer == Receiving then Some(s.(consumer := Received(None))) else None
    case CloseReturns =>
      if s.producer == Finished && s.consumer == Draining
      then Some(s.(consumer := Idle, log := s.log + [(Close, Nothing)])) else None
    case InitializerStores =>
      if s.initializer.Fetched? then Some(Remember(Store(s, s.initializer.got).(initializer := Signalling))) else None
    case InitializerSignals =>
      if s.initializer == Signalling then Some(s.(initializer := Done)) else None
    case NextStores =>
      if s.consumer.Received? then Some(Answer(Store(s, s.consumer.got), Next, Nothing)) else None
  }

  /** The state after a sequence of actions, if they can happen in this order. */
  function Run(items: seq<Item>, s: State, actions: seq<Action>): Option<State>
    decreases |actions|
  {
    if actions == [] then
      Some(s)
    else
      match Step(items, s, actions[0])
      case None => None
      case Some(next) => Run(items, next, actions[1..])
  }

  // What the consumer must see: a plain cursor over the range.

  /** How far the calls of a log move a cursor over the range. */
  function Position(items: seq<Item>, log: seq<(Call, Reply)>): (p: nat)
    ensures p <= |items|
  {
    if log == [] then 0
    else
      var p := Position(items, log[..|log| - 1]);
      if log[|log| - 1].0 == Next && p < |items| then p + 1 else p
  }

  /** The reply of a cursor at position p. Past the end everything but Valid and Close panics, and so does
      Close if the iterator is closed already. */
  function Expected(items: seq<Item>, p: nat, call: Call, closed: bool): Reply {
    match call
    case Valid => Flag(p < |items|)
    case Key => if p < |items| then Data(items[p].key) else Panicked
    case Value => if p < |items| then Data(items[p].value) else Panicked
    case Next => if p < |items| then Nothing else Panicked
    case Close => if closed then Panicked else Nothing
  }

  /** Every reply in the log is that of a plain cursor over the range. */
  ghost predicate Faithful(items: seq<Item>, log: seq<(Call, Reply)>, closed: bool) {
    forall i :: 0 <= i < |log| ==> log[i].1 == Expected(items, Position(items, log[..i]), log[i].0, closed)
  }

  lemma LogGrows(items: seq<Item>, log: seq<(Call, Reply)>, call: Call, reply: Reply, closed: bool)
    requires Faithful(items, log, closed) && reply == Expected(items, Position(items, log), call, closed)
    ensures Faithful(items, log + [(call, reply)], closed)
    ensures var p := Position(items, log);
            Position(items, log + [(call, reply)]) == if call == Next && p < |items| then p + 1 else p
  {
    var log' := log + [(call, reply)];
    assert log'[..|log|] == log;
    forall i | 0 <= i < |log'|
      ensures log'[i].1 == Expected(items, Position(items, log'[..i]), log'[i].0, closed)
    {
      if i < |log| {
        assert log'[..i] == log[..i];
      }
    }
  }

  /** Closing again does not depend on what is left. */
  ghost predicate OnlyCloses(log: seq<(Call, Reply)>) {
    forall i :: 0 <= i < |log| ==> log[i] == (Close, Panicked)
  }

  lemma {:induction false} ClosesAreFaithful(items: seq<Item>, log: seq<(Call, Reply)>)
    requires OnlyCloses(log)
    ensures Faithful(items, log, true) && Position(items, log) == 0
  {
    if log != [] {
      var before := log[..|log| - 1];
      ClosesAreFaithful(items, before);
      LogGrows(items, before, Close, Panicked, true);
      assert log == before + [(Close, Panicked)];
    }
  }

  /** The iterator's fields show position p. */
  ghost predicate Shows(items: seq<Item>, s: State, p: nat) {
    if p < |items| then !s.invalid && s.current == Some(items[p]) else s.invalid
  }

  /** The iterator's fields show position p, and the producer has sent everything up to it. */
  ghost predicate At(items: seq<Item>, s: State, p: nat) {
    Shows(items, s, p) && s.sent == if p < |items| then p + 1 else |items|
  }

  /** What was received in front of position p. */
  ghost predicate Got(items: seq<Item>, s: State, got: Option<Item>, p: nat) {
    match got
    case Some(item) => p < |items| && item == items[p] && s.sent == p + 1
    case None => p == |items| == s.sent
  }

  predicate BetweenOrWaiting(s: State) {
    s.consumer == Idle || s.consumer.Waiting?
  }

  /** Before Close starts. */
  ghost predicate Open(items: seq<Item>, s: State) {
    var p := Position(items, s.log);
    && s.later == []
    && (s.producer != Offering ==> s.sent == |items|)
    && (s.initializer != Done ==> s.log == [] && BetweenOrWaiting(s))
    && (match s.initializer
        case Fetching => s.sent == 0 && !s.invalid && s.current == None
        case Fetched(got) => Got(items, s, got, 0) && !s.invalid && s.current == None
        case Signalling => At(items, s, 0)
        case Done =>
          match s.consumer
          case Idle => At(items, s, p)
          case Waiting(_) => At(items, s, p)
          case Receiving => p < |items| && At(items, s, p)
          case Received(got) => p < |items| && !s.invalid && Got(items, s, got, p + 1)
          case Draining => false)
  }

  /** From the start of Close on. Calls wait for the initializer, which may still fetch a pair. */
  ghost predicate Shutting(s: State) {
    var p := Position(s.kept, s.later);
    && (s.consumer == Draining ==> s.later == [])
    && (s.consumer != Draining ==> s.producer == Finished)
    && (s.initializer != Done ==> OnlyCloses(s.later) && (BetweenOrWaiting(s) || s.consumer == Draining))
    && (match s.initializer
        case Fetching => !s.invalid && s.current == None
        case Fetched(_) => !s.invalid && s.current == None
        case Signalling => Shows(s.kept, s, 0)
        case Done =>
          match s.consumer
          case Receiving => p < |s.kept| && Shows(s.kept, s, p)
          case Received(got) => p < |s.kept| && !s.invalid && got == None
          case _ => Shows(s.kept, s, p))
  }

  /** At most one pair is left, which is one of the range. If a call was answered before Close, it is the pair
      that was current. */
  ghost predicate Left(items: seq<Item>, s: State) {
    && |s.kept| <= 1 && (forall x :: x in s.kept ==> x in items)
    && (s.initializer.Fetched? && s.initializer.got.Some? ==> s.initializer.got.value in items)
    && (|s.log| > (if s.consumer == Draining then 0 else 1) ==>
          s.initializer == Done && s.kept == Current(items, Position(items, s.log)))
  }

  function Current(items: seq<Item>, p: nat): seq<Item> {
    if p < |items| then [items[p]] else []
  }

  ghost predicate Invariant(items: seq<Item>, s: State) {
    && !s.crashed && s.sent <= |items| && Faithful(items, s.log, false) && Faithful(s.kept, s.later, true)
    && (s.consumer.Waiting? ==> s.consumer.call != Close)
    && (if s.quit then Shutting(s) && Left(items, s) else Open(items, s))
  }

  lemma StartHolds(items: seq<Item>)
    ensures Invariant(items, Start())
  {
  }

  lemma StepKeeps(items: seq<Item>, s: State, a: Action)
    requires Invariant(items, s) && Step(items, s, a).Some?
    ensures Invariant(items, Step(items, s, a).value)
  {
    hide Faithful, Position, OnlyCloses;
    match a {
      case Begin(call) => BeginKeeps(items, s, call);
      case Proceed => ProceedKeeps(items, s);
      case NextStores => NextKeeps(items, s);
      case CloseReturns => LogGrows(items, s.log, Close, Nothing, false);
      case InitializerStores => StoresKeeps(items, s);
      case InitializerSignals => SignalsKeeps(items, s);
      case _ =>
    }
  }

  lemma Unanswered(items: seq<Item>)
    ensures Faithful(items, [], true) && Position(items, []) == 0 && OnlyCloses([])
  {
  }

  lemma BeginKeeps(items: seq<Item>, s: State, call: Call)
    requires Invariant(items, s) && s.consumer == Idle
    ensures Invariant(items, Step(items, s, Begin(call)).value)
  {
    hide Faithful, Position;
    if call == Close {
      if s.quit {
        LogGrows(s.kept, s.later, Close, Panicked, true);
      } else {
        Unanswered(items);
        Unanswered(Current(items, Position(items, s.log)));
        Unanswered([]);
      }
    }
  }

  lemma ProceedKeeps(items: seq<Item>, s: State)
    requires Invariant(items, s) && s.consumer.Waiting? && s.initializer == Done
    ensures Invariant(items, Proceeds(s, s.consumer.call))
  {
    hide Faithful, Position, OnlyCloses;
    var call := s.consumer.call;
    if s.quit {
      LogGrows(s.kept, s.later, call, Expected(s.kept, Position(s.kept, s.later), call, true), true);
    } else {
      LogGrows(items, s.log, call, Expected(items, Position(items, s.log), call, false), false);
    }
  }

  lemma NextKeeps(items: seq<Item>, s: State)
    requires Invariant(items, s) && s.consumer.Received?
    ensures Invariant(items, Step(items, s, NextStores).value)
  {
    hide Faithful, Position, OnlyCloses;
    if s.quit {
      LogGrows(s.kept, s.later, Next, Nothing, true);
    } else {
      LogGrows(items, s.log, Next, Nothing, false);
    }
  }

  lemma StoresKeeps(items: seq<Item>, s: State)
    requires Invariant(items, s) && s.initializer.Fetched?
    ensures Invariant(items, Step(items, s, InitializerStores).value)
  {
    hide Faithful, Position, OnlyCloses;
    if s.quit {
      assert s.consumer == Draining ==> OnlyCloses(s.later) by { Unanswered([]); }
      var kept := Step(items, s, InitializerStores).value.kept;
      ClosesAreFaithful(kept, s.later);
    } else {
      Unanswered(items);
    }
  }

  lemma SignalsKeeps(items: seq<Item>, s: State)
    requires Invariant(items, s) && s.initializer == Signalling
    ensures Invariant(items, s.(initializer := Done))
  {
    hide Faithful, Position, OnlyCloses;
    if s.quit {
      ClosesAreFaithful(s.kept, s.later);
    } else {
      Unanswered(items);
    }
  }

  lemma {:induction false} RunKeeps(items: seq<Item>, s: State, actions: seq<Action>)
    requires Invariant(items, s) && Run(items, s, actions).Some?
    ensures Invariant(items, Run(items, s, actions).value)
    decreases |actions|
  {
    hide Step, Invariant;
    if actions != [] {
      StepKeeps(items, s, actions[0]);
      RunKeeps(items, Step(items, s, actions[0]).value, actions[1..]);
    }
  }

  /** In every interleaving each reply is that of a plain cursor over the range, so after j successful Next
      calls the consumer sees the j-th pair and is invalid exactly past the end. A closed iterator is a plain
      cursor over at most one pair, the current one if a call was answered before, and panics if it is closed
      again. No goroutine panics. */
  lemma ConsumerSeesTheRange(items: seq<Item>, actions: seq<Action>)
    requires Run(items, Start(), actions).Some?
    ensures var s := Run(items, Start(), actions).value;
            && Faithful(items, s.log, false) && Faithful(s.kept, s.later, true) && !s.crashed
            && (!s.quit ==> s.later == []) && (s.quit ==> Left(items, s))
            && (!s.quit && s.consumer == Idle && s.initializer == Done ==> At(items, s, Position(items, s.log)))
            && (s.quit && s.consumer == Idle && s.initializer == Done ==>
                  Shows(s.kept, s, Position(s.kept, s.later)))
  {
    hide Run, Faithful, Position, At, Left;
    StartHolds(items);
    RunKeeps(items, Start(), actions);
  }

  /** How many steps the goroutines and a call in progress can still take. */
  function Rank(items: seq<Item>, s: State): nat {
    (match s.producer
     case Offering => 2 + if s.sent < |items| then |items| - s.sent else 0
     case Leaving => 1
     case Finished => 0)
    + (match s.initializer case Fetching => 3 case Fetched(_) => 2 case Signalling => 1 case Done => 0)
    + (match s.consumer
       case Waiting(_) => 3 case Receiving => 2 case Received(_) => 1 case Draining => 1 case _ => 0)
  }

  lemma StepSinks(items: seq<Item>, s: State, a: Action)
    requires Internal(a) && Step(items, s, a).Some?
    ensures Rank(items, Step(items, s, a).value) < Rank(items, s)
  {
  }

  /** From any state at most Rank steps happen before the consumer starts a new call. */
  lemma {:induction false} CallsEnd(items: seq<Item>, s: State, actions: seq<Action>)
    requires Run(items, s, actions).Some? && forall i :: 0 <= i < |actions| ==> Internal(actions[i])
    ensures |actions| <= Rank(items, s)
    decreases |actions|
  {
    hide Step, Rank;
    if actions != [] {
      StepSinks(items, s, actions[0]);
      CallsEnd(items, Step(items, s, actions[0]).value, actions[1..]);
    }
  }

  ghost predicate Stuck(items: seq<Item>, s: State) {
    forall a :: Internal(a) ==> Step(items, s, a).None?
  }

  /** When no step is left, no call is blocked: the consumer is between calls, and after Close both goroutines
      have finished. */
  lemma NothingBlocks(items: seq<Item>, actions: seq<Action>)
    requires Run(items, Start(), actions).Some? && Stuck(items, Run(items, Start(), actions).value)
    ensures var s := Run(items, Start(), actions).value;
            && s.consumer == Idle && s.initializer == Done
            && (s.quit ==> s.producer == Finished)
  {
    hide Run, Invariant, Stuck;
    StartHolds(items);
    RunKeeps(items, Start(), actions);
    StuckIsFinished(items, Run(items, Start(), actions).value);
  }

  lemma StuckIsFinished(items: seq<Item>, s: State)
    requires Invariant(items, s) && Stuck(items, s)
    ensures s.consumer == Idle && s.initializer == Done
    ensures s.quit ==> s.producer == Finished
  {
    hide Faithful, Position, Step;
    assert s.initializer == Done by { InitializerFinishes(items, s); }
    assert s.consumer == Idle by { ConsumerFinishes(items, s); }
  }

  lemma ProducerWaits(items: seq<Item>, s: State)
    requires Stuck(items, s)
    ensures s.producer == Finished || CanSend(items, s)
  {
    assert Step(items, s, LeaveAtEnd).None? && Step(items, s, CloseIterCh).None?;
  }

  lemma InitializerFinishes(items: seq<Item>, s: State)
    requires Stuck(items, s)
    ensures s.initializer == Done
  {
    ProducerWaits(items, s);
    assert Step(items, s, SendToInitializer).None? && Step(items, s, InitializerSeesEnd).None?;
    assert Step(items, s, InitializerStores).None? && Step(items, s, InitializerSignals).None?;
  }

  lemma ConsumerFinishes(items: seq<Item>, s: State)
    requires Stuck(items, s) && (s.consumer.Waiting? ==> s.consumer.call != Close)
    ensures s.consumer == Idle
  {
    ProducerWaits(items, s);
    InitializerFinishes(items, s);
    assert Step(items, s, Proceed).None? && Step(items, s, NextStores).None?;
    assert Step(items, s, SendToNext).None? && Step(items, s, NextSeesEnd).None?;
    assert Step(items, s, SendToClose).None? && Step(items, s, CloseReturns).None?;
  }
}
