/** What the ABCI state machine guarantees over whole runs. */
module BaseAppLaws {
  import opened Basics
  import opened ByteOrder
  import opened MergeSpec
  import opened CacheMulti
  import opened Gas
  import opened BaseAppSpec
  import opened TxLaws
  import opened CallLaws
  import Nesting

  // Transactions are atomic

  /** The run of all messages from the contents after the ante handler. */
  function MsgsAfterAnte(app: App, mode: Mode, st: TxState, votes: Bytes, tx: Tx): MsgsRun {
    RunMsgs(app, AnteEnv(app, mode, st, votes, tx), AnteView(app, mode, st, votes, tx),
            AnteMeter(app, mode, st, votes, tx), tx.msgs)
  }

  predicate Admitted(mode: Mode, st: TxState) {
    mode == Deliver ==> st.blockMeter.Some? && !Spent(mode, st)
  }

  /** The contents that a transaction leaves: those after the ante handler if it accepts and the mode is not
      Simulate, and those after all messages if besides the mode is Deliver and all of them succeed. */
  function AtomicView(app: App, mode: Mode, st: TxState, votes: Bytes, tx: Tx): MultiView {
    if !Admitted(mode, st) || mode == Simulate || !AnteAccepts(app, mode, st, votes, tx) then
      st.view
    else if mode == Deliver && MsgsAfterAnte(app, mode, st, votes, tx).outcome == Success then
      MsgsAfterAnte(app, mode, st, votes, tx).view
    else
      AnteView(app, mode, st, votes, tx)
  }

  /** Whatever panics or fails on the way, a transaction leaves exactly these contents. */
  lemma TxIsAtomic(app: App, mode: Mode, st: TxState, votes: Bytes, tx: Tx)
    requires mode == Deliver ==> st.blockMeter.Some?
    ensures RunTx(app, mode, st, votes, tx).0.view == AtomicView(app, mode, st, votes, tx)
    ensures RunTx(app, mode, st, votes, tx).0.header == st.header
    ensures mode != Deliver ==> RunTx(app, mode, st, votes, tx).0.blockMeter == st.blockMeter
    ensures !Admitted(mode, st) ==> RunTx(app, mode, st, votes, tx).0 == st
  {
    BasicIsWellFormed(app, tx);
    if WellFormed(app, tx) {
      AnteRuns(app, mode, st, votes, tx);
      hide RunAnte, RunMsgs, BasicValid, WellFormed, AnteAccepts, AnteView, AnteEnv, AnteMeter;
    }
  }

  /** The last message runs on what the others left, if they succeed. */
  lemma {:induction false} LastMessage(app: App, env: Env, view: MultiView, meter: Meter, msgs: seq<Msg>, last: Msg)
    ensures var front := RunMsgs(app, env, view, meter, msgs);
            RunMsgs(app, env, view, meter, msgs + [last]) ==
            if front.outcome == Success then RunMsg(app, env, front.view, front.meter, last) else front
    decreases |msgs|
  {
    var all := msgs + [last];
    hide RunMsg;
    if msgs == [] {
      assert all[0] == last && all[1..] == [];
    } else {
      var first := RunMsg(app, env, view, meter, msgs[0]);
      assert all[0] == msgs[0] && all[1..] == msgs[1..] + [last];
      LastMessage(app, env, first.view, first.meter, msgs[1..], last);
    }
  }

  /** Message i succeeds on what the messages before it left. */
  predicate MessageSucceeds(app: App, env: Env, view: MultiView, meter: Meter, msgs: seq<Msg>, i: nat)
    requires i < |msgs|
  {
    var front := RunMsgs(app, env, view, meter, msgs[..i]);
    RunMsg(app, env, front.view, front.meter, msgs[i]).outcome == Success
  }

  /** A message list succeeds exactly when every message does, each on what the previous ones left. */
  lemma {:induction false} AllMessagesSucceed(app: App, env: Env, view: MultiView, meter: Meter, msgs: seq<Msg>)
    ensures RunMsgs(app, env, view, meter, msgs).outcome == Success <==>
              forall i :: 0 <= i < |msgs| ==> MessageSucceeds(app, env, view, meter, msgs, i)
    decreases |msgs|
  {
    if msgs != [] {
      var n := |msgs| - 1;
      var front := msgs[..n];
      AllMessagesSucceed(app, env, view, meter, front);
      LastMessage(app, env, view, meter, front, msgs[n]);
      assert msgs == front + [msgs[n]];
      assert forall i :: 0 <= i < n ==> front[..i] == msgs[..i] && front[i] == msgs[i];
      assert RunMsgs(app, env, view, meter, msgs).outcome == Success <==>
               RunMsgs(app, env, view, meter, front).outcome == Success
               && MessageSucceeds(app, env, view, meter, msgs, n);
      hide RunMsg, RunMsgs;
      forall i | 0 <= i < n
        ensures MessageSucceeds(app, env, view, meter, front, i) <==> MessageSucceeds(app, env, view, meter, msgs, i)
      {
      }
    }
  }

  // Checking is invisible to consensus

  /** The calls that Tendermint orders: all but checking and simulating. */
  predicate IsConsensus(call: Call) {
    !call.CheckTx? && !call.SimulateTx?
  }

  function ConsensusCalls(calls: seq<Call>): seq<Call> {
    if calls == [] then
      []
    else
      (if IsConsensus(calls[0]) then [calls[0]] else []) + ConsensusCalls(calls[1..])
  }

  /** The parts of the state that consensus is about. */
  predicate Agree(s: AppState, t: AppState) {
    s.committed == t.committed && s.height == t.height && s.deliver == t.deliver && s.votes == t.votes
  }

  predicate ResultsAgree(r: Result<AppState>, q: Result<AppState>) {
    (r.Ok? <==> q.Ok?) && (r.Ok? ==> Agree(r.value, q.value) && r.value.check.Some? && q.value.check.Some?)
  }

  /** The contents committed by each Commit of a run, with their heights. */
  function Commits(app: App, s: AppState, calls: seq<Call>): seq<(nat, MultiView)>
    decreases |calls|
  {
    if calls == [] then
      []
    else
      match Step(app, s, calls[0])
      case Panic => []
      case Ok(next) =>
        (if calls[0].Commit? then [(next.height, next.committed)] else []) + Commits(app, next, calls[1..])
  }

  lemma ConsensusStep(app: App, s: AppState, t: AppState, call: Call)
    requires Agree(s, t) && s.check.Some? && t.check.Some? && IsConsensus(call)
    ensures ResultsAgree(Step(app, s, call), Step(app, t, call))
  {
    hide RunTx, RunBlocker, InitDeliver;
  }

  lemma CheckStepInvisible(app: App, s: AppState, call: Call)
    requires s.check.Some? && !IsConsensus(call)
    ensures ResultsAgree(Step(app, s, call), Ok(s))
  {
    hide RunTx;
  }

  /** However CheckTx, ReCheck and Simulate calls are interleaved, every committed state is the one that
      the ordered calls alone produce, and the process panics in one run exactly if it does in the other. */
  lemma {:induction false} CheckingIsInvisible(app: App, s: AppState, t: AppState, calls: seq<Call>)
    requires Agree(s, t) && s.check.Some? && t.check.Some?
    ensures Commits(app, s, calls) == Commits(app, t, ConsensusCalls(calls))
    ensures ResultsAgree(Run(app, s, calls), Run(app, t, ConsensusCalls(calls)))
    decreases |calls|
  {
    hide Step;
    if calls != [] {
      var rest := ConsensusCalls(calls[1..]);
      if IsConsensus(calls[0]) {
        ConsensusStep(app, s, t, calls[0]);
        assert ConsensusCalls(calls)[1..] == rest;
        if Step(app, s, calls[0]).Ok? {
          CheckingIsInvisible(app, Step(app, s, calls[0]).value, Step(app, t, calls[0]).value, calls[1..]);
        }
      } else {
        CheckStepInvisible(app, s, calls[0]);
        assert ConsensusCalls(calls) == rest;
        CheckingIsInvisible(app, Step(app, s, calls[0]).value, t, calls[1..]);
      }
    }
  }

  /** Two runs with the same ordered calls commit the same states. */
  lemma SameBlocksSameCommits(app: App, s: AppState, a: seq<Call>, b: seq<Call>)
    requires s.check.Some? && ConsensusCalls(a) == ConsensusCalls(b)
    ensures Commits(app, s, a) == Commits(app, s, b)
    ensures ResultsAgree(Run(app, s, a), Run(app, s, b))
  {
    hide Step, Commits, Run;
    CheckingIsInvisible(app, s, s, a);
    CheckingIsInvisible(app, s, s, b);
  }

  // Heights

  function CountCommits(calls: seq<Call>): nat {
    if calls == [] then 0 else (if calls[0].Commit? then 1 else 0) + CountCommits(calls[1..])
  }

  /** Heights advance by exactly one per Commit, and the n-th commit of a run has the n-th height. */
  lemma {:induction false} HeightsAdvance(app: App, s: AppState, calls: seq<Call>)
    ensures Run(app, s, calls).Ok? ==> Run(app, s, calls).value.height == s.height + CountCommits(calls)
    ensures Run(app, s, calls).Ok? ==> |Commits(app, s, calls)| == CountCommits(calls)
    ensures forall i :: 0 <= i < |Commits(app, s, calls)| ==> Commits(app, s, calls)[i].0 == s.height + 1 + i
    decreases |calls|
  {
    if calls != [] && Step(app, s, calls[0]).Ok? {
      var next := Step(app, s, calls[0]).value;
      assert next.height == s.height + if calls[0].Commit? then 1 else 0 by {
        hide RunTx, RunBlocker, InitDeliver, BeginDeliver;
      }
      hide Step;
      HeightsAdvance(app, next, calls[1..]);
    }
  }

  /** A run that does not panic begins every block at the height that its commits have reached plus one. */
  lemma {:induction false} BlockHeights(app: App, s: AppState, calls: seq<Call>, i: nat)
    requires i < |calls| && calls[i].BeginBlock? && Run(app, s, calls).Ok?
    ensures calls[i].header.height == s.height + CountCommits(calls[..i]) + 1
    decreases |calls|
  {
    var next := Step(app, s, calls[0]).value;
    if i > 0 {
      assert next.height == s.height + if calls[0].Commit? then 1 else 0 by {
        hide RunTx, RunBlocker, InitDeliver, BeginDeliver;
      }
      hide Step;
      BlockHeights(app, next, calls[1..], i - 1);
      assert calls[..i][1..] == calls[1..][..i - 1];
    } else {
      assert calls[..0] == [];
    }
  }

  /** A block starts with an unused gas meter: of the limit that the contents set, or without limit when
      they set none; and under its own header. */
  lemma BlockStarts(app: App, s: AppState, header: Header, votes: Bytes, request: Bytes)
    requires Step(app, s, BeginBlock(header, votes, request)).Ok?
    ensures var after := Step(app, s, BeginBlock(header, votes, request)).value;
            var view := if s.deliver.None? then s.committed else s.deliver.value.view;
            && after.deliver.Some? && after.deliver.value.header == header && after.votes == votes
            && after.deliver.value.blockMeter
               == Some(if app.maxGas(view) > 0 then Basic(app.maxGas(view), 0) else Infinite(0))
            && app.maxGas(view) >= -1
            && (after.committed, after.height, after.check) == (s.committed, s.height, s.check)
  {
  }

  /** Between a Commit and the next BeginBlock: the check state is the committed state plus what was
      checked since, and there is no deliver state. */
  predicate Idle(s: AppState) {
    s.deliver.None? && s.check.Some?
  }

  lemma {:induction false} IdleWhileChecking(app: App, s: AppState, calls: seq<Call>)
    requires Idle(s) && forall c :: c in calls ==> !IsConsensus(c)
    ensures Run(app, s, calls).Ok?
    ensures var t := Run(app, s, calls).value; Idle(t) && Agree(s, t)
    decreases |calls|
  {
    hide Step;
    if calls != [] {
      CheckStepInvisible(app, s, calls[0]);
      IdleWhileChecking(app, Step(app, s, calls[0]).value, calls[1..]);
    }
  }

  /** After a Commit the check state starts over from the committed contents under the header of the block. */
  lemma CommitResets(app: App, s: AppState)
    requires s.deliver.Some?
    ensures var r := Step(app, s, Commit);
            && r.Ok? && Idle(r.value)
            && r.value.check.value.view == r.value.committed
            && r.value.check.value.header == s.deliver.value.header
            && r.value.committed.Keys == s.deliver.value.view.Keys
            && (forall k :: k in r.value.committed && k !in app.transient ==>
                              r.value.committed[k] == s.deliver.value.view[k])
            && (forall k :: k in r.value.committed && k in app.transient ==> r.value.committed[k] == map[])
  {
  }

  // Block gas

  /** What an admitted transaction charges to the block. */
  function ChargeOf(app: App, st: TxState, votes: Bytes, tx: Tx): Uint64 {
    Reported(RunBody(app, Deliver, st, votes, tx).meter)
  }

  /** The transactions of a block, one after the other. */
  function DeliverAll(app: App, st: TxState, votes: Bytes, txs: seq<Tx>): TxState
    requires st.blockMeter.Some?
    decreases |txs|
  {
    if txs == [] then st else DeliverAll(app, RunTx(app, Deliver, st, votes, txs[0]).0, votes, txs[1..])
  }

  /** The charges of the admitted ones, in order. */
  function Charges(app: App, st: TxState, votes: Bytes, txs: seq<Tx>): seq<Uint64>
    requires st.blockMeter.Some?
    decreases |txs|
  {
    if txs == [] then
      []
    else
      var next := RunTx(app, Deliver, st, votes, txs[0]).0;
      (if Admitted(Deliver, st) then [ChargeOf(app, st, votes, txs[0])] else []) + Charges(app, next, votes, txs[1..])
  }

  /** One admitted transaction adds exactly its charge, unless the sum leaves 64 bits; then the count
      starts again from zero. */
  lemma ChargeIsExact(app: App, st: TxState, votes: Bytes, tx: Tx)
    requires st.blockMeter.Some? && Admitted(Deliver, st)
    ensures var c, g := st.blockMeter.value.consumed, ChargeOf(app, st, votes, tx);
            var meter := RunTx(app, Deliver, st, votes, tx).0.blockMeter.value;
            && meter.consumed == (if c + g < TWO_64 then c + g else 0)
            && meter == st.blockMeter.value.(consumed := meter.consumed)
  {
    hide RunBody;
  }

  /** A transaction whose messages succeed has its writes kept, and yet is reported as failed exactly when
      its charge takes the block past its limit or, whatever the limit, out of 64 bits. */
  lemma WrittenButReportedFailed(app: App, st: TxState, votes: Bytes, tx: Tx)
    requires st.blockMeter.Some? && Admitted(Deliver, st)
    requires AnteAccepts(app, Deliver, st, votes, tx) && MsgsAfterAnte(app, Deliver, st, votes, tx).outcome == Success
    ensures var (after, result) := RunTx(app, Deliver, st, votes, tx);
            var block := st.blockMeter.value;
            var total := block.consumed + ChargeOf(app, st, votes, tx);
            && after.view == MsgsAfterAnte(app, Deliver, st, votes, tx).view
            && (result.ok <==> total < TWO_64 && (block.Basic? ==> total <= block.limit))
  {
    BasicIsWellFormed(app, tx);
    AnteRuns(app, Deliver, st, votes, tx);
    hide RunMsgs, RunAnte, BasicValid, AnteView, AnteEnv, AnteMeter;
  }

  /** An application whose only message writes one key and uses the given gas. */
  function Writer(gas: Uint64): App {
    App(
      raw => Some(Tx(raw, [raw])),
      _ => true,
      None,
      (_, _, _, _) => Some(Effect([MultiOp("store", Nesting.Set([], []))], Infinite(gas), Success)),
      None,
      _ => Some([]),
      (_, _, _, meter) => Effect([], meter, Success),
      (_, _, _, meter) => Effect([], meter, Success),
      _ => -1,
      {})
  }

  /** With 5 gas left in the block, a transaction that uses 7 is reported as failed, and its write is there.
      Without a limit, the same happens to one that takes the count out of 64 bits. */
  lemma FailedYetWritten(limited: bool)
    ensures var st := TxState(map["store" := map[]], Header(1, []), Infinite(0),
                              Some(if limited then Basic(5, 0) else Infinite(TWO_64 - 1)));
            var (after, result) := RunTx(Writer(7), Deliver, st, [], Tx([], [[]]));
            !result.ok && after.view == map["store" := map[[] := []]]
  {
    var app, tx: Tx := Writer(7), Tx([], [[]]);
    var st := TxState(map["store" := map[]], Header(1, []), Infinite(0),
                      Some(if limited then Basic(5, 0) else Infinite(TWO_64 - 1)));
    var env := EnvOf(st, Deliver, [], tx);
    var op := MultiOp("store", Nesting.Set([], []));
    var after: MultiView := map["store" := map[[] := []]];
    assert AppliedTo(st.view, op) == Ok(after) by {
      assert st.view["store" := Nesting.Applied(st.view["store"], op.op)] == after;
    }
    assert [op][1..] == [] && Performed(st.view, [op]) == (after, true);
    assert RunMsg(app, env, st.view, st.shared, []) == MsgsRun(after, Infinite(7), Success);
    assert tx.msgs[1..] == [];
    WrittenButReportedFailed(app, st, [], tx);
  }

  /** At a spent block nothing more happens, whatever is delivered. */
  lemma {:induction false} SpentBlockRejects(app: App, st: TxState, votes: Bytes, txs: seq<Tx>)
    requires st.blockMeter.Some? && Spent(Deliver, st)
    ensures DeliverAll(app, st, votes, txs) == st && Charges(app, st, votes, txs) == []
    decreases |txs|
  {
    if txs != [] {
      SpentBlockRejects(app, st, votes, txs[1..]);
    }
  }

  /** Over all the transactions of a block whose gas stays within 64 bits: the block counts exactly the
      charges of the admitted ones, and before the last of them it was still below its limit. */
  lemma {:induction false} BlockGasIsSum(app: App, st: TxState, votes: Bytes, txs: seq<Tx>)
    requires st.blockMeter.Some? && st.blockMeter.value.Basic?
    requires st.blockMeter.value.consumed + Total(Charges(app, st, votes, txs)) < TWO_64
    ensures var charges := Charges(app, st, votes, txs);
            var start, limit := st.blockMeter.value.consumed, st.blockMeter.value.limit;
            && DeliverAll(app, st, votes, txs).blockMeter == Some(Basic(limit, start + Total(charges)))
            && (charges != [] ==> start + Total(charges) - charges[|charges| - 1] < limit)
    decreases |txs|
  {
    hide RunTx, ChargeOf;
    if txs != [] {
      var next := RunTx(app, Deliver, st, votes, txs[0]).0;
      var rest := Charges(app, next, votes, txs[1..]);
      if Admitted(Deliver, st) {
        ChargeIsExact(app, st, votes, txs[0]);
        assert Charges(app, st, votes, txs)[1..] == rest;
        BlockGasIsSum(app, next, votes, txs[1..]);
      } else {
        SpentBlockRejects(app, st, votes, txs);
      }
    }
  }

  // What genesis sets reaches the first commit

  /** The call writes the key of the store. */
  predicate Touches(op: MultiOp, k: StoreKey, key: Bytes) {
    op.store == k && ((op.op.Set? && op.op.key == key) || (op.op.Delete? && op.op.key == key))
  }

  predicate Leaves(ops: seq<MultiOp>, k: StoreKey, key: Bytes) {
    forall i :: 0 <= i < |ops| ==> !Touches(ops[i], k, key)
  }

  /** No block handler, ante handler or message handler writes the key. */
  ghost predicate Spares(app: App, k: StoreKey, key: Bytes) {
    && (forall request, env, view, meter :: Leaves(app.beginBlocker(request, env, view, meter).ops, k, key))
    && (forall request, env, view, meter :: Leaves(app.endBlocker(request, env, view, meter).ops, k, key))
    && (app.ante.Some? ==>
          forall env, view, meter, tx, simulate :: Leaves(app.ante.value(env, view, meter, tx, simulate).ops, k, key))
    && (forall env, view, meter, msg :: app.handler(env, view, meter, msg).Some? ==>
          Leaves(app.handler(env, view, meter, msg).value.ops, k, key))
  }

  /** What the contents hold under the key of the store. */
  function Held(view: MultiView, k: StoreKey, key: Bytes): Option<Bytes> {
    if k in view then Lookup(view[k], key) else None
  }

  lemma {:induction false} PerformedLeaves(view: MultiView, ops: seq<MultiOp>, k: StoreKey, key: Bytes)
    requires Leaves(ops, k, key)
    ensures Held(Performed(view, ops).0, k, key) == Held(view, k, key)
    ensures Performed(view, ops).0.Keys == view.Keys
    decreases |ops|
  {
    if ops != [] {
      var op := ops[0];
      assert !Touches(op, k, key);
      var next := AppliedTo(view, op);
      if next.Ok? {
        assert next.value.Keys == view.Keys;
        assert Held(next.value, k, key) == Held(view, k, key);
        hide AppliedTo;
        PerformedLeaves(next.value, ops[1..], k, key);
      }
    }
  }

  lemma {:induction false} MsgsLeave(app: App, env: Env, view: MultiView, meter: Meter, msgs: seq<Msg>, k: StoreKey,
                                     key: Bytes)
    requires Spares(app, k, key)
    ensures Held(RunMsgs(app, env, view, meter, msgs).view, k, key) == Held(view, k, key)
    decreases |msgs|
  {
    hide Performed, Held, Leaves;
    if msgs != [] {
      var e := app.handler(env, view, meter, msgs[0]);
      if e.Some? {
        PerformedLeaves(view, e.value.ops, k, key);
      }
      var first := RunMsg(app, env, view, meter, msgs[0]);
      assert Held(first.view, k, key) == Held(view, k, key);
      hide RunMsg, Spares;
      MsgsLeave(app, env, first.view, first.meter, msgs[1..], k, key);
    }
  }

  lemma TxLeaves(app: App, mode: Mode, st: TxState, votes: Bytes, tx: Tx, k: StoreKey, key: Bytes)
    requires (mode == Deliver ==> st.blockMeter.Some?) && Spares(app, k, key)
    ensures Held(RunTx(app, mode, st, votes, tx).0.view, k, key) == Held(st.view, k, key)
  {
    var e := AnteOf(app, mode, st, votes, tx);
    assert Leaves(e.ops, k, key);
    PerformedLeaves(st.view, e.ops, k, key);
    hide Spares, Leaves, Performed, Held, AnteOf, RunMsgs;
    TxIsAtomic(app, mode, st, votes, tx);
    MsgsLeave(app, AnteEnv(app, mode, st, votes, tx), AnteView(app, mode, st, votes, tx),
              AnteMeter(app, mode, st, votes, tx), tx.msgs, k, key);
    hide RunTx, AnteEnv, AnteMeter, AnteAccepts, Admitted;
  }

  /** The calls between InitChain and the first Commit. */
  predicate InBlock(call: Call) {
    !call.InitChain? && !call.Commit?
  }

  lemma CallLeaves(app: App, s: AppState, call: Call, k: StoreKey, key: Bytes)
    requires Spares(app, k, key) && s.deliver.Some? && InBlock(call) && Step(app, s, call).Ok?
    ensures var after := Step(app, s, call).value;
            after.deliver.Some? && Held(after.deliver.value.view, k, key) == Held(s.deliver.value.view, k, key)
  {
    var st := s.deliver.value;
    match call {
      case BeginBlock(header, votes, request) =>
        var e := app.beginBlocker(request, BlockContext(header), st.view, st.shared);
        assert Leaves(e.ops, k, key);
        PerformedLeaves(st.view, e.ops, k, key);
        hide Spares, Leaves, Performed, Held;
      case EndBlock(request) =>
        var e := app.endBlocker(request, BlockContext(st.header), st.view, st.shared);
        assert Leaves(e.ops, k, key);
        PerformedLeaves(st.view, e.ops, k, key);
        hide Spares, Leaves, Performed, Held;
      case DeliverTx(raw) =>
        if app.decode(raw).Some? {
          TxLeaves(app, Deliver, st, s.votes, app.decode(raw).value, k, key);
          hide Spares, Leaves, RunTx, Held;
        }
      case _ => hide Spares, RunTx;
    }
  }

  lemma {:induction false} BlockLeaves(app: App, s: AppState, calls: seq<Call>, k: StoreKey, key: Bytes)
    requires Spares(app, k, key) && s.deliver.Some? && Run(app, s, calls).Ok?
    requires forall i :: 0 <= i < |calls| ==> InBlock(calls[i])
    ensures var after := Run(app, s, calls).value;
            after.deliver.Some? && Held(after.deliver.value.view, k, key) == Held(s.deliver.value.view, k, key)
    decreases |calls|
  {
    hide Spares, Step, Held;
    if calls != [] {
      CallLeaves(app, s, calls[0], k, key);
      BlockLeaves(app, Step(app, s, calls[0]).value, calls[1..], k, key);
    }
  }

  lemma {:induction false} RunConcat(app: App, s: AppState, a: seq<Call>, b: seq<Call>)
    ensures Run(app, s, a + b) ==
            if Run(app, s, a).Ok? then Run(app, Run(app, s, a).value, b) else Panic
    decreases |a|
  {
    hide Step;
    if a == [] {
      assert a + b == b;
    } else {
      assert (a + b)[1..] == a[1..] + b;
      if Step(app, s, a[0]).Ok? {
        RunConcat(app, Step(app, s, a[0]).value, a[1..], b);
      }
    }
  }

  /** What the init chainer sets is in the first committed contents, in a store that is not transient and if no
      handler writes it again, whatever else happens in between. */
  lemma GenesisIsCommitted(app: App, s: AppState, header: Header, request: Bytes, block: seq<Call>, k: StoreKey,
                           key: Bytes)
    requires app.initChainer.Some? && Spares(app, k, key) && k !in app.transient
    requires forall i :: 0 <= i < |block| ==> InBlock(block[i])
    requires Run(app, s, [InitChain(header, request)] + block + [Commit]).Ok?
    ensures app.storeParams(request).Some?
    ensures var view := Performed(s.committed, app.storeParams(request).value).0;
            var e := app.initChainer.value(request, BlockContext(header), view, Infinite(0));
            var after := Run(app, s, [InitChain(header, request)] + block + [Commit]).value;
            Held(after.committed, k, key) == Held(Performed(view, e.ops).0, k, key)
  {
    hide Spares, Held, Step, Performed;
    var init: seq<Call>, end: seq<Call> := [InitChain(header, request)], [Commit];
    RunConcat(app, s, init + block, end);
    RunConcat(app, s, init, block);
    assert init[1..] == [] && end[1..] == [];
    var r := Step(app, s, init[0]);
    InitChainLaw(app, s, header, request, r);
    var middle := Run(app, r.value, block).value;
    BlockLeaves(app, r.value, block, k, key);
    CommitLaw(app, middle, Step(app, middle, Commit));
    CommitKeeps(middle.deliver.value.view, Step(app, middle, Commit).value.committed, app.transient, k, key);
  }

  lemma CommitKeeps(view: MultiView, committed: MultiView, transient: set<StoreKey>, k: StoreKey, key: Bytes)
    requires committed.Keys == view.Keys && k !in transient
    requires forall j :: j in view ==> committed[j] == if j in transient then map[] else view[j]
    ensures Held(committed, k, key) == Held(view, k, key)
  {
  }
}
