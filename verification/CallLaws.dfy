/** What each ABCI call does, said from what the handlers of the application do. */
module CallLaws {
  import opened Basics
  import opened ByteOrder
  import opened MergeSpec
  import opened CacheMulti
  import opened Gas
  import opened BaseAppSpec
  import opened TxLaws
  import Nesting

  /** A state over contents, under a header, before anything has been charged. */
  predicate Unused(st: Option<TxState>, view: MultiView, header: Header) {
    st == Some(TxState(view, header, Infinite(0), None))
  }

  /** The context of the block handlers. */
  function BlockContext(header: Header): Env {
    Env(header, false, false, [], [])
  }

  /** The consensus parameters are stored in new contents over the committed ones, and then the init chainer does
      its calls on them. The check state starts over from the committed contents. */
  ghost predicate InitChainDoes(app: App, s: AppState, header: Header, request: Bytes, r: Result<AppState>) {
    var params := app.storeParams(request);
    if params.None? || !Performed(s.committed, params.value).1 then r.Panic?
    else
      var view := Performed(s.committed, params.value).0;
      if app.initChainer.None? then
        && r.Ok? && Unused(r.value.check, s.committed, header) && Unused(r.value.deliver, view, header)
        && r.value == s.(check := r.value.check, deliver := r.value.deliver)
      else
        var e := app.initChainer.value(request, BlockContext(header), view, Infinite(0));
        var (after, completed) := Performed(view, e.ops);
        if !completed || e.outcome == Panicked then r.Panic?
        else
          && r.Ok? && Unused(r.value.check, s.committed, header)
          && r.value.deliver == Some(TxState(after, header, e.meter, Some(Infinite(0))))
          && r.value == s.(check := r.value.check, deliver := r.value.deliver)
  }

  /** At the right height, on the deliver state or on new contents over the committed ones, the begin blocker does
      its calls under the header of the block. The block has an unused gas meter of the limit that the contents
      before set. */
  ghost predicate BeginBlockDoes(app: App, s: AppState, header: Header, votes: Bytes, request: Bytes,
                                 r: Result<AppState>)
  {
    var view := if s.deliver.Some? then s.deliver.value.view else s.committed;
    var shared := if s.deliver.Some? then s.deliver.value.shared else Infinite(0);
    var limit := app.maxGas(view);
    var e := app.beginBlocker(request, BlockContext(header), view, shared);
    var (after, completed) := Performed(view, e.ops);
    if header.height < 1 || header.height != s.height + 1 || limit < -1 || !completed || e.outcome == Panicked then
      r.Panic?
    else
      var block := if limit > 0 then Basic(limit, 0) else Infinite(0);
      r == Ok(s.(deliver := Some(TxState(after, header, e.meter, Some(block))), votes := votes))
  }

  /** The end blocker does its calls on the deliver state. */
  ghost predicate EndBlockDoes(app: App, s: AppState, request: Bytes, r: Result<AppState>) {
    if s.deliver.None? then r.Panic?
    else
      var st := s.deliver.value;
      var e := app.endBlocker(request, BlockContext(st.header), st.view, st.shared);
      var (after, completed) := Performed(st.view, e.ops);
      if !completed || e.outcome == Panicked then r.Panic?
      else r == Ok(s.(deliver := Some(TxState(after, st.header, e.meter, st.blockMeter))))
  }

  /** Bytes that are no transaction change nothing. A transaction is run on the deliver state, which must be there
      and have a block gas meter. */
  ghost predicate DeliverTxDoes(app: App, s: AppState, raw: Bytes, r: Result<AppState>) {
    var tx := app.decode(raw);
    if tx.None? then r == Ok(s)
    else if s.deliver.None? || s.deliver.value.blockMeter.None? then r.Panic?
    else
      && r.Ok? && r.value.deliver.Some? && r.value == s.(deliver := r.value.deliver)
      && exists result: TxResult ::
           TxDoes(app, Deliver, s.deliver.value, s.votes, tx.value, r.value.deliver.value, result)
  }

  /** A transaction that is checked or simulated is run on the check state. */
  ghost predicate CheckDoes(app: App, s: AppState, mode: Mode, tx: Tx, r: Result<AppState>)
    requires mode != Deliver
  {
    if s.check.None? then r.Panic?
    else
      && r.Ok? && r.value.check.Some? && r.value == s.(check := r.value.check)
      && exists result: TxResult :: TxDoes(app, mode, s.check.value, s.votes, tx, r.value.check.value, result)
  }

  /** The contents of the deliver state are committed at the next height, without those of transient stores. The
      check state starts over from them under the header of the block, and there is no deliver state. */
  ghost predicate CommitDoes(app: App, s: AppState, r: Result<AppState>) {
    if s.deliver.None? then r.Panic?
    else
      var view := s.deliver.value.view;
      && r.Ok? && r.value.committed.Keys == view.Keys
      && (forall k :: k in view ==> r.value.committed[k] == if k in app.transient then map[] else view[k])
      && r.value.height == s.height + 1 && r.value.votes == s.votes
      && Unused(r.value.check, r.value.committed, s.deliver.value.header) && r.value.deliver.None?
  }

  ghost predicate StepDoes(app: App, s: AppState, call: Call, r: Result<AppState>) {
    match call
    case InitChain(header, request) => InitChainDoes(app, s, header, request, r)
    case BeginBlock(header, votes, request) => BeginBlockDoes(app, s, header, votes, request, r)
    case DeliverTx(raw) => DeliverTxDoes(app, s, raw, r)
    case EndBlock(request) => EndBlockDoes(app, s, request, r)
    case Commit => CommitDoes(app, s, r)
    case CheckTx(raw, recheck) =>
      var tx := app.decode(raw);
      if tx.None? then r == Ok(s) else CheckDoes(app, s, if recheck then ReCheck else Check, tx.value, r)
    case SimulateTx(tx) => CheckDoes(app, s, Simulate, tx, r)
  }

  lemma InitChainLaw(app: App, s: AppState, header: Header, request: Bytes, r: Result<AppState>)
    ensures InitChainDoes(app, s, header, request, r) <==> Step(app, s, InitChain(header, request)) == r
  {
    hide Performed;
  }

  lemma BeginBlockLaw(app: App, s: AppState, header: Header, votes: Bytes, request: Bytes, r: Result<AppState>)
    ensures BeginBlockDoes(app, s, header, votes, request, r) <==> Step(app, s, BeginBlock(header, votes, request)) == r
  {
    hide Performed;
  }

  lemma EndBlockLaw(app: App, s: AppState, request: Bytes, r: Result<AppState>)
    ensures EndBlockDoes(app, s, request, r) <==> Step(app, s, EndBlock(request)) == r
  {
    hide Performed;
  }

  lemma CommitLaw(app: App, s: AppState, r: Result<AppState>)
    ensures CommitDoes(app, s, r) <==> Step(app, s, Commit) == r
  {
    if CommitDoes(app, s, r) && r.Ok? {
      assert r.value.committed == Settle(app, s.deliver.value.view);
    }
  }

  lemma DeliverTxLaw(app: App, s: AppState, raw: Bytes, r: Result<AppState>)
    ensures DeliverTxDoes(app, s, raw, r) <==> Step(app, s, DeliverTx(raw)) == r
  {
    hide RunTx, TxDoes;
    var tx := app.decode(raw);
    if tx.Some? && s.deliver.Some? && s.deliver.value.blockMeter.Some? {
      AllOutcomes(app, Deliver, s.deliver.value, s.votes, tx.value);
    }
  }

  lemma CheckLaw(app: App, s: AppState, mode: Mode, tx: Tx, r: Result<AppState>)
    requires mode != Deliver
    ensures CheckDoes(app, s, mode, tx, r) <==> CheckStep(app, s, mode, tx) == r
  {
    hide RunTx, TxDoes;
    if s.check.Some? {
      AllOutcomes(app, mode, s.check.value, s.votes, tx);
    }
  }

  lemma AllOutcomes(app: App, mode: Mode, st: TxState, votes: Bytes, tx: Tx)
    requires mode == Deliver ==> st.blockMeter.Some?
    ensures forall after: TxState, result: TxResult ::
              TxDoes(app, mode, st, votes, tx, after, result) <==> RunTx(app, mode, st, votes, tx) == (after, result)
  {
    hide RunTx, TxDoes;
    forall after: TxState, result: TxResult
      ensures TxDoes(app, mode, st, votes, tx, after, result) <==> RunTx(app, mode, st, votes, tx) == (after, result)
    {
      TxLaw(app, mode, st, votes, tx, after, result);
    }
  }

  /** Every call does this and nothing else. */
  lemma EveryCall(app: App, s: AppState, call: Call, r: Result<AppState>)
    ensures StepDoes(app, s, call, r) <==> Step(app, s, call) == r
  {
    hide InitChainDoes, BeginBlockDoes, EndBlockDoes, CommitDoes, DeliverTxDoes, CheckDoes;
    hide InitDeliver, BeginDeliver, RunBlocker, CheckStep, Settle, RunTx;
    match call {
      case InitChain(header, request) => InitChainLaw(app, s, header, request, r);
      case BeginBlock(header, votes, request) => BeginBlockLaw(app, s, header, votes, request, r);
      case DeliverTx(raw) => DeliverTxLaw(app, s, raw, r);
      case EndBlock(request) => EndBlockLaw(app, s, request, r);
      case Commit => CommitLaw(app, s, r);
      case CheckTx(raw, recheck) =>
        var tx := app.decode(raw);
        if tx.Some? {
          CheckLaw(app, s, if recheck then ReCheck else Check, tx.value, r);
        }
      case SimulateTx(tx) => CheckLaw(app, s, Simulate, tx, r);
    }
  }
}
