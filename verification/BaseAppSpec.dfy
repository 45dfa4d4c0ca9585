/** baseapp/baseapp.go and baseapp/abci.go on plain contents: what a transaction, a call and a run of
    calls do. The handlers of the application are arbitrary deterministic functions of what they can read. */
module BaseAppSpec {
  import opened Basics
  import opened ByteOrder
  import opened MergeSpec
  import opened CacheMulti
  import opened Gas

  type Int64 = x: int | -0x8000_0000_0000_0000 <= x < 0x8000_0000_0000_0000

  datatype Header = Header(height: int, rest: Bytes)

  type Msg = Bytes

  datatype Tx = Tx(raw: Bytes, msgs: seq<Msg>)

  datatype Mode = Check | ReCheck | Simulate | Deliver

  /** What a handler knows besides the stores and its gas meter. */
  datatype Env = Env(header: Header, isCheckTx: bool, isReCheckTx: bool, votes: Bytes, txBytes: Bytes)

  datatype Outcome = Success | Error | Panicked

  /** What a handler does: calls on the stores, its gas meter afterwards, and how it ends. */
  datatype Effect = Effect(ops: seq<MultiOp>, meter: Meter, outcome: Outcome)

  /** The ante handler also returns a context, or none; shared is the gas meter it was given. A context has
      a gas meter of its own, or keeps the shared one. */
  datatype AnteEffect = AnteEffect(
    ops: seq<MultiOp>, shared: Meter, context: Option<(Env, Option<Meter>)>, outcome: Outcome)

  /** The functions an application plugs in. */
  datatype App = App(
    decode: Bytes -> Option<Tx>,
    validateBasic: Msg -> bool,
    ante: Option<(Env, MultiView, Meter, Tx, bool) -> AnteEffect>,
    handler: (Env, MultiView, Meter, Msg) -> Option<Effect>,
    initChainer: Option<(Bytes, Env, MultiView, Meter) -> Effect>,
    storeParams: Bytes -> Option<seq<MultiOp>>,
    beginBlocker: (Bytes, Env, MultiView, Meter) -> Effect,
    endBlocker: (Bytes, Env, MultiView, Meter) -> Effect,
    maxGas: MultiView -> Int64,
    transient: set<StoreKey>)

  /** A check or deliver state: contents, and the parts of its context that calls change. */
  datatype TxState = TxState(view: MultiView, header: Header, shared: Meter, blockMeter: Option<Meter>)

  datatype TxResult = TxResult(ok: bool, gasWanted: Uint64, gasUsed: Uint64)

  function EnvOf(st: TxState, mode: Mode, votes: Bytes, tx: Tx): Env {
    Env(st.header, mode != Deliver, mode == ReCheck, votes, tx.raw)
  }

  // The messages

  /** How a list of messages ends on the given contents: the first failure stops it. */
  datatype MsgsRun = MsgsRun(view: MultiView, meter: Meter, outcome: Outcome)

  function RunMsg(app: App, env: Env, view: MultiView, meter: Meter, msg: Msg): MsgsRun {
    match app.handler(env, view, meter, msg)
    case None => MsgsRun(view, meter, Error)
    case Some(e) =>
      var (after, completed) := Performed(view, e.ops);
      MsgsRun(after, e.meter, if completed then e.outcome else Panicked)
  }

  function RunMsgs(app: App, env: Env, view: MultiView, meter: Meter, msgs: seq<Msg>): MsgsRun
    decreases |msgs|
  {
    if msgs == [] then
      MsgsRun(view, meter, Success)
    else
      var first := RunMsg(app, env, view, meter, msgs[0]);
      if first.outcome != Success then first
      else RunMsgs(app, env, first.view, first.meter, msgs[1..])
  }

  /** Messages are not executed when checking. */
  function MsgsIn(app: App, mode: Mode, env: Env, view: MultiView, meter: Meter, msgs: seq<Msg>): MsgsRun {
    if mode == Check || mode == ReCheck then MsgsRun(view, meter, Success) else RunMsgs(app, env, view, meter, msgs)
  }

  // The ante handler

  /** How the ante handler ends: its contents if it succeeds, the context to go on with, and the
      shared gas meter. */
  datatype AnteRun = AnteRun(view: MultiView, env: Env, meter: Meter, ownMeter: bool, shared: Meter, outcome: Outcome)

  function RunAnte(app: App, mode: Mode, env: Env, view: MultiView, shared: Meter, tx: Tx): AnteRun {
    match app.ante
    case None => AnteRun(view, env, shared, false, shared, Success)
    case Some(ante) =>
      var e := ante(env, view, shared, tx, mode == Simulate);
      var (after, completed) := Performed(view, e.ops);
      if !completed || e.outcome == Panicked then
        AnteRun(view, env, e.shared, false, e.shared, Panicked)
      else
        match e.context
        case Some((env', Some(meter))) => AnteRun(after, env', meter, true, e.shared, e.outcome)
        case Some((env', None)) => AnteRun(after, env', e.shared, false, e.shared, e.outcome)
        case None => AnteRun(after, env, e.shared, false, e.shared, e.outcome)
  }

  predicate BasicValid(app: App, tx: Tx) {
    tx.msgs != [] && forall m :: m in tx.msgs ==> app.validateBasic(m)
  }

  // runTx

  /** The part of runTx that the deferred functions enclose. */
  datatype Body = Body(view: MultiView, shared: Meter, meter: Meter, gasWanted: Uint64, ok: bool)

  /** Ante handler and messages on the contents of a state. */
  function RunInner(app: App, mode: Mode, st: TxState, votes: Bytes, tx: Tx): Body {
    if !BasicValid(app, tx) then
      Body(st.view, st.shared, st.shared, 0, false)
    else
      var a := RunAnte(app, mode, EnvOf(st, mode, votes, tx), st.view, st.shared, tx);
      var wanted := if app.ante.Some? && a.outcome != Panicked then Limit(a.meter) else 0;
      if a.outcome != Success then
        Body(st.view, a.shared, a.meter, wanted, false)
      else
        var m := MsgsIn(app, mode, a.env, a.view, a.meter, tx.msgs);
        var kept := if mode == Deliver && m.outcome == Success then m.view else a.view;
        Body(kept, if a.ownMeter then a.shared else m.meter, m.meter, wanted, m.outcome == Success)
  }

  /** A simulation works on a cache-wrap of the state that is never written. */
  function RunBody(app: App, mode: Mode, st: TxState, votes: Bytes, tx: Tx): Body {
    var b := RunInner(app, mode, st, votes, tx);
    if mode == Simulate then b.(view := st.view) else b
  }

  /** A transaction on a state. The block is charged after the state has been written. */
  function RunTx(app: App, mode: Mode, st: TxState, votes: Bytes, tx: Tx): (r: (TxState, TxResult))
    requires mode == Deliver ==> st.blockMeter.Some?
    ensures r.0.blockMeter.Some? == st.blockMeter.Some? && r.0.header == st.header
  {
    if mode == Deliver && IsOutOfGas(st.blockMeter.value) then
      (st, TxResult(false, 0, st.blockMeter.value.consumed))
    else
      var b := RunBody(app, mode, st, votes, tx);
      var next := st.(view := b.view, shared := b.shared);
      if mode == Deliver then
        var (block, charge) := Consume(st.blockMeter.value, ConsumedToLimit(b.meter));
        (next.(blockMeter := Some(block)), TxResult(b.ok && charge == Charged, b.gasWanted, b.meter.consumed))
      else
        (next, TxResult(b.ok, b.gasWanted, b.meter.consumed))
  }

  // The ABCI calls

  /** The state of the application between calls. */
  datatype AppState = AppState(
    committed: MultiView, height: nat, check: Option<TxState>, deliver: Option<TxState>, votes: Bytes)

  datatype Call =
    | InitChain(header: Header, request: Bytes)
    | BeginBlock(header: Header, votes: Bytes, request: Bytes)
    | DeliverTx(raw: Bytes)
    | EndBlock(request: Bytes)
    | Commit
    | CheckTx(raw: Bytes, recheck: bool)
    | SimulateTx(tx: Tx)

  /** A new state over the committed contents. */
  function FreshState(committed: MultiView, header: Header): TxState {
    TxState(committed, header, Infinite(0), None)
  }

  function BlockEnv(st: TxState): Env {
    Env(st.header, false, false, [], [])
  }

  /** A block handler on the deliver state; a panic in it stops the process. */
  function RunBlocker(st: TxState, e: Effect): Result<TxState> {
    var (after, completed) := Performed(st.view, e.ops);
    if completed && e.outcome != Panicked then Ok(st.(view := after, shared := e.meter)) else Panic
  }

  function InitDeliver(app: App, header: Header, request: Bytes, committed: MultiView): Result<TxState> {
    var st := FreshState(committed, header);
    match app.storeParams(request)
    case None => Panic
    case Some(ops) =>
      var (after, completed) := Performed(st.view, ops);
      if !completed then
        Panic
      else
        match app.initChainer
        case None => Ok(st.(view := after))
        case Some(init) =>
          var st' := st.(view := after, blockMeter := Some(Infinite(0)));
          RunBlocker(st', init(request, BlockEnv(st'), st'.view, st'.shared))
  }

  /** The block gas meter of a new block; a limit below -1 panics. */
  function BlockMeter(maxGas: Int64): Result<Meter> {
    if maxGas < -1 then Panic
    else if maxGas > 0 then Ok(Basic(maxGas, 0))
    else Ok(Infinite(0))
  }

  function BeginDeliver(app: App, s: AppState, header: Header, request: Bytes): Result<TxState> {
    if header.height < 1 || header.height != s.height + 1 then
      Panic
    else
      BeginState(app, if s.deliver.None? then FreshState(s.committed, header) else s.deliver.value.(header := header),
                 request)
  }

  function BeginState(app: App, st: TxState, request: Bytes): Result<TxState> {
    match BlockMeter(app.maxGas(st.view))
    case Panic => Panic
    case Ok(meter) =>
      var st' := st.(blockMeter := Some(meter));
      RunBlocker(st', app.beginBlocker(request, BlockEnv(st'), st'.view, st'.shared))
  }

  /** What a commit leaves of the contents: transient stores are emptied. */
  function Settle(app: App, view: MultiView): MultiView {
    map k | k in view :: if k in app.transient then map[] else view[k]
  }

  function Step(app: App, s: AppState, call: Call): Result<AppState> {
    match call
    case InitChain(header, request) =>
      (match InitDeliver(app, header, request, s.committed)
       case Panic => Panic
       case Ok(st) => Ok(s.(deliver := Some(st), check := Some(FreshState(s.committed, header)))))
    case BeginBlock(header, votes, request) =>
      (match BeginDeliver(app, s, header, request)
       case Panic => Panic
       case Ok(st) => Ok(s.(deliver := Some(st), votes := votes)))
    case DeliverTx(raw) =>
      (match app.decode(raw)
       case None => Ok(s)
       case Some(tx) =>
         if s.deliver.None? || s.deliver.value.blockMeter.None? then Panic
         else Ok(s.(deliver := Some(RunTx(app, Deliver, s.deliver.value, s.votes, tx).0))))
    case EndBlock(request) =>
      if s.deliver.None? then Panic
      else
        var st := s.deliver.value;
        (match RunBlocker(st, app.endBlocker(request, BlockEnv(st), st.view, st.shared))
         case Panic => Panic
         case Ok(after) => Ok(s.(deliver := Some(after))))
    case Commit =>
      if s.deliver.None? then Panic
      else
        var committed := Settle(app, s.deliver.value.view);
        Ok(AppState(committed, s.height + 1, Some(FreshState(committed, s.deliver.value.header)), None, s.votes))
    case CheckTx(raw, recheck) =>
      (match app.decode(raw)
       case None => Ok(s)
       case Some(tx) => CheckStep(app, s, if recheck then ReCheck else Check, tx))
    case SimulateTx(tx) =>
      CheckStep(app, s, Simulate, tx)
  }

  /** The answer to bytes that are no transaction. */
  const UNDECODABLE := TxResult(false, 0, 0)

  /** The answer to a transaction in a state where the call does not crash. */
  function TxAnswer(app: App, mode: Mode, s: AppState, tx: Option<Tx>): TxResult {
    var st := if mode == Deliver then s.deliver else s.check;
    if tx.None? || st.None? || (mode == Deliver && st.value.blockMeter.None?) then UNDECODABLE
    else RunTx(app, mode, st.value, s.votes, tx.value).1
  }

  function CheckStep(app: App, s: AppState, mode: Mode, tx: Tx): Result<AppState>
    requires mode != Deliver
  {
    if s.check.None? then Panic
    else Ok(s.(check := Some(RunTx(app, mode, s.check.value, s.votes, tx).0)))
  }

  /** A sequence of calls; after a panic nothing more happens. */
  function Run(app: App, s: AppState, calls: seq<Call>): Result<AppState>
    decreases |calls|
  {
    if calls == [] then
      Ok(s)
    else
      match Step(app, s, calls[0])
      case Panic => Panic
      case Ok(next) => Run(app, next, calls[1..])
  }
}
