/** baseapp/baseapp.go and baseapp/abci.go: the application object over the store stack. */
module BaseApp {
  import opened Basics
  import opened ByteOrder
  import opened MergeSpec
  import opened MountedStores
  import opened CacheKV
  import opened KVStores
  import opened CacheMulti
  import opened RootMulti
  import opened Gas
  import opened BaseAppSpec
  import opened TxRunner
  import opened TxLaws
  import opened CallLaws
  import Laws = BaseAppLaws

  /** A check or deliver state: a cache-wrapped multi-store and the parts of its context that calls change. */
  datatype State = State(ms: MultiStore, header: Header, shared: Meter, blockMeter: Option<Meter>)

  /** The two multi-stores share no buffer. */
  ghost predicate Apart(a: MultiStore, b: MultiStore) {
    forall j, k :: j in a.stores && k in b.stores ==> a.stores[j] != b.stores[k]
  }

  lemma NotAmong(ms: MultiStore, other: MultiStore, mounts: map<StoreKey, MountedStore>)
    requires ms.OnMounts(mounts) && Apart(ms, other)
    ensures forall k :: k in other.stores ==> other.stores[k] !in ms.Objects()
  {
  }

  /** Two multi-stores over the same mounted stores that do not share a buffer; the second may be absent. */
  ghost predicate SideBySide(ms: MultiStore, other: MultiStore?, mounts: map<StoreKey, MountedStore>)
    reads ms.Objects(), if other == null then {} else other.Objects()
    ensures SideBySide(ms, other, mounts) ==> ms.Sound() && (other != null ==> other.Sound())
  {
    && ms.OnMounts(mounts) && ms.Sound()
    && (other != null ==> other.OnMounts(mounts) && other.Sound() && Apart(ms, other))
  }

  ghost function ViewOf(other: MultiStore?): MultiView
    requires other != null ==> other.Sound()
    reads if other == null then {} else other.Objects()
  {
    if other == null then map[] else other.View()
  }

  lemma Flip(ms: MultiStore, other: MultiStore, mounts: map<StoreKey, MountedStore>)
    requires SideBySide(ms, other, mounts)
    ensures SideBySide(other, ms, mounts)
  {
    hide MultiStore.OnMounts, MultiStore.Sound;
  }

  /** A multi-store over the mounted stores consists of buffers and mounted stores. */
  lemma NotAnObject(ms: MultiStore, mounts: map<StoreKey, MountedStore>, o: object)
    requires ms.OnMounts(mounts) && !(o is Store) && !(o is MountedStore)
    ensures o !in ms.Objects()
  {
  }

  /** Running a transaction on one state leaves the mounted stores and the other state alone. */
  method RunApart(app: App, mode: Mode, ms: MultiStore, ghost other: MultiStore?,
                  ghost mounts: map<StoreKey, MountedStore>, st: TxState, votes: Bytes, tx: Tx)
    returns (shared: Meter, meter: Meter, gasWanted: Uint64, ok: bool)
    requires SideBySide(ms, other, mounts)
    modifies ms.Objects()
    ensures SideBySide(ms, other, mounts)
    ensures Data(mounts) == old(Data(mounts)) && ViewOf(other) == old(ViewOf(other))
    ensures RunBody(app, mode, st.(view := old(ms.View())), votes, tx) == Body(ms.View(), shared, meter, gasWanted, ok)
  {
    hide AllCoherent, AllLevels, Apart, Buffers, Data, Deep, RunBody, Tops, Unders;
    hide MultiStore.Full, MultiStore.Objects, MultiStore.OnMounts, MultiStore.Sound;
    MultiOnMounts(ms, mounts);
    ghost var b, d := Buffers(ms), Data(mounts);
    if other != null {
      NotAmong(ms, other, mounts);
      MultiOnMounts(other, mounts);
    }
    shared, meter, gasWanted, ok := RunBodyOn(app, mode, ms, st, votes, tx);
    MultiOnMounts(ms, mounts);
    LevelsShowData(b, d, Buffers(ms), Data(mounts));
    if other != null {
      assert Buffers(other) == old(Buffers(other));
      MultiOnMounts(other, mounts);
    }
  }

  /** A block handler on one state likewise. */
  method BlockApart(ms: MultiStore, ghost other: MultiStore?, ghost mounts: map<StoreKey, MountedStore>,
                    handler: MultiView -> Effect)
    returns (view: MultiView, e: Effect, completed: bool)
    requires SideBySide(ms, other, mounts)
    modifies ms.Objects()
    ensures SideBySide(ms, other, mounts)
    ensures Data(mounts) == old(Data(mounts)) && ViewOf(other) == old(ViewOf(other))
    ensures view == old(ms.View()) && e == handler(view)
    ensures (ms.View(), completed) == Performed(view, e.ops)
  {
    hide AllCoherent, AllLevels, Apart, Buffers, Data, Deep, Performed, Tops, Unders;
    hide MultiStore.Full, MultiStore.Objects, MultiStore.OnMounts, MultiStore.Sound;
    MultiOnMounts(ms, mounts);
    ghost var b, d := Buffers(ms), Data(mounts);
    if other != null {
      NotAmong(ms, other, mounts);
      MultiOnMounts(other, mounts);
    }
    view, e, completed := RunBlockerOn(ms, handler);
    MultiOnMounts(ms, mounts);
    LevelsShowData(b, d, Buffers(ms), Data(mounts));
    if other != null {
      assert Buffers(other) == old(Buffers(other));
      MultiOnMounts(other, mounts);
    }
  }

  /** runTx on a given state: the gas checks around the body. */
  method RunOn(app: App, mode: Mode, s: State, ghost other: MultiStore?, ghost mounts: map<StoreKey, MountedStore>,
               votes: Bytes, tx: Tx)
    returns (s': State, result: TxResult)
    requires SideBySide(s.ms, other, mounts) && (mode == Deliver ==> s.blockMeter.Some?)
    modifies s.ms.Objects()
    ensures s'.ms == s.ms && SideBySide(s.ms, other, mounts)
    ensures Data(mounts) == old(Data(mounts)) && ViewOf(other) == old(ViewOf(other))
    ensures (AbsState(Some(s')).value, result)
         == BaseAppSpec.RunTx(app, mode, old(AbsState(Some(s)).value), votes, tx)
  {
    hide Data, RunBody, SideBySide, ViewOf, MultiStore.Full, MultiStore.Objects, MultiStore.Sound;
    s' := s;
    if mode == Deliver && IsOutOfGas(s.blockMeter.value) {
      result := TxResult(false, 0, s.blockMeter.value.consumed);
      return;
    }
    var shared, meter, gasWanted, ok :=
      RunApart(app, mode, s.ms, other, mounts, TxState(map[], s.header, s.shared, s.blockMeter), votes, tx);
    s' := s'.(shared := shared);
    if mode == Deliver {
      var startingGas := s.blockMeter.value.consumed;
      var (block, charge) := Consume(s.blockMeter.value, ConsumedToLimit(meter));
      s' := s'.(blockMeter := Some(block));
      if charge != Charged || block.consumed < startingGas {
        ok := false;
      }
    }
    result := TxResult(ok, gasWanted, meter.consumed);
  }

  /** A block handler on a given state. */
  method BlockOn(s: State, ghost other: MultiStore?, ghost mounts: map<StoreKey, MountedStore>,
                 handler: MultiView -> Effect)
    returns (s': State, ok: bool)
    requires SideBySide(s.ms, other, mounts)
    modifies s.ms.Objects()
    ensures s'.ms == s.ms && SideBySide(s.ms, other, mounts)
    ensures Data(mounts) == old(Data(mounts)) && ViewOf(other) == old(ViewOf(other))
    ensures var st := old(AbsState(Some(s)).value);
            RunBlocker(st, handler(st.view)) == if ok then Ok(AbsState(Some(s')).value) else Panic
  {
    hide Data, Performed, SideBySide, ViewOf, MultiStore.Full, MultiStore.Objects, MultiStore.Sound;
    var view, e, completed := BlockApart(s.ms, other, mounts, handler);
    ok := completed && e.outcome != Panicked;
    s' := s.(shared := e.meter);
  }

  /** InitChain on the new deliver state: consensus parameters, then the init chainer. */
  method InitOn(app: App, s: State, ghost other: MultiStore?, ghost mounts: map<StoreKey, MountedStore>,
                header: Header, request: Bytes)
    returns (s': State, ok: bool)
    requires SideBySide(s.ms, other, mounts) && AbsState(Some(s)).value == FreshState(s.ms.View(), header)
    modifies s.ms.Objects()
    ensures s'.ms == s.ms && SideBySide(s.ms, other, mounts)
    ensures Data(mounts) == old(Data(mounts)) && ViewOf(other) == old(ViewOf(other))
    ensures InitDeliver(app, header, request, old(s.ms.View())) == if ok then Ok(AbsState(Some(s')).value) else Panic
  {
    hide Data, Performed, SideBySide, ViewOf, MultiStore.Full, MultiStore.Objects, MultiStore.Sound, MultiStore.View;
    s' := s;
    var params := app.storeParams(request);
    if params.None? {
      return s', false;
    }
    var ops := params.value;
    s', ok := BlockOn(s, other, mounts, view => Effect(ops, s.shared, Success));
    if !ok || app.initChainer.None? {
      return;
    }
    s' := s'.(blockMeter := Some(Infinite(0)));
    var init, env, shared := app.initChainer.value, Env(s.header, false, false, [], []), s'.shared;
    s', ok := BlockOn(s', other, mounts, view => init(request, env, view, shared));
  }

  /** BeginBlock on the deliver state: a new block gas meter, then the begin blocker. */
  method BeginOn(app: App, s: State, ghost other: MultiStore?, ghost mounts: map<StoreKey, MountedStore>,
                 request: Bytes)
    returns (s': State, ok: bool)
    requires SideBySide(s.ms, other, mounts)
    modifies s.ms.Objects()
    ensures s'.ms == s.ms && SideBySide(s.ms, other, mounts)
    ensures Data(mounts) == old(Data(mounts)) && ViewOf(other) == old(ViewOf(other))
    ensures BeginState(app, old(AbsState(Some(s)).value), request) == if ok then Ok(AbsState(Some(s')).value) else Panic
  {
    hide Data, SideBySide, ViewOf, MultiStore.Full, MultiStore.Objects, MultiStore.Sound, MultiStore.View;
    s' := s;
    var view, e, completed := BlockApart(s.ms, other, mounts, view => Effect([], s.shared, Success));
    var meter := BlockMeter(app.maxGas(view));
    if meter.Panic? {
      return s', false;
    }
    s' := s'.(blockMeter := Some(meter.value));
    var begin, env, shared := app.beginBlocker, Env(s.header, false, false, [], []), s'.shared;
    s', ok := BlockOn(s', other, mounts, view => begin(request, env, view, shared));
  }

  method OverMounts(cms: RootStore) returns (ms: MultiStore)
    requires cms.Distinct()
    ensures ms.OnMounts(cms.mounts) && ms.Sound() && ms.View() == cms.View()
    ensures forall k :: k in ms.stores ==> fresh(ms.stores[k])
    ensures fresh(ms) && forall o :: o in ms.Objects() ==> o in cms.Objects() || fresh(o)
  {
    hide MultiStore.Full, MultiStore.Sound;
    ms := new MultiStore.OfMounts(cms.mounts);
  }

  /** setCheckState and setDeliverState: a new cache-wrapped multi-store over the mounted stores, apart
      from the other one. */
  method OverCommitted(cms: RootStore, ghost other: MultiStore?) returns (ms: MultiStore)
    requires cms.Distinct() && (other != null ==> SideBySide(other, null, cms.mounts))
    ensures SideBySide(ms, other, cms.mounts) && ms.View() == cms.View() && ViewOf(other) == old(ViewOf(other))
    ensures fresh(ms) && forall o :: o in ms.Objects() ==> o in cms.Objects() || fresh(o)
  {
    hide Data, MultiStore.Full, MultiStore.OnMounts, MultiStore.Sound, MultiStore.View;
    assert other != null ==> forall o :: o in other.Objects() ==> allocated(o);
    ms := OverMounts(cms);
  }

  lemma Alone(ms: MultiStore, other: MultiStore?, mounts: map<StoreKey, MountedStore>)
    requires SideBySide(ms, other, mounts)
    ensures SideBySide(ms, null, mounts)
  {
    hide MultiStore.Objects, MultiStore.OnMounts, MultiStore.Sound;
  }

  /** Writing a state down gives the mounted stores its contents. */
  method WriteState(ms: MultiStore, ghost other: MultiStore?, ghost mounts: map<StoreKey, MountedStore>)
    requires SideBySide(ms, other, mounts)
    modifies ms.Objects()
    ensures Data(mounts) == old(ms.View())
  {
    hide AllCoherent, AllLevels, Buffers, Data, Deep, Tops, Unders, WrittenDown;
    hide MultiStore.Full, MultiStore.Objects, MultiStore.OnMounts, MultiStore.Sound;
    ghost var view, lower := ms.View(), ms.Lower();
    ms.Write();
    MultiOnMounts(ms, mounts);
    DataIsWritten(Buffers(ms), Data(mounts), view, lower);
  }

  lemma DataIsWritten(b: map<StoreKey, Buffer>, d: MultiView, view: MultiView, lower: Stacks)
    requires b.Keys == d.Keys && lower.Keys == view.Keys && forall k :: k in lower ==> lower[k] != []
    requires Unders(AllLevels(b, d)) == WrittenDown(view, lower)
    ensures d == view
  {
    hide Overlay, Dirty;
    assert d.Keys == Unders(AllLevels(b, d)).Keys == WrittenDown(view, lower).Keys;
    forall k | k in d
      ensures d[k] == view[k]
    {
      assert Unders(AllLevels(b, d))[k] == [d[k]];
      assert WrittenDown(view, lower)[k][0] == view[k];
    }
  }

  lemma SideObjects(ms: MultiStore, other: MultiStore?, mounts: map<StoreKey, MountedStore>, a: Application,
                    r: RootStore)
    requires SideBySide(ms, other, mounts)
    ensures a !in ms.Objects() && r !in ms.Objects()
    ensures other != null ==> a !in other.Objects()
  {
    hide MultiStore.Objects, MultiStore.OnMounts, MultiStore.Sound;
    NotAnObject(ms, mounts, a);
    NotAnObject(ms, mounts, r);
    if other != null {
      NotAnObject(other, mounts, a);
    }
  }

  ghost function Ms(s: Option<State>): MultiStore? {
    if s.None? then null else s.value.ms
  }

  ghost function StateObjects(s: Option<State>): set<object> {
    if s.None? then {} else s.value.ms.Objects()
  }

  /** A state on plain contents. */
  ghost function AbsState(s: Option<State>): Option<TxState>
    reads if s.None? then {} else s.value.ms.Objects()
    requires s.Some? ==> s.value.ms.Sound()
  {
    if s.None? then None
    else Some(TxState(s.value.ms.View(), s.value.header, s.value.shared, s.value.blockMeter))
  }

  /** The stores that a commit empties are the transient ones. */
  ghost predicate KindsAgree(app: App, kinds: map<StoreKey, Kind>) {
    forall k :: k in kinds ==> (k in app.transient <==> kinds[k].Transient?)
  }

  lemma SettleIsCommit(app: App, kinds: map<StoreKey, Kind>, view: MultiView)
    requires kinds.Keys == view.Keys && KindsAgree(app, kinds)
    ensures ViewAfter(kinds, view, view.Keys) == Settle(app, view)
  {
  }

  /** The state written down and every store committed. */
  method CommitState(app: App, cms: RootStore, ms: MultiStore, ghost other: MultiStore?)
    requires cms.Sound() && KindsAgree(app, cms.kinds) && SideBySide(ms, other, cms.mounts)
    requires cms !in ms.Objects()
    modifies cms, cms.Objects(), ms.Objects()
    ensures cms.Sound() && cms.version == old(cms.version) + 1
    ensures cms.View() == Settle(app, old(ms.View()))
  {
    hide Data, KindsAgree, Settle, SideBySide, ViewAfter;
    hide MultiStore.Objects, MultiStore.Sound, MultiStore.View, RootStore.Sound;
    WriteState(ms, other, cms.mounts);
    SettleIsCommit(app, cms.kinds, cms.View());
    cms.Commit();
  }

  /** The answer to bytes that are no transaction is a failure without gas, and otherwise that of the transaction. */
  ghost predicate Answers(app: App, mode: Mode, st: Option<TxState>, votes: Bytes, tx: Option<Tx>, result: TxResult) {
    if tx.None? then result == TxResult(false, 0, 0)
    else
      && st.Some? && (mode == Deliver ==> st.value.blockMeter.Some?)
      && (exists after: TxState :: TxDoes(app, mode, st.value, votes, tx.value, after, result))
      && (result.ok <==> TxSucceeds(app, mode, st.value, votes, tx.value))
  }

  class Application {
    const app: App
    const cms: RootStore
    var checkState: Option<State>
    var deliverState: Option<State>
    var votes: Bytes

    ghost function Objects(): set<object>
      reads this
    {
      {this, cms} + cms.Objects() + StateObjects(checkState) + StateObjects(deliverState)
    }

    /** Both states stand on the mounted stores and share no buffer. */
    ghost predicate Sound()
      reads this, Objects()
    {
      && cms.Sound()
      && KindsAgree(app, cms.kinds)
      && (checkState.Some? ==> SideBySide(checkState.value.ms, Ms(deliverState), cms.mounts))
      && (deliverState.Some? ==> SideBySide(deliverState.value.ms, Ms(checkState), cms.mounts))
    }

    /** The application on plain contents. */
    ghost function Abs(): AppState
      requires Sound()
      reads this, Objects()
    {
      AppState(cms.View(), cms.version, AbsState(checkState), AbsState(deliverState), votes)
    }

    /** NewBaseApp and init: a check state over the loaded stores, no deliver state. */
    constructor (app: App, cms: RootStore)
      requires cms.Sound() && KindsAgree(app, cms.kinds)
      ensures this.app == app && this.cms == cms && Sound()
      ensures Abs() == AppState(cms.View(), cms.version, Some(FreshState(cms.View(), Header(0, []))), None, [])
    {
      hide Data, KindsAgree;
      hide MultiStore.Objects, MultiStore.OnMounts, MultiStore.Sound, MultiStore.View, RootStore.Sound;
      this.app, this.cms := app, cms;
      var ms := OverCommitted(cms, null);
      this.checkState := Some(State(ms, Header(0, []), Infinite(0), None));
      this.deliverState := None;
      this.votes := [];
      new;
      NotAnObject(ms, cms.mounts, this);
      assert cms.View() == old(cms.View());
    }

    /** Makes a state that stands beside the check state the deliver state. */
    method SetDeliver(s: State)
      requires cms.Sound() && KindsAgree(app, cms.kinds) && SideBySide(s.ms, Ms(checkState), cms.mounts)
      modifies this`deliverState
      ensures deliverState == Some(s) && Sound()
      ensures Abs() == old(AppState(cms.View(), cms.version, AbsState(checkState), AbsState(Some(s)), votes))
    {
      hide Data, KindsAgree, SideBySide, MultiStore.Objects, MultiStore.OnMounts, MultiStore.Sound, MultiStore.View;
      hide RootStore.Sound;
      ghost var other := Ms(checkState);
      SideObjects(s.ms, other, cms.mounts, this, cms);
      if other != null {
        Flip(s.ms, other, cms.mounts);
      }
      deliverState := Some(s);
    }

    method SetCheck(s: State)
      requires cms.Sound() && KindsAgree(app, cms.kinds) && SideBySide(s.ms, Ms(deliverState), cms.mounts)
      modifies this`checkState
      ensures checkState == Some(s) && Sound()
      ensures Abs() == old(AppState(cms.View(), cms.version, AbsState(Some(s)), AbsState(deliverState), votes))
    {
      hide Data, KindsAgree, SideBySide, MultiStore.Objects, MultiStore.OnMounts, MultiStore.Sound, MultiStore.View;
      hide RootStore.Sound;
      ghost var other := Ms(deliverState);
      SideObjects(s.ms, other, cms.mounts, this, cms);
      if other != null {
        Flip(s.ms, other, cms.mounts);
      }
      checkState := Some(s);
    }

    /** runTx in a mode, on the state that the mode selects. Whatever panics or fails on the way, its contents
        are left as the ante handler or all messages left them, or as they were, and those of the other state
        and of the mounted stores do not change. A crash stands for the nil dereference when there is no state
        or no block gas meter. */
    method RunTx(mode: Mode, tx: Tx) returns (crashed: bool, result: TxResult)
      requires Sound()
      modifies this, Objects()
      ensures Sound()
      ensures forall o :: o in Objects() ==> o in old(Objects()) || fresh(o)
      ensures var st := if mode == Deliver then old(Abs()).deliver else old(Abs()).check;
              if st.None? || (mode == Deliver && st.value.blockMeter.None?) then
                crashed
              else
                var (after, r) := BaseAppSpec.RunTx(app, mode, st.value, old(votes), tx);
                && !crashed && result == r
                && Abs() == if mode == Deliver then old(Abs()).(deliver := Some(after))
                            else old(Abs()).(check := Some(after))
      ensures !crashed ==>
                var before := if mode == Deliver then old(Abs()).deliver else old(Abs()).check;
                var after := if mode == Deliver then Abs().deliver else Abs().check;
                && before.Some? && after.Some?
                && after.value.view == Laws.AtomicView(app, mode, before.value, old(votes), tx)
                && (mode == Deliver ==> before.value.blockMeter.Some?)
                && TxDoes(app, mode, before.value, old(votes), tx, after.value, result)
                && (result.ok <==> TxSucceeds(app, mode, before.value, old(votes), tx))
    {
      hide TxDoes, TxSucceeds, BaseAppSpec.RunTx, Data, SideBySide;
      hide MultiStore.Objects, MultiStore.OnMounts, MultiStore.Sound;
      hide RootStore.Sound, MultiStore.View, Laws.AtomicView;
      crashed, result := false, UNDECODABLE;
      var state := if mode == Deliver then deliverState else checkState;
      if state.None? || (mode == Deliver && state.value.blockMeter.None?) {
        crashed := true;
        return;
      }
      ghost var other := if mode == Deliver then Ms(checkState) else Ms(deliverState);
      SideObjects(state.value.ms, other, cms.mounts, this, cms);
      ghost var st := (if mode == Deliver then Abs().deliver else Abs().check).value;
      Laws.TxIsAtomic(app, mode, st, votes, tx);
      ghost var (after, answer) := BaseAppSpec.RunTx(app, mode, st, votes, tx);
      TxLaw(app, mode, st, votes, tx, after, answer);
      SuccessLaw(app, mode, st, votes, tx);
      var s;
      s, result := RunOn(app, mode, state.value, other, cms.mounts, votes, tx);
      if mode == Deliver {
        SetDeliver(s);
      } else {
        SetCheck(s);
      }
    }

    method DeliverTx(raw: Bytes) returns (crashed: bool, result: TxResult)
      requires Sound()
      modifies this, Objects()
      ensures Sound()
      ensures forall o :: o in Objects() ==> o in old(Objects()) || fresh(o)
      ensures Step(app, old(Abs()), Call.DeliverTx(raw)) == if crashed then Panic else Ok(Abs())
      ensures !crashed ==> result == TxAnswer(app, Deliver, old(Abs()), app.decode(raw))
      ensures DeliverTxDoes(app, old(Abs()), raw, if crashed then Panic else Ok(Abs()))
      ensures !crashed ==> Answers(app, Deliver, old(Abs()).deliver, old(votes), app.decode(raw), result)
    {
      hide BaseAppSpec.RunTx, Objects, Sound, TxDoes, TxSucceeds, Laws.AtomicView;
      var tx := app.decode(raw);
      if tx.None? {
        return false, UNDECODABLE;
      }
      crashed, result := RunTx(Deliver, tx.value);
      DeliverTxLaw(app, old(Abs()), raw, if crashed then Panic else Ok(Abs()));
    }

    method CheckTx(raw: Bytes, recheck: bool) returns (crashed: bool, result: TxResult)
      requires Sound()
      modifies this, Objects()
      ensures Sound()
      ensures forall o :: o in Objects() ==> o in old(Objects()) || fresh(o)
      ensures Step(app, old(Abs()), Call.CheckTx(raw, recheck)) == if crashed then Panic else Ok(Abs())
      ensures !crashed ==> result == TxAnswer(app, if recheck then ReCheck else Check, old(Abs()), app.decode(raw))
      ensures StepDoes(app, old(Abs()), Call.CheckTx(raw, recheck), if crashed then Panic else Ok(Abs()))
      ensures !crashed ==>
                Answers(app, if recheck then ReCheck else Check, old(Abs()).check, old(votes), app.decode(raw), result)
    {
      hide BaseAppSpec.RunTx, Objects, Sound, TxDoes, TxSucceeds, Laws.AtomicView;
      var tx := app.decode(raw);
      if tx.None? {
        return false, UNDECODABLE;
      }
      crashed, result := RunTx(if recheck then ReCheck else Check, tx.value);
      EveryCall(app, old(Abs()), Call.CheckTx(raw, recheck), if crashed then Panic else Ok(Abs()));
    }

    method SimulateTx(tx: Tx) returns (crashed: bool, result: TxResult)
      requires Sound()
      modifies this, Objects()
      ensures Sound()
      ensures forall o :: o in Objects() ==> o in old(Objects()) || fresh(o)
      ensures Step(app, old(Abs()), Call.SimulateTx(tx)) == if crashed then Panic else Ok(Abs())
      ensures !crashed ==> result == TxAnswer(app, Simulate, old(Abs()), Some(tx))
      ensures CheckDoes(app, old(Abs()), Simulate, tx, if crashed then Panic else Ok(Abs()))
      ensures !crashed ==> Answers(app, Simulate, old(Abs()).check, old(votes), Some(tx), result)
    {
      hide BaseAppSpec.RunTx, Objects, Sound, TxDoes, TxSucceeds, Laws.AtomicView;
      crashed, result := RunTx(Simulate, tx);
      CheckLaw(app, old(Abs()), Simulate, tx, if crashed then Panic else Ok(Abs()));
    }

    method EndBlock(request: Bytes) returns (crashed: bool)
      requires Sound()
      modifies this, Objects()
      ensures Sound()
      ensures forall o :: o in Objects() ==> o in old(Objects()) || fresh(o)
      ensures Step(app, old(Abs()), Call.EndBlock(request)) == if crashed then Panic else Ok(Abs())
      ensures EndBlockDoes(app, old(Abs()), request, if crashed then Panic else Ok(Abs()))
    {
      hide EndBlockDoes, Data, KindsAgree, RunBlocker, SideBySide;
      hide MultiStore.Objects, MultiStore.OnMounts, MultiStore.Sound, MultiStore.View;
      hide RootStore.Sound;
      if deliverState.None? {
        EndBlockLaw(app, Abs(), request, Panic);
        return true;
      }
      var s := deliverState.value;
      ghost var other := Ms(checkState);
      SideObjects(s.ms, other, cms.mounts, this, cms);
      var end, env, shared := app.endBlocker, Env(s.header, false, false, [], []), s.shared;
      var ok;
      s, ok := BlockOn(s, other, cms.mounts, view => end(request, env, view, shared));
      SetDeliver(s);
      crashed := !ok;
      EndBlockLaw(app, old(Abs()), request, if crashed then Panic else Ok(Abs()));
    }

    method InitChain(header: Header, request: Bytes) returns (crashed: bool)
      requires Sound()
      modifies this, Objects()
      ensures Sound()
      ensures forall o :: o in Objects() ==> o in old(Objects()) || fresh(o)
      ensures Step(app, old(Abs()), Call.InitChain(header, request)) == if crashed then Panic else Ok(Abs())
      ensures InitChainDoes(app, old(Abs()), header, request, if crashed then Panic else Ok(Abs()))
    {
      hide InitDeliver, Objects, Sound, RootStore.Sound, MultiStore.Sound, MultiStore.Objects, MultiStore.OnMounts;
      hide InitChainDoes;
      Reset(header);
      label Midway:
      crashed := Init(header, request);
      assert forall o :: o in Objects() ==> o in old@Midway(Objects()) || fresh@Midway(o);
      InitChainLaw(app, old(Abs()), header, request, if crashed then Panic else Ok(Abs()));
    }

    method BeginBlock(header: Header, votes: Bytes, request: Bytes) returns (crashed: bool)
      requires Sound()
      modifies this, Objects()
      ensures Sound()
      ensures forall o :: o in Objects() ==> o in old(Objects()) || fresh(o)
      ensures Step(app, old(Abs()), Call.BeginBlock(header, votes, request)) == if crashed then Panic else Ok(Abs())
      ensures BeginBlockDoes(app, old(Abs()), header, votes, request, if crashed then Panic else Ok(Abs()))
    {
      hide BeginState, Objects, Sound, RootStore.Sound, MultiStore.Sound, MultiStore.Objects, MultiStore.OnMounts;
      hide BeginBlockDoes;
      if header.height < 1 || header.height != cms.version + 1 {
        BeginBlockLaw(app, Abs(), header, votes, request, Panic);
        return true;
      }
      OpenDeliver(header);
      label Midway:
      crashed := Begin(votes, request);
      assert forall o :: o in Objects() ==> o in old@Midway(Objects()) || fresh@Midway(o);
      BeginBlockLaw(app, old(Abs()), header, votes, request, if crashed then Panic else Ok(Abs()));
    }

    /** New check and deliver states. */
    method Reset(header: Header)
      requires Sound()
      modifies this`checkState, this`deliverState
      ensures Sound() && deliverState.Some?
      ensures forall o :: o in Objects() ==> o in old(Objects()) || fresh(o)
      ensures var st := Some(FreshState(old(Abs()).committed, header));
              Abs() == old(Abs()).(check := st, deliver := st)
    {
      hide Data, KindsAgree, SideBySide, MultiStore.Objects, MultiStore.OnMounts, MultiStore.Sound, MultiStore.View;
      hide RootStore.Sound;
      if checkState.Some? {
        Alone(checkState.value.ms, Ms(deliverState), cms.mounts);
      }
      var ms := OverCommitted(cms, Ms(checkState));
      SetDeliver(State(ms, header, Infinite(0), None));
      Alone(deliverState.value.ms, Ms(checkState), cms.mounts);
      ms := OverCommitted(cms, Ms(deliverState));
      SetCheck(State(ms, header, Infinite(0), None));
    }

    method Init(header: Header, request: Bytes) returns (crashed: bool)
      requires Sound() && Abs().deliver == Some(FreshState(Abs().committed, header))
      modifies this, Objects()
      ensures Sound()
      ensures forall o :: o in Objects() ==> o in old(Objects()) || fresh(o)
      ensures match InitDeliver(app, header, request, old(Abs()).committed)
              case Panic => crashed
              case Ok(after) => !crashed && Abs() == old(Abs()).(deliver := Some(after))
    {
      hide InitDeliver, Data, KindsAgree, SideBySide;
      hide MultiStore.Objects, MultiStore.OnMounts, MultiStore.Sound, MultiStore.View;
      hide RootStore.Sound;
      var s := deliverState.value;
      ghost var other := Ms(checkState);
      SideObjects(s.ms, other, cms.mounts, this, cms);
      var ok;
      s, ok := InitOn(app, s, other, cms.mounts, header, request);
      SetDeliver(s);
      crashed := !ok;
    }

    /** The deliver state of the new block: the one that InitChain made, or a new one. */
    method OpenDeliver(header: Header)
      requires Sound()
      modifies this`deliverState
      ensures Sound() && deliverState.Some?
      ensures forall o :: o in Objects() ==> o in old(Objects()) || fresh(o)
      ensures Abs() == old(Abs()).(deliver := Some(
          if old(Abs()).deliver.None? then FreshState(old(Abs()).committed, header)
          else old(Abs()).deliver.value.(header := header)))
    {
      hide Data, KindsAgree, SideBySide, MultiStore.Objects, MultiStore.OnMounts, MultiStore.Sound, MultiStore.View;
      hide RootStore.Sound;
      if deliverState.None? {
        ghost var other := Ms(checkState);
        var ms := OverCommitted(cms, other);
        SetDeliver(State(ms, header, Infinite(0), None));
      } else {
        SetDeliver(deliverState.value.(header := header));
      }
    }

    method Begin(votes: Bytes, request: Bytes) returns (crashed: bool)
      requires Sound() && deliverState.Some?
      modifies this, Objects()
      ensures Sound()
      ensures forall o :: o in Objects() ==> o in old(Objects()) || fresh(o)
      ensures match BeginState(app, old(Abs()).deliver.value, request)
              case Panic => crashed
              case Ok(after) => !crashed && Abs() == old(Abs()).(deliver := Some(after), votes := votes)
    {
      hide BeginState, Data, KindsAgree, SideBySide;
      hide MultiStore.Objects, MultiStore.OnMounts, MultiStore.Sound, MultiStore.View;
      hide RootStore.Sound;
      var s := deliverState.value;
      ghost var other := Ms(checkState);
      SideObjects(s.ms, other, cms.mounts, this, cms);
      var ok;
      s, ok := BeginOn(app, s, other, cms.mounts, request);
      SetDeliver(s);
      this.votes := votes;
      crashed := !ok;
    }

    method Commit() returns (crashed: bool)
      requires Sound()
      modifies this, Objects()
      ensures Sound()
      ensures forall o :: o in Objects() ==> o in old(Objects()) || fresh(o)
      ensures Step(app, old(Abs()), Call.Commit) == if crashed then Panic else Ok(Abs())
      ensures CommitDoes(app, old(Abs()), if crashed then Panic else Ok(Abs()))
    {
      hide Objects, Settle, Sound, RootStore.Sound, MultiStore.Sound, MultiStore.Objects, MultiStore.OnMounts;
      crashed := deliverState.None?;
      if !crashed {
        Seal(deliverState.value);
      }
      CommitLaw(app, old(Abs()), if crashed then Panic else Ok(Abs()));
    }

    /** Writes the deliver state down, commits every store, and starts over on what was committed. */
    method Seal(s: State)
      requires Sound() && deliverState == Some(s)
      modifies this, Objects()
      ensures Sound()
      ensures forall o :: o in Objects() ==> o in old(Objects()) || fresh(o)
      ensures var committed := Settle(app, old(AbsState(Some(s)).value.view));
              var check := FreshState(committed, s.header);
              Abs() == AppState(committed, old(cms.version) + 1, Some(check), None, old(votes))
    {
      hide Settle, Data, KindsAgree, SideBySide;
      hide MultiStore.Objects, MultiStore.OnMounts, MultiStore.Sound, MultiStore.View;
      hide RootStore.Sound;
      SideObjects(s.ms, Ms(checkState), cms.mounts, this, cms);
      CommitState(app, cms, s.ms, Ms(checkState));
      Restart(s.header);
    }

    /** A new check state over the committed contents, and no deliver state. */
    method Restart(header: Header)
      requires cms.Sound() && KindsAgree(app, cms.kinds)
      modifies this`checkState, this`deliverState
      ensures Sound()
      ensures forall o :: o in Objects() ==> o in {this, cms} + cms.Objects() || fresh(o)
      ensures Abs() == old(AppState(cms.View(), cms.version, Some(FreshState(cms.View(), header)), None, votes))
    {
      hide Data, KindsAgree, SideBySide, MultiStore.Objects, MultiStore.OnMounts, MultiStore.Sound, MultiStore.View;
      hide RootStore.Sound;
      deliverState := None;
      var ms := OverCommitted(cms, null);
      SetCheck(State(ms, header, Infinite(0), None));
    }

    method Handle(call: Call) returns (crashed: bool)
      requires Sound()
      modifies this, Objects()
      ensures Sound()
      ensures forall o :: o in Objects() ==> o in old(Objects()) || fresh(o)
      ensures Step(app, old(Abs()), call) == if crashed then Panic else Ok(Abs())
      ensures StepDoes(app, old(Abs()), call, if crashed then Panic else Ok(Abs()))
    {
      hide Abs, Objects, Sound, Step, TxDoes, TxSucceeds;
      hide InitChainDoes, BeginBlockDoes, DeliverTxDoes, EndBlockDoes, CheckDoes, CommitDoes, Answers;
      var result;
      match call {
        case InitChain(header, request) => crashed := InitChain(header, request);
        case BeginBlock(header, votes, request) => crashed := BeginBlock(header, votes, request);
        case DeliverTx(raw) => crashed, result := DeliverTx(raw);
        case EndBlock(request) => crashed := EndBlock(request);
        case Commit => crashed := Commit();
        case CheckTx(raw, recheck) => crashed, result := CheckTx(raw, recheck);
        case SimulateTx(tx) => crashed, result := SimulateTx(tx);
      }
    }

    /** Any sequence of calls on the objects does what it does on plain contents. */
    method HandleAll(calls: seq<Call>) returns (crashed: bool)
      requires Sound()
      modifies this, Objects()
      ensures Sound()
      ensures forall o :: o in Objects() ==> o in old(Objects()) || fresh(o)
      ensures Run(app, old(Abs()), calls) == if crashed then Panic else Ok(Abs())
      decreases |calls|
    {
      hide Abs, Objects, Sound, Step;
      crashed := false;
      if calls != [] {
        crashed := Handle(calls[0]);
        if !crashed {
          label Midway:
          crashed := HandleAll(calls[1..]);
          assert forall o :: o in Objects() ==> o in old@Midway(Objects()) || fresh@Midway(o);
        }
      }
    }
  }
}
