/** The inside of runTx, carried out on nested cache-wrapped multi-stores. */
module TxRunner {
  import opened Basics
  import opened ByteOrder
  import opened MergeSpec
  import opened CacheMulti
  import opened Gas
  import opened BaseAppSpec
  import opened TxLaws

  /** Runs the ante handler in a cache-wrap and writes the wrap back exactly when it succeeds. */
  method CachedAnte(app: App, mode: Mode, env: Env, ms: MultiStore, shared: Meter, tx: Tx)
    returns (e: AnteEffect, completed: bool)
    requires ms.Sound() && app.ante.Some?
    modifies ms.Objects()
    ensures ms.Sound() && ms.Lower() == old(ms.Lower())
    ensures e == app.ante.value(env, old(ms.View()), shared, tx, mode == Simulate)
    ensures var (after, done) := Performed(old(ms.View()), e.ops);
            completed == done && ms.View() == if done && e.outcome == Success then after else old(ms.View())
  {
    hide Performed, Tops, Unders, WrittenDown;
    hide MultiStore.Full, MultiStore.Objects, MultiStore.OnMulti, MultiStore.Sound;
    var msCache := new MultiStore.OfMulti(ms);
    var view := msCache.Snapshot();
    e := app.ante.value(env, view, shared, tx, mode == Simulate);
    completed := msCache.Perform(e.ops);
    if completed && e.outcome == Success {
      WrittenTops(msCache.View(), msCache.Lower());
      msCache.Write();
    }
    UnderMulti(msCache, ms);
  }

  /** The ante handler, and the context to go on with. */
  method RunAnteOn(app: App, mode: Mode, env: Env, ms: MultiStore, shared: Meter, tx: Tx)
    returns (env': Env, meter: Meter, ownMeter: bool, shared': Meter, outcome: Outcome)
    requires ms.Sound()
    modifies ms.Objects()
    ensures ms.Sound() && ms.Lower() == old(ms.Lower())
    ensures var a := RunAnte(app, mode, env, old(ms.View()), shared, tx);
            && (env', meter, ownMeter, shared', outcome) == (a.env, a.meter, a.ownMeter, a.shared, a.outcome)
            && ms.View() == if outcome == Success then a.view else old(ms.View())
  {
    hide Performed, Tops, Unders, MultiStore.Full, MultiStore.Objects, MultiStore.Sound, MultiStore.View;
    env', meter, ownMeter, shared', outcome := env, shared, false, shared, Success;
    if app.ante.Some? {
      var e, completed := CachedAnte(app, mode, env, ms, shared, tx);
      shared', meter := e.shared, e.shared;
      if !completed || e.outcome == Panicked {
        outcome := Panicked;
      } else {
        outcome := e.outcome;
        if e.context.Some? {
          env' := e.context.value.0;
          if e.context.value.1.Some? {
            meter, ownMeter := e.context.value.1.value, true;
          }
        }
      }
    }
  }

  /** One message on the message cache. */
  method RunMsgOn(app: App, env: Env, msCache: MultiStore, meter: Meter, msg: Msg)
    returns (meter': Meter, outcome: Outcome)
    requires msCache.Sound()
    modifies msCache.Objects()
    ensures msCache.Sound() && msCache.Lower() == old(msCache.Lower())
    ensures RunMsg(app, env, old(msCache.View()), meter, msg) == MsgsRun(msCache.View(), meter', outcome)
  {
    hide Performed, Tops, Unders, MultiStore.Full, MultiStore.Objects, MultiStore.Sound;
    var view := msCache.Snapshot();
    var e := app.handler(env, view, meter, msg);
    if e.None? {
      return meter, Error;
    }
    var completed := msCache.Perform(e.value.ops);
    return e.value.meter, if completed then e.value.outcome else Panicked;
  }

  /** Runs the messages in a cache-wrap; the wrap is written back only on request and if all succeed. */
  method RunMsgsOn(app: App, mode: Mode, env: Env, ms: MultiStore, meter: Meter, msgs: seq<Msg>)
    returns (meter': Meter, outcome: Outcome)
    requires ms.Sound()
    modifies ms.Objects()
    ensures ms.Sound() && ms.Lower() == old(ms.Lower())
    ensures var m := MsgsIn(app, mode, env, old(ms.View()), meter, msgs);
            && (meter', outcome) == (m.meter, m.outcome)
            && ms.View() == if mode == Deliver && outcome == Success then m.view else old(ms.View())
  {
    hide RunMsg, Tops, Unders, WrittenDown, MultiStore.Full, MultiStore.Objects, MultiStore.OnMulti, MultiStore.Sound;
    var msCache := new MultiStore.OfMulti(ms);
    meter', outcome := meter, Success;
    var i := 0;
    while i < |msgs| && outcome == Success && mode != Check && mode != ReCheck
      invariant 0 <= i <= |msgs| && msCache.Sound() && msCache.Lower() == old(ms.Full())
      invariant mode == Check || mode == ReCheck ==> meter' == meter && outcome == Success
      invariant (if outcome == Success then RunMsgs(app, env, msCache.View(), meter', msgs[i..])
                 else MsgsRun(msCache.View(), meter', outcome))
             == RunMsgs(app, env, old(ms.View()), meter, msgs)
    {
      assert msgs[i..][0] == msgs[i] && msgs[i..][1..] == msgs[i + 1..];
      meter', outcome := RunMsgOn(app, env, msCache, meter', msgs[i]);
      i := i + 1;
    }
    if outcome == Success && mode == Deliver {
      WrittenTops(msCache.View(), msCache.Lower());
      msCache.Write();
    }
    UnderMulti(msCache, ms);
  }

  /** Ante handler and messages on a multi-store. */
  method RunInnerOn(app: App, mode: Mode, ms: MultiStore, st: TxState, votes: Bytes, tx: Tx)
    returns (shared: Meter, meter: Meter, gasWanted: Uint64, ok: bool)
    requires ms.Sound()
    modifies ms.Objects()
    ensures ms.Sound() && ms.Lower() == old(ms.Lower())
    ensures RunInner(app, mode, st.(view := old(ms.View())), votes, tx)
         == Body(ms.View(), shared, meter, gasWanted, ok)
  {
    hide MsgsIn, RunAnte, Tops, Unders, MultiStore.Full, MultiStore.Objects, MultiStore.Sound;
    shared, meter, gasWanted, ok := st.shared, st.shared, 0, false;
    if !BasicValid(app, tx) {
      return;
    }
    var env := EnvOf(st, mode, votes, tx);
    var outcome, ownMeter;
    env, meter, ownMeter, shared, outcome := RunAnteOn(app, mode, env, ms, st.shared, tx);
    if app.ante.Some? && outcome != Panicked {
      gasWanted := Limit(meter);
    }
    if outcome != Success {
      return;
    }
    meter, outcome := RunMsgsOn(app, mode, env, ms, meter, tx.msgs);
    ok := outcome == Success;
    if !ownMeter {
      shared := meter;
    }
  }

  /** runTx between its gas checks, on the multi-store of a check or deliver state. */
  method RunBodyOn(app: App, mode: Mode, ms: MultiStore, st: TxState, votes: Bytes, tx: Tx)
    returns (shared: Meter, meter: Meter, gasWanted: Uint64, ok: bool)
    requires ms.Sound()
    modifies ms.Objects()
    ensures ms.Sound() && ms.Lower() == old(ms.Lower())
    ensures RunBody(app, mode, st.(view := old(ms.View())), votes, tx)
         == Body(ms.View(), shared, meter, gasWanted, ok)
    ensures var before := st.(view := old(ms.View()));
            && BodyDoes(app, mode, before, votes, tx, Point(ms.View(), meter), ok)
            && gasWanted == Wanted(app, mode, before, votes, tx)
  {
    hide RunInner, Tops, Unders, MultiStore.Full, MultiStore.Objects, MultiStore.OnMulti, MultiStore.Sound;
    hide BodyDoes, Wanted, OwnMeter, AnteOf;
    if mode == Simulate {
      var msCache := new MultiStore.OfMulti(ms);
      shared, meter, gasWanted, ok := RunInnerOn(app, mode, msCache, st, votes, tx);
      UnderMulti(msCache, ms);
    } else {
      shared, meter, gasWanted, ok := RunInnerOn(app, mode, ms, st, votes, tx);
    }
    BodyLaw(app, mode, st.(view := old(ms.View())), votes, tx, Point(ms.View(), meter), ok);
  }

  /** Reads everything, asks a handler what to do, and does it. */
  method RunBlockerOn(ms: MultiStore, handler: MultiView -> Effect)
    returns (view: MultiView, e: Effect, completed: bool)
    requires ms.Sound()
    modifies ms.Objects()
    ensures ms.Sound() && ms.Lower() == old(ms.Lower())
    ensures view == old(ms.View()) && e == handler(view)
    ensures (ms.View(), completed) == Performed(view, e.ops)
  {
    hide Performed, Tops, Unders, MultiStore.Full, MultiStore.Objects, MultiStore.Sound;
    view := ms.Snapshot();
    e := handler(view);
    completed := ms.Perform(e.ops);
  }
}
