/** What a transaction does, said from what the handlers of the application do: which transactions succeed,
    what they leave, and what gas they report. */
module TxLaws {
  import opened Basics
  import opened ByteOrder
  import opened CacheMulti
  import opened Gas
  import opened BaseAppSpec

  // The ante handler

  /** The context of a transaction: all modes but Deliver are checks, and ReCheck is a recheck. */
  function ContextOf(mode: Mode, st: TxState, votes: Bytes, tx: Tx): Env {
    Env(st.header, mode != Deliver, mode == ReCheck, votes, tx.raw)
  }

  /** What the ante handler does on the contents of the state; without one, nothing. */
  function AnteOf(app: App, mode: Mode, st: TxState, votes: Bytes, tx: Tx): AnteEffect {
    if app.ante.None? then AnteEffect([], st.shared, None, Success)
    else app.ante.value(ContextOf(mode, st, votes, tx), st.view, st.shared, tx, mode == Simulate)
  }

  /** There are messages, and each is valid on its own. */
  predicate WellFormed(app: App, tx: Tx) {
    tx.msgs != [] && forall i :: 0 <= i < |tx.msgs| ==> app.validateBasic(tx.msgs[i])
  }

  /** The ante handler is run and does not panic. */
  predicate AnteCompletes(app: App, mode: Mode, st: TxState, votes: Bytes, tx: Tx) {
    var e := AnteOf(app, mode, st, votes, tx);
    WellFormed(app, tx) && Performed(st.view, e.ops).1 && e.outcome != Panicked
  }

  predicate AnteAccepts(app: App, mode: Mode, st: TxState, votes: Bytes, tx: Tx) {
    AnteCompletes(app, mode, st, votes, tx) && AnteOf(app, mode, st, votes, tx).outcome == Success
  }

  /** The contents after the ante handler. */
  function AnteView(app: App, mode: Mode, st: TxState, votes: Bytes, tx: Tx): MultiView {
    Performed(st.view, AnteOf(app, mode, st, votes, tx).ops).0
  }

  /** The context to go on with: the one that the ante handler returns, or the one it was given. */
  function AnteEnv(app: App, mode: Mode, st: TxState, votes: Bytes, tx: Tx): Env {
    var context := AnteOf(app, mode, st, votes, tx).context;
    if context.Some? then context.value.0 else ContextOf(mode, st, votes, tx)
  }

  /** The returned context has a gas meter of its own. */
  predicate OwnMeter(app: App, mode: Mode, st: TxState, votes: Bytes, tx: Tx) {
    var context := AnteOf(app, mode, st, votes, tx).context;
    AnteCompletes(app, mode, st, votes, tx) && context.Some? && context.value.1.Some?
  }

  /** The gas meter that the ante handler leaves, or the given one if it is not run. */
  function AnteMeter(app: App, mode: Mode, st: TxState, votes: Bytes, tx: Tx): Meter {
    var e := AnteOf(app, mode, st, votes, tx);
    if !WellFormed(app, tx) then st.shared
    else if OwnMeter(app, mode, st, votes, tx) then e.context.value.1.value
    else e.shared
  }

  // The messages

  /** Contents and gas meter between two messages. */
  datatype Point = Point(view: MultiView, meter: Meter)

  /** The message has a handler, which succeeds and leads from one point to the next. */
  predicate Executes(app: App, env: Env, p: Point, msg: Msg, q: Point) {
    var e := app.handler(env, p.view, p.meter, msg);
    && e.Some? && e.value.outcome == Success
    && Performed(p.view, e.value.ops) == (q.view, true) && q.meter == e.value.meter
  }

  /** The message has no handler, or one that fails or panics. */
  predicate Fails(app: App, env: Env, p: Point, msg: Msg, q: Point) {
    var e := app.handler(env, p.view, p.meter, msg);
    if e.None? then q == p
    else
      var (view, completed) := Performed(p.view, e.value.ops);
      (!completed || e.value.outcome != Success) && q == Point(view, e.value.meter)
  }

  /** The messages succeed one after the other, each on what the previous one left. */
  ghost predicate Trace(app: App, env: Env, points: seq<Point>, msgs: seq<Msg>) {
    && |points| == |msgs| + 1
    && forall i :: 0 <= i < |msgs| ==> Executes(app, env, points[i], msgs[i], points[i + 1])
  }

  /** All messages succeed and lead to the end, or one fails at it after all before it have succeeded. */
  ghost predicate MsgsEnd(app: App, env: Env, start: Point, msgs: seq<Msg>, end: Point, ok: bool) {
    if ok then
      exists points: seq<Point> :: Trace(app, env, points, msgs) && points[0] == start && points[|msgs|] == end
    else
      exists n: nat, points: seq<Point> ::
        && n < |msgs| && Trace(app, env, points, msgs[..n]) && points[0] == start
        && Fails(app, env, points[n], msgs[n], end)
  }

  lemma OneMessage(app: App, env: Env, p: Point, msg: Msg, q: Point)
    ensures var r := RunMsg(app, env, p.view, p.meter, msg);
            && (Executes(app, env, p, msg, q) <==> r == MsgsRun(q.view, q.meter, Success))
            && (Fails(app, env, p, msg, q) <==> r.outcome != Success && (r.view, r.meter) == (q.view, q.meter))
  {
  }

  lemma {:induction false} TraceRuns(app: App, env: Env, points: seq<Point>, msgs: seq<Msg>)
    requires Trace(app, env, points, msgs)
    ensures var end := points[|msgs|];
            RunMsgs(app, env, points[0].view, points[0].meter, msgs) == MsgsRun(end.view, end.meter, Success)
    decreases |msgs|
  {
    hide RunMsg;
    if msgs != [] {
      OneMessage(app, env, points[0], msgs[0], points[1]);
      TraceRuns(app, env, points[1..], msgs[1..]);
    }
  }

  lemma {:induction false} MsgsConcat(app: App, env: Env, view: MultiView, meter: Meter, a: seq<Msg>, b: seq<Msg>)
    ensures var front := RunMsgs(app, env, view, meter, a);
            RunMsgs(app, env, view, meter, a + b) ==
            if front.outcome == Success then RunMsgs(app, env, front.view, front.meter, b) else front
    decreases |a|
  {
    hide RunMsg;
    if a == [] {
      assert a + b == b;
    } else {
      var first := RunMsg(app, env, view, meter, a[0]);
      assert (a + b)[0] == a[0] && (a + b)[1..] == a[1..] + b;
      MsgsConcat(app, env, first.view, first.meter, a[1..], b);
    }
  }

  /** A run from the start ends somewhere. */
  lemma {:induction false} RunEnds(app: App, env: Env, start: Point, msgs: seq<Msg>)
    ensures var r := RunMsgs(app, env, start.view, start.meter, msgs);
            MsgsEnd(app, env, start, msgs, Point(r.view, r.meter), r.outcome == Success)
    decreases |msgs|
  {
    var r := RunMsgs(app, env, start.view, start.meter, msgs);
    if msgs == [] {
      assert Trace(app, env, [start], msgs);
    } else {
      var first := RunMsg(app, env, start.view, start.meter, msgs[0]);
      var next := Point(first.view, first.meter);
      OneMessage(app, env, start, msgs[0], next);
      hide RunMsg, Executes, Fails;
      if first.outcome == Success {
        RunEnds(app, env, next, msgs[1..]);
        ExtendFront(app, env, start, msgs, next, Point(r.view, r.meter), r.outcome == Success);
      } else {
        var n: nat, points := 0, [start];
        assert Trace(app, env, points, msgs[..n]) && points[n] == start;
      }
    }
  }

  lemma ExtendFront(app: App, env: Env, start: Point, msgs: seq<Msg>, next: Point, end: Point, ok: bool)
    requires msgs != [] && Executes(app, env, start, msgs[0], next) && MsgsEnd(app, env, next, msgs[1..], end, ok)
    ensures MsgsEnd(app, env, start, msgs, end, ok)
  {
    hide Executes, Fails;
    if ok {
      var points :| Trace(app, env, points, msgs[1..]) && points[0] == next && points[|msgs[1..]|] == end;
      assert Trace(app, env, [start] + points, msgs);
    } else {
      var n: nat, points :| && n < |msgs[1..]| && Trace(app, env, points, msgs[1..][..n]) && points[0] == next
                            && Fails(app, env, points[n], msgs[1..][n], end);
      assert msgs[..n + 1][1..] == msgs[1..][..n];
      assert Trace(app, env, [start] + points, msgs[..n + 1]);
      assert ([start] + points)[n + 1] == points[n] && msgs[n + 1] == msgs[1..][n];
    }
  }

  /** The run of a list of messages ends exactly where the messages lead. */
  lemma RunIsTrace(app: App, env: Env, start: Point, msgs: seq<Msg>, end: Point, ok: bool)
    ensures var r := RunMsgs(app, env, start.view, start.meter, msgs);
            MsgsEnd(app, env, start, msgs, end, ok) <==>
            (r.view, r.meter) == (end.view, end.meter) && (r.outcome == Success <==> ok)
  {
    hide RunMsgs, RunMsg, Executes, Fails;
    RunEnds(app, env, start, msgs);
    if MsgsEnd(app, env, start, msgs, end, ok) {
      if ok {
        var points :| Trace(app, env, points, msgs) && points[0] == start && points[|msgs|] == end;
        TraceRuns(app, env, points, msgs);
      } else {
        var n: nat, points :| && n < |msgs| && Trace(app, env, points, msgs[..n]) && points[0] == start
                              && Fails(app, env, points[n], msgs[n], end);
        FailureRuns(app, env, points, msgs, n, end);
      }
    }
  }

  lemma FailureRuns(app: App, env: Env, points: seq<Point>, msgs: seq<Msg>, n: nat, end: Point)
    requires n < |msgs| && Trace(app, env, points, msgs[..n]) && Fails(app, env, points[n], msgs[n], end)
    ensures var r := RunMsgs(app, env, points[0].view, points[0].meter, msgs);
            r.outcome != Success && (r.view, r.meter) == (end.view, end.meter)
  {
    OneMessage(app, env, points[n], msgs[n], end);
    TraceRuns(app, env, points, msgs[..n]);
    assert msgs == msgs[..n] + msgs[n..];
    MsgsConcat(app, env, points[0].view, points[0].meter, msgs[..n], msgs[n..]);
    assert msgs[n..][0] == msgs[n];
    hide RunMsg, Executes, Fails;
    assert RunMsgs(app, env, points[n].view, points[n].meter, msgs[n..]).outcome != Success;
  }

  // Whole transactions

  /** The contents that a transaction leaves, its last gas meter, and whether it goes through, before the block is
      charged. Messages are run in Deliver and Simulate only, and a simulation leaves nothing. */
  ghost predicate BodyDoes(app: App, mode: Mode, st: TxState, votes: Bytes, tx: Tx, end: Point, ok: bool) {
    var meter := AnteMeter(app, mode, st, votes, tx);
    if !AnteAccepts(app, mode, st, votes, tx) then
      !ok && end == Point(st.view, meter)
    else if mode == Check || mode == ReCheck then
      ok && end == Point(AnteView(app, mode, st, votes, tx), meter)
    else
      var start := Point(AnteView(app, mode, st, votes, tx), meter);
      exists last: Point ::
        && MsgsEnd(app, AnteEnv(app, mode, st, votes, tx), start, tx.msgs, last, ok)
        && end == Point(if mode == Simulate then st.view else if ok then last.view else start.view, last.meter)
  }

  /** What a meter reports to the block: what it has counted, but not more than its limit. */
  function Reported(m: Meter): Uint64 {
    if m.Infinite? || m.consumed <= m.limit then m.consumed else m.limit
  }

  /** The gas that was asked for: the limit of the meter that the ante handler left, if it was run and did not
      panic, and if that has one. */
  function Wanted(app: App, mode: Mode, st: TxState, votes: Bytes, tx: Tx): Uint64 {
    var meter := AnteMeter(app, mode, st, votes, tx);
    if app.ante.Some? && AnteCompletes(app, mode, st, votes, tx) && meter.Basic? then meter.limit else 0
  }

  /** The block has used up its limit. */
  predicate Spent(mode: Mode, st: TxState) {
    mode == Deliver && st.blockMeter.Some? && st.blockMeter.value.Basic?
    && st.blockMeter.value.consumed >= st.blockMeter.value.limit
  }

  /** All that a transaction does: to the contents, the gas meters and in its answer. */
  ghost predicate TxDoes(app: App, mode: Mode, st: TxState, votes: Bytes, tx: Tx, after: TxState, result: TxResult)
    requires mode == Deliver ==> st.blockMeter.Some?
  {
    if Spent(mode, st) then
      after == st && result == TxResult(false, 0, st.blockMeter.value.consumed)
    else
      exists end: Point, ok: bool ::
        && BodyDoes(app, mode, st, votes, tx, end, ok)
        && after.view == end.view && after.header == st.header
        && after.shared == (if OwnMeter(app, mode, st, votes, tx) then AnteOf(app, mode, st, votes, tx).shared
                            else end.meter)
        && result.gasWanted == Wanted(app, mode, st, votes, tx) && result.gasUsed == end.meter.consumed
        && if mode != Deliver then
             after.blockMeter == st.blockMeter && result.ok == ok
           else
             var total := st.blockMeter.value.consumed + Reported(end.meter);
             && (result.ok <==> ok && Admits(st.blockMeter.value, total))
             && after.blockMeter == Some(st.blockMeter.value.(consumed := if total < TWO_64 then total else 0))
  }

  /** A transaction succeeds exactly if the block is not spent, it has messages and all are valid, the ante handler
      completes and accepts it, and then, unless it is only checked, all messages succeed in turn and, in a block,
      the charge stays within 64 bits and the limit. */
  ghost predicate TxSucceeds(app: App, mode: Mode, st: TxState, votes: Bytes, tx: Tx)
    requires mode == Deliver ==> st.blockMeter.Some?
  {
    && !Spent(mode, st) && AnteAccepts(app, mode, st, votes, tx)
    && (mode == Check || mode == ReCheck
        || exists points: seq<Point> ::
             && Trace(app, AnteEnv(app, mode, st, votes, tx), points, tx.msgs)
             && points[0] == Point(AnteView(app, mode, st, votes, tx), AnteMeter(app, mode, st, votes, tx))
             && (mode == Deliver ==>
                   var block := st.blockMeter.value;
                   Admits(block, block.consumed + Reported(points[|tx.msgs|].meter))))
  }

  /** The ante handler as runTx carries it out. */
  lemma AnteRuns(app: App, mode: Mode, st: TxState, votes: Bytes, tx: Tx)
    requires WellFormed(app, tx)
    ensures var a := RunAnte(app, mode, EnvOf(st, mode, votes, tx), st.view, st.shared, tx);
            && (a.outcome == Success <==> AnteAccepts(app, mode, st, votes, tx))
            && (a.outcome != Panicked <==> AnteCompletes(app, mode, st, votes, tx))
            && a.meter == AnteMeter(app, mode, st, votes, tx)
            && a.shared == AnteOf(app, mode, st, votes, tx).shared
            && (a.ownMeter <==> OwnMeter(app, mode, st, votes, tx))
            && (a.outcome == Success ==>
                  a.view == AnteView(app, mode, st, votes, tx) && a.env == AnteEnv(app, mode, st, votes, tx))
  {
    hide WellFormed;
  }

  lemma BasicIsWellFormed(app: App, tx: Tx)
    ensures BasicValid(app, tx) <==> WellFormed(app, tx)
  {
    if WellFormed(app, tx) {
      forall m | m in tx.msgs
        ensures app.validateBasic(m)
      {
        var i :| 0 <= i < |tx.msgs| && tx.msgs[i] == m;
      }
    }
  }

  /** The body of runTx does this and nothing else. */
  lemma BodyLaw(app: App, mode: Mode, st: TxState, votes: Bytes, tx: Tx, end: Point, ok: bool)
    ensures var b := RunBody(app, mode, st, votes, tx);
            BodyDoes(app, mode, st, votes, tx, end, ok) <==> (b.view, b.meter, b.ok) == (end.view, end.meter, ok)
    ensures var b := RunBody(app, mode, st, votes, tx);
            && b.gasWanted == Wanted(app, mode, st, votes, tx)
            && b.shared == if OwnMeter(app, mode, st, votes, tx) then AnteOf(app, mode, st, votes, tx).shared
                           else b.meter
  {
    BasicIsWellFormed(app, tx);
    if WellFormed(app, tx) {
      AnteRuns(app, mode, st, votes, tx);
      var start := Point(AnteView(app, mode, st, votes, tx), AnteMeter(app, mode, st, votes, tx));
      var env := AnteEnv(app, mode, st, votes, tx);
      hide RunAnte, RunMsgs, BasicValid, WellFormed, AnteOf, AnteView, AnteEnv, MsgsEnd;
      forall last: Point, ok: bool
        ensures var r := RunMsgs(app, env, start.view, start.meter, tx.msgs);
                MsgsEnd(app, env, start, tx.msgs, last, ok) <==>
                (r.view, r.meter) == (last.view, last.meter) && (r.outcome == Success <==> ok)
      {
        RunIsTrace(app, env, start, tx.msgs, last, ok);
      }
      var r := RunMsgs(app, env, start.view, start.meter, tx.msgs);
      assert MsgsEnd(app, env, start, tx.msgs, Point(r.view, r.meter), r.outcome == Success);
    }
  }

  /** A transaction does all this and nothing else. */
  lemma TxLaw(app: App, mode: Mode, st: TxState, votes: Bytes, tx: Tx, after: TxState, result: TxResult)
    requires mode == Deliver ==> st.blockMeter.Some?
    ensures TxDoes(app, mode, st, votes, tx, after, result) <==> RunTx(app, mode, st, votes, tx) == (after, result)
  {
    hide RunBody, BodyDoes, Wanted, OwnMeter, AnteOf;
    forall end: Point, ok: bool
      ensures var b := RunBody(app, mode, st, votes, tx);
              BodyDoes(app, mode, st, votes, tx, end, ok) <==> (b.view, b.meter, b.ok) == (end.view, end.meter, ok)
      ensures var b := RunBody(app, mode, st, votes, tx);
              && b.gasWanted == Wanted(app, mode, st, votes, tx)
              && b.shared == if OwnMeter(app, mode, st, votes, tx) then AnteOf(app, mode, st, votes, tx).shared
                             else b.meter
    {
      BodyLaw(app, mode, st, votes, tx, end, ok);
    }
    if RunTx(app, mode, st, votes, tx) == (after, result) {
      var b := RunBody(app, mode, st, votes, tx);
      assert BodyDoes(app, mode, st, votes, tx, Point(b.view, b.meter), b.ok);
    }
  }

  /** Exactly which transactions succeed. */
  lemma SuccessLaw(app: App, mode: Mode, st: TxState, votes: Bytes, tx: Tx)
    requires mode == Deliver ==> st.blockMeter.Some?
    ensures RunTx(app, mode, st, votes, tx).1.ok <==> TxSucceeds(app, mode, st, votes, tx)
  {
    var (after, result) := RunTx(app, mode, st, votes, tx);
    TxLaw(app, mode, st, votes, tx, after, result);
    hide RunTx, Wanted, OwnMeter, AnteOf, AnteAccepts, AnteView, AnteEnv, AnteMeter, Executes, Reported, Admits;
    if !Spent(mode, st) && AnteAccepts(app, mode, st, votes, tx) && mode != Check && mode != ReCheck {
      var start := Point(AnteView(app, mode, st, votes, tx), AnteMeter(app, mode, st, votes, tx));
      MessagesDecide(app, mode, st, votes, tx, after, result, AnteEnv(app, mode, st, votes, tx), start);
    }
  }

  lemma MessagesDecide(app: App, mode: Mode, st: TxState, votes: Bytes, tx: Tx, after: TxState, result: TxResult,
                       env: Env, start: Point)
    requires (mode == Deliver ==> st.blockMeter.Some?) && TxDoes(app, mode, st, votes, tx, after, result)
    requires !Spent(mode, st) && AnteAccepts(app, mode, st, votes, tx) && mode != Check && mode != ReCheck
    requires env == AnteEnv(app, mode, st, votes, tx)
    requires start == Point(AnteView(app, mode, st, votes, tx), AnteMeter(app, mode, st, votes, tx))
    ensures result.ok <==>
            exists points: seq<Point> ::
              && Trace(app, env, points, tx.msgs) && points[0] == start
              && (mode == Deliver ==>
                    Admits(st.blockMeter.value, st.blockMeter.value.consumed + Reported(points[|tx.msgs|].meter)))
  {
    hide Wanted, OwnMeter, AnteOf, AnteAccepts, AnteView, AnteEnv, AnteMeter, Executes, Reported, Admits;
    var end: Point, ok: bool :|
      && BodyDoes(app, mode, st, votes, tx, end, ok) && result.gasUsed == end.meter.consumed
      && if mode != Deliver then result.ok == ok
         else result.ok <==> ok && Admits(st.blockMeter.value, st.blockMeter.value.consumed + Reported(end.meter));
    var last: Point :| MsgsEnd(app, env, start, tx.msgs, last, ok) && end.meter == last.meter;
    hide BodyDoes, TxDoes, RunMsgs;
    RunIsTrace(app, env, start, tx.msgs, last, ok);
    forall points: seq<Point> | Trace(app, env, points, tx.msgs) && points[0] == start
      ensures ok && points[|tx.msgs|] == last
    {
      RunIsTrace(app, env, start, tx.msgs, points[|tx.msgs|], true);
    }
  }
}
