/** The life of one iterator of iterator.go under concurrent use.

    Operations of any number of goroutines, and the goroutine of awaitDone, are interleaved
    step by step; only what happens between two steps is atomic.  `mu` is held by one
    operation at a time; a scan of resultset.go keeps it, and a count in `wg`, until its
    unlock function runs. */
module IterLifecycle {
  import opened Driver
  import opened ResultSetSpec
  import opened Wrappers
  import D = Decoder
  import RS = ResultSetSpec

  datatype Op = Next | NextResultSet | Close | Err | Scan | AwaitDone

  /** Where an operation stands.  From InBody to Leaving it holds `mu`: InBody before its
      first look at the state, MarkedClosed and FeedClosed inside closeErr, and Scanning when
      makeReady has returned and the unlock function has not run yet. */
  datatype PC =
    | Waiting(op: Op) | InBody(op: Op)
    | MarkedClosed(op: Op) | FeedClosed(op: Op)
    | Scanning | Leaving(op: Op) | Done

  /** `cur` is the row in curVal, by its number among the rows delivered; it is blank at first, and
      again when the feed has answered with something else than a row. */
  datatype State = State(
    phase: Phase, err: Option<Failure>,
    cur: Option<nat>, delivered: nat,
    mu: Option<nat>, wg: nat,
    ops: seq<PC>,
    ctxDone: bool,
    feedCloses: nat, onCloses: nat)

  /** Operation 0 is the goroutine started by newIterator. */
  function Init(): State {
    State.State(Ready, None, None, 0, None, 0, [Waiting(AwaitDone)], false, 0, 0)
  }

  datatype FromFeed = Row | EOQ | Error(e: D.Error)

  datatype Step =
    | Call(op: Op)                  // a goroutine calls a method
    | Lock(t: nat)
    | FeedNext(t: nat, r: FromFeed) // one round of the loop in next
    | Body(t: nat)                  // the body of any other operation, up to feed.Close
    | CloseFeed(t: nat)
    | CallOnClose(t: nat)           // cancel and onClose
    | Unlock(t: nat)
    | EndScan(t: nat)               // the unlock function of makeReady
    | CancelContext                 // the caller's context is cancelled

  predicate Holds(pc: PC) {
    pc.InBody? || pc.MarkedClosed? || pc.FeedClosed? || pc.Scanning? || pc.Leaving?
  }

  /** stateIsReady; a closed iterator has been turned away before it is asked */
  predicate StateIsReady(p: Phase) {
    p.RowReady? || p.ResultSetReady? || p.ResultSetRowReady? || p.Closed?
  }

  /** Whether next goes to the feed. */
  predicate ReadsFeed(st: State) {
    st.err.None? && !st.phase.Closed?
  }

  predicate At(st: State, t: nat, pc: PC) {
    t < |st.ops| && st.ops[t] == pc
  }

  predicate Enabled(st: State, step: Step) {
    match step
    case Call(op) => !op.AwaitDone?
    case Lock(t) => t < |st.ops| && st.ops[t].Waiting? && st.mu.None? && (st.ops[t].op.AwaitDone? ==> st.ctxDone)
    case FeedNext(t, r) => At(st, t, InBody(Next)) && ReadsFeed(st)
    case Body(t) =>
      && t < |st.ops| && st.ops[t].InBody?
      && (st.ops[t].op.Next? ==> !ReadsFeed(st))
      && (st.ops[t].op.Close? ==> st.wg == 0)   // wg.Wait
    case CloseFeed(t) => t < |st.ops| && st.ops[t].MarkedClosed?
    case CallOnClose(t) => t < |st.ops| && st.ops[t].FeedClosed?
    case Unlock(t) => t < |st.ops| && st.ops[t].Leaving?
    case EndScan(t) => At(st, t, Scanning)
    case CancelContext => !st.ctxDone
  }

  /** closeErr, up to feed.Close */
  function MarkClosed(st: State, t: nat, op: Op, err: Option<Failure>): State
    requires t < |st.ops|
  {
    if st.phase.Closed? then st.(ops := st.ops[t := Leaving(op)])
    else st.(phase := Closed, err := if st.err.None? then err else st.err, ops := st.ops[t := MarkedClosed(op)])
  }

  function ApplyBody(st: State, t: nat): State
    requires t < |st.ops| && st.ops[t].InBody?
  {
    var op := st.ops[t].op;
    var leave := st.(ops := st.ops[t := Leaving(op)]);
    match op
    case Next | Err => leave
    case NextResultSet =>
      if st.err.Some? || st.phase.Closed? then leave
      else if st.phase.RowReady? then leave.(err := Some(NextBeforeNextResultSet))
      else leave.(phase := ResultSetReady)
    case Close => MarkClosed(st, t, op, None)
    case AwaitDone => MarkClosed(st, t, op, Some(Cancelled))
    case Scan =>
      if st.err.Some? || st.phase.Closed? || !StateIsReady(st.phase) then leave
      else st.(wg := st.wg + 1, ops := st.ops[t := Scanning])
  }

  function ApplyFeedNext(st: State, t: nat, r: FromFeed): State
    requires t < |st.ops|
  {
    var ready := if InResultSet(st.phase) then ResultSetRowReady else RowReady;
    match r
    case Row =>
      st.(phase := ready, err := None, cur := Some(st.delivered), delivered := st.delivered + 1,
          ops := st.ops[t := Leaving(Next)])
    case EOQ =>
      if InResultSet(st.phase) then st.(phase := AtEOQ, err := None, cur := None, ops := st.ops[t := Leaving(Next)])
      else st.(cur := None)
    case Error(e) => MarkClosed(st.(phase := ready, err := Some(Feed(e)), cur := None), t, Next, None)
  }

  function Apply(st: State, step: Step): State
    requires Enabled(st, step)
  {
    match step
    case Call(op) => st.(ops := st.ops + [Waiting(op)])
    case Lock(t) => st.(mu := Some(t), ops := st.ops[t := InBody(st.ops[t].op)])
    case FeedNext(t, r) => ApplyFeedNext(st, t, r)
    case Body(t) => ApplyBody(st, t)
    case CloseFeed(t) => st.(feedCloses := st.feedCloses + 1, ops := st.ops[t := FeedClosed(st.ops[t].op)])
    case CallOnClose(t) =>
      st.(ctxDone := true, onCloses := st.onCloses + 1, ops := st.ops[t := Leaving(st.ops[t].op)])
    case Unlock(t) => st.(mu := None, ops := st.ops[t := Done])
    case EndScan(t) => st.(wg := if st.wg > 0 then st.wg - 1 else 0, mu := None, ops := st.ops[t := Done])
    case CancelContext => st.(ctxDone := true)
  }

  /** The state of a result set, as far as it shows here. */
  predicate Shows(st: State, rs: RS.State) {
    st.phase == rs.phase && st.err == rs.err && (st.cur.Some? <==> rs.cur.Some?)
  }

  /** What feed.Next returned, as an event of the driver's stream. */
  predicate Delivers(r: FromFeed, ev: Event) {
    match r
    case Row => ev.RowEvent?
    case EOQ => ev.EndOfQuery?
    case Error(e) => ev.End? && e == ev.error
  }

  /** What happens here under the mutex is what the operations of a result set do. */
  lemma {:induction false} BodiesAreTheOperations(st: State, rs: RS.State, t: nat)
    requires !st.phase.Panicked? && Shows(st, rs) && t < |st.ops|
    ensures st.ops[t] == InBody(NextResultSet) ==> Shows(ApplyBody(st, t), RS.NextResultSet(rs).1)
    ensures st.ops[t] == InBody(Close) ==> Shows(ApplyBody(st, t), RS.Close(rs))
    ensures st.ops[t] == InBody(AwaitDone) ==> Shows(ApplyBody(st, t), RS.CloseErr(rs, Some(Cancelled)))
    ensures forall r :: st.ops[t] == InBody(Next) && ReadsFeed(st) && rs.pending != [] && Delivers(r, rs.pending[0]) ==>
              var st' := ApplyFeedNext(st, t, r);
              if r.EOQ? && !InResultSet(st.phase) then
                st' == st.(cur := None) && Shows(st', RS.FeedNext(rs).1) && IterNext(rs) == IterNext(RS.FeedNext(rs).1)
              else Shows(st', IterNext(rs).1) && (IterNext(rs).0 <==> r.Row?)
    ensures st.ops[t] == InBody(Next) && Enabled(st, Body(t)) ==> !RS.Next(rs).0 && Shows(ApplyBody(st, t), RS.Next(rs).1)
  {
  }

  ghost predicate Transition(st: State, st': State) {
    exists step :: Enabled(st, step) && st' == Apply(st, step)
  }

  ghost predicate Run(run: seq<State>) {
    && |run| > 0 && run[0] == Init()
    && forall i :: 0 <= i < |run| - 1 ==> Transition(run[i], run[i + 1])
  }

  predicate OfAwaitDone(pc: PC) {
    match pc
    case Done => true
    case Scanning => false
    case _ => pc.op.AwaitDone?
  }

  function Holder(st: State): PC {
    if st.mu.Some? && st.mu.value < |st.ops| then st.ops[st.mu.value] else Done
  }

  /** `mu` is held by the operation it names and by no other, `wg` counts the scan that holds
      it, and the two close counters say how far the one closeErr that found the iterator open
      has come. */
  predicate Inv(st: State) {
    && |st.ops| > 0 && OfAwaitDone(st.ops[0])
    && (forall t :: 0 <= t < |st.ops| ==> (Holds(st.ops[t]) <==> st.mu == Some(t)))
    && (st.mu.Some? ==> st.mu.value < |st.ops|)
    && var holder := Holder(st);
    && st.wg == (if holder.Scanning? then 1 else 0)
    && (holder.Scanning? ==> st.err.None? && st.phase in {RowReady, ResultSetReady, ResultSetRowReady})
    && st.feedCloses == (if st.phase.Closed? && !holder.MarkedClosed? then 1 else 0)
    && st.onCloses == (if st.phase.Closed? && !holder.MarkedClosed? && !holder.FeedClosed? then 1 else 0)
    && (holder.MarkedClosed? || holder.FeedClosed? ==> st.phase.Closed?)
    && (st.onCloses == 1 ==> st.ctxDone)
    && (st.ops[0].Leaving? || st.ops[0].Done? ==> st.phase.Closed?)
    && (st.cur.Some? ==> st.cur.value + 1 == st.delivered)
    && (st.phase.RowReady? || st.phase.ResultSetRowReady? ==>
          st.err.Some? || st.cur.Some? || holder == InBody(Next))
  }

  lemma {:induction false} OutsideKeepsInv(st: State, step: Step)
    requires Inv(st) && Enabled(st, step) && (step.Call? || step.Lock? || step.CancelContext?)
    ensures Inv(Apply(st, step))
  {
  }

  lemma {:induction false} FeedNextKeepsInv(st: State, step: Step)
    requires Inv(st) && Enabled(st, step) && step.FeedNext?
    ensures Inv(Apply(st, step))
  {
    assert st.mu == Some(step.t);
  }

  lemma {:induction false} BodyKeepsInv(st: State, step: Step)
    requires Inv(st) && Enabled(st, step) && step.Body?
    ensures Inv(Apply(st, step))
  {
    assert st.mu == Some(step.t);
    match st.ops[step.t].op
    case Next | Err =>
    case NextResultSet =>
    case Close | AwaitDone =>
    case Scan =>
  }

  lemma {:induction false} ClosingKeepsInv(st: State, step: Step)
    requires Inv(st) && Enabled(st, step) && (step.CloseFeed? || step.CallOnClose?)
    ensures Inv(Apply(st, step))
  {
    assert st.mu == Some(step.t);
  }

  lemma {:induction false} LeavingKeepsInv(st: State, step: Step)
    requires Inv(st) && Enabled(st, step) && (step.Unlock? || step.EndScan?)
    ensures Inv(Apply(st, step))
  {
    assert st.mu == Some(step.t);
  }

  lemma {:induction false} StepKeepsInv(st: State, step: Step)
    requires Inv(st) && Enabled(st, step)
    ensures Inv(Apply(st, step))
  {
    hide Inv, Apply;
    match step
    case FeedNext(_, _) => FeedNextKeepsInv(st, step);
    case Body(_) => BodyKeepsInv(st, step);
    case CloseFeed(_) | CallOnClose(_) => ClosingKeepsInv(st, step);
    case Unlock(_) | EndScan(_) => LeavingKeepsInv(st, step);
    case _ => OutsideKeepsInv(st, step);
  }

  lemma {:induction false} ReachableIsInv(run: seq<State>, i: nat)
    requires Run(run) && i < |run|
    ensures Inv(run[i])
  {
    if i > 0 {
      ReachableIsInv(run, i - 1);
      assert Transition(run[i - 1], run[i - 1 + 1]);
      var step :| Enabled(run[i - 1], step) && run[i] == Apply(run[i - 1], step);
      StepKeepsInv(run[i - 1], step);
    }
  }

  // ---------------------------------------------------------------------------
  // What every run keeps
  // ---------------------------------------------------------------------------

  /** feed.Close and onClose run at most once, and whenever the iterator is closed and its
      mutex is free, each has run exactly once. */
  lemma {:induction false} ClosedExactlyOnce(run: seq<State>, i: nat)
    requires Run(run) && i < |run|
    ensures var st := run[i];
            && st.feedCloses <= 1 && st.onCloses <= st.feedCloses
            && (st.mu.None? ==> st.feedCloses == st.onCloses == (if st.phase.Closed? then 1 else 0))
  {
    ReachableIsInv(run, i);
  }

  /** Once closed, an iterator stays closed, and what Err reports never changes. */
  lemma {:induction false} ErrIsStableAfterClose(run: seq<State>, i: nat, j: nat)
    requires Run(run) && i <= j < |run| && run[i].phase.Closed?
    ensures run[j].phase.Closed? && run[j].err == run[i].err
  {
    if i < j {
      ErrIsStableAfterClose(run, i, j - 1);
      assert Transition(run[j - 1], run[j - 1 + 1]);
    }
  }

  /** Mutual exclusion of operations: no two of them are ever inside at once. */
  lemma {:induction false} OneInsideAtATime(run: seq<State>, i: nat, t: nat, u: nat)
    requires Run(run) && i < |run| && t < |run[i].ops| && u < |run[i].ops|
    requires Holds(run[i].ops[t]) && Holds(run[i].ops[u])
    ensures t == u
  {
    ReachableIsInv(run, i);
  }

  /** The steps that operation `t` itself takes once it holds the mutex. */
  predicate StepOf(step: Step, t: nat) {
    match step
    case FeedNext(u, _) => u == t
    case Body(u) => u == t
    case CloseFeed(u) => u == t
    case CallOnClose(u) => u == t
    case Unlock(u) => u == t
    case EndScan(u) => u == t
    case _ => false
  }

  /** wg.Wait inside Close never blocks, and neither does anything else: whoever holds the
      mutex can take its next step, and while nobody holds it every waiting operation can lock
      it (awaitDone once its context is done). */
  lemma {:induction false} NothingBlocks(run: seq<State>, i: nat)
    requires Run(run) && i < |run|
    ensures var st := run[i];
            && (st.mu.Some? ==> exists step :: StepOf(step, st.mu.value) && Enabled(st, step))
            && (st.mu.None? ==>
                  forall t :: 0 <= t < |st.ops| && st.ops[t].Waiting? && (st.ops[t].op.AwaitDone? ==> st.ctxDone) ==>
                    Enabled(st, Lock(t)))
            && (forall t :: 0 <= t < |st.ops| && st.ops[t] == InBody(Close) ==> Enabled(st, Body(t)))
  {
    ReachableIsInv(run, i);
    var st := run[i];
    if st.mu.Some? {
      var t := st.mu.value;
      var step := match st.ops[t]
        case InBody(op) => if op.Next? && ReadsFeed(st) then FeedNext(t, Row) else Body(t)
        case MarkedClosed(_) => CloseFeed(t)
        case FeedClosed(_) => CallOnClose(t)
        case Scanning => EndScan(t)
        case _ => Unlock(t);
      assert StepOf(step, t) && Enabled(st, step);
    }
  }

  /** What is left of an operation that is inside. */
  function ToGo(pc: PC): nat {
    match pc
    case Waiting(_) => 5 case InBody(_) => 4 case MarkedClosed(_) => 3 case FeedClosed(_) => 2
    case Scanning => 1 case Leaving(_) => 1 case Done => 0
  }

  /** Every step of the holder brings it nearer to leaving, but for a Next that passes over the end
      of a query, which is as far as the feed; and no step of another operation moves it. */
  lemma {:induction false} HolderGetsOut(st: State, step: Step, t: nat)
    requires Inv(st) && Enabled(st, step) && t < |st.ops| && Holds(st.ops[t])
    ensures var st' := Apply(st, step);
            && t < |st'.ops|
            && (if !StepOf(step, t) then st'.ops[t] == st.ops[t]
                else if step.FeedNext? && step.r.EOQ? && !InResultSet(st.phase) then st'.ops[t] == st.ops[t]
                else ToGo(st'.ops[t]) < ToGo(st.ops[t]))
  {
    assert st.mu == Some(t);
  }

  /** While a scan is under way the iterator is open, without error and on a row or at the start
      of a result set; and nothing that other goroutines do, Close and cancellation included,
      changes that before the scan's unlock function runs. */
  lemma {:induction false} ScanIsUndisturbed(run: seq<State>, i: nat, j: nat, t: nat)
    requires Run(run) && i <= j < |run| && At(run[i], t, Scanning) && At(run[j], t, Scanning)
    ensures run[i].err.None? && run[i].phase in {RowReady, ResultSetReady, ResultSetRowReady}
    ensures run[j].phase == run[i].phase && run[j].err == run[i].err && run[j].cur == run[i].cur
    ensures run[j].feedCloses == run[i].feedCloses == 0
    decreases j - i
  {
    hide Run, Inv, Enabled, Apply;
    if i == j {
      ReachableIsInv(run, i);
      ScanIsOnARow(run[i], t);
    } else {
      var step := StepAt(run, j - 1);
      StillScanning(run, i, j - 1, t);
      OthersLeaveItAlone(run[j - 1], step, t);
      ScanIsUndisturbed(run, i, j - 1, t);
    }
  }

  lemma {:induction false} ScanIsOnARow(st: State, t: nat)
    requires Inv(st) && At(st, t, Scanning)
    ensures st.err.None? && st.phase in {RowReady, ResultSetReady, ResultSetRowReady} && st.feedCloses == 0
  {
    assert Holds(st.ops[t]) && st.mu == Some(t);
  }

  lemma {:induction false} StepAt(run: seq<State>, k: nat) returns (step: Step)
    requires Run(run) && k + 1 < |run|
    ensures Inv(run[k]) && Enabled(run[k], step) && run[k + 1] == Apply(run[k], step)
  {
    ReachableIsInv(run, k);
    hide Inv, Enabled, Apply;
    assert Transition(run[k], run[k + 1]);
    step :| Enabled(run[k], step) && run[k + 1] == Apply(run[k], step);
  }

  lemma {:induction false} OthersLeaveItAlone(st: State, step: Step, t: nat)
    requires Inv(st) && Enabled(st, step) && At(st, t, Scanning)
    ensures var st' := Apply(st, step);
            && t < |st'.ops|
            && (st'.ops[t] == Done
                || (st'.ops[t] == Scanning && st'.phase == st.phase && st'.err == st.err
                    && st'.cur == st.cur && st'.feedCloses == st.feedCloses))
  {
    assert Holds(st.ops[t]) && st.mu == Some(t);
  }

  /** An operation that is over stays over. */
  lemma {:induction false} DoneIsFinal(run: seq<State>, i: nat, j: nat, t: nat)
    requires Run(run) && i <= j < |run| && At(run[i], t, Done)
    ensures At(run[j], t, Done)
    decreases j - i
  {
    if i < j {
      DoneIsFinal(run, i, j - 1, t);
      assert Transition(run[j - 1], run[j - 1 + 1]);
    }
  }

  lemma {:induction false} StillScanning(run: seq<State>, i: nat, k: nat, t: nat)
    requires Run(run) && i <= k < |run| - 1 && At(run[i], t, Scanning) && At(run[k + 1], t, Scanning)
    ensures At(run[k], t, Scanning)
    decreases k - i
  {
    ScanningOrDone(run, i, k, t);
    if At(run[k], t, Done) {
      DoneIsFinal(run, k, k + 1, t);
    }
  }

  lemma {:induction false} ScanningOrDone(run: seq<State>, i: nat, k: nat, t: nat)
    requires Run(run) && i <= k < |run| && At(run[i], t, Scanning)
    ensures At(run[k], t, Scanning) || At(run[k], t, Done)
    decreases k - i
  {
    hide Run, Inv, Enabled, Apply;
    if i < k {
      ScanningOrDone(run, i, k - 1, t);
      if At(run[k - 1], t, Done) {
        DoneIsFinal(run, k - 1, k, t);
      } else {
        var step := StepAt(run, k - 1);
        OthersLeaveItAlone(run[k - 1], step, t);
      }
    }
  }

  /** The goroutine of awaitDone does not leak: once the iterator is closed and the mutex free,
      its context is done, so it is done or can go on; and when it is done, the iterator is
      closed. */
  lemma {:induction false} AwaitDoneEnds(run: seq<State>, i: nat)
    requires Run(run) && i < |run|
    ensures var st := run[i];
            && |st.ops| > 0
            && (st.phase.Closed? && st.mu.None? ==> st.ctxDone && (st.ops[0].Done? || Enabled(st, Lock(0))))
            && (st.ops[0].Done? ==> st.phase.Closed?)
  {
    ReachableIsInv(run, i);
  }

  // ---------------------------------------------------------------------------
  // What errors mean
  // ---------------------------------------------------------------------------

  /** The body of a NextResultSet runs behind a plain Next: on a row outside any result set, with
      no error set. */
  predicate Misuses(st: State, step: Step) {
    step.Body? && At(st, step.t, InBody(NextResultSet)) && st.phase.RowReady? && st.err.None?
  }

  ghost predicate MisusedAt(run: seq<State>, k: nat)
    requires k + 1 < |run|
  {
    exists step :: Enabled(run[k], step) && Misuses(run[k], step) && run[k + 1] == Apply(run[k], step)
  }

  /** An error, once set, stays; and only misuse sets one without closing. */
  lemma {:induction false} ErrStep(st: State, step: Step)
    requires Enabled(st, step)
    ensures st.err.Some? ==> Apply(st, step).err == st.err
    ensures st.err.None? ==> (Apply(st, step).err.Some? && !Apply(st, step).phase.Closed? <==> Misuses(st, step))
    ensures st.phase.Closed? ==> Apply(st, step).phase.Closed?
    ensures Misuses(st, step) ==> Apply(st, step).err == Some(NextBeforeNextResultSet)
  {
  }

  /** The comment on the field promises that err is non-nil only if the state is closed.  That
      fails exactly on an iterator that is still open after NextResultSet was called behind a
      plain Next. */
  lemma {:induction false} ErrOnOpenIteratorIff(run: seq<State>, i: nat)
    requires Run(run) && i < |run|
    ensures run[i].err.Some? && !run[i].phase.Closed? <==>
            !run[i].phase.Closed? && exists k :: 0 <= k < i && MisusedAt(run, k)
  {
    hide Inv, Enabled, Apply, Misuses;
    if i > 0 {
      ErrOnOpenIteratorIff(run, i - 1);
      var step := StepAt(run, i - 1);
      ErrStep(run[i - 1], step);
      if k :| 0 <= k < i && MisusedAt(run, k) {
        ErrStaysAfterMisuse(run, k, i);
      }
      if run[i - 1].err.None? && run[i].err.Some? && !run[i].phase.Closed? {
        assert MisusedAt(run, i - 1);
      }
    }
  }

  lemma {:induction false} ErrStaysAfterMisuse(run: seq<State>, k: nat, i: nat)
    requires Run(run) && k < i < |run| && MisusedAt(run, k)
    ensures run[i].err == Some(NextBeforeNextResultSet)
    decreases i
  {
    hide Inv, Enabled, Apply, Misuses;
    if i == k + 1 {
      var step :| Enabled(run[k], step) && Misuses(run[k], step) && run[k + 1] == Apply(run[k], step);
      ErrStep(run[k], step);
    } else {
      ErrStaysAfterMisuse(run, k, i - 1);
      var step := StepAt(run, i - 1);
      ErrStep(run[i - 1], step);
    }
  }

  function Last(run: seq<State>): State
    requires |run| > 0
  {
    run[|run| - 1]
  }

  lemma {:induction false} Extend(run: seq<State>, step: Step) returns (longer: seq<State>)
    requires Run(run) && Enabled(Last(run), step)
    ensures Run(longer) && Last(longer) == Apply(Last(run), step) && run < longer
  {
    longer := run + [Apply(Last(run), step)];
    forall i | 0 <= i < |longer| - 1
      ensures Transition(longer[i], longer[i + 1])
    {
      if i < |run| - 1 {
        assert Transition(run[i], run[i + 1]);
      }
    }
  }

  /** Such a run: Next delivers a row, then NextResultSet is called. */
  lemma {:induction false} MisuseLeavesItOpen()
    ensures exists run: seq<State> :: Run(run) && Last(run).err.Some? && !Last(run).phase.Closed?
  {
    var run := [Init()];
    hide Run;
    run := Extend(run, Call(Next));
    run := Extend(run, Lock(1));
    run := Extend(run, FeedNext(1, Row));
    assert Last(run).ops == [Waiting(AwaitDone), Leaving(Next)];
    run := Extend(run, Unlock(1));
    run := Extend(run, Call(NextResultSet));
    assert Last(run).ops == [Waiting(AwaitDone), Done, Waiting(NextResultSet)];
    run := Extend(run, Lock(2));
    run := Extend(run, Body(2));
  }

  // ---------------------------------------------------------------------------
  // What a scan finds
  // ---------------------------------------------------------------------------

  /** A run with the steps taken. */
  ghost predicate Taken(run: seq<State>, steps: seq<Step>) {
    && |run| == |steps| + 1 && run[0] == Init()
    && forall i :: 0 <= i < |steps| ==> Enabled(run[i], steps[i]) && run[i + 1] == Apply(run[i], steps[i])
  }

  lemma {:induction false} RunHasSteps(run: seq<State>) returns (steps: seq<Step>)
    requires Run(run)
    ensures Taken(run, steps)
    decreases |run|
  {
    hide Inv, Enabled, Apply;
    steps := [];
    if |run| > 1 {
      var before := run[..|run| - 1];
      assert forall i :: 0 <= i < |before| - 1 ==> Transition(run[i], run[i + 1]);
      assert Run(before);
      var some := RunHasSteps(before);
      var step := StepAt(run, |run| - 2);
      steps := some + [step];
      forall i | 0 <= i < |steps|
        ensures Enabled(run[i], steps[i]) && run[i + 1] == Apply(run[i], steps[i])
      {
        if i < |some| {
          assert before[i] == run[i] && before[i + 1] == run[i + 1] && steps[i] == some[i];
        }
      }
    }
  }

  lemma {:induction false} TakenIsRun(run: seq<State>, steps: seq<Step>)
    requires Taken(run, steps)
    ensures Run(run)
  {
    hide Enabled, Apply;
    forall i | 0 <= i < |run| - 1
      ensures Transition(run[i], run[i + 1])
    {
      assert Enabled(run[i], steps[i]) && run[i + 1] == Apply(run[i], steps[i]);
    }
  }

  /** The body of a NextResultSet that succeeds. */
  predicate StartsSet(st: State, step: Step) {
    && step.Body? && At(st, step.t, InBody(NextResultSet))
    && st.err.None? && !st.phase.Closed? && !st.phase.RowReady?
  }

  /** The iterator is moved by Next asking the feed, and by NextResultSet. */
  predicate Moves(st: State, step: Step) {
    step.FeedNext? || StartsSet(st, step)
  }

  /** Before state i the iterator was last moved in step k. */
  predicate LastMoved(run: seq<State>, steps: seq<Step>, k: nat, i: nat)
    requires |run| == |steps| + 1 && k < i < |run|
  {
    Moves(run[k], steps[k]) && forall j :: k < j < i ==> !Moves(run[j], steps[j])
  }

  /** Before state i the iterator was last moved by a NextResultSet, with no Next behind it; `from`
      is the state in which that was called. */
  predicate AtStartOfSet(run: seq<State>, steps: seq<Step>, i: nat, from: nat)
    requires |run| == |steps| + 1 && from < i < |run|
  {
    LastMoved(run, steps, from, i) && StartsSet(run[from], steps[from])
  }

  lemma {:induction false} MoveStep(st: State, step: Step)
    requires Enabled(st, step)
    ensures var st' := Apply(st, step);
            && (StartsSet(st, step) ==> st'.phase.ResultSetReady? && st'.cur == st.cur)
            && (step.FeedNext? ==> !st'.phase.ResultSetReady?)
            && (!Moves(st, step) ==> st'.cur == st.cur && (st'.phase == st.phase || st'.phase.Closed?))
  {
  }

  /** What the last move by NextResultSet leaves. */
  lemma {:induction false} StartOfSetIs(run: seq<State>, steps: seq<Step>, i: nat, k: nat)
    requires Taken(run, steps) && k < i < |run| && AtStartOfSet(run, steps, i, k)
    ensures run[i].cur == run[k].cur && (run[i].phase.ResultSetReady? || run[i].phase.Closed?)
    decreases i
  {
    hide Enabled, Apply, StartsSet, Moves;
    MoveStep(run[i - 1], steps[i - 1]);
    assert Enabled(run[i - 1], steps[i - 1]) && run[i - 1 + 1] == Apply(run[i - 1], steps[i - 1]);
    if k < i - 1 {
      StartOfSetIs(run, steps, i - 1, k);
    }
  }

  /** An iterator at the start of a set got there by NextResultSet. */
  lemma {:induction false} StartOfSetFrom(run: seq<State>, steps: seq<Step>, i: nat) returns (k: nat)
    requires Taken(run, steps) && i < |run| && run[i].phase.ResultSetReady?
    ensures k < i && AtStartOfSet(run, steps, i, k)
    decreases i
  {
    hide Enabled, Apply, StartsSet, Moves;
    assert i > 0;
    assert Enabled(run[i - 1], steps[i - 1]) && run[i - 1 + 1] == Apply(run[i - 1], steps[i - 1]);
    MoveStep(run[i - 1], steps[i - 1]);
    if Moves(run[i - 1], steps[i - 1]) {
      k := i - 1;
      MoveIsOne(run[i - 1], steps[i - 1]);
    } else {
      k := StartOfSetFrom(run, steps, i - 1);
    }
  }

  lemma MoveIsOne(st: State, step: Step)
    ensures Moves(st, step) <==> step.FeedNext? || StartsSet(st, step)
  {
  }

  /** The comment on NextResultSet asks for a Next before the first scan of a set, but a scan is let
      in without it.  In every run, a scan under way has no row of its own set exactly if the
      iterator was last moved by a NextResultSet, with no Next behind it.  There is then no row
      at all exactly if there was none when that was called; otherwise the scan finds a row of
      the set before.  In every other case it finds the row that was delivered last. */
  lemma {:induction false} ScanWithoutOwnRowIff(run: seq<State>, steps: seq<Step>, i: nat, t: nat)
    requires Taken(run, steps) && i < |run| && At(run[i], t, Scanning)
    ensures run[i].phase.ResultSetReady? <==> exists k :: 0 <= k < i && AtStartOfSet(run, steps, i, k)
    ensures run[i].cur.None? <==> exists k :: 0 <= k < i && AtStartOfSet(run, steps, i, k) && run[k].cur.None?
    ensures run[i].cur.Some? ==> run[i].cur.value + 1 == run[i].delivered
  {
    hide Enabled, Apply, AtStartOfSet;
    TakenIsRun(run, steps);
    ReachableIsInv(run, i);
    ScanIsOnARow(run[i], t);
    assert Holds(run[i].ops[t]) && Holder(run[i]) == Scanning;
    forall k | 0 <= k < i && AtStartOfSet(run, steps, i, k)
      ensures run[i].phase.ResultSetReady? && run[i].cur == run[k].cur
    {
      StartOfSetIs(run, steps, i, k);
    }
    if run[i].phase.ResultSetReady? {
      var k := StartOfSetFrom(run, steps, i);
    }
  }

  /** Such a run: NextResultSet is called, and then a row is asked for. */
  lemma {:induction false} ScanWithoutARow() returns (run: seq<State>)
    ensures Run(run) && At(Last(run), 2, Scanning)
    ensures Last(run).phase.ResultSetReady? && Last(run).cur == None && Last(run).delivered == 0
  {
    run := [Init()];
    hide Run;
    run := Extend(run, Call(NextResultSet));
    run := Extend(run, Lock(1));
    run := Extend(run, Body(1));
    assert Last(run).ops == [Waiting(AwaitDone), Leaving(NextResultSet)];
    run := Extend(run, Unlock(1));
    run := Extend(run, Call(Scan));
    assert Last(run).ops == [Waiting(AwaitDone), Done, Waiting(Scan)];
    run := Extend(run, Lock(2));
    run := Extend(run, Body(2));
  }

  /** And one in which the scan finds the row of the set before. */
  lemma {:induction false} ScanOfAnEarlierRow() returns (run: seq<State>)
    ensures Run(run) && At(Last(run), 4, Scanning)
    ensures Last(run).phase.ResultSetReady? && Last(run).cur == Some(0)
  {
    run := [Init()];
    hide Run;
    run := Extend(run, Call(NextResultSet));
    run := Extend(run, Lock(1));
    run := Extend(run, Body(1));
    run := Extend(run, Unlock(1));
    run := OneRow(run);
    run := Extend(run, Call(NextResultSet));
    assert Last(run).ops == [Waiting(AwaitDone), Done, Done, Waiting(NextResultSet)];
    run := Extend(run, Lock(3));
    run := Extend(run, Body(3));
    run := Extend(run, Unlock(3));
    run := Extend(run, Call(Scan));
    assert Last(run).ops == [Waiting(AwaitDone), Done, Done, Done, Waiting(Scan)];
    run := Extend(run, Lock(4));
    run := Extend(run, Body(4));
  }

  lemma {:induction false} OneRow(run: seq<State>) returns (longer: seq<State>)
    requires Run(run) && Last(run) == Init().(phase := ResultSetReady, ops := [Waiting(AwaitDone), Done])
    ensures Run(longer)
    ensures Last(longer) == Init().(
              phase := ResultSetRowReady, cur := Some(0), delivered := 1, ops := [Waiting(AwaitDone), Done, Done])
  {
    hide Run;
    longer := Extend(run, Call(Next));
    longer := Extend(longer, Lock(2));
    longer := Extend(longer, FeedNext(2, Row));
    assert Last(longer).ops == [Waiting(AwaitDone), Done, Leaving(Next)];
    longer := Extend(longer, Unlock(2));
  }
}
