/** Who closes an iterator, and what its error then says. */
module IterClosing {
  import opened IterLifecycle
  import opened Wrappers
  import RS = ResultSetSpec

  /** The context has been cancelled in one of the first n steps. */
  predicate CancelledBy(steps: seq<Step>, n: nat) {
    exists j :: 0 <= j < n <= |steps| && steps[j] == CancelContext
  }

  /** The goroutine of awaitDone goes on only when its context is done; and while the iterator is
      open only its caller can have cancelled that. */
  predicate Knows(st: State, steps: seq<Step>, n: nat) {
    && (forall t :: 0 <= t < |st.ops| && st.ops[t] == InBody(AwaitDone) ==> st.ctxDone)
    && (st.ctxDone && !st.phase.Closed? ==> CancelledBy(steps, n))
  }

  lemma {:induction false} KnowsInStep(st: State, step: Step)
    requires Inv(st) && Enabled(st, step)
    requires forall t :: 0 <= t < |st.ops| && st.ops[t] == InBody(AwaitDone) ==> st.ctxDone
    ensures var st' := Apply(st, step);
            && (forall t :: 0 <= t < |st'.ops| && st'.ops[t] == InBody(AwaitDone) ==> st'.ctxDone)
            && (st'.ctxDone && !st'.phase.Closed? ==> step == CancelContext || (st.ctxDone && !st.phase.Closed?))
  {
    if step.CallOnClose? {
      assert st.mu == Some(step.t);
    }
  }

  lemma {:induction false} KnownSoFar(run: seq<State>, steps: seq<Step>, n: nat)
    requires Taken(run, steps) && n < |run|
    ensures Knows(run[n], steps, n)
    decreases n
  {
    hide Inv, Enabled, Apply;
    if n > 0 {
      KnownSoFar(run, steps, n - 1);
      TakenIsRun(run, steps);
      ReachableIsInv(run, n - 1);
      assert Enabled(run[n - 1], steps[n - 1]) && run[n - 1 + 1] == Apply(run[n - 1], steps[n - 1]);
      KnowsInStep(run[n - 1], steps[n - 1]);
      if steps[n - 1] == CancelContext {
        assert CancelledBy(steps, n);
      }
    }
  }

  /** The step closes an open iterator, and leaves it with this error: the feed's; what it was, at
      a Close; or at the goroutine of awaitDone the context's, unless there was one. */
  predicate ClosesWith(st: State, step: Step, err: Option<RS.Failure>) {
    match step
    case FeedNext(_, Error(e)) => err == Some(RS.Feed(e))
    case Body(t) =>
      || (At(st, t, InBody(Close)) && err == st.err)
      || (At(st, t, InBody(AwaitDone)) && err == if st.err.None? then Some(RS.Cancelled) else st.err)
    case _ => false
  }

  lemma {:induction false} ClosingStep(st: State, step: Step)
    requires Enabled(st, step) && !st.phase.Closed?
    ensures var st' := Apply(st, step);
            st'.phase.Closed? <==> ClosesWith(st, step, st'.err)
  {
  }

  /** In every run, an iterator that is closed has been closed by one step: the feed's error, a
      Close, or the goroutine of awaitDone; the last only if the caller had cancelled the
      context.  Its error is ever since what that step says. */
  lemma {:induction false} WhoClosedIt(run: seq<State>, steps: seq<Step>, i: nat) returns (k: nat)
    requires Taken(run, steps) && i < |run| && run[i].phase.Closed?
    ensures k < i && !run[k].phase.Closed? && ClosesWith(run[k], steps[k], run[i].err)
    ensures steps[k].Body? && At(run[k], steps[k].t, InBody(AwaitDone)) ==> CancelledBy(steps, k)
    decreases i
  {
    hide Inv, Enabled, Apply, CancelledBy;
    assert i > 0;
    TakenIsRun(run, steps);
    assert Enabled(run[i - 1], steps[i - 1]) && run[i - 1 + 1] == Apply(run[i - 1], steps[i - 1]);
    if run[i - 1].phase.Closed? {
      k := WhoClosedIt(run, steps, i - 1);
      ErrIsStableAfterClose(run, i - 1, i);
    } else {
      k := i - 1;
      ClosingStep(run[k], steps[k]);
      KnownSoFar(run, steps, k);
    }
  }

  /** So the context's error is reported only of a context that the caller has cancelled. */
  lemma {:induction false} ContextErrorOnlyIfCancelled(run: seq<State>, steps: seq<Step>, i: nat)
    requires Taken(run, steps) && i < |run| && run[i].err == Some(RS.Cancelled)
    ensures CancelledBy(steps, i)
  {
    hide Inv, Enabled, Apply, CancelledBy;
    TakenIsRun(run, steps);
    if run[i].phase.Closed? {
      var k := WhoClosedIt(run, steps, i);
      if At(run[k], steps[k].t, InBody(Close)) {
        OpenErrorIsMisuse(run, k);
      } else {
        OpenErrorIsMisuse(run, k);
        CancelledLater(steps, k, i);
      }
    } else {
      OpenErrorIsMisuse(run, i);
    }
  }

  lemma CancelledLater(steps: seq<Step>, k: nat, i: nat)
    requires CancelledBy(steps, k) && k <= i <= |steps|
    ensures CancelledBy(steps, i)
  {
  }

  lemma {:induction false} OpenErrorIsMisuse(run: seq<State>, i: nat)
    requires Run(run) && i < |run| && !run[i].phase.Closed?
    ensures run[i].err.Some? ==> run[i].err == Some(RS.NextBeforeNextResultSet)
  {
    hide Inv, Enabled, Apply, Misuses;
    ErrOnOpenIteratorIff(run, i);
    if run[i].err.Some? {
      var k :| 0 <= k < i && MisusedAt(run, k);
      ErrStaysAfterMisuse(run, k, i);
    }
  }

  /** And when he cancels it, the iterator can be closed, with that error unless it had one: from
      every reachable state in which it is open and no operation is inside. */
  lemma {:induction false} CancellingCloses(run: seq<State>) returns (run': seq<State>)
    requires Run(run) && !Last(run).phase.Closed? && Last(run).mu.None?
    ensures Run(run') && run <= run' && Last(run').phase.Closed? && Last(run').mu.None?
    ensures Last(run').feedCloses == Last(run').onCloses == 1
    ensures Last(run').err == if Last(run).err.None? then Some(RS.Cancelled) else Last(run).err
  {
    ReachableIsInv(run, |run| - 1);
    assert Last(run).ops[0] == Waiting(AwaitDone);
    hide Run, Inv;
    run' := run;
    if !Last(run).ctxDone {
      run' := Extend(run', CancelContext);
    }
    run' := Extend(run', Lock(0));
    run' := Extend(run', Body(0));
    run' := Extend(run', CloseFeed(0));
    run' := Extend(run', CallOnClose(0));
    run' := Extend(run', Unlock(0));
  }
}
