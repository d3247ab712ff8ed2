/** What every call of startQuery and of Close comes to, over whole runs. */
module QueryLifetimeRuns {
  import opened QueryLifetimes
  import opened QueryLifetimeLaws
  import opened Wrappers

  /** A run with the steps taken. */
  ghost predicate Steps(dbs: nat, goroutines: nat, run: seq<State>, steps: seq<Step>) {
    && |run| == |steps| + 1 && run[0] == Init(dbs, goroutines)
    && forall i :: 0 <= i < |steps| ==> Enabled(run[i], steps[i]) && run[i + 1] == Apply(run[i], steps[i])
  }

  lemma {:induction false} StepsAreRun(dbs: nat, goroutines: nat, run: seq<State>, steps: seq<Step>, i: nat)
    requires Steps(dbs, goroutines, run, steps) && i < |run|
    ensures Run(dbs, goroutines, run)
    ensures Inv(run[i]) && |run[i].dbs| == dbs && |run[i].gs| == goroutines
  {
    hide Enabled, Apply, Inv;
    forall j | 0 <= j < |run| - 1
      ensures Transition(run[j], run[j + 1])
    {
      assert Enabled(run[j], steps[j]) && run[j + 1] == Apply(run[j], steps[j]);
    }
    ReachableIsInv(dbs, goroutines, run, i);
  }

  // ---------------------------------------------------------------------------
  // Close
  // ---------------------------------------------------------------------------

  /** How often Close of this client or DB has been called. */
  function CloseCalls(steps: seq<Step>, on: Target): nat
    decreases |steps|
  {
    if steps == [] then 0
    else
      var last := steps[|steps| - 1];
      CloseCalls(steps[..|steps| - 1], on) + if last.CallClose? && last.on == on then 1 else 0
  }

  /** How many calls of it are under way. */
  function Closing(gs: seq<Goroutine>, on: Target): nat {
    if gs == [] then 0 else (if IsClosing(gs[0].pc, on) then 1 else 0) + Closing(gs[1..], on)
  }

  predicate IsClosing(pc: PC, on: Target) {
    IsClose(pc) && Subject(pc) == on
  }

  lemma {:induction false} ClosingUpdate(gs: seq<Goroutine>, t: nat, g: Goroutine, on: Target)
    requires t < |gs|
    ensures Closing(gs[t := g], on) ==
            Closing(gs, on) - (if IsClosing(gs[t].pc, on) then 1 else 0) + (if IsClosing(g.pc, on) then 1 else 0)
  {
    if t == 0 {
      assert gs[t := g][1..] == gs[1..];
    } else {
      assert gs[t := g][1..] == gs[1..][t - 1 := g];
      ClosingUpdate(gs[1..], t - 1, g, on);
    }
  }

  lemma {:induction false} NoneClosingAtRest(gs: seq<Goroutine>, on: Target)
    requires forall t :: 0 <= t < |gs| ==> gs[t].pc.Idle?
    ensures Closing(gs, on) == 0
  {
    if gs != [] {
      NoneClosingAtRest(gs[1..], on);
    }
  }

  /** In each step: a Close that is called is under way, and one that is under way stays so or has
      closed the driver. */
  predicate ClosesMove(st: State, st': State, step: Step, on: Target)
    requires step.t < |st.gs| == |st'.gs| && Exists(st, on) && Exists(st', on)
  {
    (if step.CallClose? && step.on == on then 1 else 0) + (if IsClosing(st.gs[step.t].pc, on) then 1 else 0)
    == (Of(st', on).driverCloses - Of(st, on).driverCloses) + if IsClosing(st'.gs[step.t].pc, on) then 1 else 0
  }

  lemma {:induction false} CallsMoveCloses(st: State, step: Step, on: Target)
    requires Enabled(st, step) && !step.Advance? && Exists(st, on)
    ensures |st.gs| == |Apply(st, step).gs| && Exists(Apply(st, step), on) && ClosesMove(st, Apply(st, step), step, on)
  {
  }

  lemma {:induction false} StartsMoveNoCloses(st: State, step: Step, on: Target)
    requires Enabled(st, step) && step.Advance? && Exists(st, on)
    requires Starting(st.gs[step.t].pc) || Gaining(st.gs[step.t].pc)
    ensures |st.gs| == |Apply(st, step).gs| && Exists(Apply(st, step), on) && ClosesMove(st, Apply(st, step), step, on)
  {
  }

  lemma {:induction false} EndsMoveNoCloses(st: State, step: Step, on: Target)
    requires Enabled(st, step) && step.Advance? && Exists(st, on) && Ending(st.gs[step.t].pc)
    ensures |st.gs| == |Apply(st, step).gs| && Exists(Apply(st, step), on) && ClosesMove(st, Apply(st, step), step, on)
  {
  }

  lemma {:induction false} ClosesMoveOn(st: State, step: Step, on: Target)
    requires Enabled(st, step) && step.Advance? && Exists(st, on) && IsClose(st.gs[step.t].pc)
    ensures |st.gs| == |Apply(st, step).gs| && Exists(Apply(st, step), on) && ClosesMove(st, Apply(st, step), step, on)
  {
  }

  lemma {:induction false} StepMovesCloses(st: State, step: Step, on: Target)
    requires Enabled(st, step) && Exists(st, on)
    ensures |st.gs| == |Apply(st, step).gs| && Exists(Apply(st, step), on) && ClosesMove(st, Apply(st, step), step, on)
  {
    var pc := st.gs[step.t].pc;
    hide Apply, ClosesMove;
    if !step.Advance? {
      CallsMoveCloses(st, step, on);
    } else if Starting(pc) || Gaining(pc) {
      StartsMoveNoCloses(st, step, on);
    } else if Ending(pc) {
      EndsMoveNoCloses(st, step, on);
    } else {
      ClosesMoveOn(st, step, on);
    }
  }

  /** At every moment of every run: each call of Close is under way or has closed the driver once,
      and nothing else closes it. */
  lemma {:induction false} EveryCloseClosesTheDriver(dbs: nat, goroutines: nat, run: seq<State>, steps: seq<Step>,
      i: nat, on: Target)
    requires Steps(dbs, goroutines, run, steps) && i < |run| && (on.OnDb? ==> on.i < dbs)
    ensures Exists(run[i], on)
    ensures CloseCalls(steps[..i], on) == Of(run[i], on).driverCloses + Closing(run[i].gs, on)
    decreases i
  {
    hide Enabled, Apply, Inv, ClosesMove;
    StepsAreRun(dbs, goroutines, run, steps, i);
    if i == 0 {
      NoneClosingAtRest(run[0].gs, on);
    } else {
      var n := i - 1;
      StepsAreRun(dbs, goroutines, run, steps, n);
      EveryCloseClosesTheDriver(dbs, goroutines, run, steps, n, on);
      assert steps[..i][..n] == steps[..n];
      assert Enabled(run[n], steps[n]) && run[n + 1] == Apply(run[n], steps[n]);
      OneMoreStep(run[n], steps[n], on);
    }
  }

  lemma {:induction false} OneMoreStep(st: State, step: Step, on: Target)
    requires Enabled(st, step) && Exists(st, on)
    ensures var st' := Apply(st, step);
            && Exists(st', on)
            && (if step.CallClose? && step.on == on then 1 else 0) + Of(st, on).driverCloses + Closing(st.gs, on)
               == Of(st', on).driverCloses + Closing(st'.gs, on)
  {
    StepMoves(st, step);
    StepMovesCloses(st, step, on);
    FramedShape(st, Apply(st, step), step.t);
    ClosingUpdate(st.gs, step.t, Apply(st, step).gs[step.t], on);
    hide Apply, Framed, CountsMoveTogether, Closing;
  }

  lemma {:induction false} OneMoreTaken(dbs: nat, goroutines: nat, run: seq<State>, steps: seq<Step>, step: Step)
    requires Steps(dbs, goroutines, run, steps) && Enabled(run[|steps|], step)
    ensures Steps(dbs, goroutines, run + [Apply(run[|steps|], step)], steps + [step])
  {
    var run', steps' := run + [Apply(run[|steps|], step)], steps + [step];
    hide Enabled, Apply;
    forall i | 0 <= i < |steps'|
      ensures Enabled(run'[i], steps'[i]) && run'[i + 1] == Apply(run'[i], steps'[i])
    {
      if i < |steps| {
        assert run'[i] == run[i] && run'[i + 1] == run[i + 1] && steps'[i] == steps[i];
      }
    }
  }

  /** What can be finished, finished. */
  lemma {:induction false} Finish(dbs: nat, goroutines: nat, run: seq<State>, steps: seq<Step>, n: nat)
    returns (run': seq<State>, steps': seq<Step>)
    requires Steps(dbs, goroutines, run, steps) && CanFinish(run[|steps|], n)
    ensures Steps(dbs, goroutines, run', steps') && run <= run' && steps <= steps'
    ensures AtRest(run'[|steps'|]) && forall j :: |steps| <= j < |steps'| ==> Finishing(steps'[j])
    decreases n
  {
    run', steps' := run, steps;
    if !AtRest(run[|steps|]) {
      var step :| Finishing(step) && Enabled(run[|steps|], step) && CanFinish(Apply(run[|steps|], step), n - 1);
      OneMoreTaken(dbs, goroutines, run, steps, step);
      hide Enabled, Apply, AtRest, CanFinish;
      run', steps' := Finish(dbs, goroutines, run + [Apply(run[|steps|], step)], steps + [step], n - 1);
      assert steps + [step] <= steps';
      assert steps'[|steps|] == step;
    }
  }

  lemma {:induction false} NoCallsNoCloses(steps: seq<Step>, steps': seq<Step>, on: Target)
    requires steps <= steps' && forall j :: |steps| <= j < |steps'| ==> Finishing(steps'[j])
    ensures CloseCalls(steps', on) == CloseCalls(steps, on)
    decreases |steps'|
  {
    if |steps| == |steps'| {
      assert steps == steps';
    } else {
      NoCallsNoCloses(steps, steps'[..|steps'| - 1], on);
    }
  }

  /** From every state in which no goroutines in Close wait for each other, all that is under way
      can be finished, and then the driver of every client and DB has been closed as often as
      Close was called on it. */
  lemma {:induction false} CloseReachesTheDriver(dbs: nat, goroutines: nat, run: seq<State>, steps: seq<Step>)
    returns (run': seq<State>, steps': seq<Step>)
    requires Steps(dbs, goroutines, run, steps) && !exists ts :: WaitForEachOther(run[|steps|], ts)
    ensures Steps(dbs, goroutines, run', steps') && run <= run' && steps <= steps'
    ensures AtRest(run'[|steps'|]) && forall j :: |steps| <= j < |steps'| ==> Finishing(steps'[j])
    ensures forall on: Target {:trigger CloseCalls(steps, on)} :: Exists(run[|steps|], on) ==>
              Exists(run'[|steps'|], on) && Of(run'[|steps'|], on).driverCloses == CloseCalls(steps, on)
  {
    hide Enabled, Apply, WaitForEachOther, CanFinish, AtRest, Inv, Finishing;
    StepsAreRun(dbs, goroutines, run, steps, |steps|);
    CanFinishIff(dbs, goroutines, run, |steps|);
    var n: nat :| CanFinish(run[|steps|], n);
    run', steps' := Finish(dbs, goroutines, run, steps, n);
    forall on: Target | Exists(run[|steps|], on)
      ensures Exists(run'[|steps'|], on) && Of(run'[|steps'|], on).driverCloses == CloseCalls(steps, on)
    {
      EveryCloseClosesTheDriver(dbs, goroutines, run', steps', |steps'|, on);
      assert steps'[..|steps'|] == steps';
      NoCallsNoCloses(steps, steps', on);
      RestingCloseNothing(run'[|steps'|], on);
    }
  }

  lemma {:induction false} RestingCloseNothing(st: State, on: Target)
    requires AtRest(st)
    ensures Closing(st.gs, on) == 0
  {
    assert forall t :: 0 <= t < |st.gs| ==> !Busy(st.gs[t]);
    NoneClosingAtRest(st.gs, on);
  }

  // ---------------------------------------------------------------------------
  // startQuery
  // ---------------------------------------------------------------------------

  /** The goroutine is inside startQuery of this client or DB. */
  predicate InStart(pc: PC, on: Target) {
    (Starting(pc) || Gaining(pc)) && Subject(pc) == on
  }

  /** The DB or client is closed, or the client that the DB is of. */
  predicate Refuses(st: State, on: Target)
    requires Exists(st, on)
  {
    Of(st, on).closed || st.client.closed
  }

  /** What the goroutine that called startQuery when it held `held`, and then went on, has come to:
      it is still inside, or has returned with one more query or without.  `refusedThen` says
      whether the call had to be refused from the beginning. */
  predicate StartedSoFar(st: State, t: nat, on: Target, held: seq<Target>, refusedThen: bool)
    requires t < |st.gs| && Exists(st, on)
  {
    var g := st.gs[t];
    if InStart(g.pc, on) then
      && g.held == held
      && (refusedThen ==> Refuses(st, on) && !g.pc.Counted?)
    else
      && g.pc.Idle?
      && (g.held == held + [on] || (g.held == held && Refuses(st, on)))
      && (refusedThen ==> g.held == held)
  }

  lemma {:induction false} StartGoesOn(st: State, t: nat, on: Target, held: seq<Target>, refusedThen: bool)
    requires Inv(st) && Enabled(st, Advance(t)) && Exists(st, on) && InStart(st.gs[t].pc, on)
    requires StartedSoFar(st, t, on, held, refusedThen)
    ensures var st' := Apply(st, Advance(t));
            t < |st'.gs| && Exists(st', on) && StartedSoFar(st', t, on, held, refusedThen)
  {
    hide CountsAreRight, ClosersAreRight;
    assert Locked(st, on);
  }

  /** Steps of others do not interfere, but to close what is open. */
  lemma {:induction false} OthersLeaveStart(st: State, step: Step, t: nat, on: Target, held: seq<Target>, refusedThen: bool)
    requires Inv(st) && Enabled(st, step) && step.t != t && t < |st.gs| && Exists(st, on)
    requires StartedSoFar(st, t, on, held, refusedThen)
    ensures var st' := Apply(st, step);
            t < |st'.gs| && Exists(st', on) && StartedSoFar(st', t, on, held, refusedThen)
  {
    StepMoves(st, step);
    FramedShape(st, Apply(st, step), step.t);
    if Of(st, on).closed {
      ClosedStepDoesNotRise(st, step, on);
    }
    if st.client.closed {
      ClosedStepDoesNotRise(st, step, OnClient);
    }
    hide Apply, Inv, Enabled, Framed, CountsMoveTogether;
  }

  /** Goroutine t calls startQuery in step k, and it has not returned before state m. */
  predicate StartsQuery(run: seq<State>, steps: seq<Step>, t: nat, on: Target, k: nat, m: nat) {
    && k < m <= |steps| < |run| && steps[k] == Call(t, on)
    && forall j :: k < j < m ==> t < |run[j].gs| && !run[j].gs[t].pc.Idle?
  }

  lemma {:induction false} StartQuerySoFar(dbs: nat, goroutines: nat, run: seq<State>, steps: seq<Step>,
      t: nat, on: Target, k: nat, m: nat)
    requires Steps(dbs, goroutines, run, steps) && StartsQuery(run, steps, t, on, k, m)
    ensures t < goroutines && Exists(run[k], on) && Exists(run[m], on) && |run[m].gs| == |run[k].gs| == goroutines
    ensures StartedSoFar(run[m], t, on, run[k].gs[t].held, Refuses(run[k], on))
    decreases m
  {
    hide Inv, Apply, StartedSoFar;
    StepsAreRun(dbs, goroutines, run, steps, k);
    StepsAreRun(dbs, goroutines, run, steps, m - 1);
    StepsAreRun(dbs, goroutines, run, steps, m);
    var st, step := run[m - 1], steps[m - 1];
    assert Enabled(st, step) && run[m - 1 + 1] == Apply(st, step);
    assert Enabled(run[k], steps[k]);
    if m == k + 1 {
      StartBegins(st, t, on);
    } else {
      StartQuerySoFar(dbs, goroutines, run, steps, t, on, k, m - 1);
      var held, refusedThen := run[k].gs[t].held, Refuses(run[k], on);
      if step.t == t {
        NotIdleAdvances(st, step, on, held, refusedThen);
        StartGoesOn(st, t, on, held, refusedThen);
      } else {
        OthersLeaveStart(st, step, t, on, held, refusedThen);
      }
    }
  }

  lemma {:induction false} StartBegins(st: State, t: nat, on: Target)
    requires Enabled(st, Call(t, on))
    ensures var st' := Apply(st, Call(t, on));
            && t < |st.gs| == |st'.gs| && Exists(st, on) && Exists(st', on)
            && StartedSoFar(st', t, on, st.gs[t].held, Refuses(st, on))
  {
  }

  lemma {:induction false} NotIdleAdvances(st: State, step: Step, on: Target, held: seq<Target>, refusedThen: bool)
    requires Enabled(st, step) && !st.gs[step.t].pc.Idle? && Exists(st, on)
    requires StartedSoFar(st, step.t, on, held, refusedThen)
    ensures step == Advance(step.t) && InStart(st.gs[step.t].pc, on)
  {
  }

  /** A startQuery that has returned has one more query to its name, or has been refused and
      changed nothing: it has the query if the DB and its client are open when it returns, and it
      has been refused if either was closed when it was called, whatever others do meanwhile. */
  lemma {:induction false} StartQueryReturns(dbs: nat, goroutines: nat, run: seq<State>, steps: seq<Step>,
      t: nat, on: Target, k: nat, m: nat)
    requires Steps(dbs, goroutines, run, steps) && StartsQuery(run, steps, t, on, k, m)
    requires t < |run[m].gs| && run[m].gs[t].pc.Idle?
    ensures t < |run[k].gs| && Exists(run[k], on) && Exists(run[m], on)
    ensures var held, held' := run[k].gs[t].held, run[m].gs[t].held;
            && (held' == held + [on] || held' == held)
            && (!Of(run[m], on).closed && !run[m].client.closed ==> held' == held + [on])
            && (Of(run[k], on).closed || run[k].client.closed ==> held' == held)
  {
    StartQuerySoFar(dbs, goroutines, run, steps, t, on, k, m);
  }

  /** Every run consists of steps. */
  lemma {:induction false} RunHasSteps(dbs: nat, goroutines: nat, run: seq<State>) returns (steps: seq<Step>)
    requires Run(dbs, goroutines, run)
    ensures Steps(dbs, goroutines, run, steps)
    decreases |run|
  {
    hide Enabled, Apply;
    steps := [];
    if |run| > 1 {
      var n := |run| - 2;
      var before := run[..n + 1];
      assert Run(dbs, goroutines, before);
      var some := RunHasSteps(dbs, goroutines, before);
      assert Transition(run[n], run[n + 1]);
      var step :| Enabled(run[n], step) && run[n + 1] == Apply(run[n], step);
      steps := some + [step];
      forall i | 0 <= i < |steps|
        ensures Enabled(run[i], steps[i]) && run[i + 1] == Apply(run[i], steps[i])
      {
        if i < |some| {
          assert before[i] == run[i] && before[i + 1] == run[i + 1] && steps[i] == some[i];
        }
      }
    }
  }
}
