/** The error that replicate returns. */
module ReplicationErrors {
  import opened Replication
  import opened ReplicationLifecycle
  import opened Wrappers

  /** What replicate returns: an error if and only if some stage returned one; the error of one of
      the stages; and unless the caller cancelled, a failure of a driver and not the context's
      own error, although stages that gave up returned that. */
  lemma {:induction false} RootCauseWins(w: World, run: seq<State>)
    requires Run(w, run) && Finished(Last(run))
    ensures var st := Last(run);
            && (st.group.Some? <==> st.failures != [])
            && (st.group.Some? ==> StageFailed(st, st.group.value))
            && (st.group.Some? && !st.parentCancelled ==> st.group.value.e.Failed? && st.failures[0].e.Failed?)
  {
    ReachableIsOrderly(w, run);
    var st := Last(run);
    if st.failures != [] {
      assert st.failures[0] in st.failures;
      assert IsDone(st, st.failures[0].stage);
    }
  }

  /** A run with the steps taken. */
  ghost predicate Steps(w: World, run: seq<State>, steps: seq<Step>) {
    && |run| == |steps| + 1 && run[0] == Init(w)
    && forall i :: 0 <= i < |steps| ==> Enabled(w, run[i], steps[i]) && run[i + 1] == Apply(w, run[i], steps[i])
  }

  lemma {:induction false} StepsAreRun(w: World, run: seq<State>, steps: seq<Step>, i: nat)
    requires Steps(w, run, steps) && i < |run|
    ensures Run(w, run) && Orderly(w, run[i]) && Accounted(run[i])
  {
    hide Enabled, Apply, Orderly, Accounted;
    forall j | 0 <= j < |run| - 1
      ensures Next(w, run[j], run[j + 1])
    {
      assert Enabled(w, run[j], steps[j]) && run[j + 1] == Apply(w, run[j], steps[j]);
    }
    var before := run[..i + 1];
    assert Run(w, before) && Last(before) == run[i];
    ReachableIsOrderly(w, before);
  }

  /** Every run consists of steps. */
  lemma {:induction false} RunHasSteps(w: World, run: seq<State>) returns (steps: seq<Step>)
    requires Run(w, run)
    ensures Steps(w, run, steps)
    decreases |run|
  {
    hide Enabled, Apply;
    steps := [];
    if |run| > 1 {
      var before := run[..|run| - 1];
      assert Run(w, before);
      var some := RunHasSteps(w, before);
      assert Next(w, run[|run| - 2], run[|run| - 1]);
      var step :| Enabled(w, Last(before), step) && Last(run) == Apply(w, Last(before), step);
      steps := some + [step];
      forall i | 0 <= i < |steps|
        ensures Enabled(w, run[i], steps[i]) && run[i + 1] == Apply(w, run[i], steps[i])
      {
        if i < |some| {
          assert before[i] == run[i] && before[i + 1] == run[i + 1] && steps[i] == some[i];
        } else {
          assert run[i] == Last(before) && run[i + 1] == Last(run);
        }
      }
    }
  }

  /** No stage fails before step i, and one fails in it. */
  predicate FailsFirst(steps: seq<Step>, i: nat)
    requires i < |steps|
  {
    FailureOf(steps[i]).Some? && forall j :: 0 <= j < i ==> FailureOf(steps[j]).None?
  }

  /** Step k records the outcome of a stage that has failed. */
  predicate RecordsFailure(steps: seq<Step>, k: nat)
    requires k < |steps|
  {
    && steps[k].Record?
    && exists j :: 0 <= j < k && FailureOf(steps[j]).Some? && FailureOf(steps[j]).value.stage == steps[k].stage
  }

  predicate RecordsFirst(steps: seq<Step>, k: nat)
    requires k < |steps|
  {
    RecordsFailure(steps, k) && forall j :: 0 <= j < k ==> !RecordsFailure(steps, j)
  }

  /** The stages that have failed by step n are those that failed in an earlier step. */
  lemma {:induction false} FailedInAStep(w: World, run: seq<State>, steps: seq<Step>, n: nat, f: StageError)
    requires Steps(w, run, steps) && n < |run|
    ensures StageFailed(run[n], f) <==> exists j :: 0 <= j < n && FailureOf(steps[j]) == Some(f)
    decreases n
  {
    hide Enabled, Apply, FailureOf;
    if n == 0 {
      assert !StageFailed(Init(w), f);
    } else {
      hide StageFailed;
      FailedInAStep(w, run, steps, n - 1, f);
      ErrorsMoveInStep(w, run[n - 1], steps[n - 1]);
      assert run[n - 1 + 1] == Apply(w, run[n - 1], steps[n - 1]);
      FailedMoves(run[n - 1], run[n], steps[n - 1], f);
    }
  }

  lemma {:induction false} RecordsFailureIff(w: World, run: seq<State>, steps: seq<Step>, k: nat)
    requires Steps(w, run, steps) && k < |steps|
    ensures RecordsFailure(steps, k) <==> steps[k].Record? && OutcomeOf(run[k], steps[k].stage).value.Err?
  {
    assert steps[k].Record? ==> OutcomeOf(run[k], steps[k].stage).Some?;
    hide Enabled, Apply, FailureOf, OutcomeOf;
    if steps[k].Record? {
      var stage := steps[k].stage;
      if RecordsFailure(steps, k) {
        var j :| 0 <= j < k && FailureOf(steps[j]).Some? && FailureOf(steps[j]).value.stage == stage;
        FailedInAStep(w, run, steps, k, FailureOf(steps[j]).value);
      }
      if OutcomeOf(run[k], stage).value.Err? {
        FailedInAStep(w, run, steps, k, StageError(stage, OutcomeOf(run[k], stage).value.e));
      }
    }
  }

  /** The errgroup holds the error recorded first. */
  lemma {:induction false} FirstRecordExists(steps: seq<Step>, n: nat)
    requires n <= |steps|
    ensures (exists k :: 0 <= k < n && RecordsFirst(steps, k)) <==> exists k :: 0 <= k < n && RecordsFailure(steps, k)
    decreases n
  {
    hide RecordsFailure;
    if n > 0 {
      FirstRecordExists(steps, n - 1);
      if k :| 0 <= k < n && RecordsFailure(steps, k) {
        assert k == n - 1 || exists k :: 0 <= k < n - 1 && RecordsFailure(steps, k);
        assert (exists k :: 0 <= k < n - 1 && RecordsFirst(steps, k)) || RecordsFirst(steps, n - 1);
      }
    }
  }

  lemma {:induction false} FirstRecordAtStep(steps: seq<Step>, m: nat)
    requires m < |steps|
    ensures RecordsFirst(steps, m) <==>
            RecordsFailure(steps, m) && !(exists k :: 0 <= k < m && RecordsFirst(steps, k))
  {
    hide RecordsFailure;
    FirstRecordExists(steps, m);
  }

  lemma {:induction false} GroupHoldsFirstRecorded(w: World, run: seq<State>, steps: seq<Step>, n: nat)
    requires Steps(w, run, steps) && n < |run|
    ensures run[n].group.Some? <==> exists k :: 0 <= k < n && RecordsFirst(steps, k)
    ensures forall k :: 0 <= k < n && RecordsFirst(steps, k) ==>
              run[n].group.Some? && run[n].group.value.stage == steps[k].stage
    decreases n
  {
    hide Enabled, Apply, FailureOf, OutcomeOf, RecordsFailure, RecordsFirst;
    if n > 0 {
      var m := n - 1;
      GroupHoldsFirstRecorded(w, run, steps, m);
      RecordsFailureIff(w, run, steps, m);
      ErrorsMoveInStep(w, run[m], steps[m]);
      assert run[m + 1] == Apply(w, run[m], steps[m]);
      FirstRecordAtStep(steps, m);
    }
  }

  /** Whose error replicate returns.  The stage that fails first need not be it: its error is
      returned exactly if that stage is also the first of the failed stages to be recorded,
      however many other stages fail in between. */
  lemma {:induction false} FirstFailureWinsIffRecordedFirst(w: World, run: seq<State>, steps: seq<Step>, i: nat)
    requires Steps(w, run, steps) && Finished(Last(run)) && i < |steps| && FailsFirst(steps, i)
    ensures Last(run).failures != [] && Last(run).failures[0] == FailureOf(steps[i]).value
    ensures Last(run).group == Some(FailureOf(steps[i]).value) <==>
            exists k :: 0 <= k < |steps| && RecordsFirst(steps, k) && steps[k].stage == FailureOf(steps[i]).value.stage
  {
    var n, first := |steps|, FailureOf(steps[i]).value;
    StepsAreRun(w, run, steps, n);
    RootCauseWins(w, run);
    FirstFailureIs(w, run, steps, i);
    hide Enabled, Apply, FailureOf, RecordsFirst;
    FailedInAStep(w, run, steps, n, first);
    GroupHoldsFirstRecorded(w, run, steps, n);
    assert StageFailed(Last(run), Last(run).group.value);
  }

  lemma {:induction false} FailuresAt(w: World, run: seq<State>, steps: seq<Step>, m: nat)
    requires Steps(w, run, steps) && m < |steps|
    ensures run[m + 1].failures ==
            if FailureOf(steps[m]).Some? then run[m].failures + [FailureOf(steps[m]).value] else run[m].failures
  {
    hide Enabled, Apply, FailureOf;
    assert Enabled(w, run[m], steps[m]) && run[m + 1] == Apply(w, run[m], steps[m]);
    FailuresMove(w, run[m], steps[m]);
  }

  lemma {:induction false} NoFailureBefore(w: World, run: seq<State>, steps: seq<Step>, i: nat, n: nat)
    requires Steps(w, run, steps) && i < |steps| && FailsFirst(steps, i) && n <= i
    ensures run[n].failures == []
    decreases n
  {
    hide Enabled, Apply, FailureOf;
    if n > 0 {
      NoFailureBefore(w, run, steps, i, n - 1);
      FailuresAt(w, run, steps, n - 1);
    }
  }

  lemma StillPrefix(a: seq<StageError>, b: seq<StageError>, c: seq<StageError>, f: Option<StageError>)
    requires a <= b && c == if f.Some? then b + [f.value] else b
    ensures a <= c
  {
  }

  /** What has failed stays failed, in order. */
  lemma {:induction false} FailuresGrow(w: World, run: seq<State>, steps: seq<Step>, m: nat, n: nat)
    requires Steps(w, run, steps) && m <= n < |run|
    ensures run[m].failures <= run[n].failures
    decreases n
  {
    hide Enabled, Apply, FailureOf;
    if m < n {
      assert |run| == |steps| + 1;
      hide Steps;
      FailuresGrow(w, run, steps, m, n - 1);
      FailuresAt(w, run, steps, n - 1);
      StillPrefix(run[m].failures, run[n - 1].failures, run[n].failures, FailureOf(steps[n - 1]));
    }
  }

  lemma {:induction false} FirstFailureIs(w: World, run: seq<State>, steps: seq<Step>, i: nat)
    requires Steps(w, run, steps) && i < |steps| && FailsFirst(steps, i)
    ensures Last(run).failures != [] && Last(run).failures[0] == FailureOf(steps[i]).value
  {
    assert |run| == |steps| + 1 && FailureOf(steps[i]).Some?;
    hide Steps, Enabled, Apply, FailureOf;
    NoFailureBefore(w, run, steps, i, i);
    FailuresAt(w, run, steps, i);
    FailuresGrow(w, run, steps, i + 1, |steps|);
    assert run[i + 1].failures == [FailureOf(steps[i]).value];
  }

  /** Takes one step more. */
  lemma {:induction false} Take(w: World, run: seq<State>, step: Step) returns (run': seq<State>)
    requires Run(w, run) && Enabled(w, Last(run), step)
    ensures Run(w, run') && Last(run') == Apply(w, Last(run), step) && run < run'
  {
    run' := run + [Apply(w, Last(run), step)];
    forall i | 0 <= i < |run'| - 1
      ensures Next(w, run'[i], run'[i + 1])
    {
      if i < |run| - 1 {
        assert Next(w, run[i], run[i + 1]);
      }
    }
  }

  /** While OpenRevs is being asked or read, any failure with a status can be readDocs' own, except
      that with status 501, which makes it read the revisions one by one. */
  lemma {:induction false} OnlyNotImplementedIsForgiven(w: World, st: State, status: int)
    requires st.r.ROpen? || st.r.ROpenRows?
    ensures (exists step :: Enabled(w, st, step) && FailureOf(step) == Some(StageError(Docs, Failed(status)))) <==>
            status != 501
  {
    hide IsAnswer;
    if status != 501 {
      assert Enabled(w, st, ByDocs(OpenRevsFail(Failed(status))));
    }
  }

  // ---------------------------------------------------------------------------
  // A caller that cancels is noticed
  // ---------------------------------------------------------------------------

  /** The stage waits for another stage at a channel, or for a driver. */
  predicate Waits(st: State, stage: Stage) {
    match stage
    case Changes => st.c.CRead? || st.c.CSend?
    case Diffs => st.d.DCollect? || st.d.DCall? || st.d.DRows? || st.d.DSend?
    case Docs =>
      || st.r.RRecv? || st.r.ROpen? || st.r.ROpenRows? || st.r.ROpenSend?
      || (st.r.RIndiv? && st.r.revs != []) || st.r.RIndivSend?
    case Store => st.s.SPut?
  }

  /** The step in which a waiting stage returns the context's error. */
  lemma {:induction false} GiveUp(w: World, st: State, stage: Stage) returns (step: Step)
    requires st.parentCancelled && Waits(st, stage)
    ensures Enabled(w, st, step) && FailureOf(step) == Some(StageError(stage, Cancelled))
  {
    hide IsAnswer;
    match stage
    case Changes =>
      step := ByChanges(if st.c.CSend? then ChangesCancel else ChangesFail(Cancelled));
    case Diffs =>
      step := ByDiffs(if st.d.DCall? || st.d.DRows? then DiffsFail(Cancelled) else DiffsCancel);
    case Docs =>
      step := ByDocs(
        if st.r.ROpen? || st.r.ROpenRows? then OpenRevsFail(Cancelled)
        else if st.r.RIndiv? then GetFail(Cancelled) else DocsCancel);
    case Store =>
      step := ByStore(PutFail(Cancelled));
  }

  /** Every run can be carried on until group.Wait returns, and the error recorded stays. */
  lemma {:induction false} CarryOn(w: World, run: seq<State>, rank: Rank) returns (run': seq<State>)
    requires Run(w, run) && rank == RankOf(w, Last(run))
    ensures Run(w, run') && run <= run' && Finished(Last(run'))
    ensures Last(run).group.Some? ==> Last(run').group == Last(run).group
    decreases rank.parent, rank.feed, rank.c, rank.dPhase, rank.dRows, rank.rPhase, rank.rDocs, rank.s
  {
    assert |run| > 0;
    hide Enabled, Apply, Run, Orderly, Accounted, RankOf;
    if Finished(Last(run)) {
      run' := run;
    } else {
      NoDeadlock(w, run);
      var step :| Enabled(w, Last(run), step) && Progress(step);
      ReachableIsOrderly(w, run);
      StepsDescend(w, Last(run), step);
      ErrorsMoveInStep(w, Last(run), step);
      var next := Take(w, run, step);
      run' := CarryOn(w, next, RankOf(w, Last(next)));
    }
  }

  /** While no error has been recorded, any stage that waits when the caller has cancelled, be it
      at a channel or for a driver, may give up; replicate then returns the context's error. */
  lemma {:induction false} CancellingIsNoticed(w: World, run: seq<State>, stage: Stage) returns (run': seq<State>)
    requires Run(w, run) && Last(run).parentCancelled && Last(run).group.None? && Waits(Last(run), stage)
    ensures Run(w, run') && run <= run' && Finished(Last(run'))
    ensures Last(run').group == Some(StageError(stage, Cancelled))
  {
    var step := GiveUp(w, Last(run), stage);
    hide Run, FailureOf, IsAnswer;
    assert !IsDone(Last(run), stage);
    ErrorsMoveInStep(w, Last(run), step);
    var given := Take(w, run, step);
    assert OutcomeMoves(Last(run), Last(given), step, stage);
    assert Enabled(w, Last(given), Record(stage));
    var recorded := Take(w, given, Record(stage));
    run' := CarryOn(w, recorded, RankOf(w, Last(recorded)));
  }

  /** The returned error is the first one recorded, which need not be the first one returned by a
      stage: between a stage's return and the recording of its error another stage may fail.
      Here readChanges fails first, and replicate returns the failure of readDiffs. */
  lemma {:induction false} FirstToFailNeedNotBeReported() returns (w: World, run: seq<State>)
    ensures Run(w, run) && Finished(Last(run)) && !Last(run).parentCancelled
    ensures Last(run).failures == [StageError(Changes, Failed(1)), StageError(Diffs, Failed(2))]
    ensures Last(run).group == Some(StageError(Diffs, Failed(2)))
  {
    hide Run, IsAnswer;
    w, run := TwoFailures();
    run := Take(w, run, Record(Diffs));
    run := Take(w, run, Record(Changes));
    run := DownstreamEnds(w, run);
  }

  /** With nothing more to come readDocs and storeDocs end. */
  lemma {:induction false} DownstreamEnds(w: World, run: seq<State>) returns (run': seq<State>)
    requires Run(w, run) && Last(run).c.CDone? && Last(run).d.DDone? && Last(run).r.RRecv? && Last(run).s.SRecv?
    ensures Run(w, run') && Last(run') == Last(run).(r := RDone(Ok), s := SDone(Ok))
  {
    hide Run, IsAnswer;
    run' := Take(w, run, ByDocs(DocsEnd));
    run' := Take(w, run', Record(Docs));
    run' := Take(w, run', ByStore(StoreEnd));
    run' := Take(w, run', Record(Store));
  }

  /** readChanges fails behind its first change, and readDiffs before that is recorded. */
  lemma {:induction false} TwoFailures() returns (w: World, run: seq<State>)
    ensures Run(w, run)
    ensures Last(run) == Init(w).(
              next := 1, sent := 1,
              c := CExit(Err(Failed(1))), d := DExit(Err(Failed(2))),
              failures := [StageError(Changes, Failed(1)), StageError(Diffs, Failed(2))])
  {
    hide Run, IsAnswer;
    w := World([Change("a", [])], {}, false, (id, revs, have) => revs, (id, revs) => []);
    run := Start(w);
    run := Take(w, run, ByChanges(ChangesNext));
    run := Take(w, run, ByChanges(SendChange));
    run := Take(w, run, ByChanges(ChangesFail(Failed(1))));
    run := Take(w, run, ByDiffs(CollectClosed));
    run := Take(w, run, ByDiffs(DiffsFail(Failed(2))));
  }

  lemma {:induction false} Start(w: World) returns (run: seq<State>)
    ensures Run(w, run) && Last(run) == Init(w)
  {
    run := [Init(w)];
  }
}
