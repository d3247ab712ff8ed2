/** Deadlock freedom and termination of the replication pipeline. */
module ReplicationLifecycle {
  import opened Replication
  import opened Wrappers

  // ---------------------------------------------------------------------------
  // What the steps of a goroutine leave alone
  // ---------------------------------------------------------------------------

  lemma {:induction false} ChangesFrame(w: World, st: State, step: Step)
    requires Enabled(w, st, step) && step.ByChanges?
    ensures var st' := Apply(w, st, step);
            && st'.group == st.group && st'.parentCancelled == st.parentCancelled
            && st'.r == st.r && st'.s == st.s && st'.noOpenRevs == st.noOpenRevs && st'.n == st.n
            && st'.target == st.target && st'.calls == st.calls && st'.answered == st.answered && st'.taken == st.taken
            && (st'.d == st.d || (st.d.DCollect? && (st'.d.DCollect? || st'.d.DCall?)))
  {
    hide IsAnswer;
  }

  lemma {:induction false} DiffsFrame(w: World, st: State, step: Step)
    requires Enabled(w, st, step) && step.ByDiffs?
    ensures var st' := Apply(w, st, step);
            && st'.group == st.group && st'.parentCancelled == st.parentCancelled
            && st'.next == st.next && st'.sent == st.sent && st'.c == st.c && st'.s == st.s
            && st'.noOpenRevs == st.noOpenRevs && st'.n == st.n && st'.target == st.target
            && (st'.r == st.r || (st.r.RRecv? && (if st.noOpenRevs then st'.r.RIndiv? else st'.r.ROpen?)))
  {
    hide IsAnswer, Collected;
  }

  lemma {:induction false} DocsFrame(w: World, st: State, step: Step)
    requires Enabled(w, st, step) && step.ByDocs?
    ensures var st' := Apply(w, st, step);
            && st'.group == st.group && st'.parentCancelled == st.parentCancelled
            && st'.next == st.next && st'.sent == st.sent && st'.c == st.c && st'.d == st.d
            && st'.target == st.target && st'.calls == st.calls && st'.answered == st.answered && st'.taken == st.taken
            && (st'.s == st.s || (st.s.SRecv? && st'.s.SPut?))
  {
    DocsHandOver(w, st, step);
    match step.r
    case SendDoc =>
    case _ =>
  }

  lemma {:induction false} DocsHandOver(w: World, st: State, step: Step)
    requires Enabled(w, st, step) && step.ByDocs?
    ensures var st' := Apply(w, st, step);
            st'.s == st.s || (st.s.SRecv? && st'.s.SPut?)
  {
  }

  lemma {:induction false} StoreFrame(w: World, st: State, step: Step)
    requires Enabled(w, st, step) && step.ByStore?
    ensures var st' := Apply(w, st, step);
            && st'.group == st.group && st'.parentCancelled == st.parentCancelled
            && st'.next == st.next && st'.sent == st.sent && st'.c == st.c && st'.d == st.d && st'.r == st.r
            && st'.noOpenRevs == st.noOpenRevs
            && st'.calls == st.calls && st'.answered == st.answered && st'.taken == st.taken
            && st'.n.missingChecks == st.n.missingChecks && st'.n.docsRead == st.n.docsRead
            && st'.n.missingFound == st.n.missingFound
  {
    hide IsAnswer, Collected;
  }

  lemma {:induction false} GroupFrame(w: World, st: State, step: Step)
    requires Enabled(w, st, step) && (step.Record? || step.CancelParent?)
    ensures var st' := Apply(w, st, step);
            && st'.next == st.next && st'.sent == st.sent && st'.noOpenRevs == st.noOpenRevs && st'.n == st.n
            && st'.target == st.target && st'.calls == st.calls && st'.answered == st.answered && st'.taken == st.taken
            && st'.failures == st.failures
            && (st'.c == st.c || (st.c.CExit? && st'.c == CDone(st.c.o)))
            && (st'.d == st.d || (st.d.DExit? && st'.d == DDone(st.d.o)))
            && (st'.r == st.r || (st.r.RExit? && st'.r == RDone(st.r.o)))
            && (st'.s == st.s || (st.s.SExit? && st'.s == SDone(st.s.o)))
  {
    if step.Record? {
      hide Recorded;
      match step.stage
      case Changes =>
      case Diffs =>
      case Docs =>
      case Store =>
    }
  }

  // ---------------------------------------------------------------------------
  // What every reachable state satisfies
  // ---------------------------------------------------------------------------

  /** Stages end without error only behind a closed input; a recorded error cancels; and the
      context's own error is never the first one unless the caller cancelled. */
  ghost predicate Orderly(w: World, st: State) {
    && st.next <= |w.feed|
    && st.sent <= st.next
    && (st.c.CRead? ==> st.sent == st.next)
    && (st.c.CSend? ==> st.sent + 1 == st.next && st.c.change == w.feed[st.sent])
    && (st.c == CExit(Ok) || st.c == CDone(Ok) ==> st.sent == |w.feed|)
    && (st.d == DExit(Ok) || st.d == DDone(Ok) ==> ChangesClosed(st))
    && (st.r == RExit(Ok) || st.r == RDone(Ok) ==> DiffsClosed(st))
    && (st.s == SExit(Ok) || st.s == SDone(Ok) ==> DocsClosed(st))
    && (st.d.DCall? ==> st.d.revMap != map[])
    && (st.noOpenRevs ==> !w.openRevsSupported && !st.r.ROpen?)
    && (st.r.RIndiv? || st.r.RIndivSend? ==> st.noOpenRevs)
  }

  predicate StageFailed(st: State, f: StageError) {
    OutcomeOf(st, f.stage) == Some(Err(f.e))
  }

  /** The failures are those of the stages that returned an error; a goroutine that ended with
      one has recorded it, or found one recorded; and the context's own error comes first only
      if the caller cancelled. */
  ghost predicate Accounted(st: State) {
    && (forall f :: f in st.failures <==> StageFailed(st, f))
    && (forall f :: StageFailed(st, f) && IsDone(st, f.stage) ==> st.group.Some?)
    && (st.group.Some? ==> StageFailed(st, st.group.value))
    && (st.group.Some? && st.group.value.e == Cancelled ==> st.parentCancelled)
    && (forall f :: f in st.failures && f.e == Cancelled ==> CtxDone(st))
    && (st.failures != [] && st.failures[0].e == Cancelled ==> st.parentCancelled)
  }

  lemma {:induction false} ChangesKeepsOrder(w: World, st: State, step: Step)
    requires Orderly(w, st) && Enabled(w, st, step) && step.ByChanges?
    ensures Orderly(w, Apply(w, st, step))
  {
    hide IsAnswer;
    ChangesFrame(w, st, step);
    if step.c.SendChange? {
      assert st.c.change.id in st.d.revMap[st.c.change.id := st.c.change.revs];
    }
  }

  lemma {:induction false} DiffsKeepsOrder(w: World, st: State, step: Step)
    requires Orderly(w, st) && Enabled(w, st, step) && step.ByDiffs?
    ensures Orderly(w, Apply(w, st, step))
  {
    hide IsAnswer, Collected;
    DiffsFrame(w, st, step);
  }

  lemma {:induction false} DocsKeepsOrder(w: World, st: State, step: Step)
    requires Orderly(w, st) && Enabled(w, st, step) && step.ByDocs?
    ensures Orderly(w, Apply(w, st, step))
  {
    hide IsAnswer, Collected;
    DocsFrame(w, st, step);
  }

  lemma {:induction false} StoreKeepsOrder(w: World, st: State, step: Step)
    requires Orderly(w, st) && Enabled(w, st, step) && step.ByStore?
    ensures Orderly(w, Apply(w, st, step))
  {
    hide IsAnswer, Collected;
    StoreFrame(w, st, step);
  }

  lemma {:induction false} GroupKeepsOrder(w: World, st: State, step: Step)
    requires Orderly(w, st) && Enabled(w, st, step) && (step.Record? || step.CancelParent?)
    ensures Orderly(w, Apply(w, st, step))
  {
    GroupFrame(w, st, step);
    hide Enabled, Apply;
  }

  lemma {:induction false} OrderlyStep(w: World, st: State, step: Step)
    requires Orderly(w, st) && Enabled(w, st, step)
    ensures Orderly(w, Apply(w, st, step))
  {
    hide Orderly, Enabled, Apply;
    match step
    case ByChanges(_) => ChangesKeepsOrder(w, st, step);
    case ByDiffs(_) => DiffsKeepsOrder(w, st, step);
    case ByDocs(_) => DocsKeepsOrder(w, st, step);
    case ByStore(_) => StoreKeepsOrder(w, st, step);
    case _ => GroupKeepsOrder(w, st, step);
  }

  /** A stage's outcome appears when its function returns, and stays. */
  predicate OutcomeMoves(st: State, st': State, step: Step, stage: Stage) {
    && (IsDone(st', stage) <==> IsDone(st, stage) || step == Record(stage))
    && match FailureOf(step)
       case Some(StageError(failed, e)) =>
         if failed == stage then OutcomeOf(st, stage).None? && OutcomeOf(st', stage) == Some(Err(e))
         else OutcomeOf(st', stage) == OutcomeOf(st, stage)
       case None =>
         || OutcomeOf(st', stage) == OutcomeOf(st, stage)
         || (OutcomeOf(st, stage).None? && OutcomeOf(st', stage) == Some(Ok))
  }

  ghost predicate ErrorsMove(st: State, st': State, step: Step) {
    && (forall stage :: OutcomeMoves(st, st', step, stage))
    && (step.Record? ==> OutcomeOf(st, step.stage).Some?)
    && st'.group == (if step.Record? then Recorded(st.group, step.stage, OutcomeOf(st, step.stage).value) else st.group)
    && st'.failures == (if FailureOf(step).Some? then st.failures + [FailureOf(step).value] else st.failures)
    && st'.parentCancelled == (st.parentCancelled || step.CancelParent?)
    && (FailureOf(step).Some? ==> DriverError(st, FailureOf(step).value.e))
  }

  lemma {:induction false} ChangesOutcome(w: World, st: State, step: Step)
    requires Enabled(w, st, step) && step.ByChanges?
    ensures OutcomeMoves(st, Apply(w, st, step), step, Changes)
  {
    hide IsAnswer, Collected;
  }

  lemma {:induction false} DiffsOutcome(w: World, st: State, step: Step)
    requires Enabled(w, st, step) && step.ByDiffs?
    ensures OutcomeMoves(st, Apply(w, st, step), step, Diffs)
  {
    hide IsAnswer;
  }

  lemma {:induction false} DocsOutcome(w: World, st: State, step: Step)
    requires Enabled(w, st, step) && step.ByDocs?
    ensures OutcomeMoves(st, Apply(w, st, step), step, Docs)
  {
    hide IsAnswer, Collected;
  }

  lemma {:induction false} StoreOutcome(w: World, st: State, step: Step)
    requires Enabled(w, st, step) && step.ByStore?
    ensures OutcomeMoves(st, Apply(w, st, step), step, Store)
  {
    hide IsAnswer, Collected;
  }

  /** A goroutine's steps leave the outcomes of the other stages. */
  lemma {:induction false} OutcomeElsewhere(w: World, st: State, step: Step, stage: Stage)
    requires Enabled(w, st, step)
    requires match step
             case ByChanges(_) => stage != Changes
             case ByDiffs(_) => stage != Diffs
             case ByDocs(_) => stage != Docs
             case ByStore(_) => stage != Store
             case _ => false
    ensures OutcomeMoves(st, Apply(w, st, step), step, stage)
  {
    hide Enabled, Apply;
    match step
    case ByChanges(_) => ChangesFrame(w, st, step);
    case ByDiffs(_) => DiffsFrame(w, st, step);
    case ByDocs(_) => DocsFrame(w, st, step);
    case ByStore(_) => StoreFrame(w, st, step);
  }

  lemma {:induction false} RecordOutcome(w: World, st: State, step: Step, stage: Stage)
    requires Enabled(w, st, step) && (step.Record? || step.CancelParent?)
    ensures OutcomeMoves(st, Apply(w, st, step), step, stage)
  {
    hide Recorded;
    match stage
    case Changes =>
    case Diffs =>
    case Docs =>
    case Store =>
  }

  lemma {:induction false} StageMoves(w: World, st: State, step: Step, stage: Stage)
    requires Enabled(w, st, step)
    ensures OutcomeMoves(st, Apply(w, st, step), step, stage)
  {
    if step.Record? || step.CancelParent? {
      RecordOutcome(w, st, step, stage);
    } else {
      hide Enabled, Apply, OutcomeMoves;
      match (step, stage)
      case (ByChanges(_), Changes) => ChangesOutcome(w, st, step);
      case (ByDiffs(_), Diffs) => DiffsOutcome(w, st, step);
      case (ByDocs(_), Docs) => DocsOutcome(w, st, step);
      case (ByStore(_), Store) => StoreOutcome(w, st, step);
      case _ => OutcomeElsewhere(w, st, step, stage);
    }
  }

  lemma {:induction false} DocsFailuresMove(w: World, st: State, step: Step)
    requires Enabled(w, st, step) && step.ByDocs?
    ensures Apply(w, st, step).failures ==
            if FailureOf(step).Some? then st.failures + [FailureOf(step).value] else st.failures
    ensures FailureOf(step).Some? ==> DriverError(st, FailureOf(step).value.e)
  {
  }

  lemma {:induction false} OtherFailuresMove(w: World, st: State, step: Step)
    requires Enabled(w, st, step) && !step.ByDocs?
    ensures Apply(w, st, step).failures ==
            if FailureOf(step).Some? then st.failures + [FailureOf(step).value] else st.failures
    ensures FailureOf(step).Some? ==> DriverError(st, FailureOf(step).value.e)
  {
    hide IsAnswer, Collected;
  }

  /** A step that returns an error appends it. */
  lemma {:induction false} FailuresMove(w: World, st: State, step: Step)
    requires Enabled(w, st, step)
    ensures Apply(w, st, step).failures ==
            if FailureOf(step).Some? then st.failures + [FailureOf(step).value] else st.failures
    ensures FailureOf(step).Some? ==> DriverError(st, FailureOf(step).value.e)
  {
    hide Enabled, Apply, FailureOf;
    if step.ByDocs? {
      DocsFailuresMove(w, st, step);
    } else {
      OtherFailuresMove(w, st, step);
    }
  }

  /** What a step does to the errors. */
  lemma {:induction false} ErrorsMoveInStep(w: World, st: State, step: Step)
    requires Enabled(w, st, step)
    ensures ErrorsMove(st, Apply(w, st, step), step)
  {
    var st' := Apply(w, st, step);
    if step.Record? || step.CancelParent? {
      assert st'.parentCancelled == (st.parentCancelled || step.CancelParent?);
      assert st'.group == if step.Record? then Recorded(st.group, step.stage, OutcomeOf(st, step.stage).value) else st.group;
    }
    hide Enabled, Apply, OutcomeMoves;
    FailuresMove(w, st, step);
    forall stage
      ensures OutcomeMoves(st, st', step, stage)
    {
      StageMoves(w, st, step, stage);
    }
    match step
    case ByChanges(_) => ChangesFrame(w, st, step);
    case ByDiffs(_) => DiffsFrame(w, st, step);
    case ByDocs(_) => DocsFrame(w, st, step);
    case ByStore(_) => StoreFrame(w, st, step);
    case _ =>
  }

  /** The stages that have failed after a step. */
  lemma {:induction false} FailedMoves(st: State, st': State, step: Step, f: StageError)
    requires ErrorsMove(st, st', step)
    ensures StageFailed(st', f) <==> StageFailed(st, f) || FailureOf(step) == Some(f)
    ensures FailureOf(step).Some? && FailureOf(step).value.stage == f.stage ==> OutcomeOf(st, f.stage).None?
    ensures IsDone(st', f.stage) <==> IsDone(st, f.stage) || step == Record(f.stage)
  {
    hide FailureOf, IsDone, OutcomeOf;
    assert OutcomeMoves(st, st', step, f.stage);
  }

  lemma {:induction false} DoneHasOutcome(st: State, stage: Stage)
    ensures IsDone(st, stage) ==> OutcomeOf(st, stage).Some?
  {
  }

  /** Recording adds no error to the stages. */
  lemma {:induction false} AccountedRecord(st: State, st': State, step: Step)
    requires Accounted(st) && ErrorsMove(st, st', step) && step.Record?
    ensures Accounted(st')
  {
    var o := OutcomeOf(st, step.stage).value;
    assert o.Err? ==> StageFailed(st, StageError(step.stage, o.e));
    hide IsDone, OutcomeOf, StageFailed, ErrorsMove;
    forall f
      ensures StageFailed(st', f) <==> StageFailed(st, f)
      ensures IsDone(st', f.stage) <==> IsDone(st, f.stage) || step == Record(f.stage)
    {
      FailedMoves(st, st', step, f);
    }
  }

  /** The stage that returned an error appends it. */
  lemma {:induction false} AccountedElsewhere(st: State, st': State, step: Step)
    requires Accounted(st) && ErrorsMove(st, st', step) && !step.Record?
    ensures Accounted(st')
  {
    hide IsDone, OutcomeOf, StageFailed, FailureOf;
    forall f
      ensures StageFailed(st', f) <==> StageFailed(st, f) || FailureOf(step) == Some(f)
      ensures IsDone(st', f.stage) <==> IsDone(st, f.stage)
      ensures FailureOf(step) == Some(f) ==> !IsDone(st, f.stage)
    {
      FailedMoves(st, st', step, f);
      DoneHasOutcome(st, f.stage);
    }
    if st.failures != [] {
      assert st'.failures[0] == st.failures[0];
    }
  }

  lemma {:induction false} AccountedStep(w: World, st: State, step: Step)
    requires Accounted(st) && Enabled(w, st, step)
    ensures Accounted(Apply(w, st, step))
  {
    hide Enabled, Apply, ErrorsMove, Accounted;
    ErrorsMoveInStep(w, st, step);
    if step.Record? {
      AccountedRecord(st, Apply(w, st, step), step);
    } else {
      AccountedElsewhere(st, Apply(w, st, step), step);
    }
  }

  lemma {:induction false} ReachableIsOrderly(w: World, run: seq<State>)
    requires Run(w, run)
    ensures Orderly(w, Last(run)) && Accounted(Last(run))
    decreases |run|
  {
    if |run| > 1 {
      var before := run[..|run| - 1];
      assert Run(w, before);
      ReachableIsOrderly(w, before);
      assert Next(w, run[|run| - 2], run[|run| - 1]);
      var step :| Enabled(w, Last(before), step) && Last(run) == Apply(w, Last(before), step);
      OrderlyStep(w, Last(before), step);
      AccountedStep(w, Last(before), step);
    }
  }

  /** readDocs has learnt that OpenRevs is not implemented, and is not in the middle of it. */
  predicate GaveUpOpenRevs(st: State) {
    st.noOpenRevs && !st.r.ROpen? && !st.r.ROpenRows? && !st.r.ROpenSend?
  }

  lemma {:induction false} StaysGivenUp(w: World, st: State, step: Step)
    requires Enabled(w, st, step) && GaveUpOpenRevs(st)
    ensures GaveUpOpenRevs(Apply(w, st, step))
  {
    match step
    case ByDocs(_) =>
    case ByChanges(_) => ChangesFrame(w, st, step);
    case ByDiffs(_) => DiffsFrame(w, st, step);
    case ByStore(_) => StoreFrame(w, st, step);
    case _ => GroupFrame(w, st, step);
  }

  /** A source that answers OpenRevs with 501 is not asked again: once one document is read
      revision by revision, all are. */
  lemma {:induction false} OpenRevsIsRefusedOnce(w: World, run: seq<State>, i: nat, j: nat)
    requires Run(w, run) && i <= j < |run| && run[i].r.RIndiv?
    ensures GaveUpOpenRevs(run[j])
    decreases j - i
  {
    hide Apply, Enabled, GaveUpOpenRevs;
    if i == j {
      IndividualMeansGivenUp(w, run, i);
    } else {
      OpenRevsIsRefusedOnce(w, run, i, j - 1);
      assert Next(w, run[j - 1], run[j - 1 + 1]);
      var step :| Enabled(w, run[j - 1], step) && run[j] == Apply(w, run[j - 1], step);
      StaysGivenUp(w, run[j - 1], step);
    }
  }

  lemma {:induction false} IndividualMeansGivenUp(w: World, run: seq<State>, i: nat)
    requires Run(w, run) && i < |run| && run[i].r.RIndiv?
    ensures GaveUpOpenRevs(run[i])
  {
    hide Next;
    var before := run[..i + 1];
    assert Run(w, before) && Last(before) == run[i];
    ReachableIsOrderly(w, before);
  }

  // ---------------------------------------------------------------------------
  // Deadlock freedom
  // ---------------------------------------------------------------------------

  /** A step that needs neither a failing driver call nor a cancelling caller. */
  predicate Progress(step: Step) {
    match step
    case ByChanges(ChangesFail(_)) | ByDiffs(DiffsFail(_)) | ByDocs(OpenRevsScanFail(_)) | ByDocs(OpenRevsFail(_))
      | ByDocs(GetFail(_)) | ByStore(PutFail(_)) | CancelParent => false
    case _ => true
  }

  /** RevsDiff can always be answered. */
  lemma {:induction false} AnswerExists(w: World, target: set<Document>, revMap: map<string,
      seq<string>>) returns (rows: seq<RevDiff>)
    ensures IsAnswer(w, target, revMap, rows)
    decreases |revMap.Keys|
  {
    if revMap.Keys == {} {
      rows := [];
    } else {
      var id :| id in revMap.Keys;
      var others := revMap - {id};
      assert others.Keys == revMap.Keys - {id};
      var rest := AnswerExists(w, target, others);
      rows := [RevDiff(id, w.revsDiff(id, revMap[id], RevsOf(target, id)))] + rest;
      forall id' | id' in revMap && w.revsDiff(id', revMap[id'], RevsOf(target, id')) != []
        ensures exists i :: 0 <= i < |rows| && rows[i].id == id'
      {
        if id' == id {
          assert rows[0].id == id';
        } else {
          assert id' in others && others[id'] == revMap[id'];
          var i :| 0 <= i < |rest| && rest[i].id == id';
          assert rows[i + 1].id == id';
        }
      }
    }
  }

  /** The step some goroutine can take on its own: a driver call, a return, a local move. */
  lemma {:induction false} LocalStep(w: World, st: State) returns (step: Option<Step>)
    requires Orderly(w, st)
    ensures step.Some? ==> Enabled(w, st, step.value) && Progress(step.value)
    ensures step.None? ==>
            && (st.c.CSend? || st.c.CDone?)
            && (st.d.DCollect? || st.d.DSend? || st.d.DDone?)
            && (st.r.RRecv? || st.r.ROpenSend? || st.r.RIndivSend? || st.r.RDone?)
            && (st.s.SRecv? || st.s.SDone?)
  {
    step := None;
    if st.c.CRead? {
      step := Some(ByChanges(if st.next < |w.feed| then ChangesNext else ChangesEnd));
    } else if st.c.CExit? {
      step := Some(Record(Changes));
    } else if st.d.DCall? {
      var rows := AnswerExists(w, st.target, st.d.revMap);
      step := Some(ByDiffs(RevsDiffOk(rows)));
    } else if st.d.DRows? {
      step := Some(ByDiffs(if st.d.rows == [] then DiffsEnd else DiffRow));
    } else if st.d.DExit? {
      step := Some(Record(Diffs));
    } else if st.r.ROpen? {
      step := Some(ByDocs(if w.openRevsSupported then OpenRevsOk else OpenRevsNotImplemented));
    } else if st.r.ROpenRows? {
      step := Some(ByDocs(if st.r.docs == [] then OpenRevsEnd else OpenRevsRow));
    } else if st.r.RIndiv? {
      step := Some(ByDocs(if st.r.revs == [] then IndividualEnd else GetOk));
    } else if st.r.RExit? {
      step := Some(Record(Docs));
    } else if st.s.SPut? {
      step := Some(ByStore(PutOk));
    } else if st.s.SExit? {
      step := Some(Record(Store));
    }
  }

  lemma {:induction false} NoErrorBefore(st: State, stage: Stage)
    requires Accounted(st) && !CtxDone(st) && IsDone(st, stage)
    ensures OutcomeOf(st, stage) == Some(Ok)
  {
    var o := OutcomeOf(st, stage).value;
    if o.Err? {
      assert StageFailed(st, StageError(stage, o.e));
    }
  }

  /** With every goroutine waiting at a channel, two of them can meet, one finds its input
      closed, or the context is done and one can give up. */
  lemma {:induction false} ChannelStep(w: World, st: State) returns (step: Step)
    requires Orderly(w, st) && Accounted(st) && !Finished(st)
    requires st.c.CSend? || st.c.CDone?
    requires st.d.DCollect? || st.d.DSend? || st.d.DDone?
    requires st.r.RRecv? || st.r.ROpenSend? || st.r.RIndivSend? || st.r.RDone?
    requires st.s.SRecv? || st.s.SDone?
    ensures Enabled(w, st, step) && Progress(step)
  {
    if CtxDone(st) && !st.r.RDone? {
      step := ByDocs(DocsCancel);
    } else if CtxDone(st) && !st.d.DDone? {
      step := ByDiffs(DiffsCancel);
    } else if CtxDone(st) && !st.c.CDone? {
      step := ByChanges(ChangesCancel);
    } else if st.s.SRecv? {
      if st.r.RDone? {
        step := ByStore(StoreEnd);
      } else if !st.r.RRecv? {
        step := ByDocs(SendDoc);
      } else if st.d.DSend? {
        step := ByDiffs(SendDiff);
      } else if st.d.DDone? {
        step := ByDocs(DocsEnd);
      } else {
        step := if st.c.CSend? then ByChanges(SendChange) else ByDiffs(CollectClosed);
      }
    } else {
      // storeDocs is done: without an error that means every stage before it is, too.
      NoErrorBefore(st, Store);
      NoErrorBefore(st, Docs);
      NoErrorBefore(st, Diffs);
      assert false;
    }
  }

  /** No reachable state is stuck: until group.Wait returns, some goroutine can move, whether or
      not any further driver call fails and whether or not the caller cancels. */
  lemma {:induction false} NoDeadlock(w: World, run: seq<State>)
    requires Run(w, run) && !Finished(Last(run))
    ensures exists step :: Enabled(w, Last(run), step) && Progress(step)
  {
    ReachableIsOrderly(w, run);
    var local := LocalStep(w, Last(run));
    if local.None? {
      var step := ChannelStep(w, Last(run));
    }
  }

  // ---------------------------------------------------------------------------
  // Termination
  // ---------------------------------------------------------------------------

  /** What is left to do, most upstream first. */
  datatype Rank = Rank(parent: nat, feed: nat, c: nat, dPhase: nat, dRows: nat, rPhase: nat, rDocs: nat, s: nat)

  predicate Less(a: Rank, b: Rank) {
    a.parent < b.parent || (a.parent == b.parent && (
    a.feed < b.feed || (a.feed == b.feed && (
    a.c < b.c || (a.c == b.c && (
    a.dPhase < b.dPhase || (a.dPhase == b.dPhase && (
    a.dRows < b.dRows || (a.dRows == b.dRows && (
    a.rPhase < b.rPhase || (a.rPhase == b.rPhase && (
    a.rDocs < b.rDocs || (a.rDocs == b.rDocs && a.s < b.s)))))))))))))
  }

  function ChangesRank(c: ReadChanges): nat {
    match c case CSend(_) => 3 case CRead => 2 case CExit(_) => 1 case CDone(_) => 0
  }

  function DiffsPhase(d: ReadDiffs): nat {
    match d
    case DCollect(m) => if |m| == 0 then 2 else 5
    case DCall(_) => 4
    case DRows(_) | DSend(_, _) => 3
    case DExit(_) => 1
    case DDone(_) => 0
  }

  function DiffsRows(d: ReadDiffs): nat {
    match d case DRows(rows) => 2 * |rows| case DSend(_, rows) => 2 * |rows| + 1 case _ => 0
  }

  function DocsPhase(r: ReadDocs): nat {
    match r
    case ROpen(_) => 6
    case ROpenRows(_, _) | ROpenSend(_, _, _) => 5
    case RIndiv(_, _) | RIndivSend(_, _, _) => 4
    case RRecv => 2
    case RExit(_) => 1
    case RDone(_) => 0
  }

  function DocsLeft(r: ReadDocs): nat {
    match r
    case ROpenRows(_, docs) => 2 * |docs| case ROpenSend(_, _, docs) => 2 * |docs| + 1
    case RIndiv(_, revs) => 2 * |revs| case RIndivSend(_, _, revs) => 2 * |revs| + 1
    case _ => 0
  }

  function StoreRank(s: StoreDocs): nat {
    match s case SPut(_) => 3 case SRecv => 2 case SExit(_) => 1 case SDone(_) => 0
  }

  function RankOf(w: World, st: State): Rank {
    Rank(
      if st.parentCancelled then 0 else 1,
      if st.next <= |w.feed| then |w.feed| - st.next else 0,
      ChangesRank(st.c), DiffsPhase(st.d), DiffsRows(st.d), DocsPhase(st.r), DocsLeft(st.r), StoreRank(st.s))
  }

  lemma {:induction false} ChangesDescends(w: World, st: State, step: Step)
    requires Orderly(w, st) && Enabled(w, st, step) && step.ByChanges?
    ensures Less(RankOf(w, Apply(w, st, step)), RankOf(w, st))
  {
    hide IsAnswer;
    ChangesFrame(w, st, step);
    hide DocsPhase, DocsLeft, StoreRank;
  }

  lemma {:induction false} DiffsDescends(w: World, st: State, step: Step)
    requires Orderly(w, st) && Enabled(w, st, step) && step.ByDiffs?
    ensures Less(RankOf(w, Apply(w, st, step)), RankOf(w, st))
  {
    hide IsAnswer, Collected;
    DiffsFrame(w, st, step);
    hide ChangesRank, StoreRank;
  }

  lemma {:induction false} OpenRevsDescends(w: World, st: State, step: Step)
    requires Enabled(w, st, step) && step.ByDocs? && (st.r.ROpen? || st.r.ROpenRows? || st.r.ROpenSend?)
    ensures Less(RankOf(w, Apply(w, st, step)), RankOf(w, st))
  {
    DocsFrame(w, st, step);
    hide ChangesRank, DiffsPhase, DiffsRows;
  }

  lemma {:induction false} ReadDocsDescends(w: World, st: State, step: Step)
    requires Enabled(w, st, step) && step.ByDocs? && !(st.r.ROpen? || st.r.ROpenRows? || st.r.ROpenSend?)
    ensures Less(RankOf(w, Apply(w, st, step)), RankOf(w, st))
  {
    DocsFrame(w, st, step);
    hide ChangesRank, DiffsPhase, DiffsRows;
  }

  lemma {:induction false} DocsDescends(w: World, st: State, step: Step)
    requires Orderly(w, st) && Enabled(w, st, step) && step.ByDocs?
    ensures Less(RankOf(w, Apply(w, st, step)), RankOf(w, st))
  {
    hide Less, RankOf, Enabled, Apply, Orderly;
    if st.r.ROpen? || st.r.ROpenRows? || st.r.ROpenSend? {
      OpenRevsDescends(w, st, step);
    } else {
      ReadDocsDescends(w, st, step);
    }
  }

  lemma {:induction false} StoreDescends(w: World, st: State, step: Step)
    requires Orderly(w, st) && Enabled(w, st, step) && step.ByStore?
    ensures Less(RankOf(w, Apply(w, st, step)), RankOf(w, st))
  {
    hide IsAnswer, Collected;
    StoreFrame(w, st, step);
    hide ChangesRank, DiffsPhase, DiffsRows, DocsPhase, DocsLeft;
  }

  lemma {:induction false} RecordMovesOne(w: World, st: State, step: Step)
    requires Enabled(w, st, step) && step.Record?
    ensures var st' := Apply(w, st, step);
            st'.parentCancelled == st.parentCancelled && (st'.c != st.c || st'.d != st.d || st'.r != st.r || st'.s != st.s)
  {
    match step.stage
    case Changes =>
    case Diffs =>
    case Docs =>
    case Store =>
  }

  lemma {:induction false} GroupDescends(w: World, st: State, step: Step)
    requires Orderly(w, st) && Enabled(w, st, step) && (step.Record? || step.CancelParent?)
    ensures Less(RankOf(w, Apply(w, st, step)), RankOf(w, st))
  {
    GroupFrame(w, st, step);
    if step.Record? {
      RecordMovesOne(w, st, step);
      hide Enabled, Apply;
    } else {
      hide ChangesRank, DiffsPhase, DiffsRows, DocsPhase, DocsLeft, StoreRank;
    }
  }

  /** Every step, of whatever goroutine, leaves less to do. */
  lemma {:induction false} StepsDescend(w: World, st: State, step: Step)
    requires Orderly(w, st) && Enabled(w, st, step)
    ensures Less(RankOf(w, Apply(w, st, step)), RankOf(w, st))
  {
    hide Less, RankOf, Enabled, Apply, Orderly;
    match step
    case ByChanges(_) => ChangesDescends(w, st, step);
    case ByDiffs(_) => DiffsDescends(w, st, step);
    case ByDocs(_) => DocsDescends(w, st, step);
    case ByStore(_) => StoreDescends(w, st, step);
    case _ => GroupDescends(w, st, step);
  }

  lemma {:induction false} Descend(w: World, run: nat -> State, i: nat, k: Rank)
    requires Orderly(w, run(i)) && k == RankOf(w, run(i))
    ensures exists j: nat :: !Next(w, run(j), run(j + 1))
    decreases k.parent, k.feed, k.c, k.dPhase, k.dRows, k.rPhase, k.rDocs, k.s
  {
    if Next(w, run(i), run(i + 1)) {
      var step :| Enabled(w, run(i), step) && run(i + 1) == Apply(w, run(i), step);
      OrderlyStep(w, run(i), step);
      StepsDescend(w, run(i), step);
      Descend(w, run, i + 1, RankOf(w, run(i + 1)));
    }
  }

  /** No infinite sequence of states is a run.  With NoDeadlock: however the goroutines are
      scheduled, group.Wait returns. */
  lemma {:induction false} EveryRunEnds(w: World, run: nat -> State)
    requires run(0) == Init(w)
    ensures exists j: nat :: !Next(w, run(j), run(j + 1))
  {
    Descend(w, run, 0, RankOf(w, run(0)));
  }

  // ---------------------------------------------------------------------------
  // Success
  // ---------------------------------------------------------------------------

  /** A run without an error: every goroutine ended without one. */
  lemma {:induction false} NoErrorMeansAllEnded(w: World, run: seq<State>)
    requires Run(w, run) && Finished(Last(run)) && Last(run).group.None?
    ensures var st := Last(run);
            && st.c == CDone(Ok) && st.d == DDone(Ok) && st.r == RDone(Ok) && st.s == SDone(Ok)
            && st.sent == |w.feed| && st.failures == []
  {
    var st := Last(run);
    assert forall i :: 0 <= i < |st.failures| ==> st.failures[i] in st.failures;
    ReachableIsOrderly(w, run);
    forall stage
      ensures OutcomeOf(st, stage) == Some(Ok)
    {
      var o := OutcomeOf(st, stage).value;
      if o.Err? {
        assert StageFailed(st, StageError(stage, o.e));
      }
    }
    assert OutcomeOf(st, Changes) == OutcomeOf(st, Diffs) == OutcomeOf(st, Docs) == OutcomeOf(st, Store) == Some(Ok);
  }
}
