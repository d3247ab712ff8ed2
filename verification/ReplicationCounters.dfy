/** Conservation of the replication counters. */
module ReplicationCounters {
  import opened Replication
  import opened ReplicationErrors
  import opened ReplicationLifecycle

  function SumMissing(rows: seq<RevDiff>): nat
    decreases |rows|
  {
    if rows == [] then 0 else SumMissing(rows[..|rows| - 1]) + |rows[|rows| - 1].missing|
  }

  /** Documents read from the source and not yet handed to Put, or handed and not yet stored. */
  function InFlight(st: State): nat {
    (if st.r.ROpenSend? || st.r.RIndivSend? then 1 else 0) + (if st.s.SPut? then 1 else 0)
  }

  /** Revisions of the current diff that have not been counted as checked. */
  function Unchecked(r: ReadDocs): nat {
    match r
    case ROpen(row) => |row.missing|
    case ROpenRows(row, _) => |row.missing|
    case ROpenSend(row, _, _) => |row.missing|
    case RIndiv(_, revs) => |revs|
    case RIndivSend(_, _, revs) => |revs|
    case _ => 0
  }

  predicate ReadDocsFailed(st: State) {
    (st.r.RExit? && st.r.o.Err?) || (st.r.RDone? && st.r.o.Err?)
  }

  predicate ReadDiffsFailed(st: State) {
    (st.d.DExit? && st.d.o.Err?) || (st.d.DDone? && st.d.o.Err?)
  }

  predicate StoreFailed(st: State) {
    (st.s.SExit? && st.s.o.Err?) || (st.s.SDone? && st.s.o.Err?)
  }

  function Untaken(d: ReadDiffs): seq<RevDiff> {
    match d
    case DRows(rows) => rows
    case DSend(row, rows) => [row] + rows
    case _ => []
  }

  /** Every document read is stored, failed, in flight, or the one readDocs gave up on. */
  predicate DocsConserved(st: State) {
    var done := st.n.docsWritten + st.n.writeFailures + InFlight(st);
    && st.n.docsRead == st.n.missingFound
    && st.n.writeFailures == (if StoreFailed(st) then 1 else 0)
    && done <= st.n.docsRead <= done + 1
    && (!ReadDocsFailed(st) ==> st.n.docsRead == done)
  }

  /** Every missing revision taken by readDocs is checked or still to be checked. */
  predicate ChecksConserved(st: State) {
    && st.n.missingChecks + Unchecked(st.r) <= SumMissing(st.taken)
    && (!ReadDocsFailed(st) ==> st.n.missingChecks + Unchecked(st.r) == SumMissing(st.taken))
  }

  /** Every row of RevsDiff reaches readDocs in order, or waits in readDiffs. */
  predicate RowsConserved(st: State) {
    && st.taken <= st.answered
    && (!ReadDiffsFailed(st) ==> st.answered == st.taken + Untaken(st.d))
  }

  lemma {:induction false} DocsConservedStep(w: World, st: State, step: Step)
    requires DocsConserved(st) && Enabled(w, st, step)
    ensures DocsConserved(Apply(w, st, step))
  {
    hide DocsConserved, Apply, Enabled;
    match step
    case ByDocs(_) => DocsConservedDocs(w, st, step);
    case ByStore(_) => DocsConservedStore(w, st, step);
    case _ => DocsConservedElsewhere(w, st, step);
  }

  lemma {:induction false} DocsConservedDocs(w: World, st: State, step: Step)
    requires DocsConserved(st) && Enabled(w, st, step) && step.ByDocs?
    ensures DocsConserved(Apply(w, st, step))
  {
    DocsFrame(w, st, step);
    match step.r
    case DocsCancel | DocsEnd | OpenRevsFail(_) =>
    case OpenRevsOk | OpenRevsNotImplemented | OpenRevsEnd | IndividualEnd =>
    case OpenRevsRow | GetOk =>
    case OpenRevsScanFail(_) | GetFail(_) =>
    case SendDoc =>
  }

  lemma {:induction false} DocsConservedStore(w: World, st: State, step: Step)
    requires DocsConserved(st) && Enabled(w, st, step) && step.ByStore?
    ensures DocsConserved(Apply(w, st, step))
  {
    StoreFrame(w, st, step);
  }

  lemma {:induction false} DocsConservedElsewhere(w: World, st: State, step: Step)
    requires DocsConserved(st) && Enabled(w, st, step) && !step.ByDocs? && !step.ByStore?
    ensures DocsConserved(Apply(w, st, step))
  {
    hide Enabled, Apply;
    match step
    case ByChanges(_) => ChangesFrame(w, st, step);
    case ByDiffs(_) => DiffsFrame(w, st, step);
    case _ => GroupFrame(w, st, step);
  }

  lemma {:induction false} ChecksConservedStep(w: World, st: State, step: Step)
    requires ChecksConserved(st) && Enabled(w, st, step)
    ensures ChecksConserved(Apply(w, st, step))
  {
    hide ChecksConserved, Apply, Enabled;
    match step
    case ByDocs(_) => ChecksConservedDocs(w, st, step);
    case ByDiffs(_) => ChecksConservedDiffs(w, st, step);
    case _ => ChecksConservedElsewhere(w, st, step);
  }

  lemma {:induction false} ChecksConservedDiffs(w: World, st: State, step: Step)
    requires ChecksConserved(st) && Enabled(w, st, step) && step.ByDiffs?
    ensures ChecksConserved(Apply(w, st, step))
  {
    hide IsAnswer;
    var st' := Apply(w, st, step);
    if step.d.SendDiff? {
      assert st'.taken[..|st'.taken| - 1] == st.taken;
    } else {
      hide SumMissing;
      assert st'.n == st.n && st'.r == st.r && st'.taken == st.taken;
    }
  }

  lemma {:induction false} ChecksConservedElsewhere(w: World, st: State, step: Step)
    requires ChecksConserved(st) && Enabled(w, st, step) && !step.ByDocs? && !step.ByDiffs?
    ensures ChecksConserved(Apply(w, st, step))
  {
    hide Enabled, Apply, SumMissing;
    match step
    case ByChanges(_) => ChangesFrame(w, st, step);
    case ByStore(_) => StoreFrame(w, st, step);
    case _ => GroupFrame(w, st, step);
  }

  lemma {:induction false} ChecksConservedDocs(w: World, st: State, step: Step)
    requires ChecksConserved(st) && Enabled(w, st, step) && step.ByDocs?
    ensures ChecksConserved(Apply(w, st, step))
  {
    hide SumMissing;
    DocsFrame(w, st, step);
    match step.r
    case DocsCancel | DocsEnd | OpenRevsFail(_) | OpenRevsScanFail(_) =>
    case OpenRevsOk | OpenRevsNotImplemented | OpenRevsRow =>
    case OpenRevsEnd | IndividualEnd =>
    case GetOk | GetFail(_) =>
    case SendDoc =>
  }

  lemma {:induction false} RowsConservedStep(w: World, st: State, step: Step)
    requires RowsConserved(st) && Enabled(w, st, step)
    ensures RowsConserved(Apply(w, st, step))
  {
    hide Enabled, Apply;
    match step
    case ByDiffs(_) => RowsConservedDiffs(w, st, step);
    case ByChanges(_) => ChangesFrame(w, st, step);
    case ByDocs(_) => DocsFrame(w, st, step);
    case ByStore(_) => StoreFrame(w, st, step);
    case _ => GroupFrame(w, st, step);
  }

  lemma {:induction false} RowsConservedDiffs(w: World, st: State, step: Step)
    requires RowsConserved(st) && Enabled(w, st, step) && step.ByDiffs?
    ensures RowsConserved(Apply(w, st, step))
  {
    hide IsAnswer;
    var st' := Apply(w, st, step);
    match step.d
    case SendDiff =>
      assert st'.taken + st.d.rows == st.taken + ([st.d.row] + st.d.rows);
    case DiffRow =>
      assert [st.d.rows[0]] + st.d.rows[1..] == st.d.rows;
    case RevsDiffOk(rows) =>
      assert st.taken + [] == st.taken;
    case _ =>
  }

  predicate Conserved(st: State) {
    DocsConserved(st) && ChecksConserved(st) && RowsConserved(st)
  }

  /** In every reachable state: DocsRead equals MissingFound; DocsWritten and DocWriteFailures
      together fall short of DocsRead by the documents in flight and at most one more, and by
      no more than those in flight while readDocs has not failed; at most one write fails. */
  lemma {:induction false} CountersAreConserved(w: World, run: seq<State>)
    requires Run(w, run)
    ensures Conserved(Last(run))
    decreases |run|
  {
    if |run| > 1 {
      var before := run[..|run| - 1];
      assert Run(w, before);
      CountersAreConserved(w, before);
      assert Next(w, run[|run| - 2], run[|run| - 1]);
      var step :| Enabled(w, Last(before), step) && Last(run) == Apply(w, Last(before), step);
      DocsConservedStep(w, Last(before), step);
      ChecksConservedStep(w, Last(before), step);
      RowsConservedStep(w, Last(before), step);
    }
  }

  /** After a run that ends without error every document read was written, no write failed, and
      the missing revisions checked are those of all rows that RevsDiff answered. */
  lemma {:induction false} CountersOnSuccess(w: World, run: seq<State>)
    requires Run(w, run) && Finished(Last(run)) && Last(run).group.None?
    ensures var st := Last(run);
            && st.n.docsWritten == st.n.docsRead == st.n.missingFound
            && st.n.writeFailures == 0
            && st.n.missingChecks == SumMissing(st.answered)
  {
    var st := Last(run);
    CountersAreConserved(w, run);
    NoErrorMeansAllEnded(w, run);
    assert st.taken + [] == st.taken;
  }

  // ---------------------------------------------------------------------------
  // Exact counts, failing runs included
  // ---------------------------------------------------------------------------

  /** The step reads a document: a row of OpenRevs, readable or not, or a single revision. */
  predicate ReadsDocument(step: Step) {
    step.ByDocs? && (step.r.OpenRevsRow? || step.r.OpenRevsScanFail? || step.r.GetOk?)
  }

  /** The revisions that the step checks: one that is asked for on its own, found or not, or all of
      those OpenRevs was asked for, when its rows have been read to the end. */
  function Checks(st: State, step: Step): nat {
    match step
    case ByDocs(GetOk) => 1
    case ByDocs(GetFail(_)) => 1
    case ByDocs(OpenRevsEnd) => if st.r.ROpenRows? then |st.r.row.missing| else 0
    case _ => 0
  }

  function DocumentsRead(steps: seq<Step>): nat
    decreases |steps|
  {
    if steps == [] then 0
    else DocumentsRead(steps[..|steps| - 1]) + if ReadsDocument(steps[|steps| - 1]) then 1 else 0
  }

  /** The revisions checked in the first n steps. */
  function RevisionsChecked(run: seq<State>, steps: seq<Step>, n: nat): nat
    requires n <= |steps| <= |run|
  {
    if n == 0 then 0 else RevisionsChecked(run, steps, n - 1) + Checks(run[n - 1], steps[n - 1])
  }

  function Stored(steps: seq<Step>): nat
    decreases |steps|
  {
    if steps == [] then 0
    else Stored(steps[..|steps| - 1]) + if steps[|steps| - 1] == ByStore(PutOk) then 1 else 0
  }

  lemma {:induction false} DocsStepCounts(w: World, st: State, step: Step)
    requires Enabled(w, st, step) && step.ByDocs?
    ensures var n, n' := st.n, Apply(w, st, step).n;
            && n'.docsRead == n.docsRead + (if ReadsDocument(step) then 1 else 0)
            && n'.missingFound == n.missingFound + (if ReadsDocument(step) then 1 else 0)
            && n'.missingChecks == n.missingChecks + Checks(st, step)
            && n'.docsWritten == n.docsWritten
  {
  }

  lemma {:induction false} OtherStepCounts(w: World, st: State, step: Step)
    requires Enabled(w, st, step) && !step.ByDocs?
    ensures var n, n' := st.n, Apply(w, st, step).n;
            && n'.docsRead == n.docsRead && n'.missingFound == n.missingFound && n'.missingChecks == n.missingChecks
            && n'.docsWritten == n.docsWritten + (if step == ByStore(PutOk) then 1 else 0)
  {
    match step
    case ByChanges(_) => ChangesFrame(w, st, step);
    case ByDiffs(_) => DiffsFrame(w, st, step);
    case ByStore(_) => StoreFrame(w, st, step);
    case _ => GroupFrame(w, st, step);
  }

  /** Of every run, failing or not: DocsRead and MissingFound count the steps that read a document,
      DocsWritten those that stored one, and MissingChecked the revisions that were checked. */
  lemma {:induction false} CountersInSteps(w: World, run: seq<State>, steps: seq<Step>, i: nat)
    requires Steps(w, run, steps) && i < |run|
    ensures run[i].n.docsRead == run[i].n.missingFound == DocumentsRead(steps[..i])
    ensures run[i].n.missingChecks == RevisionsChecked(run, steps, i)
    ensures run[i].n.docsWritten == Stored(steps[..i])
    decreases i
  {
    hide Enabled, Apply, Checks, ReadsDocument;
    if i > 0 {
      var n := i - 1;
      CountersInSteps(w, run, steps, n);
      assert steps[..i][..n] == steps[..n];
      assert Enabled(w, run[n], steps[n]) && run[n + 1] == Apply(w, run[n], steps[n]);
      if steps[n].ByDocs? {
        DocsStepCounts(w, run[n], steps[n]);
        hide Steps;
      } else {
        OtherStepCounts(w, run[n], steps[n]);
        assert !ReadsDocument(steps[n]) && Checks(run[n], steps[n]) == 0 by {
          NothingRead(run[n], steps[n]);
        }
      }
    }
  }

  lemma NothingRead(st: State, step: Step)
    ensures !step.ByDocs? ==> !ReadsDocument(step) && Checks(st, step) == 0
    ensures step.ByDocs? ==> step != ByStore(PutOk)
  {
  }
}
