/** The replication pipeline of replicate.go: four goroutines joined by unbuffered channels
    and an errgroup, as a transition system.

    A send on an unbuffered channel and its receive are one step of both goroutines.  Each
    goroutine closes its channel when its function returns; recording its error, which
    cancels the shared context, is a step of its own.  Driver calls may fail at any time. */
module Replication {
  import opened Wrappers

  datatype Change = Change(id: string, revs: seq<string>)
  datatype RevDiff = RevDiff(id: string, missing: seq<string>)
  datatype Document = Document(id: string, rev: string)

  /** Cancelled is the context's own error; any other failure has an HTTP status. */
  datatype Error = Cancelled | Failed(status: int)
  datatype Outcome = Ok | Err(e: Error)

  datatype Stage = Changes | Diffs | Docs | Store

  /** The error that a stage's function returned. */
  datatype StageError = StageError(stage: Stage, e: Error)

  const RD_BATCH_SIZE := 10
  const STATUS_NOT_IMPLEMENTED := 501

  /** What the run is about: the changes feed, the target's revisions at the start, and how
      the drivers answer.  RevsDiff's answer for an ID depends on the revisions asked about and
      on the target's revisions of that ID; OpenRevs' answer on its arguments. */
  datatype World = World(
    feed: seq<Change>,
    initial: set<Document>,
    openRevsSupported: bool,
    revsDiff: (string, seq<string>, set<string>) -> seq<string>,
    openRevs: (string, seq<string>) -> seq<Document>)

  /** readChanges */
  datatype ReadChanges = CRead | CSend(change: Change) | CExit(o: Outcome) | CDone(o: Outcome)

  /** readDiffs */
  datatype ReadDiffs =
    | DCollect(revMap: map<string, seq<string>>)
    | DCall(revMap: map<string, seq<string>>)
    | DRows(rows: seq<RevDiff>)
    | DSend(row: RevDiff, rows: seq<RevDiff>)
    | DExit(o: Outcome) | DDone(o: Outcome)

  /** readDocs, with readOpenRevs and readIndividualDocs */
  datatype ReadDocs =
    | RRecv
    | ROpen(row: RevDiff)
    | ROpenRows(row: RevDiff, docs: seq<Document>)
    | ROpenSend(row: RevDiff, doc: Document, docs: seq<Document>)
    | RIndiv(row: RevDiff, revs: seq<string>)
    | RIndivSend(row: RevDiff, doc: Document, revs: seq<string>)
    | RExit(o: Outcome) | RDone(o: Outcome)

  /** storeDocs */
  datatype StoreDocs = SRecv | SPut(doc: Document) | SExit(o: Outcome) | SDone(o: Outcome)

  datatype Counters = Counters(docsRead: nat, missingFound: nat, missingChecks: nat, docsWritten: nat, writeFailures: nat)

  /** `next` is the position in the changes feed; `group` is the errgroup's error, with the stage
      it is of.  `sent`, `calls`, `answered`, `taken` and `failures` record the run: the number of
      changes readDiffs has received, the arguments of the RevsDiff calls, the rows they answered,
      the rows readDocs has received, and the errors that stages returned, in order. */
  datatype State = State(
    next: nat,
    c: ReadChanges, d: ReadDiffs, r: ReadDocs, s: StoreDocs,
    noOpenRevs: bool,
    target: set<Document>,
    n: Counters,
    group: Option<StageError>,
    parentCancelled: bool,
    sent: nat,
    calls: seq<map<string, seq<string>>>,
    answered: seq<RevDiff>,
    taken: seq<RevDiff>,
    failures: seq<StageError>)

  function Init(w: World): State {
    State(0, CRead, DCollect(map[]), RRecv, SRecv, false, w.initial, Counters(0, 0, 0, 0, 0),
          None, false, 0, [], [], [], [])
  }

  /** Done on the errgroup's context: the caller cancelled, or the first error was recorded. */
  predicate CtxDone(st: State) {
    st.parentCancelled || st.group.Some?
  }

  /** A driver call returns the context's error only once the context is done. */
  predicate DriverError(st: State, e: Error) {
    e.Cancelled? ==> CtxDone(st)
  }

  predicate ChangesClosed(st: State) { st.c.CExit? || st.c.CDone? }
  predicate DiffsClosed(st: State) { st.d.DExit? || st.d.DDone? }
  predicate DocsClosed(st: State) { st.r.RExit? || st.r.RDone? }

  /** group.Wait returns. */
  predicate Finished(st: State) { st.c.CDone? && st.d.DDone? && st.r.RDone? && st.s.SDone? }

  /** What the stage's function has returned, if it has. */
  function OutcomeOf(st: State, stage: Stage): Option<Outcome> {
    match stage
    case Changes => if ChangesClosed(st) then Some(st.c.o) else None
    case Diffs => if DiffsClosed(st) then Some(st.d.o) else None
    case Docs => if DocsClosed(st) then Some(st.r.o) else None
    case Store => if st.s.SExit? || st.s.SDone? then Some(st.s.o) else None
  }

  /** The stage's goroutine has ended. */
  predicate IsDone(st: State, stage: Stage) {
    match stage
    case Changes => st.c.CDone?
    case Diffs => st.d.DDone?
    case Docs => st.r.RDone?
    case Store => st.s.SDone?
  }

  ghost function RevsOf(target: set<Document>, id: string): set<string> {
    set d | d in target && d.id == id :: d.rev
  }

  /** An answer of RevsDiff: rows in any order, for each ID that misses something, and perhaps for
      other IDs asked about; a row may be repeated. */
  ghost predicate IsAnswer(w: World, target: set<Document>, revMap: map<string, seq<string>>, rows: seq<RevDiff>) {
    && (forall i :: 0 <= i < |rows| ==>
          rows[i].id in revMap
          && rows[i].missing == w.revsDiff(rows[i].id, revMap[rows[i].id], RevsOf(target, rows[i].id)))
    && (forall id :: id in revMap && w.revsDiff(id, revMap[id], RevsOf(target, id)) != [] ==>
          exists i :: 0 <= i < |rows| && rows[i].id == id)
  }

  datatype ChangesStep = ChangesNext | ChangesEnd | ChangesFail(e: Error) | ChangesCancel | SendChange

  datatype DiffsStep =
    | DiffsCancel | CollectClosed | RevsDiffOk(rows: seq<RevDiff>) | DiffsFail(e: Error) | DiffRow | DiffsEnd
    | SendDiff

  datatype DocsStep =
    | DocsCancel | DocsEnd
    | OpenRevsOk | OpenRevsNotImplemented | OpenRevsRow | OpenRevsScanFail(e: Error) | OpenRevsFail(e: Error) | OpenRevsEnd
    | GetOk | GetFail(e: Error) | IndividualEnd
    | SendDoc

  datatype StoreStep = PutOk | PutFail(e: Error) | StoreEnd

  /** A step of one goroutine, a rendezvous counting as the sender's; the recording of a stage's
      outcome by the errgroup; or the caller's cancelling. */
  datatype Step =
    | ByChanges(c: ChangesStep) | ByDiffs(d: DiffsStep) | ByDocs(r: DocsStep) | ByStore(s: StoreStep)
    | Record(stage: Stage)
    | CancelParent

  /** The error with which a stage's function returns in the step, if one does. */
  function FailureOf(step: Step): Option<StageError> {
    match step
    case ByChanges(ChangesFail(e)) => Some(StageError(Changes, e))
    case ByChanges(ChangesCancel) => Some(StageError(Changes, Cancelled))
    case ByDiffs(DiffsFail(e)) => Some(StageError(Diffs, e))
    case ByDiffs(DiffsCancel) => Some(StageError(Diffs, Cancelled))
    case ByDocs(OpenRevsScanFail(e)) => Some(StageError(Docs, e))
    case ByDocs(OpenRevsFail(e)) => Some(StageError(Docs, e))
    case ByDocs(GetFail(e)) => Some(StageError(Docs, e))
    case ByDocs(DocsCancel) => Some(StageError(Docs, Cancelled))
    case ByStore(PutFail(e)) => Some(StageError(Store, e))
    case _ => None
  }

  predicate ChangesEnabled(w: World, st: State, step: ChangesStep) {
    match step
    case ChangesNext => st.c.CRead? && st.next < |w.feed|
    case ChangesEnd => st.c.CRead? && st.next == |w.feed|
    case ChangesFail(e) => st.c.CRead? && DriverError(st, e)
    case ChangesCancel => st.c.CSend? && CtxDone(st)
    case SendChange => st.c.CSend? && st.d.DCollect?
  }

  ghost predicate DiffsEnabled(w: World, st: State, step: DiffsStep) {
    match step
    case DiffsCancel => (st.d.DCollect? || st.d.DSend?) && CtxDone(st)
    case CollectClosed => st.d.DCollect? && ChangesClosed(st)
    case RevsDiffOk(rows) => st.d.DCall? && IsAnswer(w, st.target, st.d.revMap, rows)
    case DiffsFail(e) => (st.d.DCall? || st.d.DRows?) && DriverError(st, e)
    case DiffRow => st.d.DRows? && st.d.rows != []
    case DiffsEnd => st.d.DRows? && st.d.rows == []
    case SendDiff => st.d.DSend? && st.r.RRecv?
  }

  predicate DocsEnabled(w: World, st: State, step: DocsStep) {
    match step
    case DocsCancel => (st.r.RRecv? || st.r.ROpenSend? || st.r.RIndivSend?) && CtxDone(st)
    case DocsEnd => st.r.RRecv? && DiffsClosed(st)
    case OpenRevsOk => st.r.ROpen? && w.openRevsSupported
    case OpenRevsNotImplemented => st.r.ROpen? && !w.openRevsSupported
    case OpenRevsRow => st.r.ROpenRows? && st.r.docs != []
    case OpenRevsScanFail(e) =>
      st.r.ROpenRows? && st.r.docs != [] && DriverError(st, e) && e != Failed(STATUS_NOT_IMPLEMENTED)
    case OpenRevsFail(e) =>
      (st.r.ROpen? || st.r.ROpenRows?) && DriverError(st, e) && e != Failed(STATUS_NOT_IMPLEMENTED)
    case OpenRevsEnd => st.r.ROpenRows? && st.r.docs == []
    case GetOk => st.r.RIndiv? && st.r.revs != []
    case GetFail(e) => st.r.RIndiv? && st.r.revs != [] && DriverError(st, e)
    case IndividualEnd => st.r.RIndiv? && st.r.revs == []
    case SendDoc => (st.r.ROpenSend? || st.r.RIndivSend?) && st.s.SRecv?
  }

  predicate StoreEnabled(st: State, step: StoreStep) {
    match step
    case PutOk => st.s.SPut?
    case PutFail(e) => st.s.SPut? && DriverError(st, e)
    case StoreEnd => st.s.SRecv? && DocsClosed(st)
  }

  ghost predicate Enabled(w: World, st: State, step: Step) {
    match step
    case ByChanges(c) => ChangesEnabled(w, st, c)
    case ByDiffs(d) => DiffsEnabled(w, st, d)
    case ByDocs(r) => DocsEnabled(w, st, r)
    case ByStore(s) => StoreEnabled(st, s)
    case Record(stage) => OutcomeOf(st, stage).Some? && !IsDone(st, stage)
    case CancelParent => !st.parentCancelled
  }

  /** The errgroup keeps the first error. */
  function Recorded(group: Option<StageError>, stage: Stage, o: Outcome): Option<StageError> {
    if group.None? && o.Err? then Some(StageError(stage, o.e)) else group
  }

  /** The batch after one more change: readDiffs stops collecting at the batch size. */
  function Collected(revMap: map<string, seq<string>>): ReadDiffs {
    if |revMap| >= RD_BATCH_SIZE then DCall(revMap) else DCollect(revMap)
  }

  function Ended(st: State, stage: Stage): State
    requires OutcomeOf(st, stage).Some?
  {
    match stage
    case Changes => st.(c := CDone(st.c.o))
    case Diffs => st.(d := DDone(st.d.o))
    case Docs => st.(r := RDone(st.r.o))
    case Store => st.(s := SDone(st.s.o))
  }

  function ChangesMove(w: World, st: State, step: ChangesStep): State
    requires ChangesEnabled(w, st, step)
  {
    match step
    case ChangesNext => st.(next := st.next + 1, c := CSend(w.feed[st.next]))
    case ChangesEnd => st.(c := CExit(Ok))
    case ChangesFail(e) => st.(c := CExit(Err(e)), failures := st.failures + [StageError(Changes, e)])
    case ChangesCancel => st.(c := CExit(Err(Cancelled)), failures := st.failures + [StageError(Changes, Cancelled)])
    case SendChange =>
      st.(c := CRead, d := Collected(st.d.revMap[st.c.change.id := st.c.change.revs]), sent := st.sent + 1)
  }

  ghost function DiffsMove(w: World, st: State, step: DiffsStep): State
    requires DiffsEnabled(w, st, step)
  {
    match step
    case DiffsCancel => st.(d := DExit(Err(Cancelled)), failures := st.failures + [StageError(Diffs, Cancelled)])
    case CollectClosed => st.(d := if |st.d.revMap| == 0 then DExit(Ok) else DCall(st.d.revMap))
    case RevsDiffOk(rows) =>
      st.(d := DRows(rows), calls := st.calls + [st.d.revMap], answered := st.answered + rows)
    case DiffsFail(e) => st.(d := DExit(Err(e)), failures := st.failures + [StageError(Diffs, e)])
    case DiffRow => st.(d := DSend(st.d.rows[0], st.d.rows[1..]))
    case DiffsEnd => st.(d := DCollect(map[]))
    case SendDiff =>
      var row := st.d.row;
      st.(d := DRows(st.d.rows), taken := st.taken + [row],
          r := if st.noOpenRevs then RIndiv(row, row.missing) else ROpen(row))
  }

  function DocsMove(w: World, st: State, step: DocsStep): State
    requires DocsEnabled(w, st, step)
  {
    match step
    case DocsCancel => st.(r := RExit(Err(Cancelled)), failures := st.failures + [StageError(Docs, Cancelled)])
    case DocsEnd => st.(r := RExit(Ok))
    case OpenRevsOk => st.(r := ROpenRows(st.r.row, w.openRevs(st.r.row.id, st.r.row.missing)))
    case OpenRevsNotImplemented => st.(r := RIndiv(st.r.row, st.r.row.missing), noOpenRevs := true)
    case OpenRevsRow =>
      st.(r := ROpenSend(st.r.row, st.r.docs[0], st.r.docs[1..]),
          n := st.n.(docsRead := st.n.docsRead + 1, missingFound := st.n.missingFound + 1))
    case OpenRevsScanFail(e) =>
      st.(r := RExit(Err(e)), failures := st.failures + [StageError(Docs, e)],
          n := st.n.(docsRead := st.n.docsRead + 1, missingFound := st.n.missingFound + 1))
    case OpenRevsFail(e) => st.(r := RExit(Err(e)), failures := st.failures + [StageError(Docs, e)])
    case OpenRevsEnd =>
      st.(r := RRecv, n := st.n.(missingChecks := st.n.missingChecks + |st.r.row.missing|))
    case GetOk =>
      st.(r := RIndivSend(st.r.row, Document(st.r.row.id, st.r.revs[0]), st.r.revs[1..]),
          n := st.n.(missingChecks := st.n.missingChecks + 1,
                     docsRead := st.n.docsRead + 1, missingFound := st.n.missingFound + 1))
    case GetFail(e) =>
      st.(r := RExit(Err(e)), failures := st.failures + [StageError(Docs, e)],
          n := st.n.(missingChecks := st.n.missingChecks + 1))
    case IndividualEnd => st.(r := RRecv)
    case SendDoc =>
      st.(s := SPut(st.r.doc),
          r := if st.r.ROpenSend? then ROpenRows(st.r.row, st.r.docs) else RIndiv(st.r.row, st.r.revs))
  }

  function StoreMove(st: State, step: StoreStep): State
    requires StoreEnabled(st, step)
  {
    match step
    case PutOk =>
      st.(s := SRecv, target := st.target + {st.s.doc}, n := st.n.(docsWritten := st.n.docsWritten + 1))
    case PutFail(e) =>
      st.(s := SExit(Err(e)), failures := st.failures + [StageError(Store, e)],
          n := st.n.(writeFailures := st.n.writeFailures + 1))
    case StoreEnd => st.(s := SExit(Ok))
  }

  ghost function Apply(w: World, st: State, step: Step): State
    requires Enabled(w, st, step)
  {
    match step
    case ByChanges(c) => ChangesMove(w, st, c)
    case ByDiffs(d) => DiffsMove(w, st, d)
    case ByDocs(r) => DocsMove(w, st, r)
    case ByStore(s) => StoreMove(st, s)
    case Record(stage) => Ended(st, stage).(group := Recorded(st.group, stage, OutcomeOf(st, stage).value))
    case CancelParent => st.(parentCancelled := true)
  }

  ghost predicate Next(w: World, st: State, st': State) {
    exists step :: Enabled(w, st, step) && st' == Apply(w, st, step)
  }

  /** A run, up to any point. */
  ghost predicate Run(w: World, run: seq<State>) {
    && |run| > 0 && run[0] == Init(w)
    && forall i :: 0 <= i < |run| - 1 ==> Next(w, run[i], run[i + 1])
  }

  function Last(run: seq<State>): State
    requires |run| > 0
  {
    run[|run| - 1]
  }
}
