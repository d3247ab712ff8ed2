/** What replication leaves in the target: completeness, and independence of the schedule. */
module ReplicationTarget {
  import opened Replication
  import opened ReplicationLifecycle
  import opened ReplicationBatches

  function SeqDocs(docs: seq<Document>): set<Document> {
    set d | d in docs
  }

  /** The revisions that readIndividualDocs fetches. */
  function IndividualDocs(id: string, revs: seq<string>): set<Document> {
    set rev | rev in revs :: Document(id, rev)
  }

  /** The documents fetched for one row of RevsDiff. */
  function DocsOfRow(w: World, row: RevDiff): set<Document> {
    if w.openRevsSupported then SeqDocs(w.openRevs(row.id, row.missing)) else IndividualDocs(row.id, row.missing)
  }

  function RowDocs(w: World, rows: seq<RevDiff>): set<Document> {
    set i, d | 0 <= i < |rows| && d in DocsOfRow(w, rows[i]) :: d
  }

  /** What RevsDiff answers for a change when the target's revisions of it are the initial ones. */
  ghost function InitialDiff(w: World, c: Change): RevDiff {
    RevDiff(c.id, w.revsDiff(c.id, c.revs, RevsOf(w.initial, c.id)))
  }

  ghost function DocsBetween(w: World, lo: nat, hi: nat): set<Document>
    requires hi <= |w.feed|
  {
    set i, d | lo <= i < hi && d in DocsOfRow(w, InitialDiff(w, w.feed[i])) :: d
  }

  /** What the target holds in the end. */
  ghost function FinalTarget(w: World): set<Document> {
    w.initial + DocsBetween(w, 0, |w.feed|)
  }

  /** What is asked of the source: OpenRevs returns revisions of the document asked for, and none
      when asked for none. */
  ghost predicate SourceAnswers(w: World) {
    && (forall id, revs, d :: d in w.openRevs(id, revs) ==> d.id == id)
    && (forall id :: w.openRevs(id, []) == [])
  }

  // ---------------------------------------------------------------------------
  // The invariant
  // ---------------------------------------------------------------------------

  function PendingDiffs(w: World, d: ReadDiffs): set<Document> {
    match d
    case DRows(rows) => RowDocs(w, rows)
    case DSend(row, rows) => DocsOfRow(w, row) + RowDocs(w, rows)
    case _ => {}
  }

  function PendingDocs(w: World, r: ReadDocs): set<Document> {
    match r
    case ROpen(row) => DocsOfRow(w, row)
    case ROpenRows(_, docs) => SeqDocs(docs)
    case ROpenSend(_, doc, docs) => {doc} + SeqDocs(docs)
    case RIndiv(row, revs) => IndividualDocs(row.id, revs)
    case RIndivSend(row, doc, revs) => {doc} + IndividualDocs(row.id, revs)
    case _ => {}
  }

  function PendingStore(s: StoreDocs): set<Document> {
    match s case SPut(doc) => {doc} case _ => {}
  }

  /** Stored or on the way. */
  function Covered(w: World, st: State): set<Document> {
    st.target + PendingStore(st.s) + PendingDocs(w, st.r) + PendingDiffs(w, st.d)
  }

  /** How many changes RevsDiff has answered for. */
  function Asked(st: State): nat {
    Min(RD_BATCH_SIZE * |st.calls|, st.sent)
  }

  /** Nothing but documents of changes that RevsDiff has answered for is stored or on the way,
      and while no stage has failed, all of those are. */
  ghost predicate OnTheWay(w: World, st: State)
    requires st.sent <= |w.feed|
  {
    && w.initial <= st.target
    && Covered(w, st) <= w.initial + DocsBetween(w, 0, Asked(st))
    && (st.failures == [] ==> Covered(w, st) == w.initial + DocsBetween(w, 0, Asked(st)))
  }

  lemma {:induction false} FirstRev(id: string, revs: seq<string>)
    requires revs != []
    ensures IndividualDocs(id, revs) == {Document(id, revs[0])} + IndividualDocs(id, revs[1..])
  {
    assert revs == [revs[0]] + revs[1..];
  }

  lemma {:induction false} FirstDoc(docs: seq<Document>)
    requires docs != []
    ensures SeqDocs(docs) == {docs[0]} + SeqDocs(docs[1..])
  {
    assert docs == [docs[0]] + docs[1..];
  }

  lemma {:induction false} FirstRow(w: World, rows: seq<RevDiff>)
    requires rows != []
    ensures RowDocs(w, rows) == DocsOfRow(w, rows[0]) + RowDocs(w, rows[1..])
  {
    assert rows == [rows[0]] + rows[1..];
    forall d | d in RowDocs(w, rows)
      ensures d in DocsOfRow(w, rows[0]) + RowDocs(w, rows[1..])
    {
      var i :| 0 <= i < |rows| && d in DocsOfRow(w, rows[i]);
      if i > 0 {
        assert rows[1..][i - 1] == rows[i];
      }
    }
    forall d | d in RowDocs(w, rows[1..])
      ensures d in RowDocs(w, rows)
    {
      var i :| 0 <= i < |rows[1..]| && d in DocsOfRow(w, rows[1..][i]);
      assert rows[i + 1] == rows[1..][i];
    }
  }

  /** readDocs and storeDocs only move documents along, drop them with an error, or store them. */
  lemma {:induction false} DocsStepCovers(w: World, st: State, step: Step)
    requires Orderly(w, st) && Enabled(w, st, step) && step.ByDocs?
    ensures var st' := Apply(w, st, step);
            && Covered(w, st') <= Covered(w, st)
            && (st'.failures == [] ==> st.failures == [] && Covered(w, st') == Covered(w, st))
  {
    hide IsAnswer, RowDocs;
    var st' := Apply(w, st, step);
    DocsFrame(w, st, step);
    hide PendingDiffs;
    match step.r
    case OpenRevsRow | OpenRevsScanFail(_) => FirstDoc(st.r.docs);
    case GetOk | GetFail(_) => FirstRev(st.r.row.id, st.r.revs);
    case _ =>
  }

  lemma {:induction false} StoreStepCovers(w: World, st: State, step: Step)
    requires Enabled(w, st, step) && step.ByStore?
    ensures var st' := Apply(w, st, step);
            && st.target <= st'.target
            && Covered(w, st') <= Covered(w, st)
            && (st'.failures == [] ==> st.failures == [] && Covered(w, st') == Covered(w, st))
  {
    hide PendingDiffs, PendingDocs;
    StoreFrame(w, st, step);
  }

  lemma {:induction false} DiffsStepCovers(w: World, st: State, step: Step)
    requires Orderly(w, st) && Enabled(w, st, step) && step.ByDiffs? && !step.d.RevsDiffOk?
    ensures var st' := Apply(w, st, step);
            && Covered(w, st') <= Covered(w, st)
            && (st'.failures == [] ==> st.failures == [] && Covered(w, st') == Covered(w, st))
  {
    hide IsAnswer;
    var st' := Apply(w, st, step);
    DiffsFrame(w, st, step);
    match step.d
    case DiffRow => FirstRow(w, st.d.rows);
    case SendDiff => assert PendingDocs(w, st'.r) == DocsOfRow(w, st.d.row);
    case DiffsEnd => assert RowDocs(w, []) == {};
    case _ =>
  }

  lemma {:induction false} DocsBetweenHaveTheirIDs(w: World, lo: nat, hi: nat, d: Document) returns (i: nat)
    requires SourceAnswers(w) && hi <= |w.feed| && d in DocsBetween(w, lo, hi)
    ensures lo <= i < hi && d.id == w.feed[i].id
  {
    i :| lo <= i < hi && d in DocsOfRow(w, InitialDiff(w, w.feed[i]));
  }

  /** With distinct IDs, fetching documents of some changes leaves the revisions of any other
      change alone. */
  lemma {:induction false} OthersAreUntouched(w: World, n: nat, target: set<Document>, j: nat)
    requires DistinctIDs(w.feed) && SourceAnswers(w)
    requires n <= j < |w.feed|
    requires w.initial <= target <= w.initial + DocsBetween(w, 0, n)
    ensures RevsOf(target, w.feed[j].id) == RevsOf(w.initial, w.feed[j].id)
  {
    forall d | d in DocsBetween(w, 0, n)
      ensures d.id != w.feed[j].id
    {
      var i := DocsBetweenHaveTheirIDs(w, 0, n, d);
    }
    hide DocsBetween;
  }

  /** RevsDiff sees the initial revisions of every change it has not answered for. */
  lemma {:induction false} UnaskedIsInitial(w: World, st: State, j: nat)
    requires DistinctIDs(w.feed) && SourceAnswers(w)
    requires st.sent <= |w.feed| && OnTheWay(w, st)
    requires Asked(st) <= j < |w.feed|
    ensures RevsOf(st.target, w.feed[j].id) == RevsOf(w.initial, w.feed[j].id)
  {
    assert st.target <= Covered(w, st);
    OthersAreUntouched(w, Asked(st), st.target, j);
  }

  lemma {:induction false} PartIsDistinct(feed: seq<Change>, lo: nat, hi: nat)
    requires DistinctIDs(feed) && lo <= hi <= |feed|
    ensures DistinctIDs(feed[lo..hi])
  {
    forall i, j | 0 <= i < j < hi - lo
      ensures feed[lo..hi][i].id != feed[lo..hi][j].id
    {
      assert feed[lo + i].id != feed[lo + j].id;
    }
  }

  /** Whatever the order of RevsDiff's rows, they stand for the documents of its batch. */
  lemma {:induction false} AnswerCovers(w: World, target: set<Document>, lo: nat, hi: nat, rows: seq<RevDiff>)
    requires SourceAnswers(w) && DistinctIDs(w.feed)
    requires lo <= hi <= |w.feed|
    requires forall j :: lo <= j < hi ==> RevsOf(target, w.feed[j].id) == RevsOf(w.initial, w.feed[j].id)
    requires IsAnswer(w, target, RevMap(w.feed[lo..hi]), rows)
    ensures RowDocs(w, rows) == DocsBetween(w, lo, hi)
  {
    var batch := w.feed[lo..hi];
    hide RevsOf;
    PartIsDistinct(w.feed, lo, hi);
    forall d | d in RowDocs(w, rows)
      ensures d in DocsBetween(w, lo, hi)
    {
      var i :| 0 <= i < |rows| && d in DocsOfRow(w, rows[i]);
      var m := RevMapOnly(batch, rows[i].id);
      RevMapHas(batch, m);
      assert batch[m] == w.feed[lo + m];
      assert rows[i] == InitialDiff(w, w.feed[lo + m]);
    }
    forall d | d in DocsBetween(w, lo, hi)
      ensures d in RowDocs(w, rows)
    {
      var j :| lo <= j < hi && d in DocsOfRow(w, InitialDiff(w, w.feed[j]));
      RevMapHas(batch, j - lo);
      assert batch[j - lo] == w.feed[j];
      assert InitialDiff(w, w.feed[j]).missing != [];
      var i :| 0 <= i < |rows| && rows[i].id == w.feed[j].id;
      assert rows[i] == InitialDiff(w, w.feed[j]);
    }
  }

  lemma {:induction false} AnswerIsInitial(w: World, st: State, rows: seq<RevDiff>)
    requires DistinctIDs(w.feed) && SourceAnswers(w)
    requires Orderly(w, st) && st.sent <= |w.feed| && Batched(w, st) && OnTheWay(w, st)
    requires st.d.DCall? && IsAnswer(w, st.target, st.d.revMap, rows)
    ensures RD_BATCH_SIZE * |st.calls| == Asked(st) <= st.sent
    ensures RowDocs(w, rows) == DocsBetween(w, Asked(st), st.sent)
  {
    hide RowDocs, DocsBetween, OnTheWay, RevsOf, Orderly;
    var k, got := |st.calls|, st.sent;
    var lo := RD_BATCH_SIZE * k;
    assert Chunk(w.feed, k, got) == w.feed[lo..got];
    forall j | lo <= j < got
      ensures RevsOf(st.target, w.feed[j].id) == RevsOf(w.initial, w.feed[j].id)
    {
      UnaskedIsInitial(w, st, j);
    }
    AnswerCovers(w, st.target, lo, got, rows);
  }

  lemma {:induction false} DocsBetweenAdd(w: World, lo: nat, hi: nat)
    requires lo <= hi <= |w.feed|
    ensures DocsBetween(w, 0, hi) == DocsBetween(w, 0, lo) + DocsBetween(w, lo, hi)
  {
    hide DocsOfRow, InitialDiff;
  }

  lemma {:induction false} RevsDiffCovers(w: World, st: State, step: Step)
    requires DistinctIDs(w.feed) && SourceAnswers(w)
    requires Orderly(w, st) && st.sent <= |w.feed| && Batched(w, st) && OnTheWay(w, st)
    requires step.ByDiffs? && step.d.RevsDiffOk? && Enabled(w, st, step)
    ensures Apply(w, st, step).sent <= |w.feed| && OnTheWay(w, Apply(w, st, step))
  {
    hide RowDocs, IsAnswer, DocsBetween, DocsOfRow, Orderly, Batched;
    var st' := Apply(w, st, step);
    AnswerIsInitial(w, st, step.d.rows) by {
      hide OnTheWay;
    }
    DocsBetweenAdd(w, Asked(st), st.sent);
    assert Asked(st') == st.sent by {
      AskedAfterCall(w, st, step);
    }
    assert Covered(w, st') == Covered(w, st) + RowDocs(w, step.d.rows);
  }

  lemma {:induction false} AskedAfterCall(w: World, st: State, step: Step)
    requires Orderly(w, st) && Batched(w, st) && step.ByDiffs? && step.d.RevsDiffOk? && Enabled(w, st, step)
    ensures Asked(Apply(w, st, step)) == st.sent
  {
    hide IsAnswer, Orderly, RevMap;
  }

  lemma {:induction false} ChangesStepCovers(w: World, st: State, step: Step)
    requires Orderly(w, st) && Batched(w, st) && OnTheWay(w, st)
    requires step.ByChanges? && Enabled(w, st, step)
    ensures Apply(w, st, step).sent <= |w.feed| && OnTheWay(w, Apply(w, st, step))
  {
    hide IsAnswer, RevMap, RowDocs, DocsBetween, DocsOfRow;
    var st' := Apply(w, st, step);
    assert PendingDiffs(w, st'.d) == PendingDiffs(w, st.d) && st'.r == st.r && st'.s == st.s && st'.target == st.target;
    assert Asked(st') == Asked(st);
    if st'.failures == [] {
      assert st.failures == [];
    }
  }

  lemma {:induction false} OnTheWayStep(w: World, st: State, step: Step)
    requires DistinctIDs(w.feed) && SourceAnswers(w)
    requires Orderly(w, st) && st.sent <= |w.feed| && Batched(w, st) && OnTheWay(w, st) && Enabled(w, st, step)
    ensures Apply(w, st, step).sent <= |w.feed| && OnTheWay(w, Apply(w, st, step))
  {
    hide Batched, Orderly, OnTheWay, Apply;
    match step
    case ByChanges(_) => ChangesStepCovers(w, st, step);
    case ByDiffs(RevsDiffOk(_)) => RevsDiffCovers(w, st, step);
    case _ => OnTheWayElsewhere(w, st, step);
  }

  lemma {:induction false} GroupStepCovers(w: World, st: State, step: Step)
    requires Enabled(w, st, step) && (step.Record? || step.CancelParent?)
    ensures Covered(w, Apply(w, st, step)) == Covered(w, st) && Apply(w, st, step).failures == st.failures
  {
    GroupFrame(w, st, step);
    hide Enabled, Apply;
  }

  /** No change is received, and RevsDiff answers no call. */
  lemma {:induction false} OnTheWayElsewhere(w: World, st: State, step: Step)
    requires Orderly(w, st) && st.sent <= |w.feed| && OnTheWay(w, st) && Enabled(w, st, step)
    requires !step.ByChanges? && !(step.ByDiffs? && step.d.RevsDiffOk?)
    ensures Apply(w, st, step).sent <= |w.feed| && OnTheWay(w, Apply(w, st, step))
  {
    var st' := Apply(w, st, step);
    hide Orderly, Covered, DocsBetween, Enabled, Apply;
    match step
    case ByDiffs(_) =>
      DiffsFrame(w, st, step);
      DiffsLeaveCalls(w, st, step);
      DiffsStepCovers(w, st, step);
    case ByDocs(_) =>
      DocsFrame(w, st, step);
      DocsStepCovers(w, st, step);
    case ByStore(_) =>
      StoreFrame(w, st, step);
      StoreStepCovers(w, st, step);
    case _ =>
      GroupFrame(w, st, step);
      GroupStepCovers(w, st, step);
  }

  lemma {:induction false} ReachableIsOnTheWay(w: World, run: seq<State>)
    requires DistinctIDs(w.feed) && SourceAnswers(w) && Run(w, run)
    ensures Last(run).sent <= |w.feed| && OnTheWay(w, Last(run))
    decreases |run|
  {
    if |run| > 1 {
      var before := run[..|run| - 1];
      assert Run(w, before);
      ReachableIsOnTheWay(w, before);
      ReachableIsOrderly(w, before);
      ReachableIsBatched(w, before);
      assert Next(w, run[|run| - 2], run[|run| - 1]);
      var step :| Enabled(w, Last(before), step) && Last(run) == Apply(w, Last(before), step);
      OnTheWayStep(w, Last(before), step);
    }
  }

  // ---------------------------------------------------------------------------
  // Safety, completeness and confluence
  // ---------------------------------------------------------------------------

  /** At every moment of every run, failing or not, the target has lost nothing and holds nothing
      but documents that a successful replication would have stored. */
  lemma {:induction false} TargetIsAlwaysBetween(w: World, run: seq<State>)
    requires DistinctIDs(w.feed) && SourceAnswers(w) && Run(w, run)
    ensures w.initial <= Last(run).target <= FinalTarget(w)
  {
    ReachableIsOnTheWay(w, run);
    var st := Last(run);
    assert st.target <= Covered(w, st);
    assert DocsBetween(w, 0, Asked(st)) <= DocsBetween(w, 0, |w.feed|);
  }

  /** A run that ends without error has stored everything. */
  lemma {:induction false} SuccessIsComplete(w: World, run: seq<State>)
    requires DistinctIDs(w.feed) && SourceAnswers(w)
    requires Run(w, run) && Finished(Last(run)) && Last(run).group.None?
    ensures Last(run).target == FinalTarget(w)
  {
    var st := Last(run);
    ReachableIsOnTheWay(w, run);
    ReachableIsBatched(w, run);
    NoErrorMeansAllEnded(w, run);
    hide Run, RevMap;
    assert Asked(st) == |w.feed|;
    assert Covered(w, st) == st.target;
  }

  /** Any two runs that end without error, however their goroutines were interleaved and in
      whatever order RevsDiff delivered its rows, leave the same target. */
  lemma {:induction false} Confluence(w: World, run: seq<State>, run': seq<State>)
    requires DistinctIDs(w.feed) && SourceAnswers(w)
    requires Run(w, run) && Finished(Last(run)) && Last(run).group.None?
    requires Run(w, run') && Finished(Last(run')) && Last(run').group.None?
    ensures Last(run).target == Last(run').target
  {
    SuccessIsComplete(w, run);
    SuccessIsComplete(w, run');
  }

  // ---------------------------------------------------------------------------
  // The sequential loop
  // ---------------------------------------------------------------------------

  /** Replication without goroutines, channels or batches: diff, fetch and store one change after
      the other, each diff seeing what has been stored so far. */
  ghost function Sequential(w: World, target: set<Document>, feed: seq<Change>): set<Document>
    decreases |feed|
  {
    if feed == [] then target
    else
      var c := feed[0];
      var row := RevDiff(c.id, w.revsDiff(c.id, c.revs, RevsOf(target, c.id)));
      Sequential(w, target + DocsOfRow(w, row), feed[1..])
  }

  lemma {:induction false} SequentialFrom(w: World, target: set<Document>, n: nat)
    requires DistinctIDs(w.feed) && SourceAnswers(w) && n <= |w.feed|
    requires target == w.initial + DocsBetween(w, 0, n)
    ensures Sequential(w, target, w.feed[n..]) == FinalTarget(w)
    decreases |w.feed| - n
  {
    if n < |w.feed| {
      var c := w.feed[n];
      OthersAreUntouched(w, n, target, n);
      var target' := target + DocsOfRow(w, InitialDiff(w, c));
      assert DocsBetween(w, 0, n + 1) == DocsBetween(w, 0, n) + DocsOfRow(w, InitialDiff(w, c));
      assert w.feed[n..][1..] == w.feed[n + 1..];
      SequentialFrom(w, target', n + 1);
    }
  }

  /** The concurrent pipeline refines the sequential loop: without error it leaves the target
      that the loop leaves. */
  lemma {:induction false} PipelineRefinesSequentialLoop(w: World, run: seq<State>)
    requires DistinctIDs(w.feed) && SourceAnswers(w)
    requires Run(w, run) && Finished(Last(run)) && Last(run).group.None?
    ensures Last(run).target == Sequential(w, w.initial, w.feed)
  {
    SuccessIsComplete(w, run);
    assert w.initial == w.initial + DocsBetween(w, 0, 0);
    SequentialFrom(w, w.initial, 0);
    assert w.feed[0..] == w.feed;
  }

  /** RevsDiff of the replication protocol: the revisions asked about that the target lacks. */
  ghost predicate ProtocolRevsDiff(w: World) {
    forall id, revs, have, rev :: rev in w.revsDiff(id, revs, have) <==> rev in revs && rev !in have
  }

  /** With a source that has no OpenRevs, a run that ends without error leaves in the target what
      was there and every revision of the feed, and nothing else. */
  lemma {:induction false} EveryRevisionIsReplicated(w: World, run: seq<State>)
    requires DistinctIDs(w.feed) && SourceAnswers(w) && !w.openRevsSupported && ProtocolRevsDiff(w)
    requires Run(w, run) && Finished(Last(run)) && Last(run).group.None?
    ensures forall d :: d in Last(run).target <==>
              d in w.initial || exists i :: 0 <= i < |w.feed| && d.id == w.feed[i].id && d.rev in w.feed[i].revs
  {
    SuccessIsComplete(w, run);
    forall d
      ensures d in FinalTarget(w) <==>
              d in w.initial || exists i :: 0 <= i < |w.feed| && d.id == w.feed[i].id && d.rev in w.feed[i].revs
    {
      if i :| 0 <= i < |w.feed| && d.id == w.feed[i].id && d.rev in w.feed[i].revs {
        if d !in w.initial {
          assert d.rev !in RevsOf(w.initial, d.id);
          assert d == Document(w.feed[i].id, d.rev);
          assert d in DocsOfRow(w, InitialDiff(w, w.feed[i]));
        }
      }
    }
  }
}
