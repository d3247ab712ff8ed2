/** The batches of changes that readDiffs hands to RevsDiff. */
module ReplicationBatches {
  import opened Replication
  import opened ReplicationLifecycle

  predicate DistinctIDs(feed: seq<Change>) {
    forall i, j :: 0 <= i < j < |feed| ==> feed[i].id != feed[j].id
  }

  /** The map that collecting these changes one after the other gives. */
  function RevMap(changes: seq<Change>): map<string, seq<string>>
    decreases |changes|
  {
    if changes == [] then map[]
    else var n := |changes| - 1; RevMap(changes[..n])[changes[n].id := changes[n].revs]
  }

  /** A batch of distinct IDs maps each ID to its own revisions. */
  lemma {:induction false} RevMapHas(changes: seq<Change>, i: nat)
    requires DistinctIDs(changes) && i < |changes|
    ensures changes[i].id in RevMap(changes) && RevMap(changes)[changes[i].id] == changes[i].revs
    decreases |changes|
  {
    var n := |changes| - 1;
    if i < n {
      assert changes[..n][i] == changes[i];
      RevMapHas(changes[..n], i);
    }
  }

  /** A batch maps no other ID. */
  lemma {:induction false} RevMapOnly(changes: seq<Change>, id: string) returns (i: nat)
    requires id in RevMap(changes)
    ensures i < |changes| && changes[i].id == id
    decreases |changes|
  {
    var n := |changes| - 1;
    if changes[n].id == id {
      i := n;
    } else {
      i := RevMapOnly(changes[..n], id);
    }
  }

  lemma {:induction false} RevMapSize(changes: seq<Change>)
    requires DistinctIDs(changes)
    ensures |RevMap(changes)| == |changes|
    decreases |changes|
  {
    if changes != [] {
      var n := |changes| - 1;
      RevMapSize(changes[..n]);
      if changes[n].id in RevMap(changes[..n]) {
        var i := RevMapOnly(changes[..n], changes[n].id);
        assert false;
      }
    }
  }

  function Min(a: nat, b: nat): nat { if a <= b then a else b }

  /** The `j`-th group of ten among the first `upto` changes; the last may be smaller. */
  function Chunk(feed: seq<Change>, j: nat, upto: nat): seq<Change>
    requires upto <= |feed|
  {
    feed[Min(RD_BATCH_SIZE * j, upto)..Min(RD_BATCH_SIZE * (j + 1), upto)]
  }

  ghost predicate Batched(w: World, st: State)
    requires st.sent <= |w.feed|
  {
    var k, got := |st.calls|, st.sent;
    && (forall j :: 0 <= j < k ==> st.calls[j] == RevMap(Chunk(w.feed, j, got)) && RD_BATCH_SIZE * j < got)
    && (got < RD_BATCH_SIZE * k ==> ChangesClosed(st))
    && match st.d
       case DCollect(m) => m == RevMap(Chunk(w.feed, k, got)) && got < RD_BATCH_SIZE * (k + 1)
       case DCall(m) =>
         && m == RevMap(Chunk(w.feed, k, got))
         && RD_BATCH_SIZE * k < got <= RD_BATCH_SIZE * (k + 1)
         && (got < RD_BATCH_SIZE * (k + 1) ==> ChangesClosed(st))
       case DRows(_) | DSend(_, _) => got <= RD_BATCH_SIZE * k
       case DExit(Ok) | DDone(Ok) => got <= RD_BATCH_SIZE * k && ChangesClosed(st)
       case _ => true
  }

  lemma {:induction false} ChunkIsDistinct(feed: seq<Change>, j: nat, upto: nat)
    requires DistinctIDs(feed) && upto <= |feed|
    ensures DistinctIDs(Chunk(feed, j, upto))
  {
  }

  lemma {:induction false} ChunkGrows(feed: seq<Change>, j: nat, upto: nat)
    requires RD_BATCH_SIZE * j <= upto < RD_BATCH_SIZE * (j + 1) && upto < |feed|
    ensures Chunk(feed, j, upto + 1) == Chunk(feed, j, upto) + [feed[upto]]
  {
  }

  lemma {:induction false} FullChunk(feed: seq<Change>, j: nat, upto: nat)
    requires RD_BATCH_SIZE * (j + 1) <= upto < |feed|
    ensures Chunk(feed, j, upto + 1) == Chunk(feed, j, upto)
  {
  }

  /** Receiving one more change leaves the batches handed over as they were. */
  lemma {:induction false} BatchedReceive(w: World, st: State, step: Step)
    requires DistinctIDs(w.feed) && Orderly(w, st) && Batched(w, st)
    requires step == ByChanges(SendChange) && Enabled(w, st, step)
    ensures Batched(w, Apply(w, st, step))
  {
    hide RevMap, Chunk;
    var st' := Apply(w, st, step);
    var k, got := |st.calls|, st.sent;
    assert got < |w.feed| && st.c.change == w.feed[got];
    hide Orderly;
    FullChunksStay(w, st);
    NextChunk(w.feed, k, got);
  }

  lemma {:induction false} FullChunksStay(w: World, st: State)
    requires st.sent < |w.feed| && Batched(w, st) && st.d.DCollect? && !ChangesClosed(st)
    ensures forall j :: 0 <= j < |st.calls| ==> Chunk(w.feed, j, st.sent + 1) == Chunk(w.feed, j, st.sent)
  {
    hide RevMap;
    forall j | 0 <= j < |st.calls|
      ensures Chunk(w.feed, j, st.sent + 1) == Chunk(w.feed, j, st.sent)
    {
      FullChunk(w.feed, j, st.sent);
    }
  }

  /** The batch being collected grows by the change received. */
  lemma {:induction false} NextChunk(feed: seq<Change>, k: nat, got: nat)
    requires DistinctIDs(feed) && RD_BATCH_SIZE * k <= got < |feed| && got < RD_BATCH_SIZE * (k + 1)
    ensures var m := RevMap(Chunk(feed, k, got))[feed[got].id := feed[got].revs];
            m == RevMap(Chunk(feed, k, got + 1)) && |m| == got + 1 - RD_BATCH_SIZE * k
  {
    hide RevMap;
    ChunkGrows(feed, k, got);
    RevMapGrows(Chunk(feed, k, got), feed[got]);
    ChunkIsDistinct(feed, k, got + 1);
    RevMapSize(Chunk(feed, k, got + 1));
  }

  lemma {:induction false} RevMapGrows(changes: seq<Change>, change: Change)
    ensures RevMap(changes + [change]) == RevMap(changes)[change.id := change.revs]
  {
    assert (changes + [change])[..|changes|] == changes;
  }

  /** RevsDiff is called with the batch collected. */
  lemma {:induction false} BatchedCall(w: World, st: State, step: Step)
    requires st.sent <= |w.feed| && Batched(w, st) && Enabled(w, st, step) && step.ByDiffs? && step.d.RevsDiffOk?
    ensures Apply(w, st, step).sent == st.sent && Batched(w, Apply(w, st, step))
  {
    hide RevMap, IsAnswer;
    var st' := Apply(w, st, step);
    assert st'.sent == st.sent && st'.c == st.c && st'.calls == st.calls + [st.d.revMap];
  }

  /** The batch is handed over when the changes end, and a new one is begun behind the last row. */
  lemma {:induction false} BatchedDiffs(w: World, st: State, step: Step)
    requires DistinctIDs(w.feed) && st.sent <= |w.feed| && Batched(w, st) && Enabled(w, st, step)
    requires step.ByDiffs? && !step.d.RevsDiffOk?
    ensures Apply(w, st, step).sent == st.sent && Batched(w, Apply(w, st, step))
  {
    hide RevMap, IsAnswer;
    DiffsFrame(w, st, step);
    DiffsLeaveCalls(w, st, step);
    var k, got := |st.calls|, st.sent;
    match step.d
    case CollectClosed =>
      ChunkIsDistinct(w.feed, k, got);
      RevMapSize(Chunk(w.feed, k, got));
    case DiffsEnd =>
      assert Chunk(w.feed, k, got) == [];
      EmptyRevMap();
    case _ =>
  }

  lemma {:induction false} DiffsLeaveCalls(w: World, st: State, step: Step)
    requires Enabled(w, st, step) && step.ByDiffs? && !step.d.RevsDiffOk?
    ensures Apply(w, st, step).calls == st.calls
  {
  }

  /** The other steps touch neither the batch nor the calls, and never reopen the channel. */
  lemma {:induction false} BatchedFrame(w: World, st: State, st': State)
    requires st.sent <= |w.feed| && Batched(w, st)
    requires st'.d == st.d && st'.calls == st.calls && st'.sent == st.sent
    requires ChangesClosed(st) ==> ChangesClosed(st')
    ensures Batched(w, st')
  {
    hide RevMap;
  }

  /** Recording an outcome leaves the channel as it is. */
  lemma {:induction false} BatchedRecord(w: World, st: State, step: Step)
    requires Orderly(w, st) && Batched(w, st) && Enabled(w, st, step) && (step.Record? || step.CancelParent?)
    ensures Batched(w, Apply(w, st, step))
  {
    hide RevMap, Orderly;
    GroupFrame(w, st, step);
    hide Enabled, Apply;
  }

  lemma {:induction false} BatchedStep(w: World, st: State, step: Step)
    requires DistinctIDs(w.feed) && Orderly(w, st) && Batched(w, st) && Enabled(w, st, step)
    ensures Apply(w, st, step).sent <= |w.feed| && Batched(w, Apply(w, st, step))
  {
    hide Batched, IsAnswer;
    OrderlyStep(w, st, step);
    match step
    case ByDiffs(RevsDiffOk(_)) => BatchedCall(w, st, step);
    case ByDiffs(_) => BatchedDiffs(w, st, step);
    case ByChanges(SendChange) => BatchedReceive(w, st, step);
    case ByChanges(_) =>
      ChangesFrame(w, st, step);
      BatchedFrame(w, st, Apply(w, st, step));
    case ByDocs(_) =>
      DocsFrame(w, st, step);
      BatchedFrame(w, st, Apply(w, st, step));
    case ByStore(_) =>
      StoreFrame(w, st, step);
      BatchedFrame(w, st, Apply(w, st, step));
    case _ =>
      GroupFrame(w, st, step);
      BatchedRecord(w, st, step);
  }

  lemma {:induction false} EmptyRevMap()
    ensures RevMap([]) == map[]
  {
  }

  lemma {:induction false} ReachableIsBatched(w: World, run: seq<State>)
    requires DistinctIDs(w.feed) && Run(w, run)
    ensures Last(run).sent <= |w.feed| && Batched(w, Last(run))
    decreases |run|
  {
    if |run| == 1 {
      assert Chunk(w.feed, 0, 0) == [];
    } else {
      var before := run[..|run| - 1];
      assert Run(w, before);
      ReachableIsBatched(w, before);
      ReachableIsOrderly(w, before);
      assert Next(w, run[|run| - 2], run[|run| - 1]);
      var step :| Enabled(w, Last(before), step) && Last(run) == Apply(w, Last(before), step);
      BatchedStep(w, Last(before), step);
    }
  }

  /** For a feed of distinct IDs, the RevsDiff calls of a run that ends without error receive the
      feed in consecutive groups of exactly ten, with only the last one smaller and none empty. */
  lemma {:induction false} BatchesPartitionTheFeed(w: World, run: seq<State>)
    requires DistinctIDs(w.feed) && Run(w, run) && Finished(Last(run)) && Last(run).group.None?
    ensures var calls := Last(run).calls;
            && |w.feed| <= 10 * |calls| < |w.feed| + 10
            && (forall j :: 0 <= j < |calls| ==>
                  var group := w.feed[10 * j..Min(10 * (j + 1), |w.feed|)];
                  && calls[j] == RevMap(group)
                  && |calls[j]| == |group| > 0
                  && (forall i :: 0 <= i < |group| ==> group[i].id in calls[j] && calls[j][group[i].id] == group[i].revs))
  {
    var st := Last(run);
    var calls := st.calls;
    ReachableIsBatched(w, run);
    NoErrorMeansAllEnded(w, run);
    hide Run;
    if |calls| > 0 {
      assert st.calls[|calls| - 1] == RevMap(Chunk(w.feed, |calls| - 1, st.sent));
    }
    forall j | 0 <= j < |calls|
      ensures var group := w.feed[RD_BATCH_SIZE * j..Min(RD_BATCH_SIZE * (j + 1), |w.feed|)];
              && calls[j] == RevMap(group) && |calls[j]| == |group| > 0
              && (forall i :: 0 <= i < |group| ==> group[i].id in calls[j] && calls[j][group[i].id] == group[i].revs)
    {
      ChunkIsDistinct(w.feed, j, |w.feed|);
      var group := Chunk(w.feed, j, |w.feed|);
      RevMapSize(group);
      forall i | 0 <= i < |group|
        ensures group[i].id in RevMap(group) && RevMap(group)[group[i].id] == group[i].revs
      {
        RevMapHas(group, i);
      }
    }
  }

  // ---------------------------------------------------------------------------
  // Any feed, with repeated IDs or not
  // ---------------------------------------------------------------------------

  /** readDiffs has asked about fewer than ten IDs at once, so there is nothing more to come. */
  predicate AskedForFewer(st: State) {
    st.calls != [] && |st.calls[|st.calls| - 1]| < 10
  }

  /** No call is empty or has more than ten IDs, and one with fewer is the last. */
  predicate Filled(st: State) {
    && (forall j :: 0 <= j < |st.calls| ==> 0 < |st.calls[j]| <= 10)
    && (forall j :: 0 <= j < |st.calls| - 1 ==> |st.calls[j]| == 10)
    && (AskedForFewer(st) ==> ChangesClosed(st) && !st.d.DCall? && (st.d.DCollect? ==> st.d.revMap == map[]))
    && (st.d.DCollect? ==> |st.d.revMap| < 10)
    && (st.d.DCall? ==> 0 < |st.d.revMap| <= 10 && (|st.d.revMap| < 10 ==> ChangesClosed(st)))
  }

  lemma {:induction false} OneMoreKey(m: map<string, seq<string>>, id: string, revs: seq<string>)
    ensures 0 < |m[id := revs]| <= |m| + 1
  {
    var m' := m[id := revs];
    assert m'.Keys == m.Keys + {id};
    assert id in m';
    assert |m'| == |m'.Keys| && |m| == |m.Keys|;
  }

  lemma {:induction false} FilledByChanges(w: World, st: State, step: Step)
    requires Filled(st) && Enabled(w, st, step) && step.ByChanges?
    ensures Filled(Apply(w, st, step))
  {
    ChangesFrame(w, st, step);
    if step.c.SendChange? {
      OneMoreKey(st.d.revMap, st.c.change.id, st.c.change.revs);
    }
  }

  lemma {:induction false} FilledByDiffs(w: World, st: State, step: Step)
    requires Filled(st) && Enabled(w, st, step) && step.ByDiffs?
    ensures Filled(Apply(w, st, step))
  {
    hide IsAnswer;
    if step.d.RevsDiffOk? {
      FilledByCall(w, st, step);
    } else {
      assert Apply(w, st, step).calls == st.calls && Apply(w, st, step).c == st.c;
      match step.d
      case CollectClosed =>
      case _ =>
    }
  }

  lemma {:induction false} FilledByCall(w: World, st: State, step: Step)
    requires Filled(st) && Enabled(w, st, step) && step.ByDiffs? && step.d.RevsDiffOk?
    ensures Filled(Apply(w, st, step))
  {
    hide IsAnswer;
    var st' := Apply(w, st, step);
    assert st'.calls[..|st.calls|] == st.calls;
  }

  lemma {:induction false} FilledElsewhere(w: World, st: State, step: Step)
    requires Filled(st) && Enabled(w, st, step) && !step.ByChanges? && !step.ByDiffs?
    ensures Filled(Apply(w, st, step))
  {
    hide Enabled, Apply;
    match step
    case ByDocs(_) => DocsFrame(w, st, step);
    case ByStore(_) => StoreFrame(w, st, step);
    case _ => GroupFrame(w, st, step);
  }

  /** In every reachable state, whatever the feed: no RevsDiff call has been empty or asked about
      more than ten IDs, and all but the last have asked about exactly ten. */
  lemma {:induction false} CallsAreTens(w: World, run: seq<State>)
    requires Run(w, run)
    ensures Filled(Last(run))
    decreases |run|
  {
    if |run| > 1 {
      hide Enabled, Apply, Filled;
      var before := run[..|run| - 1];
      assert Run(w, before);
      CallsAreTens(w, before);
      assert Next(w, run[|run| - 2], run[|run| - 1]);
      var step :| Enabled(w, Last(before), step) && Last(run) == Apply(w, Last(before), step);
      match step
      case ByChanges(_) => FilledByChanges(w, Last(before), step);
      case ByDiffs(_) => FilledByDiffs(w, Last(before), step);
      case _ => FilledElsewhere(w, Last(before), step);
    }
  }
}
