/** What every run of client and database queries keeps: the counts, who may close a driver,
    and that nothing blocks for ever. */
module QueryLifetimeLaws {
  import opened QueryLifetimes
  import opened Wrappers

  // ---------------------------------------------------------------------------
  // Counting queries
  // ---------------------------------------------------------------------------

  /** Queries that the client counts; that DB i counts; that any DB counts. */
  datatype Counter = ByClient | ByDb(i: nat) | ByAnyDb

  predicate CountsHeld(w: Counter, on: Target) {
    match w case ByClient => true case ByDb(i) => on == OnDb(i) case ByAnyDb => on.OnDb?
  }

  function CountHeld(held: seq<Target>, w: Counter): nat {
    if held == [] then 0 else (if CountsHeld(w, held[0]) then 1 else 0) + CountHeld(held[1..], w)
  }

  /** The query that is being started or ended. */
  function CountPC(pc: PC, w: Counter): nat {
    match pc
    case Counted(_) | EndDone(_) | EndBoth(_) | EndWantClient | EndHasClient => if w.ByClient? then 1 else 0
    case EndWantDb(i) => if CountsHeld(w, OnDb(i)) then 1 else 0
    case EndHasDb(i) => if CountsHeld(w, OnDb(i)) then 1 else 0
    case _ => 0
  }

  function Count(g: Goroutine, w: Counter): nat {
    CountPC(g.pc, w) + CountHeld(g.held, w)
  }

  function Sum(gs: seq<Goroutine>, w: Counter): nat {
    if gs == [] then 0 else Count(gs[0], w) + Sum(gs[1..], w)
  }

  function SumWg(dbs: seq<Lifetime>): int {
    if dbs == [] then 0 else dbs[0].wg + SumWg(dbs[1..])
  }

  lemma {:induction false} CountHeldConcat(a: seq<Target>, b: seq<Target>, w: Counter)
    ensures CountHeld(a + b, w) == CountHeld(a, w) + CountHeld(b, w)
  {
    if a == [] {
      assert a + b == b;
    } else {
      assert (a + b)[1..] == a[1..] + b;
      CountHeldConcat(a[1..], b, w);
    }
  }

  lemma {:induction false} SumUpdate(gs: seq<Goroutine>, t: nat, g: Goroutine, w: Counter)
    requires t < |gs|
    ensures Sum(gs[t := g], w) == Sum(gs, w) - Count(gs[t], w) + Count(g, w)
  {
    if t == 0 {
      assert gs[t := g][1..] == gs[1..];
    } else {
      assert gs[t := g][1..] == gs[1..][t - 1 := g];
      SumUpdate(gs[1..], t - 1, g, w);
    }
  }

  lemma {:induction false} SumWgUpdate(dbs: seq<Lifetime>, i: nat, l: Lifetime)
    requires i < |dbs|
    ensures SumWg(dbs[i := l]) == SumWg(dbs) - dbs[i].wg + l.wg
  {
    if i == 0 {
      assert dbs[i := l][1..] == dbs[1..];
    } else {
      assert dbs[i := l][1..] == dbs[1..][i - 1 := l];
      SumWgUpdate(dbs[1..], i - 1, l);
    }
  }

  /** A positive sum has a positive part. */
  lemma {:induction false} SumWitness(gs: seq<Goroutine>, w: Counter) returns (t: nat)
    requires Sum(gs, w) > 0
    ensures t < |gs| && Count(gs[t], w) > 0
  {
    if Count(gs[0], w) > 0 {
      t := 0;
    } else {
      t := SumWitness(gs[1..], w);
      t := t + 1;
    }
  }

  lemma {:induction false} SumBounds(gs: seq<Goroutine>, t: nat, w: Counter)
    requires t < |gs|
    ensures Count(gs[t], w) <= Sum(gs, w)
  {
    if t > 0 {
      SumBounds(gs[1..], t - 1, w);
    }
  }

  /** The client counts every query that a DB counts. */
  lemma {:induction false} ClientCountsAll(gs: seq<Goroutine>)
    ensures Sum(gs, ByAnyDb) <= Sum(gs, ByClient)
  {
    if gs != [] {
      ClientCountsHeld(gs[0].held);
      ClientCountsAll(gs[1..]);
    }
  }

  lemma {:induction false} ClientCountsHeld(held: seq<Target>)
    ensures CountHeld(held, ByAnyDb) <= CountHeld(held, ByClient) == |held|
  {
    if held != [] {
      ClientCountsHeld(held[1..]);
    }
  }

  // ---------------------------------------------------------------------------
  // The invariant
  // ---------------------------------------------------------------------------

  /** The goroutine holds the mutex of `on`. */
  predicate HoldsMu(pc: PC, on: Target) {
    match pc
    case HasDb(i) => on == OnDb(i)
    case Counted(i) => on == OnDb(i)
    case EndHasDb(i) => on == OnDb(i)
    case EndDone(i) => on == OnDb(i)
    case EndUnlock(i) => on == OnDb(i)
    case HasBoth(i) => on == OnDb(i) || on == OnClient
    case EndBoth(i) => on == OnDb(i) || on == OnClient
    case HasClient | EndHasClient => on == OnClient
    case CloseHas(x) => on == x
    case _ => false
  }

  /** Exactly the holder holds the mutex, and nobody is past the check of a closed DB or client. */
  predicate Locked(st: State, on: Target)
    requires Exists(st, on)
  {
    && (forall t :: 0 <= t < |st.gs| ==> (HoldsMu(st.gs[t].pc, on) <==> Of(st, on).mu == Some(t)))
    && (Of(st, on).mu.Some? ==> Of(st, on).mu.value < |st.gs|)
    && (Of(st, on).closed ==> forall t :: 0 <= t < |st.gs| ==> !Checked(st.gs[t].pc, on))
  }

  /** Past the check `if db.closed`, with the mutex still held. */
  predicate Checked(pc: PC, on: Target) {
    match pc
    case HasDb(i) => on == OnDb(i)
    case HasBoth(i) => on == OnDb(i)
    case Counted(i) => on == OnDb(i)
    case _ => false
  }

  /** The counts are right: each of the client and the DBs counts its outstanding queries. */
  predicate CountsAreRight(st: State) {
    && st.client.wg == Sum(st.gs, ByClient)
    && (forall i :: 0 <= i < |st.dbs| ==> st.dbs[i].wg == Sum(st.gs, ByDb(i)))
    && SumWg(st.dbs) == Sum(st.gs, ByAnyDb)
  }

  predicate IsClose(pc: PC) {
    pc.CloseWant? || pc.CloseHas? || pc.CloseWait?
  }

  /** Whoever is in Close waits only after setting `closed`; a driver is closed only when the
      count has come down to zero after that. */
  ghost predicate ClosersAreRight(st: State)
    requires WellFormed(st)
  {
    && (forall t :: 0 <= t < |st.gs| && st.gs[t].pc.CloseWait? ==> Of(st, Subject(st.gs[t].pc)).closed)
    && (forall on: Target {:trigger Of(st, on)} :: Exists(st, on) && Of(st, on).driverCloses > 0 ==>
          Of(st, on).closed && Of(st, on).wg == 0)
  }

  ghost predicate LocksAreRight(st: State) {
    forall on: Target {:trigger Locked(st, on)} :: Exists(st, on) ==> Locked(st, on)
  }

  ghost predicate Inv(st: State) {
    WellFormed(st) && LocksAreRight(st) && CountsAreRight(st) && ClosersAreRight(st)
  }

  // ---------------------------------------------------------------------------
  // Every step keeps the invariant
  // ---------------------------------------------------------------------------

  predicate GoodGoroutine(st: State, g: Goroutine) {
    Exists(st, Subject(g.pc)) && forall k :: 0 <= k < |g.held| ==> Exists(st, g.held[k])
  }

  /** Only goroutine `t` moves, and what it refers to exists. */
  predicate Framed(st: State, st': State, t: nat) {
    && |st.dbs| == |st'.dbs| && t < |st.gs| == |st'.gs|
    && st'.gs == st.gs[t := st'.gs[t]]
    && GoodGoroutine(st, st'.gs[t])
  }

  lemma {:induction false} FramedKeepsWellFormed(st: State, st': State, t: nat)
    requires WellFormed(st) && Framed(st, st', t)
    ensures WellFormed(st')
  {
    forall u | 0 <= u < |st'.gs|
      ensures GoodGoroutine(st', st'.gs[u])
    {
      assert GoodGoroutine(st, if u == t then st'.gs[t] else st.gs[u]);
    }
  }

  /** A step changes the counts of the client, of each DB and of all DBs by what it changes
      about the queries of the goroutine that takes it. */
  predicate CountsMoveTogether(st: State, st': State, t: nat)
    requires t < |st.gs| == |st'.gs| && |st.dbs| == |st'.dbs|
  {
    && st'.client.wg - st.client.wg == Count(st'.gs[t], ByClient) - Count(st.gs[t], ByClient)
    && (forall i :: 0 <= i < |st.dbs| ==>
          st'.dbs[i].wg - st.dbs[i].wg == Count(st'.gs[t], ByDb(i)) - Count(st.gs[t], ByDb(i)))
    && SumWg(st'.dbs) - SumWg(st.dbs) == Count(st'.gs[t], ByAnyDb) - Count(st.gs[t], ByAnyDb)
  }

  lemma {:induction false} CountsStayRight(st: State, st': State, t: nat)
    requires CountsAreRight(st) && t < |st.gs| == |st'.gs| && |st.dbs| == |st'.dbs|
    requires st'.gs == st.gs[t := st'.gs[t]] && CountsMoveTogether(st, st', t)
    ensures CountsAreRight(st')
  {
    hide Count;
    SumUpdate(st.gs, t, st'.gs[t], ByClient);
    SumUpdate(st.gs, t, st'.gs[t], ByAnyDb);
    forall i | 0 <= i < |st.dbs|
      ensures st'.dbs[i].wg == Sum(st'.gs, ByDb(i))
    {
      SumUpdate(st.gs, t, st'.gs[t], ByDb(i));
    }
  }

  /** The held queries of the goroutine, with one more. */
  lemma {:induction false} CountGained(held: seq<Target>, on: Target, w: Counter)
    ensures CountHeld(held + [on], w) == CountHeld(held, w) + (if CountsHeld(w, on) then 1 else 0)
  {
    CountHeldConcat(held, [on], w);
    assert [on][1..] == [];
  }

  lemma {:induction false} CountDropped(held: seq<Target>, k: nat, w: Counter)
    requires k < |held|
    ensures CountHeld(held[..k] + held[k + 1..], w) == CountHeld(held, w) - (if CountsHeld(w, held[k]) then 1 else 0)
  {
    CountHeldConcat(held[..k], held[k + 1..], w);
    CountGained(held[..k], held[k], w);
    CountHeldConcat(held[..k] + [held[k]], held[k + 1..], w);
    assert held == held[..k] + [held[k]] + held[k + 1..];
  }

  predicate Starting(pc: PC) {
    pc.WantDb? || pc.HasDb? || pc.HasBoth? || pc.WantClient?
  }

  predicate Gaining(pc: PC) {
    pc.Counted? || pc.HasClient?
  }

  predicate Ending(pc: PC) {
    pc.EndWantDb? || pc.EndHasDb? || pc.EndDone? || pc.EndBoth? || pc.EndUnlock? || pc.EndWantClient? || pc.EndHasClient?
  }

  lemma {:induction false} GainMoves(st: State, step: Step)
    requires Enabled(st, step) && step.Advance? && Gaining(st.gs[step.t].pc)
    ensures Framed(st, Apply(st, step), step.t) && CountsMoveTogether(st, Apply(st, step), step.t)
  {
    var g, st' := st.gs[step.t], Apply(st, step);
    forall w: Counter
      ensures CountHeld(g.held + [Subject(g.pc)], w) ==
              CountHeld(g.held, w) + (if CountsHeld(w, Subject(g.pc)) then 1 else 0)
    {
      CountGained(g.held, Subject(g.pc), w);
    }
    if g.pc.Counted? {
      SumWgUpdate(st.dbs, g.pc.i, st'.dbs[g.pc.i]);
      assert st'.dbs == st.dbs[g.pc.i := st'.dbs[g.pc.i]];
    }
  }

  lemma {:induction false} StartMoves(st: State, step: Step)
    requires Enabled(st, step) && step.Advance? && Starting(st.gs[step.t].pc)
    ensures Framed(st, Apply(st, step), step.t) && CountsMoveTogether(st, Apply(st, step), step.t)
  {
    var g, st' := st.gs[step.t], Apply(st, step);
    if Subject(g.pc).OnDb? {
      var i := Subject(g.pc).i;
      SumWgUpdate(st.dbs, i, st'.dbs[i]);
      assert st'.dbs == st.dbs[i := st'.dbs[i]];
    }
  }

  lemma {:induction false} EndingMovesDb(st: State, step: Step)
    requires Enabled(st, step) && step.Advance?
    requires var pc := st.gs[step.t].pc; pc.EndWantDb? || pc.EndHasDb? || pc.EndUnlock?
    ensures Framed(st, Apply(st, step), step.t) && CountsMoveTogether(st, Apply(st, step), step.t)
  {
    var g, st' := st.gs[step.t], Apply(st, step);
    SumWgUpdate(st.dbs, g.pc.i, st'.dbs[g.pc.i]);
    assert st'.dbs == st.dbs[g.pc.i := st'.dbs[g.pc.i]];
  }

  lemma {:induction false} EndingMovesClient(st: State, step: Step)
    requires Enabled(st, step) && step.Advance?
    requires var pc := st.gs[step.t].pc; pc.EndDone? || pc.EndBoth? || pc.EndWantClient? || pc.EndHasClient?
    ensures Framed(st, Apply(st, step), step.t) && CountsMoveTogether(st, Apply(st, step), step.t)
  {
    assert Apply(st, step).dbs == st.dbs;
  }

  lemma {:induction false} CloseMoves(st: State, step: Step)
    requires Enabled(st, step) && step.Advance? && IsClose(st.gs[step.t].pc)
    ensures Framed(st, Apply(st, step), step.t) && CountsMoveTogether(st, Apply(st, step), step.t)
  {
    var g, st' := st.gs[step.t], Apply(st, step);
    if Subject(g.pc).OnDb? {
      var i := Subject(g.pc).i;
      SumWgUpdate(st.dbs, i, st'.dbs[i]);
      assert st'.dbs == st.dbs[i := st'.dbs[i]];
    }
  }

  lemma {:induction false} CallMoves(st: State, step: Step)
    requires Enabled(st, step) && (step.Call? || step.CallClose?)
    ensures Framed(st, Apply(st, step), step.t) && CountsMoveTogether(st, Apply(st, step), step.t)
  {
  }

  lemma {:induction false} EndMoves(st: State, step: Step)
    requires Enabled(st, step) && step.End?
    ensures Framed(st, Apply(st, step), step.t) && CountsMoveTogether(st, Apply(st, step), step.t)
  {
    var g := st.gs[step.t];
    forall w: Counter
      ensures CountHeld(g.held[..step.k] + g.held[step.k + 1..], w) ==
              CountHeld(g.held, w) - (if CountsHeld(w, g.held[step.k]) then 1 else 0)
    {
      CountDropped(g.held, step.k, w);
    }
  }

  lemma {:induction false} StepMoves(st: State, step: Step)
    requires Enabled(st, step)
    ensures Framed(st, Apply(st, step), step.t) && CountsMoveTogether(st, Apply(st, step), step.t)
  {
    hide Framed, CountsMoveTogether, Apply;
    var pc := st.gs[step.t].pc;
    if step.Call? || step.CallClose? {
      CallMoves(st, step);
    } else if step.End? {
      EndMoves(st, step);
    } else if Starting(pc) {
      StartMoves(st, step);
    } else if Gaining(pc) {
      GainMoves(st, step);
    } else if pc.EndWantDb? || pc.EndHasDb? || pc.EndUnlock? {
      EndingMovesDb(st, step);
    } else if Ending(pc) {
      EndingMovesClient(st, step);
    } else {
      CloseMoves(st, step);
    }
  }

  /** What a step of goroutine `t` from `pc` to `pc'` may do to one client or DB: the mutex goes
      to `t` only if it was free and back only from `t`; `closed` is set only under the mutex
      and never cleared; the count does not rise once it is set, nor is the check passed; and
      the driver is closed only by whoever waited, at count zero. */
  predicate LifetimeMoves(l: Lifetime, l': Lifetime, pc: PC, pc': PC, t: nat, on: Target) {
    && l'.mu == (if HoldsMu(pc', on) then Some(t) else if HoldsMu(pc, on) then None else l.mu)
    && (HoldsMu(pc', on) ==> HoldsMu(pc, on) || l.mu.None?)
    && (l.closed ==> l'.closed && l'.wg <= l.wg)
    && (l'.closed && !l.closed ==> HoldsMu(pc, on))
    && (l'.closed ==> !Checked(pc', on))
    && (l'.driverCloses != l.driverCloses ==> pc == CloseWait(on) && l'.wg == l.wg == 0)
  }

  ghost predicate AllMove(st: State, st': State, t: nat) {
    && |st.dbs| == |st'.dbs| && t < |st.gs| == |st'.gs|
    && forall on: Target {:trigger Of(st', on)} :: Exists(st, on) ==>
         LifetimeMoves(Of(st, on), Of(st', on), st.gs[t].pc, st'.gs[t].pc, t, on)
  }

  lemma {:induction false} LocksStayRight(st: State, st': State, t: nat)
    requires LocksAreRight(st) && Framed(st, st', t) && AllMove(st, st', t)
    ensures LocksAreRight(st')
  {
    forall on: Target | Exists(st', on)
      ensures Locked(st', on)
    {
      var l, l' := Of(st, on), Of(st', on);
      assert Locked(st, on) && LifetimeMoves(l, l', st.gs[t].pc, st'.gs[t].pc, t, on);
      hide LifetimeMoves, AllMove, LocksAreRight;
      LockStaysRight(st, st', t, on);
    }
  }

  lemma {:induction false} LockStaysRight(st: State, st': State, t: nat, on: Target)
    requires Framed(st, st', t) && Exists(st, on) && Locked(st, on)
    requires LifetimeMoves(Of(st, on), Of(st', on), st.gs[t].pc, st'.gs[t].pc, t, on)
    ensures Locked(st', on)
  {
    assert Exists(st', on);
    hide Of;
    forall u | 0 <= u < |st'.gs|
      ensures HoldsMu(st'.gs[u].pc, on) <==> Of(st', on).mu == Some(u)
      ensures Of(st', on).closed ==> !Checked(st'.gs[u].pc, on)
    {
      CheckedHolds(st'.gs[u].pc, on);
      assert HoldsMu(st.gs[t].pc, on) <==> Of(st, on).mu == Some(t);
    }
  }

  lemma CheckedHolds(pc: PC, on: Target)
    ensures Checked(pc, on) ==> HoldsMu(pc, on)
  {
  }

  lemma {:induction false} StartKeepsLifetimes(st: State, step: Step)
    requires LocksAreRight(st) && Enabled(st, step) && step.Advance? && Starting(st.gs[step.t].pc)
    ensures AllMove(st, Apply(st, step), step.t)
  {
    forall on: Target | Exists(st, on)
      ensures LifetimeMoves(
                Of(st, on), Of(Apply(st, step), on), st.gs[step.t].pc, Apply(st, step).gs[step.t].pc, step.t, on)
    {
      assert Locked(st, on);
    }
  }

  lemma {:induction false} GainKeepsLifetimes(st: State, step: Step)
    requires LocksAreRight(st) && Enabled(st, step) && step.Advance? && Gaining(st.gs[step.t].pc)
    ensures AllMove(st, Apply(st, step), step.t)
  {
    forall on: Target | Exists(st, on)
      ensures LifetimeMoves(
                Of(st, on), Of(Apply(st, step), on), st.gs[step.t].pc, Apply(st, step).gs[step.t].pc, step.t, on)
    {
      assert Locked(st, on);
    }
  }

  lemma {:induction false} EndingOnDbKeepsLifetimes(st: State, step: Step)
    requires LocksAreRight(st) && Enabled(st, step) && step.Advance?
    requires var pc := st.gs[step.t].pc; pc.EndWantDb? || pc.EndHasDb? || pc.EndUnlock?
    ensures AllMove(st, Apply(st, step), step.t)
  {
    forall on: Target | Exists(st, on)
      ensures LifetimeMoves(
                Of(st, on), Of(Apply(st, step), on), st.gs[step.t].pc, Apply(st, step).gs[step.t].pc, step.t, on)
    {
      assert Locked(st, on);
    }
  }

  lemma {:induction false} EndingOnClientKeepsLifetimes(st: State, step: Step)
    requires LocksAreRight(st) && Enabled(st, step) && step.Advance?
    requires var pc := st.gs[step.t].pc; pc.EndDone? || pc.EndBoth? || pc.EndWantClient? || pc.EndHasClient?
    ensures AllMove(st, Apply(st, step), step.t)
  {
    forall on: Target | Exists(st, on)
      ensures LifetimeMoves(
                Of(st, on), Of(Apply(st, step), on), st.gs[step.t].pc, Apply(st, step).gs[step.t].pc, step.t, on)
    {
      assert Locked(st, on);
    }
  }

  lemma {:induction false} EndingKeepsLifetimes(st: State, step: Step)
    requires LocksAreRight(st) && Enabled(st, step) && step.Advance? && Ending(st.gs[step.t].pc)
    ensures AllMove(st, Apply(st, step), step.t)
  {
    var pc := st.gs[step.t].pc;
    hide LocksAreRight, Enabled, Apply, AllMove;
    if pc.EndWantDb? || pc.EndHasDb? || pc.EndUnlock? {
      EndingOnDbKeepsLifetimes(st, step);
    } else {
      EndingOnClientKeepsLifetimes(st, step);
    }
  }

  lemma {:induction false} CloseKeepsLifetimes(st: State, step: Step)
    requires LocksAreRight(st) && Enabled(st, step) && step.Advance? && IsClose(st.gs[step.t].pc)
    ensures AllMove(st, Apply(st, step), step.t)
  {
    forall on: Target | Exists(st, on)
      ensures LifetimeMoves(
                Of(st, on), Of(Apply(st, step), on), st.gs[step.t].pc, Apply(st, step).gs[step.t].pc, step.t, on)
    {
      assert Locked(st, on);
    }
  }

  lemma {:induction false} CallKeepsLifetimes(st: State, step: Step)
    requires LocksAreRight(st) && Enabled(st, step) && !step.Advance?
    ensures AllMove(st, Apply(st, step), step.t)
  {
    forall on: Target | Exists(st, on)
      ensures LifetimeMoves(
                Of(st, on), Of(Apply(st, step), on), st.gs[step.t].pc, Apply(st, step).gs[step.t].pc, step.t, on)
    {
      assert Locked(st, on);
    }
  }

  lemma {:induction false} StepKeepsLifetimes(st: State, step: Step)
    requires LocksAreRight(st) && Enabled(st, step)
    ensures AllMove(st, Apply(st, step), step.t)
  {
    hide AllMove, Apply, LocksAreRight;
    var pc := st.gs[step.t].pc;
    if !step.Advance? {
      CallKeepsLifetimes(st, step);
    } else if Starting(pc) {
      StartKeepsLifetimes(st, step);
    } else if Gaining(pc) {
      GainKeepsLifetimes(st, step);
    } else if Ending(pc) {
      EndingKeepsLifetimes(st, step);
    } else {
      CloseKeepsLifetimes(st, step);
    }
  }

  /** What a goroutine in Close must be like. */
  ghost predicate CloserIsRight(st: State, g: Goroutine)
    requires Exists(st, Subject(g.pc))
  {
    g.pc.CloseWait? ==> Of(st, Subject(g.pc)).closed
  }

  lemma {:induction false} CloserGoesOn(st: State, step: Step)
    requires WellFormed(st) && ClosersAreRight(st) && Enabled(st, step) && step.Advance? && IsClose(st.gs[step.t].pc)
    ensures Exists(Apply(st, step), Subject(Apply(st, step).gs[step.t].pc))
    ensures CloserIsRight(Apply(st, step), Apply(st, step).gs[step.t])
  {
  }

  lemma {:induction false} OthersDoNotClose(st: State, step: Step)
    requires Enabled(st, step) && step.Advance? && !IsClose(st.gs[step.t].pc)
    ensures !IsClose(Apply(st, step).gs[step.t].pc)
  {
  }

  lemma {:induction false} MoverInCloseIsRight(st: State, step: Step)
    requires WellFormed(st) && ClosersAreRight(st) && Enabled(st, step)
    ensures var st' := Apply(st, step);
            Exists(st', Subject(st'.gs[step.t].pc)) && CloserIsRight(st', st'.gs[step.t])
  {
    StepMoves(st, step);
    assert Exists(Apply(st, step), Subject(Apply(st, step).gs[step.t].pc));
    if step.Advance? {
      hide Apply;
      if IsClose(st.gs[step.t].pc) {
        CloserGoesOn(st, step);
      } else {
        OthersDoNotClose(st, step);
      }
    }
  }

  lemma {:induction false} ClosersStayRight(st: State, st': State, t: nat)
    requires WellFormed(st) && WellFormed(st') && ClosersAreRight(st) && CountsAreRight(st')
    requires Framed(st, st', t) && AllMove(st, st', t)
    requires CloserIsRight(st', st'.gs[t])
    ensures ClosersAreRight(st')
  {
    hide LocksAreRight, Locked, HoldsMu, Checked;
    forall u | 0 <= u < |st'.gs| && st'.gs[u].pc.CloseWait?
      ensures Of(st', Subject(st'.gs[u].pc)).closed
    {
      var on := Subject(st'.gs[u].pc);
      assert u != t ==> st'.gs[u] == st.gs[u] && Of(st, on).closed;
    }
    forall on: Target {:trigger Of(st', on)} | Exists(st', on) && Of(st', on).driverCloses > 0
      ensures Of(st', on).closed && Of(st', on).wg == 0
    {
      var l, l' := Of(st, on), Of(st', on);
      assert LifetimeMoves(l, l', st.gs[t].pc, st'.gs[t].pc, t, on);
      assert l'.wg >= 0;
      if l.driverCloses == 0 {
        assert st.gs[t].pc == CloseWait(on) && Subject(st.gs[t].pc) == on;
      }
    }
  }

  lemma {:induction false} StepKeepsInv(st: State, step: Step)
    requires Inv(st) && Enabled(st, step)
    ensures Inv(Apply(st, step))
  {
    var st' := Apply(st, step);
    hide Apply, Framed, CountsMoveTogether, AllMove;
    hide WellFormed, CountsAreRight, LocksAreRight, ClosersAreRight, CloserIsRight;
    StepMoves(st, step);
    StepKeepsLifetimes(st, step);
    MoverInCloseIsRight(st, step);
    FramedKeepsWellFormed(st, st', step.t);
    FramedShape(st, st', step.t);
    LocksStayRight(st, st', step.t);
    CountsStayRight(st, st', step.t);
    ClosersStayRight(st, st', step.t);
  }

  lemma FramedShape(st: State, st': State, t: nat)
    requires Framed(st, st', t)
    ensures |st.dbs| == |st'.dbs| && t < |st.gs| == |st'.gs| && st'.gs == st.gs[t := st'.gs[t]]
  {
  }

  lemma {:induction false} InitIsInv(dbs: nat, goroutines: nat)
    ensures Inv(Init(dbs, goroutines))
  {
    var st := Init(dbs, goroutines);
    assert WellFormed(st) && ClosersAreRight(st);
    assert LocksAreRight(st) by {
      hide Sum, SumWg;
    }
    hide WellFormed, ClosersAreRight, LocksAreRight, Init;
    InitCountsAreRight(dbs, goroutines);
  }

  lemma {:induction false} InitCountsAreRight(dbs: nat, goroutines: nat)
    ensures CountsAreRight(Init(dbs, goroutines))
  {
    var st := Init(dbs, goroutines);
    hide Sum, SumWg;
    forall w: Counter
      ensures Sum(st.gs, w) == 0
    {
      IdleCountsNothing(st.gs, w);
    }
    OpenCountsNothing(st.dbs);
  }

  lemma {:induction false} IdleCountsNothing(gs: seq<Goroutine>, w: Counter)
    requires forall t :: 0 <= t < |gs| ==> gs[t] == Goroutine(Idle, [])
    ensures Sum(gs, w) == 0
  {
    if gs != [] {
      IdleCountsNothing(gs[1..], w);
    }
  }

  lemma {:induction false} OpenCountsNothing(dbs: seq<Lifetime>)
    requires forall i :: 0 <= i < |dbs| ==> dbs[i] == OPEN
    ensures SumWg(dbs) == 0
  {
    if dbs != [] {
      OpenCountsNothing(dbs[1..]);
    }
  }

  lemma {:induction false} ReachableIsInv(dbs: nat, goroutines: nat, run: seq<State>, i: nat)
    requires Run(dbs, goroutines, run) && i < |run|
    ensures Inv(run[i]) && |run[i].dbs| == dbs && |run[i].gs| == goroutines
  {
    hide Inv, Enabled, Apply, Framed;
    if i == 0 {
      InitIsInv(dbs, goroutines);
    } else {
      ReachableIsInv(dbs, goroutines, run, i - 1);
      var st := run[i - 1];
      assert Transition(st, run[i - 1 + 1]);
      var step :| Enabled(st, step) && run[i] == Apply(st, step);
      StepKeepsInv(st, step);
      StepMoves(st, step);
      FramedShape(st, run[i], step.t);
    }
  }

  // ---------------------------------------------------------------------------
  // What every run keeps
  // ---------------------------------------------------------------------------

  /** No count goes negative, and the client's is at least the sum over its DBs. */
  lemma {:induction false} ClientCountsItsDBs(dbs: nat, goroutines: nat, run: seq<State>, i: nat)
    requires Run(dbs, goroutines, run) && i < |run|
    ensures forall j :: 0 <= j < |run[i].dbs| ==> run[i].dbs[j].wg >= 0
    ensures 0 <= SumWg(run[i].dbs) <= run[i].client.wg
  {
    ReachableIsInv(dbs, goroutines, run, i);
    ClientCountsAll(run[i].gs);
  }

  lemma {:induction false} ClosedStepDoesNotRise(st: State, step: Step, on: Target)
    requires Inv(st) && Enabled(st, step) && Exists(st, on) && Of(st, on).closed
    ensures var st' := Apply(st, step);
            Exists(st', on) && Of(st', on).closed && Of(st', on).wg <= Of(st, on).wg
  {
    hide Apply;
    StepKeepsLifetimes(st, step);
    assert LifetimeMoves(Of(st, on), Of(Apply(st, step), on), st.gs[step.t].pc, Apply(st, step).gs[step.t].pc, step.t, on);
  }

  /** Once `closed` is set it stays set, and the count never rises again. */
  lemma {:induction false} NoneRisesAfterClosed(dbs: nat, goroutines: nat, run: seq<State>, i: nat, j: nat, on: Target)
    requires Run(dbs, goroutines, run) && i <= j < |run|
    requires Exists(run[i], on) && Of(run[i], on).closed
    ensures Exists(run[j], on) && Of(run[j], on).closed && Of(run[j], on).wg <= Of(run[i], on).wg
    decreases j - i
  {
    hide Inv, Enabled, Apply, Of, Exists;
    if i < j {
      NoneRisesAfterClosed(dbs, goroutines, run, i, j - 1, on);
      ReachableIsInv(dbs, goroutines, run, j - 1);
      assert Transition(run[j - 1], run[j - 1 + 1]);
      var step :| Enabled(run[j - 1], step) && run[j] == Apply(run[j - 1], step);
      ClosedStepDoesNotRise(run[j - 1], step, on);
    }
  }

  function CounterOf(on: Target): Counter {
    match on case OnClient => ByClient case OnDb(i) => ByDb(i)
  }

  /** When a driver has been closed, no goroutine has a query outstanding that its client or DB
      counts, and none ever will again. */
  lemma {:induction false} DriverIsClosedOnlyWhenIdle(dbs: nat, goroutines: nat, run: seq<State>, i: nat, j: nat,
      on: Target)
    requires Run(dbs, goroutines, run) && i <= j < |run|
    requires Exists(run[i], on) && Of(run[i], on).driverCloses > 0
    ensures Exists(run[j], on) && Of(run[j], on).closed
    ensures forall t :: 0 <= t < |run[j].gs| ==> Count(run[j].gs[t], CounterOf(on)) == 0
  {
    ReachableIsInv(dbs, goroutines, run, i);
    ReachableIsInv(dbs, goroutines, run, j);
    assert Of(run[i], on).closed && Of(run[i], on).wg == 0;
    NoneRisesAfterClosed(dbs, goroutines, run, i, j, on);
    assert Of(run[j], on).wg == Sum(run[j].gs, CounterOf(on));
    forall t | 0 <= t < |run[j].gs|
      ensures Count(run[j].gs[t], CounterOf(on)) == 0
    {
      SumBounds(run[j].gs, t, CounterOf(on));
    }
  }

  // ---------------------------------------------------------------------------
  // No deadlock
  // ---------------------------------------------------------------------------

  /** Steps that finish what has been begun. */
  predicate Finishing(step: Step) {
    step.Advance? || step.End?
  }

  predicate Busy(g: Goroutine) {
    !g.pc.Idle? || g.held != []
  }

  /** Goroutine `u` has a query outstanding that goroutine `t`, in Close, waits for. */
  predicate WaitsFor(st: State, t: nat, u: nat)
    requires t < |st.gs|
  {
    && IsClose(st.gs[t].pc) && u < |st.gs|
    && CountHeld(st.gs[u].held, CounterOf(Subject(st.gs[t].pc))) > 0
  }

  /** The goroutine is in Close and waits for one of `ts`. */
  predicate WaitsForOneOf(st: State, t: nat, ts: set<nat>) {
    t < |st.gs| && IsClose(st.gs[t].pc) && exists u :: u in ts && WaitsFor(st, t, u)
  }

  /** Goroutines in Close, each of which waits for one of them: itself, or around a cycle. */
  ghost predicate WaitForEachOther(st: State, ts: set<nat>) {
    ts != {} && forall t {:trigger WaitsForOneOf(st, t, ts)} :: t in ts ==> WaitsForOneOf(st, t, ts)
  }

  /** While any operation is under way or any query outstanding, some goroutine can go on
      without anything new being started, unless goroutines in Close wait for each other: nested
      queries cannot deadlock with the Close of others, nor with each other. */
  lemma {:induction false} NoDeadlock(dbs: nat, goroutines: nat, run: seq<State>, i: nat, t: nat) returns (step: Step)
    requires Run(dbs, goroutines, run) && i < |run| && t < |run[i].gs| && Busy(run[i].gs[t])
    requires !exists ts :: WaitForEachOther(run[i], ts)
    ensures Finishing(step) && Enabled(run[i], step)
  {
    ReachableIsInv(dbs, goroutines, run, i);
    step := SomeoneCanGoOn(run[i], t);
  }

  lemma {:induction false} SomeoneCanGoOn(st: State, t: nat) returns (step: Step)
    requires Inv(st) && t < |st.gs| && Busy(st.gs[t])
    requires !exists ts :: WaitForEachOther(st, ts)
    ensures Finishing(step) && Enabled(st, step)
  {
    hide Inv, Enabled, WaitForEachOther;
    if exists step :: Finishing(step) && Enabled(st, step) {
      step :| Finishing(step) && Enabled(st, step);
    } else {
      StuckMeansWaiting(st);
      BusyOnesWait(st, t);
      assert false;
    }
  }

  predicate WaitsForBusy(st: State, t: nat)
    requires t < |st.gs|
  {
    st.gs[t].pc.CloseWait? && exists u: nat :: u < |st.gs| && Busy(st.gs[u]) && WaitsFor(st, t, u)
  }

  /** Every busy goroutine is waiting inside Close for a query that some busy goroutine holds. */
  predicate AllWait(st: State) {
    forall t {:trigger WaitsForBusy(st, t)} :: 0 <= t < |st.gs| && Busy(st.gs[t]) ==> WaitsForBusy(st, t)
  }

  lemma {:induction false} BusyOnesWait(st: State, t: nat)
    requires AllWait(st) && t < |st.gs| && Busy(st.gs[t])
    ensures exists ts :: WaitForEachOther(st, ts)
  {
    hide WaitsFor, Busy;
    var ts := set u: nat | u < |st.gs| && Busy(st.gs[u]);
    assert t in ts;
    hide WaitsForOneOf, AllWait;
    forall u | u in ts
      ensures WaitsForOneOf(st, u, ts)
    {
      BusyOneWaits(st, u, ts);
    }
    assert WaitForEachOther(st, ts);
  }

  lemma {:induction false} BusyOneWaits(st: State, t: nat, ts: set<nat>)
    requires AllWait(st) && t < |st.gs| && Busy(st.gs[t])
    requires forall u: nat :: u < |st.gs| && Busy(st.gs[u]) ==> u in ts
    ensures WaitsForOneOf(st, t, ts)
  {
    hide WaitsFor, Busy;
    assert WaitsForBusy(st, t);
    var v: nat :| v < |st.gs| && Busy(st.gs[v]) && WaitsFor(st, t, v);
    assert v in ts;
  }

  lemma {:induction false} StuckMeansWaiting(st: State)
    requires Inv(st) && forall step :: Finishing(step) ==> !Enabled(st, step)
    ensures AllWait(st)
  {
    hide Sum, SumWg;
    MutexesAreFree(st);
    forall t | 0 <= t < |st.gs| && Busy(st.gs[t])
      ensures WaitsForBusy(st, t)
    {
      StuckIsInClose(st, t);
      var on := st.gs[t].pc.on;
      assert Exists(st, Subject(st.gs[t].pc));
      var u := SumWitness(st.gs, CounterOf(on));
      CountedIsBusy(st.gs[u], CounterOf(on));
      StuckIsInClose(st, u);
      assert WaitsFor(st, t, u);
    }
  }

  lemma CountedIsBusy(g: Goroutine, w: Counter)
    requires Count(g, w) > 0
    ensures Busy(g)
  {
  }

  lemma {:induction false} MutexesAreFree(st: State)
    requires Inv(st) && forall step :: Finishing(step) ==> !Enabled(st, step)
    ensures st.client.mu.None? && forall i :: 0 <= i < |st.dbs| ==> st.dbs[i].mu.None?
  {
    hide Sum, SumWg;
    assert Locked(st, OnClient);
    if st.client.mu.Some? {
      HolderGoesOn(st, OnClient);
    }
    if i :| 0 <= i < |st.dbs| && st.dbs[i].mu.Some? {
      HolderGoesOn(st, OnDb(i));
    }
  }

  /** While no mutex of a DB waits behind the client's, the holder of a mutex can go on; the
      holder of the client's always can. */
  lemma {:induction false} HolderGoesOn(st: State, on: Target)
    requires Inv(st) && Exists(st, on) && Of(st, on).mu.Some? && (on.OnDb? ==> st.client.mu.None?)
    ensures Finishing(Advance(Of(st, on).mu.value)) && Enabled(st, Advance(Of(st, on).mu.value))
  {
    hide Sum, SumWg;
    assert Locked(st, on);
  }

  /** With all mutexes free, a busy goroutine that cannot go on waits inside Close. */
  lemma {:induction false} StuckIsInClose(st: State, t: nat)
    requires Inv(st) && t < |st.gs| && Busy(st.gs[t])
    requires st.client.mu.None? && forall i :: 0 <= i < |st.dbs| ==> st.dbs[i].mu.None?
    requires forall step :: Finishing(step) ==> !Enabled(st, step)
    ensures st.gs[t].pc.CloseWait?
    ensures Exists(st, st.gs[t].pc.on) && Of(st, st.gs[t].pc.on).wg == Sum(st.gs, CounterOf(st.gs[t].pc.on)) > 0
  {
    hide Sum, SumWg, LocksAreRight, ClosersAreRight;
    var step := if st.gs[t].pc.Idle? then End(t, 0) else Advance(t);
    assert !Enabled(st, step);
    assert Exists(st, Subject(st.gs[t].pc));
  }

  /** Nothing can be finished in a reachable state with work left exactly if all that are busy are
      waiting inside Close for queries that they themselves hold. */
  lemma {:induction false} StuckIff(dbs: nat, goroutines: nat, run: seq<State>, i: nat)
    requires Run(dbs, goroutines, run) && i < |run|
    ensures (forall step :: Finishing(step) ==> !Enabled(run[i], step)) <==> AllWait(run[i])
  {
    var st := run[i];
    ReachableIsInv(dbs, goroutines, run, i);
    if AllWait(st) {
      forall step | Finishing(step)
        ensures !Enabled(st, step)
      {
        WaitingIsStuck(st, step);
      }
    }
    if forall step :: Finishing(step) ==> !Enabled(st, step) {
      StuckMeansWaiting(st);
    }
  }

  lemma {:induction false} WaitingIsStuck(st: State, step: Step)
    requires Inv(st) && AllWait(st) && Finishing(step)
    ensures !Enabled(st, step)
  {
    if step.t < |st.gs| {
      if Busy(st.gs[step.t]) {
        hide Inv, Busy, WaitsFor;
        assert WaitsForBusy(st, step.t);
        var u: nat :| u < |st.gs| && Busy(st.gs[u]) && WaitsFor(st, step.t, u);
        WaitedForIsCounted(st, step.t, u);
        WaiterIsStuck(st, step);
      } else {
        hide Inv, AllWait;
      }
    }
  }

  lemma {:induction false} WaiterIsStuck(st: State, step: Step)
    requires Finishing(step) && step.t < |st.gs| && st.gs[step.t].pc.CloseWait?
    requires Exists(st, Subject(st.gs[step.t].pc)) && Of(st, Subject(st.gs[step.t].pc)).wg > 0
    ensures !Enabled(st, step)
  {
  }

  lemma {:induction false} WaitedForIsCounted(st: State, t: nat, u: nat)
    requires Inv(st) && t < |st.gs| && WaitsFor(st, t, u)
    ensures Exists(st, Subject(st.gs[t].pc)) && Of(st, Subject(st.gs[t].pc)).wg > 0
  {
    hide LocksAreRight, ClosersAreRight, SumWg;
    SumBounds(st.gs, u, CounterOf(Subject(st.gs[t].pc)));
    hide Sum;
  }

  function Weight(g: Goroutine): nat {
    6 * |g.held| +
    match g.pc
    case Idle => 0
    case WantDb(_) => 10 case HasDb(_) => 9 case HasBoth(_) => 8 case Counted(_) => 7
    case WantClient => 8 case HasClient => 7
    case EndWantDb(_) => 5 case EndHasDb(_) => 4 case EndDone(_) => 3 case EndBoth(_) => 2 case EndUnlock(_) => 1
    case EndWantClient => 2 case EndHasClient => 1
    case CloseWant(_) => 3 case CloseHas(_) => 2 case CloseWait(_) => 1
  }

  function Rank(gs: seq<Goroutine>): nat {
    if gs == [] then 0 else Weight(gs[0]) + Rank(gs[1..])
  }

  lemma {:induction false} RankUpdate(gs: seq<Goroutine>, t: nat, g: Goroutine)
    requires t < |gs|
    ensures Rank(gs[t := g]) == Rank(gs) - Weight(gs[t]) + Weight(g)
  {
    if t == 0 {
      assert gs[t := g][1..] == gs[1..];
    } else {
      assert gs[t := g][1..] == gs[1..][t - 1 := g];
      RankUpdate(gs[1..], t - 1, g);
    }
  }

  lemma {:induction false} StartDescends(st: State, step: Step)
    requires Enabled(st, step) && step.Advance? && (Starting(st.gs[step.t].pc) || Gaining(st.gs[step.t].pc))
    ensures Weight(Apply(st, step).gs[step.t]) < Weight(st.gs[step.t])
  {
  }

  lemma {:induction false} EndingDescends(st: State, step: Step)
    requires Enabled(st, step) && step.Advance? && Ending(st.gs[step.t].pc)
    ensures Weight(Apply(st, step).gs[step.t]) < Weight(st.gs[step.t])
  {
  }

  lemma {:induction false} CloseDescends(st: State, step: Step)
    requires Enabled(st, step) && Finishing(step) && (step.End? || IsClose(st.gs[step.t].pc))
    ensures Weight(Apply(st, step).gs[step.t]) < Weight(st.gs[step.t])
  {
  }

  /** And it cannot go on for ever: every such step brings the end nearer. */
  lemma {:induction false} FinishingStepsDescend(st: State, step: Step)
    requires Enabled(st, step) && Finishing(step)
    ensures Rank(Apply(st, step).gs) < Rank(st.gs)
  {
    var pc := st.gs[step.t].pc;
    hide Apply, Weight;
    if step.Advance? && (Starting(pc) || Gaining(pc)) {
      StartDescends(st, step);
    } else if step.Advance? && Ending(pc) {
      EndingDescends(st, step);
    } else {
      CloseDescends(st, step);
    }
    StepMoves(st, step);
    FramedShape(st, Apply(st, step), step.t);
    RankUpdate(st.gs, step.t, Apply(st, step).gs[step.t]);
  }

  // ---------------------------------------------------------------------------
  // Which operations never return
  // ---------------------------------------------------------------------------

  /** They wait for each other as long as they stay within Close, with what they hold. */
  lemma {:induction false} WaitKept(st: State, st': State, ts: set<nat>)
    requires WaitForEachOther(st, ts) && |st'.gs| == |st.gs|
    requires forall t :: t in ts ==>
               && t < |st.gs| && IsClose(st'.gs[t].pc) && Subject(st'.gs[t].pc) == Subject(st.gs[t].pc)
               && st'.gs[t].held == st.gs[t].held
    ensures WaitForEachOther(st', ts)
  {
    hide IsClose, Subject, CountHeld;
    forall t | t in ts
      ensures WaitsForOneOf(st', t, ts)
    {
      assert WaitsForOneOf(st, t, ts);
      var u :| u in ts && WaitsFor(st, t, u);
      assert WaitsFor(st', t, u);
    }
  }

  /** No step lets one of them go on. */
  lemma {:induction false} StillWaiting(st: State, step: Step, ts: set<nat>)
    requires Inv(st) && Enabled(st, step) && WaitForEachOther(st, ts)
    ensures WaitForEachOther(Apply(st, step), ts)
  {
    StepMoves(st, step);
    FramedShape(st, Apply(st, step), step.t);
    hide Inv, Enabled, Apply, Framed, CountsMoveTogether, WaitsFor;
    if step.t in ts {
      assert WaitsForOneOf(st, step.t, ts);
      var u :| u in ts && WaitsFor(st, step.t, u);
      WaitedForIsCounted(st, step.t, u);
      CloserStays(st, step);
    }
    hide WaitForEachOther, Subject, IsClose;
    AllInside(st, ts);
    WaitKept(st, Apply(st, step), ts);
  }

  lemma {:induction false} AllInside(st: State, ts: set<nat>)
    requires WaitForEachOther(st, ts)
    ensures forall t :: t in ts ==> t < |st.gs| && IsClose(st.gs[t].pc)
  {
    forall t | t in ts
      ensures t < |st.gs| && IsClose(st.gs[t].pc)
    {
      assert WaitsForOneOf(st, t, ts);
    }
  }

  /** A goroutine in Close that cannot be through moves within Close, with what it holds. */
  lemma {:induction false} CloserStays(st: State, step: Step)
    requires Enabled(st, step) && IsClose(st.gs[step.t].pc) && Of(st, Subject(st.gs[step.t].pc)).wg > 0
    ensures var g, g' := st.gs[step.t], Apply(st, step).gs[step.t];
            IsClose(g'.pc) && Subject(g'.pc) == Subject(g.pc) && g'.held == g.held
  {
  }

  /** Goroutines in Close that wait for each other do so for ever, whatever all others do. */
  lemma {:induction false} WaitingForEachOtherIsForEver(
      dbs: nat, goroutines: nat, run: seq<State>, i: nat, j: nat, ts: set<nat>)
    requires Run(dbs, goroutines, run) && i <= j < |run| && WaitForEachOther(run[i], ts)
    ensures WaitForEachOther(run[j], ts)
    decreases j - i
  {
    hide Inv, Enabled, Apply, WaitForEachOther;
    if i < j {
      WaitingForEachOtherIsForEver(dbs, goroutines, run, i, j - 1, ts);
      ReachableIsInv(dbs, goroutines, run, j - 1);
      assert Transition(run[j - 1], run[j - 1 + 1]);
      var step :| Enabled(run[j - 1], step) && run[j] == Apply(run[j - 1], step);
      StillWaiting(run[j - 1], step, ts);
    }
  }

  /** Finishing what has been begun does not make goroutines wait for each other. */
  lemma {:induction false} FinishingMakesNoneWait(st: State, step: Step, ts: set<nat>)
    requires Inv(st) && Enabled(st, step) && Finishing(step) && WaitForEachOther(Apply(st, step), ts)
    ensures WaitForEachOther(st, ts)
  {
    StepMoves(st, step);
    FramedShape(st, Apply(st, step), step.t);
    hide Inv, Enabled, Apply, Framed, CountsMoveTogether, WaitsFor, WaitForEachOther, Subject, IsClose;
    AllInside(Apply(st, step), ts);
    if step.t in ts {
      CameFromClose(st, step);
    }
    WaitKept(Apply(st, step), st, ts);
  }

  lemma {:induction false} CameFromClose(st: State, step: Step)
    requires Enabled(st, step) && Finishing(step) && IsClose(Apply(st, step).gs[step.t].pc)
    ensures var g, g' := st.gs[step.t], Apply(st, step).gs[step.t];
            IsClose(g.pc) && Subject(g'.pc) == Subject(g.pc) && g'.held == g.held
  {
    if step.Advance? && !IsClose(st.gs[step.t].pc) {
      OthersDoNotClose(st, step);
    }
  }

  predicate AtRest(st: State) {
    forall t :: 0 <= t < |st.gs| ==> !Busy(st.gs[t])
  }

  /** All that has been begun can be finished, in some number of finishing steps. */
  ghost predicate CanFinish(st: State, steps: nat)
    decreases steps
  {
    AtRest(st) || (steps > 0 && exists step :: Finishing(step) && Enabled(st, step) && CanFinish(Apply(st, step), steps - 1))
  }

  /** In every reachable state, all operations under way can return and all queries be ended
      exactly if no goroutines in Close wait for each other.  (And with NoDeadlock and
      FinishingStepsDescend they then do, in whatever order.) */
  lemma {:induction false} CanFinishIff(dbs: nat, goroutines: nat, run: seq<State>, i: nat)
    requires Run(dbs, goroutines, run) && i < |run|
    ensures (exists n :: CanFinish(run[i], n)) <==> !exists ts :: WaitForEachOther(run[i], ts)
  {
    ReachableIsInv(dbs, goroutines, run, i);
    hide Inv, CanFinish, WaitForEachOther;
    if n :| CanFinish(run[i], n) {
      forall ts
        ensures !WaitForEachOther(run[i], ts)
      {
        FinishedWaitedForNone(run[i], n, ts);
      }
    }
    if !exists ts :: WaitForEachOther(run[i], ts) {
      FinishesInRank(run[i]);
    }
  }

  lemma {:induction false} FinishedWaitedForNone(st: State, n: nat, ts: set<nat>)
    requires Inv(st) && CanFinish(st, n)
    ensures !WaitForEachOther(st, ts)
    decreases n
  {
    hide Inv, Enabled, Apply, AtRest, WaitForEachOther;
    if AtRest(st) {
      NoneWaitsAtRest(st, ts);
    } else {
      var step :| Finishing(step) && Enabled(st, step) && CanFinish(Apply(st, step), n - 1);
      StepKeepsInv(st, step);
      FinishedWaitedForNone(Apply(st, step), n - 1, ts);
      if WaitForEachOther(st, ts) {
        StillWaiting(st, step, ts);
      }
    }
  }

  lemma {:induction false} NoneWaitsAtRest(st: State, ts: set<nat>)
    requires AtRest(st)
    ensures !WaitForEachOther(st, ts)
  {
    hide WaitsFor;
    if t :| t in ts {
      assert t < |st.gs| ==> !Busy(st.gs[t]);
      assert WaitForEachOther(st, ts) ==> WaitsForOneOf(st, t, ts);
    }
  }

  lemma {:induction false} FinishesInRank(st: State)
    requires Inv(st) && !exists ts :: WaitForEachOther(st, ts)
    ensures CanFinish(st, Rank(st.gs))
    decreases Rank(st.gs)
  {
    hide Inv, Enabled, Apply, WaitForEachOther, Rank, CanFinish, Busy;
    if t: nat :| t < |st.gs| && Busy(st.gs[t]) {
      var step := SomeoneCanGoOn(st, t);
      StepKeepsInv(st, step);
      FinishingStepsDescend(st, step);
      forall ts
        ensures !WaitForEachOther(Apply(st, step), ts)
      {
        if WaitForEachOther(Apply(st, step), ts) {
          FinishingMakesNoneWait(st, step, ts);
        }
      }
      FinishesInRank(Apply(st, step));
      CanFinishLater(Apply(st, step), Rank(Apply(st, step).gs), Rank(st.gs) - 1);
      FinishStep(st, step, Rank(st.gs));
    } else {
      AtRestFinishes(st, Rank(st.gs));
    }
  }

  lemma {:induction false} AtRestFinishes(st: State, n: nat)
    requires AtRest(st)
    ensures CanFinish(st, n)
  {
  }

  lemma {:induction false} FinishStep(st: State, step: Step, n: nat)
    requires n > 0 && Finishing(step) && Enabled(st, step) && CanFinish(Apply(st, step), n - 1)
    ensures CanFinish(st, n)
  {
    hide Apply, Enabled;
  }

  lemma {:induction false} CanFinishLater(st: State, n: nat, m: nat)
    requires CanFinish(st, n) && n <= m
    ensures CanFinish(st, m)
    decreases n
  {
    hide Enabled, Apply, AtRest;
    if !AtRest(st) {
      var step :| Finishing(step) && Enabled(st, step) && CanFinish(Apply(st, step), n - 1);
      CanFinishLater(Apply(st, step), n - 1, m - 1);
    }
  }
}
