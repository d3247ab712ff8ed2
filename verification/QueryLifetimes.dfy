/** The two levels of reference counting that decide when a driver may be closed: startQuery
    and Close of db.go and kivik.go, under any interleaving of goroutines.

    A goroutine may start a query while it has others outstanding (BulkDocs calls Put, and the
    fallbacks of DBsStats and AllDBsStats call back into the client), and may end those it has
    in any order, as iterators do. */
module QueryLifetimes {
  import opened Wrappers

  datatype Target = OnClient | OnDb(i: nat)

  /** What a Client and a DB have in common.  `driverCloses` counts calls of the driver's Close. */
  datatype Lifetime = Lifetime(closed: bool, mu: Option<nat>, wg: int, driverCloses: nat)

  /** Where a goroutine stands; between operations it is Idle. */
  datatype PC =
    | Idle
    // DB.startQuery: wants db.mu; has it; has client.mu too; the client has counted the query
    | WantDb(i: nat) | HasDb(i: nat) | HasBoth(i: nat) | Counted(i: nat)
    // Client.startQuery
    | WantClient | HasClient
    // the end function of DB.startQuery, up to wg.Done, client.mu, the client's wg.Done and db.mu.Unlock
    | EndWantDb(i: nat) | EndHasDb(i: nat) | EndDone(i: nat) | EndBoth(i: nat) | EndUnlock(i: nat)
    // the end function of Client.startQuery
    | EndWantClient | EndHasClient
    // Close: wants mu; has it; waits for the count
    | CloseWant(on: Target) | CloseHas(on: Target) | CloseWait(on: Target)

  /** `held` are the queries that the goroutine has started and not ended. */
  datatype Goroutine = Goroutine(pc: PC, held: seq<Target>)

  datatype State = State(client: Lifetime, dbs: seq<Lifetime>, gs: seq<Goroutine>)

  const OPEN := Lifetime(false, None, 0, 0)

  function Init(dbs: nat, goroutines: nat): State {
    State(OPEN, seq(dbs, _ => OPEN), seq(goroutines, _ => Goroutine(Idle, [])))
  }

  predicate Exists(st: State, on: Target) {
    on.OnDb? ==> on.i < |st.dbs|
  }

  function Of(st: State, on: Target): Lifetime
    requires Exists(st, on)
  {
    match on case OnClient => st.client case OnDb(i) => st.dbs[i]
  }

  function With(st: State, on: Target, l: Lifetime): State
    requires Exists(st, on)
  {
    match on case OnClient => st.(client := l) case OnDb(i) => st.(dbs := st.dbs[i := l])
  }

  function Move(st: State, t: nat, pc: PC): State
    requires t < |st.gs|
  {
    st.(gs := st.gs[t := st.gs[t].(pc := pc)])
  }

  /** Goroutine `t` moves on to `pc` with one more query outstanding. */
  function Gain(st: State, t: nat, on: Target): State
    requires t < |st.gs|
  {
    st.(gs := st.gs[t := Goroutine(Idle, st.gs[t].held + [on])])
  }

  function Lock(st: State, on: Target, t: nat): State
    requires Exists(st, on)
  {
    With(st, on, Of(st, on).(mu := Some(t)))
  }

  function Unlock(st: State, on: Target): State
    requires Exists(st, on)
  {
    With(st, on, Of(st, on).(mu := None))
  }

  function Add(st: State, on: Target, n: int): State
    requires Exists(st, on)
  {
    With(st, on, Of(st, on).(wg := Of(st, on).wg + n))
  }

  /** Call and CallClose begin an operation, Advance is the next step of one, and End calls the
      end function of the k-th outstanding query. */
  datatype Step = Call(t: nat, on: Target) | CallClose(t: nat, on: Target) | Advance(t: nat) | End(t: nat, k: nat)

  /** The DB or client that an operation is on. */
  function Subject(pc: PC): Target {
    match pc
    case WantDb(i) => OnDb(i)
    case HasDb(i) => OnDb(i)
    case HasBoth(i) => OnDb(i)
    case Counted(i) => OnDb(i)
    case EndWantDb(i) => OnDb(i)
    case EndHasDb(i) => OnDb(i)
    case EndDone(i) => OnDb(i)
    case EndBoth(i) => OnDb(i)
    case EndUnlock(i) => OnDb(i)
    case CloseWant(on) => on
    case CloseHas(on) => on
    case CloseWait(on) => on
    case _ => OnClient
  }

  predicate WellFormed(st: State) {
    forall t :: 0 <= t < |st.gs| ==>
      && Exists(st, Subject(st.gs[t].pc))
      && forall k :: 0 <= k < |st.gs[t].held| ==> Exists(st, st.gs[t].held[k])
  }

  predicate CanAdvance(st: State, pc: PC)
    requires Exists(st, Subject(pc))
  {
    match pc
    case Idle => false
    case WantDb(i) => st.dbs[i].mu.None?
    case EndWantDb(i) => st.dbs[i].mu.None?
    case HasDb(_) | EndDone(_) | WantClient | EndWantClient => st.client.mu.None?
    case CloseWant(on) => Of(st, on).mu.None?
    case CloseWait(on) => Of(st, on).wg == 0
    case _ => true
  }

  predicate Enabled(st: State, step: Step) {
    && WellFormed(st)
    && step.t < |st.gs|
    && var g := st.gs[step.t];
    match step
    case Call(_, on) => g.pc.Idle? && Exists(st, on)
    case CallClose(_, on) => g.pc.Idle? && Exists(st, on)
    case Advance(_) => CanAdvance(st, g.pc)
    case End(_, k) => g.pc.Idle? && k < |g.held|
  }

  function ApplyAdvance(st: State, t: nat): State
    requires Enabled(st, Advance(t))
  {
    var pc := st.gs[t].pc;
    match pc
    case WantDb(i) =>
      if st.dbs[i].closed then Move(st, t, Idle) else Move(Lock(st, OnDb(i), t), t, HasDb(i))
    case HasDb(i) => Move(Lock(st, OnClient, t), t, HasBoth(i))
    case HasBoth(i) =>
      if st.client.closed then Move(Unlock(Unlock(st, OnClient), OnDb(i)), t, Idle)
      else Move(Unlock(Add(st, OnClient, 1), OnClient), t, Counted(i))
    case Counted(i) =>
      Gain(Unlock(Add(st, OnDb(i), 1), OnDb(i)), t, OnDb(i))
    case WantClient => Move(Lock(st, OnClient, t), t, HasClient)
    case HasClient =>
      if st.client.closed then Move(Unlock(st, OnClient), t, Idle)
      else Gain(Unlock(Add(st, OnClient, 1), OnClient), t, OnClient)
    case EndWantDb(i) => Move(Lock(st, OnDb(i), t), t, EndHasDb(i))
    case EndHasDb(i) => Move(Add(st, OnDb(i), -1), t, EndDone(i))
    case EndDone(i) => Move(Lock(st, OnClient, t), t, EndBoth(i))
    case EndBoth(i) => Move(Unlock(Add(st, OnClient, -1), OnClient), t, EndUnlock(i))
    case EndUnlock(i) => Move(Unlock(st, OnDb(i)), t, Idle)
    case EndWantClient => Move(Lock(st, OnClient, t), t, EndHasClient)
    case EndHasClient => Move(Unlock(Add(st, OnClient, -1), OnClient), t, Idle)
    case CloseWant(on) => Move(Lock(st, on, t), t, CloseHas(on))
    case CloseHas(on) =>
      Move(With(st, on, Of(st, on).(closed := true, mu := None)), t, CloseWait(on))
    case CloseWait(on) =>
      Move(With(st, on, Of(st, on).(driverCloses := Of(st, on).driverCloses + 1)), t, Idle)
  }

  function Apply(st: State, step: Step): State
    requires Enabled(st, step)
  {
    match step
    case Call(t, on) => Move(st, t, match on case OnClient => WantClient case OnDb(i) => WantDb(i))
    case CallClose(t, on) => Move(st, t, CloseWant(on))
    case Advance(t) => ApplyAdvance(st, t)
    case End(t, k) =>
      var g := st.gs[t];
      st.(gs := st.gs[t := Goroutine(match g.held[k] case OnClient => EndWantClient case OnDb(i) => EndWantDb(i),
                                     g.held[..k] + g.held[k + 1..])])
  }

  ghost predicate Transition(st: State, st': State) {
    exists step :: Enabled(st, step) && st' == Apply(st, step)
  }

  ghost predicate Run(dbs: nat, goroutines: nat, run: seq<State>) {
    && |run| > 0 && run[0] == Init(dbs, goroutines)
    && forall i :: 0 <= i < |run| - 1 ==> Transition(run[i], run[i + 1])
  }
}
