/** The expectation matcher of mockdb/clientmock.go. */
module MockClient {
  import opened Wrappers

  /** A call, and an expectation of one.  `accepts` stands for the comparison of database,
      options and arguments with what the expectation asks for (meets of mockdb/meets.go, behind
      its comparison of methods). */
  datatype Call = Call(name: string, args: seq<string>)
  datatype Expected = Expected(name: string, accepts: seq<string> -> bool)

  predicate Meets(call: Call, e: Expected) {
    call.name == e.name && e.accepts(call.args)
  }

  /** What nextExpectation answers: the expectation it fulfilled, or which error. */
  datatype Reply = Fulfilled(i: nat) | NotMet(i: nat) | OutOfOrder(i: nat) | AllFulfilled | Unexpected

  function Find(ordered: bool, es: seq<Expected>, done: seq<bool>, call: Call, i: nat): (r: Reply)
    requires |done| == |es| && i <= |es|
    ensures r.Fulfilled? ==> i <= r.i < |es| && !done[r.i]
    decreases |es| - i
  {
    if i == |es| then (if forall j :: 0 <= j < |done| ==> done[j] then AllFulfilled else Unexpected)
    else if done[i] then Find(ordered, es, done, call, i + 1)
    else if ordered then
      if es[i].name != call.name then OutOfOrder(i) else if Meets(call, es[i]) then Fulfilled(i) else NotMet(i)
    else if Meets(call, es[i]) then Fulfilled(i)
    else Find(ordered, es, done, call, i + 1)
  }

  function CountTrue(done: seq<bool>): nat {
    if done == [] then 0 else CountTrue(done[..|done| - 1]) + (if done[|done| - 1] then 1 else 0)
  }

  lemma {:induction false} CountTrueStep(done: seq<bool>, i: nat)
    requires i < |done|
    ensures CountTrue(done[..i + 1]) == CountTrue(done[..i]) + (if done[i] then 1 else 0)
  {
    assert done[..i + 1][..i] == done[..i];
  }

  lemma {:induction false} CountTrueAll(done: seq<bool>)
    ensures CountTrue(done) <= |done|
    ensures CountTrue(done) == |done| <==> forall j :: 0 <= j < |done| ==> done[j]
  {
    if done != [] {
      CountTrueAll(done[..|done| - 1]);
    }
  }

  /** One round of the search. */
  lemma {:induction false} FindRound(ordered: bool, es: seq<Expected>, done: seq<bool>, call: Call, i: nat)
    requires |done| == |es| && i <= |es|
    ensures i < |es| && (done[i] || (!ordered && !Meets(call, es[i]))) ==>
              Find(ordered, es, done, call, i) == Find(ordered, es, done, call, i + 1)
    ensures i < |es| && !done[i] && Meets(call, es[i]) ==> Find(ordered, es, done, call, i) == Fulfilled(i)
    ensures i < |es| && !done[i] && ordered && !Meets(call, es[i]) ==>
              Find(ordered, es, done, call, i) == if es[i].name == call.name then NotMet(i) else OutOfOrder(i)
    ensures i == |es| ==>
              Find(ordered, es, done, call, i) == if forall j :: 0 <= j < i ==> done[j] then AllFulfilled else Unexpected
  {
  }

  function Next(ordered: bool, es: seq<Expected>, done: seq<bool>, call: Call): (r: (Reply, seq<bool>))
    requires |done| == |es|
    ensures |r.1| == |es|
    ensures r.0.Fulfilled? ==> r.0.i < |es|
  {
    var r := Find(ordered, es, done, call, 0);
    (r, if r.Fulfilled? then done[r.i := true] else done)
  }

  // ---------------------------------------------------------------------------
  // The client and its expectations
  // ---------------------------------------------------------------------------

  class Expectation {
    const spec: Expected
    var locked: bool
    var triggered: bool

    constructor (spec: Expected)
      ensures this.spec == spec && !locked && !triggered
    {
      this.spec, locked, triggered := spec, false, false;
    }

    /** A mutex that is held is not to be locked again. */
    method Lock()
      requires !locked
      modifies this`locked
      ensures locked
    {
      locked := true;
    }

    method Unlock()
      requires locked
      modifies this`locked
      ensures !locked
    {
      locked := false;
    }

    /** The body of the loop in nextExpectation, for the i-th expectation: unless this is the
        one, it is unlocked again. */
    method LookAt(ordered: bool, call: Call, i: nat) returns (v: Verdict)
      requires !locked
      modifies this`locked
      ensures locked <==> v == Answer(Fulfilled(i))
      ensures v == if triggered then Done
                   else if Meets(call, spec) then Answer(Fulfilled(i))
                   else if !ordered then GoOn
                   else Answer(if call.name == spec.name then NotMet(i) else OutOfOrder(i))
    {
      Lock();
      if triggered {
        Unlock();
        return Done;
      }
      if ordered {
        if call.name == spec.name {
          if Meets(call, spec) {
            return Answer(Fulfilled(i));
          }
          Unlock();
          return Answer(NotMet(i));
        }
        Unlock();
        return Answer(OutOfOrder(i));
      }
      if Meets(call, spec) {
        return Answer(Fulfilled(i));
      }
      Unlock();
      return GoOn;
    }
  }

  /** What one round of the search comes to. */
  datatype Verdict = Done | GoOn | Answer(r: Reply)

  class Client {
    var ordered: bool
    var drvLocked: bool
    var expected: seq<Expectation>
    ghost var es: seq<Expected>   // what is expected
    ghost var done: seq<bool>     // and which of it is fulfilled

    constructor ()
      ensures Quiet() && ordered && es == [] && done == []
    {
      ordered, drvLocked, expected := true, false, [];
      es, done := [], [];
    }

    ghost predicate Shows()
      reads this, expected
    {
      && |es| == |done| == |expected|
      && (forall i :: 0 <= i < |expected| ==> expected[i].spec == es[i] && expected[i].triggered == done[i])
      && (forall i, j :: 0 <= i < j < |expected| ==> expected[i] != expected[j])
    }

    ghost predicate Unlocked()
      reads this, expected
    {
      forall i :: 0 <= i < |expected| ==> !expected[i].locked
    }

    /** Between calls no lock is held. */
    ghost predicate Quiet()
      reads this, expected
    {
      Shows() && Unlocked() && !drvLocked
    }

    /** ExpectCreateDB and its like */
    method Expect(spec: Expected)
      requires Quiet()
      modifies this
      ensures Quiet() && es == old(es) + [spec] && done == old(done) + [false]
      ensures ordered == old(ordered)
    {
      var e := new Expectation(spec);
      expected := expected + [e];
      es, done := es + [spec], done + [false];
    }

    /** nextExpectation, which on success fills the caller's expectation from the one found.
        Whatever it answers, every lock is released again. */
    method NextExpectation(call: Call) returns (r: Reply, actual: Option<Expected>)
      requires Quiet()
      modifies this`drvLocked, this`done, expected
      ensures Quiet()
      ensures (r, done) == Next(ordered, es, old(done), call)
      ensures actual == if r.Fulfilled? then Some(es[r.i]) else None
    {
      hide Find, Meets;
      drvLocked := true;
      r := Search(call);
      actual := None;
      if r.Fulfilled? {
        actual := Fulfil(r.i);
      }
      drvLocked := false;
    }

    /** The end of nextExpectation, with the expectation found still locked. */
    method Fulfil(i: nat) returns (actual: Option<Expected>)
      requires Shows() && i < |expected| && UnlockedBut(Fulfilled(i))
      modifies this`done, expected[i]
      ensures Shows() && Unlocked() && done == old(done)[i := true] && actual == Some(es[i])
    {
      var e := expected[i];
      e.triggered := true;
      done := done[i := true];
      actual := Some(e.spec);
      e.Unlock();
    }

    /** Every lock but that of the expectation found. */
    ghost predicate UnlockedBut(r: Reply)
      reads this, expected
    {
      forall i :: 0 <= i < |expected| ==> (expected[i].locked <==> r == Fulfilled(i))
    }

    /** The loop of nextExpectation: it leaves the expectation it finds locked. */
    method Search(call: Call) returns (r: Reply)
      requires Shows() && Unlocked()
      modifies expected
      ensures Shows() && UnlockedBut(r)
      ensures r == Find(ordered, es, done, call, 0)
    {
      hide Find, Meets, CountTrue;
      var fulfilled, i := 0, 0;
      CountTrueAll(done[..0]);
      while i < |expected|
        invariant i <= |expected| && Shows() && Unlocked()
        invariant fulfilled == CountTrue(done[..i])
        invariant Find(ordered, es, done, call, i) == Find(ordered, es, done, call, 0)
      {
        FindRound(ordered, es, done, call, i);
        CountTrueStep(done, i);
        var v := expected[i].LookAt(ordered, call, i);
        if v.Answer? {
          return v.r;
        }
        if v.Done? {
          fulfilled := fulfilled + 1;
        }
        i := i + 1;
      }
      assert done[..i] == done;
      CountTrueAll(done);
      FindRound(ordered, es, done, call, i);
      return if fulfilled == |expected| then AllFulfilled else Unexpected;
    }

    /** ExpectationsWereMet */
    method ExpectationsWereMet() returns (ok: bool)
      requires Quiet()
      modifies this`drvLocked, expected
      ensures Quiet()
      ensures ok <==> AllDone(done)
    {
      drvLocked := true;
      var i := 0;
      while i < |expected|
        invariant i <= |expected| && drvLocked && Shows() && Unlocked()
        invariant forall j :: 0 <= j < i ==> done[j]
      {
        var e := expected[i];
        e.Lock();
        var fulfilled := e.triggered;
        e.Unlock();
        if !fulfilled {
          drvLocked := false;
          return false;
        }
        i := i + 1;
      }
      drvLocked := false;
      return true;
    }
  }

  // ---------------------------------------------------------------------------
  // Ordered matching
  // ---------------------------------------------------------------------------

  /** The first `k` expectations are fulfilled and no others. */
  predicate IsPrefix(done: seq<bool>, k: nat) {
    k <= |done| && forall j :: 0 <= j < |done| ==> (done[j] <==> j < k)
  }

  lemma {:induction false} FindSkipsPrefix(es: seq<Expected>, done: seq<bool>, call: Call, k: nat, i: nat)
    requires |done| == |es| && IsPrefix(done, k) && i <= k
    ensures Find(true, es, done, call, i) ==
            if k == |es| then AllFulfilled
            else if es[k].name != call.name then OutOfOrder(k)
            else if Meets(call, es[k]) then Fulfilled(k) else NotMet(k)
    decreases k - i
  {
    if i < k {
      FindSkipsPrefix(es, done, call, k, i + 1);
    }
  }

  /** While `ordered` is set the fulfilled expectations form a prefix.  A call fulfils the next
      expectation exactly if it meets that one; otherwise it fulfils none. */
  lemma {:induction false} OrderedFulfilsTheNext(es: seq<Expected>, done: seq<bool>, call: Call, k: nat)
    requires |done| == |es| && IsPrefix(done, k)
    ensures var (r, done') := Next(true, es, done, call);
            if k < |es| && Meets(call, es[k]) then r == Fulfilled(k) && IsPrefix(done', k + 1)
            else !r.Fulfilled? && done' == done
  {
    FindSkipsPrefix(es, done, call, k, 0);
  }

  /** Makes the calls one after the other: whether all succeeded, and what is fulfilled. */
  function Make(ordered: bool, es: seq<Expected>, done: seq<bool>, calls: seq<Call>): (r: (bool, seq<bool>))
    requires |done| == |es|
    ensures |r.1| == |es|
    decreases |calls|
  {
    if calls == [] then (true, done)
    else
      var (r, done1) := Next(ordered, es, done, calls[0]);
      var (ok, done') := Make(ordered, es, done1, calls[1..]);
      (r.Fulfilled? && ok, done')
  }

  predicate AllDone(done: seq<bool>) {
    forall j :: 0 <= j < |done| ==> done[j]
  }

  /** In order, all calls succeed and all expectations are met exactly if the list of calls
      matches the list of expectations one by one. */
  lemma {:induction false} OrderedMatchesPointwise(es: seq<Expected>, calls: seq<Call>)
    ensures var (ok, done) := Make(true, es, seq(|es|, _ => false), calls);
            ok && AllDone(done) <==>
            |calls| == |es| && forall i :: 0 <= i < |es| ==> Meets(calls[i], es[i])
  {
    MatchesFrom(es, seq(|es|, _ => false), calls, 0);
  }

  lemma {:induction false} MatchesFrom(es: seq<Expected>, done: seq<bool>, calls: seq<Call>, k: nat)
    requires |done| == |es| && IsPrefix(done, k)
    ensures var (ok, done') := Make(true, es, done, calls);
            ok && AllDone(done') <==> Matches(es, calls, k)
    decreases |calls|
  {
    if calls == [] {
      assert k < |es| ==> !done[k];
    } else {
      assert Matches(es, calls, k) ==> Meets(calls[0], es[k + 0]);
      OrderedFulfilsTheNext(es, done, calls[0], k);
      var done1 := Next(true, es, done, calls[0]).1;
      if k < |es| && Meets(calls[0], es[k]) {
        MatchesFrom(es, done1, calls[1..], k + 1);
        MatchStep(es, calls, k);
      }
    }
  }

  predicate Matches(es: seq<Expected>, calls: seq<Call>, k: nat) {
    k <= |es| && |calls| == |es| - k && forall i :: 0 <= i < |calls| ==> Meets(calls[i], es[k + i])
  }

  lemma {:induction false} MatchStep(es: seq<Expected>, calls: seq<Call>, k: nat)
    requires calls != [] && k < |es| && Meets(calls[0], es[k])
    ensures Matches(es, calls, k) <==> Matches(es, calls[1..], k + 1)
  {
    if Matches(es, calls[1..], k + 1) {
      forall i | 0 <= i < |calls|
        ensures Meets(calls[i], es[k + i])
      {
        if i > 0 {
          var c := calls[1..][i - 1];
          assert Meets(c, es[k + 1 + (i - 1)]);
        }
      }
    }
    if Matches(es, calls, k) {
      forall i | 0 <= i < |calls| - 1
        ensures Meets(calls[1..][i], es[k + 1 + i])
      {
        assert Meets(calls[i + 1], es[k + (i + 1)]);
      }
    }
  }

  // ---------------------------------------------------------------------------
  // Unordered matching
  // ---------------------------------------------------------------------------

  /** Out of order, a call takes the lowest expectation that it meets and that is unfulfilled;
      it fails, fulfilling none, exactly if there is none. */
  lemma {:induction false} UnorderedTakesTheLowest(es: seq<Expected>, done: seq<bool>, call: Call, i: nat)
    requires |done| == |es| && i <= |es|
    ensures var r := Find(false, es, done, call, i);
            && (r.Fulfilled? ==> Meets(call, es[r.i]) && forall j :: i <= j < r.i ==> done[j] || !Meets(call, es[j]))
            && (!r.Fulfilled? ==> forall j :: i <= j < |es| ==> done[j] || !Meets(call, es[j]))
    decreases |es| - i
  {
    if i < |es| {
      UnorderedTakesTheLowest(es, done, call, i + 1);
    }
  }

  /** The calls can be paired with unfulfilled expectations that they meet, each with its own. */
  predicate Pairs(es: seq<Expected>, done: seq<bool>, calls: seq<Call>, f: seq<nat>)
    requires |done| == |es|
  {
    && |f| == |calls|
    && (forall i :: 0 <= i < |f| ==> f[i] < |es| && !done[f[i]] && Meets(calls[i], es[f[i]]))
    && (forall i, j :: 0 <= i < j < |f| ==> f[i] != f[j])
  }

  ghost predicate Pairable(es: seq<Expected>, done: seq<bool>, calls: seq<Call>) {
    |done| == |es| && exists f: seq<nat> :: Pairs(es, done, calls, f)
  }

  /** Calls that can be paired succeed, whatever was fulfilled before and in whatever order they
      are made. */
  ghost predicate NeverMisses(es: seq<Expected>) {
    forall done, calls :: Pairable(es, done, calls) ==> Make(false, es, done, calls).0
  }

  /** Where two expectations overlap, the earlier one asks for at least as much as the later. */
  ghost predicate StrictestFirst(es: seq<Expected>) {
    forall i, j, both, call ::
      0 <= i < j < |es| && Meets(both, es[i]) && Meets(both, es[j]) && Meets(call, es[i]) ==> Meets(call, es[j])
  }

  /** Taking the lowest can miss: the first call may take the expectation that a later one needs.
      It never does exactly if the expectations are listed with the strictest first. */
  lemma {:induction false} UnorderedNeverMissesIff(es: seq<Expected>)
    ensures NeverMisses(es) <==> StrictestFirst(es)
  {
    if StrictestFirst(es) {
      forall done, calls | Pairable(es, done, calls)
        ensures Make(false, es, done, calls).0
      {
        var f: seq<nat> :| Pairs(es, done, calls, f);
        StrictestFirstPairs(es, done, calls, f);
      }
    }
    if !StrictestFirst(es) {
      var i, j, both, call :|
        0 <= i < j < |es| && Meets(both, es[i]) && Meets(both, es[j]) && Meets(call, es[i]) && !Meets(call, es[j]);
      TakesTheOnlyOne(es, i, j, both, call);
    }
  }

  /** If another call was paired with the expectation that the first call takes, the two change
      partners. */
  lemma {:induction false} StrictestFirstPairs(es: seq<Expected>, done: seq<bool>, calls: seq<Call>, f: seq<nat>)
    requires |done| == |es| && StrictestFirst(es) && Pairs(es, done, calls, f)
    ensures Make(false, es, done, calls).0
    decreases |calls|
  {
    if calls != [] {
      UnorderedTakesTheLowest(es, done, calls[0], 0);
      var low := Find(false, es, done, calls[0], 0).i;
      assert low <= f[0];
      var f' := seq(|f| - 1, k requires 0 <= k < |f| - 1 => if f[k + 1] == low then f[0] else f[k + 1]);
      ChangesPartners(es, done, calls, f, low, f');
      StrictestFirstPairs(es, done[low := true], calls[1..], f');
    }
  }

  lemma {:induction false} ChangesPartners(es: seq<Expected>, done: seq<bool>, calls: seq<Call>, f: seq<nat>, low: nat,
      f': seq<nat>)
    requires |done| == |es| && StrictestFirst(es) && Pairs(es, done, calls, f) && calls != []
    requires low <= f[0] && Meets(calls[0], es[low])
    requires |f'| == |f| - 1 && forall k :: 0 <= k < |f'| ==> f'[k] == if f[k + 1] == low then f[0] else f[k + 1]
    ensures Pairs(es, done[low := true], calls[1..], f')
  {
    hide Meets;
    var done', rest := done[low := true], calls[1..];
    forall k | 0 <= k < |f'|
      ensures f'[k] < |es| && !done'[f'[k]] && Meets(rest[k], es[f'[k]])
    {
      assert rest[k] == calls[k + 1] && f[0] != f[k + 1];
    }
    forall k, l | 0 <= k < l < |f'|
      ensures f'[k] != f'[l]
    {
      assert f[k + 1] != f[l + 1] && f[0] != f[k + 1] && f[0] != f[l + 1];
    }
  }

  /** With all but two expectations fulfilled, a call that meets both takes the first, and the
      call that meets only this one fails. */
  lemma {:induction false} TakesTheOnlyOne(es: seq<Expected>, i: nat, j: nat, both: Call, call: Call)
    requires i < j < |es| && Meets(both, es[i]) && Meets(both, es[j]) && Meets(call, es[i]) && !Meets(call, es[j])
    ensures !NeverMisses(es)
  {
    var done := seq(|es|, k => k != i && k != j);
    var calls := [both, call];
    var f: seq<nat> := [j, i];
    assert Pairs(es, done, calls, f);
    assert Pairable(es, done, calls);
    UnorderedTakesTheLowest(es, done, both, 0);
    var r := Find(false, es, done, both, 0);
    assert r == Fulfilled(i);
    var done1 := done[i := true];
    assert Next(false, es, done, both) == (r, done1);
    UnorderedTakesTheLowest(es, done1, call, 0);
    assert !Find(false, es, done1, call, 0).Fulfilled?;
    assert calls[0] == both && calls[1..] == [call] && [call][0] == call;
    assert !Make(false, es, done1, [call]).0;
    assert !Make(false, es, done, calls).0;
  }

  /** For example, two calls that could be paired with the two expectations: the first call takes
      the expectation that the second needs. */
  lemma {:induction false} UnorderedCanMiss(name: string)
    ensures var any, one := Expected(name, _ => true), Expected(name, args => args == ["x"]);
            var x, y := Call(name, ["x"]), Call(name, ["y"]);
            && Meets(x, one) && Meets(y, any)
            && !Make(false, [any, one], [false, false], [x, y]).0
  {
    var any, one := Expected(name, _ => true), Expected(name, args => args == ["x"]);
    var x, y := Call(name, ["x"]), Call(name, ["y"]);
    var es := [any, one];
    UnorderedTakesTheLowest(es, [false, false], x, 0);
    assert Next(false, es, [false, false], x).1 == [true, false];
    UnorderedTakesTheLowest(es, [true, false], y, 0);
    assert y.args[0] != "x"[..];
    assert [x, y][1..] == [y];
  }
}
