/**
 When the billing breaker can deadlock: with two callers that go on calling, always; and
 within a limit on each caller's calls exactly when these suffice to open the breaker
 and then to meet in it.
 */
module BreakerDeadlock {
  import opened Prelude
  import opened Totals
  import opened LockedBreaker
  import BR = BillingRecovery

  /** The failures it takes to open the breaker; a threshold of zero acts like one. */
  function Opening(threshold: nat): nat {
    if threshold == 0 then 1 else threshold
  }

  /** Two callers, and two calls more than it takes to open the breaker. */
  ghost predicate Enough(threshold: nat, retries: map<CallerId, nat>) {
    |retries| >= 2 && |retries| + Total(retries) >= Opening(threshold) + 2
  }

  /** No caller has called again more often than it may. */
  ghost predicate Within(s: Breaker, retries: map<CallerId, nat>) {
    forall c :: c in s.callers && c in retries ==> RepeatsOf(s, c) <= retries[c]
  }

  function FailedBy(s: Breaker, c: CallerId): nat
    requires c in s.callers
  {
    RepeatsOf(s, c) + if HasFailed(s.callers[c]) then 1 else 0
  }

  /** The calls of each caller that may have failed: all but the one under way, which may not have yet. */
  function FailedCalls(s: Breaker): map<CallerId, nat> {
    map c | c in s.callers :: FailedBy(s, c)
  }

  /** What a caller may spend on failing: every call it may make, but one less if it is reserved. */
  function SpareOf(retries: map<CallerId, nat>, reserved: set<CallerId>, c: CallerId): nat
    requires c in retries
  {
    retries[c] + if c in reserved then 0 else 1
  }

  function Spare(retries: map<CallerId, nat>, reserved: set<CallerId>): map<CallerId, nat> {
    map c | c in retries :: SpareOf(retries, reserved, c)
  }

  lemma {:induction false} NothingReserved(retries: map<CallerId, nat>)
    ensures Total(Spare(retries, {})) == |retries| + Total(retries)
    decreases |retries|
  {
    if c :| c in retries {
      var rest := retries - {c};
      TotalSplit(Spare(retries, {}), c);
      TotalSplit(retries, c);
      assert Spare(retries, {}) - {c} == Spare(rest, {});
      NothingReserved(rest);
    }
  }

  lemma OneReserved(retries: map<CallerId, nat>, c: CallerId)
    requires c in retries
    ensures Total(Spare(retries, {c})) + 1 == |retries| + Total(retries)
  {
    NothingReserved(retries);
    TotalChange(Spare(retries, {}), c, retries[c]);
    assert Spare(retries, {c}) == Spare(retries, {})[c := retries[c]];
  }

  lemma TwoReserved(retries: map<CallerId, nat>, c: CallerId, d: CallerId)
    requires c in retries && d in retries && c != d
    ensures Total(Spare(retries, {c, d})) + 2 == |retries| + Total(retries)
  {
    OneReserved(retries, c);
    TotalChange(Spare(retries, {c}), d, retries[d]);
    assert Spare(retries, {c, d}) == Spare(retries, {c})[d := retries[d]];
  }

  // ------------------------------------------------------------- why it takes so many

  predicate HasFailed(pc: Pc) {
    pc.FailWait? || pc.FailHeld? || pc.OpenWait? || pc.OpenHeld? || pc.Failed?
  }

  /** The caller drew a count that opens the breaker, and has yet to open it. */
  predicate WillOpen(pc: Pc, threshold: nat) {
    || ((pc.FailWait? || pc.FailHeld?) && pc.failures >= threshold)
    || pc.OpenWait? || pc.OpenHeld?
  }

  /** The caller found the breaker open and is still dealing with that. */
  predicate SawOpen(pc: Pc) {
    pc.TimeWait? || pc.TimeHeld? || pc.ReopenWait? || pc.ReopenHeld?
  }

  function Opens(s: Breaker, c: CallerId): nat
    requires c in s.callers
  {
    if WillOpen(s.callers[c], s.failureThreshold) then 1 else 0
  }

  /** One for every caller that has yet to open the breaker. */
  function Openers(s: Breaker): map<CallerId, nat> {
    map c | c in s.callers :: Opens(s, c)
  }

  /** Something shows that the breaker was opened, and so that a call is done opening it. */
  ghost predicate WasOpened(s: Breaker) {
    s.state == Open || exists c :: c in s.callers && SawOpen(s.callers[c])
  }

  /** At least so many calls have drawn a count that opens the breaker. */
  ghost function Draws(s: Breaker): nat {
    Total(Openers(s)) + if WasOpened(s) then 1 else 0
  }

  /** The first such draw comes after all the others it takes, and each one is a failed call. */
  ghost predicate Counted(s: Breaker) {
    var failed := Total(FailedCalls(s));
    s.failureCount <= failed && (Draws(s) > 0 ==> failed >= Opening(s.failureThreshold) - 1 + Draws(s))
  }

  /** A step is one caller's: nobody else moves or calls again. */
  ghost predicate OnlyMoves(s: Breaker, t: Breaker, c: CallerId) {
    && c in s.callers && t.callers.Keys == s.callers.Keys && t.failureThreshold == s.failureThreshold
    && forall x :: x in s.callers && x != c ==> t.callers[x] == s.callers[x] && RepeatsOf(t, x) == RepeatsOf(s, x)
  }

  lemma StepMovesOne(s: Breaker, a: Action)
    requires Enabled(s, a.c)
    ensures OnlyMoves(s, Apply(s, a), a.c)
  {
  }

  /** So the two sums change in that caller alone. */
  lemma FailedAfterMove(s: Breaker, t: Breaker, c: CallerId)
    requires OnlyMoves(s, t, c)
    ensures Total(FailedCalls(t)) == Total(FailedCalls(s)) - FailedBy(s, c) + FailedBy(t, c)
  {
    TotalChange(FailedCalls(s), c, FailedBy(t, c));
    assert FailedCalls(t) == FailedCalls(s)[c := FailedBy(t, c)];
  }

  lemma OpenersAfterMove(s: Breaker, t: Breaker, c: CallerId)
    requires OnlyMoves(s, t, c)
    ensures Total(Openers(t)) == Total(Openers(s)) - Opens(s, c) + Opens(t, c)
  {
    TotalChange(Openers(s), c, Opens(t, c));
    assert Openers(t) == Openers(s)[c := Opens(t, c)];
  }

  /**
   And by these amounts: a call that fails, or ends, may count one more; the count it drew may open
   the breaker, until it has.
   */
  lemma CallerAfterStep(s: Breaker, a: Action)
    requires Enabled(s, a.c)
    ensures var pc, t := s.callers[a.c], Apply(s, a);
            && a.c in t.callers
            && FailedBy(t, a.c) == FailedBy(s, a.c) +
                 (if (pc == Admitted && !a.ok) || pc == Refused || pc == Succeeded then 1 else 0)
            && Opens(t, a.c) == Opens(s, a.c) - (if pc == OpenHeld then 1 else 0) +
                 (if pc == Admitted && !a.ok && s.failureCount + 1 >= s.failureThreshold then 1 else 0)
            && t.failureCount == if pc != Admitted then s.failureCount else if a.ok then 0 else s.failureCount + 1
  {
  }

  lemma OpenedAfterStep(s: Breaker, a: Action)
    requires Enabled(s, a.c)
    ensures WasOpened(Apply(s, a)) ==> WasOpened(s) || s.callers[a.c] == OpenHeld
  {
    var t := Apply(s, a);
    if WasOpened(t) && t.state != Open {
      var c :| c in t.callers && SawOpen(t.callers[c]);
      assert c != a.c ==> t.callers[c] == s.callers[c];
    }
  }

  lemma StepKeepsCounted(s: Breaker, a: Action)
    requires Counted(s) && Enabled(s, a.c)
    ensures Counted(Apply(s, a)) && OnlyMoves(s, Apply(s, a), a.c)
  {
    StepMovesOne(s, a);
    FailedAfterMove(s, Apply(s, a), a.c);
    OpenersAfterMove(s, Apply(s, a), a.c);
    CallerAfterStep(s, a);
    OpenedAfterStep(s, a);
  }

  lemma {:induction false} RunKeepsCounted(s: Breaker, acts: seq<Action>)
    requires Counted(s) && IsRun(s, acts)
    ensures Counted(Run(s, acts)) && Run(s, acts).callers.Keys == s.callers.Keys
    ensures Run(s, acts).failureThreshold == s.failureThreshold
  {
    if acts != [] {
      RunKeepsCounted(s, acts[..|acts| - 1]);
      StepKeepsCounted(Run(s, acts[..|acts| - 1]), acts[|acts| - 1]);
    }
  }

  /** An embrace needs two calls of two callers beside those that opened the breaker. */
  lemma EmbraceNeedsTwoMore(s: Breaker, c: CallerId, d: CallerId, retries: map<CallerId, nat>)
    requires Counted(s) && Embrace(s, c, d) && Within(s, retries) && s.callers.Keys == retries.Keys
    ensures Enough(s.failureThreshold, retries)
  {
    assert SawOpen(s.callers[c]) && c != d;
    AtLeastTwo(retries, c, d);
    if HasFailed(s.callers[d]) {
      TotalSplit(Openers(s), d);
      FailedWithinSpare(s, retries, {c});
      OneReserved(retries, c);
    } else {
      FailedWithinSpare(s, retries, {c, d});
      TwoReserved(retries, c, d);
    }
  }

  lemma AtLeastTwo(retries: map<CallerId, nat>, c: CallerId, d: CallerId)
    requires c in retries && d in retries && c != d
    ensures |retries| >= 2
  {
    assert |retries| == |retries.Keys|;
    assert retries.Keys == (retries.Keys - {c, d}) + {c, d};
  }

  lemma FailedWithinSpare(s: Breaker, retries: map<CallerId, nat>, reserved: set<CallerId>)
    requires Within(s, retries) && s.callers.Keys == retries.Keys
    requires forall c :: c in reserved && c in s.callers ==> !HasFailed(s.callers[c])
    ensures Total(FailedCalls(s)) <= Total(Spare(retries, reserved))
  {
    TotalAtMost(FailedCalls(s), Spare(retries, reserved));
  }

  lemma StuckCallersSuffice(s: Breaker, retries: map<CallerId, nat>)
    requires Counted(s) && Inv(s) && Stuck(s) && Within(s, retries) && s.callers.Keys == retries.Keys
    ensures Enough(s.failureThreshold, retries)
  {
    StuckEmbraces(s);
    var c: CallerId, d: CallerId :| Embrace(s, c, d);
    EmbraceNeedsTwoMore(s, c, d, retries);
  }

  lemma NothingCounted(threshold: nat, timeout: nat, callers: set<CallerId>)
    ensures Counted(Init(threshold, timeout, callers))
  {
    TotalConstant(Openers(Init(threshold, timeout, callers)), 0);
  }

  lemma StuckNeedsTwoMore(threshold: nat, timeout: nat, retries: map<CallerId, nat>, acts: seq<Action>)
    requires IsRun(Init(threshold, timeout, retries.Keys), acts)
    requires Stuck(Run(Init(threshold, timeout, retries.Keys), acts))
    requires Within(Run(Init(threshold, timeout, retries.Keys), acts), retries)
    ensures Enough(threshold, retries)
  {
    var init := Init(threshold, timeout, retries.Keys);
    NothingCounted(threshold, timeout, retries.Keys);
    RunKeepsCounted(init, acts);
    RunKeepsInv(init, acts);
    StuckCallersSuffice(Run(init, acts), retries);
  }

  // ------------------------------------------------------------ why so many suffice

  /** How often each caller may call again, and which callers keep their last call for the embrace. */
  datatype Plan = Plan(threshold: nat, timeout: nat, retries: map<CallerId, nat>, reserved: set<CallerId>) {

    function Start(): Breaker {
      Init(threshold, timeout, retries.Keys)
    }
  }

  /** The calls made so far are within the plan. */
  ghost predicate Planned(plan: Plan, s: Breaker) {
    && Within(s, plan.retries)
    && forall c :: c in s.callers && c in plan.retries ==> FailedBy(s, c) <= SpareOf(plan.retries, plan.reserved, c)
  }

  /** Nobody is inside a call, and no call has succeeded. */
  ghost predicate AtRest(s: Breaker) {
    && (forall c :: c in s.callers ==> s.callers[c] == CheckWait || s.callers[c] == Failed)
    && s.stateOwner == None && s.timeOwner == None && s.resumed == {}
  }

  lemma RestsAgain(s: Breaker, t: Breaker, c: CallerId, pc: Pc)
    requires AtRest(s) && c in s.callers && t.callers == s.callers[c := pc] && (pc == CheckWait || pc == Failed)
    requires t.stateOwner == None && t.timeOwner == None && t.resumed == s.resumed
    ensures AtRest(t) && t.callers.Keys == s.callers.Keys
  {
  }

  /** At rest, and `k` calls have failed. */
  ghost predicate Between(plan: Plan, s: Breaker, k: nat) {
    && Reaches(plan.Start(), s) && AtRest(s)
    && s.callers.Keys == plan.retries.Keys
    && s.failureThreshold == plan.threshold && s.recoveryTimeout == plan.timeout
    && BR.CellsOf(s) == AfterFailures(plan.threshold, k)
    && Total(FailedCalls(s)) == k
  }

  function AfterFailures(threshold: nat, k: nat): BR.Cells {
    BR.Cells(if k > 0 && k >= threshold then Open else Closed, k, if k > 0 then Some(0) else None)
  }

  lemma StaysPlanned(plan: Plan, s: Breaker, t: Breaker, c: CallerId)
    requires Planned(plan, s) && OnlyMoves(s, t, c) && c in plan.retries
    requires RepeatsOf(t, c) <= plan.retries[c] && FailedBy(t, c) <= SpareOf(plan.retries, plan.reserved, c)
    ensures Planned(plan, t)
  {
  }

  lemma Beginning(plan: Plan) returns (s: Breaker)
    ensures Between(plan, s, 0) && Planned(plan, s)
  {
    s := plan.Start();
    ReachesItself(s);
    TotalConstant(FailedCalls(s), 0);
  }

  /** A caller with a call left calls again, unless its first call is still to come. */
  lemma CallsAgain(plan: Plan, s: Breaker, k: nat, c: CallerId) returns (t: Breaker)
    requires Between(plan, s, k) && Planned(plan, s) && c in s.callers && FailedBy(s, c) <= plan.retries[c]
    ensures Between(plan, t, k) && Planned(plan, t)
    ensures t.callers == s.callers[c := CheckWait] && FailedBy(t, c) == FailedBy(s, c)
  {
    if s.callers[c] == CheckWait {
      t := s;
      assert s.callers == s.callers[c := CheckWait];
    } else {
      t := CallAgain(s, c);
      CalledAgain(s, t, c);
      RestsAgain(s, t, c, CheckWait);
      StaysPlanned(plan, s, t, c);
      ReachesFurther(plan.Start(), s, t);
    }
  }

  lemma CallAgain(s: Breaker, c: CallerId) returns (t: Breaker)
    requires c in s.callers && s.callers[c] == Failed && s.stateOwner == None && s.timeOwner == None
    ensures Reaches(s, t)
    ensures t == s.(callers := s.callers[c := CheckWait], repeats := s.repeats[c := RepeatsOf(s, c) + 1])
  {
    var a := Action(c, 0, false);
    ReachesItself(s);
    ReachesNext(s, s, a);
    t := Apply(s, a);
  }

  /** The failed call is still counted, as one that was repeated. */
  lemma CalledAgain(s: Breaker, t: Breaker, c: CallerId)
    requires c in s.callers && s.callers[c] == Failed
    requires t.callers == s.callers[c := CheckWait] && t.repeats == s.repeats[c := RepeatsOf(s, c) + 1]
    ensures FailedCalls(t) == FailedCalls(s)
    ensures forall x :: x in s.callers ==> FailedBy(t, x) == FailedBy(s, x)
  {
  }

  /** One call that nobody interrupts fails. */
  lemma FailOneMore(plan: Plan, s: Breaker, k: nat, c: CallerId) returns (t: Breaker)
    requires Between(plan, s, k) && Planned(plan, s) && k < Opening(plan.threshold)
    requires c in s.callers && s.callers[c] == CheckWait
    requires FailedBy(s, c) < SpareOf(plan.retries, plan.reserved, c)
    ensures Between(plan, t, k + 1) && Planned(plan, t)
  {
    t := FailAlone(s, c, plan.threshold, k);
    ReachesFurther(plan.Start(), s, t);
    FailedOnceMore(s, t, c);
    RestsAgain(s, t, c, Failed);
    StaysPlanned(plan, s, t, c);
  }

  lemma FailAlone(s: Breaker, c: CallerId, threshold: nat, k: nat) returns (t: Breaker)
    requires c in s.callers && s.callers[c] == CheckWait && s.stateOwner == None && s.timeOwner == None
    requires s.failureThreshold == threshold && k < Opening(threshold) && BR.CellsOf(s) == AfterFailures(threshold, k)
    ensures Reaches(s, t) && BR.CellsOf(t) == AfterFailures(threshold, k + 1)
    ensures t.callers == s.callers[c := Failed] && t.repeats == s.repeats && t.resumed == s.resumed
    ensures t.failureThreshold == s.failureThreshold && t.recoveryTimeout == s.recoveryTimeout
    ensures t.stateOwner == None && t.timeOwner == None
  {
    var config, turn := BR.Config(threshold, s.recoveryTimeout), BR.Turn(0, false, 0);
    t := BR.SoloCallFinishes(s, c, config, BR.CellsOf(s), turn);
    assert BR.AfterCall(config, BR.CellsOf(s), turn) == AfterFailures(threshold, k + 1);
  }

  lemma FailedOnceMore(s: Breaker, t: Breaker, c: CallerId)
    requires c in s.callers && s.callers[c] == CheckWait && t.callers == s.callers[c := Failed]
    requires t.repeats == s.repeats
    ensures forall x :: x in s.callers ==> FailedBy(t, x) == FailedBy(s, x) + if x == c then 1 else 0
    ensures Total(FailedCalls(t)) == Total(FailedCalls(s)) + 1
  {
    assert FailedCalls(t) == FailedCalls(s)[c := FailedBy(s, c) + 1];
    TotalChange(FailedCalls(s), c, FailedBy(s, c) + 1);
  }

  /** The breaker can be opened by that many calls failing in turn. */
  lemma {:induction false} FailInTurn(plan: Plan, k: nat) returns (s: Breaker)
    requires k <= Opening(plan.threshold) && k <= Total(Spare(plan.retries, plan.reserved))
    ensures Between(plan, s, k) && Planned(plan, s)
  {
    if k == 0 {
      s := Beginning(plan);
    } else {
      s := FailInTurn(plan, k - 1);
      var c := SmallerSomewhere(FailedCalls(s), Spare(plan.retries, plan.reserved));
      s := CallsAgain(plan, s, k - 1, c);
      s := FailOneMore(plan, s, k - 1, c);
    }
  }

  /** After the timeout `d` takes the failure time and gives `state` up for a moment. */
  lemma GivesStateUp(s: Breaker, timeout: nat, d: CallerId) returns (t: Breaker)
    requires d in s.callers && s.callers[d] == CheckWait && s.stateOwner == None && s.timeOwner == None
    requires s.state == Open && s.lastFailureTime == Some(0) && s.recoveryTimeout == timeout
    ensures Reaches(s, t)
    ensures t == s.(callers := s.callers[d := ReopenWait], timeOwner := Some(d))
  {
    var config, v, turn := BR.Config(s.failureThreshold, timeout), BR.CellsOf(s), BR.Turn(timeout + 1, true, 0);
    var a := Action(d, timeout + 1, true);
    BR.ReachesAsItself(s, d, turn);
    assert s.callers[d := CheckWait] == s.callers;
    t := BR.SoloLook(s, d, config, v, turn, a);
    t := BR.SoloTime(s, t, d, config, v, turn, a);
  }

  /** In that moment `c` takes it. */
  lemma TakesState(s: Breaker, c: CallerId) returns (t: Breaker)
    requires c in s.callers && s.callers[c] == CheckWait && s.stateOwner == None && s.state == Open
    requires s.timeOwner != Some(c)
    ensures Reaches(s, t)
    ensures t == s.(callers := s.callers[c := TimeWait], stateOwner := Some(c))
  {
    var a := Action(c, 0, true);
    ReachesItself(s);
    ReachesNext(s, s, a);
    var held := Apply(s, a);
    assert held == s.(callers := s.callers[c := CheckHeld], stateOwner := Some(c));
    ReachesNext(s, held, a);
    t := Apply(held, a);
    assert s.callers[c := CheckHeld][c := TimeWait] == s.callers[c := TimeWait];
  }

  lemma NobodyMoves(s: Breaker, c: CallerId, d: CallerId)
    requires c in s.callers && d in s.callers && s.callers[c] == TimeWait && s.callers[d] == ReopenWait
    requires forall x :: x in s.callers && x != c && x != d ==> s.callers[x] == CheckWait || s.callers[x] == Failed
    requires s.stateOwner == Some(c) && s.timeOwner == Some(d)
    ensures Stuck(s)
  {
    assert c in s.callers && !Finished(s.callers[c]);
  }

  /** Once the breaker is open, two callers that have yet to look at it meet in it. */
  lemma OpenBreakerEmbraces(s: Breaker, timeout: nat, c: CallerId, d: CallerId) returns (t: Breaker)
    requires c in s.callers && s.callers[c] == CheckWait && d in s.callers && s.callers[d] == CheckWait && c != d
    requires AtRest(s) && s.state == Open && s.lastFailureTime == Some(0) && s.recoveryTimeout == timeout
    ensures Reaches(s, t) && Stuck(t) && t.callers.Keys == s.callers.Keys && t.repeats == s.repeats
    ensures t.resumed == s.resumed
  {
    var u := GivesStateUp(s, timeout, d);
    t := TakesState(u, c);
    ReachesFurther(s, u, t);
    NobodyMoves(t, c, d);
  }

  /** A caller that keeps its last call can always make it. */
  lemma KeptCall(plan: Plan, s: Breaker, k: nat, c: CallerId) returns (t: Breaker)
    requires Between(plan, s, k) && Planned(plan, s) && c in s.callers && c in plan.reserved
    ensures Between(plan, t, k) && Planned(plan, t) && t.callers == s.callers[c := CheckWait]
  {
    t := CallsAgain(plan, s, k, c);
  }

  /** The last failure opens the breaker, with two callers yet to look at it. */
  lemma OpenWithTwoLeft(plan: Plan, c: CallerId, d: CallerId) returns (s: Breaker)
    requires c in plan.retries && d in plan.retries && c != d && plan.reserved == {c, d}
    requires |plan.retries| + Total(plan.retries) >= Opening(plan.threshold) + 2
    ensures Between(plan, s, Opening(plan.threshold)) && Within(s, plan.retries)
    ensures s.callers[c] == CheckWait && s.callers[d] == CheckWait
  {
    TwoReserved(plan.retries, c, d);
    var n := Opening(plan.threshold);
    s := FailInTurn(plan, n);
    s := KeptCall(plan, s, n, c);
    s := KeptCall(plan, s, n, d);
  }

  /** And these two calls meet in it. */
  lemma EnoughCallsMeet(threshold: nat, timeout: nat, retries: map<CallerId, nat>) returns (t: Breaker)
    requires Enough(threshold, retries)
    ensures Reaches(Init(threshold, timeout, retries.Keys), t)
    ensures Stuck(t) && Within(t, retries) && t.resumed == {}
  {
    var c, d := Two(retries.Keys);
    var plan := Plan(threshold, timeout, retries, {c, d});
    var s := OpenWithTwoLeft(plan, c, d);
    t := OpenBreakerEmbraces(s, timeout, c, d);
    ReachesFurther(plan.Start(), s, t);
  }

  lemma EnoughCallsEmbrace(threshold: nat, timeout: nat, retries: map<CallerId, nat>) returns (acts: seq<Action>)
    requires Enough(threshold, retries)
    ensures IsRun(Init(threshold, timeout, retries.Keys), acts)
    ensures var s := Run(Init(threshold, timeout, retries.Keys), acts);
            Stuck(s) && Within(s, retries) && s.resumed == {}
  {
    var init := Init(threshold, timeout, retries.Keys);
    var t := EnoughCallsMeet(threshold, timeout, retries);
    acts :| IsRun(init, acts) && Run(init, acts) == t;
  }

  lemma Two(callers: set<CallerId>) returns (c: CallerId, d: CallerId)
    requires |callers| >= 2
    ensures c in callers && d in callers && c != d
  {
    c :| c in callers;
    assert |callers - {c}| >= 1;
    d :| d in callers - {c};
  }

  // ------------------------------------------------------------------ exactly when

  /** An interleaving that deadlocks, and where it ends. */
  ghost predicate DeadlocksAt(threshold: nat, timeout: nat, callers: set<CallerId>, acts: seq<Action>, s: Breaker) {
    IsRun(Init(threshold, timeout, callers), acts) && Run(Init(threshold, timeout, callers), acts) == s && Stuck(s)
  }

  /** Some interleaving deadlocks. */
  ghost predicate CanDeadlock(threshold: nat, timeout: nat, callers: set<CallerId>) {
    exists acts, s :: DeadlocksAt(threshold, timeout, callers, acts, s)
  }

  /** Some interleaving does in which each caller makes its first call and no more retries than it may. */
  ghost predicate CanDeadlockWithin(threshold: nat, timeout: nat, retries: map<CallerId, nat>) {
    exists acts, s :: DeadlocksAt(threshold, timeout, retries.Keys, acts, s) && Within(s, retries)
  }

  /** Some interleaving does in which, besides, nobody calls again after a success. */
  ghost predicate RetriesCanDeadlock(threshold: nat, timeout: nat, retries: map<CallerId, nat>) {
    exists acts, s :: DeadlocksAt(threshold, timeout, retries.Keys, acts, s) && Within(s, retries) && s.resumed == {}
  }

  /**
   However the calls are limited, caller by caller: there is a deadlock exactly when there are
   two callers, and two calls more than it takes to open the breaker. It makes no difference
   whether callers only call again to retry.
   */
  lemma DeadlockWithinIff(threshold: nat, timeout: nat, retries: map<CallerId, nat>)
    ensures CanDeadlockWithin(threshold, timeout, retries)
       <==> Enough(threshold, retries)
    ensures RetriesCanDeadlock(threshold, timeout, retries) <==> CanDeadlockWithin(threshold, timeout, retries)
  {
    if CanDeadlockWithin(threshold, timeout, retries) {
      var acts, s :| DeadlocksAt(threshold, timeout, retries.Keys, acts, s) && Within(s, retries);
      StuckNeedsTwoMore(threshold, timeout, retries, acts);
    }
    if Enough(threshold, retries) {
      var acts := EnoughCallsEmbrace(threshold, timeout, retries);
      var s := Run(Init(threshold, timeout, retries.Keys), acts);
      assert DeadlocksAt(threshold, timeout, retries.Keys, acts, s);
    }
  }

  /** As many retries for every caller. */
  function Each(callers: set<CallerId>, retries: nat): map<CallerId, nat> {
    map c | c in callers :: retries
  }

  lemma EachEnough(threshold: nat, callers: set<CallerId>, retries: nat, calls: nat)
    requires calls == |callers| * (retries + 1)
    ensures Each(callers, retries).Keys == callers
    ensures Enough(threshold, Each(callers, retries)) <==> |callers| >= 2 && calls >= Opening(threshold) + 2
  {
    var each := Each(callers, retries);
    assert each.Keys == callers && |each| == |each.Keys|;
    TotalConstant(each, retries);
    assert calls == |callers| + |callers| * retries;
  }

  /** Without a limit, two callers deadlock at every threshold and timeout, and one alone never does. */
  lemma DeadlockIff(threshold: nat, timeout: nat, callers: set<CallerId>)
    ensures CanDeadlock(threshold, timeout, callers) <==> |callers| >= 2
  {
    if CanDeadlock(threshold, timeout, callers) {
      var acts, s :| DeadlocksAt(threshold, timeout, callers, acts, s);
      var made := map c | c in callers :: RepeatsOf(s, c);
      assert made.Keys == callers && |made| == |made.Keys|;
      StuckNeedsTwoMore(threshold, timeout, made, acts);
    }
    if |callers| >= 2 {
      var n := Opening(threshold);
      EachEnough(threshold, callers, n, |callers| * (n + 1));
      assert |callers| * (n + 1) >= 2 * (n + 1);
      var acts := EnoughCallsEmbrace(threshold, timeout, Each(callers, n));
      assert DeadlocksAt(threshold, timeout, callers, acts, Run(Init(threshold, timeout, callers), acts));
    }
  }

  /** Callers that make one call each deadlock exactly when two are left once the breaker is open. */
  lemma SingleCallsDeadlockIff(threshold: nat, timeout: nat, callers: set<CallerId>)
    ensures CanDeadlockWithin(threshold, timeout, Each(callers, 0)) <==> |callers| >= Opening(threshold) + 2
  {
    EachEnough(threshold, callers, 0, |callers|);
    DeadlockWithinIff(threshold, timeout, Each(callers, 0));
  }

  /**
   Executions of the retry loop deadlock exactly when there are two, with two attempts more
   than it takes to open the breaker.
   */
  lemma RetryLoopsDeadlockIff(threshold: nat, timeout: nat, callers: set<CallerId>, maxAttempts: nat)
    requires maxAttempts > 0
    ensures RetriesCanDeadlock(threshold, timeout, Each(callers, maxAttempts - 1))
       <==> |callers| >= 2 && |callers| * maxAttempts >= Opening(threshold) + 2
  {
    EachEnough(threshold, callers, maxAttempts - 1, |callers| * maxAttempts);
    DeadlockWithinIff(threshold, timeout, Each(callers, maxAttempts - 1));
  }
}
