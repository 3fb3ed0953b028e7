/**
 The billing circuit breaker, whose state, last failure time and failure count
 live behind two separate locks and an atomic. Any number of callers run `call`
 at once, each as often as it likes; a step is one lock acquisition, one atomic,
 the work between two of them up to and including the releases (releasing never
 waits), or the beginning of a caller's next call.
 */
module LockedBreaker {
  import opened Prelude

  type CallerId = nat

  datatype CircuitBreakerState = Closed | Open | HalfOpen

  /** Program points of `call`; comments name the locks held and awaited. */
  datatype Pc =
    | CheckWait                        // awaits state
    | CheckHeld                        // holds state
    | TimeWait                         // holds state, awaits last_failure_time
    | TimeHeld                         // holds both
    | ReopenWait                       // holds last_failure_time, awaits state
    | ReopenHeld                       // holds both
    | Admitted                         // holds none, runs the operation
    | CloseWait                        // awaits state
    | CloseHeld                        // holds state
    | FailWait(failures: nat)          // awaits last_failure_time
    | FailHeld(failures: nat)          // holds last_failure_time
    | OpenWait                         // holds last_failure_time, awaits state
    | OpenHeld                         // holds both
    | Refused                          // returned: the breaker is open
    | Succeeded                        // returned the operation's result
    | Failed                           // returned the operation's error

  predicate HoldsState(pc: Pc) {
    pc.CheckHeld? || pc.TimeWait? || pc.TimeHeld? || pc.ReopenHeld? || pc.CloseHeld? || pc.OpenHeld?
  }

  predicate HoldsTime(pc: Pc) {
    pc.TimeHeld? || pc.ReopenWait? || pc.ReopenHeld? || pc.OpenWait? || pc.OpenHeld? || pc.FailHeld?
  }

  predicate WantsState(pc: Pc) {
    pc.CheckWait? || pc.ReopenWait? || pc.CloseWait? || pc.OpenWait?
  }

  predicate WantsTime(pc: Pc) {
    pc == TimeWait || pc.FailWait?
  }

  predicate Finished(pc: Pc) {
    pc.Refused? || pc.Succeeded? || pc.Failed?
  }

  /** The last two fields are history, which no step reads. */
  datatype Breaker = Breaker(
    failureThreshold: nat,
    recoveryTimeout: nat,
    state: CircuitBreakerState,
    failureCount: nat,
    lastFailureTime: Option<int>,
    stateOwner: Option<CallerId>,
    timeOwner: Option<CallerId>,
    callers: map<CallerId, Pc>,
    repeats: map<CallerId, nat>,       // calls begun after the first
    resumed: set<CallerId>)            // who began one after a success

  /** `now` is what the clock says if the step reads it, `ok` how the operation ends if the step runs it. */
  datatype Action = Action(c: CallerId, now: int, ok: bool)

  function Init(failureThreshold: nat, recoveryTimeout: nat, callers: set<CallerId>): Breaker {
    Breaker(failureThreshold, recoveryTimeout, Closed, 0, None, None, None,
            map c | c in callers :: CheckWait, map[], {})
  }

  predicate Enabled(s: Breaker, c: CallerId) {
    && c in s.callers
    && (WantsState(s.callers[c]) ==> s.stateOwner == None)
    && (WantsTime(s.callers[c]) ==> s.timeOwner == None)
  }

  /** Who owns a lock after `c` has moved to a point that holds it, or does not. */
  function Ownership(owner: Option<CallerId>, c: CallerId, holds: bool): Option<CallerId> {
    if holds then Some(c) else if owner == Some(c) then None else owner
  }

  function Goto(s: Breaker, c: CallerId, pc: Pc): Breaker {
    s.(callers := s.callers[c := pc],
       stateOwner := Ownership(s.stateOwner, c, HoldsState(pc)),
       timeOwner := Ownership(s.timeOwner, c, HoldsTime(pc)))
  }

  function Elapsed(now: int, since: int): nat {
    if now >= since then now - since else 0
  }

  /** The guard on last_failure_time outlives the release of `state` that follows this test. */
  predicate Expired(s: Breaker, now: int) {
    s.lastFailureTime.Some? && Elapsed(now, s.lastFailureTime.value) > s.recoveryTimeout
  }

  function NextPc(s: Breaker, pc: Pc, a: Action): Pc {
    match pc
    case CheckWait => CheckHeld
    case CheckHeld => if s.state == Open then TimeWait else Admitted
    case TimeWait => TimeHeld
    case TimeHeld => if Expired(s, a.now) then ReopenWait else Refused
    case ReopenWait => ReopenHeld
    case ReopenHeld => Admitted
    case Admitted => if a.ok then CloseWait else FailWait(s.failureCount + 1)
    case CloseWait => CloseHeld
    case CloseHeld => Succeeded
    case FailWait(failures) => FailHeld(failures)
    case FailHeld(failures) => if failures >= s.failureThreshold then OpenWait else Failed
    case OpenWait => OpenHeld
    case OpenHeld => Failed
    case Refused => CheckWait
    case Succeeded => CheckWait
    case Failed => CheckWait
  }

  function RepeatsOf(s: Breaker, c: CallerId): nat {
    if c in s.repeats then s.repeats[c] else 0
  }

  /** The history of a caller that begins another call. */
  function BeginAgain(s: Breaker, c: CallerId, succeeded: bool): Breaker {
    s.(repeats := s.repeats[c := RepeatsOf(s, c) + 1], resumed := s.resumed + if succeeded then {c} else {})
  }

  /** What the step writes: each write is made while its lock is held, or is the atomic count. */
  function Effect(s: Breaker, pc: Pc, a: Action): Breaker {
    match pc
    case ReopenHeld => s.(state := HalfOpen)
    case Admitted => s.(failureCount := if a.ok then 0 else s.failureCount + 1)
    case CloseHeld => s.(state := Closed)
    case FailHeld(_) => s.(lastFailureTime := Some(a.now))
    case OpenHeld => s.(state := Open)
    case Refused => BeginAgain(s, a.c, false)
    case Succeeded => BeginAgain(s, a.c, true)
    case Failed => BeginAgain(s, a.c, false)
    case _ => s
  }

  function Apply(s: Breaker, a: Action): Breaker
    requires Enabled(s, a.c)
  {
    Goto(Effect(s, s.callers[a.c], a), a.c, NextPc(s, s.callers[a.c], a))
  }

  /** What the history records: every further call, of its caller, and who made one after a success. */
  lemma StepHistory(s: Breaker, a: Action, c: CallerId)
    requires Enabled(s, a.c)
    ensures var t, again := Apply(s, a), Finished(s.callers[a.c]);
            && RepeatsOf(t, c) == RepeatsOf(s, c) + (if again && c == a.c then 1 else 0)
            && (c in t.resumed <==> c in s.resumed || (c == a.c && s.callers[c] == Succeeded))
            && (again ==> t.callers[a.c] == CheckWait)
  {
  }

  ghost predicate IsRun(s: Breaker, acts: seq<Action>)
    decreases |acts|, 0
  {
    acts == [] ||
    (IsRun(s, acts[..|acts| - 1]) && Enabled(Run(s, acts[..|acts| - 1]), acts[|acts| - 1].c))
  }

  ghost function Run(s: Breaker, acts: seq<Action>): Breaker
    requires IsRun(s, acts)
    decreases |acts|, 1
  {
    if acts == [] then s
    else Apply(Run(s, acts[..|acts| - 1]), acts[|acts| - 1])
  }

  // ------------------------------------------------------------- mutual exclusion

  /** Each lock is owned by exactly the caller whose program point holds it. */
  ghost predicate LocksMatch(s: Breaker) {
    forall c :: c in s.callers ==>
      (HoldsState(s.callers[c]) <==> s.stateOwner == Some(c)) && (HoldsTime(s.callers[c]) <==> s.timeOwner == Some(c))
  }

  ghost predicate OwnersAreCallers(s: Breaker) {
    && (s.stateOwner.Some? ==> s.stateOwner.value in s.callers)
    && (s.timeOwner.Some? ==> s.timeOwner.value in s.callers)
  }

  ghost predicate Inv(s: Breaker) {
    LocksMatch(s) && OwnersAreCallers(s)
  }

  /** A caller may move to a point that holds a lock if it has the lock or nobody has. */
  lemma GotoKeepsInv(s: Breaker, c: CallerId, pc: Pc)
    requires Inv(s) && c in s.callers
    requires HoldsState(pc) ==> HoldsState(s.callers[c]) || s.stateOwner == None
    requires HoldsTime(pc) ==> HoldsTime(s.callers[c]) || s.timeOwner == None
    ensures Inv(Goto(s, c, pc))
  {
  }

  lemma StepKeepsInv(s: Breaker, a: Action)
    requires Inv(s) && Enabled(s, a.c)
    ensures Inv(Apply(s, a))
  {
    var pc := s.callers[a.c];
    var t := Effect(s, pc, a);
    assert t.callers == s.callers && t.stateOwner == s.stateOwner && t.timeOwner == s.timeOwner;
    GotoKeepsInv(t, a.c, NextPc(s, pc, a));
  }

  lemma {:induction false} RunKeepsInv(s: Breaker, acts: seq<Action>)
    requires Inv(s) && IsRun(s, acts)
    ensures Inv(Run(s, acts))
  {
    if acts != [] {
      RunKeepsInv(s, acts[..|acts| - 1]);
      StepKeepsInv(Run(s, acts[..|acts| - 1]), acts[|acts| - 1]);
    }
  }

  /** In every run at most one caller is inside each critical section. */
  lemma MutualExclusion(threshold: nat, timeout: nat, callers: set<CallerId>, acts: seq<Action>, c: CallerId,
                        d: CallerId)
    requires IsRun(Init(threshold, timeout, callers), acts)
    requires c in Run(Init(threshold, timeout, callers), acts).callers
    requires d in Run(Init(threshold, timeout, callers), acts).callers
    ensures var s := Run(Init(threshold, timeout, callers), acts);
            && (HoldsState(s.callers[c]) && HoldsState(s.callers[d]) ==> c == d)
            && (HoldsTime(s.callers[c]) && HoldsTime(s.callers[d]) ==> c == d)
  {
    RunKeepsInv(Init(threshold, timeout, callers), acts);
  }

  // --------------------------------------------------------------------- deadlock

  /** Some call is under way, and no call that is can take a step. */
  ghost predicate Stuck(s: Breaker) {
    && (exists c :: c in s.callers && !Finished(s.callers[c]))
    && (forall c :: c in s.callers && !Finished(s.callers[c]) ==> !Enabled(s, c))
  }

  /** `c` holds the state lock and waits for the time lock, which `d` holds while waiting for the state lock. */
  ghost predicate Embrace(s: Breaker, c: CallerId, d: CallerId) {
    && c in s.callers && d in s.callers
    && HoldsState(s.callers[c]) && WantsTime(s.callers[c])
    && HoldsTime(s.callers[d]) && WantsState(s.callers[d])
  }

  /** Everybody who is neither finished nor in the embrace waits for one of its two locks. */
  ghost predicate OthersWait(s: Breaker) {
    forall c :: c in s.callers ==> Finished(s.callers[c]) || WantsState(s.callers[c]) || WantsTime(s.callers[c])
  }

  /**
   A reachable configuration is stuck exactly when two callers embrace and nobody else has
   anything but waiting to do.
   */
  lemma StuckIffEmbrace(threshold: nat, timeout: nat, callers: set<CallerId>, acts: seq<Action>)
    requires IsRun(Init(threshold, timeout, callers), acts)
    ensures var s := Run(Init(threshold, timeout, callers), acts);
            Stuck(s) <==> OthersWait(s) && exists c, d :: Embrace(s, c, d)
  {
    RunKeepsInv(Init(threshold, timeout, callers), acts);
    var s := Run(Init(threshold, timeout, callers), acts);
    if Stuck(s) {
      StuckEmbraces(s);
    }
    if OthersWait(s) && exists c, d :: Embrace(s, c, d) {
      var c: CallerId, d: CallerId :| Embrace(s, c, d);
      assert s.stateOwner == Some(c) && s.timeOwner == Some(d);
    }
  }

  lemma StuckEmbraces(s: Breaker)
    requires Inv(s) && Stuck(s)
    ensures OthersWait(s) && exists c, d :: Embrace(s, c, d)
  {
    var e :| e in s.callers && !Finished(s.callers[e]);
    assert !Enabled(s, e);
    if WantsState(s.callers[e]) {
      var c := s.stateOwner.value;
      assert !Enabled(s, c);
      var d := s.timeOwner.value;
      assert !Enabled(s, d);
      assert Embrace(s, c, d);
    } else {
      var d := s.timeOwner.value;
      assert !Enabled(s, d);
      var c := s.stateOwner.value;
      assert !Enabled(s, c);
      assert Embrace(s, c, d);
    }
  }

  /** Once two callers embrace they never leave: no continuation gives either of them, or anyone else, a lock. */
  lemma {:induction false} EmbraceIsForever(s: Breaker, c: CallerId, d: CallerId, acts: seq<Action>)
    requires Inv(s) && Embrace(s, c, d) && IsRun(s, acts)
    ensures var t := Run(s, acts);
            && Embrace(t, c, d) && !Enabled(t, c) && !Enabled(t, d)
            && t.stateOwner == Some(c) && t.timeOwner == Some(d)
            && t.state == s.state && t.lastFailureTime == s.lastFailureTime
  {
    if acts != [] {
      var front, a := acts[..|acts| - 1], acts[|acts| - 1];
      EmbraceIsForever(s, c, d, front);
      RunKeepsInv(s, front);
      var t := Run(s, front);
      assert Enabled(t, a.c) && a.c != c && a.c != d;
      assert !HoldsState(t.callers[a.c]) && !HoldsTime(t.callers[a.c]);
    }
  }

  /** A stuck breaker only lets a finished caller begin another call, which then waits as well. */
  lemma StuckStep(s: Breaker, a: Action)
    requires Inv(s) && Stuck(s) && Enabled(s, a.c)
    ensures Finished(s.callers[a.c]) && Apply(s, a).callers == s.callers[a.c := CheckWait]
    ensures Stuck(Apply(s, a))
  {
    StuckEmbraces(s);
    var c: CallerId, d: CallerId :| Embrace(s, c, d);
    assert s.stateOwner == Some(c) && s.timeOwner == Some(d);
    assert !Enabled(s, c) && !Finished(s.callers[c]);
    var t := Apply(s, a);
    assert t.stateOwner == Some(c) && t.timeOwner == Some(d);
    assert c in t.callers && !Finished(t.callers[c]);
    forall x | x in t.callers && !Finished(t.callers[x])
      ensures !Enabled(t, x)
    {
      assert x != a.c ==> !Enabled(s, x);
    }
  }

  /**
   A stuck breaker stays stuck: no call under way ever takes another step, and one that is
   begun later waits for the state lock and never gets it.
   */
  lemma {:induction false} StuckIsForever(s: Breaker, acts: seq<Action>)
    requires Inv(s) && Stuck(s) && IsRun(s, acts)
    ensures var t := Run(s, acts);
            && Stuck(t) && t.callers.Keys == s.callers.Keys
            && forall c :: c in s.callers ==>
                 t.callers[c] == s.callers[c] || (Finished(s.callers[c]) && t.callers[c] == CheckWait)
  {
    if acts != [] {
      var front := acts[..|acts| - 1];
      StuckIsForever(s, front);
      RunKeepsInv(s, front);
      StuckStep(Run(s, front), acts[|acts| - 1]);
    }
  }

  // ----------------------------------------------------------------- reachability

  ghost predicate Reaches(s: Breaker, t: Breaker) {
    exists acts: seq<Action> :: IsRun(s, acts) && Run(s, acts) == t
  }

  lemma ReachesItself(s: Breaker)
    ensures Reaches(s, s)
  {
    assert IsRun(s, []) && Run(s, []) == s;
  }

  lemma ReachesNext(s: Breaker, t: Breaker, a: Action)
    requires Reaches(s, t) && Enabled(t, a.c)
    ensures Reaches(s, Apply(t, a))
  {
    var acts: seq<Action> :| IsRun(s, acts) && Run(s, acts) == t;
    assert (acts + [a])[..|acts|] == acts;
    assert IsRun(s, acts + [a]) && Run(s, acts + [a]) == Apply(t, a);
  }

  lemma {:induction false} ReachesAlong(s: Breaker, t: Breaker, acts: seq<Action>)
    requires Reaches(s, t) && IsRun(t, acts)
    ensures Reaches(s, Run(t, acts))
  {
    if acts != [] {
      ReachesAlong(s, t, acts[..|acts| - 1]);
      ReachesNext(s, Run(t, acts[..|acts| - 1]), acts[|acts| - 1]);
    }
  }

  lemma ReachesFurther(s: Breaker, t: Breaker, u: Breaker)
    requires Reaches(s, t) && Reaches(t, u)
    ensures Reaches(s, u)
  {
    var acts: seq<Action> :| IsRun(t, acts) && Run(t, acts) == u;
    ReachesAlong(s, t, acts);
  }
}
