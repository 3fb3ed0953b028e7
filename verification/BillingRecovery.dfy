/**
 The billing breaker used by one caller at a time, and the retry loop around it.
 A call that meets no competition is a run of the concurrent model's steps.
 */
module BillingRecovery {
  import opened Prelude
  import LB = LockedBreaker

  /** The three cells of the breaker. */
  datatype Cells = Cells(state: LB.CircuitBreakerState, failureCount: nat, lastFailureTime: Option<int>)

  /** The environment of one call: clock at the check, outcome, clock at a failure. */
  datatype Turn = Turn(checkAt: int, ok: bool, failAt: int)

  datatype CallResult = Refused | Returned | Raised

  datatype Config = Config(failureThreshold: nat, recoveryTimeout: nat)

  predicate IsOpen(config: Config, v: Cells, now: int) {
    v.state == LB.Open &&
    (v.lastFailureTime.Some? ==> LB.Elapsed(now, v.lastFailureTime.value) <= config.recoveryTimeout)
  }

  function AfterCheck(config: Config, v: Cells, now: int): Cells {
    if v.state == LB.Open && !IsOpen(config, v, now) then v.(state := LB.HalfOpen) else v
  }

  function AfterFailure(config: Config, v: Cells, now: int): Cells {
    var failures := v.failureCount + 1;
    Cells(if failures >= config.failureThreshold then LB.Open else v.state, failures, Some(now))
  }

  function Answer(config: Config, v: Cells, t: Turn): CallResult {
    if IsOpen(config, v, t.checkAt) then Refused else if t.ok then Returned else Raised
  }

  function AfterCall(config: Config, v: Cells, t: Turn): Cells {
    match Answer(config, v, t)
    case Refused => v
    case Returned => AfterCheck(config, v, t.checkAt).(state := LB.Closed, failureCount := 0)
    case Raised => AfterFailure(config, AfterCheck(config, v, t.checkAt), t.failAt)
  }

  /**
   What a call means, part by part: it is refused exactly while the breaker is open and no failure
   is longer ago than the timeout; else the operation decides, and a success closes and forgets,
   while a failure counts, is stamped, and opens from the threshold on.
   */
  lemma CallMeans(config: Config, v: Cells, t: Turn)
    ensures Answer(config, v, t) == Refused
       <==> v.state == LB.Open && (v.lastFailureTime.Some? ==>
                                     t.checkAt - v.lastFailureTime.value <= config.recoveryTimeout)
    ensures Answer(config, v, t) == Returned ==> t.ok
    ensures Answer(config, v, t) == Raised ==> !t.ok
    ensures Answer(config, v, t) == Refused ==> AfterCall(config, v, t) == v
    ensures Answer(config, v, t) == Returned ==> AfterCall(config, v, t) == Cells(LB.Closed, 0, v.lastFailureTime)
    ensures Answer(config, v, t) == Raised ==>
              AfterCall(config, v, t) ==
              Cells(if v.failureCount + 1 >= config.failureThreshold then LB.Open
                    else if v.state == LB.Closed then LB.Closed else LB.HalfOpen,
                    v.failureCount + 1, Some(t.failAt))
  {
  }

  // ------------------------------------------- the same call in the concurrent model

  function CellsOf(s: LB.Breaker): Cells {
    Cells(s.state, s.failureCount, s.lastFailureTime)
  }

  /** A step of `c` in the environment of `turn`: it checks, ends its operation and fails as that says. */
  ghost predicate Fits(pc: LB.Pc, a: LB.Action, c: LB.CallerId, turn: Turn) {
    && a.c == c
    && (pc == LB.TimeHeld ==> a.now == turn.checkAt)
    && (pc == LB.Admitted ==> a.ok == turn.ok)
    && (pc.FailHeld? ==> a.now == turn.failAt)
  }

  /** A run of such steps only. */
  ghost predicate Follows(s: LB.Breaker, acts: seq<LB.Action>, c: LB.CallerId, turn: Turn)
    requires c in s.callers && LB.IsRun(s, acts)
  {
    acts == [] ||
    var front, a := acts[..|acts| - 1], acts[|acts| - 1];
    Follows(s, front, c, turn) && c in LB.Run(s, front).callers && Fits(LB.Run(s, front).callers[c], a, c, turn)
  }

  ghost predicate ReachesAs(s: LB.Breaker, t: LB.Breaker, c: LB.CallerId, turn: Turn)
    requires c in s.callers
  {
    exists acts: seq<LB.Action> :: LB.IsRun(s, acts) && LB.Run(s, acts) == t && Follows(s, acts, c, turn)
  }

  lemma ReachesAsItself(s: LB.Breaker, c: LB.CallerId, turn: Turn)
    requires c in s.callers
    ensures ReachesAs(s, s, c, turn)
  {
    assert LB.IsRun(s, []) && LB.Run(s, []) == s && Follows(s, [], c, turn);
  }

  lemma ReachesAsNext(s: LB.Breaker, t: LB.Breaker, c: LB.CallerId, turn: Turn, a: LB.Action)
    requires c in s.callers && ReachesAs(s, t, c, turn)
    requires LB.Enabled(t, a.c) && c in t.callers && Fits(t.callers[c], a, c, turn)
    ensures ReachesAs(s, LB.Apply(t, a), c, turn)
  {
    var acts: seq<LB.Action> :| LB.IsRun(s, acts) && LB.Run(s, acts) == t && Follows(s, acts, c, turn);
    var longer := acts + [a];
    assert longer[..|acts|] == acts && longer[|acts|] == a;
    assert LB.IsRun(s, longer) && LB.Run(s, longer) == LB.Apply(t, a);
    assert Follows(s, longer, c, turn);
  }

  /** Against `s`, only `c` stands elsewhere, at `pc`; whatever is locked is locked by `c`. */
  ghost predicate OnlyAt(s: LB.Breaker, t: LB.Breaker, c: LB.CallerId, pc: LB.Pc, config: Config, v: Cells) {
    && t.callers == s.callers[c := pc]
    && t.failureThreshold == config.failureThreshold && t.recoveryTimeout == config.recoveryTimeout
    && t.stateOwner == (if LB.HoldsState(pc) then Some(c) else None)
    && t.timeOwner == (if LB.HoldsTime(pc) then Some(c) else None)
    && CellsOf(t) == v
    && t.repeats == s.repeats && t.resumed == s.resumed
  }

  /** From `s`, `c` alone has moved, to `pc`, as `turn` has it. */
  ghost predicate Alone(s: LB.Breaker, t: LB.Breaker, c: LB.CallerId, pc: LB.Pc, config: Config, v: Cells, turn: Turn) {
    c in s.callers && ReachesAs(s, t, c, turn) && OnlyAt(s, t, c, pc, config, v)
  }

  lemma StepAlone(s: LB.Breaker, t: LB.Breaker, c: LB.CallerId, pc: LB.Pc, config: Config, v: Cells, a: LB.Action)
    requires OnlyAt(s, t, c, pc, config, v) && a.c == c && !LB.Finished(pc)
    requires LB.WantsState(pc) ==> !LB.HoldsState(pc)
    requires LB.WantsTime(pc) ==> !LB.HoldsTime(pc)
    ensures LB.Enabled(t, c)
    ensures OnlyAt(s, LB.Apply(t, a), c, LB.NextPc(t, pc, a), config, CellsOf(LB.Effect(t, pc, a)))
  {
    var next := LB.NextPc(t, pc, a);
    assert s.callers[c := pc][c := next] == s.callers[c := next];
  }

  lemma Move(s: LB.Breaker, t: LB.Breaker, c: LB.CallerId, pc: LB.Pc, config: Config, v: Cells, turn: Turn,
             a: LB.Action)
    returns (u: LB.Breaker, next: LB.Pc, w: Cells)
    requires Alone(s, t, c, pc, config, v, turn) && Fits(pc, a, c, turn) && !LB.Finished(pc)
    requires LB.WantsState(pc) ==> !LB.HoldsState(pc)
    requires LB.WantsTime(pc) ==> !LB.HoldsTime(pc)
    ensures next == LB.NextPc(t, pc, a) && w == CellsOf(LB.Effect(t, pc, a))
    ensures Alone(s, u, c, next, config, w, turn)
  {
    StepAlone(s, t, c, pc, config, v, a);
    ReachesAsNext(s, t, c, turn, a);
    u, next, w := LB.Apply(t, a), LB.NextPc(t, pc, a), CellsOf(LB.Effect(t, pc, a));
  }

  /** The check, up to the point where it is clear whether the time must be looked at. */
  lemma SoloLook(s: LB.Breaker, c: LB.CallerId, config: Config, v: Cells, turn: Turn, a: LB.Action)
    returns (t: LB.Breaker)
    requires a.c == c && Alone(s, s, c, LB.CheckWait, config, v, turn)
    ensures Alone(s, t, c, if v.state == LB.Open then LB.TimeWait else LB.Admitted, config, v, turn)
  {
    var pc, w;
    t, pc, w := Move(s, s, c, LB.CheckWait, config, v, turn, a);
    t, pc, w := Move(s, t, c, LB.CheckHeld, config, v, turn, a);
  }

  lemma SoloCheck(s: LB.Breaker, c: LB.CallerId, config: Config, v: Cells, turn: Turn) returns (t: LB.Breaker)
    requires Alone(s, s, c, LB.CheckWait, config, v, turn)
    ensures Alone(s, t, c, if IsOpen(config, v, turn.checkAt) then LB.Refused else LB.Admitted,
                  config, AfterCheck(config, v, turn.checkAt), turn)
  {
    var now := turn.checkAt;
    var a := LB.Action(c, now, true);
    t := SoloLook(s, c, config, v, turn, a);
    if v.state == LB.Open {
      t := SoloTime(s, t, c, config, v, turn, a);
      if !IsOpen(config, v, now) {
        t := SoloReopen(s, t, c, config, v, turn, a);
      }
    }
  }

  /** The look at the failure time, which decides. */
  lemma SoloTime(s: LB.Breaker, before: LB.Breaker, c: LB.CallerId, config: Config, v: Cells, turn: Turn, a: LB.Action)
    returns (t: LB.Breaker)
    requires Alone(s, before, c, LB.TimeWait, config, v, turn) && a.c == c && a.now == turn.checkAt
    requires v.state == LB.Open
    ensures Alone(s, t, c, if IsOpen(config, v, turn.checkAt) then LB.Refused else LB.ReopenWait, config, v, turn)
  {
    var pc, w;
    t, pc, w := Move(s, before, c, LB.TimeWait, config, v, turn, a);
    t, pc, w := Move(s, t, c, LB.TimeHeld, config, v, turn, a);
  }

  lemma SoloReopen(s: LB.Breaker, before: LB.Breaker, c: LB.CallerId, config: Config, v: Cells, turn: Turn,
                   a: LB.Action)
    returns (t: LB.Breaker)
    requires Alone(s, before, c, LB.ReopenWait, config, v, turn) && a.c == c
    ensures Alone(s, t, c, LB.Admitted, config, v.(state := LB.HalfOpen), turn)
  {
    var pc, w;
    t, pc, w := Move(s, before, c, LB.ReopenWait, config, v, turn, a);
    t, pc, w := Move(s, t, c, LB.ReopenHeld, config, v, turn, a);
  }

  lemma SoloSuccess(s: LB.Breaker, before: LB.Breaker, c: LB.CallerId, config: Config, v: Cells, turn: Turn)
    returns (t: LB.Breaker)
    requires Alone(s, before, c, LB.Admitted, config, v, turn) && turn.ok
    ensures Alone(s, t, c, LB.Succeeded, config, v.(state := LB.Closed, failureCount := 0), turn)
  {
    var a := LB.Action(c, 0, true);
    var pc, w;
    t, pc, w := Move(s, before, c, LB.Admitted, config, v, turn, a);
    t, pc, w := Move(s, t, c, LB.CloseWait, config, w, turn, a);
    t, pc, w := Move(s, t, c, LB.CloseHeld, config, w, turn, a);
  }

  lemma SoloFailure(s: LB.Breaker, before: LB.Breaker, c: LB.CallerId, config: Config, v: Cells, turn: Turn)
    returns (t: LB.Breaker)
    requires Alone(s, before, c, LB.Admitted, config, v, turn) && !turn.ok
    ensures Alone(s, t, c, LB.Failed, config, AfterFailure(config, v, turn.failAt), turn)
  {
    var now := turn.failAt;
    var a := LB.Action(c, now, false);
    var failures := v.failureCount + 1;
    t := SoloCount(s, before, c, config, v, turn, a);
    var stamped := v.(failureCount := failures, lastFailureTime := Some(now));
    var pc, w;
    t, pc, w := Move(s, t, c, LB.FailHeld(failures), config, v.(failureCount := failures), turn, a);
    if failures >= config.failureThreshold {
      t := SoloOpen(s, t, c, config, stamped, turn, a);
    }
  }

  lemma SoloCount(s: LB.Breaker, before: LB.Breaker, c: LB.CallerId, config: Config, v: Cells, turn: Turn,
                  a: LB.Action)
    returns (t: LB.Breaker)
    requires Alone(s, before, c, LB.Admitted, config, v, turn) && a.c == c && !a.ok && !turn.ok
    ensures Alone(s, t, c, LB.FailHeld(v.failureCount + 1), config, v.(failureCount := v.failureCount + 1), turn)
  {
    var pc, w;
    t, pc, w := Move(s, before, c, LB.Admitted, config, v, turn, a);
    t, pc, w := Move(s, t, c, LB.FailWait(v.failureCount + 1), config, w, turn, a);
  }

  lemma SoloOpen(s: LB.Breaker, before: LB.Breaker, c: LB.CallerId, config: Config, v: Cells, turn: Turn,
                 a: LB.Action)
    returns (t: LB.Breaker)
    requires Alone(s, before, c, LB.OpenWait, config, v, turn) && a.c == c
    ensures Alone(s, t, c, LB.Failed, config, v.(state := LB.Open), turn)
  {
    var pc, w;
    t, pc, w := Move(s, before, c, LB.OpenWait, config, v, turn, a);
    t, pc, w := Move(s, t, c, LB.OpenHeld, config, v, turn, a);
  }

  /**
   A call that nobody interrupts always comes to its end, by steps in which its operation ends as
   `turn` says, and does to the cells what `AfterCall` says.
   */
  lemma SoloCallFinishes(s: LB.Breaker, c: LB.CallerId, config: Config, v: Cells, turn: Turn) returns (t: LB.Breaker)
    requires c in s.callers && s.callers[c] == LB.CheckWait
    requires s.stateOwner == None && s.timeOwner == None && CellsOf(s) == v
    requires config == Config(s.failureThreshold, s.recoveryTimeout)
    ensures Alone(s, t, c, match Answer(config, v, turn)
                           case Refused => LB.Refused
                           case Returned => LB.Succeeded
                           case Raised => LB.Failed,
                  config, AfterCall(config, v, turn), turn)
  {
    ReachesAsItself(s, c, turn);
    assert s.callers[c := LB.CheckWait] == s.callers;
    t := SoloCheck(s, c, config, v, turn);
    match Answer(config, v, turn)
    case Refused =>
    case Returned => t := SoloSuccess(s, t, c, config, AfterCheck(config, v, turn.checkAt), turn);
    case Raised => t := SoloFailure(s, t, c, config, AfterCheck(config, v, turn.checkAt), turn);
  }

  // ------------------------------------------------------------------ the objects

  class CircuitBreaker {
    const config: Config
    var state: LB.CircuitBreakerState
    var failureCount: nat
    var lastFailureTime: Option<int>

    ghost function View(): Cells
      reads this
    {
      Cells(state, failureCount, lastFailureTime)
    }

    constructor (config: Config)
      ensures View() == Cells(LB.Closed, 0, None) && this.config == config
    {
      this.config := config;
      state, failureCount, lastFailureTime := LB.Closed, 0, None;
    }

    method CheckOpen(now: int) returns (open: bool)
      modifies this`state
      ensures open == IsOpen(config, old(View()), now)
      ensures View() == AfterCheck(config, old(View()), now)
      ensures open <==> && old(state) == LB.Open
                        && (lastFailureTime.Some? ==> now - lastFailureTime.value <= config.recoveryTimeout)
      ensures state == if old(state) == LB.Open && !open then LB.HalfOpen else old(state)
    {
      match state
      case Open =>
        if lastFailureTime.Some? {
          if LB.Elapsed(now, lastFailureTime.value) > config.recoveryTimeout {
            state := LB.HalfOpen;
            return false;
          }
        }
        return true;
      case HalfOpen => return false;
      case Closed => return false;
    }

    method OnSuccess()
      modifies this
      ensures View() == old(View()).(state := LB.Closed, failureCount := 0)
    {
      failureCount := 0;
      state := LB.Closed;
    }

    method OnFailure(now: int)
      modifies this
      ensures View() == AfterFailure(config, old(View()), now)
      ensures failureCount == old(failureCount) + 1 && lastFailureTime == Some(now)
      ensures state == if failureCount >= config.failureThreshold then LB.Open else old(state)
    {
      failureCount := failureCount + 1;
      lastFailureTime := Some(now);
      if failureCount >= config.failureThreshold {
        state := LB.Open;
      }
    }

    method Call(turn: Turn) returns (r: CallResult)
      modifies this
      ensures r == Answer(config, old(View()), turn)
      ensures View() == AfterCall(config, old(View()), turn)
      ensures r == Refused
         <==> && old(state) == LB.Open
              && (old(lastFailureTime).Some? ==> turn.checkAt - old(lastFailureTime).value <= config.recoveryTimeout)
      ensures (r == Returned ==> turn.ok) && (r == Raised ==> !turn.ok)
    {
      var open := CheckOpen(turn.checkAt);
      if open {
        r := Refused;
      } else if turn.ok {
        OnSuccess();
        r := Returned;
      } else {
        OnFailure(turn.failAt);
        r := Raised;
      }
    }
  }

  /** The breaker after the first `n` attempts. */
  function AfterCalls(config: Config, v: Cells, env: nat -> Turn, n: nat): Cells {
    if n == 0 then v else AfterCall(config, AfterCalls(config, v, env, n - 1), env(n - 1))
  }

  function AnswerAt(config: Config, v: Cells, env: nat -> Turn, n: nat): CallResult {
    Answer(config, AfterCalls(config, v, env, n), env(n))
  }

  datatype Outcome =
    | Done
    | LastError(r: CallResult)
    | Panicked    // no attempt was allowed, so there is no error to return

  class ErrorRecoveryService {
    const maxAttempts: nat
    const breaker: CircuitBreaker
    var errorCount: nat
    var recoveryCount: nat

    constructor (maxAttempts: nat, breaker: CircuitBreaker)
      ensures this.maxAttempts == maxAttempts && this.breaker == breaker && errorCount == 0 && recoveryCount == 0
    {
      this.maxAttempts, this.breaker := maxAttempts, breaker;
      errorCount, recoveryCount := 0, 0;
    }

    method ExecuteWithRecovery(env: nat -> Turn) returns (outcome: Outcome, attempts: nat)
      modifies this, breaker
      ensures attempts <= maxAttempts
      ensures var config, v := breaker.config, old(breaker.View());
              && breaker.View() == AfterCalls(config, v, env, attempts)
              && (outcome == Done ==> attempts > 0 && AnswerAt(config, v, env, attempts - 1) == Returned)
              && (forall i :: 0 <= i < attempts && (outcome == Done ==> i < attempts - 1) ==>
                    AnswerAt(config, v, env, i) != Returned)
              && (outcome != Done ==> attempts == maxAttempts)
              && (outcome != Done ==>
                    outcome == if maxAttempts == 0 then Panicked
                               else LastError(AnswerAt(config, v, env, maxAttempts - 1)))
      // as the operation ended: the last attempt of a success ran and succeeded, and no other did
      ensures outcome == Done ==> env(attempts - 1).ok
      ensures forall i :: 0 <= i < attempts && (outcome == Done ==> i < attempts - 1) ==>
                AnswerAt(breaker.config, old(breaker.View()), env, i) == Refused || !env(i).ok
      ensures errorCount == old(errorCount) + if outcome == Done then attempts - 1 else attempts
      ensures recoveryCount == old(recoveryCount) + if outcome == Done && attempts > 1 then 1 else 0
    {
      ghost var config, v := breaker.config, breaker.View();
      var lastError := None;
      attempts := 0;
      while attempts < maxAttempts
        invariant attempts <= maxAttempts
        invariant breaker.View() == AfterCalls(config, v, env, attempts)
        invariant forall i :: 0 <= i < attempts ==> AnswerAt(config, v, env, i) != Returned
        invariant lastError == if attempts == 0 then None else Some(AnswerAt(config, v, env, attempts - 1))
        invariant errorCount == old(errorCount) + attempts && recoveryCount == old(recoveryCount)
      {
        var r := breaker.Call(env(attempts));
        if r == Returned {
          if attempts > 0 {
            recoveryCount := recoveryCount + 1;
          }
          return Done, attempts + 1;
        }
        errorCount := errorCount + 1;
        lastError := Some(r);
        attempts := attempts + 1;
      }
      outcome := if lastError.Some? then LastError(lastError.value) else Panicked;
    }
  }

  // ------------------------------------------------------------ what one caller sees

  /** Closed below the threshold, open with a recorded failure at or above it, and never left half-open. */
  ghost predicate Settled(config: Config, v: Cells) {
    && (v.state == LB.Closed ==> v.failureCount == 0 || v.failureCount < config.failureThreshold)
    && (v.state == LB.Open ==>
          v.failureCount >= config.failureThreshold && v.failureCount > 0 && v.lastFailureTime.Some?)
    && v.state != LB.HalfOpen
  }

  /** One caller at a time leaves the breaker settled after every call, whatever the operation does. */
  lemma {:induction false} SequentialCallsSettle(config: Config, env: nat -> Turn, n: nat)
    ensures Settled(config, AfterCalls(config, Cells(LB.Closed, 0, None), env, n))
  {
    if n > 0 {
      SequentialCallsSettle(config, env, n - 1);
    }
  }

  /**
   Between such calls an operation is refused exactly while the breaker is open and the timeout
   since its last failure has not passed; a failure after that timeout reopens at once.
   */
  lemma RefusedWhileOpen(config: Config, env: nat -> Turn, n: nat)
    ensures var v, turn := AfterCalls(config, Cells(LB.Closed, 0, None), env, n), env(n);
            && (Answer(config, v, turn) == Refused <==>
                  && v.state == LB.Open && v.lastFailureTime.Some?
                  && LB.Elapsed(turn.checkAt, v.lastFailureTime.value) <= config.recoveryTimeout)
            && (Answer(config, v, turn) == Refused ==> AfterCall(config, v, turn) == v)
            && (Answer(config, v, turn) == Raised && v.state == LB.Open ==>
                  AfterCall(config, v, turn) == Cells(LB.Open, v.failureCount + 1, Some(turn.failAt)))
  {
    SequentialCallsSettle(config, env, n);
  }
}
